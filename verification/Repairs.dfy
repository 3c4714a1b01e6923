/** Repair and repair-all: one server and the whole target (internal/fleet/diff.go),
    and the mirror of one server's text. */
module Repairs {
  import opened Platform
  import opened Records
  import opened Entries
  import opened Edits
  import opened KeySets
  import opened Reconcile
  import Writer

  // ----- one record -----

  /** repairOperation: nothing, a set or an addition. */
  function RepairOperation(es: seq<Entry>, want: Record): Option<Operation> {
    if want in Keys(es) then None
    else if Taken(es, want) then Some(Set(want))
    else Some(Add(want))
  }

  lemma SetKeys(es: seq<Entry>, r: Record)
    requires Writable(r) && OneValuePerName(r.typ)
    ensures Apply(es, Set(r)) == Checked(DeclareZone(Settle(es, Printed(r), r, false), r))
    ensures var out := DeclareZone(Settle(es, Printed(r), r, false), r);
            Keys(out) == (set x | x in Keys(es) && !SameName(x, r)) + {Canon(r)} && Others(es) <= Others(out)
  {
    hide *;
    PrintedRecord(r);
    SetUnfolds(es, r);
    SettleKeys(es, Printed(r), r, false);
    DeclareZoneKeys(Settle(es, Printed(r), r, false), r);
  }

  lemma SetUnfolds(es: seq<Entry>, r: Record)
    requires Valid(r) && OneValuePerName(r.typ)
    ensures Apply(es, Set(r)) == Checked(DeclareZone(Settle(es, Printed(r), r, false), r))
  {
    hide Valid, Settle, Printed, DeclareZone, Consistent;
  }

  lemma PrintedRecord(r: Record)
    requires Writable(r)
    ensures Printed(r).rec == Some(Canon(r)) && KeyOf(Printed(r)) == {Canon(r)} && Valid(r)
  {
    PrintedIs(r);
    hide EntryOf, BuildLine, Valid;
  }

  lemma AddKeys(es: seq<Entry>, r: Record)
    requires Writable(r) && Apply(es, Add(r)).Success?
    ensures var out := Apply(es, Add(r)).value;
            !Taken(es, r) && !Holds(es, r) && Keys(out) == Keys(es) + {Canon(r)} && Others(es) <= Others(out)
  {
    hide *;
    AddUnfolds(es, r);
    PrintedRecord(r);
    AppendKeys(es, Printed(r));
    DeclareZoneKeys(es + [Printed(r)], r);
    OthersGrow(es, r);
  }

  lemma AddUnfolds(es: seq<Entry>, r: Record)
    requires Apply(es, Add(r)).Success?
    ensures Valid(r) && !Taken(es, r) && !Holds(es, r)
    ensures Apply(es, Add(r)).value == DeclareZone(es + [Printed(r)], r)
    ensures Consistent(RecordsIn(DeclareZone(es + [Printed(r)], r)))
  {
    hide Valid, Holds, OpensName, Consistent, DeclareZone, Printed, Taken;
  }

  /** A repair that goes through leaves the record on the server; a name that
      carries one value answers with this one alone, and nothing else is lost. */
  lemma RepairBrings(es: seq<Entry>, want: Record)
    requires Writable(want) && TidyName(want.fqdn)
    requires RepairOperation(es, want).Some?
    requires Apply(es, RepairOperation(es, want).value).Success?
    ensures var out := Apply(es, RepairOperation(es, want).value).value;
      && Canon(want) in Keys(out)
      && Keys(out) <= Keys(es) + {Canon(want)}
      && (forall x :: x in Keys(es) && !SameName(x, want) ==> x in Keys(out))
      && (OneValuePerName(want.typ) ==> forall x :: x in Keys(out) && SameName(x, want) ==> x.value == want.value)
      && (!OneValuePerName(want.typ) ==> Keys(es) <= Keys(out))
      && Others(es) <= Others(out)
  {
    hide Valid, Apply, Keys, Others, SameName, Taken, Settle, Printed, DeclareZone, Writable;
    TakenIsKeys(es, want);
    if Taken(es, want) {
      SetKeys(es, want);
      CanonCompetes(want);
      CheckedKeeps(DeclareZone(Settle(es, Printed(want), want, false), want));
    } else {
      AddKeys(es, want);
    }
  }

  lemma CheckedKeeps(es: seq<Entry>)
    ensures Checked(es).Success? ==> Checked(es) == Success(es)
  {
  }

  lemma CanonCompetes(r: Record)
    requires TidyName(r.fqdn)
    ensures SameName(Canon(r), r) && Canon(r).value == r.value
  {
  }

  // ----- everything any server holds -----

  datatype Repaired = Repaired(es: seq<Entry>, written: nat, skipped: nat)

  /** The fold of a repair of everything: a name that already answers with
      another value is left to the operator. */
  function RepairEach(es: seq<Entry>, rs: seq<Record>): Result<Repaired>
    decreases |rs|
  {
    if rs == [] then Success(Repaired(es, 0, 0))
    else if Taken(es, rs[0]) then
      match RepairEach(es, rs[1..])
      case Failure(error) => Failure(error)
      case Success(done) => Success(done.(skipped := done.skipped + 1))
    else
      match Apply(es, Copy(rs[0]))
      case Failure(error) => Failure(error)
      case Success(next) =>
        match RepairEach(next, rs[1..])
        case Failure(error) => Failure(error)
        case Success(done) => Success(done.(written := done.written + 1))
  }

  /** Another value already answers for the name of a record that allows one. */
  predicate Rivalled(ks: set<Record>, r: Record) {
    OneValuePerName(r.typ) && exists x :: x in ks && SameName(x, r) && x.value != r.value
  }

  /** What a repaired server holds afterwards: nothing is lost, and each record is there
      as it prints, or its name answers with another value. */
  predicate RepairedFrom(ks: set<Record>, out: set<Record>, rs: seq<Record>) {
    && ks <= out <= ks + Canons(rs)
    && (forall u :: u in rs ==> Canon(u) in out || Rivalled(out, u))
  }

  lemma {:induction false} RepairEachIs(es: seq<Entry>, rs: seq<Record>)
    requires AllCoherent(es) && AllPlain(rs) && RepairEach(es, rs).Success?
    ensures var done := RepairEach(es, rs).value;
      && RepairedFrom(Keys(es), Keys(done.es), rs)
      && (OneValue(Keys(es)) && (forall r :: r in rs ==> Canon(r) == r) ==> OneValue(Keys(done.es)))
      && Others(es) <= Others(done.es) && AllCoherent(done.es)
      && done.written + done.skipped == |rs|
      && (done.written == 0 ==> done.es == es)
    decreases |rs|
  {
    hide *;
    RepairUnfolds(es, rs);
    if rs == [] {
      NothingRepaired(Keys(es));
    } else {
      PlainSplits(rs);
      PlainParts(rs[0]);
      TakenIsRivalled(es, rs[0]);
      if Taken(es, rs[0]) {
        RepairEachIs(es, rs[1..]);
        SkippedStep(Keys(es), Keys(RepairEach(es, rs).value.es), rs);
      } else {
        CopyKeys(es, rs[0]);
        var next := Apply(es, Copy(rs[0])).value;
        RepairEachIs(next, rs[1..]);
        WrittenStep(Keys(es), Keys(RepairEach(es, rs).value.es), rs);
        if OneValue(Keys(es)) {
          OneMoreIff(Keys(es), rs[0]);
        }
      }
    }
  }

  lemma RepairUnfolds(es: seq<Entry>, rs: seq<Record>)
    ensures RepairEach(es, rs) ==
      if rs == [] then Success(Repaired(es, 0, 0))
      else if Taken(es, rs[0]) then
        match RepairEach(es, rs[1..])
        case Failure(error) => Failure(error)
        case Success(done) => Success(done.(skipped := done.skipped + 1))
      else
        match Apply(es, Copy(rs[0]))
        case Failure(error) => Failure(error)
        case Success(next) =>
          match RepairEach(next, rs[1..])
          case Failure(error) => Failure(error)
          case Success(done) => Success(done.(written := done.written + 1))
  {
    hide Apply, Taken;
  }

  lemma NothingRepaired(ks: set<Record>)
    ensures RepairedFrom(ks, ks, [])
  {
    hide Canon;
  }

  lemma SkippedStep(ks: set<Record>, out: set<Record>, rs: seq<Record>)
    requires rs != [] && RepairedFrom(ks, out, rs[1..]) && Rivalled(ks, rs[0])
    ensures RepairedFrom(ks, out, rs)
  {
    hide SameName, Canons, Canon;
    CanonsFirst(rs);
    HeadAndTail(rs);
  }

  lemma WrittenStep(ks: set<Record>, out: set<Record>, rs: seq<Record>)
    requires rs != [] && RepairedFrom(ks + {Canon(rs[0])}, out, rs[1..])
    ensures RepairedFrom(ks, out, rs)
  {
    hide Rivalled, Canons, Canon;
    CanonsFirst(rs);
    HeadAndTail(rs);
  }

  lemma OneMoreIff(ks: set<Record>, r: Record)
    requires OneValue(ks)
    ensures OneValue(ks + {r}) <==> !Rivalled(ks, r)
  {
    hide SameName;
    if Rivalled(ks, r) {
      var x :| x in ks && SameName(x, r) && x.value != r.value;
      OtherWay(x, r);
      assert x in ks + {r} && r in ks + {r};
    } else {
      forall a, b | a in ks + {r} && b in ks + {r} && OneValuePerName(a.typ) && SameName(a, b)
        ensures a.value == b.value
      {
        OtherWay(a, b);
      }
    }
  }

  function RepairAll(es: seq<Entry>, want: seq<Record>): Result<Repaired> {
    RepairEach(es, Added(es, want))
  }

  /** The records a repair of everything writes: those whose name neither the file nor an
      earlier one of them answers for with another value. */
  function Chosen(ks: set<Record>, rs: seq<Record>): (chosen: seq<Record>)
    ensures |chosen| <= |rs|
    decreases |rs|
  {
    if rs == [] then []
    else if Rivalled(ks, rs[0]) then Chosen(ks, rs[1..])
    else [rs[0]] + Chosen(ks + {Canon(rs[0])}, rs[1..])
  }

  lemma TakenIsRivalled(es: seq<Entry>, r: Record)
    ensures Taken(es, r) <==> Rivalled(Keys(es), r)
  {
    hide SameName, Keys, Taken;
    TakenIsKeys(es, r);
  }

  lemma ChosenFirst(ks: set<Record>, rs: seq<Record>)
    requires rs != []
    ensures Chosen(ks, rs) == if Rivalled(ks, rs[0]) then Chosen(ks, rs[1..])
                              else [rs[0]] + Chosen(ks + {Canon(rs[0])}, rs[1..])
  {
    hide Rivalled;
  }

  lemma ChosenNone(ks: set<Record>)
    ensures Chosen(ks, []) == []
  {
  }

  lemma {:induction false} ChosenIsSome(ks: set<Record>, rs: seq<Record>)
    ensures forall r :: r in Chosen(ks, rs) ==> r in rs
    decreases |rs|
  {
    hide Rivalled, Canon;
    if rs != [] {
      HeadAndTail(rs);
      ChosenIsSome(ks, rs[1..]);
      ChosenIsSome(ks + {Canon(rs[0])}, rs[1..]);
    }
  }

  /** The same outcome, with the numbers of records written and skipped. */
  predicate FoldOf(res: Result<Repaired>, fold: Result<seq<Entry>>, chosen: nat, all: nat) {
    match fold
    case Failure(error) => res == Failure(error)
    case Success(out) =>
      res.Success? && res.value.es == out && res.value.written == chosen && res.value.written + res.value.skipped == all
  }

  lemma FoldOfNone(es: seq<Entry>)
    ensures FoldOf(Success(Repaired(es, 0, 0)), Success(es), 0, 0)
  {
  }

  lemma FoldOfSkipped(res: Result<Repaired>, more: Result<Repaired>, fold: Result<seq<Entry>>, chosen: nat, all: nat)
    requires FoldOf(res, fold, chosen, all)
    requires more == match res
                     case Failure(error) => Failure(error)
                     case Success(done) => Success(done.(skipped := done.skipped + 1))
    ensures FoldOf(more, fold, chosen, all + 1)
  {
  }

  lemma FoldOfWritten(res: Result<Repaired>, more: Result<Repaired>, fold: Result<seq<Entry>>, chosen: nat, all: nat)
    requires FoldOf(res, fold, chosen, all)
    requires more == match res
                     case Failure(error) => Failure(error)
                     case Success(done) => Success(done.(written := done.written + 1))
    ensures FoldOf(more, fold, chosen + 1, all + 1)
  {
  }

  lemma FoldOfRefused(error: Error, chosen: nat, all: nat)
    ensures FoldOf(Failure(error), Failure(error), chosen, all)
  {
  }

  lemma FoldOfIs(res: Result<Repaired>, fold: Result<seq<Entry>>, chosen: nat, all: nat)
    requires FoldOf(res, fold, chosen, all)
    ensures res.Success? <==> fold.Success?
    ensures res.Success? ==>
      res.value.es == fold.value && res.value.written == chosen && res.value.written + res.value.skipped == all
  {
  }

  /** A repair of everything is the fold of the additions it chooses, refusals
      included. */
  lemma {:induction false} RepairEachIsFold(es: seq<Entry>, rs: seq<Record>)
    requires AllCoherent(es) && AllPlain(rs)
    ensures FoldOf(RepairEach(es, rs), ApplyAll(es, Copies(Chosen(Keys(es), rs))), |Chosen(Keys(es), rs)|, |rs|)
    decreases |rs|
  {
    hide *;
    RepairUnfolds(es, rs);
    if rs == [] {
      ChosenNone(Keys(es));
      NoCopies(es);
      FoldOfNone(es);
    } else {
      var r := rs[0];
      PlainSplits(rs);
      PlainParts(r);
      TakenIsRivalled(es, r);
      ChosenFirst(Keys(es), rs);
      if Rivalled(Keys(es), r) {
        RepairEachIsFold(es, rs[1..]);
        FoldOfSkipped(RepairEach(es, rs[1..]), RepairEach(es, rs), ApplyAll(es, Copies(Chosen(Keys(es), rs[1..]))),
                      |Chosen(Keys(es), rs[1..])|, |rs[1..]|);
      } else {
        CopyFirst(es, Chosen(Keys(es), rs));
        CopyKeys(es, r);
        assert ([r] + Chosen(Keys(es) + {Canon(r)}, rs[1..]))[1..] == Chosen(Keys(es) + {Canon(r)}, rs[1..]);
        if Apply(es, Copy(r)).Success? {
          var next := Apply(es, Copy(r)).value;
          RepairEachIsFold(next, rs[1..]);
          FoldOfWritten(RepairEach(next, rs[1..]), RepairEach(es, rs), ApplyAll(next, Copies(Chosen(Keys(next), rs[1..]))),
                        |Chosen(Keys(next), rs[1..])|, |rs[1..]|);
        } else {
          FoldOfRefused(Apply(es, Copy(r)).error, |Chosen(Keys(es), rs)|, |rs|);
        }
      }
    }
  }

  /** What a repair of everything needs of a server. */
  predicate Repairable(es: seq<Entry>, want: seq<Record>) {
    Addable(es, Chosen(Keys(es), Added(es, want)))
  }

  /** A repair of everything succeeds exactly when what it chooses to write may be
      written, each block finds its name free and the whole is consistent; then the
      server holds its records and what the chosen ones print as and no other, and the
      counts are right. */
  lemma RepairAllIff(es: seq<Entry>, want: seq<Record>)
    requires AllCoherent(es) && AllPlain(Added(es, want))
    ensures RepairAll(es, want).Success? <==> Repairable(es, want)
    ensures RepairAll(es, want).Success? ==>
      var done, rs := RepairAll(es, want).value, Chosen(Keys(es), Added(es, want));
      && Keys(done.es) == Keys(es) + Canons(rs)
      && done.written == |rs| && done.written + done.skipped == |Added(es, want)|
  {
    hide *;
    var added := Added(es, want);
    var chosen := Chosen(Keys(es), added);
    RepairAllIs(es, want);
    RepairEachIsFold(es, added);
    FoldOfIs(RepairEach(es, added), ApplyAll(es, Copies(chosen)), |chosen|, |added|);
    ChosenIsSome(Keys(es), added);
    FewerPlain(added, chosen);
    CopiesAre(es, chosen);
    if ApplyAll(es, Copies(chosen)).Success? {
      CopiesLeave(es, chosen);
    }
    RepairableIs(es, want);
  }

  lemma FewerPlain(rs: seq<Record>, fewer: seq<Record>)
    requires AllPlain(rs) && forall r :: r in fewer ==> r in rs
    ensures AllPlain(fewer)
  {
    hide Plain;
  }

  lemma RepairableIs(es: seq<Entry>, want: seq<Record>)
    ensures Repairable(es, want) <==> Addable(es, Chosen(Keys(es), Added(es, want)))
  {
    hide Addable, Chosen, Added, Keys;
  }

  /** A repaired server loses no record and gains only what missing records of the union
      print as; each of those it holds then, or answers the name of with another value. If
      no name reads with a dot at its end, that is the records themselves, and a server
      with one value per name keeps one. */
  lemma RepairAllKeeps(es: seq<Entry>, want: seq<Record>)
    requires AllCoherent(es) && AllReadPlain(Added(es, want)) && RepairAll(es, want).Success?
    ensures var out := RepairAll(es, want).value.es;
      && RepairedFrom(Keys(es), Keys(out), Added(es, want))
      && Others(es) <= Others(out) && AllCoherent(out)
      && (Undotted(Added(es, want)) ==>
            && (forall u :: u in want ==> u in Keys(out) || Rivalled(Keys(out), u))
            && (OneValue(Keys(es)) ==> OneValue(Keys(out))))
  {
    hide *;
    var added := Added(es, want);
    var out := RepairAll(es, want).value.es;
    RepairAllIs(es, want);
    PlainIsRead(added);
    RepairEachIs(es, added);
    AddedIs(es, want);
    if Undotted(added) {
      UndottedIsCanon(added);
      HeldOrRivalled(Keys(es), Keys(out), added, want);
    }
  }

  lemma HeldOrRivalled(ks: set<Record>, out: set<Record>, added: seq<Record>, want: seq<Record>)
    requires RepairedFrom(ks, out, added) && SetOf(added) == SetOf(want) - ks
    requires forall r :: r in added ==> Canon(r) == r
    ensures forall u :: u in want ==> u in out || Rivalled(out, u)
  {
    hide Canon, Canons, Rivalled;
    forall u | u in want
      ensures u in ks || u in added
    {
      InSet(want, u);
      InSet(added, u);
    }
  }

  lemma RepairAllIs(es: seq<Entry>, want: seq<Record>)
    ensures RepairAll(es, want) == RepairEach(es, Added(es, want))
  {
    hide RepairEach, Added;
  }

  /** The union of what the servers hold, each record once. */
  function AllRecords(files: seq<seq<Entry>>): seq<Record> {
    if files == [] then [] else AllRecords(files[..|files| - 1]) + RecordsIn(files[|files| - 1])
  }

  function Union(files: seq<seq<Entry>>): seq<Record> {
    Missing(AllRecords(files), {})
  }

  lemma {:induction false} AllRecordsHold(files: seq<seq<Entry>>, i: nat)
    requires i < |files|
    ensures Keys(files[i]) <= SetOf(AllRecords(files))
  {
    hide Keys, RecordsIn;
    var last := |files| - 1;
    if i == last {
      AllKeysAre(files[last]);
    } else {
      AllRecordsHold(files[..last], i);
    }
  }

  /** When the union gives no one-value name two values, a server a repair of everything
      went through on, or had nothing to do on, ends with the union if and only if no record
      it missed has a name that reads with a dot at its end. */
  lemma RepairAllConverges(files: seq<seq<Entry>>, i: nat)
    requires i < |files| && AllCoherent(files[i]) && AllReadPlain(Added(files[i], Union(files)))
    requires OneValue(SetOf(Union(files)))
    requires RepairAll(files[i], Union(files)).Success?
    ensures Keys(RepairAll(files[i], Union(files)).value.es) == SetOf(Union(files)) <==>
      Undotted(Added(files[i], Union(files)))
  {
    hide *;
    var ks, want := Keys(files[i]), Union(files);
    var out, added := Keys(RepairAll(files[i], want).value.es), Added(files[i], want);
    UnionHolds(files, i);
    RepairAllKeeps(files[i], want);
    AddedIs(files[i], want);
    PlainIsRead(added);
    RepairedParts(ks, out, added);
    if Undotted(added) {
      UndottedCanons(added);
      SameInTheEnd(out, want);
    } else {
      var r := LongestDotted(added);
      NobodyPrintsAs(added, r);
      InCanons(added, r);
      InSet(added, r);
    }
  }

  lemma RepairedParts(ks: set<Record>, out: set<Record>, rs: seq<Record>)
    requires RepairedFrom(ks, out, rs)
    ensures ks <= out <= ks + Canons(rs)
  {
    hide Canon, Canons, Rivalled;
  }

  lemma UnionHolds(files: seq<seq<Entry>>, i: nat)
    requires i < |files|
    ensures Keys(files[i]) <= SetOf(Union(files))
  {
    hide Keys, Missing, AllRecords;
    MissingSet(AllRecords(files), {});
    AllRecordsHold(files, i);
  }

  lemma SameInTheEnd(out: set<Record>, want: seq<Record>)
    requires out <= SetOf(want) && OneValue(SetOf(want))
    requires forall u :: u in want ==> u in out || Rivalled(out, u)
    ensures out == SetOf(want)
  {
    hide SameName;
    forall u | u in want
      ensures u in out
    {
      InSet(want, u);
      if Rivalled(out, u) {
        var x :| x in out && SameName(x, u) && x.value != u.value;
        OtherWay(x, u);
      }
    }
    assert SetOf(want) <= out;
  }

  lemma OtherWay(a: Record, b: Record)
    ensures SameName(a, b) <==> SameName(b, a)
    ensures SameName(a, b) ==> a.typ == b.typ
  {
  }

  // ----- the loops -----

  /** union: the servers are read one after the other, and one that cannot be read
      contributes nothing. */
  method CollectUnion(contents: seq<Option<string>>) returns (want: seq<Record>)
    ensures want == Union(ReadableViews(contents))
  {
    hide *;
    var seen: map<Record, bool> := map[];
    ghost var files: seq<seq<Entry>> := [];
    want := [];
    NothingRead(contents);
    for i := 0 to |contents|
      invariant files == ReadableViews(contents[..i])
      invariant seen.Keys == SetOf(AllRecords(files))
      invariant want == Missing(AllRecords(files), {})
    {
      ReadOneMore(contents, i);
      if contents[i].Some? {
        var held := Parse(contents[i].value);
        ParseIsView(contents[i].value);
        ghost var before := AllRecords(files);
        files := files + [View(contents[i].value)];
        MissingConcat(before, held, {});
        assert {} + SetOf(before) == seen.Keys;
        SetConcat(before, held);
        want, seen := AppendUnseen(want, seen, held);
      }
    }
    assert contents[..|contents|] == contents;
    UnionIs(files);
  }

  lemma NothingRead(contents: seq<Option<string>>)
    ensures ReadableViews(contents[..0]) == [] && AllRecords([]) == [] && Missing([], {}) == [] && SetOf([]) == {}
  {
  }

  lemma ReadOneMore(contents: seq<Option<string>>, i: nat)
    requires i < |contents|
    ensures var before, after := ReadableViews(contents[..i]), ReadableViews(contents[..i + 1]);
            && after == (if contents[i].Some? then before + [View(contents[i].value)] else before)
            && AllRecords(after) == AllRecords(before) + if contents[i].Some? then RecordsIn(View(contents[i].value)) else []
  {
    hide View, RecordsIn;
    assert contents[..i + 1][..i] == contents[..i];
    var before, after := ReadableViews(contents[..i]), ReadableViews(contents[..i + 1]);
    if contents[i].Some? {
      assert after[..|after| - 1] == before;
    } else {
      assert AllRecords(before) + [] == AllRecords(before);
    }
  }

  lemma SetConcat(a: seq<Record>, b: seq<Record>)
    ensures SetOf(a + b) == SetOf(a) + SetOf(b)
  {
  }

  lemma UnionIs(files: seq<seq<Entry>>)
    ensures Union(files) == Missing(AllRecords(files), {})
  {
    hide Missing, AllRecords;
  }

  method AppendUnseen(want: seq<Record>, seen: map<Record, bool>, held: seq<Record>)
    returns (more: seq<Record>, seenMore: map<Record, bool>)
    ensures more == want + Missing(held, seen.Keys)
    ensures seenMore.Keys == seen.Keys + SetOf(held)
  {
    hide SetOf, Missing;
    ghost var latest: seq<Record> := [];
    more, seenMore := want, seen;
    NoneYet(held);
    assert seen.Keys + SetOf(latest) == seen.Keys;
    for i := 0 to |held|
      invariant more == want + latest
      invariant seenMore.Keys == seen.Keys + SetOf(latest)
      invariant latest + Missing(held[i..], seen.Keys + SetOf(latest)) == Missing(held, seen.Keys)
    {
      var record := held[i];
      Next(held, i);
      MissingStep(held, i, seen.Keys + SetOf(latest));
      if record !in seenMore {
        seenMore := seenMore[record := true];
        more := more + [record];
        Taken1(latest, record, held[i + 1..], seen.Keys);
        latest := latest + [record];
      }
    }
    Finished(held, latest, seen.Keys);
    MissingSet(held, seen.Keys);
  }

  /** What mirrorOne computes before it writes. */
  method MirrorText(content: string, want: seq<Record>) returns (res: Result<string>, changes: nat)
    ensures Writer.Refines(res, Mirror(View(content), want))
    ensures changes == |Added(View(content), want)| + |Removed(View(content), want)|
  {
    hide View, Apply;
    var added, removed := MirrorOperations(Parse(content), want);
    ParseIsView(content);
    AllKeysAre(View(content));
    assert SetOf(RecordsIn(View(content))) == Keys(View(content));
    changes := |added| + |removed|;
    res := Writer.ApplyEach(content, removed + added);
  }

  /** What repairAllOne computes before it writes. */
  method RepairAllText(content: string, want: seq<Record>) returns (res: Result<string>, written: nat, skipped: nat)
    ensures RepairRefines(res, written, skipped, RepairAll(View(content), want))
  {
    hide *;
    var added, _ := MirrorOperations(Parse(content), want);
    AddedText(content, want);
    res, written, skipped := RepairEachText(content, added, Added(View(content), want));
    RepairAllIs(View(content), want);
  }

  ghost predicate RepairRefines(res: Result<string>, written: nat, skipped: nat, spec: Result<Repaired>) {
    match spec
    case Failure(error) => res == Failure(error)
    case Success(done) => res.Success? && View(res.value) == done.es && written == done.written && skipped == done.skipped
  }

  lemma AddedText(content: string, want: seq<Record>)
    ensures Missing(want, SetOf(Parse(content))) == Added(View(content), want)
  {
    hide View, Parse, RecordsIn, Keys;
    ParseIsView(content);
    AllKeysAre(View(content));
    assert SetOf(Parse(content)) == Keys(View(content));
  }

  method RepairEachText(content: string, ops: seq<Operation>, ghost rs: seq<Record>)
    returns (res: Result<string>, written: nat, skipped: nat)
    requires ops == Copies(rs)
    ensures RepairRefines(res, written, skipped, RepairEach(View(content), rs))
  {
    hide View, Apply, Taken, RepairEach, Counted;
    var updated := content;
    written, skipped := 0, 0;
    assert rs[0..] == rs;
    CountedNone(RepairEach(View(content), rs));
    for i := 0 to |ops|
      invariant Counted(RepairEach(View(updated), rs[i..]), written, skipped) == RepairEach(View(content), rs)
    {
      Next(rs, i);
      CountedStep(View(updated), rs[i..], written, skipped);
      if Taken(View(updated), ops[i].record) {
        skipped := skipped + 1;
      } else {
        var next := Writer.ApplyText(updated, ops[i]);
        if next.Failure? {
          return next, written, skipped;
        }
        updated := next.value;
        written := written + 1;
      }
    }
    assert rs[|rs|..] == [];
    CountedStep(View(updated), [], written, skipped);
    res := Success(updated);
  }

  lemma CountedNone(res: Result<Repaired>)
    ensures Counted(res, 0, 0) == res
  {
  }

  /** What is counted ahead of the fold is counted in it. */
  function Counted(res: Result<Repaired>, written: nat, skipped: nat): Result<Repaired> {
    match res
    case Failure(error) => Failure(error)
    case Success(done) => Success(Repaired(done.es, done.written + written, done.skipped + skipped))
  }

  lemma CountedStep(es: seq<Entry>, rs: seq<Record>, written: nat, skipped: nat)
    ensures Counted(RepairEach(es, rs), written, skipped) ==
      if rs == [] then Success(Repaired(es, written, skipped))
      else if Taken(es, rs[0]) then Counted(RepairEach(es, rs[1..]), written, skipped + 1)
      else
        match Apply(es, Copy(rs[0]))
        case Failure(error) => Failure(error)
        case Success(next) => Counted(RepairEach(next, rs[1..]), written + 1, skipped)
  {
    hide Apply, Taken;
  }

  /** repairOperation, which searches the whole file before it calls the record
      missing. */
  method RepairOperationText(content: string, want: Record) returns (op: Option<Operation>)
    ensures op == RepairOperation(View(content), want)
  {
    hide View, Taken, Keys, RecordsIn, Parse;
    var records := Parse(content);
    ParseIsView(content);
    AllKeysAre(View(content));
    for i := 0 to |records|
      invariant forall k :: 0 <= k < i ==> records[k] != want
    {
      if records[i] == want {
        return None;
      }
    }
    if Taken(View(content), want) {
      return Some(Set(want));
    }
    op := Some(Add(want));
  }

  function ReadableViews(contents: seq<Option<string>>): seq<seq<Entry>> {
    if contents == [] then []
    else
      var last := contents[|contents| - 1];
      ReadableViews(contents[..|contents| - 1]) + if last.Some? then [View(last.value)] else []
  }

  lemma {:induction false} MissingConcat(a: seq<Record>, b: seq<Record>, have: set<Record>)
    ensures Missing(a + b, have) == Missing(a, have) + Missing(b, have + SetOf(a))
  {
    if a == [] {
      assert a + b == b && have + SetOf(a) == have;
    } else {
      assert (a + b)[1..] == a[1..] + b;
      var more := if a[0] in have then have else have + {a[0]};
      MissingConcat(a[1..], b, more);
      assert more + SetOf(a[1..]) == have + SetOf(a);
    }
  }
}

/** The mirror: what is computed from two parsed files, and what folding it through apply
    ends in (internal/fleet/diff.go). */
module Reconcile {
  import opened Platform
  import opened Text
  import opened Records
  import opened RoundTrip
  import opened Blocks
  import opened Entries
  import opened Edits
  import opened KeySets
  import Writer

  function SetOf(rs: seq<Record>): set<Record> {
    set r | r in rs
  }

  /** The records of xs outside have, each once, in the order they first come. */
  function Missing(xs: seq<Record>, have: set<Record>): seq<Record> {
    if xs == [] then []
    else if xs[0] in have then Missing(xs[1..], have)
    else [xs[0]] + Missing(xs[1..], have + {xs[0]})
  }

  function Deletes(rs: seq<Record>): (ops: seq<Operation>)
    ensures |ops| == |rs| && forall i :: 0 <= i < |rs| ==> ops[i] == Delete(rs[i])
  {
    seq(|rs|, i requires 0 <= i < |rs| => Delete(rs[i]))
  }

  function Copies(rs: seq<Record>): (ops: seq<Operation>)
    ensures |ops| == |rs| && forall i :: 0 <= i < |rs| ==> ops[i] == Copy(rs[i])
  {
    seq(|rs|, i requires 0 <= i < |rs| => Copy(rs[i]))
  }

  function Added(es: seq<Entry>, want: seq<Record>): seq<Record> {
    Missing(want, Keys(es))
  }

  function Removed(es: seq<Entry>, want: seq<Record>): seq<Record> {
    Missing(RecordsIn(es), SetOf(want))
  }

  /** The whole of a mirror: removals first. */
  function Mirror(es: seq<Entry>, want: seq<Record>): Result<seq<Entry>> {
    ApplyAll(es, Deletes(Removed(es, want)) + Copies(Added(es, want)))
  }

  /** mirrorOperations, which keeps what it has seen in maps. */
  method MirrorOperations(current: seq<Record>, want: seq<Record>) returns (added: seq<Operation>, removed: seq<Operation>)
    ensures added == Copies(Missing(want, SetOf(current)))
    ensures removed == Deletes(Missing(current, SetOf(want)))
  {
    var wanted: map<Record, bool> := map[];
    for i := 0 to |want|
      invariant wanted.Keys == SetOf(want[..i])
    {
      Next(want, i);
      wanted := wanted[want[i] := true];
    }
    assert want[..|want|] == want;
    var held;
    removed, held := Removals(current, wanted);
    added := Additions(want, held);
  }

  method Removals(current: seq<Record>, wanted: map<Record, bool>) returns (removed: seq<Operation>, held: map<Record, bool>)
    ensures removed == Deletes(Missing(current, wanted.Keys))
    ensures held.Keys == SetOf(current)
  {
    hide SetOf, Deletes, Missing;
    ghost var gone: seq<Record> := [];
    held, removed := map[], [];
    NoneYet(current);
    assert wanted.Keys + SetOf(gone) == wanted.Keys;
    for i := 0 to |current|
      invariant held.Keys == SetOf(current[..i])
      invariant SetOf(gone) <= held.Keys <= wanted.Keys + SetOf(gone)
      invariant removed == Deletes(gone)
      invariant gone + Missing(current[i..], wanted.Keys + SetOf(gone)) == Missing(current, wanted.Keys)
    {
      var record := current[i];
      Next(current, i);
      MissingStep(current, i, wanted.Keys + SetOf(gone));
      if record !in held {
        held := held[record := true];
        if record !in wanted {
          removed := removed + [Delete(record)];
          Taken1(gone, record, current[i + 1..], wanted.Keys);
          gone := gone + [record];
        }
      }
    }
    Finished(current, gone, wanted.Keys);
    assert current[..|current|] == current;
  }

  method Additions(want: seq<Record>, held: map<Record, bool>) returns (added: seq<Operation>)
    ensures added == Copies(Missing(want, held.Keys))
  {
    hide SetOf, Copies, Missing;
    var seen: map<Record, bool> := map[];
    ghost var latest: seq<Record> := [];
    added := [];
    NoneYet(want);
    assert held.Keys + SetOf(latest) == held.Keys;
    for i := 0 to |want|
      invariant seen.Keys == SetOf(latest)
      invariant added == Copies(latest)
      invariant latest + Missing(want[i..], held.Keys + SetOf(latest)) == Missing(want, held.Keys)
    {
      var record := want[i];
      Next(want, i);
      MissingStep(want, i, held.Keys + SetOf(latest));
      if record !in held && record !in seen {
        seen := seen[record := true];
        added := added + [Copy(record)];
        Taken1(latest, record, want[i + 1..], held.Keys);
        latest := latest + [record];
      }
    }
    Finished(want, latest, held.Keys);
  }

  lemma NoneYet(xs: seq<Record>)
    ensures xs[0..] == xs && SetOf(xs[..0]) == SetOf([]) == {}
  {
  }

  lemma MissingStep(xs: seq<Record>, i: nat, have: set<Record>)
    requires i < |xs|
    ensures Missing(xs[i..], have) == if xs[i] in have then Missing(xs[i + 1..], have)
                                      else [xs[i]] + Missing(xs[i + 1..], have + {xs[i]})
  {
    assert xs[i..][1..] == xs[i + 1..];
  }

  lemma Next(xs: seq<Record>, i: nat)
    requires i < |xs|
    ensures xs[i..][0] == xs[i] && xs[i..][1..] == xs[i + 1..]
    ensures SetOf(xs[..i + 1]) == SetOf(xs[..i]) + {xs[i]}
  {
    assert xs[..i + 1] == xs[..i] + [xs[i]];
  }

  lemma Taken1(taken: seq<Record>, x: Record, rest: seq<Record>, have: set<Record>)
    ensures SetOf(taken + [x]) == SetOf(taken) + {x}
    ensures taken + ([x] + Missing(rest, have + SetOf(taken) + {x})) == (taken + [x]) + Missing(rest, have + SetOf(taken + [x]))
  {
    assert SetOf(taken + [x]) == SetOf(taken) + {x};
    assert have + SetOf(taken) + {x} == have + SetOf(taken + [x]);
    CatAssoc(taken, [x], Missing(rest, have + SetOf(taken + [x])));
  }

  lemma Finished(xs: seq<Record>, taken: seq<Record>, have: set<Record>)
    requires taken + Missing(xs[|xs|..], have + SetOf(taken)) == Missing(xs, have)
    ensures taken == Missing(xs, have)
  {
    assert xs[|xs|..] == [];
    assert taken + [] == taken;
  }

  lemma {:induction false} MissingSet(xs: seq<Record>, have: set<Record>)
    ensures SetOf(Missing(xs, have)) == SetOf(xs) - have
  {
    if xs != [] {
      assert SetOf(xs) == {xs[0]} + SetOf(xs[1..]);
      if xs[0] in have {
        MissingSet(xs[1..], have);
      } else {
        var rest := Missing(xs[1..], have + {xs[0]});
        MissingSet(xs[1..], have + {xs[0]});
        assert SetOf([xs[0]] + rest) == {xs[0]} + SetOf(rest);
      }
    }
  }

  /** The one record comes in the list before the other does for the first time. */
  predicate Earlier(xs: seq<Record>, a: Record, b: Record) {
    exists p :: 0 <= p < |xs| && xs[p] == a && forall q :: 0 <= q <= p ==> xs[q] != b
  }

  /** What is missing comes in the order it is first listed. */
  lemma {:induction false} MissingInOrder(xs: seq<Record>, have: set<Record>, i: nat, j: nat)
    requires i < j < |Missing(xs, have)|
    ensures Earlier(xs, Missing(xs, have)[i], Missing(xs, have)[j])
  {
    hide SetOf, Earlier;
    var a, b := Missing(xs, have)[i], Missing(xs, have)[j];
    assert xs != [];
    if xs[0] in have {
      MissingInOrder(xs[1..], have, i, j);
      NotThere(xs[1..], have, j);
      hide Missing;
      EarlierBehind(xs, a, b);
    } else {
      NotThere(xs[1..], have + {xs[0]}, j - 1);
      if i > 0 {
        MissingInOrder(xs[1..], have + {xs[0]}, i - 1, j - 1);
        hide Missing;
        EarlierBehind(xs, a, b);
      } else {
        hide Missing;
        EarlierFirst(xs, b);
      }
    }
  }

  lemma NotThere(xs: seq<Record>, have: set<Record>, j: nat)
    requires j < |Missing(xs, have)|
    ensures Missing(xs, have)[j] !in have
  {
    hide Missing;
    MissingSet(xs, have);
    InSet(Missing(xs, have), Missing(xs, have)[j]);
  }

  lemma EarlierFirst(xs: seq<Record>, b: Record)
    requires xs != [] && xs[0] != b
    ensures Earlier(xs, xs[0], b)
  {
  }

  lemma EarlierBehind(xs: seq<Record>, a: Record, b: Record)
    requires xs != [] && xs[0] != b && Earlier(xs[1..], a, b)
    ensures Earlier(xs, a, b)
  {
    var p :| 0 <= p < |xs[1..]| && xs[1..][p] == a && forall q :: 0 <= q <= p ==> xs[1..][q] != b;
    forall q | 0 <= q <= p + 1
      ensures xs[q] != b
    {
      assert q > 0 ==> xs[q] == xs[1..][q - 1];
    }
    assert xs[p + 1] == a;
  }

  predicate Distinct(rs: seq<Record>) {
    forall i, j :: 0 <= i < j < |rs| ==> rs[i] != rs[j]
  }

  lemma {:induction false} MissingDistinct(xs: seq<Record>, have: set<Record>)
    ensures Distinct(Missing(xs, have))
  {
    if xs != [] {
      if xs[0] in have {
        MissingDistinct(xs[1..], have);
      } else {
        var rest := Missing(xs[1..], have + {xs[0]});
        MissingDistinct(xs[1..], have + {xs[0]});
        MissingSet(xs[1..], have + {xs[0]});
        assert forall i :: 0 <= i < |rest| ==> rest[i] in SetOf(rest);
      }
    }
  }

  // ----- what is asked of names and values -----

  /** A name without a trailing dot or white space around it, which is what Parse
      gives for a name that carries one dot at most. */
  predicate TidyName(name: string) {
    TrimDot(name) == name && Tight(name)
  }

  /** What may be printed of the record has a value the file can hold. What is no valid
      record may look any way: it is never written. */
  predicate Plain(r: Record) {
    Valid(r) ==> PlainValue(r.value)
  }

  predicate AllPlain(rs: seq<Record>) {
    forall r :: r in rs ==> Plain(r)
  }

  /** Records lines were read into. Their names may be any. */
  predicate AllReadPlain(rs: seq<Record>) {
    forall r :: r in rs ==> Read(r) && Plain(r)
  }

  /** A record a line was read into, with a tidy name if it may be printed at all. */
  predicate Sound(r: Record) {
    Read(r) && Plain(r) && (Valid(r) ==> TidyName(r.fqdn))
  }

  predicate AllSound(rs: seq<Record>) {
    forall i :: 0 <= i < |rs| ==> Sound(rs[i])
  }

  lemma SoundIsCanon(r: Record)
    requires Read(r)
    ensures Canon(r) == r <==> TrimDot(r.fqdn) == r.fqdn
  {
  }

  /** Every record of a file is plain unless it is a CNAME or MX of an IPv6 address with a
      zone, and sound when its name is tidy as well. */
  lemma ReadIsSound(es: seq<Entry>, r: Record)
    requires AllCoherent(es) && r in Keys(es)
    requires r.typ == CNAME || r.typ == MX ==> ValidName(r.value) || !(PARSE_ADDR(r.value).IPv6? && PARSE_ADDR(r.value).zoned)
    ensures Read(r) && Plain(r) && (TidyName(r.fqdn) ==> Sound(r))
  {
    hide Valid, PlainValue, TidyName, ValidName, Coherent, Keys;
    KeysAre(es, r);
    var k :| 0 <= k < |es| && es[k].rec == Some(r);
    CoherentIsRead(es[k]);
    if Valid(r) {
      ValidIsPlain(r);
    }
  }

  /** No name ends in a dot once read, which is what a name with one dot at most reads
      as. */
  predicate Undotted(rs: seq<Record>) {
    forall r :: r in rs ==> TrimDot(r.fqdn) == r.fqdn
  }

  lemma SoundIs(r: Record)
    requires Sound(r)
    ensures Read(r) && Plain(r) && (Valid(r) ==> Canon(r) == r)
  {
    hide Valid, PlainValue;
  }

  lemma PlainParts(r: Record)
    ensures Plain(r) <==> (Valid(r) ==> PlainValue(r.value))
  {
    hide Valid, PlainValue;
  }

  // ----- the fold, split at the removals -----

  lemma {:induction false} ApplyAllConcat(es: seq<Entry>, a: seq<Operation>, b: seq<Operation>)
    ensures ApplyAll(es, a + b) ==
      match ApplyAll(es, a)
      case Failure(error) => Failure(error)
      case Success(out) => ApplyAll(out, b)
    decreases |a|
  {
    hide Apply;
    if a == [] {
      assert a + b == b;
    } else {
      assert (a + b)[0] == a[0] && (a + b)[1..] == a[1..] + b;
      if Apply(es, a[0]).Success? {
        ApplyAllConcat(Apply(es, a[0]).value, a[1..], b);
      }
    }
  }

  /** The records as they print. */
  function Canons(rs: seq<Record>): set<Record> {
    set r | r in rs :: Canon(r)
  }

  lemma CanonsFirst(rs: seq<Record>)
    requires rs != []
    ensures Canons(rs) == {Canon(rs[0])} + Canons(rs[1..])
  {
    hide Canon;
    assert forall r :: r in rs <==> r == rs[0] || r in rs[1..];
  }

  lemma InCanons(rs: seq<Record>, x: Record)
    ensures x in Canons(rs) <==> exists r :: r in rs && Canon(r) == x
  {
    hide Canon;
  }

  /** The file without the lines these records match, one record after the other. */
  function Kept(es: seq<Entry>, rs: seq<Record>): seq<Entry>
    decreases |rs|
  {
    if rs == [] then es else Kept(Without(es, rs[0]), rs[1..])
  }

  /** Each record may be removed and prints as one the file holds, and no two of them as
      the same one. */
  predicate Deletable(ks: set<Record>, rs: seq<Record>) {
    && (forall r :: r in rs ==> ValidForRemoval(r) && Canon(r) in ks)
    && (forall i, j :: 0 <= i < j < |rs| ==> Canon(rs[i]) != Canon(rs[j]))
  }

  /** A rule about every pair of a list, one record earlier. */
  lemma PairsFirst(rs: seq<Record>, p: (Record, Record) -> bool)
    requires rs != []
    ensures (forall i, j :: 0 <= i < j < |rs| ==> p(rs[i], rs[j])) <==>
      (forall w :: w in rs[1..] ==> p(rs[0], w))
      && (forall i, j :: 0 <= i < j < |rs[1..]| ==> p(rs[1..][i], rs[1..][j]))
  {
    var rest := rs[1..];
    assert forall k :: 0 <= k < |rest| ==> rest[k] == rs[k + 1];
    if forall i, j :: 0 <= i < j < |rs| ==> p(rs[i], rs[j]) {
      forall w | w in rest
        ensures p(rs[0], w)
      {
        var k :| 0 <= k < |rest| && rest[k] == w;
        assert rs[k + 1] == w;
      }
    }
    if (forall w :: w in rest ==> p(rs[0], w)) && (forall i, j :: 0 <= i < j < |rest| ==> p(rest[i], rest[j])) {
      forall i, j | 0 <= i < j < |rs|
        ensures p(rs[i], rs[j])
      {
        assert rs[j] == rest[j - 1] && rest[j - 1] in rest;
        assert i > 0 ==> rs[i] == rest[i - 1];
      }
    }
  }

  lemma DeletableStep(ks: set<Record>, rs: seq<Record>)
    requires rs != []
    ensures Deletable(ks, rs) <==>
      ValidForRemoval(rs[0]) && Canon(rs[0]) in ks && Deletable(ks - {Canon(rs[0])}, rs[1..])
  {
    hide ValidForRemoval, Canon;
    PairsFirst(rs, (a, b) => Canon(a) != Canon(b));
    assert forall r :: r in rs <==> r == rs[0] || r in rs[1..];
  }

  lemma DeleteKeys(es: seq<Entry>, r: Record)
    requires AllCoherent(es)
    ensures DeleteFrom(es, r).Success? <==> ValidForRemoval(r) && Canon(r) in Keys(es)
    ensures Keys(Without(es, r)) == Keys(es) - {Canon(r)}
    ensures Others(Without(es, r)) == Others(es) && AllCoherent(Without(es, r))
  {
    hide *;
    DeleteNeeds(es, r);
    HoldsIsKeys(es, r);
    WithoutKeys(es, r);
    WithoutCoherent(es, r);
  }

  lemma DeleteNeeds(es: seq<Entry>, r: Record)
    ensures DeleteFrom(es, r).Success? <==> ValidForRemoval(r) && Holds(es, r)
  {
    hide ValidForRemoval, Holds, Without;
  }

  lemma DeleteApplies(es: seq<Entry>, r: Record)
    ensures Apply(es, Delete(r)) == DeleteFrom(es, r)
  {
    hide AddRecord, AddTo, SetIn, AddEach, EditIn, DeleteFrom, DeclareAndCheck, Checked, Taken, DeclareZone;
  }

  lemma FoldFirst(es: seq<Entry>, ops: seq<Operation>)
    requires ops != []
    ensures ApplyAll(es, ops) == if Apply(es, ops[0]).Success? then ApplyAll(Apply(es, ops[0]).value, ops[1..])
                                 else Failure(Apply(es, ops[0]).error)
  {
    hide Apply;
  }

  lemma DeletesFirst(rs: seq<Record>)
    requires rs != []
    ensures Deletes(rs) != [] && Deletes(rs)[0] == Delete(rs[0]) && Deletes(rs)[1..] == Deletes(rs[1..])
  {
  }

  lemma DeleteFirst(es: seq<Entry>, rs: seq<Record>)
    requires rs != []
    ensures Deletes(rs)[1..] == Deletes(rs[1..])
    ensures ApplyAll(es, Deletes(rs)) ==
      if DeleteFrom(es, rs[0]).Success? then ApplyAll(Without(es, rs[0]), Deletes(rs[1..]))
      else Failure(DeleteFrom(es, rs[0]).error)
  {
    hide *;
    DeletesFirst(rs);
    FoldFirst(es, Deletes(rs));
    DeleteApplies(es, rs[0]);
    if DeleteFrom(es, rs[0]).Success? {
      DeleteFromIs(es, rs[0]);
    }
  }

  /** The removals of a mirror succeed exactly when each may be made and finds its line.
      They take away what the records print as, which for a name that ends in a dot is
      another record, and leave the lines that are no record alone. */
  lemma {:induction false} DeletesAre(es: seq<Entry>, rs: seq<Record>)
    requires AllCoherent(es)
    ensures ApplyAll(es, Deletes(rs)).Success? <==> Deletable(Keys(es), rs)
    ensures ApplyAll(es, Deletes(rs)).Success? ==> ApplyAll(es, Deletes(rs)).value == Kept(es, rs)
    ensures Keys(Kept(es, rs)) == Keys(es) - Canons(rs)
    ensures Others(Kept(es, rs)) == Others(es) && AllCoherent(Kept(es, rs))
    decreases |rs|
  {
    hide *;
    KeptUnfolds(es, rs);
    if rs == [] {
      NothingToDo(es);
      NothingDeleted(Keys(es));
    } else {
      DeleteKeys(es, rs[0]);
      DeleteFirst(es, rs);
      DeletableStep(Keys(es), rs);
      CanonsFirst(rs);
      DeletesAre(Without(es, rs[0]), rs[1..]);
    }
  }

  lemma KeptUnfolds(es: seq<Entry>, rs: seq<Record>)
    ensures Kept(es, rs) == if rs == [] then es else Kept(Without(es, rs[0]), rs[1..])
  {
    hide Without;
  }

  lemma NothingDeleted(ks: set<Record>)
    ensures Deletable(ks, []) && Canons([]) == {}
  {
    hide ValidForRemoval, Canon;
  }

  lemma NothingToDo(es: seq<Entry>)
    ensures ApplyAll(es, Deletes([])) == Success(es) && ApplyAll(es, Copies([])) == Success(es)
  {
    assert Deletes([]) == [] && Copies([]) == [];
  }

  lemma HeadAndTail(rs: seq<Record>)
    requires rs != []
    ensures SetOf(rs) == {rs[0]} + SetOf(rs[1..])
    ensures forall r :: r in rs <==> r == rs[0] || r in rs[1..]
    ensures Distinct(rs) ==> Distinct(rs[1..]) && rs[0] !in SetOf(rs[1..])
  {
    assert forall i :: 1 <= i < |rs| ==> rs[i] == rs[1..][i - 1];
  }

  // ----- the additions -----

  lemma CopyNeeds(es: seq<Entry>, r: Record)
    ensures var out := DeclareZone(es + [Printed(r)], r);
      Apply(es, Copy(r)) ==
        if !Valid(r) then Failure(Invalid)
        else if Holds(es, r) || (IsPolicy(r.typ) && OpensName(es, r.fqdn)) then Failure(Duplicate)
        else if Consistent(RecordsIn(out)) then Success(out) else Failure(Invalid)
  {
    hide Valid, Holds, OpensName, Consistent, DeclareZone, Printed;
  }

  lemma OthersGrow(es: seq<Entry>, r: Record)
    requires Valid(r) ==> Printed(r).rec.Some?
    ensures Valid(r) ==> Others(es + [Printed(r)]) == Others(es)
  {
    hide Valid, Printed;
    AppendKeys(es, Printed(r));
  }

  lemma CopyKeys(es: seq<Entry>, r: Record)
    requires AllCoherent(es) && (Valid(r) ==> PlainValue(r.value))
    ensures Apply(es, Copy(r)).Success? <==>
      && Valid(r) && Canon(r) !in Keys(es)
      && (IsPolicy(r.typ) ==> !OpensName(es, r.fqdn))
      && ConsistentKeys(Keys(es) + {Canon(r)})
    ensures Apply(es, Copy(r)).Success? ==>
      var out := Apply(es, Copy(r)).value;
      && Keys(out) == Keys(es) + {Canon(r)} && Others(es) <= Others(out) && AllCoherent(out)
      && out == DeclareZone(es + [Printed(r)], r)
  {
    hide *;
    CopyNeeds(es, r);
    HoldsIsKeys(es, r);
    if Valid(r) {
      PrintedHolds(r);
      AppendKeys(es, Printed(r));
      DeclareZoneKeys(es + [Printed(r)], r);
      ConsistentIsKeys(DeclareZone(es + [Printed(r)], r));
    }
    if Apply(es, Copy(r)).Success? {
      ApplyStaysCoherent(es, Copy(r));
    }
    OthersGrow(es, r);
  }

  lemma PrintedHolds(r: Record)
    requires Valid(r) && PlainValue(r.value)
    ensures Printed(r).rec == Some(Canon(r))
    ensures Printed(r).zone == if IsPolicy(r.typ) then Some(TrimDot(r.fqdn) + ".") else None
  {
    PrintedIs(r);
    hide EntryOf, BuildLine, Valid, PlainValue;
  }

  // Which names a file opens zones for, one addition later.

  lemma CoversParent(n: string, w: string)
    requires ValidName(n) && ValidName(w) && ParentZone(n) != ""
    requires Normalise(ParentZone(n) + ".") == Normalise(w)
    ensures Covers(TrimDot(w), TrimDot(n))
  {
    hide *;
    var p := ParentZone(n);
    var a := ParentSplits(n);
    NamePartIsTight(n, p);
    NormaliseDotted2(p);
    LowerOfSplit(a, p);
    TrimmedAgain(n);
    TrimmedAgain(w);
    assert ToLower(p) != "" by { LowerLength(p); }
    TrimBoth(Normalise(n), Normalise(w), |a|);
    CoversBySuffix(TrimDot(w), TrimDot(n), |a|);
  }

  lemma LowerLength(s: string)
    ensures |ToLower(s)| == |s|
  {
  }

  /** A suffix that is not empty takes its last dot with it. */
  lemma TrimBoth(n: string, z: string, at: nat)
    requires at < |n| && z != "" && n[at..] == "." + z
    ensures at < |TrimDot(n)| && TrimDot(n)[at..] == "." + TrimDot(z)
  {
    assert n[|n| - 1] == n[at..][|n| - at - 1] == z[|z| - 1];
    assert n[..|n| - 1][at..] == n[at..][..|z|];
    assert ("." + z)[..|z|] == "." + z[..|z| - 1];
  }

  /** The name a record prints as, normalised. */
  lemma TrimmedAgain(n: string)
    requires ValidName(n)
    ensures Normalise(TrimDot(n)) == TrimDot(Normalise(n))
  {
    hide *;
    var t := TrimDot(n);
    ValidIsTight(n);
    NormaliseTight(n);
    NormaliseTight(t);
    TrimmedChars(n);
    TrimOfLower(t);
  }

  lemma NormaliseTight(n: string)
    requires Tight(n)
    ensures Normalise(n) == ToLower(TrimDot(n))
  {
    hide ToLower, TrimDot, TrimSpace;
    TrimTight(n);
  }

  lemma TrimmedChars(n: string)
    requires ValidName(n)
    ensures var t := TrimDot(n); forall i :: 0 <= i < |t| ==> IsNameChar(t[i])
  {
    hide IsNameChar;
    assert forall i :: 0 <= i < |TrimDot(n)| ==> TrimDot(n)[i] == n[i];
  }

  lemma TrimOfLower(t: string)
    requires forall i :: 0 <= i < |t| ==> IsNameChar(t[i])
    ensures ToLower(TrimDot(t)) == TrimDot(ToLower(t))
  {
    assert t != "" ==> (LOWER_OF(t[|t| - 1]) == '.' <==> t[|t| - 1] == '.');
  }

  lemma CoversBySuffix(w: string, n: string, at: nat)
    requires at < |Normalise(n)| && Normalise(n)[at..] == "." + Normalise(w)
    ensures Covers(w, n)
  {
    hide Normalise;
  }

  lemma ParentSplits(n: string) returns (a: string)
    requires ParentZone(n) != ""
    ensures Normalise(n) == ToLower(a + "." + ParentZone(n))
  {
    hide ToLower, IndexOf, TrimSpace, TrimDot;
    var m := TrimDot(TrimSpace(n));
    var dot := IndexOf(m, ".");
    FoundDot(m);
    a := m[..dot];
    assert m == a + "." + ParentZone(n);
  }

  lemma {:induction false} FoundDot(m: string)
    requires IndexOf(m, ".") < |m|
    ensures m[IndexOf(m, ".")] == '.'
  {
    if !("." <= m) {
      FoundDot(m[1..]);
    }
  }

  lemma NamePartIsTight(n: string, p: string)
    requires ValidName(n) && p == ParentZone(n)
    ensures Tight(p)
  {
    Writer.ParentIsName(n);
    if p != "" {
      assert IsNameChar(p[0]) && IsNameChar(p[|p| - 1]);
      NameCharIsTight(p[0]);
      NameCharIsTight(p[|p| - 1]);
    }
    hide ParentZone, ValidName;
  }

  lemma NameCharIsTight(c: char)
    requires IsNameChar(c)
    ensures !IsSpace(c)
  {
  }

  lemma NormaliseDotted2(name: string)
    requires Tight(name)
    ensures Normalise(name + ".") == ToLower(name)
  {
    hide ToLower, TrimSpace;
    assert (name + ".")[|name + "."| - 1] == '.';
    TrimTight(name + ".");
    assert TrimDot(name + ".") == name;
  }

  lemma LowerOfSplit(a: string, p: string)
    ensures |a| < |ToLower(a + "." + p)| && ToLower(a + "." + p)[|a|..] == "." + ToLower(p)
  {
    assert IsAscii('.');
  }

  lemma OpensMore(es: seq<Entry>, e: Entry, name: string)
    ensures OpensName(es + [e], name) <==>
      OpensName(es, name) || (e.zone.Some? && Normalise(e.zone.value) == Normalise(name))
  {
    hide Normalise;
    assert forall k :: 0 <= k < |es| ==> (es + [e])[k] == es[k];
    assert (es + [e])[|es|] == e;
  }

  /** A valid name is normalised alike with its dot or without. */
  lemma PrintedName(n: string)
    requires ValidName(n)
    ensures Normalise(TrimDot(n) + ".") == Normalise(n)
  {
    var t := TrimDot(n);
    ValidIsTight(n);
    TrimTight(n);
    hide ToLower, TrimSpace, ValidName;
    NormaliseDotted2(t);
  }

  lemma ValidIsTight(n: string)
    requires ValidName(n)
    ensures Tight(n) && Tight(TrimDot(n))
  {
    assert IsNameChar(n[0]) && IsNameChar(n[|n| - 1]);
    NameCharIsTight(n[0]);
    NameCharIsTight(n[|n| - 1]);
    var t := TrimDot(n);
    if t != "" {
      assert t[0] == n[0] && t[|t| - 1] in n;
      NameCharIsTight(t[|t| - 1]);
    }
  }

  /** After one addition, the names newly opened are that of a block, or of a parent that
      covers the record. */
  lemma OpensAfter(es: seq<Entry>, r: Record, name: string)
    requires Valid(r) && PlainValue(r.value)
    ensures var out := DeclareZone(es + [Printed(r)], r);
            && (OpensName(es, name) ==> OpensName(out, name))
            && (IsPolicy(r.typ) ==> OpensName(out, r.fqdn))
            && (OpensName(out, name) && !OpensName(es, name) ==>
                  if IsPolicy(r.typ) then Normalise(name) == Normalise(r.fqdn)
                  else ValidName(name) ==> Covers(TrimDot(name), TrimDot(r.fqdn)))
  {
    hide *;
    var mid, p := es + [Printed(r)], ParentZone(r.fqdn);
    PrintedHolds(r);
    OpensMore(es, Printed(r), name);
    OpensMore(es, Printed(r), r.fqdn);
    Writer.ValidHasName(r);
    PrintedName(r.fqdn);
    DeclareIs(mid, r);
    BlockDeclaresNothing(mid, r);
    if DeclareZone(mid, r) != mid {
      Writer.ParentIsName(r.fqdn);
      DeclaredIs(p);
      OpensMore(mid, Declared(p), name);
      if Normalise(p + ".") == Normalise(name) && ValidName(name) {
        CoversParent(r.fqdn, name);
      }
    }
  }

  lemma BlockDeclaresNothing(es: seq<Entry>, r: Record)
    ensures IsPolicy(r.typ) ==> DeclareZone(es, r) == es
  {
    hide EnsureZoneIn;
  }

  // All the additions.

  /** Two additions that cannot both be made: they print as one record, or block one
      name. */
  predicate Collide(a: Record, b: Record) {
    Canon(a) == Canon(b) || (IsPolicy(a.typ) && IsPolicy(b.typ) && Normalise(a.fqdn) == Normalise(b.fqdn))
  }

  /** One record the additions ask about. */
  predicate Welcome(es: seq<Entry>, r: Record) {
    Valid(r) && Canon(r) !in Keys(es) && (IsPolicy(r.typ) ==> !OpensName(es, r.fqdn))
  }

  /** What the additions need: valid, new records that do not collide, names nobody opens
      a zone for where they block, and a whole that is consistent. */
  predicate Addable(es: seq<Entry>, rs: seq<Record>) {
    && (forall r :: r in rs ==> Welcome(es, r))
    && (forall i, j :: 0 <= i < j < |rs| ==> !Collide(rs[i], rs[j]))
    && (rs != [] ==> ConsistentKeys(Keys(es) + Canons(rs)))
  }

  predicate TidyKeys(ks: set<Record>) {
    forall x :: x in ks ==> TidyName(x.fqdn)
  }

  lemma CopyFirst(es: seq<Entry>, rs: seq<Record>)
    requires rs != []
    ensures ApplyAll(es, Copies(rs)) ==
      if Apply(es, Copy(rs[0])).Success? then ApplyAll(Apply(es, Copy(rs[0])).value, Copies(rs[1..]))
      else Failure(Apply(es, Copy(rs[0])).error)
  {
    hide Apply;
    assert Copies(rs)[1..] == Copies(rs[1..]);
  }

  lemma InSet(rs: seq<Record>, r: Record)
    ensures r in rs <==> r in SetOf(rs)
  {
  }

  lemma CollideOne(rs: seq<Record>)
    requires rs != []
    ensures (forall i, j :: 0 <= i < j < |rs| ==> !Collide(rs[i], rs[j])) <==>
      (forall w :: w in rs[1..] ==> !Collide(rs[0], w))
      && (forall i, j :: 0 <= i < j < |rs[1..]| ==> !Collide(rs[1..][i], rs[1..][j]))
  {
    hide Collide;
    PairsFirst(rs, (a, b) => !Collide(a, b));
  }

  /** A record is welcome after an addition exactly when it was before and does not
      collide with it, if the whole is to be consistent. */
  lemma WelcomeAfter(es: seq<Entry>, r: Record, w: Record, ks: set<Record>)
    requires AllCoherent(es) && Plain(r) && Apply(es, Copy(r)).Success?
    ensures var out := Apply(es, Copy(r)).value;
            && (Welcome(out, w) ==> Welcome(es, w) && !Collide(r, w))
            && (Welcome(es, w) && !Collide(r, w) && ConsistentKeys(ks) && Canon(r) in ks && Canon(w) in ks ==> Welcome(out, w))
  {
    hide *;
    PlainParts(r);
    CopyKeys(es, r);
    WelcomeIs(es, w);
    WelcomeIs(Apply(es, Copy(r)).value, w);
    CollideIs(r, w);
    OpensAfter(es, r, w.fqdn);
    SameOpened(Apply(es, Copy(r)).value, r.fqdn, w.fqdn);
    if ConsistentKeys(ks) && Canon(r) in ks && Canon(w) in ks && Valid(w) && IsPolicy(w.typ) && !IsPolicy(r.typ) {
      Writer.ValidHasName(w);
      NotCovered(ks, w, r);
    }
  }

  lemma WelcomeIs(es: seq<Entry>, r: Record)
    ensures Welcome(es, r) <==> Valid(r) && Canon(r) !in Keys(es) && (IsPolicy(r.typ) ==> !OpensName(es, r.fqdn))
  {
    hide Valid, Canon, Keys, OpensName;
  }

  lemma CollideIs(a: Record, b: Record)
    ensures Collide(a, b) <==>
      Canon(a) == Canon(b) || (IsPolicy(a.typ) && IsPolicy(b.typ) && Normalise(a.fqdn) == Normalise(b.fqdn))
  {
    hide Canon, Normalise;
  }

  lemma SameOpened(es: seq<Entry>, a: string, b: string)
    ensures Normalise(a) == Normalise(b) ==> (OpensName(es, a) <==> OpensName(es, b))
  {
    hide Normalise;
  }

  /** In a consistent whole no block covers a record, by the names they print as. */
  lemma NotCovered(ks: set<Record>, block: Record, r: Record)
    requires ConsistentKeys(ks) && Canon(block) in ks && Canon(r) in ks && IsPolicy(block.typ) && !IsPolicy(r.typ)
    ensures !Covers(TrimDot(block.fqdn), TrimDot(r.fqdn))
  {
    hide Covers;
    assert !Covers(Canon(block).fqdn, Canon(r).fqdn);
  }

  lemma TidyIsLower(name: string)
    requires TidyName(name)
    ensures Normalise(name) == ToLower(name) && Tight(name)
  {
    hide ToLower, TrimSpace, TrimDot;
    TrimTight(name);
  }

  /** What must hold before a list of additions, one addition earlier. */
  lemma AddableStep(es: seq<Entry>, rs: seq<Record>)
    requires rs != [] && AllCoherent(es) && AllPlain(rs) && Apply(es, Copy(rs[0])).Success?
    ensures Addable(es, rs) <==> Addable(Apply(es, Copy(rs[0])).value, rs[1..])
  {
    hide *;
    var r, out, ks := rs[0], Apply(es, Copy(rs[0])).value, Keys(es) + Canons(rs);
    PlainSplits(rs);
    PlainParts(r);
    CopyKeys(es, r);
    CanonsFirst(rs);
    CollideOne(rs);
    WelcomeIs(es, r);
    assert Keys(out) + Canons(rs[1..]) == ks;
    AddableIs(es, rs);
    AddableIs(out, rs[1..]);
    forall w | w in rs[1..]
      ensures Welcome(out, w) ==> Welcome(es, w) && !Collide(r, w)
      ensures Welcome(es, w) && !Collide(r, w) && ConsistentKeys(ks) ==> Welcome(out, w)
    {
      InCanons(rs[1..], Canon(w));
      WelcomeAfter(es, r, w, ks);
    }
    if rs[1..] == [] {
      NothingDeleted(Keys(es));
      assert ks == Keys(es) + {Canon(r)};
    }
  }

  lemma AddableIs(es: seq<Entry>, rs: seq<Record>)
    ensures Addable(es, rs) <==>
      && (forall r :: r in rs ==> Welcome(es, r))
      && (forall i, j :: 0 <= i < j < |rs| ==> !Collide(rs[i], rs[j]))
      && (rs != [] ==> ConsistentKeys(Keys(es) + Canons(rs)))
  {
    hide Welcome, Collide, ConsistentKeys, Keys, Canons;
  }

  lemma PlainSplits(rs: seq<Record>)
    requires rs != [] && AllPlain(rs)
    ensures Plain(rs[0]) && AllPlain(rs[1..])
    ensures forall r :: r in rs <==> r == rs[0] || r in rs[1..]
    ensures forall r :: r in rs[1..] ==> Plain(r)
  {
    hide Plain;
  }

  lemma AddableHead(es: seq<Entry>, rs: seq<Record>)
    requires rs != [] && AllCoherent(es) && Plain(rs[0]) && Addable(es, rs)
    ensures Apply(es, Copy(rs[0])).Success?
  {
    hide *;
    var r := rs[0];
    AddableIs(es, rs);
    PlainParts(r);
    WelcomeIs(es, r);
    CopyKeys(es, r);
    CanonsFirst(rs);
    FewerKeys(Keys(es) + Canons(rs), Keys(es) + {Canon(r)});
  }

  lemma FewerKeys(ks: set<Record>, fewer: set<Record>)
    requires ConsistentKeys(ks) && fewer <= ks
    ensures ConsistentKeys(fewer)
  {
    hide Covers;
  }

  /** The additions of a mirror succeed exactly when each record is valid, new and free to
      block its name, no two collide, and the whole is consistent. */
  lemma {:induction false} CopiesAre(es: seq<Entry>, rs: seq<Record>)
    requires AllCoherent(es) && AllPlain(rs)
    ensures ApplyAll(es, Copies(rs)).Success? <==> Addable(es, rs)
    decreases |rs|
  {
    hide *;
    if rs == [] {
      NoCopies(es);
    } else {
      PlainSplits(rs);
      PlainParts(rs[0]);
      CopyFirst(es, rs);
      CopyKeys(es, rs[0]);
      if Apply(es, Copy(rs[0])).Success? {
        AddableStep(es, rs);
        CopiesAre(Apply(es, Copy(rs[0])).value, rs[1..]);
      } else if Addable(es, rs) {
        AddableHead(es, rs);
      }
    }
  }

  lemma NoCopies(es: seq<Entry>)
    ensures ApplyAll(es, Copies([])) == Success(es)
    ensures Canons([]) == {} && Addable(es, [])
  {
    hide Welcome, Collide, ConsistentKeys, Keys, Apply;
    NothingToDo(es);
  }

  /** Additions that went through add what the records print as, and nothing else. */
  lemma {:induction false} CopiesLeave(es: seq<Entry>, rs: seq<Record>)
    requires AllCoherent(es) && AllPlain(rs) && ApplyAll(es, Copies(rs)).Success?
    ensures var out := ApplyAll(es, Copies(rs)).value;
            Keys(out) == Keys(es) + Canons(rs) && Others(es) <= Others(out) && AllCoherent(out)
    decreases |rs|
  {
    hide *;
    if rs == [] {
      NoCopies(es);
    } else {
      PlainSplits(rs);
      PlainParts(rs[0]);
      CopyFirst(es, rs);
      CopyKeys(es, rs[0]);
      CanonsFirst(rs);
      CopiesLeave(Apply(es, Copy(rs[0])).value, rs[1..]);
    }
  }

  // ----- the mirror -----

  /** What a mirror of this source needs of a target. */
  predicate Mirrorable(es: seq<Entry>, want: seq<Record>) {
    Deletable(Keys(es), Removed(es, want)) && Addable(Kept(es, Removed(es, want)), Added(es, want))
  }

  /** A mirror succeeds exactly when each surplus record of the target may be removed and
      is found, and what is missing may be written into what is left. */
  lemma MirrorIs(es: seq<Entry>, want: seq<Record>)
    requires AllCoherent(es) && AllPlain(Added(es, want))
    ensures Mirror(es, want).Success? <==> Mirrorable(es, want)
  {
    hide *;
    MirrorSplits(es, want);
    MirrorableIs(es, want);
    DeletesAre(es, Removed(es, want));
    CopiesAre(Kept(es, Removed(es, want)), Added(es, want));
  }

  lemma MirrorableIs(es: seq<Entry>, want: seq<Record>)
    ensures Mirrorable(es, want) <==>
      Deletable(Keys(es), Removed(es, want)) && Addable(Kept(es, Removed(es, want)), Added(es, want))
  {
    hide Deletable, Addable, Kept, Keys, Removed, Added;
  }

  lemma MirrorSplits(es: seq<Entry>, want: seq<Record>)
    ensures Mirror(es, want) ==
      match ApplyAll(es, Deletes(Removed(es, want)))
      case Failure(error) => Failure(error)
      case Success(mid) => ApplyAll(mid, Copies(Added(es, want)))
  {
    hide ApplyAll, Removed, Added;
    ApplyAllConcat(es, Deletes(Removed(es, want)), Copies(Added(es, want)));
  }

  /** A mirror that went through took away what the surplus prints as and added what the
      missing records print as. Every line the panel does not manage is there, in
      order. */
  lemma MirrorLeaves(es: seq<Entry>, want: seq<Record>)
    requires AllCoherent(es) && AllPlain(Added(es, want)) && Mirror(es, want).Success?
    ensures var out := Mirror(es, want).value;
            && Keys(out) == Keys(es) - Canons(Removed(es, want)) + Canons(Added(es, want))
            && Others(es) <= Others(out) && AllCoherent(out)
  {
    hide *;
    MirrorSplits(es, want);
    DeletesAre(es, Removed(es, want));
    CopiesLeave(Kept(es, Removed(es, want)), Added(es, want));
  }

  lemma RemovedIs(es: seq<Entry>, want: seq<Record>)
    requires AllCoherent(es)
    ensures SetOf(Removed(es, want)) == Keys(es) - SetOf(want)
    ensures forall r :: r in Removed(es, want) ==> Read(r)
  {
    hide Read, Missing, Coherent;
    AllKeysAre(es);
    MissingSet(RecordsIn(es), SetOf(want));
    forall r | r in Removed(es, want)
      ensures Read(r)
    {
      InSet(Removed(es, want), r);
      InSet(RecordsIn(es), r);
      KeysAre(es, r);
      var k :| 0 <= k < |es| && es[k].rec == Some(r);
      CoherentIsRead(es[k]);
    }
  }

  lemma AddedIs(es: seq<Entry>, want: seq<Record>)
    ensures SetOf(Added(es, want)) == SetOf(want) - Keys(es) && Distinct(Added(es, want))
  {
    hide Missing;
    MissingSet(want, Keys(es));
    MissingDistinct(want, Keys(es));
  }

  /** Of the names that end in a dot, the longest. */
  lemma {:induction false} LongestDotted(rs: seq<Record>) returns (r: Record)
    requires !Undotted(rs)
    ensures r in rs && TrimDot(r.fqdn) != r.fqdn
    ensures forall q :: q in rs && TrimDot(q.fqdn) != q.fqdn ==> |q.fqdn| <= |r.fqdn|
  {
    hide TrimDot;
    assert rs != [];
    assert forall q :: q in rs <==> q == rs[0] || q in rs[1..];
    if Undotted(rs[1..]) {
      r := rs[0];
    } else {
      var q := LongestDotted(rs[1..]);
      r := if TrimDot(rs[0].fqdn) != rs[0].fqdn && |q.fqdn| <= |rs[0].fqdn| then rs[0] else q;
    }
  }

  /** What prints as a name that ends in a dot has a longer name that does. */
  lemma LongerDotted(r: Record, q: Record)
    requires Canon(q) == r && TrimDot(r.fqdn) != r.fqdn
    ensures TrimDot(q.fqdn) != q.fqdn && |q.fqdn| == |r.fqdn| + 1
  {
  }

  lemma UndottedCanons(rs: seq<Record>)
    requires Undotted(rs) && forall r :: r in rs ==> Read(r)
    ensures Canons(rs) == SetOf(rs)
  {
    hide *;
    UndottedIsCanon(rs);
    CanonsAre(rs);
  }

  lemma UndottedIsCanon(rs: seq<Record>)
    requires Undotted(rs) && forall r :: r in rs ==> Read(r)
    ensures forall r :: r in rs ==> Canon(r) == r
  {
    hide Canon, Read, TrimDot;
    forall r | r in rs
      ensures Canon(r) == r
    {
      SoundIsCanon(r);
    }
  }

  /** A mirror that went through leaves exactly the source's records if and only if no
      record it removed or added has a name that ends in a dot once read. Nothing is asked
      of any name. */
  lemma MirrorConverges(es: seq<Entry>, want: seq<Record>)
    requires AllCoherent(es) && AllReadPlain(Added(es, want)) && Mirror(es, want).Success?
    ensures Keys(Mirror(es, want).value) == SetOf(want) <==> Undotted(Removed(es, want)) && Undotted(Added(es, want))
  {
    hide *;
    var gone, latest := Removed(es, want), Added(es, want);
    PlainIsRead(latest);
    MirrorLeaves(es, want);
    RemovedIs(es, want);
    AddedIs(es, want);
    UndottedBoth(gone, latest);
    if Undotted(gone + latest) {
      UndottedCanons(gone);
      UndottedCanons(latest);
    } else {
      var r := LongestDotted(gone + latest);
      NobodyPrintsAs(gone + latest, r);
      NotPrinted(gone, latest, r);
      InSet(gone, r);
      InSet(latest, r);
    }
  }

  lemma PlainIsRead(rs: seq<Record>)
    requires AllReadPlain(rs)
    ensures AllPlain(rs) && forall r :: r in rs ==> Read(r)
  {
    hide Read, Plain;
  }

  lemma UndottedBoth(a: seq<Record>, b: seq<Record>)
    ensures Undotted(a + b) <==> Undotted(a) && Undotted(b)
  {
    hide TrimDot;
    assert forall r :: r in a + b <==> r in a || r in b;
  }

  lemma NobodyPrintsAs(rs: seq<Record>, r: Record)
    requires TrimDot(r.fqdn) != r.fqdn
    requires forall q :: q in rs && TrimDot(q.fqdn) != q.fqdn ==> |q.fqdn| <= |r.fqdn|
    ensures forall q :: q in rs ==> Canon(q) != r
  {
    hide Canon, TrimDot;
    forall q | q in rs && Canon(q) == r
      ensures false
    {
      LongerDotted(r, q);
    }
  }

  lemma NotPrinted(gone: seq<Record>, latest: seq<Record>, r: Record)
    requires forall q :: q in gone + latest ==> Canon(q) != r
    ensures r !in Canons(gone) && r !in Canons(latest) && (r in gone + latest <==> r in gone || r in latest)
  {
    hide Canon;
    InCanons(gone, r);
    InCanons(latest, r);
    assert forall q :: q in gone + latest <==> q in gone || q in latest;
  }

  /** A second mirror of the same source finds nothing to do under the same condition. */
  lemma MirrorSettles(es: seq<Entry>, want: seq<Record>)
    requires AllCoherent(es) && AllReadPlain(Added(es, want)) && Mirror(es, want).Success?
    ensures var out := Mirror(es, want).value;
            && (Removed(out, want) == [] && Added(out, want) == []
                <==> Undotted(Removed(es, want)) && Undotted(Added(es, want)))
            && (Removed(out, want) == [] && Added(out, want) == [] ==> Mirror(out, want) == Success(out))
  {
    hide *;
    MirrorConverges(es, want);
    PlainIsRead(Added(es, want));
    MirrorLeaves(es, want);
    var out := Mirror(es, want).value;
    NothingMissing(out, want);
  }

  lemma NothingMissing(es: seq<Entry>, want: seq<Record>)
    ensures Removed(es, want) == [] && Added(es, want) == [] <==> Keys(es) == SetOf(want)
    ensures Removed(es, want) == [] && Added(es, want) == [] ==> Mirror(es, want) == Success(es)
  {
    hide Missing, Keys, RecordsIn, Apply;
    AllKeysAre(es);
    MissingSet(RecordsIn(es), SetOf(want));
    MissingSet(want, Keys(es));
    assert SetOf(RecordsIn(es)) == Keys(es);
    EmptySet(Removed(es, want));
    EmptySet(Added(es, want));
    assert Deletes([]) + Copies([]) == [];
  }

  lemma EmptySet(rs: seq<Record>)
    ensures rs == [] <==> SetOf(rs) == {}
  {
    if rs != [] {
      assert rs[0] in SetOf(rs);
    }
  }

  // A mirror that loses a record.

  const WANTED := Record("a", CNAME, "b", 0)
  const DOTTED := Record("a.", CNAME, "b", 0)
  const TYPED := Record("a..", CNAME, "b", 0)

  lemma LosingNames()
    ensures ValidName("a") && ValidName("a.") && ValidName("a..") && ValidName("b")
    ensures TrimDot("a") == "a" && TrimDot("a.") == "a" && TrimDot("a..") == "a."
  {
    assert IsNameChar('a') && IsNameChar('b') && IsNameChar('.');
  }

  lemma LosingRecords()
    ensures Valid(WANTED) && Valid(TYPED) && ValidForRemoval(DOTTED)
    ensures Canon(WANTED) == WANTED && Canon(DOTTED) == WANTED && Canon(TYPED) == DOTTED
  {
    LosingNames();
    hide ValidName, TrimDot, ValidText, ValidAddress, ByteLength;
  }

  lemma LosingPrints()
    ensures Printed(WANTED).rec == Some(WANTED) && Printed(TYPED).rec == Some(DOTTED)
  {
    hide *;
    LosingRecords();
    LosingNames();
    ValuesAre();
    ValidIsPlain(WANTED);
    ValidIsPlain(TYPED);
    PrintedHolds(WANTED);
    PrintedHolds(TYPED);
  }

  lemma ValuesAre()
    ensures WANTED.value == TYPED.value == "b"
  {
  }

  /** The target holds the wanted line and the same line with a second dot behind its
      name. The second is read as surplus, its removal takes the first, and the mirror goes
      through without the record it was to keep. */
  lemma MirrorLoses()
    ensures var es, want := [Printed(WANTED), Printed(TYPED)], [WANTED];
            && AllCoherent(es) && Keys(es) == {WANTED, DOTTED}
            && Mirror(es, want).Success? && Keys(Mirror(es, want).value) == {DOTTED}
  {
    hide *;
    var es, want := [Printed(WANTED), Printed(TYPED)], [WANTED];
    LosingPrints();
    LosingRecords();
    PrintedCoherent(WANTED);
    PrintedCoherent(TYPED);
    TwoLines(es);
    OneMissing(es, want);
    NothingAsked();
    OneDeletable();
    NoCopies(Kept(es, [DOTTED]));
    MirrorableIs(es, want);
    MirrorIs(es, want);
    MirrorLeaves(es, want);
  }

  lemma NothingAsked()
    ensures AllPlain([])
  {
  }

  lemma OneDeletable()
    ensures Deletable({WANTED, DOTTED}, [DOTTED]) && Canons([DOTTED]) == {WANTED} && WANTED != DOTTED
  {
    hide *;
    LosingRecords();
    DistinctNames();
    OneOf({WANTED, DOTTED}, DOTTED);
  }

  lemma DistinctNames()
    ensures WANTED != DOTTED
  {
  }

  lemma OneOf(ks: set<Record>, r: Record)
    requires ValidForRemoval(r) && Canon(r) in ks
    ensures Deletable(ks, [r]) && Canons([r]) == {Canon(r)}
  {
    hide ValidForRemoval, Canon;
  }

  lemma TwoLines(es: seq<Entry>)
    requires |es| == 2 && Coherent(es[0]) && Coherent(es[1])
    requires es[0].rec == Some(WANTED) && es[1].rec == Some(DOTTED)
    ensures AllCoherent(es) && Keys(es) == {WANTED, DOTTED} && RecordsIn(es) == [WANTED, DOTTED]
  {
    hide Coherent;
    assert es[1..][1..] == [];
    assert RecordsIn(es[1..]) == [DOTTED] + RecordsIn([]);
    assert RecordsIn(es) == [WANTED] + RecordsIn(es[1..]);
    assert Keys(es[1..]) == {DOTTED};
  }

  lemma PrintedCoherent(r: Record)
    ensures Coherent(Printed(r))
  {
    hide EntryOf, BuildLine, Coherent;
    EntryIsCoherent(BuildLine(r));
  }

  lemma OneMissing(es: seq<Entry>, want: seq<Record>)
    requires RecordsIn(es) == [WANTED, DOTTED] && Keys(es) == {WANTED, DOTTED} && want == [WANTED]
    ensures Removed(es, want) == [DOTTED] && Added(es, want) == []
  {
    assert SetOf(want) == {WANTED} && WANTED != DOTTED;
    assert [WANTED, DOTTED][1..] == [DOTTED] && [DOTTED][1..] == [] && want[1..] == [];
    assert Missing([DOTTED], {WANTED}) == [DOTTED] + Missing([], {WANTED, DOTTED});
  }

  // ----- a mirror that cannot fail -----

  /** A block line the panel can write: it opens a zone under its own name. */
  predicate IsBlock(r: Record) {
    IsPolicy(r.typ) && r.value == ""
  }

  /** A held block opens its zone under the name it is listed by. */
  lemma BlockOpensItsName(e: Entry)
    requires Coherent(e) && e.rec.Some? && IsBlock(e.rec.value) && TidyName(e.rec.value.fqdn)
    ensures e.zone.Some? && Normalise(e.zone.value) == Normalise(e.rec.value.fqdn)
  {
    NormaliseDotted(e.rec.value.fqdn);
  }

  lemma NormaliseDotted(name: string)
    requires TidyName(name)
    ensures Normalise(name + ".") == Normalise(name)
  {
    hide *;
    TidyIsLower(name);
    NormaliseDotted2(name);
  }

  lemma OpensNameIs(es: seq<Entry>, name: string)
    requires AllCoherent(es) && forall x :: x in Keys(es) ==> TidyName(x.fqdn)
    ensures OpensName(es, name) <==>
      OpensName(Others(es), name) || exists b :: b in Keys(es) && IsBlock(b) && Normalise(b.fqdn) == Normalise(name)
  {
    hide Normalise, Coherent, TidyName, IsBlock;
    OthersAre(es);
    AllKeysAre(es);
    forall k | 0 <= k < |es| && es[k].rec.Some?
      ensures (es[k].zone.Some? <==> IsBlock(es[k].rec.value))
      ensures IsBlock(es[k].rec.value) ==> Normalise(es[k].zone.value) == Normalise(es[k].rec.value.fqdn)
    {
      ZoneIsBlock(es[k]);
      if IsBlock(es[k].rec.value) {
        BlockOpensItsName(es[k]);
      }
    }
    if b :| b in Keys(es) && IsBlock(b) && Normalise(b.fqdn) == Normalise(name) {
      KeysAre(es, b);
    }
  }

  lemma ZoneIsBlock(e: Entry)
    requires Coherent(e) && e.rec.Some?
    ensures e.zone.Some? <==> IsBlock(e.rec.value)
  {
    hide Spaced;
  }

  lemma {:induction false} OthersAre(es: seq<Entry>)
    ensures forall e :: e in Others(es) <==> e in es && e.rec == None
  {
    if es != [] {
      OthersAre(es[1..]);
      assert forall e :: e in es <==> e == es[0] || e in es[1..];
    }
  }

  lemma TidyRemovals(es: seq<Entry>, want: seq<Record>)
    requires AllCoherent(es) && TidyKeys(Keys(es))
    requires forall x :: x in Keys(es) && x !in want ==> ValidForRemoval(x)
    ensures Deletable(Keys(es), Removed(es, want)) && Keys(Kept(es, Removed(es, want))) == Keys(es) * SetOf(want)
  {
    hide *;
    var gone := Removed(es, want);
    RemovedIs(es, want);
    RemovedDistinct(es, want);
    TidyIsUndotted(es, want);
    UndottedCanons(gone);
    DeletesAre(es, gone);
    forall r | r in gone
      ensures ValidForRemoval(r) && Canon(r) in Keys(es) && Canon(r) == r
    {
      InSet(gone, r);
      InSet(want, r);
      SoundIsCanon(r);
      UndottedAt(gone, r);
    }
    DeletableIntro(Keys(es), gone);
  }

  lemma RemovedDistinct(es: seq<Entry>, want: seq<Record>)
    ensures Distinct(Removed(es, want))
  {
    hide Missing, Distinct;
    MissingDistinct(RecordsIn(es), SetOf(want));
  }

  lemma UndottedAt(rs: seq<Record>, r: Record)
    requires Undotted(rs) && r in rs
    ensures TrimDot(r.fqdn) == r.fqdn
  {
    hide TrimDot;
  }

  lemma DeletableIntro(ks: set<Record>, rs: seq<Record>)
    requires Distinct(rs) && forall r :: r in rs ==> ValidForRemoval(r) && Canon(r) in ks && Canon(r) == r
    ensures Deletable(ks, rs)
  {
    hide ValidForRemoval, Canon;
    forall i, j | 0 <= i < j < |rs|
      ensures Canon(rs[i]) != Canon(rs[j])
    {
      assert rs[i] in rs && rs[j] in rs;
    }
  }

  lemma TidyIsUndotted(es: seq<Entry>, want: seq<Record>)
    requires AllCoherent(es) && TidyKeys(Keys(es))
    ensures Undotted(Removed(es, want))
  {
    RemovedIs(es, want);
    hide Removed, Keys, TrimDot, AllCoherent;
    forall r | r in Removed(es, want)
      ensures TrimDot(r.fqdn) == r.fqdn
    {
      InSet(Removed(es, want), r);
      assert TidyName(r.fqdn);
    }
  }

  /** The records of a valid, consistent source whose blocks have distinct names reach
      every target whose surplus may be removed and which opens no zone of its own for a
      name the source blocks. */
  lemma MirrorSucceeds(es: seq<Entry>, want: seq<Record>)
    requires AllCoherent(es) && TidyKeys(Keys(es)) && AllSound(Added(es, want))
    requires forall x :: x in Keys(es) && x !in want ==> ValidForRemoval(x)
    requires ConsistentKeys(SetOf(want)) && forall r :: r in want && r !in Keys(es) ==> Valid(r)
    requires forall a, b | a in want && b in want && IsPolicy(a.typ) && IsPolicy(b.typ) ::
               Normalise(a.fqdn) == Normalise(b.fqdn) ==> a == b
    requires forall b :: b in want && IsPolicy(b.typ) ==> !OpensName(Others(es), b.fqdn)
    ensures Mirror(es, want).Success?
  {
    hide *;
    var latest, mid := Added(es, want), Kept(es, Removed(es, want));
    TidyRemovals(es, want);
    DeletesAre(es, Removed(es, want));
    AddedIs(es, want);
    SoundPlains(latest);
    MirrorIs(es, want);
    MirrorableIs(es, want);
    forall r | r in latest
      ensures Valid(r) && Canon(r) == r && r in want && r !in Keys(es)
    {
      InSet(latest, r);
      InSet(want, r);
      SoundAt(latest, r);
      SoundIs(r);
    }
    CanonsAre(latest);
    forall r | r in latest
      ensures Welcome(mid, r)
    {
      WelcomeIs(mid, r);
      if IsPolicy(r.typ) {
        NoneOpens(es, mid, want, r);
      }
    }
    forall i, j | 0 <= i < j < |latest|
      ensures !Collide(latest[i], latest[j])
    {
      assert latest[i] in latest && latest[j] in latest;
      DistinctAt(latest, i, j);
      CollideIs(latest[i], latest[j]);
    }
    FewerKeys(SetOf(want), Keys(mid) + Canons(latest));
    AddableIs(mid, latest);
  }

  lemma DistinctAt(rs: seq<Record>, i: nat, j: nat)
    requires Distinct(rs) && i < j < |rs|
    ensures rs[i] != rs[j]
  {
  }

  lemma SoundAt(rs: seq<Record>, r: Record)
    requires AllSound(rs) && r in rs
    ensures Sound(r)
  {
    hide Sound;
  }

  lemma SoundPlains(rs: seq<Record>)
    requires AllSound(rs)
    ensures AllPlain(rs)
  {
    hide Sound, Plain;
    forall r | r in rs
      ensures Plain(r)
    {
      SoundIs(r);
    }
  }

  lemma CanonsAre(rs: seq<Record>)
    requires forall r :: r in rs ==> Canon(r) == r
    ensures Canons(rs) == SetOf(rs)
  {
    hide Canon;
  }

  lemma NoneOpens(es: seq<Entry>, mid: seq<Entry>, want: seq<Record>, r: Record)
    requires AllCoherent(mid) && TidyKeys(Keys(es)) && Keys(mid) == Keys(es) * SetOf(want) && Others(mid) == Others(es)
    requires r in want && r !in Keys(es) && IsPolicy(r.typ) && !OpensName(Others(es), r.fqdn)
    requires forall a, b | a in want && b in want && IsPolicy(a.typ) && IsPolicy(b.typ) ::
               Normalise(a.fqdn) == Normalise(b.fqdn) ==> a == b
    ensures !OpensName(mid, r.fqdn)
  {
    hide OpensName, Normalise, Keys, Others, AllCoherent, TidyName;
    forall x | x in Keys(mid)
      ensures TidyName(x.fqdn) && x in want && x in Keys(es)
    {
      InSet(want, x);
    }
    OpensNameIs(mid, r.fqdn);
  }

  // ----- what a mirror may write -----

  lemma {:induction false} FoldEvery(es: seq<Entry>, ops: seq<Operation>, p: Entry -> bool)
    requires Every(es, p) && ApplyAll(es, ops).Success?
    requires forall i :: 0 <= i < |ops| ==> WritesOnly(Written(ops[i]), p)
    ensures Every(ApplyAll(es, ops).value, p)
    decreases |ops|
  {
    hide Apply, Every, Written, WritesOnly;
    if ops != [] {
      ApplyEvery(es, ops[0], p);
      FoldEvery(Apply(es, ops[0]).value, ops[1..], p);
    }
  }

  /** A line the target held, a record of the source as it is printed, or the parent
      zone of one. */
  ghost predicate Expected(es: seq<Entry>, want: seq<Record>, e: Entry) {
    e in es || exists r :: r in want && (e == Printed(r) || e == Declared(ParentZone(r.fqdn)))
  }

  /** A mirror leaves no line in the target that is not expected. */
  lemma MirrorWritesOnly(es: seq<Entry>, want: seq<Record>)
    requires Mirror(es, want).Success?
    ensures forall e :: e in Mirror(es, want).value ==> Expected(es, want, e)
  {
    hide *;
    var gone, latest := Removed(es, want), Added(es, want);
    ghost var p := (e: Entry) => Expected(es, want, e);
    MirrorIsFold(es, want);
    AddedIsWanted(es, want);
    StartsExpected(es, want, p);
    MirrorOps(gone, latest, want, p);
    FoldEvery(es, Deletes(gone) + Copies(latest), p);
    EveryIs(Mirror(es, want).value, p);
  }

  lemma MirrorIsFold(es: seq<Entry>, want: seq<Record>)
    ensures Mirror(es, want) == ApplyAll(es, Deletes(Removed(es, want)) + Copies(Added(es, want)))
  {
    hide ApplyAll, Removed, Added;
  }

  lemma AddedIsWanted(es: seq<Entry>, want: seq<Record>)
    ensures forall r :: r in Added(es, want) ==> r in want
  {
    hide Missing, Keys;
    MissingSet(want, Keys(es));
    forall r | r in Added(es, want)
      ensures r in want
    {
      InSet(Added(es, want), r);
      InSet(want, r);
    }
  }

  lemma EveryIs(es: seq<Entry>, p: Entry -> bool)
    ensures Every(es, p) <==> forall e :: e in es ==> p(e)
  {
  }

  lemma StartsExpected(es: seq<Entry>, want: seq<Record>, p: Entry -> bool)
    requires forall e :: p(e) <==> Expected(es, want, e)
    ensures Every(es, p)
    ensures forall r :: r in want ==> p(Printed(r)) && p(Declared(ParentZone(r.fqdn)))
  {
    hide Printed, Declared, ParentZone;
  }

  lemma MirrorOps(gone: seq<Record>, latest: seq<Record>, want: seq<Record>, p: Entry -> bool)
    requires forall r :: r in latest ==> r in want
    requires forall r :: r in want ==> p(Printed(r)) && p(Declared(ParentZone(r.fqdn)))
    ensures var ops := Deletes(gone) + Copies(latest); forall i :: 0 <= i < |ops| ==> WritesOnly(Written(ops[i]), p)
  {
    hide Printed, Declared, ParentZone, Valid;
    var ops := Deletes(gone) + Copies(latest);
    forall i | 0 <= i < |ops|
      ensures WritesOnly(Written(ops[i]), p)
    {
      if i >= |gone| {
        assert ops[i] == Copy(latest[i - |gone|]) && latest[i - |gone|] in latest;
      } else {
        assert ops[i] == Delete(gone[i]);
      }
    }
  }
}

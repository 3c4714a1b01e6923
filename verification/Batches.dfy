/** A batch of records before it reaches a server, and the reports it leaves behind
    (Operation.validateBatch in internal/fleet/apply.go, mergeReports in
    internal/fleet/scheduler.go). */
module Batches {
  import opened Platform
  import opened Text
  import opened Records
  import opened RoundTrip
  import opened Entries
  import opened Edits
  import opened KeySets
  import opened Reconcile
  import opened Repairs
  import opened Replay
  import opened Runs

  // ----- validateBatch -----

  /** Which refusal two rows of a batch earn. */
  predicate Repeats(rs: seq<Record>, j: nat) {
    j < |rs| && exists i :: 0 <= i < j && rs[i] == rs[j]
  }

  predicate Renames(rs: seq<Record>, j: nat) {
    j < |rs| && OneValuePerName(rs[j].typ) && exists i :: 0 <= i < j && rs[i].typ == rs[j].typ && rs[i].fqdn == rs[j].fqdn
  }

  /** The first row that cannot be written, and why. */
  predicate RowProblem(rs: seq<Record>, j: nat, problem: Error) {
    j < |rs|
    && match problem
       case Invalid => !Valid(rs[j])
       case Duplicate => Valid(rs[j]) && Repeats(rs, j)
       case NameTaken => Valid(rs[j]) && !Repeats(rs, j) && Renames(rs, j)
       case NotFound => false
  }

  /** No refusal exactly for a valid batch, and otherwise the refusal of the first row
      that earns one. */
  method ValidateBatch(rs: seq<Record>) returns (problem: Option<Error>)
    ensures problem == None <==> ValidBatch(rs)
    ensures problem.Some? ==>
      |rs| == 0 || |rs| > 100 || exists j :: 0 <= j < |rs| && RowProblem(rs, j, problem.value) && Clean(rs[..j])
  {
    hide Valid, ValidBatch, Clean, Named, Repeats, Renames;
    BatchIs(rs);
    if |rs| == 0 || |rs| > 100 {
      return Some(Invalid);
    }
    NothingNamed();
    var seen: map<Record, nat> := map[];
    var named: map<(string, RecordType), nat> := map[];
    for i := 0 to |rs|
      invariant forall r :: r in seen <==> r in rs[..i]
      invariant forall key :: key in named <==> Named(rs[..i], key)
      invariant Clean(rs[..i])
    {
      assert rs[..i + 1] == rs[..i] + [rs[i]];
      RowIs(rs, i);
      if !Valid(rs[i]) {
        assert RowProblem(rs, i, Invalid);
        return Some(Invalid);
      }
      if rs[i] in seen {
        assert RowProblem(rs, i, Duplicate);
        return Some(Duplicate);
      }
      seen := seen[rs[i] := i + 1];
      NamedStep(rs[..i], rs[i]);
      if OneValuePerName(rs[i].typ) {
        if (rs[i].fqdn, rs[i].typ) in named {
          assert RowProblem(rs, i, NameTaken);
          return Some(NameTaken);
        }
        named := named[(rs[i].fqdn, rs[i].typ) := i + 1];
      }
      CleanStep(rs[..i], rs[i]);
    }
    assert rs[..|rs|] == rs;
    problem := None;
  }

  predicate Clean(rs: seq<Record>) {
    (forall i :: 0 <= i < |rs| ==> Valid(rs[i])) && forall i, j :: 0 <= i < j < |rs| ==> !Clash(rs[i], rs[j])
  }

  predicate Named(rs: seq<Record>, key: (string, RecordType)) {
    exists i :: 0 <= i < |rs| && OneValuePerName(rs[i].typ) && (rs[i].fqdn, rs[i].typ) == key
  }

  lemma BatchIs(rs: seq<Record>)
    ensures ValidBatch(rs) <==> 1 <= |rs| <= 100 && Clean(rs)
  {
    hide Valid, Clash;
  }

  lemma NothingNamed()
    ensures Clean([]) && forall key :: !Named([], key)
  {
  }

  lemma RowIs(rs: seq<Record>, i: nat)
    requires i < |rs|
    ensures Repeats(rs, i) <==> rs[i] in rs[..i]
    ensures OneValuePerName(rs[i].typ) ==> (Renames(rs, i) <==> Named(rs[..i], (rs[i].fqdn, rs[i].typ)))
    ensures Clean(rs) && i < |rs| ==> Valid(rs[i]) && !Repeats(rs, i) && !Renames(rs, i)
  {
    hide Valid;
    if Renames(rs, i) {
      var k :| 0 <= k < i && rs[k].typ == rs[i].typ && rs[k].fqdn == rs[i].fqdn;
      assert rs[..i][k] == rs[k];
    }
  }

  lemma NamedStep(rs: seq<Record>, r: Record)
    ensures forall key :: Named(rs + [r], key) <==> Named(rs, key) || (OneValuePerName(r.typ) && key == (r.fqdn, r.typ))
  {
    forall key
      ensures Named(rs + [r], key) <==> Named(rs, key) || (OneValuePerName(r.typ) && key == (r.fqdn, r.typ))
    {
      var more := rs + [r];
      assert more[|rs|] == r && forall i :: 0 <= i < |rs| ==> more[i] == rs[i];
      if i :| 0 <= i < |rs| && OneValuePerName(rs[i].typ) && (rs[i].fqdn, rs[i].typ) == key {
        assert more[i] == rs[i];
      }
    }
  }

  lemma CleanStep(rs: seq<Record>, r: Record)
    requires Clean(rs) && Valid(r) && r !in rs
    requires OneValuePerName(r.typ) ==> !Named(rs, (r.fqdn, r.typ))
    ensures Clean(rs + [r])
  {
    hide Valid;
  }

  // ----- one name, two values -----

  /** A name that carries one value is given two. */
  predicate TwoValues(a: Record, b: Record) {
    OneValuePerName(a.typ) && SameName(a, b) && a.value != b.value
  }

  /** One name, once with its dot and once without. */
  predicate Respelled(a: string, b: string) {
    (b == a + "." && TrimDot(a) == a) || (a == b + "." && TrimDot(b) == b)
  }

  const BARE := Record("a", CNAME, "b", 0)
  const WITH_DOT := Record("a.", CNAME, "c", 0)

  /** The validation compares names as they were typed, and lets a name through twice when
      it is typed with a dot and without. */
  lemma TwoValuesPass()
    ensures ValidBatch([BARE, WITH_DOT]) && TwoValues(BARE, WITH_DOT)
  {
    SlippingNames();
    NameValue(BARE);
    NameValue(WITH_DOT);
    hide Valid, ValidBatch, ValidName, TrimDot;
    PairPasses(BARE, WITH_DOT);
  }

  lemma NameValue(r: Record)
    requires ValidName(r.fqdn) && r.typ == CNAME && ValidName(r.value)
    ensures Valid(r)
  {
    hide ValidName, ByteLength, ValidText, ValidAddress;
  }

  lemma PairPasses(x: Record, y: Record)
    requires Valid(x) && Valid(y) && !Clash(x, y)
    ensures ValidBatch([x, y])
  {
    hide Valid, Clash;
  }

  lemma SlippingNames()
    ensures ValidName("a") && ValidName("a.") && ValidName("b") && ValidName("c")
    ensures TrimDot("a") == TrimDot("a.") && "a" != "a." && "b" != "c"
  {
    assert IsNameChar('a') && IsNameChar('b') && IsNameChar('c') && IsNameChar('.');
  }

  /** Two rows of a batch that passed give one name two values exactly when they spell it
      in the two ways. */
  lemma TwoValuesIff(rs: seq<Record>, i: nat, j: nat)
    requires ValidBatch(rs) && i < j < |rs|
    ensures TwoValues(rs[i], rs[j]) <==>
      && OneValuePerName(rs[i].typ) && rs[i].typ == rs[j].typ && rs[i].value != rs[j].value
      && Respelled(rs[i].fqdn, rs[j].fqdn)
  {
    hide Valid;
    assert !Clash(rs[i], rs[j]);
    SameSpelling(rs[i].fqdn, rs[j].fqdn);
  }

  lemma SameSpelling(a: string, b: string)
    ensures TrimDot(a) == TrimDot(b) <==> a == b || Respelled(a, b)
  {
    assert a != "" && a[|a| - 1] == '.' ==> a == a[..|a| - 1] + ".";
    assert b != "" && b[|b| - 1] == '.' ==> b == b[..|b| - 1] + ".";
    assert (a + ".")[..|a|] == a && (b + ".")[..|b|] == b;
  }

  /** Two rows that give one name two values, whatever their spelling of it, make every
      file refuse the batch. */
  lemma {:induction false} TwiceNamedIsRefused(es: seq<Entry>, rs: seq<Record>, i: nat, j: nat)
    requires i < j < |rs| && Request(rs[i]) && TwoValues(rs[i], rs[j])
    ensures AddEach(es, rs).Failure?
    decreases |rs|
  {
    hide *;
    TwoValuesIs(rs[i], rs[j]);
    EachFirst(es, rs);
    if AddRecord(es, rs[0]).Success? {
      AddRecordKeys(es, rs[0]);
      var next := DeclareZone(AddRecord(es, rs[0]).value, rs[0]);
      if i == 0 {
        AddRecordUnfolds(es, rs[0]);
        RequestWritable(rs[0]);
        PrintedRecord(rs[0]);
        CanonIs(rs[0]);
        OtherWay(rs[0], rs[j]);
        RequestNames(rs[0], rs[j]);
        OtherWay(Canon(rs[0]), rs[j]);
        HeldIsRefused(next, rs[1..], j - 1, Canon(rs[0]));
      } else {
        TwiceNamedIsRefused(next, rs[1..], i - 1, j - 1);
      }
    }
  }

  lemma TwoValuesIs(a: Record, b: Record)
    ensures TwoValues(a, b) <==> OneValuePerName(a.typ) && SameName(a, b) && a.value != b.value
  {
    hide SameName;
  }

  lemma CanonIs(r: Record)
    ensures Canon(r).value == r.value && Canon(r).typ == r.typ
  {
  }

  lemma EachFirst(es: seq<Entry>, rs: seq<Record>)
    requires rs != []
    ensures AddEach(es, rs) == if AddRecord(es, rs[0]).Failure? then Failure(AddRecord(es, rs[0]).error)
                               else AddEach(DeclareZone(AddRecord(es, rs[0]).value, rs[0]), rs[1..])
  {
    hide AddRecord, DeclareZone;
  }

  lemma AddRecordKeys(es: seq<Entry>, r: Record)
    requires AddRecord(es, r).Success?
    ensures Keys(DeclareZone(AddRecord(es, r).value, r)) == Keys(es) + KeyOf(Printed(r))
  {
    hide *;
    AddRecordUnfolds(es, r);
    PrintedAppends(es, r);
  }

  lemma {:induction false} HeldIsRefused(es: seq<Entry>, rs: seq<Record>, j: nat, x: Record)
    requires j < |rs| && x in Keys(es) && SameName(x, rs[j]) && x.value != rs[j].value && OneValuePerName(x.typ)
    ensures AddEach(es, rs).Failure?
    decreases |rs|
  {
    hide *;
    EachFirst(es, rs);
    if AddRecord(es, rs[0]).Success? {
      AddRecordUnfolds(es, rs[0]);
      AddRecordKeys(es, rs[0]);
      if j == 0 {
        OtherWay(x, rs[0]);
        TakenIsKeys(es, rs[0]);
      } else {
        HeldIsRefused(DeclareZone(AddRecord(es, rs[0]).value, rs[0]), rs[1..], j - 1, x);
      }
    }
  }

  // ----- when a batch goes through -----

  /** Neither the file nor what an earlier record of the list prints as answers for a name
      with another value. */
  predicate Unrivalled(ks: set<Record>, rs: seq<Record>) {
    && (forall r :: r in rs ==> !Rivalled(ks, r))
    && (forall i, j :: 0 <= i < j < |rs| ==> !TwoValues(Canon(rs[i]), rs[j]))
  }

  lemma UnrivalledStep(ks: set<Record>, rs: seq<Record>)
    requires rs != []
    ensures Unrivalled(ks, rs) <==> !Rivalled(ks, rs[0]) && Unrivalled(ks + {Canon(rs[0])}, rs[1..])
  {
    hide *;
    UnrivalledIs(ks, rs);
    UnrivalledIs(ks + {Canon(rs[0])}, rs[1..]);
    UnrivalledFirst(rs);
    HeadAndTail(rs);
    forall w | w in rs[1..]
      ensures Rivalled(ks + {Canon(rs[0])}, w) <==> Rivalled(ks, w) || TwoValues(Canon(rs[0]), w)
    {
      RivalledAfter(ks, Canon(rs[0]), w);
    }
  }

  lemma UnrivalledIs(ks: set<Record>, rs: seq<Record>)
    ensures Unrivalled(ks, rs) <==>
      && (forall r :: r in rs ==> !Rivalled(ks, r))
      && (forall i, j :: 0 <= i < j < |rs| ==> !TwoValues(Canon(rs[i]), rs[j]))
  {
    hide Rivalled, TwoValues;
  }

  lemma UnrivalledFirst(rs: seq<Record>)
    requires rs != []
    ensures (forall i, j :: 0 <= i < j < |rs| ==> !TwoValues(Canon(rs[i]), rs[j])) <==>
      (forall w :: w in rs[1..] ==> !TwoValues(Canon(rs[0]), w))
      && (forall i, j :: 0 <= i < j < |rs[1..]| ==> !TwoValues(Canon(rs[1..][i]), rs[1..][j]))
  {
    hide TwoValues, Canon;
    PairsFirst(rs, (a, b) => !TwoValues(Canon(a), b));
  }

  lemma RivalledAfter(ks: set<Record>, r: Record, w: Record)
    ensures Rivalled(ks + {r}, w) <==> Rivalled(ks, w) || TwoValues(r, w)
  {
    hide TrimDot;
    assert r in ks + {r};
  }

  /** What a batch needs of a file: valid, new records without rivals, free to block their
      names, no two of which collide, and a whole that is consistent. */
  predicate Batchable(es: seq<Entry>, rs: seq<Record>) {
    Addable(es, rs) && Unrivalled(Keys(es), rs) && ConsistentKeys(Keys(es) + Canons(rs))
  }

  /** In a whole that is consistent, additions that are checked at the end do what
      additions do that are checked one by one. */
  lemma {:induction false} EachIsCopies(es: seq<Entry>, rs: seq<Record>)
    requires AllCoherent(es) && AllPlain(rs) && ConsistentKeys(Keys(es) + Canons(rs))
    ensures AddEach(es, rs).Success? <==> Unrivalled(Keys(es), rs) && ApplyAll(es, Copies(rs)).Success?
    ensures AddEach(es, rs).Success? ==> AddEach(es, rs) == ApplyAll(es, Copies(rs))
    decreases |rs|
  {
    hide *;
    if rs == [] {
      NoCopies(es);
      NoneEach(es);
    } else {
      var r := rs[0];
      PlainSplits(rs);
      PlainParts(r);
      EachFirst(es, rs);
      CopyFirst(es, rs);
      CanonsFirst(rs);
      TakenIsRivalled(es, r);
      AddIsCopy(es, r);
      UnrivalledIs(Keys(es), rs);
      if AddRecord(es, r).Success? {
        CopyKeys(es, r);
        AddRecordKeys(es, r);
        AddRecordUnfolds(es, r);
        PrintedRecordKeys(r);
        FewerKeys(Keys(es) + Canons(rs), Keys(es) + {Canon(r)});
        ConsistentIsKeys(DeclareZone(AddRecord(es, r).value, r));
        CheckedIs(DeclareZone(AddRecord(es, r).value, r));
        UnrivalledStep(Keys(es), rs);
        var next := Apply(es, Copy(r)).value;
        assert Keys(next) + Canons(rs[1..]) == Keys(es) + Canons(rs);
        EachIsCopies(next, rs[1..]);
      }
    }
  }

  lemma NoneEach(es: seq<Entry>)
    ensures AddEach(es, []) == Success(es) && Unrivalled(Keys(es), [])
  {
    hide Rivalled, TwoValues, Keys, AddRecord, DeclareZone;
  }

  lemma PrintedRecordKeys(r: Record)
    requires Valid(r) && PlainValue(r.value)
    ensures KeyOf(Printed(r)) == {Canon(r)}
  {
    hide *;
    WritableIs(r);
    PrintedRecord(r);
  }

  /** One addition is a copy that asks about rivals first. */
  lemma AddIsCopy(es: seq<Entry>, r: Record)
    ensures AddRecord(es, r).Success? <==> !Taken(es, r) && AddTo(es, r).Success?
    ensures AddRecord(es, r).Success? ==> Apply(es, Copy(r)) == Checked(DeclareZone(AddRecord(es, r).value, r))
    ensures AddTo(es, r).Failure? ==> Apply(es, Copy(r)).Failure?
  {
    hide *;
    CopyIs(es, r);
    AddRecordIsAddTo(es, r);
  }

  lemma AddRecordIsAddTo(es: seq<Entry>, r: Record)
    ensures AddRecord(es, r) == if Taken(es, r) then Failure(NameTaken) else AddTo(es, r)
  {
    hide Taken, AddTo;
  }

  lemma CopyIs(es: seq<Entry>, r: Record)
    ensures Apply(es, Copy(r)) == match AddTo(es, r)
                                  case Failure(error) => Failure(error)
                                  case Success(out) => Checked(DeclareZone(out, r))
  {
    hide AddTo, DeclareZone, Checked;
  }

  lemma {:induction false} EachLeaves(es: seq<Entry>, rs: seq<Record>)
    requires AllPlain(rs) && AddEach(es, rs).Success?
    ensures Keys(AddEach(es, rs).value) == Keys(es) + Canons(rs)
    decreases |rs|
  {
    hide *;
    if rs == [] {
      NoneEach(es);
      NothingDeleted(Keys(es));
    } else {
      PlainSplits(rs);
      PlainParts(rs[0]);
      EachFirst(es, rs);
      CanonsFirst(rs);
      AddRecordKeys(es, rs[0]);
      AddRecordUnfolds(es, rs[0]);
      PrintedRecordKeys(rs[0]);
      EachLeaves(DeclareZone(AddRecord(es, rs[0]).value, rs[0]), rs[1..]);
    }
  }

  /** A batch goes through exactly when its records may be written next to each other and
      next to what is there; then the file holds what they print as and what it held. */
  lemma AddManyAre(es: seq<Entry>, rs: seq<Record>)
    requires AllCoherent(es) && AllPlain(rs)
    ensures Apply(es, AddMany(rs)).Success? <==> Batchable(es, rs)
    ensures Batchable(es, rs) ==>
      Keys(Apply(es, AddMany(rs)).value) == Keys(es) + Canons(rs) && Apply(es, AddMany(rs)) == ApplyAll(es, Copies(rs))
  {
    hide *;
    BatchableIs(es, rs);
    AddManyIs(es, rs);
    CopiesAre(es, rs);
    if AddEach(es, rs).Success? {
      EachLeaves(es, rs);
      ConsistentIsKeys(AddEach(es, rs).value);
    }
    if ConsistentKeys(Keys(es) + Canons(rs)) {
      EachIsCopies(es, rs);
    }
  }

  lemma BatchableIs(es: seq<Entry>, rs: seq<Record>)
    ensures Batchable(es, rs) <==>
      Addable(es, rs) && Unrivalled(Keys(es), rs) && ConsistentKeys(Keys(es) + Canons(rs))
  {
    hide Addable, Unrivalled, Keys, Canons, ConsistentKeys;
  }

  lemma AddManyIs(es: seq<Entry>, rs: seq<Record>)
    ensures Apply(es, AddMany(rs)) ==
      if AddEach(es, rs).Failure? then Failure(AddEach(es, rs).error)
      else if Consistent(RecordsIn(AddEach(es, rs).value)) then AddEach(es, rs) else Failure(Invalid)
  {
    hide *;
    AddManyApplies(es, rs);
    if AddEach(es, rs).Success? {
      CheckedIs(AddEach(es, rs).value);
    }
  }

  lemma AddManyApplies(es: seq<Entry>, rs: seq<Record>)
    ensures Apply(es, AddMany(rs)) == match AddEach(es, rs)
                                      case Failure(error) => Failure(error)
                                      case Success(out) => Checked(out)
  {
    hide AddEach, Checked, AddRecord, AddTo, SetIn, EditIn, DeleteFrom, DeclareAndCheck, Taken, DeclareZone;
  }

  /** One addition is a batch of one. */
  lemma AddIsBatch(es: seq<Entry>, r: Record)
    ensures Apply(es, Add(r)) == Apply(es, AddMany([r]))
  {
    hide *;
    EachFirst(es, [r]);
    AddManyIs(es, [r]);
    assert [r][1..] == [];
    if AddRecord(es, r).Success? {
      NoneEach(DeclareZone(AddRecord(es, r).value, r));
    }
    AddIs(es, r);
  }

  lemma AddIs(es: seq<Entry>, r: Record)
    ensures Apply(es, Add(r)) ==
      if AddRecord(es, r).Failure? then Failure(AddRecord(es, r).error)
      else
        var out := DeclareZone(AddRecord(es, r).value, r);
        if Consistent(RecordsIn(out)) then Success(out) else Failure(Invalid)
  {
    hide AddRecord, Consistent, RecordsIn, DeclareZone;
  }

  // ----- mergeReports -----

  datatype Status = Fine | Skipped | Failed

  datatype Outcome = Outcome(server: nat, status: Status, message: string)

  function Severity(status: Status): nat {
    match status
    case Fine => 0
    case Skipped => 1
    case Failed => 2
  }

  /** The rows of all reports, in order. */
  function Rows(reports: seq<seq<Outcome>>): seq<Outcome> {
    if reports == [] then [] else Rows(reports[..|reports| - 1]) + reports[|reports| - 1]
  }

  /** The result of one server: the earliest of its worst rows. */
  predicate IsWorst(rows: seq<Outcome>, row: Outcome) {
    exists k :: 0 <= k < |rows| && rows[k] == row
      && (forall i :: 0 <= i < k && rows[i].server == row.server ==> Severity(rows[i].status) < Severity(row.status))
      && (forall i :: k < i < |rows| && rows[i].server == row.server ==> Severity(rows[i].status) <= Severity(row.status))
  }

  /** The rows name one server before they name the other. */
  predicate NamedBefore(rows: seq<Outcome>, a: nat, b: nat) {
    exists k :: 0 <= k < |rows| && rows[k].server == a && forall i :: 0 <= i <= k ==> rows[i].server != b
  }

  /** One row per server, none left out, in the order the servers are first named. */
  predicate IsMerged(rows: seq<Outcome>, merged: seq<Outcome>) {
    && (forall a, b :: 0 <= a < b < |merged| ==> NamedBefore(rows, merged[a].server, merged[b].server))
    && (forall m :: 0 <= m < |merged| ==> IsWorst(rows, merged[m]))
    && (forall a, b :: 0 <= a < b < |merged| ==> merged[a].server != merged[b].server)
    && (forall r :: r in rows ==> exists m :: 0 <= m < |merged| && merged[m].server == r.server)
  }

  /** A server of the merged report failed exactly when one of its parts failed, and is
      in order exactly when every part is. */
  lemma FailedIff(rows: seq<Outcome>, merged: seq<Outcome>, m: nat)
    requires IsMerged(rows, merged) && m < |merged|
    ensures merged[m].status == Failed <==> exists r :: r in rows && r.server == merged[m].server && r.status == Failed
    ensures merged[m].status == Fine <==> forall r :: r in rows && r.server == merged[m].server ==> r.status == Fine
  {
    hide IsWorst;
    WorstBounds(rows, merged[m]);
    WorstIsRow(rows, merged[m]);
    assert merged[m] in rows;
  }

  lemma WorstIsRow(rows: seq<Outcome>, row: Outcome)
    requires IsWorst(rows, row)
    ensures row in rows
  {
  }

  /** outcome: whether a job counts as done, by the numbers of its report. A report with a
      success does, and so does one without a failure, even if it names no server at all. */
  method OutcomeOf(report: Option<seq<Outcome>>) returns (done: bool)
    ensures done <==>
      && report.Some?
      && ((exists r :: r in report.value && r.status == Fine) || forall r :: r in report.value ==> r.status != Failed)
  {
    if report.None? {
      return false;
    }
    var rows, success, failed := report.value, 0, 0;
    for i := 0 to |rows|
      invariant success > 0 <==> exists k :: 0 <= k < i && rows[k].status == Fine
      invariant failed > 0 <==> exists k :: 0 <= k < i && rows[k].status == Failed
    {
      match rows[i].status {
        case Fine => success := success + 1;
        case Failed => failed := failed + 1;
        case Skipped =>
      }
    }
    done := !(success == 0 && failed > 0);
  }

  method MergeReports(reports: seq<seq<Outcome>>) returns (merged: seq<Outcome>)
    ensures IsMerged(Rows(reports), merged)
  {
    hide Tracks, IsMerged, Rows;
    var order: seq<nat> := [];
    var worst: map<nat, Outcome> := map[];
    TracksNone(reports);
    for i := 0 to |reports|
      invariant Tracks(Rows(reports[..i]), order, worst)
    {
      ghost var before := Rows(reports[..i]);
      assert before + reports[i][..0] == before;
      for k := 0 to |reports[i]|
        invariant Tracks(before + reports[i][..k], order, worst)
      {
        var row := reports[i][k];
        RowNext(before, reports[i], k);
        TracksStep(before + reports[i][..k], order, worst, row);
        if row.server !in worst {
          order := order + [row.server];
          worst := worst[row.server := row];
        } else if Severity(row.status) > Severity(worst[row.server].status) {
          worst := worst[row.server := row];
        }
      }
      RowsNext(reports, i);
    }
    assert reports[..|reports|] == reports;
    merged := [];
    TracksHolds(Rows(reports), order, worst);
    for m := 0 to |order|
      invariant |merged| == m
      invariant forall j :: 0 <= j < m ==> merged[j] == worst[order[j]]
    {
      merged := merged + [worst[order[m]]];
    }
    TracksMerged(Rows(reports), order, worst, merged);
  }

  lemma TracksNone(reports: seq<seq<Outcome>>)
    ensures Tracks(Rows(reports[..0]), [], map[])
  {
  }

  lemma RowNext(before: seq<Outcome>, report: seq<Outcome>, k: nat)
    requires k < |report|
    ensures before + report[..k + 1] == before + report[..k] + [report[k]]
  {
  }

  lemma RowsNext(reports: seq<seq<Outcome>>, i: nat)
    requires i < |reports|
    ensures Rows(reports[..i + 1]) == Rows(reports[..i]) + reports[i]
    ensures reports[i][..|reports[i]|] == reports[i]
  {
    assert reports[..i + 1][..i] == reports[..i];
  }

  lemma TracksHolds(rows: seq<Outcome>, order: seq<nat>, worst: map<nat, Outcome>)
    requires Tracks(rows, order, worst)
    ensures forall j :: 0 <= j < |order| ==> order[j] in worst
  {
  }

  /** What the two loops keep. */
  ghost predicate Tracks(rows: seq<Outcome>, order: seq<nat>, worst: map<nat, Outcome>) {
    && (forall id :: id in worst <==> id in order)
    && (forall a, b :: 0 <= a < b < |order| ==> order[a] != order[b])
    && (forall id :: id in worst ==> worst[id].server == id && IsWorst(rows, worst[id]))
    && (forall r :: r in rows ==> r.server in worst)
    && (forall a, b :: 0 <= a < b < |order| ==> NamedBefore(rows, order[a], order[b]))
  }

  lemma WorstStays(rows: seq<Outcome>, row: Outcome, last: Outcome)
    requires IsWorst(rows, row)
    requires last.server == row.server ==> Severity(last.status) <= Severity(row.status)
    ensures IsWorst(rows + [last], row)
  {
    var more := rows + [last];
    var k :| 0 <= k < |rows| && rows[k] == row
      && (forall i :: 0 <= i < k && rows[i].server == row.server ==> Severity(rows[i].status) < Severity(row.status))
      && (forall i :: k < i < |rows| && rows[i].server == row.server ==> Severity(rows[i].status) <= Severity(row.status));
    assert more[k] == row;
  }

  lemma WorstIsLast(rows: seq<Outcome>, last: Outcome)
    requires forall r :: r in rows && r.server == last.server ==> Severity(r.status) < Severity(last.status)
    ensures IsWorst(rows + [last], last)
  {
    var more := rows + [last];
    assert more[|rows|] == last;
    assert forall i :: 0 <= i < |rows| ==> more[i] == rows[i] && rows[i] in rows;
  }

  lemma WorstBounds(rows: seq<Outcome>, row: Outcome)
    requires IsWorst(rows, row)
    ensures forall r :: r in rows && r.server == row.server ==> Severity(r.status) <= Severity(row.status)
  {
    forall r | r in rows && r.server == row.server
      ensures Severity(r.status) <= Severity(row.status)
    {
      var i :| 0 <= i < |rows| && rows[i] == r;
    }
  }

  lemma NamedStays(rows: seq<Outcome>, row: Outcome, a: nat, b: nat)
    requires NamedBefore(rows, a, b)
    ensures NamedBefore(rows + [row], a, b)
  {
    var more := rows + [row];
    var k :| 0 <= k < |rows| && rows[k].server == a && forall i :: 0 <= i <= k ==> rows[i].server != b;
    assert more[k].server == a && forall i :: 0 <= i <= k ==> more[i] == rows[i];
  }

  lemma NamedLast(rows: seq<Outcome>, row: Outcome, earlier: Outcome)
    requires earlier in rows && forall r :: r in rows ==> r.server != row.server
    ensures NamedBefore(rows + [row], earlier.server, row.server)
  {
    var more := rows + [row];
    var k :| 0 <= k < |rows| && rows[k] == earlier;
    assert more[k] == earlier && forall i :: 0 <= i <= k ==> more[i] == rows[i] && rows[i] in rows;
  }

  lemma TracksStep(rows: seq<Outcome>, order: seq<nat>, worst: map<nat, Outcome>, row: Outcome)
    requires Tracks(rows, order, worst)
    ensures row.server !in worst ==> Tracks(rows + [row], order + [row.server], worst[row.server := row])
    ensures row.server in worst ==>
      Tracks(rows + [row], order,
             if Severity(row.status) > Severity(worst[row.server].status) then worst[row.server := row] else worst)
  {
    hide IsWorst, NamedBefore;
    forall a, b | 0 <= a < b < |order|
      ensures NamedBefore(rows + [row], order[a], order[b])
    {
      NamedStays(rows, row, order[a], order[b]);
    }
    if row.server !in worst {
      forall a | 0 <= a < |order|
        ensures NamedBefore(rows + [row], order[a], row.server)
      {
        WorstIsRow(rows, worst[order[a]]);
        NamedLast(rows, row, worst[order[a]]);
      }
    }
    forall id | id in worst && (id == row.server ==> Severity(row.status) <= Severity(worst[id].status))
      ensures IsWorst(rows + [row], worst[id])
    {
      WorstStays(rows, worst[id], row);
    }
    if row.server !in worst {
      WorstIsLast(rows, row);
    } else if Severity(row.status) > Severity(worst[row.server].status) {
      WorstBounds(rows, worst[row.server]);
      WorstIsLast(rows, row);
    }
  }

  lemma TracksMerged(rows: seq<Outcome>, order: seq<nat>, worst: map<nat, Outcome>, merged: seq<Outcome>)
    requires Tracks(rows, order, worst) && |merged| == |order|
    requires forall j :: 0 <= j < |order| ==> order[j] in worst && merged[j] == worst[order[j]]
    ensures IsMerged(rows, merged)
  {
    hide IsWorst, NamedBefore;
    forall r | r in rows
      ensures exists m :: 0 <= m < |merged| && merged[m].server == r.server
    {
      var m :| 0 <= m < |order| && order[m] == r.server;
      assert merged[m].server == r.server;
    }
  }
}

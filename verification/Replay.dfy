/** Running a change again: the claim crash recovery rests on
    (internal/store/schedule.go, ResetRunning; internal/fleet/scheduler.go). */
module Replay {
  import opened Platform
  import opened Text
  import opened Records
  import opened RoundTrip
  import opened Entries
  import opened Edits
  import opened KeySets
  import opened Reconcile
  import opened Repairs
  import opened Runs
  import Writer

  // ----- one operation -----

  /** AddRecord on a file that holds what it would print adds no record. */
  lemma {:induction false} AddEachAgain(es: seq<Entry>, rs: seq<Record>, ks: set<Record>)
    requires AddEach(es, rs).Success? && Keys(es) == ks
    requires forall r :: r in rs ==> KeyOf(Printed(r)) <= ks
    ensures Keys(AddEach(es, rs).value) == ks
    decreases |rs|
  {
    hide Keys, AddRecord, DeclareZone, Printed, KeyOf;
    if rs != [] {
      var r := rs[0];
      assert r in rs;
      AddRecordUnfolds(es, r);
      PrintedAppends(es, r);
      AddEachAgain(DeclareZone(es + [Printed(r)], r), rs[1..], ks);
    }
  }

  lemma PrintedAppends(es: seq<Entry>, r: Record)
    requires Valid(r)
    ensures Keys(DeclareZone(es + [Printed(r)], r)) == Keys(es) + KeyOf(Printed(r))
  {
    hide Keys, Printed, DeclareZone, Valid;
    AppendKeys(es, Printed(r));
    DeclareZoneKeys(es + [Printed(r)], r);
  }

  lemma {:induction false} AddEachPrints(es: seq<Entry>, rs: seq<Record>)
    requires AddEach(es, rs).Success?
    ensures Keys(es) <= Keys(AddEach(es, rs).value)
    ensures forall r :: r in rs ==> KeyOf(Printed(r)) <= Keys(AddEach(es, rs).value)
    decreases |rs|
  {
    hide Keys, AddRecord, DeclareZone, Printed, KeyOf;
    if rs != [] {
      var r := rs[0];
      AddRecordUnfolds(es, r);
      PrintedAppends(es, r);
      AddEachPrints(DeclareZone(es + [Printed(r)], r), rs[1..]);
      assert forall x :: x in rs <==> x == r || x in rs[1..];
    }
  }

  lemma AddAgain(es: seq<Entry>, r: Record)
    requires Apply(es, Add(r)).Success?
    ensures Keys(Apply(es, Add(r)).value) == Keys(es) + KeyOf(Printed(r))
  {
    hide *;
    AddUnfolds(es, r);
    PrintedAppends(es, r);
  }

  lemma CopyAgain(es: seq<Entry>, r: Record)
    requires Apply(es, Copy(r)).Success?
    ensures Keys(Apply(es, Copy(r)).value) == Keys(es) + KeyOf(Printed(r))
  {
    hide *;
    CopyNeeds(es, r);
    PrintedAppends(es, r);
  }

  /** A record that was copied is found again exactly when its name, as it was read, ends
      in no dot. A line written by hand with two dots behind the name reads as a name
      with one, is printed with none, and is missing again at the next mirror. */
  lemma CopyIsFound(es: seq<Entry>, r: Record)
    requires PlainValue(r.value) && (r.typ != MX ==> r.priority == 0)
    requires r !in Keys(es) && Apply(es, Copy(r)).Success?
    ensures r in Keys(Apply(es, Copy(r)).value) <==> TrimDot(r.fqdn) == r.fqdn
  {
    hide *;
    CopyAgain(es, r);
    CopyNeeds(es, r);
    WritableIs(r);
    PrintedRecord(r);
    CanonSame(r);
  }

  lemma WritableIs(r: Record)
    ensures Writable(r) <==> Valid(r) && PlainValue(r.value)
  {
    hide Valid, PlainValue;
  }

  lemma CanonSame(r: Record)
    requires r.typ != MX ==> r.priority == 0
    ensures Canon(r) == r <==> TrimDot(r.fqdn) == r.fqdn
  {
    hide TrimDot;
  }

  lemma SetAgain(es: seq<Entry>, r: Record)
    requires Apply(es, Set(r)).Success?
    ensures Keys(Apply(es, Set(r)).value) == (set x | x in Keys(es) && !SameName(x, r)) + KeyOf(Printed(r))
  {
    hide *;
    SetNeeds(es, r);
    SetUnfolds(es, r);
    var mid := Settle(es, Printed(r), r, false);
    CheckedKeeps(DeclareZone(mid, r));
    SettleKeys(es, Printed(r), r, false);
    DeclareZoneKeys(mid, r);
  }

  lemma EditAgain(es: seq<Entry>, was: Record, r: Record)
    requires AllCoherent(es) && Apply(es, Edit(was, r)).Success?
    ensures Canon(was) in Keys(es)
    ensures Keys(Apply(es, Edit(was, r)).value) == Keys(es) - {Canon(was)} + KeyOf(Printed(r))
  {
    hide *;
    EditUnfolds(es, was, r);
    HoldsIsKeys(es, was);
    ReplaceKeys(es, was, Printed(r));
    DeclareZoneKeys(Replace(es, was, Printed(r)), r);
  }

  lemma DeleteAgain(es: seq<Entry>, r: Record)
    requires AllCoherent(es) && Apply(es, Delete(r)).Success?
    ensures Canon(r) in Keys(es)
    ensures Keys(Apply(es, Delete(r)).value) == Keys(es) - {Canon(r)}
  {
    hide *;
    DeletedIs(es, r);
    HoldsIsKeys(es, r);
    WithoutKeys(es, r);
  }

  lemma AddManyAgain(es: seq<Entry>, rs: seq<Record>)
    requires Apply(es, AddMany(rs)).Success?
    ensures AddEach(es, rs) == Apply(es, AddMany(rs))
  {
    hide AddEach, Consistent, AddRecord, AddTo, SetIn, EditIn, DeleteFrom, DeclareAndCheck, RecordsIn, Taken, DeclareZone;
  }

  /** An operation that went through, run again on a file with the same records as
      its result, is refused or leaves the records as they are. Nothing is asked
      of the records it writes. */
  lemma RunAgain(es: seq<Entry>, op: Operation, later: seq<Entry>)
    requires AllCoherent(es) && Apply(es, op).Success?
    requires AllCoherent(later) && Keys(later) == Keys(Apply(es, op).value)
    requires Apply(later, op).Success?
    ensures Keys(Apply(later, op).value) == Keys(later)
  {
    hide *;
    match op
    case Add(r) => AddAgain(es, r); AddAgain(later, r);
    case Copy(r) => CopyAgain(es, r); CopyAgain(later, r);
    case Set(r) => SetAgain(es, r); SetAgain(later, r);
    case AddMany(rs) =>
      AddManyAgain(es, rs);
      AddManyAgain(later, rs);
      AddEachPrints(es, rs);
      AddEachAgain(later, rs, Keys(later));
    case Edit(was, r) => EditAgain(es, was, r); EditAgain(later, was, r);
    case Delete(r) => DeleteAgain(es, r); DeleteAgain(later, r);
  }

  // ----- an overwriting batch -----

  /** One set per record. A record that cannot be set at all ends the batch; one
      the server's file refuses leaves the file and the batch goes on. */
  function Overwrite(es: seq<Entry>, rs: seq<Record>): seq<Entry>
    decreases |rs|
  {
    if rs == [] || !ValidOperation(Set(rs[0])) then es
    else Overwrite(SetOrKeep(es, rs[0]), rs[1..])
  }

  function SetOrKeep(es: seq<Entry>, r: Record): seq<Entry> {
    match Apply(es, Set(r))
    case Failure(_) => es
    case Success(out) => EnsureHeaderIn(out)
  }

  /** The rows before the first that cannot be set. */
  function Usable(rs: seq<Record>): seq<Record> {
    if rs == [] || !ValidOperation(Set(rs[0])) then [] else [rs[0]] + Usable(rs[1..])
  }

  /** The same on sets of records. */
  function Put(ks: set<Record>, r: Record): set<Record> {
    (set x | x in ks && !SameName(x, r)) + {Canon(r)}
  }

  function PutOrKeep(ks: set<Record>, r: Record): set<Record> {
    if ConsistentKeys(Put(ks, r)) then Put(ks, r) else ks
  }

  function PutEach(ks: set<Record>, rs: seq<Record>): set<Record>
    decreases |rs|
  {
    if rs == [] then ks else PutEach(PutOrKeep(ks, rs[0]), rs[1..])
  }

  predicate Settable(r: Record) {
    Writable(r) && OneValuePerName(r.typ)
  }

  predicate AllSettable(rs: seq<Record>) {
    forall r :: r in rs ==> Settable(r)
  }

  lemma SetOrKeepKeys(es: seq<Entry>, r: Record)
    requires AllCoherent(es) && Settable(r)
    ensures Keys(SetOrKeep(es, r)) == PutOrKeep(Keys(es), r) && AllCoherent(SetOrKeep(es, r))
  {
    hide *;
    SettableParts(r);
    SetKeys(es, r);
    var out := DeclareZone(Settle(es, Printed(r), r, false), r);
    CheckedIs(out);
    ConsistentIsKeys(out);
    PutIs(Keys(es), r);
    if Apply(es, Set(r)).Success? {
      ApplyStaysCoherent(es, Set(r));
      HeaderKeys(out);
    }
    SetOrKeepIs(es, r);
  }

  lemma SettableParts(r: Record)
    ensures Settable(r) <==> Writable(r) && OneValuePerName(r.typ)
    ensures Settable(r) <==> ValidOperation(Set(r)) && Plain(r)
  {
    hide Valid, PlainValue, ValidForRemoval, ValidBatch, OneValuePerName;
  }

  lemma CheckedIs(es: seq<Entry>)
    ensures Checked(es) == if Consistent(RecordsIn(es)) then Success(es) else Failure(Invalid)
  {
    hide Consistent, RecordsIn;
  }

  lemma PutIs(ks: set<Record>, r: Record)
    ensures PutOrKeep(ks, r) == if ConsistentKeys((set x | x in ks && !SameName(x, r)) + {Canon(r)})
                                then (set x | x in ks && !SameName(x, r)) + {Canon(r)} else ks
  {
    hide ConsistentKeys, SameName;
  }

  lemma SetOrKeepIs(es: seq<Entry>, r: Record)
    ensures SetOrKeep(es, r) == match Apply(es, Set(r)) case Failure(_) => es case Success(out) => EnsureHeaderIn(out)
  {
    hide Apply, EnsureHeaderIn;
  }

  lemma {:induction false} OverwriteKeys(es: seq<Entry>, rs: seq<Record>)
    requires AllCoherent(es) && AllPlain(rs)
    ensures Keys(Overwrite(es, rs)) == PutEach(Keys(es), Usable(rs)) && AllCoherent(Overwrite(es, rs))
    ensures AllSettable(Usable(rs)) && forall r :: r in Usable(rs) ==> r in rs
    decreases |rs|
  {
    hide SetOrKeep, Plain, ValidOperation, Settable, Keys, AllCoherent, PutOrKeep;
    if rs != [] && ValidOperation(Set(rs[0])) {
      SettableParts(rs[0]);
      SetOrKeepKeys(es, rs[0]);
      PlainSplits(rs);
      OverwriteKeys(SetOrKeep(es, rs[0]), rs[1..]);
      assert Usable(rs)[1..] == Usable(rs[1..]);
    }
  }

  // Which sets are accepted depends on the blocks alone, and no set changes a block.

  function BlocksIn(ks: set<Record>): set<Record> {
    set b | b in ks && IsPolicy(b.typ)
  }

  predicate Uncovered(blocks: set<Record>, r: Record) {
    forall b :: b in blocks ==> !Covers(b.fqdn, TrimDot(r.fqdn))
  }

  lemma PutKeepsBlocks(ks: set<Record>, r: Record)
    requires OneValuePerName(r.typ)
    ensures BlocksIn(Put(ks, r)) == BlocksIn(ks)
  {
    hide TrimDot;
  }

  /** In a consistent set the sets that are accepted are those no block covers. */
  lemma PutVerdict(ks: set<Record>, r: Record)
    requires OneValuePerName(r.typ) && ConsistentKeys(ks)
    ensures ConsistentKeys(Put(ks, r)) <==> Uncovered(BlocksIn(ks), r)
  {
    hide Covers, TrimDot, SameName;
    PutKeepsBlocks(ks, r);
    assert Canon(r) in Put(ks, r);
    if Uncovered(BlocksIn(ks), r) {
      forall b, x | b in Put(ks, r) && x in Put(ks, r) && IsPolicy(b.typ) && !IsPolicy(x.typ)
        ensures !Covers(b.fqdn, x.fqdn)
      {
        assert b in BlocksIn(Put(ks, r));
      }
    } else {
      var b :| b in BlocksIn(ks) && Covers(b.fqdn, TrimDot(r.fqdn));
      assert b in BlocksIn(Put(ks, r)) && Covers(b.fqdn, Canon(r).fqdn);
    }
  }

  /** In a set that is not consistent every set is refused, if its name carries one
      trailing dot at most: the record it replaces goes by the same name. */
  lemma StaysInconsistent(ks: set<Record>, r: Record)
    requires OneValuePerName(r.typ) && TidyName(TrimDot(r.fqdn)) && !ConsistentKeys(ks)
    ensures !ConsistentKeys(Put(ks, r))
  {
    hide Covers, TrimDot, TidyName, SameName;
    var b, x :| b in ks && x in ks && IsPolicy(b.typ) && !IsPolicy(x.typ) && Covers(b.fqdn, x.fqdn);
    SameType(b, r);
    assert b in Put(ks, r) && Canon(r) in Put(ks, r);
    if SameName(x, r) {
      NamedAlike(x, r);
      CoversAlike(b.fqdn, x.fqdn, TrimDot(r.fqdn));
      assert Covers(b.fqdn, Canon(r).fqdn);
    } else {
      assert x in Put(ks, r);
    }
  }

  lemma SameType(a: Record, b: Record)
    ensures SameName(a, b) ==> a.typ == b.typ
  {
  }

  lemma NamedAlike(x: Record, r: Record)
    requires SameName(x, r) && TidyName(TrimDot(r.fqdn))
    ensures Normalise(x.fqdn) == Normalise(TrimDot(r.fqdn))
  {
    hide Normalise, TidyName, TrimDot;
    NormaliseDotted(TrimDot(r.fqdn));
    DotOrNot(x.fqdn);
  }

  lemma DotOrNot(name: string)
    ensures name == TrimDot(name) || name == TrimDot(name) + "."
  {
  }

  lemma CoversAlike(zone: string, a: string, b: string)
    requires Normalise(a) == Normalise(b)
    ensures Covers(zone, a) <==> Covers(zone, b)
  {
    hide Normalise;
  }

  // What the accepted sets leave.

  function Given(ks: set<Record>, rs: seq<Record>, blocks: set<Record>): set<Record>
    decreases |rs|
  {
    if rs == [] then ks else Given(if Uncovered(blocks, rs[0]) then Put(ks, rs[0]) else ks, rs[1..], blocks)
  }

  predicate AllSingleValued(rs: seq<Record>) {
    forall r :: r in rs ==> OneValuePerName(r.typ)
  }

  lemma SingleValuedSplits(rs: seq<Record>)
    requires rs != [] && AllSingleValued(rs)
    ensures OneValuePerName(rs[0].typ) && AllSingleValued(rs[1..])
  {
  }

  lemma {:induction false} PutEachIsGiven(ks: set<Record>, rs: seq<Record>)
    requires AllSingleValued(rs) && ConsistentKeys(ks)
    ensures PutEach(ks, rs) == Given(ks, rs, BlocksIn(ks))
    ensures ConsistentKeys(PutEach(ks, rs)) && BlocksIn(PutEach(ks, rs)) == BlocksIn(ks)
    decreases |rs|
  {
    hide AllSingleValued, Put, ConsistentKeys, BlocksIn, Uncovered;
    if rs != [] {
      SingleValuedSplits(rs);
      PutVerdict(ks, rs[0]);
      PutKeepsBlocks(ks, rs[0]);
      PutEachIsGiven(PutOrKeep(ks, rs[0]), rs[1..]);
    }
  }

  lemma {:induction false} AllRefused(ks: set<Record>, rs: seq<Record>)
    requires AllSingleValued(rs) && !ConsistentKeys(ks) && forall r :: r in rs ==> TidyName(TrimDot(r.fqdn))
    ensures PutEach(ks, rs) == ks
    decreases |rs|
  {
    hide AllSingleValued, Put, ConsistentKeys, TidyName, TrimDot;
    if rs != [] {
      SingleValuedSplits(rs);
      StaysInconsistent(ks, rs[0]);
      AllRefused(ks, rs[1..]);
    }
  }

  /** No accepted set competes with the record. */
  predicate Free(rs: seq<Record>, blocks: set<Record>, x: Record)
    decreases |rs|
  {
    rs == [] || ((Uncovered(blocks, rs[0]) ==> !SameName(x, rs[0])) && Free(rs[1..], blocks, x))
  }

  /** The record is what an accepted set wrote, and no later one competes with it. */
  predicate Last(rs: seq<Record>, blocks: set<Record>, x: Record)
    decreases |rs|
  {
    rs != []
    && (Last(rs[1..], blocks, x) || (Uncovered(blocks, rs[0]) && x == Canon(rs[0]) && Free(rs[1..], blocks, x)))
  }

  lemma PutIsIn(ks: set<Record>, r: Record, x: Record)
    ensures x in Put(ks, r) <==> (x in ks && !SameName(x, r)) || x == Canon(r)
  {
    hide SameName, Canon;
  }

  /** A record is there afterwards when it was there before and no accepted set
      competes with it, or when an accepted set wrote it last. */
  lemma {:induction false} GivenIs(ks: set<Record>, rs: seq<Record>, blocks: set<Record>, x: Record)
    ensures x in Given(ks, rs, blocks) <==> (x in ks && Free(rs, blocks, x)) || Last(rs, blocks, x)
    decreases |rs|
  {
    hide SameName, Canon, Put, Uncovered;
    if rs != [] {
      GivenIs(if Uncovered(blocks, rs[0]) then Put(ks, rs[0]) else ks, rs[1..], blocks, x);
      PutIsIn(ks, rs[0], x);
    }
  }

  lemma GivenTwice(ks: set<Record>, rs: seq<Record>, blocks: set<Record>)
    ensures Given(Given(ks, rs, blocks), rs, blocks) == Given(ks, rs, blocks)
  {
    hide *;
    var once := Given(ks, rs, blocks);
    forall x
      ensures x in Given(once, rs, blocks) <==> x in once
    {
      GivenIs(ks, rs, blocks, x);
      GivenIs(once, rs, blocks, x);
    }
  }

  lemma {:induction false} PutEachConcat(ks: set<Record>, a: seq<Record>, b: seq<Record>)
    ensures PutEach(ks, a + b) == PutEach(PutEach(ks, a), b)
    decreases |a|
  {
    hide PutOrKeep;
    if a == [] {
      assert a + b == b;
    } else {
      assert (a + b)[1..] == a[1..] + b;
      PutEachConcat(PutOrKeep(ks, a[0]), a[1..], b);
    }
  }

  /** A batch of sets run twice ends where it ended once, if no record is under a block
      to begin with or no name carries two trailing dots. */
  lemma PutEachTwice(ks: set<Record>, rs: seq<Record>)
    requires AllSingleValued(rs)
    requires ConsistentKeys(ks) || forall r :: r in rs ==> TidyName(TrimDot(r.fqdn))
    ensures PutEach(PutEach(ks, rs), rs) == PutEach(ks, rs)
  {
    hide *;
    if ConsistentKeys(ks) {
      PutEachIsGiven(ks, rs);
      PutEachIsGiven(PutEach(ks, rs), rs);
      GivenTwice(ks, rs, BlocksIn(ks));
    } else {
      AllRefused(ks, rs);
    }
  }

  // The one start from which a second run does more.

  const BLOCK := Record("a..", NXDOMAIN, "", 0)
  const UNDER := Record("a..", CNAME, "b", 0)
  const FIRST := Record("b", CNAME, "c", 0)
  const SECOND := Record("a..", CNAME, "c", 0)
  const RENAMED := Record("a.", CNAME, "c", 0)

  /** A record under a block refuses the first row, the second row renames that record,
      and a second run accepts both. */
  lemma PutEachDiffers()
    ensures PutEach({BLOCK, UNDER}, [FIRST, SECOND]) == {BLOCK, RENAMED}
    ensures PutEach({BLOCK, RENAMED}, [FIRST, SECOND]) == {BLOCK, RENAMED, FIRST}
    ensures FIRST !in {BLOCK, RENAMED}
  {
    hide *;
    PutsAre();
    VerdictsAre();
    PutTwo({BLOCK, UNDER}, FIRST, SECOND);
    PutTwo({BLOCK, RENAMED}, FIRST, SECOND);
  }

  lemma PutTwo(ks: set<Record>, a: Record, b: Record)
    ensures var mid := if ConsistentKeys(Put(ks, a)) then Put(ks, a) else ks;
            PutEach(ks, [a, b]) == if ConsistentKeys(Put(mid, b)) then Put(mid, b) else mid
  {
    hide Put, ConsistentKeys;
    var mid := PutOrKeep(ks, a);
    assert [a, b][1..] == [b] && [b][1..] == [];
    assert PutEach(mid, [b]) == PutEach(PutOrKeep(mid, b), []);
  }

  lemma PutsAre()
    ensures Put({BLOCK, UNDER}, FIRST) == {BLOCK, UNDER, FIRST} && Put({BLOCK, UNDER}, SECOND) == {BLOCK, RENAMED}
    ensures Put({BLOCK, RENAMED}, FIRST) == {BLOCK, RENAMED, FIRST}
    ensures Put({BLOCK, RENAMED, FIRST}, SECOND) == {BLOCK, RENAMED, FIRST}
    ensures FIRST !in {BLOCK, RENAMED}
  {
    TrimsAre();
    hide TrimDot;
  }

  lemma VerdictsAre()
    ensures !ConsistentKeys({BLOCK, UNDER, FIRST}) && ConsistentKeys({BLOCK, RENAMED}) && ConsistentKeys({BLOCK, RENAMED, FIRST})
  {
    CoversAre();
    hide Covers;
    assert BLOCK in {BLOCK, UNDER, FIRST} && UNDER in {BLOCK, UNDER, FIRST};
  }

  lemma CoversAre()
    ensures Covers(BLOCK.fqdn, UNDER.fqdn) && !Covers(BLOCK.fqdn, RENAMED.fqdn) && !Covers(BLOCK.fqdn, FIRST.fqdn)
  {
    NamesAre();
    hide Normalise;
  }

  lemma TrimsAre()
    ensures TrimDot("a..") == "a." && TrimDot("a.") == "a" && TrimDot("b") == "b"
  {
  }

  lemma NamesAre()
    ensures Normalise("a..") == "a." && Normalise("a.") == "a" && Normalise("b") == "b"
  {
    TrimsAre();
    TightAre();
    LowersAre();
    hide TrimDot, ToLower, TrimSpace, Tight;
    TrimTight("a..");
    TrimTight("a.");
    TrimTight("b");
  }

  lemma TightAre()
    ensures Tight("a..") && Tight("a.") && Tight("b")
  {
  }

  lemma LowersAre()
    ensures ToLower("a.") == "a." && ToLower("a") == "a" && ToLower("b") == "b"
  {
    assert IsAscii('a') && IsAscii('b') && IsAscii('.');
  }

  lemma {:induction false} UsablePrefix(rs: seq<Record>, k: nat)
    requires k <= |rs|
    ensures Usable(rs[..k]) <= Usable(rs)
  {
    hide ValidOperation;
    if k > 0 && ValidOperation(Set(rs[0])) {
      UsablePrefix(rs[1..], k - 1);
      assert rs[..k][1..] == rs[1..][..k - 1];
    }
  }

  /** An overwriting batch that was cut off after any number of rows and is run
      again from the start ends in the records one clean run ends in. The names
      in it need not even be distinct. */
  lemma OverwriteAgain(es: seq<Entry>, rs: seq<Record>, k: nat)
    requires k <= |rs| && AllCoherent(es) && AllPlain(rs)
    requires BlocksRespected(es) || forall r :: r in rs ==> TidyName(TrimDot(r.fqdn))
    ensures Keys(Overwrite(Overwrite(es, rs[..k]), rs)) == Keys(Overwrite(es, rs))
  {
    hide *;
    var cut := Overwrite(es, rs[..k]);
    RespectedIs(es);
    FewerPlain(rs, rs[..k]);
    OverwriteKeys(es, rs[..k]);
    OverwriteKeys(cut, rs);
    OverwriteKeys(es, rs);
    UsablePrefix(rs, k);
    var p, all := Usable(rs[..k]), Usable(rs);
    var rest := all[|p|..];
    assert all == p + rest;
    PutEachConcat(Keys(es), p, rest);
    PutEachConcat(Keys(cut), p, rest);
    SettableIsSingle(p);
    PutEachTwice(Keys(es), p);
  }

  lemma SettableIsSingle(rs: seq<Record>)
    requires AllSettable(rs)
    ensures AllSingleValued(rs)
  {
    hide Writable;
  }

  /** overwriteEach on the text of one server's file. */
  method OverwriteEach(content: string, rs: seq<Record>) returns (updated: string)
    ensures View(updated) == Overwrite(View(content), rs)
  {
    hide *;
    updated := content;
    assert rs[0..] == rs;
    for i := 0 to |rs|
      invariant Overwrite(View(updated), rs[i..]) == Overwrite(View(content), rs)
    {
      Reconcile.Next(rs, i);
      OverwriteIs(View(updated), rs[i..]);
      if !ValidOperation(Set(rs[i])) {
        return;
      }
      SetOrKeepIs(View(updated), rs[i]);
      var next := Writer.ApplyText(updated, Set(rs[i]));
      RefinesIs(next, Apply(View(updated), Set(rs[i])));
      if next.Success? {
        Writer.EnsureHeaderView(next.value);
        updated := Writer.EnsureHeader(next.value);
      }
    }
    OverwriteIs(View(updated), rs[|rs|..]);
    assert rs[|rs|..] == [];
  }

  lemma OverwriteIs(es: seq<Entry>, rs: seq<Record>)
    ensures Overwrite(es, rs) ==
      if rs == [] || !ValidOperation(Set(rs[0])) then es else Overwrite(SetOrKeep(es, rs[0]), rs[1..])
  {
    hide ValidOperation, SetOrKeep;
  }

  lemma RefinesIs(res: Result<string>, spec: Result<seq<Entry>>)
    requires Writer.Refines(res, spec)
    ensures res.Success? <==> spec.Success?
    ensures res.Success? ==> View(res.value) == spec.value
  {
    hide View;
  }
}

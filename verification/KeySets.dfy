/** What every operation does to the set of records a file holds, and to the
    lines the panel does not manage. */
module KeySets {
  import opened Platform
  import opened Text
  import opened Records
  import opened Entries
  import opened Edits
  import Writer

  function Keys(es: seq<Entry>): set<Record> {
    if es == [] then {} else (if es[0].rec.Some? then {es[0].rec.value} else {}) + Keys(es[1..])
  }

  /** The lines that are no record, in order. */
  function Others(es: seq<Entry>): seq<Entry> {
    if es == [] then [] else (if es[0].rec.Some? then [] else [es[0]]) + Others(es[1..])
  }

  lemma {:induction false} KeysAre(es: seq<Entry>, x: Record)
    ensures x in Keys(es) <==> exists k :: 0 <= k < |es| && es[k].rec == Some(x)
    ensures x in Keys(es) <==> x in RecordsIn(es)
  {
    if es != [] {
      KeysAre(es[1..], x);
      assert forall k :: 1 <= k < |es| ==> es[k] == es[1..][k - 1];
    }
  }

  lemma AllKeysAre(es: seq<Entry>)
    ensures forall x :: x in Keys(es) <==> x in RecordsIn(es)
    ensures forall k :: 0 <= k < |es| && es[k].rec.Some? ==> es[k].rec.value in Keys(es)
  {
    forall x
      ensures x in Keys(es) <==> x in RecordsIn(es)
    {
      KeysAre(es, x);
    }
    forall k | 0 <= k < |es| && es[k].rec.Some?
      ensures es[k].rec.value in Keys(es)
    {
      KeysAre(es, es[k].rec.value);
    }
  }

  lemma {:induction false} KeysConcat(a: seq<Entry>, b: seq<Entry>)
    ensures Keys(a + b) == Keys(a) + Keys(b)
    ensures Others(a + b) == Others(a) + Others(b)
  {
    hide *;
    if a == [] {
      assert a + b == b;
      NoKeys();
    } else {
      KeysConcat(a[1..], b);
      KeysFirst(a);
      KeysFirst(a + b);
      assert (a + b)[1..] == a[1..] + b;
      CatAssoc(if a[0].rec.Some? then [] else [a[0]], Others(a[1..]), Others(b));
    }
  }

  lemma NoKeys()
    ensures Keys([]) == {} && Others([]) == []
  {
  }

  lemma KeysFirst(es: seq<Entry>)
    requires es != []
    ensures Keys(es) == (if es[0].rec.Some? then {es[0].rec.value} else {}) + Keys(es[1..])
    ensures Others(es) == (if es[0].rec.Some? then [] else [es[0]]) + Others(es[1..])
  {
  }

  lemma KeysOfOne(e: Entry)
    ensures Keys([e]) == if e.rec.Some? then {e.rec.value} else {}
    ensures Others([e]) == if e.rec.Some? then [] else [e]
  {
    assert [e][1..] == [];
  }

  // ----- rules about a set of records -----

  predicate ConsistentKeys(ks: set<Record>) {
    forall b, x :: b in ks && x in ks && IsPolicy(b.typ) && !IsPolicy(x.typ) ==> !Covers(b.fqdn, x.fqdn)
  }

  predicate OneValue(ks: set<Record>) {
    forall a, b :: a in ks && b in ks && OneValuePerName(a.typ) && SameName(a, b) ==> a.value == b.value
  }

  lemma ConsistentIsKeys(es: seq<Entry>)
    ensures Consistent(RecordsIn(es)) <==> ConsistentKeys(Keys(es))
  {
    hide Covers;
    AllKeysAre(es);
  }

  lemma TakenIsKeys(es: seq<Entry>, r: Record)
    ensures Taken(es, r) <==> OneValuePerName(r.typ) && exists x :: x in Keys(es) && SameName(x, r) && x.value != r.value
  {
    hide SameName;
    AllKeysAre(es);
    if x :| x in Keys(es) && SameName(x, r) && x.value != r.value {
      KeysAre(es, x);
    }
  }

  /** A record a coherent line was read into is hit exactly by the records that
      print as it. */
  lemma HitsIsCanon(r: Record, x: Record)
    requires Read(x)
    ensures Hits(r, x) <==> x == Canon(r)
  {
  }

  lemma HoldsIsKeys(es: seq<Entry>, r: Record)
    requires AllCoherent(es)
    ensures Holds(es, r) <==> Canon(r) in Keys(es)
  {
    hide Hits, Canon, Read;
    KeysAre(es, Canon(r));
    forall k | 0 <= k < |es| && es[k].rec.Some?
      ensures Matches(r, es[k]) <==> es[k].rec.value == Canon(r)
    {
      CoherentIsRead(es[k]);
      HitsIsCanon(r, es[k].rec.value);
    }
  }

  lemma CoherentIsRead(e: Entry)
    requires Coherent(e)
    ensures e.rec.Some? ==> Read(e.rec.value)
  {
  }

  // ----- what the edits do -----

  function KeyOf(e: Entry): set<Record> {
    if e.rec.Some? then {e.rec.value} else {}
  }

  lemma {:induction false} SettleKeys(es: seq<Entry>, p: Entry, r: Record, written: bool)
    ensures Keys(Settle(es, p, r, written))
         == (set x | x in Keys(es) && !SameName(x, r)) + if written then {} else KeyOf(p)
    ensures p.rec.Some? ==> Others(Settle(es, p, r, written)) == Others(es)
  {
    hide SameName;
    if es == [] {
      KeysOfOne(p);
    } else {
      var now := Competes(r, es[0]);
      var head := if now then (if written then [] else [p]) else [es[0]];
      var rest := Settle(es[1..], p, r, written || now);
      SettleKeys(es[1..], p, r, written || now);
      KeysConcat(head, rest);
      if head != [] {
        KeysOfOne(head[0]);
      }
    }
  }

  /** The lines that hold no rival of the record, in order. */
  function Uncontested(es: seq<Entry>, r: Record): seq<Entry> {
    if es == [] then [] else (if Competes(r, es[0]) then [] else [es[0]]) + Uncontested(es[1..], r)
  }

  /** A set puts its line where the first rival stood, drops the other rivals and moves no
      other line; without a rival the line comes last. */
  lemma {:induction false} SettlePlace(a: seq<Entry>, b: seq<Entry>, p: Entry, r: Record)
    requires forall e :: e in a ==> !Competes(r, e)
    requires b != [] ==> Competes(r, b[0])
    ensures Settle(a + b, p, r, false) == a + [p] + Uncontested(b, r)
  {
    hide Competes;
    if a == [] {
      assert a + b == b;
      if b != [] {
        SettleRest(b[1..], p, r);
      }
      assert [] + [p] + Uncontested(b, r) == [p] + Uncontested(b, r);
    } else {
      assert (a + b)[0] == a[0] && (a + b)[1..] == a[1..] + b && a[0] in a;
      SettlePlace(a[1..], b, p, r);
      assert [a[0]] + (a[1..] + [p] + Uncontested(b, r)) == a + [p] + Uncontested(b, r);
    }
  }

  lemma {:induction false} SettleRest(es: seq<Entry>, p: Entry, r: Record)
    ensures Settle(es, p, r, true) == Uncontested(es, r)
  {
    hide Competes;
    if es != [] {
      SettleRest(es[1..], p, r);
    }
  }

  /** A deletion drops the matching lines and no other, and keeps the order of the rest. */
  lemma {:induction false} WithoutConcat(a: seq<Entry>, b: seq<Entry>, r: Record)
    ensures Without(a + b, r) == Without(a, r) + Without(b, r)
    ensures (forall e :: e in a ==> !Matches(r, e)) ==> Without(a, r) == a
    ensures (forall e :: e in a ==> Matches(r, e)) ==> Without(a, r) == []
  {
    hide Matches;
    if a == [] {
      assert a + b == b;
    } else {
      assert (a + b)[0] == a[0] && (a + b)[1..] == a[1..] + b;
      WithoutConcat(a[1..], b, r);
      CatAssoc(if Matches(r, a[0]) then [] else [a[0]], Without(a[1..], r), Without(b, r));
      assert [a[0]] + a[1..] == a;
    }
  }

  lemma {:induction false} WithoutKeys(es: seq<Entry>, r: Record)
    requires AllCoherent(es)
    ensures Keys(Without(es, r)) == Keys(es) - {Canon(r)}
    ensures Others(Without(es, r)) == Others(es)
  {
    hide Hits, Canon, Read;
    if es != [] {
      WithoutKeys(es[1..], r);
      if es[0].rec.Some? {
        CoherentIsRead(es[0]);
        HitsIsCanon(r, es[0].rec.value);
      }
      var head := if Matches(r, es[0]) then [] else [es[0]];
      KeysConcat(head, Without(es[1..], r));
      KeysOfOne(es[0]);
    }
  }

  lemma ReplaceKeys(es: seq<Entry>, was: Record, p: Entry)
    requires AllCoherent(es) && Holds(es, was)
    ensures Keys(Replace(es, was, p)) == Keys(es) - {Canon(was)} + KeyOf(p)
  {
    hide *;
    forall x
      ensures x in Keys(Replace(es, was, p)) <==> x in Keys(es) - {Canon(was)} + KeyOf(p)
    {
      KeysAre(Replace(es, was, p), x);
      KeysAre(es, x);
      ReplaceHolds(es, was, p, x);
    }
  }

  lemma ReplaceHolds(es: seq<Entry>, was: Record, p: Entry, x: Record)
    requires AllCoherent(es) && Holds(es, was)
    ensures (exists k :: 0 <= k < |es| && Replace(es, was, p)[k].rec == Some(x)) <==>
      ((exists k :: 0 <= k < |es| && es[k].rec == Some(x)) && x != Canon(was)) || x in KeyOf(p)
  {
    hide Hits, Canon, Read, Coherent, Replace;
    var out := Replace(es, was, p);
    forall k | 0 <= k < |es| && es[k].rec.Some?
      ensures Matches(was, es[k]) <==> es[k].rec.value == Canon(was)
    {
      CoherentIsRead(es[k]);
      HitsIsCanon(was, es[k].rec.value);
    }
    var at :| 0 <= at < |es| && Matches(was, es[at]);
    assert out[at] == p;
    hide Matches;
    if k :| 0 <= k < |es| && es[k].rec == Some(x) && x != Canon(was) {
      assert out[k] == es[k];
    }
  }

  lemma {:induction false} ReplaceOthers(es: seq<Entry>, was: Record, p: Entry)
    requires p.rec.Some?
    ensures Others(Replace(es, was, p)) == Others(es)
  {
    hide Hits;
    if es != [] {
      ReplaceOthers(es[1..], was, p);
      assert Replace(es, was, p)[1..] == Replace(es[1..], was, p);
    }
  }

  lemma AppendKeys(es: seq<Entry>, e: Entry)
    ensures Keys(es + [e]) == Keys(es) + (if e.rec.Some? then {e.rec.value} else {})
    ensures Others(es + [e]) == Others(es) + (if e.rec.Some? then [] else [e])
  {
    KeysConcat(es, [e]);
    KeysOfOne(e);
  }

  /** Declaring a parent zone adds one unmanaged line at most and no record. */
  lemma DeclareZoneKeys(es: seq<Entry>, r: Record)
    requires Valid(r)
    ensures Keys(DeclareZone(es, r)) == Keys(es)
    ensures Others(es) <= Others(DeclareZone(es, r))
    ensures es <= DeclareZone(es, r)
  {
    hide *;
    DeclareIs(es, r);
    if DeclareZone(es, r) != es {
      Writer.ValidHasName(r);
      Writer.ParentIsName(r.fqdn);
      DeclaredIs(ParentZone(r.fqdn));
      AppendKeys(es, Declared(ParentZone(r.fqdn)));
    }
  }

  lemma DeclareIs(es: seq<Entry>, r: Record)
    ensures DeclareZone(es, r) == es
            || (!IsPolicy(r.typ) && ParentZone(r.fqdn) != "" && DeclareZone(es, r) == es + [Declared(ParentZone(r.fqdn))])
  {
    hide ParentZone, Declared, OpensZone;
  }

  // ----- which entries an operation leaves -----

  predicate Every(es: seq<Entry>, p: Entry -> bool) {
    forall k :: 0 <= k < |es| ==> p(es[k])
  }

  /** What is true of a record's own line and of the line that declares its
      parent. */
  predicate WritesOnly(rs: seq<Record>, p: Entry -> bool) {
    forall r :: r in rs && Valid(r) ==> p(Printed(r)) && p(Declared(ParentZone(r.fqdn)))
  }

  lemma DeclareEvery(es: seq<Entry>, r: Record, p: Entry -> bool)
    requires Every(es, p) && p(Declared(ParentZone(r.fqdn)))
    ensures Every(DeclareZone(es, r), p)
  {
    hide Declared, ParentZone;
  }

  lemma {:induction false} SettleEvery(es: seq<Entry>, e: Entry, r: Record, written: bool, p: Entry -> bool)
    requires Every(es, p) && p(e)
    ensures Every(Settle(es, e, r, written), p)
  {
    hide Competes;
    if es != [] {
      SettleEvery(es[1..], e, r, written || Competes(r, es[0]), p);
    }
  }

  lemma {:induction false} WithoutEvery(es: seq<Entry>, r: Record, p: Entry -> bool)
    requires Every(es, p)
    ensures Every(Without(es, r), p)
  {
    hide Matches;
    if es != [] {
      WithoutEvery(es[1..], r, p);
    }
  }

  lemma AddToIs(es: seq<Entry>, r: Record)
    requires AddTo(es, r).Success?
    ensures Valid(r) && AddTo(es, r).value == es + [Printed(r)]
  {
    hide Valid, Holds, OpensName, Printed;
  }

  lemma AddRecordIs(es: seq<Entry>, r: Record)
    requires AddRecord(es, r).Success?
    ensures Valid(r) && AddRecord(es, r).value == es + [Printed(r)]
  {
    hide Taken, AddTo;
    AddToIs(es, r);
  }

  lemma {:induction false} AddEachEvery(es: seq<Entry>, rs: seq<Record>, p: Entry -> bool)
    requires Every(es, p) && WritesOnly(rs, p) && AddEach(es, rs).Success?
    ensures Every(AddEach(es, rs).value, p)
    decreases |rs|
  {
    hide AddRecord, DeclareZone, Printed, Declared, Valid, ParentZone;
    if rs != [] {
      AddRecordIs(es, rs[0]);
      assert rs[0] in rs;
      DeclareEvery(es + [Printed(rs[0])], rs[0], p);
      AddEachEvery(DeclareZone(es + [Printed(rs[0])], rs[0]), rs[1..], p);
    }
  }

  lemma SetInIs(es: seq<Entry>, r: Record)
    requires SetIn(es, r).Success?
    ensures Valid(r) && SetIn(es, r).value == Settle(es, Printed(r), r, false)
  {
    hide Valid, Settle, Printed;
  }

  lemma EditInIs(es: seq<Entry>, was: Record, r: Record)
    requires EditIn(es, was, r).Success?
    ensures Valid(r) && EditIn(es, was, r).value == Replace(es, was, Printed(r))
  {
    hide Valid, ValidForRemoval, Holds, Replace, Printed;
  }

  lemma ReplaceEvery(es: seq<Entry>, was: Record, e: Entry, p: Entry -> bool)
    requires Every(es, p) && p(e)
    ensures Every(Replace(es, was, e), p)
  {
    hide Matches;
  }

  lemma DeleteFromIs(es: seq<Entry>, r: Record)
    requires DeleteFrom(es, r).Success?
    ensures DeleteFrom(es, r).value == Without(es, r) && Holds(es, r)
  {
    hide ValidForRemoval, Holds, Without;
  }

  /** What is true of every line of a file stays true when it is true of the lines
      the operation writes. */
  lemma ApplyEvery(es: seq<Entry>, op: Operation, p: Entry -> bool)
    requires Every(es, p) && WritesOnly(Written(op), p) && Apply(es, op).Success?
    ensures Every(Apply(es, op).value, p)
  {
    hide Every, Valid, Consistent, AddRecord, AddTo, SetIn, EditIn, DeleteFrom, AddEach;
    hide DeclareZone, Taken, Printed, Declared, ParentZone;
    match op
    case Add(r) => AddRecordIs(es, r); PlusEvery(es, r, p); DeclareEvery(es + [Printed(r)], r, p);
    case Copy(r) => AddToIs(es, r); PlusEvery(es, r, p); DeclareEvery(es + [Printed(r)], r, p);
    case Set(r) =>
      SetInIs(es, r);
      SettleEvery(es, Printed(r), r, false, p);
      DeclareEvery(Settle(es, Printed(r), r, false), r, p);
    case AddMany(rs) => AddEachEvery(es, rs, p);
    case Edit(was, r) =>
      EditInIs(es, was, r);
      ReplaceEvery(es, was, Printed(r), p);
      DeclareEvery(Replace(es, was, Printed(r)), r, p);
    case Delete(r) =>
      DeleteFromIs(es, r);
      WithoutEvery(es, r, p);
  }

  lemma PlusEvery(es: seq<Entry>, r: Record, p: Entry -> bool)
    requires Every(es, p) && p(Printed(r))
    ensures Every(es + [Printed(r)], p)
  {
    hide Printed;
  }

  lemma CoherentIsEvery(es: seq<Entry>)
    ensures AllCoherent(es) <==> Every(es, Coherent)
  {
    hide Coherent;
  }

  lemma WritesCoherent(rs: seq<Record>)
    ensures WritesOnly(rs, Coherent)
  {
    hide Coherent, Valid, ParentZone, EntryOf;
    forall r | r in rs
      ensures Coherent(Printed(r)) && Coherent(Declared(ParentZone(r.fqdn)))
    {
      EntryIsCoherent(BuildLine(r));
      EntryIsCoherent(TransparentLine(ParentZone(r.fqdn)));
    }
  }

  /** Every line an operation leaves is one that was read, or one it printed. */
  lemma ApplyStaysCoherent(es: seq<Entry>, op: Operation)
    requires AllCoherent(es) && Apply(es, op).Success?
    ensures AllCoherent(Apply(es, op).value)
  {
    hide *;
    CoherentIsEvery(es);
    WritesCoherent(Written(op));
    ApplyEvery(es, op, Coherent);
    CoherentIsEvery(Apply(es, op).value);
  }

  lemma WithoutCoherent(es: seq<Entry>, r: Record)
    requires AllCoherent(es)
    ensures AllCoherent(Without(es, r))
  {
    hide *;
    CoherentIsEvery(es);
    WithoutEvery(es, r, Coherent);
    CoherentIsEvery(Without(es, r));
  }

  lemma AddedCoherent(es: seq<Entry>, r: Record)
    requires AllCoherent(es)
    ensures AllCoherent(DeclareZone(es + [Printed(r)], r))
  {
    hide Coherent, Valid, ParentZone, EntryOf;
    EntryIsCoherent(BuildLine(r));
    EntryIsCoherent(TransparentLine(ParentZone(r.fqdn)));
  }
}

/** The drift table: what every server of a target does with every record any of
    them holds (internal/fleet/diff.go, BuildDiff). */
module Drift {
  import opened Platform
  import opened Records
  import opened Entries
  import opened KeySets
  import opened Reconcile

  datatype Cell = Present | Absent | Different(value: string)

  datatype Row = Row(record: Record, cells: seq<Cell>)

  // ----- the order of the rows -----

  /** cmp.Compare on two texts is negative. */
  predicate TextLess(a: string, b: string) {
    if a == "" then b != ""
    else if b == "" then false
    else if a[0] != b[0] then a[0] < b[0]
    else TextLess(a[1..], b[1..])
  }

  predicate Less(a: Record, b: Record) {
    if a.fqdn != b.fqdn then TextLess(a.fqdn, b.fqdn)
    else if a.typ != b.typ then TextLess(WordOf(a.typ), WordOf(b.typ))
    else if a.value != b.value then TextLess(a.value, b.value)
    else a.priority < b.priority
  }

  lemma {:induction false} TextTotal(a: string, b: string)
    ensures a != b <==> TextLess(a, b) || TextLess(b, a)
    ensures !(TextLess(a, b) && TextLess(b, a))
  {
    if a != "" && b != "" && a[0] == b[0] {
      TextTotal(a[1..], b[1..]);
      assert a == [a[0]] + a[1..] && b == [b[0]] + b[1..];
    }
  }

  lemma {:induction false} TextTransitive(a: string, b: string, c: string)
    requires TextLess(a, b) && TextLess(b, c)
    ensures TextLess(a, c)
  {
    if a != "" && a[0] == b[0] && b[0] == c[0] {
      TextTransitive(a[1..], b[1..], c[1..]);
    }
  }

  lemma LessTotal(a: Record, b: Record)
    ensures a != b <==> Less(a, b) || Less(b, a)
    ensures !(Less(a, b) && Less(b, a))
  {
    TextTotal(a.fqdn, b.fqdn);
    TextTotal(WordOf(a.typ), WordOf(b.typ));
    TextTotal(a.value, b.value);
    if a.typ != b.typ {
      WordsDiffer(a.typ, b.typ);
    }
    hide TextLess, WordOf;
  }

  lemma WordsDiffer(a: RecordType, b: RecordType)
    requires a != b
    ensures WordOf(a) != WordOf(b)
  {
    if WordOf(a) == WordOf(b) {
      DistinctWords(a, b);
    }
  }

  lemma LessTransitive(a: Record, b: Record, c: Record)
    requires Less(a, b) && Less(b, c)
    ensures Less(a, c)
  {
    hide TextLess, WordOf;
    if a.fqdn != b.fqdn && b.fqdn != c.fqdn {
      TextTransitive(a.fqdn, b.fqdn, c.fqdn);
      TextTotal(a.fqdn, c.fqdn);
      TextTotal(a.fqdn, b.fqdn);
    } else if a.fqdn == b.fqdn == c.fqdn {
      if a.typ != b.typ && b.typ != c.typ {
        TextTransitive(WordOf(a.typ), WordOf(b.typ), WordOf(c.typ));
        TextTotal(WordOf(a.typ), WordOf(c.typ));
      } else if a.typ == b.typ == c.typ && a.value != b.value && b.value != c.value {
        TextTransitive(a.value, b.value, c.value);
        TextTotal(a.value, c.value);
      }
    }
  }

  // ----- what the table says -----

  function HeldBy(byServer: map<nat, seq<Record>>, id: nat): seq<Record> {
    if id in byServer then byServer[id] else []
  }

  /** The first record a server lists for a name and type. */
  function FirstNamed(rs: seq<Record>, key: Record): Option<Record> {
    if rs == [] then None
    else if rs[0].fqdn == key.fqdn && rs[0].typ == key.typ then Some(rs[0])
    else FirstNamed(rs[1..], key)
  }

  function CellOf(rs: seq<Record>, key: Record): Cell {
    if key in rs then Present
    else
      match FirstNamed(rs, key)
      case Some(other) => Different(other.value)
      case None => Absent
  }

  function Cells(servers: seq<nat>, byServer: map<nat, seq<Record>>, key: Record): (cells: seq<Cell>)
    ensures |cells| == |servers|
    ensures forall i :: 0 <= i < |servers| ==> cells[i] == CellOf(HeldBy(byServer, servers[i]), key)
  {
    seq(|servers|, i requires 0 <= i < |servers| => CellOf(HeldBy(byServer, servers[i]), key))
  }

  predicate Ascending(rows: seq<Row>) {
    forall i, j :: 0 <= i < j < |rows| ==> Less(rows[i].record, rows[j].record)
  }

  function RowRecords(rows: seq<Row>): set<Record> {
    set row | row in rows :: row.record
  }

  function Everything(servers: seq<nat>, byServer: map<nat, seq<Record>>): set<Record> {
    set id, r | id in servers && r in HeldBy(byServer, id) :: r
  }

  /** One row per record any server holds, ascending, each cell saying what that
      server does with the record. */
  predicate IsTable(rows: seq<Row>, servers: seq<nat>, byServer: map<nat, seq<Record>>) {
    && Ascending(rows)
    && RowRecords(rows) == Everything(servers, byServer)
    && forall i :: 0 <= i < |rows| ==> rows[i].cells == Cells(servers, byServer, rows[i].record)
  }

  lemma {:induction false} SameRows(a: seq<Row>, b: seq<Row>)
    requires Ascending(a) && Ascending(b) && RowRecords(a) == RowRecords(b)
    requires forall x, y :: x in a && y in b && x.record == y.record ==> x == y
    ensures a == b
  {
    hide Less;
    if a == [] {
      NoRows(b);
    } else if b == [] {
      NoRows(a);
    } else {
      SameFirst(a, b);
      SplitFirst(a);
      SplitFirst(b);
      SameRows(a[1..], b[1..]);
    }
  }

  /** There is one such table, so nothing about it can depend on the order a map
      is walked in. */
  lemma TableIsUnique(a: seq<Row>, b: seq<Row>, servers: seq<nat>, byServer: map<nat, seq<Record>>)
    requires IsTable(a, servers, byServer) && IsTable(b, servers, byServer)
    ensures a == b
  {
    hide Less, Cells, Everything;
    forall x, y | x in a && y in b && x.record == y.record
      ensures x == y
    {
      var i :| 0 <= i < |a| && a[i] == x;
      var j :| 0 <= j < |b| && b[j] == y;
    }
    SameRows(a, b);
  }

  lemma NoRows(rows: seq<Row>)
    ensures rows != [] ==> RowRecords(rows) != {}
  {
    if rows != [] {
      assert rows[0].record in RowRecords(rows);
    }
  }

  lemma SameFirst(a: seq<Row>, b: seq<Row>)
    requires a != [] && b != [] && Ascending(a) && Ascending(b) && RowRecords(a) == RowRecords(b)
    ensures a[0].record == b[0].record
  {
    hide Less;
    assert a[0].record in RowRecords(b) && b[0].record in RowRecords(a);
    var i :| 0 <= i < |b| && b[i].record == a[0].record;
    var j :| 0 <= j < |a| && a[j].record == b[0].record;
    LessTotal(a[0].record, b[0].record);
  }

  lemma SplitFirst(rows: seq<Row>)
    requires rows != [] && Ascending(rows)
    ensures Ascending(rows[1..]) && RowRecords(rows[1..]) == RowRecords(rows) - {rows[0].record}
  {
    hide Less;
    LessTotal(rows[0].record, rows[0].record);
    forall r
      ensures r in RowRecords(rows[1..]) <==> r in RowRecords(rows) - {rows[0].record}
    {
      if r in RowRecords(rows[1..]) {
        var i :| 0 <= i < |rows[1..]| && rows[1..][i].record == r;
        assert rows[i + 1].record == r;
      }
      if r in RowRecords(rows) && r != rows[0].record {
        var i :| 0 <= i < |rows| && rows[i].record == r;
        assert rows[1..][i - 1] == rows[i];
      }
    }
  }

  // ----- building it -----

  function Insert(rows: seq<Row>, row: Row): seq<Row> {
    if rows == [] || Less(row.record, rows[0].record) then [row] + rows
    else [rows[0]] + Insert(rows[1..], row)
  }

  lemma {:induction false} InsertKeeps(rows: seq<Row>, row: Row)
    requires Ascending(rows) && row.record !in RowRecords(rows)
    ensures Ascending(Insert(rows, row))
    ensures forall x :: x in Insert(rows, row) <==> x in rows || x == row
  {
    hide Less;
    if rows != [] {
      if Less(row.record, rows[0].record) {
        forall j | 0 <= j < |rows|
          ensures Less(row.record, rows[j].record)
        {
          if j > 0 {
            LessTransitive(row.record, rows[0].record, rows[j].record);
          }
        }
      } else {
        LessTotal(row.record, rows[0].record);
        assert rows[0] in rows;
        SplitFirst(rows);
        InsertKeeps(rows[1..], row);
        var rest := Insert(rows[1..], row);
        forall j | 0 <= j < |rest|
          ensures Less(rows[0].record, rest[j].record)
        {
          if rest[j] != row {
            assert rest[j] in rows[1..];
          }
        }
        assert forall x :: x in rows <==> x == rows[0] || x in rows[1..];
      }
    }
  }

  /** What BuildDiff knows of one server: the records it holds, and the first it
      lists for each name and type. */
  datatype Index = Index(held: set<Record>, byName: map<(string, RecordType), Record>)

  ghost predicate Indexes(index: Index, rs: seq<Record>) {
    && index.held == SetOf(rs)
    && forall key: Record ::
      FirstNamed(rs, key) == if (key.fqdn, key.typ) in index.byName then Some(index.byName[(key.fqdn, key.typ)]) else None
  }

  lemma {:induction false} FirstNamedAppend(rs: seq<Record>, r: Record, key: Record)
    ensures FirstNamed(rs + [r], key) ==
      if FirstNamed(rs, key).Some? then FirstNamed(rs, key)
      else if r.fqdn == key.fqdn && r.typ == key.typ then Some(r) else None
  {
    if rs != [] {
      assert (rs + [r])[1..] == rs[1..] + [r];
      FirstNamedAppend(rs[1..], r, key);
    }
  }

  method IndexServer(rs: seq<Record>) returns (index: Index)
    ensures Indexes(index, rs)
  {
    var held: set<Record>, byName: map<(string, RecordType), Record> := {}, map[];
    for i := 0 to |rs|
      invariant Indexes(Index(held, byName), rs[..i])
    {
      var record := rs[i];
      assert rs[..i + 1] == rs[..i] + [record];
      forall key: Record {
        FirstNamedAppend(rs[..i], record, key);
      }
      held := held + {record};
      var name := (record.fqdn, record.typ);
      if name !in byName {
        byName := byName[name := record];
      }
    }
    assert rs[..|rs|] == rs;
    index := Index(held, byName);
  }

  method IndexServers(servers: seq<nat>, byServer: map<nat, seq<Record>>)
    returns (records: set<Record>, indexes: map<nat, Index>)
    ensures records == Everything(servers, byServer)
    ensures forall id :: id in servers ==> id in indexes && Indexes(indexes[id], HeldBy(byServer, id))
  {
    hide Indexes;
    records, indexes := {}, map[];
    for i := 0 to |servers|
      invariant records == Everything(servers[..i], byServer)
      invariant forall id :: id in servers[..i] ==> id in indexes && Indexes(indexes[id], HeldBy(byServer, id))
    {
      var index := IndexServer(HeldBy(byServer, servers[i]));
      IndexHolds(index, HeldBy(byServer, servers[i]));
      assert servers[..i + 1] == servers[..i] + [servers[i]];
      records := records + index.held;
      indexes := indexes[servers[i] := index];
    }
    assert servers[..|servers|] == servers;
  }

  lemma IndexHolds(index: Index, rs: seq<Record>)
    requires Indexes(index, rs)
    ensures index.held == SetOf(rs)
  {
  }

  method RowCells(servers: seq<nat>, ghost byServer: map<nat, seq<Record>>, indexes: map<nat, Index>, key: Record)
    returns (cells: seq<Cell>)
    requires forall id :: id in servers ==> id in indexes && Indexes(indexes[id], HeldBy(byServer, id))
    ensures cells == Cells(servers, byServer, key)
  {
    cells := [];
    for i := 0 to |servers|
      invariant |cells| == i
      invariant forall k :: 0 <= k < i ==> cells[k] == CellOf(HeldBy(byServer, servers[k]), key)
    {
      var index := indexes[servers[i]];
      var name := (key.fqdn, key.typ);
      assert Indexes(index, HeldBy(byServer, servers[i]));
      var cell := Absent;
      if key in index.held {
        cell := Present;
      } else if name in index.byName {
        cell := Different(index.byName[name].value);
      }
      cells := cells + [cell];
    }
  }

  /** BuildDiff. The rows come out of a map in whatever order it gives them and are
      put in order as they come. */
  method BuildDiff(servers: seq<nat>, byServer: map<nat, seq<Record>>) returns (rows: seq<Row>)
    ensures IsTable(rows, servers, byServer)
  {
    hide Less, Indexes, HeldBy, Cells, Everything, RowRecords, CellOf;
    var todo, indexes := IndexServers(servers, byServer);
    rows := [];
    NoRowRecords();
    while todo != {}
      invariant todo <= Everything(servers, byServer)
      invariant Ascending(rows) && RowRecords(rows) == Everything(servers, byServer) - todo
      invariant forall x :: x in rows ==> x.cells == Cells(servers, byServer, x.record)
      decreases |todo|
    {
      var key :| key in todo;
      var cells := RowCells(servers, byServer, indexes, key);
      rows := InsertRow(rows, Row(key, cells));
      todo := todo - {key};
    }
  }

  lemma NoRowRecords()
    ensures RowRecords([]) == {} && Ascending([])
  {
  }

  method InsertRow(rows: seq<Row>, row: Row) returns (more: seq<Row>)
    requires Ascending(rows) && row.record !in RowRecords(rows)
    ensures Ascending(more) && RowRecords(more) == RowRecords(rows) + {row.record}
    ensures forall x :: x in more ==> x in rows || x == row
  {
    hide Less;
    InsertKeeps(rows, row);
    more := Insert(rows, row);
  }

  // ----- reading it -----

  predicate Match(row: Row) {
    forall i :: 0 <= i < |row.cells| ==> row.cells[i] == Present
  }

  function FilterMismatches(rows: seq<Row>): seq<Row> {
    if rows == [] then []
    else (if Match(rows[0]) then [] else [rows[0]]) + FilterMismatches(rows[1..])
  }

  function Mismatches(rows: seq<Row>): nat {
    if rows == [] then 0 else (if Match(rows[0]) then 0 else 1) + Mismatches(rows[1..])
  }

  lemma {:induction false} MismatchesAreFiltered(rows: seq<Row>)
    ensures Mismatches(rows) == |FilterMismatches(rows)|
    ensures forall x :: x in FilterMismatches(rows) <==> x in rows && !Match(x)
    ensures Mismatches(rows) == 0 <==> forall x :: x in rows ==> Match(x)
  {
    hide Match;
    if rows != [] {
      MismatchesAreFiltered(rows[1..]);
      assert forall x :: x in rows <==> x == rows[0] || x in rows[1..];
    }
  }

  /** The table shows no mismatch exactly when all servers hold the same
      records. */
  lemma NoMismatchMeansSame(rows: seq<Row>, servers: seq<nat>, byServer: map<nat, seq<Record>>)
    requires IsTable(rows, servers, byServer)
    ensures Mismatches(rows) == 0 <==>
      forall a, b :: a in servers && b in servers ==> SetOf(HeldBy(byServer, a)) == SetOf(HeldBy(byServer, b))
  {
    hide Less, CellOf;
    MismatchesAreFiltered(rows);
    if Mismatches(rows) == 0 {
      forall a, r | a in servers && r in Everything(servers, byServer)
        ensures r in HeldBy(byServer, a)
      {
        MatchedEverywhere(rows, servers, byServer, a, r);
      }
      SameIfEverything(servers, byServer);
    } else {
      var x :| x in rows && !Match(x);
      MismatchedSomewhere(rows, servers, byServer, x);
    }
  }

  lemma SameIfEverything(servers: seq<nat>, byServer: map<nat, seq<Record>>)
    requires forall a, r :: a in servers && r in Everything(servers, byServer) ==> r in HeldBy(byServer, a)
    ensures forall a, b :: a in servers && b in servers ==> SetOf(HeldBy(byServer, a)) == SetOf(HeldBy(byServer, b))
  {
    forall a, b | a in servers && b in servers
      ensures SetOf(HeldBy(byServer, a)) == SetOf(HeldBy(byServer, b))
    {
      assert forall r :: r in HeldBy(byServer, a) ==> r in Everything(servers, byServer);
      assert forall r :: r in HeldBy(byServer, b) ==> r in Everything(servers, byServer);
    }
  }

  lemma MatchedEverywhere(rows: seq<Row>, servers: seq<nat>, byServer: map<nat, seq<Record>>, a: nat, r: Record)
    requires IsTable(rows, servers, byServer) && a in servers && r in Everything(servers, byServer)
    requires forall x :: x in rows ==> Match(x)
    ensures r in HeldBy(byServer, a)
  {
    hide Less;
    assert r in RowRecords(rows);
    var i :| 0 <= i < |rows| && rows[i].record == r;
    assert Match(rows[i]);
    var k :| 0 <= k < |servers| && servers[k] == a;
    assert rows[i].cells[k] == CellOf(HeldBy(byServer, a), r);
  }

  lemma MismatchedSomewhere(rows: seq<Row>, servers: seq<nat>, byServer: map<nat, seq<Record>>, x: Row)
    requires IsTable(rows, servers, byServer) && x in rows && !Match(x)
    ensures exists a, b :: a in servers && b in servers && SetOf(HeldBy(byServer, a)) != SetOf(HeldBy(byServer, b))
  {
    hide Less;
    var i :| 0 <= i < |x.cells| && x.cells[i] != Present;
    assert x.record in RowRecords(rows);
    var id, r :| id in servers && r in HeldBy(byServer, id) && r == x.record;
    assert x.record in SetOf(HeldBy(byServer, id)) && x.record !in SetOf(HeldBy(byServer, servers[i]));
  }

  /** After a mirror that went through, the table of source and target shows no
      mismatch exactly when no record moved has a name that reads with a dot at its
      end. */
  lemma MirrorLeavesNoDrift(es: seq<Entry>, source: seq<Record>, rows: seq<Row>)
    requires AllCoherent(es) && AllReadPlain(Added(es, source)) && Mirror(es, source).Success?
    requires IsTable(rows, [0, 1], map[0 := source, 1 := RecordsIn(Mirror(es, source).value)])
    ensures Mismatches(rows) == 0 <==> Undotted(Removed(es, source)) && Undotted(Added(es, source))
  {
    hide *;
    MirrorConverges(es, source);
    var out := Mirror(es, source).value;
    AllKeysAre(out);
    KeysOfRecords(out);
    TwoServers(source, RecordsIn(out));
    NoMismatchMeansSame(rows, [0, 1], map[0 := source, 1 := RecordsIn(out)]);
  }

  lemma KeysOfRecords(es: seq<Entry>)
    ensures SetOf(RecordsIn(es)) == Keys(es)
  {
    hide Keys, RecordsIn;
    AllKeysAre(es);
  }

  lemma TwoServers(a: seq<Record>, b: seq<Record>)
    ensures var m: map<nat, seq<Record>> := map[0 := a, 1 := b];
            SetOf(a) == SetOf(b)
            <==> forall x, y :: x in [0, 1] && y in [0, 1] ==> SetOf(HeldBy(m, x)) == SetOf(HeldBy(m, y))
  {
    hide SetOf;
    var m: map<nat, seq<Record>> := map[0 := a, 1 := b];
    assert 0 in [0, 1] && 1 in [0, 1] && HeldBy(m, 0) == a && HeldBy(m, 1) == b;
  }

  // ----- what a cell and the order say -----

  lemma {:induction false} FirstNamedIs(rs: seq<Record>, key: Record)
    ensures FirstNamed(rs, key) == None <==> forall r :: r in rs ==> r.fqdn != key.fqdn || r.typ != key.typ
    ensures FirstNamed(rs, key).Some? ==>
      exists p :: 0 <= p < |rs| && rs[p] == FirstNamed(rs, key).value && rs[p].fqdn == key.fqdn && rs[p].typ == key.typ
        && forall q :: 0 <= q < p ==> rs[q].fqdn != key.fqdn || rs[q].typ != key.typ
  {
    if rs != [] {
      FirstNamedIs(rs[1..], key);
      assert forall r :: r in rs <==> r == rs[0] || r in rs[1..];
      if (rs[0].fqdn != key.fqdn || rs[0].typ != key.typ) && FirstNamed(rs[1..], key).Some? {
        var p :| 0 <= p < |rs[1..]| && rs[1..][p] == FirstNamed(rs[1..], key).value
                 && rs[1..][p].fqdn == key.fqdn && rs[1..][p].typ == key.typ
                 && forall q :: 0 <= q < p ==> rs[1..][q].fqdn != key.fqdn || rs[1..][q].typ != key.typ;
        forall q | 0 <= q < p + 1
          ensures rs[q].fqdn != key.fqdn || rs[q].typ != key.typ
        {
          assert q > 0 ==> rs[1..][q - 1] == rs[q];
        }
        assert rs[p + 1] == rs[1..][p];
      }
    }
  }

  /** A cell shows the record as present exactly when the server lists it, as different with
      the value of the first record the server lists for its name and type, and as absent
      when there is none. */
  lemma CellMeans(rows: seq<Row>, servers: seq<nat>, byServer: map<nat, seq<Record>>, i: nat, k: nat)
    requires IsTable(rows, servers, byServer) && i < |rows| && k < |servers| && servers[k] in byServer
    ensures k < |rows[i].cells|
    ensures var r, cell, listed := rows[i].record, rows[i].cells[k], byServer[servers[k]];
      && (cell == Present <==> r in listed)
      && (cell == Absent <==> forall x :: x in listed ==> x.fqdn != r.fqdn || x.typ != r.typ)
      && (cell.Different? ==>
            exists p :: 0 <= p < |listed| && cell.value == listed[p].value && listed[p].fqdn == r.fqdn && listed[p].typ == r.typ
              && forall q :: 0 <= q < p ==> listed[q].fqdn != r.fqdn || listed[q].typ != r.typ)
  {
    var r, listed := rows[i].record, byServer[servers[k]];
    assert rows[i].cells[k] == CellOf(listed, r);
    FirstNamedIs(listed, r);
    hide FirstNamed, IsTable;
  }

  /** The texts agree up to this place, where the first is smaller or ends. */
  predicate LessAt(a: string, b: string, p: nat) {
    p <= |a| && p < |b| && a[..p] == b[..p] && (p == |a| || a[p] < b[p])
  }

  lemma {:induction false} TextLessMeans(a: string, b: string)
    ensures TextLess(a, b) <==> exists p :: 0 <= p < |b| && LessAt(a, b, p)
  {
    hide LessAt;
    var same := a != "" && b != "" && a[0] == b[0];
    if same {
      TextLessMeans(a[1..], b[1..]);
    }
    LessFirst(a, b);
    forall p | 0 < p < |b|
      ensures LessAt(a, b, p) <==> same && LessAt(a[1..], b[1..], p - 1)
    {
      LessCons(a, b, p);
    }
    if same && TextLess(a, b) {
      var p :| 0 <= p < |b[1..]| && LessAt(a[1..], b[1..], p);
      assert LessAt(a, b, p + 1);
    }
  }

  lemma LessFirst(a: string, b: string)
    ensures LessAt(a, b, 0) <==> b != "" && (a == "" || a[0] < b[0])
  {
  }

  lemma LessCons(a: string, b: string, p: nat)
    requires p > 0
    ensures LessAt(a, b, p) <==> a != "" && b != "" && a[0] == b[0] && LessAt(a[1..], b[1..], p - 1)
  {
    if p <= |a| && p <= |b| {
      assert a[..p] == [a[0]] + a[1..][..p - 1] && b[..p] == [b[0]] + b[1..][..p - 1];
      assert a[..p][0] == a[0] && b[..p][0] == b[0];
      assert a[..p][1..] == a[1..][..p - 1] && b[..p][1..] == b[1..][..p - 1];
    }
  }

  /** The rows come by name, then by type, then by value, then by preference. */
  lemma RowsInOrder(rows: seq<Row>, servers: seq<nat>, byServer: map<nat, seq<Record>>, i: nat, j: nat)
    requires IsTable(rows, servers, byServer) && i < j < |rows|
    ensures var a, b := rows[i].record, rows[j].record;
      && (a.fqdn != b.fqdn ==> TextLess(a.fqdn, b.fqdn))
      && (a.fqdn == b.fqdn && a.typ != b.typ ==> TextLess(WordOf(a.typ), WordOf(b.typ)))
      && (a.fqdn == b.fqdn && a.typ == b.typ && a.value != b.value ==> TextLess(a.value, b.value))
      && (a.fqdn == b.fqdn && a.typ == b.typ && a.value == b.value ==> a.priority < b.priority)
  {
    hide TextLess, WordOf, Cells, Everything, RowRecords;
    assert Less(rows[i].record, rows[j].record);
  }
}

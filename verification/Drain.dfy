/** The delivery loop as it runs between two appends: batches, a persisted cursor
    and a receiver that takes some rows and not others (Drain, round, start and
    Pending of internal/siem/queue.go). */
module Drain {
  import opened Platform
  import opened Delivery

  /** The row is on its way out: the switch is on, or the row always goes. */
  predicate Goes(row: AuditRow, forwarding: bool) {
    forwarding || AlwaysForwarded(row)
  }

  /** How many rows are moved past before the first that has to go out and is not
      taken. */
  function Reach(rows: seq<AuditRow>, forwarding: bool, takes: AuditRow -> bool): (n: nat)
    ensures n <= |rows|
    ensures forall i :: 0 <= i < n && Goes(rows[i], forwarding) ==> takes(rows[i])
    ensures n < |rows| ==> Goes(rows[n], forwarding) && !takes(rows[n])
  {
    if rows == [] || (Goes(rows[0], forwarding) && !takes(rows[0])) then 0
    else 1 + Reach(rows[1..], forwarding, takes)
  }

  function SentIds(rows: seq<AuditRow>, forwarding: bool): seq<nat> {
    if rows == [] then []
    else SentIds(rows[..|rows| - 1], forwarding) + if Goes(rows[|rows| - 1], forwarding) then [rows[|rows| - 1].id] else []
  }

  /** The identifiers of rows, in order. */
  function Ids(rows: seq<AuditRow>): (ids: seq<nat>)
    ensures |ids| == |rows| && forall i :: 0 <= i < |rows| ==> ids[i] == rows[i].id
  {
    seq(|rows|, i requires 0 <= i < |rows| => rows[i].id)
  }

  /** The rows about the delivery's own configuration. */
  function ConfigRows(rows: seq<AuditRow>): (kept: seq<AuditRow>)
    ensures forall row :: row in kept <==> row in rows && (row.action == SiemConfig || row.action == SettingsUpdate)
  {
    if rows == [] then []
    else
      var last := rows[|rows| - 1];
      assert rows == rows[..|rows| - 1] + [last];
      ConfigRows(rows[..|rows| - 1]) + if last.action == OtherAction then [] else [last]
  }

  /** With the switch on every row is sent, with the switch off exactly those about the
      configuration, in order. */
  lemma {:induction false} SentIs(rows: seq<AuditRow>, forwarding: bool)
    ensures SentIds(rows, forwarding) == if forwarding then Ids(rows) else Ids(ConfigRows(rows))
  {
    if rows != [] {
      SentIs(rows[..|rows| - 1], forwarding);
    }
  }

  lemma GoesMeans(row: AuditRow, forwarding: bool)
    ensures Goes(row, forwarding) <==> forwarding || row.action == SiemConfig || row.action == SettingsUpdate
  {
  }

  /** What the switch lets out: everything, or the rows about the configuration. */
  function BySwitch(rows: seq<AuditRow>, forwarding: bool): seq<nat> {
    if forwarding then Ids(rows) else Ids(ConfigRows(rows))
  }

  /** The row the loop stops at has to go out and is not taken. */
  predicate StopsAt(rows: seq<AuditRow>, n: nat, forwarding: bool, takes: AuditRow -> bool) {
    n < |rows| ==> !takes(rows[n]) && (forwarding || rows[n].action == SiemConfig || rows[n].action == SettingsUpdate)
  }

  /** What is sent of the rows moved past, and the row that stops the rest. */
  lemma StoppedAt(rows: seq<AuditRow>, forwarding: bool, takes: AuditRow -> bool)
    ensures var n := Reach(rows, forwarding, takes);
      SentIds(rows[..n], forwarding) == BySwitch(rows[..n], forwarding) && StopsAt(rows, n, forwarding, takes)
  {
    hide Reach, SentIds, Ids, ConfigRows, Goes;
    var n := Reach(rows, forwarding, takes);
    SentIs(rows[..n], forwarding);
    if n < |rows| {
      GoesMeans(rows[n], forwarding);
    }
  }

  function CursorAfter(at: nat, rows: seq<AuditRow>): nat {
    if rows == [] then at else rows[|rows| - 1].id
  }

  lemma {:induction false} ReachIs(rows: seq<AuditRow>, forwarding: bool, takes: AuditRow -> bool, n: nat)
    requires n <= |rows|
    requires forall i :: 0 <= i < n && Goes(rows[i], forwarding) ==> takes(rows[i])
    requires n < |rows| ==> Goes(rows[n], forwarding) && !takes(rows[n])
    ensures Reach(rows, forwarding, takes) == n
  {
    if n > 0 {
      assert forall i :: 0 <= i < n - 1 ==> rows[1..][i] == rows[i + 1];
      ReachIs(rows[1..], forwarding, takes, n - 1);
    }
  }

  /** Reaching through a whole batch is reaching as far in what is behind it. */
  lemma ReachPast(rows: seq<AuditRow>, forwarding: bool, takes: AuditRow -> bool, k: nat)
    requires k <= |rows| && Reach(rows[..k], forwarding, takes) == k
    ensures Reach(rows, forwarding, takes) == k + Reach(rows[k..], forwarding, takes)
  {
    var n := Reach(rows[k..], forwarding, takes);
    forall i | 0 <= i < k + n && Goes(rows[i], forwarding)
      ensures takes(rows[i])
    {
      if i < k {
        assert rows[..k][i] == rows[i];
      } else {
        assert rows[k..][i - k] == rows[i];
      }
    }
    assert n < |rows[k..]| ==> rows[k..][n] == rows[k + n];
    ReachIs(rows, forwarding, takes, k + n);
  }

  lemma ReachInside(rows: seq<AuditRow>, forwarding: bool, takes: AuditRow -> bool, k: nat)
    requires k <= |rows| && Reach(rows[..k], forwarding, takes) < k
    ensures Reach(rows, forwarding, takes) == Reach(rows[..k], forwarding, takes)
  {
    var n := Reach(rows[..k], forwarding, takes);
    assert forall i :: 0 <= i < k ==> rows[..k][i] == rows[i];
    ReachIs(rows, forwarding, takes, n);
  }

  lemma {:induction false} SentConcat(a: seq<AuditRow>, b: seq<AuditRow>, forwarding: bool)
    ensures SentIds(a + b, forwarding) == SentIds(a, forwarding) + SentIds(b, forwarding)
  {
    if b == [] {
      assert a + b == a;
    } else {
      var most := b[..|b| - 1];
      SentConcat(a, most, forwarding);
      assert (a + b)[..|a + b| - 1] == a + most;
    }
  }

  /** Moving the cursor over the first rows that are owed leaves the others owed. */
  lemma OwedAfter(log: seq<AuditRow>, at: nat, n: nat)
    requires Ascending(log) && n <= |Owed(log, at)|
    ensures Owed(log, CursorAfter(at, Owed(log, at)[..n])) == Owed(log, at)[n..]
    ensures n > 0 ==> at < CursorAfter(at, Owed(log, at)[..n])
  {
    hide Behind;
    var b := Behind(log, at);
    if n > 0 {
      var last := log[b + n - 1];
      assert Owed(log, at)[..n][n - 1] == last;
      assert forall i :: 0 <= i < b + n ==> log[i].id <= last.id;
      BehindIs(log, last.id, b + n);
      hide Ascending;
      assert log[b..][n..] == log[b + n..];
    }
  }

  /** The stored log and cursor, and what the receiver was given. */
  class Sender {
    var log: seq<AuditRow>
    var cursor: Option<nat>
    var sent: seq<nat>

    predicate Valid()
      reads this
    {
      Ascending(log)
    }

    /** Where the next round starts: at the present when nothing was placed yet. */
    function StartsAt(): nat
      reads this
    {
      if cursor.Some? then cursor.value else Newest(log)
    }

    constructor (log: seq<AuditRow>)
      requires Ascending(log)
      ensures Valid() && this.log == log && cursor == None && sent == []
    {
      this.log, cursor, sent := log, None, [];
    }

    /** SIEMCursor.Write: the cursor reaches the row, never goes back, and is either the
        row or where it was. */
    method Write(lastSent: nat)
      modifies this`cursor
      ensures cursor.Some? && lastSent <= cursor.value
      ensures old(cursor).Some? ==> old(cursor).value <= cursor.value
      ensures cursor == Some(lastSent) || cursor == old(cursor)
    {
      cursor := Some(if cursor.Some? && lastSent < cursor.value then cursor.value else lastSent);
    }

    method Start() returns (at: nat)
      requires Valid()
      modifies this`cursor
      ensures at == old(StartsAt()) && cursor == Some(at)
    {
      if cursor.Some? {
        return cursor.value;
      }
      at := Newest(log);
      Write(at);
    }

    /** One batch. The cursor is written once, when a row was moved past. */
    method Round(forwarding: bool, takes: AuditRow -> bool) returns (moved: nat, more: bool)
      requires Valid()
      modifies this`cursor, this`sent
      ensures Valid()
      ensures var rows := After(log, old(StartsAt()), BATCH);
        && moved == Reach(rows, forwarding, takes)
        && more == (|rows| == BATCH)
        && cursor == Some(CursorAfter(old(StartsAt()), rows[..moved]))
        && sent == old(sent) + SentIds(rows[..moved], forwarding)
        // in terms of the switch: what was sent, and the row it stopped at
        && sent == old(sent) + BySwitch(rows[..moved], forwarding) && StopsAt(rows, moved, forwarding, takes)
    {
      hide Behind, Reach, SentIds, CursorAfter, After, Goes, BySwitch, StopsAt;
      var at := Start();
      var rows := After(log, at, BATCH);
      moved, more := 0, |rows| == BATCH;
      var position := at;
      NothingYet(at, rows, forwarding);
      var stopped := false;
      while moved < |rows| && !stopped
        invariant moved <= |rows| && cursor == Some(at)
        invariant position == CursorAfter(at, rows[..moved])
        invariant sent == old(sent) + SentIds(rows[..moved], forwarding)
        invariant forall i :: 0 <= i < moved && Goes(rows[i], forwarding) ==> takes(rows[i])
        invariant stopped ==> moved < |rows| && Goes(rows[moved], forwarding) && !takes(rows[moved])
        decreases |rows| - moved, !stopped
      {
        var row := rows[moved];
        if Goes(row, forwarding) && !takes(row) {
          stopped := true;
        } else {
          RowStep(at, rows, moved, forwarding);
          if Goes(row, forwarding) {
            sent := sent + [row.id];
          }
          position := row.id;
          moved := moved + 1;
        }
      }
      ReachIs(rows, forwarding, takes, moved);
      StoppedAt(rows, forwarding, takes);
      if moved > 0 {
        PositionIsLater(log, at, rows, moved);
        Write(position);
      }
    }

    /** Drain. With a fixed log it stops, and it stops just before the first row
        that has to go out and is not taken, or at the end of the log. */
    method DrainAll(forwarding: bool, takes: AuditRow -> bool)
      requires Valid()
      modifies this`cursor, this`sent
      ensures Valid() && cursor.Some?
      ensures var owed := Owed(log, old(StartsAt()));
        var n := Reach(owed, forwarding, takes);
        && cursor == Some(CursorAfter(old(StartsAt()), owed[..n]))
        && sent == old(sent) + SentIds(owed[..n], forwarding)
        && sent == old(sent) + BySwitch(owed[..n], forwarding) && StopsAt(owed, n, forwarding, takes)
    {
      ghost var first := StartsAt();
      ghost var owed := Owed(log, first);
      ghost var done := 0;
      NothingYet(first, owed, forwarding);
      hide Behind, Reach, Owed, CursorAfter, SentIds, FirstOf, Ascending, BySwitch, StopsAt, Goes;
      var more := true;
      while more
        invariant Valid() && done <= |owed|
        invariant StartsAt() == CursorAfter(first, owed[..done])
        invariant sent == old(sent) + SentIds(owed[..done], forwarding)
        invariant Reach(owed, forwarding, takes) == done + Reach(owed[done..], forwarding, takes)
        invariant !more ==> cursor.Some? && Reach(owed[done..], forwarding, takes) == 0
        decreases |owed| - done, more
      {
        OwedAfter(log, first, done);
        ghost var rest := owed[done..];
        assert Owed(log, StartsAt()) == rest;
        var moved, full := Round(forwarding, takes);
        BatchStep(first, owed, done, moved, forwarding, takes);
        done := done + moved;
        more := full && moved > 0;
      }
      assert done == Reach(owed, forwarding, takes);
      StoppedAt(owed, forwarding, takes);
    }

    method Pending() returns (count: nat)
      requires Valid()
      ensures count == if cursor.Some? then |Owed(log, cursor.value)| else 0
    {
      count := 0;
      if cursor.Some? {
        for i := 0 to |log|
          invariant count == if i <= Behind(log, cursor.value) then 0 else i - Behind(log, cursor.value)
        {
          BehindMeans(log, cursor.value, i);
          if log[i].id > cursor.value {
            count := count + 1;
          }
        }
      }
    }

    /** A receiver that takes every row ends with nothing pending, for a log of any
        length. */
    method DrainToTheEnd(forwarding: bool, takes: AuditRow -> bool) returns (pending: nat)
      requires Valid() && forall row :: row in log ==> takes(row)
      modifies this`cursor, this`sent
      ensures Valid() && pending == 0
      ensures old(StartsAt()) <= Newest(log) ==> cursor == Some(Newest(log))
      ensures forwarding ==> sent == old(sent) + Ids(Owed(log, old(StartsAt())))
      ensures !forwarding ==> sent == old(sent) + Ids(ConfigRows(Owed(log, old(StartsAt()))))
    {
      ghost var at := StartsAt();
      ghost var owed := Owed(log, at);
      ReachIs(owed, forwarding, takes, |owed|);
      assert owed[..|owed|] == owed;
      SentIs(owed, forwarding);
      DrainAll(forwarding, takes);
      OwedAfter(log, at, |owed|);
      EndOfOwed(log, at);
      pending := Pending();
    }
  }

  lemma RowStep(at: nat, rows: seq<AuditRow>, k: nat, forwarding: bool)
    requires k < |rows|
    ensures CursorAfter(at, rows[..k + 1]) == rows[k].id
    ensures SentIds(rows[..k + 1], forwarding)
            == SentIds(rows[..k], forwarding) + if Goes(rows[k], forwarding) then [rows[k].id] else []
  {
    hide Goes;
    assert rows[..k + 1][..k] == rows[..k];
  }

  lemma CursorConcat(first: nat, a: seq<AuditRow>, b: seq<AuditRow>)
    ensures CursorAfter(CursorAfter(first, a), b) == CursorAfter(first, a + b)
  {
    if b == [] {
      assert a + b == a;
    }
  }

  /** The first rows of what is left are the next rows of the whole. */
  lemma NextRows(owed: seq<AuditRow>, done: nat, moved: nat)
    requires done <= |owed| && moved <= |FirstOf(owed[done..], BATCH)|
    ensures done + moved <= |owed|
    ensures owed[..done] + FirstOf(owed[done..], BATCH)[..moved] == owed[..done + moved]
    ensures owed[done..][moved..] == owed[done + moved..]
  {
  }

  lemma NothingYet(first: nat, owed: seq<AuditRow>, forwarding: bool)
    ensures owed[0..] == owed && CursorAfter(first, owed[..0]) == first && SentIds(owed[..0], forwarding) == []
  {
  }

  lemma EndOfOwed(log: seq<AuditRow>, at: nat)
    requires Ascending(log)
    ensures at <= Newest(log) ==> CursorAfter(at, Owed(log, at)) == Newest(log)
  {
    if Owed(log, at) == [] && log != [] {
      BehindMeans(log, at, |log| - 1);
    }
  }

  lemma PositionIsLater(log: seq<AuditRow>, at: nat, rows: seq<AuditRow>, moved: nat)
    requires Ascending(log) && rows == After(log, at, BATCH) && 0 < moved <= |rows|
    ensures at < CursorAfter(at, rows[..moved])
  {
    hide Behind;
    OwedAfter(log, at, moved);
    assert rows[..moved] == Owed(log, at)[..moved];
  }

  /** One batch of the loop. */
  lemma BatchStep(first: nat, owed: seq<AuditRow>, done: nat, moved: nat, forwarding: bool, takes: AuditRow -> bool)
    requires done <= |owed|
    requires moved == Reach(FirstOf(owed[done..], BATCH), forwarding, takes)
    requires Reach(owed, forwarding, takes) == done + Reach(owed[done..], forwarding, takes)
    ensures done + moved <= |owed|
    ensures CursorAfter(CursorAfter(first, owed[..done]), FirstOf(owed[done..], BATCH)[..moved])
            == CursorAfter(first, owed[..done + moved])
    ensures SentIds(owed[..done], forwarding) + SentIds(FirstOf(owed[done..], BATCH)[..moved], forwarding)
            == SentIds(owed[..done + moved], forwarding)
    ensures Reach(owed, forwarding, takes) == done + moved + Reach(owed[done + moved..], forwarding, takes)
    ensures !(|FirstOf(owed[done..], BATCH)| == BATCH && moved > 0) ==> Reach(owed[done + moved..], forwarding, takes) == 0
  {
    hide Reach, SentIds, CursorAfter, FirstOf, Goes;
    var batch := FirstOf(owed[done..], BATCH);
    NextRows(owed, done, moved);
    SentConcat(owed[..done], batch[..moved], forwarding);
    CursorConcat(first, owed[..done], batch[..moved]);
    ReachOn(owed[done..], moved, forwarding, takes);
  }

  lemma ReachOn(rest: seq<AuditRow>, moved: nat, forwarding: bool, takes: AuditRow -> bool)
    requires moved == Reach(FirstOf(rest, BATCH), forwarding, takes)
    ensures moved <= |rest| && Reach(rest, forwarding, takes) == moved + Reach(rest[moved..], forwarding, takes)
    ensures !(|FirstOf(rest, BATCH)| == BATCH && moved > 0) ==> Reach(rest[moved..], forwarding, takes) == 0
  {
    hide Reach, Goes;
    var batch := FirstOf(rest, BATCH);
    var k := |batch|;
    assert batch == rest[..k];
    if moved == k {
      ReachPast(rest, forwarding, takes, k);
      if k < BATCH {
        assert rest[k..] == [];
        ReachIs(rest[k..], forwarding, takes, 0);
      }
    } else {
      ReachInside(rest, forwarding, takes, k);
      assert rest[moved..][0] == rest[moved] == batch[moved];
      ReachStops(batch, forwarding, takes);
      ReachIs(rest[moved..], forwarding, takes, 0);
    }
  }

  lemma ReachStops(rows: seq<AuditRow>, forwarding: bool, takes: AuditRow -> bool)
    ensures var n := Reach(rows, forwarding, takes); n < |rows| ==> Goes(rows[n], forwarding) && !takes(rows[n])
  {
  }
}

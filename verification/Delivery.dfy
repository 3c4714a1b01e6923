/** Delivery of the audit trail to a receiver, over every interleaving of appends,
    switch changes, failures and crashes (internal/siem/queue.go,
    internal/store/siemcursor.go, After of internal/store/audit.go). */
module Delivery {
  import opened Platform

  datatype Action = SiemConfig | SettingsUpdate | OtherAction

  datatype AuditRow = AuditRow(id: nat, action: Action)

  predicate AlwaysForwarded(row: AuditRow) {
    row.action.SiemConfig? || row.action.SettingsUpdate?
  }

  const BATCH := 200

  // ----- the log -----

  predicate Ascending(log: seq<AuditRow>) {
    forall i, j :: 0 <= i < j < |log| ==> log[i].id < log[j].id
  }

  function Newest(log: seq<AuditRow>): nat {
    if log == [] then 0 else log[|log| - 1].id
  }

  /** How many rows the cursor has behind it. */
  function Behind(log: seq<AuditRow>, cursor: nat): (n: nat)
    ensures n <= |log|
    ensures forall i :: 0 <= i < n ==> log[i].id <= cursor
    ensures n < |log| ==> log[n].id > cursor
  {
    if log == [] || log[0].id > cursor then 0 else 1 + Behind(log[1..], cursor)
  }

  /** The rows after the cursor, oldest first. */
  function Owed(log: seq<AuditRow>, cursor: nat): seq<AuditRow> {
    log[Behind(log, cursor)..]
  }

  function FirstOf(rows: seq<AuditRow>, limit: nat): seq<AuditRow> {
    if |rows| <= limit then rows else rows[..limit]
  }

  /** WHERE id > cursor ORDER BY id LIMIT limit */
  function After(log: seq<AuditRow>, cursor: nat, limit: nat): seq<AuditRow> {
    FirstOf(Owed(log, cursor), limit)
  }

  lemma {:induction false} BehindIs(log: seq<AuditRow>, cursor: nat, n: nat)
    requires n <= |log|
    requires forall i :: 0 <= i < n ==> log[i].id <= cursor
    requires n < |log| ==> log[n].id > cursor
    ensures Behind(log, cursor) == n
  {
    if n > 0 {
      assert forall i :: 0 <= i < n - 1 ==> log[1..][i] == log[i + 1];
      BehindIs(log[1..], cursor, n - 1);
    }
  }

  lemma BehindAppend(log: seq<AuditRow>, row: AuditRow, cursor: nat)
    requires Ascending(log) && Newest(log) < row.id && cursor <= Newest(log)
    ensures Behind(log + [row], cursor) == Behind(log, cursor)
    ensures Ascending(log + [row])
  {
    BehindIs(log + [row], cursor, Behind(log, cursor));
  }

  /** The rows behind a cursor are those up to its identifier. */
  lemma BehindMeans(log: seq<AuditRow>, cursor: nat, i: nat)
    requires Ascending(log) && i < |log|
    ensures i < Behind(log, cursor) <==> log[i].id <= cursor
  {
    var n := Behind(log, cursor);
    if n < |log| && n < i {
      assert log[n].id < log[i].id;
    }
  }

  // ----- the machine -----

  /** Where a round stands. The cursor in it is the one held in memory. */
  datatype Phase =
    | Idle
    | Placing(newest: nat)
    | Fetching(at: nat)
    | Fetched(at: nat, rows: seq<AuditRow>)
    | Sending(at: nat, rows: seq<AuditRow>, forwarding: bool)

  /** The stored log, cursor and switch, the round in memory, and what has happened
      so far: where the cursor was first placed, the identifiers the receiver was
      given in order, and those passed over with the switch off. */
  datatype Queue = Queue(
    log: seq<AuditRow>,
    cursor: Option<nat>,
    mirror: bool,
    phase: Phase,
    start: nat,
    delivered: seq<nat>,
    passed: set<nat>)

  datatype Outcome = Taken | NotTaken | TakenUnnoticed

  datatype Step =
    | Append(row: AuditRow)
    | Switch(on: bool)
    | Begin
    | Place
    | Fetch
    | ReadSwitch
    | HandleRow(outcome: Outcome)
    | WriteCursor(ok: bool)
    | Crash

  function Max(a: nat, b: nat): nat {
    if a < b then b else a
  }

  /** A step that does not apply where the round stands changes nothing. */
  function Next(s: Queue, step: Step): Queue {
    match step
    case Append(row) => if Newest(s.log) < row.id then s.(log := s.log + [row]) else s
    case Switch(on) => s.(mirror := on)
    case Begin =>
      if s.phase != Idle then s
      else if s.cursor.Some? then s.(phase := Fetching(s.cursor.value))
      else s.(phase := Placing(Newest(s.log)))
    case Place =>
      if !s.phase.Placing? then s
      else s.(cursor := Some(s.phase.newest), start := s.phase.newest, phase := Fetching(s.phase.newest))
    case Fetch =>
      if !s.phase.Fetching? then s
      else
        var rows := After(s.log, s.phase.at, BATCH);
        s.(phase := if rows == [] then Idle else Fetched(s.phase.at, rows))
    case ReadSwitch =>
      if !s.phase.Fetched? then s
      else s.(phase := Sending(s.phase.at, s.phase.rows, s.mirror))
    case HandleRow(outcome) =>
      if !s.phase.Sending? || s.phase.rows == [] then s
      else
        var row, rest := s.phase.rows[0], s.phase.rows[1..];
        if !s.phase.forwarding && !AlwaysForwarded(row) then
          s.(passed := s.passed + {row.id}, phase := Sending(row.id, rest, s.phase.forwarding))
        else
          (match outcome
          case Taken => s.(delivered := s.delivered + [row.id], phase := Sending(row.id, rest, s.phase.forwarding))
          case NotTaken => s.(phase := Sending(s.phase.at, [], s.phase.forwarding))
          case TakenUnnoticed =>
            s.(delivered := s.delivered + [row.id], phase := Sending(s.phase.at, [], s.phase.forwarding)))
    case WriteCursor(ok) =>
      if !s.phase.Sending? || s.phase.rows != [] then s
      else if ok && s.cursor.Some? then s.(cursor := Some(Max(s.phase.at, s.cursor.value)), phase := Idle)
      else s.(phase := Idle)
    case Crash => s.(phase := Idle)
  }

  function Run(s: Queue, steps: seq<Step>): Queue {
    if steps == [] then s else Next(Run(s, steps[..|steps| - 1]), steps[|steps| - 1])
  }

  predicate Initial(s: Queue) {
    Ascending(s.log) && s.cursor == None && s.phase == Idle && s.delivered == [] && s.passed == {}
  }

  // ----- nothing is skipped -----

  /** The rows that were sent or passed over. */
  function Done(s: Queue): set<nat> {
    (set id | id in s.delivered) + s.passed
  }

  /** Every row past the placement up to this identifier is done. */
  predicate UpTo(log: seq<AuditRow>, start: nat, done: set<nat>, last: nat) {
    forall i :: 0 <= i < |log| && start < log[i].id <= last ==> log[i].id in done
  }

  /** Whatever is done leaves nothing behind it that is not. */
  predicate Closed(log: seq<AuditRow>, start: nat, done: set<nat>) {
    forall d: nat :: d in done ==> start < d <= Newest(log) && UpTo(log, start, done, d)
  }

  /** The rows in memory are the next ones after the cursor in memory. */
  predicate NextRows(log: seq<AuditRow>, at: nat, rows: seq<AuditRow>) {
    rows <= Owed(log, at)
  }

  predicate GoodPhase(s: Queue) {
    match s.phase
    case Idle => true
    case Placing(newest) => s.cursor == None && newest <= Newest(s.log)
    case Fetching(at) => s.cursor == Some(at)
    case Fetched(at, rows) => s.cursor == Some(at) && NextRows(s.log, at, rows)
    case Sending(at, rows, _) =>
      && s.cursor.Some? && s.cursor.value <= at <= Newest(s.log)
      && NextRows(s.log, at, rows) && UpTo(s.log, s.start, Done(s), at)
  }

  predicate GoodCursor(s: Queue) {
    match s.cursor
    case None => Done(s) == {}
    case Some(c) => s.start <= c <= Newest(s.log) && UpTo(s.log, s.start, Done(s), c)
  }

  /** A row passed over is not one of those that are always forwarded. */
  predicate GoodPassed(s: Queue) {
    forall i :: 0 <= i < |s.log| && s.log[i].id in s.passed ==> !AlwaysForwarded(s.log[i])
  }

  predicate Good(s: Queue) {
    && Ascending(s.log)
    && GoodCursor(s) && GoodPhase(s) && GoodPassed(s)
    && Closed(s.log, s.start, Done(s))
  }

  lemma NewestBounds(log: seq<AuditRow>)
    requires Ascending(log)
    ensures forall i :: 0 <= i < |log| ==> log[i].id <= Newest(log)
  {
  }

  lemma UpToAppend(log: seq<AuditRow>, row: AuditRow, start: nat, done: set<nat>, last: nat)
    requires UpTo(log, start, done, last) && last < row.id
    ensures UpTo(log + [row], start, done, last)
  {
  }

  lemma ClosedAppend(log: seq<AuditRow>, row: AuditRow, start: nat, done: set<nat>)
    requires Ascending(log) && Closed(log, start, done) && Newest(log) < row.id
    ensures Closed(log + [row], start, done)
  {
    hide UpTo;
    forall d: nat | d in done
      ensures start < d <= row.id && UpTo(log + [row], start, done, d)
    {
      UpToAppend(log, row, start, done, d);
    }
  }

  lemma NextRowsAppend(log: seq<AuditRow>, row: AuditRow, at: nat, rows: seq<AuditRow>)
    requires Ascending(log) && Newest(log) < row.id && at <= Newest(log) && NextRows(log, at, rows)
    ensures NextRows(log + [row], at, rows)
  {
    NewestBounds(log);
    BehindAppend(log, row, at);
    hide Behind;
    assert Owed(log + [row], at) == Owed(log, at) + [row];
  }

  lemma AppendPhase(s: Queue, row: AuditRow)
    requires Good(s) && Newest(s.log) < row.id
    ensures GoodPhase(s.(log := s.log + [row]))
  {
    hide UpTo, NextRows, Closed;
    match s.phase
    case Idle =>
    case Placing(_) =>
    case Fetching(_) =>
    case Fetched(at, rows) => NextRowsAppend(s.log, row, at, rows);
    case Sending(at, rows, _) =>
      NextRowsAppend(s.log, row, at, rows);
      UpToAppend(s.log, row, s.start, Done(s), at);
  }

  lemma AppendGood(s: Queue, row: AuditRow)
    requires Good(s) && Newest(s.log) < row.id
    ensures Good(s.(log := s.log + [row]))
  {
    var t := s.(log := s.log + [row]);
    AppendPhase(s, row);
    ClosedAppend(s.log, row, s.start, Done(s));
    NewestBounds(s.log);
    if s.cursor.Some? {
      UpToAppend(s.log, row, s.start, Done(s), s.cursor.value);
    }
    PassedAppend(s, row);
    hide UpTo, Closed, NextRows, GoodPhase;
  }

  lemma PassedAppend(s: Queue, row: AuditRow)
    requires Good(s) && Newest(s.log) < row.id
    ensures GoodPassed(s.(log := s.log + [row]))
  {
    hide UpTo, NextRows, GoodPhase, GoodCursor;
    var t := s.(log := s.log + [row]);
    assert row.id !in Done(s);
    forall i | 0 <= i < |t.log| && t.log[i].id in t.passed
      ensures !AlwaysForwarded(t.log[i])
    {
      if i < |s.log| {
        assert t.log[i] == s.log[i];
      }
    }
  }

  /** The front row in memory is the next one of the log. */
  lemma FrontRow(log: seq<AuditRow>, at: nat, rows: seq<AuditRow>)
    requires Ascending(log) && rows != [] && NextRows(log, at, rows)
    ensures var n := Behind(log, at);
      && n < |log| && rows[0] == log[n] && at < rows[0].id <= Newest(log)
      && Behind(log, rows[0].id) == n + 1 && NextRows(log, rows[0].id, rows[1..])
  {
    hide Behind, Newest;
    var n, row := Behind(log, at), rows[0];
    assert row == Owed(log, at)[0] == log[n];
    NewestBounds(log);
    assert forall i :: 0 <= i < n + 1 ==> log[i].id <= row.id;
    BehindIs(log, row.id, n + 1);
    hide Ascending;
    OneFewer(log, n, rows);
  }

  lemma OneFewer(log: seq<AuditRow>, n: nat, rows: seq<AuditRow>)
    requires n < |log| && rows != [] && rows <= log[n..]
    ensures rows[1..] <= log[n + 1..]
  {
    assert log[n..][1..] == log[n + 1..];
  }

  lemma OneMoreDone(log: seq<AuditRow>, start: nat, done: set<nat>, at: nat, rows: seq<AuditRow>)
    requires Ascending(log) && rows != [] && NextRows(log, at, rows) && start <= at
    requires UpTo(log, start, done, at) && Closed(log, start, done)
    ensures UpTo(log, start, done + {rows[0].id}, rows[0].id)
    ensures Closed(log, start, done + {rows[0].id})
  {
    FrontRow(log, at, rows);
    var n, id := Behind(log, at), rows[0].id;
    forall i | 0 <= i < |log| && start < log[i].id <= id
      ensures log[i].id in done + {id}
    {
      BehindMeans(log, id, i);
      if i < n {
        assert log[i].id <= at;
      }
    }
    MoreUpTo(log, start, done, done + {id});
    hide UpTo;
  }

  lemma MoreUpTo(log: seq<AuditRow>, start: nat, done: set<nat>, more: set<nat>)
    requires done <= more
    ensures forall last: nat :: UpTo(log, start, done, last) ==> UpTo(log, start, more, last)
  {
  }

  lemma HandleDone(s: Queue, t: Queue, row: AuditRow)
    requires Good(s) && s.phase.Sending? && s.phase.rows != [] && row == s.phase.rows[0]
    requires t.log == s.log && t.start == s.start && t.cursor == s.cursor && Done(t) == Done(s) + {row.id}
    requires t.phase == Sending(row.id, s.phase.rows[1..], s.phase.forwarding)
             || t.phase == Sending(s.phase.at, [], s.phase.forwarding)
    ensures GoodCursor(t) && GoodPhase(t) && Closed(t.log, t.start, Done(t))
  {
    hide *;
    SendingIs(s);
    FrontRow(s.log, s.phase.at, s.phase.rows);
    OneMoreDone(s.log, s.start, Done(s), s.phase.at, s.phase.rows);
    MoreUpTo(s.log, s.start, Done(s), Done(t));
    NoRowsNext(s.log, s.phase.at);
    GoodIntro(t);
  }

  lemma SendingIs(s: Queue)
    requires Good(s) && s.phase.Sending?
    ensures Ascending(s.log) && NextRows(s.log, s.phase.at, s.phase.rows) && Closed(s.log, s.start, Done(s))
    ensures s.cursor.Some? && s.start <= s.cursor.value <= s.phase.at <= Newest(s.log)
    ensures UpTo(s.log, s.start, Done(s), s.cursor.value) && UpTo(s.log, s.start, Done(s), s.phase.at)
  {
    hide Ascending, NextRows, Closed, UpTo, Done, Newest, GoodPassed;
  }

  lemma GoodIntro(s: Queue)
    requires s.phase.Sending? && s.cursor.Some? && s.start <= s.cursor.value <= s.phase.at <= Newest(s.log)
    requires NextRows(s.log, s.phase.at, s.phase.rows)
    requires UpTo(s.log, s.start, Done(s), s.cursor.value) && UpTo(s.log, s.start, Done(s), s.phase.at)
    ensures GoodCursor(s) && GoodPhase(s)
  {
    hide NextRows, UpTo, Done, Newest;
  }

  lemma PassedMay(s: Queue, row: AuditRow)
    requires Ascending(s.log) && GoodPassed(s) && row in s.log && !AlwaysForwarded(row)
    ensures GoodPassed(s.(passed := s.passed + {row.id}))
  {
    var k :| 0 <= k < |s.log| && s.log[k] == row;
    forall i | 0 <= i < |s.log| && i != k
      ensures s.log[i].id != row.id
    {
      if i < k {
        assert s.log[i].id < s.log[k].id;
      } else {
        assert s.log[k].id < s.log[i].id;
      }
    }
  }

  lemma HandleGood(s: Queue, outcome: Outcome)
    requires Good(s) && s.phase.Sending? && s.phase.rows != []
    ensures Good(Next(s, HandleRow(outcome)))
  {
    hide *;
    var row := s.phase.rows[0];
    if !s.phase.forwarding && !AlwaysForwarded(row) {
      PassedGood(s, outcome);
    } else if outcome == NotTaken {
      NotTakenGood(s);
    } else {
      TakenGood(s, outcome);
    }
  }

  lemma PassedGood(s: Queue, outcome: Outcome)
    requires Good(s) && s.phase.Sending? && s.phase.rows != []
    requires !s.phase.forwarding && !AlwaysForwarded(s.phase.rows[0])
    ensures Good(Next(s, HandleRow(outcome)))
  {
    hide UpTo, NextRows, Closed, GoodPhase, GoodCursor, GoodPassed, Behind, AlwaysForwarded;
    var t, row := Next(s, HandleRow(outcome)), s.phase.rows[0];
    SendingIs(s);
    FrontRow(s.log, s.phase.at, s.phase.rows);
    assert Done(t) == Done(s) + {row.id};
    HandleDone(s, t, row);
    PassedMay(s, row);
    PassedOnly(s.(passed := s.passed + {row.id}), t);
  }

  lemma PassedOnly(s: Queue, t: Queue)
    requires s.log == t.log && s.passed == t.passed && GoodPassed(s)
    ensures GoodPassed(t)
  {
  }

  lemma NotTakenGood(s: Queue)
    requires Good(s) && s.phase.Sending? && s.phase.rows != []
    requires s.phase.forwarding || AlwaysForwarded(s.phase.rows[0])
    ensures Good(Next(s, HandleRow(NotTaken)))
  {
    hide UpTo, NextRows, Closed, Ascending, AlwaysForwarded;
    NoRowsNext(s.log, s.phase.at);
  }

  lemma TakenGood(s: Queue, outcome: Outcome)
    requires Good(s) && s.phase.Sending? && s.phase.rows != [] && outcome != NotTaken
    requires s.phase.forwarding || AlwaysForwarded(s.phase.rows[0])
    ensures Good(Next(s, HandleRow(outcome)))
  {
    hide UpTo, NextRows, Closed, GoodPhase, GoodCursor, GoodPassed, Ascending, AlwaysForwarded;
    var t, row := Next(s, HandleRow(outcome)), s.phase.rows[0];
    assert Done(t) == Done(s) + {row.id};
    HandleDone(s, t, row);
    PassedOnly(s, t);
  }

  lemma NoRowsNext(log: seq<AuditRow>, at: nat)
    ensures NextRows(log, at, [])
  {
  }

  lemma FirstOfIsPrefix(rows: seq<AuditRow>, limit: nat)
    ensures FirstOf(rows, limit) <= rows
  {
  }

  lemma StepGood(s: Queue, step: Step)
    requires Good(s)
    ensures Good(Next(s, step))
  {
    hide UpTo, Closed, NextRows, Owed;
    match step
    case Append(row) =>
      if Newest(s.log) < row.id {
        AppendGood(s, row);
        hide GoodPhase, GoodCursor, GoodPassed;
      }
    case Switch(_) => assert Done(Next(s, step)) == Done(s);
    case Begin => assert Done(Next(s, step)) == Done(s);
    case Place => PlaceGood(s); hide Good;
    case Fetch => FetchGood(s); hide Good;
    case ReadSwitch => assert Done(Next(s, step)) == Done(s);
    case HandleRow(outcome) =>
      if s.phase.Sending? && s.phase.rows != [] {
        HandleGood(s, outcome);
        hide Good;
      }
    case WriteCursor(_) => assert Done(Next(s, step)) == Done(s);
    case Crash => assert Done(Next(s, step)) == Done(s);
  }

  lemma PlaceGood(s: Queue)
    requires Good(s)
    ensures Good(Next(s, Place))
  {
    var t := Next(s, Place);
    assert Done(t) == Done(s);
  }

  lemma FetchGood(s: Queue)
    requires Good(s)
    ensures Good(Next(s, Fetch))
  {
    hide UpTo, Closed, Behind;
    assert Done(Next(s, Fetch)) == Done(s);
    if s.phase.Fetching? {
      FirstOfIsPrefix(Owed(s.log, s.phase.at), BATCH);
    }
  }

  lemma {:induction false} RunGood(s: Queue, steps: seq<Step>)
    requires Good(s)
    ensures Good(Run(s, steps))
  {
    hide Next, Good;
    if steps != [] {
      RunGood(s, steps[..|steps| - 1]);
      StepGood(Run(s, steps[..|steps| - 1]), steps[|steps| - 1]);
    }
  }

  lemma InitialGood(s: Queue)
    requires Initial(s)
    ensures Good(s)
  {
    assert Done(s) == {};
  }

  /** Over every interleaving, the stored cursor has no hole behind it: each row
      between the placement and the cursor reached the receiver, or was passed over
      with the switch off, and a row that is always forwarded reached it. */
  lemma NoHole(s: Queue, steps: seq<Step>, i: nat)
    requires Initial(s)
    requires i < |Run(s, steps).log| && Run(s, steps).cursor.Some?
    requires var t := Run(s, steps); t.start < t.log[i].id <= t.cursor.value
    ensures var t := Run(s, steps);
            t.log[i].id in t.delivered || (t.log[i].id in t.passed && !AlwaysForwarded(t.log[i]))
  {
    hide Run, GoodPhase, Closed;
    InitialGood(s);
    RunGood(s, steps);
    assert Run(s, steps).log[i].id in Done(Run(s, steps));
  }

  /** The stored cursor and the placement never move back, and the log, the
      deliveries and the rows passed over only grow. */
  lemma NeverBack(s: Queue, step: Step)
    requires Good(s)
    ensures var t := Next(s, step);
      && (s.cursor.Some? ==> t.cursor.Some? && s.cursor.value <= t.cursor.value && t.start == s.start)
      && s.log <= t.log && s.delivered <= t.delivered && s.passed <= t.passed
  {
    hide After, UpTo, Closed, NextRows;
  }

  lemma {:induction false} NeverBackOverRuns(s: Queue, steps: seq<Step>, k: nat)
    requires Good(s) && k <= |steps|
    ensures var t, u := Run(s, steps[..k]), Run(s, steps);
      && (t.cursor.Some? ==> u.cursor.Some? && t.cursor.value <= u.cursor.value && u.start == t.start)
      && t.log <= u.log && t.delivered <= u.delivered && t.passed <= u.passed
  {
    hide Next, Good;
    if k < |steps| {
      var most := steps[..|steps| - 1];
      NeverBackOverRuns(s, most, k);
      assert most[..k] == steps[..k];
      RunGood(s, most);
      NeverBack(Run(s, most), steps[|steps| - 1]);
    } else {
      assert steps[..k] == steps;
    }
  }

  // ----- the order of first deliveries -----

  /** An identifier that comes for the first time is larger than all before it. */
  predicate FirstInOrder(ids: seq<nat>) {
    ids != [] ==>
      var before, last := ids[..|ids| - 1], ids[|ids| - 1];
      FirstInOrder(before) && (last in before || forall d :: d in before ==> d < last)
  }

  lemma OneMoreId(ids: seq<nat>, id: nat)
    requires FirstInOrder(ids)
    ensures FirstInOrder(ids + [id]) <==> id in ids || forall d :: d in ids ==> d < id
  {
    assert (ids + [id])[..|ids + [id]| - 1] == ids;
  }

  /** The step hands the row at the front of memory to the receiver. */
  predicate Delivers(s: Queue, step: Step) {
    && step.HandleRow? && !step.outcome.NotTaken?
    && s.phase.Sending? && s.phase.rows != []
    && (s.phase.forwarding || AlwaysForwarded(s.phase.rows[0]))
  }

  /** The next delivery is the first of a row that was passed over before, while a
      later row already went out. */
  predicate Overtaken(s: Queue)
    requires s.phase.Sending? && s.phase.rows != []
  {
    var id := s.phase.rows[0].id;
    id in s.passed && id !in s.delivered && exists d :: d in s.delivered && id < d
  }

  /** A row that was not sent while a later one was has been passed over. */
  lemma UnsentWasPassed(s: Queue, d: nat)
    requires Good(s) && s.phase.Sending? && s.phase.rows != []
    requires d in s.delivered && s.phase.rows[0].id < d
    ensures s.phase.rows[0].id in Done(s)
  {
    hide GoodPassed, Behind;
    FrontRow(s.log, s.phase.at, s.phase.rows);
    assert d in Done(s);
    assert UpTo(s.log, s.start, Done(s), d);
  }

  /** A delivery keeps the order of first deliveries exactly when the row was not
      overtaken. */
  lemma OrderKeptIff(s: Queue, step: Step)
    requires Good(s) && FirstInOrder(s.delivered)
    ensures !Delivers(s, step) ==> FirstInOrder(Next(s, step).delivered)
    ensures Delivers(s, step) ==> (FirstInOrder(Next(s, step).delivered) <==> !Overtaken(s))
  {
    hide After, Good, FirstInOrder;
    if Delivers(s, step) {
      var id := s.phase.rows[0].id;
      OneMoreId(s.delivered, id);
      forall d | d in s.delivered && id <= d && id !in s.delivered
        ensures id in s.passed && id < d
      {
        UnsentWasPassed(s, d);
      }
    }
  }

  /** The switch is not turned on while it is off. */
  predicate NeverResumed(s: Queue, steps: seq<Step>) {
    forall k :: 0 <= k < |steps| ==> steps[k] != Switch(true) || Run(s, steps[..k]).mirror
  }

  /** Nothing was passed over yet, or nothing is forwarded any more but what always
      is. */
  predicate OneWay(s: Queue) {
    && (s.mirror ==> s.passed == {} && (s.phase.Sending? ==> s.phase.forwarding))
    && (s.phase.Sending? && s.phase.forwarding ==> s.passed == {})
  }

  lemma OneWayStep(s: Queue, step: Step)
    requires Good(s) && OneWay(s) && FirstInOrder(s.delivered)
    requires step == Switch(true) ==> s.mirror
    ensures OneWay(Next(s, step)) && FirstInOrder(Next(s, step).delivered)
  {
    hide After, Good, FirstInOrder;
    OrderKeptIff(s, step);
    if Delivers(s, step) {
      NotOvertaken(s);
    }
  }

  lemma NotOvertaken(s: Queue)
    requires Good(s) && OneWay(s) && s.phase.Sending? && s.phase.rows != []
    requires s.phase.forwarding || AlwaysForwarded(s.phase.rows[0])
    ensures !Overtaken(s)
  {
    hide UpTo, Closed, GoodCursor, Behind;
    FrontRow(s.log, s.phase.at, s.phase.rows);
    var n := Behind(s.log, s.phase.at);
    assert s.log[n] == s.phase.rows[0];
  }

  /** When the switch is never turned back on, first deliveries happen in the order
      of the trail, whatever fails and however often the panel crashes. */
  lemma {:induction false} OrderedWhenNeverResumed(s: Queue, steps: seq<Step>)
    requires Initial(s) && NeverResumed(s, steps)
    ensures FirstInOrder(Run(s, steps).delivered) && OneWay(Run(s, steps))
  {
    hide Next, Good, FirstInOrder;
    InitialGood(s);
    if steps == [] {
      EmptyInOrder();
    } else {
      var most := steps[..|steps| - 1];
      assert forall k :: 0 <= k < |most| ==> most[k] == steps[k] && most[..k] == steps[..k];
      OrderedWhenNeverResumed(s, most);
      RunGood(s, most);
      OneWayStep(Run(s, most), steps[|steps| - 1]);
    }
  }

  lemma EmptyInOrder()
    ensures FirstInOrder([])
  {
  }

  // ----- what a lost cursor write can cost -----

  lemma RunMore(s: Queue, steps: seq<Step>, step: Step)
    ensures Run(s, steps + [step]) == Next(Run(s, steps), step)
  {
    hide Next;
    assert (steps + [step])[..|steps|] == steps;
  }

  lemma {:induction false} RunConcat(s: Queue, a: seq<Step>, b: seq<Step>)
    ensures Run(s, a + b) == Run(Run(s, a), b)
  {
    hide Next;
    if b == [] {
      assert a + b == a;
    } else {
      var most := b[..|b| - 1];
      RunConcat(s, a, most);
      assert a + b == (a + most) + [b[|b| - 1]];
      RunMore(s, a + most, b[|b| - 1]);
    }
  }

  /** The round in memory is gone before its cursor is stored. */
  predicate Loses(s: Queue, step: Step) {
    s.phase.Sending? && (step == Crash || (step == WriteCursor(false) && s.phase.rows == []))
  }

  /** No round in this run loses its cursor. */
  predicate Stored(s: Queue, steps: seq<Step>) {
    forall k :: 0 <= k < |steps| ==> !Loses(Run(s, steps[..k]), steps[k])
  }

  /** Past this point stands a row that was passed over and never sent, behind one that
      was sent. */
  predicate Exposed(s: Queue, from: int) {
    exists p | p in s.passed :: p !in s.delivered && from < p && exists d | d in s.delivered :: p < d
  }

  /** Where the next round would start reading. */
  function StoredAt(s: Queue): int {
    if s.cursor.Some? then s.cursor.value else -1
  }

  /** A row that the next round will fetch was passed over, never sent, and a later one
      was sent. */
  predicate AtRisk(s: Queue) {
    Exposed(s, StoredAt(s))
  }

  /** How far this round has come. */
  function Floor(s: Queue): int {
    if s.phase.Sending? then s.phase.at else StoredAt(s)
  }

  predicate Listed(s: Queue) {
    forall p | p in s.passed :: exists i :: 0 <= i < |s.log| && s.log[i].id == p
  }

  ghost predicate Safe(s: Queue) {
    Good(s) && Listed(s) && FirstInOrder(s.delivered) && !Exposed(s, Floor(s))
  }

  lemma ExposedIs(s: Queue, from: int)
    ensures Exposed(s, from) <==> exists p, d :: p in s.passed && p !in s.delivered && from < p && d in s.delivered && p < d
  {
  }

  lemma StepListed(s: Queue, step: Step)
    requires Good(s) && Listed(s)
    ensures Listed(Next(s, step))
  {
    hide UpTo, Closed, GoodCursor, GoodPassed, NextRows, Behind, After;
    var t := Next(s, step);
    if step.HandleRow? && s.phase.Sending? && s.phase.rows != [] {
      FrontRow(s.log, s.phase.at, s.phase.rows);
    }
    hide Good;
    assert s.log <= t.log;
    forall p | p in t.passed
      ensures exists i :: 0 <= i < |t.log| && t.log[i].id == p
    {
      if p in s.passed {
        var i :| 0 <= i < |s.log| && s.log[i].id == p;
        assert t.log[i].id == p;
      }
    }
  }

  /** A listed identifier past the cursor in memory is that of the front row or of a
      later one. */
  lemma NothingBetween(s: Queue, p: nat)
    requires Good(s) && Listed(s) && s.phase.Sending? && s.phase.rows != [] && p in s.passed && s.phase.at < p
    ensures s.phase.rows[0].id <= p
  {
    hide UpTo, Closed, GoodCursor, Behind;
    FrontRow(s.log, s.phase.at, s.phase.rows);
    var i :| 0 <= i < |s.log| && s.log[i].id == p;
    BehindMeans(s.log, s.phase.at, i);
    var n := Behind(s.log, s.phase.at);
    assert n < i ==> s.log[n].id < s.log[i].id;
  }

  /** A delivery in a safe state is in order. */
  lemma SafeDelivery(s: Queue, step: Step)
    requires Safe(s)
    ensures FirstInOrder(Next(s, step).delivered)
  {
    hide Next, Good, Exposed, FirstInOrder, Delivers;
    OrderKeptIff(s, step);
    DeliversIs(s, step);
    if Delivers(s, step) && Overtaken(s) {
      FrontIsAhead(s);
      ExposedIs(s, s.phase.at);
      FloorIs(s);
    }
  }

  lemma DeliversIs(s: Queue, step: Step)
    ensures Delivers(s, step) ==> s.phase.Sending? && s.phase.rows != []
  {
  }

  lemma FloorIs(s: Queue)
    ensures s.phase.Sending? ==> Floor(s) == s.phase.at
    ensures !s.phase.Sending? ==> Floor(s) == StoredAt(s)
  {
  }

  lemma FrontIsAhead(s: Queue)
    requires Good(s) && s.phase.Sending? && s.phase.rows != []
    ensures s.phase.at < s.phase.rows[0].id
  {
    FrontRow(s.log, s.phase.at, s.phase.rows);
  }

  /** One row handled leaves nothing exposed that was not. */
  lemma HandleExposes(s: Queue, outcome: Outcome)
    requires Good(s) && Listed(s) && s.phase.Sending? && s.phase.rows != [] && !Exposed(s, s.phase.at)
    ensures var t := Next(s, HandleRow(outcome)); t.phase.Sending? && !Exposed(t, t.phase.at)
  {
    hide Good, Listed, Exposed;
    var t, id := Next(s, HandleRow(outcome)), s.phase.rows[0].id;
    FrontIsAhead(s);
    ExposedIs(s, s.phase.at);
    ExposedIs(t, t.phase.at);
    forall p, d | p in t.passed && p !in t.delivered && t.phase.at < p && d in t.delivered
      ensures d <= p
    {
      if p in s.passed {
        NothingBetween(s, p);
      }
    }
  }

  lemma SafeStep(s: Queue, step: Step)
    requires Safe(s)
    requires Loses(s, step) ==> !AtRisk(Next(s, step))
    ensures Safe(Next(s, step))
  {
    StepGood(s, step);
    StepListed(s, step);
    SafeDelivery(s, step);
    if step.HandleRow? && s.phase.Sending? && s.phase.rows != [] {
      HandleExposes(s, step.outcome);
      hide *;
      FloorIs(s);
      FloorIs(Next(s, step));
      SafeParts(s);
      SafeParts(Next(s, step));
    } else {
      StillSafe(s, step);
      hide *;
      SafeParts(s);
      SafeParts(Next(s, step));
    }
  }

  lemma SafeParts(s: Queue)
    ensures Safe(s) <==> Good(s) && Listed(s) && FirstInOrder(s.delivered) && !Exposed(s, Floor(s))
  {
    hide Good, Listed, FirstInOrder, Exposed, Floor;
  }

  lemma StillSafe(s: Queue, step: Step)
    requires Good(s) && !Exposed(s, Floor(s))
    requires !(step.HandleRow? && s.phase.Sending? && s.phase.rows != [])
    requires Loses(s, step) ==> !AtRisk(Next(s, step))
    ensures !Exposed(Next(s, step), Floor(Next(s, step)))
  {
    hide UpTo, Closed, NextRows, After, Exposed, GoodPassed;
    var t := Next(s, step);
    SameExposed(s, t, Floor(s));
    if Loses(s, step) {
      FloorIs(t);
    } else if step == Place && s.phase.Placing? {
      NothingPassed(s, t);
    } else {
      assert Floor(t) == Floor(s);
    }
  }

  lemma SameExposed(s: Queue, t: Queue, from: int)
    requires t.passed == s.passed && t.delivered == s.delivered
    ensures Exposed(t, from) <==> Exposed(s, from)
  {
  }

  lemma NothingPassed(s: Queue, t: Queue)
    requires Done(s) == {} && t.passed == s.passed
    ensures !Exposed(t, Floor(t))
  {
  }

  /** From any start, first deliveries stay in the order of the trail, the switch turned
      off and on as it may be, as long as no round that loses its cursor leaves a row at
      risk. */
  lemma {:induction false} OrderedUnlessAtRisk(s: Queue, steps: seq<Step>)
    requires Initial(s)
    requires forall k :: 0 <= k < |steps| && Loses(Run(s, steps[..k]), steps[k]) ==> !AtRisk(Run(s, steps[..k + 1]))
    ensures Safe(Run(s, steps)) && FirstInOrder(Run(s, steps).delivered)
  {
    hide Next, Good, FirstInOrder, Loses, AtRisk, Exposed, Listed;
    if steps == [] {
      InitialSafe(s);
    } else {
      var most, last := steps[..|steps| - 1], |steps| - 1;
      forall k | 0 <= k < |most| && Loses(Run(s, most[..k]), most[k])
        ensures !AtRisk(Run(s, most[..k + 1]))
      {
        assert most[..k] == steps[..k] && most[..k + 1] == steps[..k + 1];
      }
      OrderedUnlessAtRisk(s, most);
      assert steps[..last + 1] == steps;
      SafeStep(Run(s, most), steps[last]);
    }
  }

  lemma InitialSafe(s: Queue)
    requires Initial(s)
    ensures Safe(s)
  {
    InitialGood(s);
    EmptyInOrder();
    hide Good;
  }

  /** In particular while every round stores its cursor. */
  lemma OrderedWhenStored(s: Queue, steps: seq<Step>)
    requires Initial(s) && Stored(s, steps)
    ensures FirstInOrder(Run(s, steps).delivered)
  {
    hide Run, Next, Loses, AtRisk, FirstInOrder, Initial;
    OrderedUnlessAtRisk(s, steps);
  }

  // ----- and what does cost it -----

  lemma {:induction false} SafeRun(s: Queue, steps: seq<Step>)
    requires Safe(s) && Stored(s, steps)
    ensures Safe(Run(s, steps))
  {
    hide Next, Safe, Loses, AtRisk;
    if steps != [] {
      var most := steps[..|steps| - 1];
      assert forall k :: 0 <= k < |most| ==> most[k] == steps[k] && most[..k] == steps[..k];
      SafeRun(s, most);
      SafeStep(Run(s, most), steps[|steps| - 1]);
    }
  }

  /** A round with the switch on that sends one row and stores its cursor. */
  const ROUND := [Switch(true), Begin, Fetch, ReadSwitch, HandleRow(Taken), HandleRow(NotTaken), WriteCursor(true)]

  lemma StoredMore(s: Queue, steps: seq<Step>, step: Step)
    requires Stored(s, steps) && !Loses(Run(s, steps), step)
    ensures Stored(s, steps + [step])
  {
    hide Run, Loses;
    var more := steps + [step];
    forall k | 0 <= k < |more|
      ensures !Loses(Run(s, more[..k]), more[k])
    {
      assert more[..k] == steps[..k];
      assert k == |steps| ==> more[..k] == steps;
    }
  }

  lemma StoredConcat(s: Queue, a: seq<Step>, b: seq<Step>)
    requires Stored(s, a) && Stored(Run(s, a), b)
    ensures Stored(s, a + b)
  {
    hide Run, Loses;
    forall k | 0 <= k < |a + b|
      ensures !Loses(Run(s, (a + b)[..k]), (a + b)[k])
    {
      if k < |a| {
        assert (a + b)[..k] == a[..k];
      } else {
        assert (a + b)[..k] == a + b[..k - |a|];
        RunConcat(s, a, b[..k - |a|]);
      }
    }
  }

  lemma OneRow(s: Queue)
    requires Good(s) && s.phase == Idle && s.cursor.Some? && Behind(s.log, s.cursor.value) < |s.log|
    ensures var row := s.log[Behind(s.log, s.cursor.value)];
            Run(s, ROUND) == s.(mirror := true, cursor := Some(row.id), delivered := s.delivered + [row.id])
    ensures Stored(s, ROUND)
  {
    var c := s.cursor.value;
    var rows, row := After(s.log, c, BATCH), s.log[Behind(s.log, c)];
    FrontOfBatch(s.log, c);
    hide *;
    RoundSteps(s, c, rows, row);
  }

  lemma RoundSteps(s: Queue, c: nat, rows: seq<AuditRow>, row: AuditRow)
    requires s.phase == Idle && s.cursor == Some(c)
    requires rows == After(s.log, c, BATCH) && rows != [] && rows[0] == row && c < row.id
    ensures Run(s, ROUND) == s.(mirror := true, cursor := Some(row.id), delivered := s.delivered + [row.id])
    ensures Stored(s, ROUND)
  {
    hide Run, After, Stored, AlwaysForwarded;
    var s1 := s.(mirror := true);
    var s2 := s1.(phase := Fetching(c));
    var s3 := s1.(phase := Fetched(c, rows));
    var s4 := s1.(phase := Sending(c, rows, true));
    var s5 := s1.(phase := Sending(row.id, rows[1..], true), delivered := s.delivered + [row.id]);
    var s6 := s5.(phase := Sending(row.id, [], true));
    var s7 := s1.(cursor := Some(row.id), delivered := s.delivered + [row.id]);
    assert Next(s, Switch(true)) == s1 && Next(s1, Begin) == s2;
    assert Next(s2, Fetch) == s3 && Next(s3, ReadSwitch) == s4;
    assert Next(s4, HandleRow(Taken)) == s5;
    assert Next(s5, HandleRow(NotTaken)) == s6;
    assert Next(s6, WriteCursor(true)) == s7;
    Unwind(s, s1, s2, s3, s4, s5, s6, s7);
  }

  lemma Unwind(s: Queue, s1: Queue, s2: Queue, s3: Queue, s4: Queue, s5: Queue, s6: Queue, s7: Queue)
    requires Next(s, Switch(true)) == s1 && Next(s1, Begin) == s2 && Next(s2, Fetch) == s3 && Next(s3, ReadSwitch) == s4
    requires Next(s4, HandleRow(Taken)) == s5 && Next(s5, HandleRow(NotTaken)) == s6 && Next(s6, WriteCursor(true)) == s7
    ensures Run(s, ROUND) == s7 && Stored(s, ROUND)
  {
    hide Next, Run, Stored;
    var r0: seq<Step> := [];
    RunNone(s);
    var r1 := Advance(s, r0, Switch(true), s);
    var r2 := Advance(s, r1, Begin, s1);
    var r3 := Advance(s, r2, Fetch, s2);
    var r4 := Advance(s, r3, ReadSwitch, s3);
    var r5 := Advance(s, r4, HandleRow(Taken), s4);
    var r6 := Advance(s, r5, HandleRow(NotTaken), s5);
    var r7 := Advance(s, r6, WriteCursor(true), s6);
    assert r7 == ROUND;
  }

  lemma RunNone(s: Queue)
    ensures Run(s, []) == s && Stored(s, [])
  {
  }

  /** One harmless step at the end of a run. */
  lemma Advance(s: Queue, steps: seq<Step>, step: Step, t: Queue) returns (more: seq<Step>)
    requires Run(s, steps) == t && Stored(s, steps) && step != Crash && step != WriteCursor(false)
    ensures more == steps + [step] && Run(s, more) == Next(t, step) && Stored(s, more)
  {
    hide Next, Run, Stored;
    more := steps + [step];
    RunMore(s, steps, step);
    StoredMore(s, steps, step);
  }

  lemma FrontOfBatch(log: seq<AuditRow>, at: nat)
    requires Ascending(log) && Behind(log, at) < |log|
    ensures var rows := After(log, at, BATCH); rows != [] && rows[0] == log[Behind(log, at)] && at < rows[0].id
  {
    assert Owed(log, at)[0] == log[Behind(log, at)];
  }

  lemma {:induction false} BrokenStays(ids: seq<nat>, more: seq<nat>)
    requires !FirstInOrder(ids)
    ensures !FirstInOrder(ids + more)
    decreases |more|
  {
    if more == [] {
      assert ids + more == ids;
    } else {
      BrokenStays(ids, more[..|more| - 1]);
      assert (ids + more)[..|ids + more| - 1] == ids + more[..|more| - 1];
    }
  }

  lemma LateBreaks(ids: seq<nat>, p: nat, d: nat)
    requires d in ids && p < d && p !in ids
    ensures !FirstInOrder(ids + [p])
  {
    if FirstInOrder(ids) {
      OneMoreId(ids, p);
    } else {
      BrokenStays(ids, [p]);
    }
  }

  /** From a state at risk, rounds with the switch on that store their cursors reach the
      row that was passed over, and send it late. */
  lemma {:induction false} RowGoesLate(s: Queue, i: nat, d: nat) returns (steps: seq<Step>)
    requires Good(s) && s.phase == Idle && s.cursor.Some? && i < |s.log|
    requires s.cursor.value < s.log[i].id < d && d in s.delivered && s.log[i].id !in s.delivered
    ensures Stored(s, steps) && !FirstInOrder(Run(s, steps).delivered)
    decreases i - Behind(s.log, s.cursor.value)
  {
    var n := Behind(s.log, s.cursor.value);
    BehindMeans(s.log, s.cursor.value, i);
    OneRow(s);
    var t := Run(s, ROUND);
    RunGood(s, ROUND);
    hide Run, Stored, Behind, FirstInOrder, UpTo, Closed, GoodPassed, GoodCursor;
    if n == i {
      LateBreaks(s.delivered, s.log[i].id, d);
      steps := ROUND;
    } else {
      assert s.log[n].id < s.log[i].id;
      OneBehind(s.log, s.cursor.value);
      assert d in t.delivered;
      var rest := RowGoesLate(t, i, d);
      StoredConcat(s, ROUND, rest);
      RunConcat(s, ROUND, rest);
      steps := ROUND + rest;
    }
  }

  lemma OneBehind(log: seq<AuditRow>, at: nat)
    requires Ascending(log) && Behind(log, at) < |log|
    ensures Behind(log, log[Behind(log, at)].id) == Behind(log, at) + 1
  {
    var n := Behind(log, at);
    BehindIs(log, log[n].id, n + 1);
  }

  /** Between two rounds, with the order kept so far, some continuation in which every
      round stores its cursor breaks the order exactly when a row is at risk. */
  lemma OrderBreaksIff(s: Queue, past: seq<Step>)
    requires Initial(s) && Run(s, past).phase == Idle && FirstInOrder(Run(s, past).delivered)
    ensures var t := Run(s, past);
            (exists steps :: Stored(t, steps) && !FirstInOrder(Run(t, steps).delivered)) <==> AtRisk(t)
  {
    hide Next, Run, Stored, FirstInOrder, Good, Exposed, Listed;
    var t := Run(s, past);
    ReachedIsListed(s, past);
    SafeParts(t);
    FloorIs(t);
    if AtRisk(t) {
      var i, d := RiskyRow(t);
      var steps := RowGoesLate(t, i, d);
      assert Stored(t, steps);
    } else {
      forall steps | Stored(t, steps)
        ensures FirstInOrder(Run(t, steps).delivered)
      {
        SafeRun(t, steps);
        SafeParts(Run(t, steps));
      }
    }
  }

  lemma {:induction false} ReachedIsListed(s: Queue, steps: seq<Step>)
    requires Initial(s)
    ensures Good(Run(s, steps)) && Listed(Run(s, steps))
  {
    hide Next, Good, Listed;
    InitialGood(s);
    if steps == [] {
      NothingListed(s);
    } else {
      ReachedIsListed(s, steps[..|steps| - 1]);
      StepGood(Run(s, steps[..|steps| - 1]), steps[|steps| - 1]);
      StepListed(Run(s, steps[..|steps| - 1]), steps[|steps| - 1]);
    }
  }

  lemma NothingListed(s: Queue)
    requires Initial(s)
    ensures Listed(s)
  {
  }

  lemma RiskyRow(t: Queue) returns (i: nat, d: nat)
    requires Good(t) && Listed(t) && AtRisk(t)
    ensures t.cursor.Some? && i < |t.log| && t.cursor.value < t.log[i].id < d && d in t.delivered && t.log[i].id !in t.delivered
  {
    hide UpTo, Closed, GoodPhase, GoodPassed;
    ExposedIs(t, StoredAt(t));
    var p, e :| p in t.passed && p !in t.delivered && StoredAt(t) < p && e in t.delivered && p < e;
    assert t.cursor == None ==> p in Done(t);
    i :| 0 <= i < |t.log| && t.log[i].id == p;
    d := e;
  }

  // ----- a run that breaks it -----

  const EMPTY := Queue([], None, false, Idle, 0, [], {})
  const ONE := AuditRow(1, OtherAction)
  const TWO := AuditRow(2, SiemConfig)

  lemma RunThree(s: Queue, a: Step, b: Step, c: Step)
    ensures Run(s, [a, b, c]) == Next(Next(Next(s, a), b), c)
  {
    hide Next;
    assert [a, b, c] == [a, b] + [c] && [a, b] == [a] + [b] && [a] == [] + [a];
    RunMore(s, [], a);
    RunMore(s, [a], b);
    RunMore(s, [a, b], c);
  }

  lemma TwoRowsCome()
    ensures Run(EMPTY, [Begin, Place, Append(ONE)]) == Queue([ONE], Some(0), false, Fetching(0), 0, [], {})
    ensures Run(Queue([ONE], Some(0), false, Fetching(0), 0, [], {}), [Append(TWO), Fetch, ReadSwitch])
            == Queue([ONE, TWO], Some(0), false, Sending(0, [ONE, TWO], false), 0, [], {})
  {
    hide Run, After;
    BothOwed([ONE, TWO]);
    RunThree(EMPTY, Begin, Place, Append(ONE));
    RunThree(Queue([ONE], Some(0), false, Fetching(0), 0, [], {}), Append(TWO), Fetch, ReadSwitch);
    assert [] + [ONE] == [ONE] && [ONE] + [TWO] == [ONE, TWO];
  }

  lemma SecondIsSentAndLost()
    ensures Run(Queue([ONE, TWO], Some(0), false, Sending(0, [ONE, TWO], false), 0, [], {}),
                [HandleRow(Taken), HandleRow(Taken), Crash])
            == Queue([ONE, TWO], Some(0), false, Idle, 0, [2], {1})
  {
    hide Run;
    assert [ONE, TWO][1..] == [TWO];
    RunThree(Queue([ONE, TWO], Some(0), false, Sending(0, [ONE, TWO], false), 0, [], {}),
             HandleRow(Taken), HandleRow(Taken), Crash);
  }

  lemma FirstIsSentLast()
    ensures Run(Queue([ONE, TWO], Some(0), false, Idle, 0, [2], {1}), [Switch(true), Begin, Fetch])
            == Queue([ONE, TWO], Some(0), true, Fetched(0, [ONE, TWO]), 0, [2], {1})
    ensures Run(Queue([ONE, TWO], Some(0), true, Fetched(0, [ONE, TWO]), 0, [2], {1}),
                [ReadSwitch, HandleRow(Taken), Append(ONE)])
            .delivered == [2, 1]
  {
    hide Run, After;
    BothOwed([ONE, TWO]);
    RunThree(Queue([ONE, TWO], Some(0), false, Idle, 0, [2], {1}), Switch(true), Begin, Fetch);
    RunThree(Queue([ONE, TWO], Some(0), true, Fetched(0, [ONE, TWO]), 0, [2], {1}), ReadSwitch, HandleRow(Taken), Append(ONE));
    assert [2] + [1] == [2, 1];
  }

  /** Row one is passed over with the switch off, row two, which is always forwarded, is
      sent, and the panel is gone before the cursor is written. The next round, with the
      switch on, sends row one for the first time. */
  const RESUMED := [Begin, Place, Append(ONE), Append(TWO), Fetch, ReadSwitch, HandleRow(Taken), HandleRow(Taken), Crash,
                    Switch(true), Begin, Fetch, ReadSwitch, HandleRow(Taken), Append(ONE)]

  lemma ResumedOutOfOrder()
    ensures Initial(EMPTY) && Run(EMPTY, RESUMED).delivered == [2, 1] && !FirstInOrder([2, 1])
    ensures AtRisk(Run(EMPTY, RESUMED[..9]))
  {
    hide Run, FirstInOrder, Next;
    var r1, r2 := [Begin, Place, Append(ONE)], [Append(TWO), Fetch, ReadSwitch];
    var r3, r4 := [HandleRow(Taken), HandleRow(Taken), Crash], [Switch(true), Begin, Fetch];
    var r5 := [ReadSwitch, HandleRow(Taken), Append(ONE)];
    TwoRowsCome();
    SecondIsSentAndLost();
    FirstIsSentLast();
    RunConcat(EMPTY, r1, r2);
    RunConcat(EMPTY, r1 + r2, r3);
    RunConcat(EMPTY, r1 + r2 + r3, r4);
    RunConcat(EMPTY, r1 + r2 + r3 + r4, r5);
    assert RESUMED == r1 + r2 + r3 + r4 + r5;
    assert RESUMED[..9] == r1 + r2 + r3;
    TwoThenOne();
    OneIsAtRisk();
  }

  lemma OneIsAtRisk()
    ensures AtRisk(Queue([ONE, TWO], Some(0), false, Idle, 0, [2], {1}))
  {
    ExposedIs(Queue([ONE, TWO], Some(0), false, Idle, 0, [2], {1}), 0);
    assert 2 in [2];
  }

  lemma BothOwed(log: seq<AuditRow>)
    requires log == [AuditRow(1, OtherAction), AuditRow(2, SiemConfig)]
    ensures After(log, 0, BATCH) == log
    ensures log[1..] == [AuditRow(2, SiemConfig)]
  {
    BehindIs(log, 0, 0);
  }

  lemma TwoThenOne()
    ensures !FirstInOrder([2, 1])
  {
    var ids: seq<nat> := [2, 1];
    assert ids[..1] == [2];
    assert 2 in ids[..1];
  }
}

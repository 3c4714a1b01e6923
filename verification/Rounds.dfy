/** The delivery loop and the delivery machine are one: a batch of the loop is a run of
    the machine. And what the switch alone decides, over every interleaving. */
module Rounds {
  import opened Platform
  import opened Delivery
  import opened Drain

  // ----- a batch is a run -----

  function StartOf(s: Queue): nat {
    if s.cursor.Some? then s.cursor.value else Newest(s.log)
  }

  function Placed(s: Queue): Queue {
    if s.cursor.Some? then s else s.(cursor := Some(Newest(s.log)), start := Newest(s.log))
  }

  function Opening(s: Queue): seq<Step> {
    if s.cursor.Some? then [Begin, Fetch] else [Begin, Place, Fetch]
  }

  /** The steps of one batch with nobody in between. */
  function BatchSteps(s: Queue, takes: AuditRow -> bool): seq<Step> {
    var rows := After(s.log, StartOf(s), BATCH);
    var n := Reach(rows, s.mirror, takes);
    Opening(s)
    + if rows == [] then []
      else [ReadSwitch] + seq(n, i => HandleRow(Taken)) + (if n < |rows| then [HandleRow(NotTaken)] else []) + [WriteCursor(true)]
  }

  function PassedIn(rows: seq<AuditRow>, forwarding: bool): set<nat> {
    set row | row in rows && !Goes(row, forwarding) :: row.id
  }

  lemma OpeningRun(s: Queue)
    requires s.phase == Idle
    ensures var rows := After(s.log, StartOf(s), BATCH);
            Run(s, Opening(s)) == Placed(s).(phase := if rows == [] then Idle else Fetched(StartOf(s), rows))
  {
    hide After, Newest, Next;
    OpeningSteps(s);
    RunOne(s, [], Begin);
    if s.cursor.Some? {
      RunOne(s, [Begin], Fetch);
      assert [] + [Begin] == [Begin] && [Begin] + [Fetch] == Opening(s);
    } else {
      RunOne(s, [Begin], Place);
      RunOne(s, [Begin, Place], Fetch);
      assert [] + [Begin] == [Begin] && [Begin] + [Place] == [Begin, Place] && [Begin, Place] + [Fetch] == Opening(s);
    }
  }

  lemma OpeningSteps(s: Queue)
    requires s.phase == Idle
    ensures var rows, at := After(s.log, StartOf(s), BATCH), StartOf(s);
            && (s.cursor.Some? ==> Next(s, Begin) == s.(phase := Fetching(at)))
            && (s.cursor.None? ==> Next(Next(s, Begin), Place) == Placed(s).(phase := Fetching(at)))
            && Next(Placed(s).(phase := Fetching(at)), Fetch)
               == Placed(s).(phase := if rows == [] then Idle else Fetched(at, rows))
  {
    hide After, Newest;
  }

  lemma RunOne(s: Queue, steps: seq<Step>, step: Step)
    ensures Run(s, []) == s && Run(s, steps + [step]) == Next(Run(s, steps), step)
  {
    hide Next;
    assert (steps + [step])[..|steps|] == steps;
  }

  /** The rows moved past, one step each. */
  lemma {:induction false} HandlesRun(s: Queue, rows: seq<AuditRow>, at: nat, n: nat)
    requires n <= |rows| && s.phase.Sending? && s.phase == Sending(at, rows, s.phase.forwarding)
    ensures Run(s, seq(n, i => HandleRow(Taken)))
            == s.(phase := Sending(CursorAfter(at, rows[..n]), rows[n..], s.phase.forwarding),
                  delivered := s.delivered + SentIds(rows[..n], s.phase.forwarding),
                  passed := s.passed + PassedIn(rows[..n], s.phase.forwarding))
    decreases n
  {
    hide Next, SentIds, CursorAfter, PassedIn;
    if n == 0 {
      NothingHandled(s, rows, at);
    } else {
      var before := seq(n - 1, i => HandleRow(Taken));
      HandlesRun(s, rows, at, n - 1);
      RunOne(s, before, HandleRow(Taken));
      assert before + [HandleRow(Taken)] == seq(n, i => HandleRow(Taken));
      OneHandled(s, rows, at, n - 1);
    }
  }

  lemma NothingHandled(s: Queue, rows: seq<AuditRow>, at: nat)
    requires s.phase.Sending? && s.phase == Sending(at, rows, s.phase.forwarding)
    ensures CursorAfter(at, rows[..0]) == at && SentIds(rows[..0], s.phase.forwarding) == []
    ensures PassedIn(rows[..0], s.phase.forwarding) == {} && rows[0..] == rows
    ensures Run(s, seq(0, i => HandleRow(Taken))) == s
    ensures s.delivered + [] == s.delivered && s.passed + {} == s.passed
  {
    assert seq(0, i => HandleRow(Taken)) == [];
  }

  lemma OneHandled(s: Queue, rows: seq<AuditRow>, at: nat, k: nat)
    requires k < |rows| && s.phase.Sending?
    ensures var f := s.phase.forwarding;
            Next(s.(phase := Sending(CursorAfter(at, rows[..k]), rows[k..], f),
                    delivered := s.delivered + SentIds(rows[..k], f), passed := s.passed + PassedIn(rows[..k], f)),
                 HandleRow(Taken))
            == s.(phase := Sending(CursorAfter(at, rows[..k + 1]), rows[k + 1..], f),
                  delivered := s.delivered + SentIds(rows[..k + 1], f), passed := s.passed + PassedIn(rows[..k + 1], f))
  {
    hide SentIds, CursorAfter, PassedIn;
    var f, row := s.phase.forwarding, rows[k];
    RowStep(at, rows, k, f);
    PassedOneMore(rows, k, f);
    assert rows[k..][0] == row && rows[k..][1..] == rows[k + 1..];
  }

  lemma PassedOneMore(rows: seq<AuditRow>, k: nat, forwarding: bool)
    requires k < |rows|
    ensures PassedIn(rows[..k + 1], forwarding)
            == PassedIn(rows[..k], forwarding) + if Goes(rows[k], forwarding) then {} else {rows[k].id}
  {
    hide Goes;
    assert rows[..k + 1] == rows[..k] + [rows[k]];
  }

  /** One batch of the loop is a run of the machine: from the same log, cursor and switch
      both leave the same cursor and send the same rows. */
  lemma BatchIsRun(s: Queue, takes: AuditRow -> bool)
    requires Ascending(s.log) && s.phase == Idle
    ensures var rows := After(s.log, StartOf(s), BATCH); var n := Reach(rows, s.mirror, takes);
            Run(s, BatchSteps(s, takes))
            == Placed(s).(cursor := Some(CursorAfter(StartOf(s), rows[..n])),
                          delivered := s.delivered + SentIds(rows[..n], s.mirror),
                          passed := s.passed + PassedIn(rows[..n], s.mirror))
  {
    var at, rows := StartOf(s), After(s.log, StartOf(s), BATCH);
    hide *;
    var n := Reach(rows, s.mirror, takes);
    OpeningRun(s);
    PlacedIs(s);
    BatchIs(s, takes);
    if rows == [] {
      NoRows(s, takes);
    } else {
      var s1 := Placed(s).(phase := Fetched(at, rows));
      var s2 := Placed(s).(phase := Sending(at, rows, s.mirror));
      var s3 := s2.(phase := Sending(CursorAfter(at, rows[..n]), rows[n..], s.mirror),
                    delivered := s.delivered + SentIds(rows[..n], s.mirror),
                    passed := s.passed + PassedIn(rows[..n], s.mirror));
      var s4 := s3.(phase := Sending(CursorAfter(at, rows[..n]), [], s.mirror));
      ReadIs(s1);
      HandlesRun(s2, rows, at, n);
      ReachStops(rows, s.mirror, takes);
      StopIs(s3, rows, n);
      LaterCursor(s.log, at, n);
      StoreIs(s4, at, CursorAfter(at, rows[..n]));
      var handles := seq(n, i => HandleRow(Taken));
      var stop := if n < |rows| then [HandleRow(NotTaken)] else [];
      OneStep(s1, ReadSwitch);
      OneStep(s3, HandleRow(NotTaken));
      OneStep(s4, WriteCursor(true));
      assert rows[|rows|..] == [];
      FiveParts(s, Opening(s), [ReadSwitch], handles, stop, [WriteCursor(true)]);
    }
  }

  lemma BatchIs(s: Queue, takes: AuditRow -> bool)
    ensures var rows := After(s.log, StartOf(s), BATCH); var n := Reach(rows, s.mirror, takes);
            BatchSteps(s, takes) ==
            if rows == [] then Opening(s)
            else Opening(s) + ([ReadSwitch] + seq(n, i => HandleRow(Taken))
                               + (if n < |rows| then [HandleRow(NotTaken)] else []) + [WriteCursor(true)])
  {
    hide After, Reach, StartOf, Opening;
    assert Opening(s) + [] == Opening(s);
  }

  lemma PlacedIs(s: Queue)
    ensures var p := Placed(s);
            && p.log == s.log && p.mirror == s.mirror && p.phase == s.phase && p.cursor == Some(StartOf(s))
            && p.delivered == s.delivered && p.passed == s.passed
  {
    hide Newest;
  }

  lemma NoRows(s: Queue, takes: AuditRow -> bool)
    requires After(s.log, StartOf(s), BATCH) == [] && s.phase == Idle
    ensures var rows := After(s.log, StartOf(s), BATCH); var n := Reach(rows, s.mirror, takes);
            && CursorAfter(StartOf(s), rows[..n]) == StartOf(s)
            && s.delivered + SentIds(rows[..n], s.mirror) == s.delivered
            && s.passed + PassedIn(rows[..n], s.mirror) == s.passed
  {
    hide After, StartOf;
  }

  lemma ReadIs(s: Queue)
    requires s.phase.Fetched?
    ensures Next(s, ReadSwitch) == s.(phase := Sending(s.phase.at, s.phase.rows, s.mirror))
  {
  }

  lemma StopIs(s: Queue, rows: seq<AuditRow>, n: nat)
    requires s.phase.Sending? && n <= |rows| && s.phase.rows == rows[n..]
    requires n < |rows| ==> Goes(rows[n], s.phase.forwarding)
    ensures n < |rows| ==> Next(s, HandleRow(NotTaken)) == s.(phase := Sending(s.phase.at, [], s.phase.forwarding))
  {
    if n < |rows| {
      assert rows[n..][0] == rows[n];
    }
  }

  lemma LaterCursor(log: seq<AuditRow>, at: nat, n: nat)
    requires Ascending(log) && n <= |After(log, at, BATCH)|
    ensures at <= CursorAfter(at, After(log, at, BATCH)[..n])
  {
    hide Behind, CursorAfter;
    if n > 0 {
      PositionIsLater(log, at, After(log, at, BATCH), n);
    } else {
      NothingYet(at, After(log, at, BATCH), true);
    }
  }

  lemma StoreIs(s: Queue, at: nat, position: nat)
    requires s.phase.Sending? && s.phase.rows == [] && s.phase.at == position && s.cursor == Some(at) && at <= position
    ensures Next(s, WriteCursor(true)) == s.(cursor := Some(position), phase := Idle)
  {
  }

  lemma OneStep(s: Queue, step: Step)
    ensures Run(s, [step]) == Next(s, step) && Run(s, []) == s
  {
    hide Next;
    RunOne(s, [], step);
    assert [] + [step] == [step];
  }

  lemma FiveParts(s: Queue, a: seq<Step>, b: seq<Step>, c: seq<Step>, d: seq<Step>, e: seq<Step>)
    ensures Run(s, a + (b + c + d + e)) == Run(Run(Run(Run(Run(s, a), b), c), d), e)
  {
    hide Run;
    RunConcat(s, a, b + c + d + e);
    RunConcat(Run(s, a), b + c + d, e);
    RunConcat(Run(s, a), b + c, d);
    RunConcat(Run(s, a), b, c);
  }

  /** A batch whose cursor is not stored ends where it began, and sends the same rows again
      the next time. One whose process dies does too. */
  lemma LostCursor(s: Queue)
    requires s.phase.Sending? && s.phase.rows == []
    ensures Next(s, WriteCursor(false)) == s.(phase := Idle) && Next(s, Crash) == s.(phase := Idle)
    ensures s.cursor.Some? ==>
      Next(Next(Next(s, WriteCursor(false)), Begin), Fetch).phase
      == if After(s.log, s.cursor.value, BATCH) == [] then Idle else Fetched(s.cursor.value, After(s.log, s.cursor.value, BATCH))
  {
    hide After;
  }

  /** A row the receiver took without the sender hearing of it was sent, and stops the batch
      like one that was not taken. */
  lemma UnnoticedStops(s: Queue)
    requires s.phase.Sending? && s.phase.rows != [] && Goes(s.phase.rows[0], s.phase.forwarding)
    ensures Next(s, HandleRow(TakenUnnoticed))
            == s.(delivered := s.delivered + [s.phase.rows[0].id], phase := Sending(s.phase.at, [], s.phase.forwarding))
    ensures Next(s, HandleRow(NotTaken)) == s.(phase := Sending(s.phase.at, [], s.phase.forwarding))
  {
  }

  /** What a batch reads: the rows past the cursor, in order, as many as the limit allows. */
  lemma AfterMeans(log: seq<AuditRow>, cursor: nat, limit: nat)
    requires Ascending(log)
    ensures var rows, owed := After(log, cursor, limit), Owed(log, cursor);
      && |rows| <= limit && rows <= owed && (|rows| < limit ==> rows == owed)
      && (exists n :: 0 <= n <= |log| && owed == log[n..])
      && (forall row :: row in owed <==> row in log && cursor < row.id)
  {
    var n := Behind(log, cursor);
    hide Behind;
    forall row
      ensures row in log[n..] <==> row in log && cursor < row.id
    {
      if row in log && cursor < row.id {
        var i :| 0 <= i < |log| && log[i] == row;
        BehindMeans(log, cursor, i);
        assert log[n..][i - n] == row;
      }
      if row in log[n..] {
        var i :| 0 <= i < |log[n..]| && log[n..][i] == row;
        BehindMeans(log, cursor, n + i);
      }
    }
  }

  // ----- what the switch decides -----

  /** With the switch on throughout nothing is passed over. */
  predicate OnThroughout(s: Queue) {
    s.mirror && s.passed == {} && (s.phase.Sending? ==> s.phase.forwarding)
  }

  lemma {:induction false} OnRun(s: Queue, steps: seq<Step>)
    requires Initial(s) && s.mirror && forall k :: 0 <= k < |steps| ==> steps[k] != Switch(false)
    ensures OnThroughout(Run(s, steps))
  {
    if steps != [] {
      OnRun(s, steps[..|steps| - 1]);
      OnStep(Run(s, steps[..|steps| - 1]), steps[|steps| - 1]);
    }
  }

  lemma OnStep(s: Queue, step: Step)
    requires OnThroughout(s) && step != Switch(false)
    ensures OnThroughout(Next(s, step))
  {
    hide After;
  }

  /** With the switch on throughout, every row between the placement and the stored cursor
      was sent, whatever fails and crashes. */
  lemma OnSendsAll(s: Queue, steps: seq<Step>, i: nat)
    requires Initial(s) && s.mirror && forall k :: 0 <= k < |steps| ==> steps[k] != Switch(false)
    requires i < |Run(s, steps).log| && Run(s, steps).cursor.Some?
    requires var t := Run(s, steps); t.start < t.log[i].id <= t.cursor.value
    ensures Run(s, steps).log[i].id in Run(s, steps).delivered
  {
    hide *;
    OnRun(s, steps);
    OnMeans(Run(s, steps));
    NoHole(s, steps, i);
  }

  lemma OnMeans(s: Queue)
    ensures OnThroughout(s) ==> s.passed == {}
  {
  }

  /** Whatever is sent is a row of the log about the configuration. */
  predicate OffThroughout(s: Queue) {
    && !s.mirror && (s.phase.Sending? ==> !s.phase.forwarding)
    && forall d :: d in s.delivered ==> exists i :: 0 <= i < |s.log| && s.log[i].id == d && s.log[i].action != OtherAction
  }

  /** With the switch off throughout, only rows about the configuration are sent. */
  lemma {:induction false} OffSendsConfig(s: Queue, steps: seq<Step>)
    requires Initial(s) && !s.mirror && forall k :: 0 <= k < |steps| ==> steps[k] != Switch(true)
    ensures var t := Run(s, steps);
            forall d :: d in t.delivered ==> exists i :: 0 <= i < |t.log| && t.log[i].id == d && t.log[i].action != OtherAction
  {
    OffRun(s, steps);
    hide Run;
  }

  lemma {:induction false} OffRun(s: Queue, steps: seq<Step>)
    requires Initial(s) && !s.mirror && forall k :: 0 <= k < |steps| ==> steps[k] != Switch(true)
    ensures OffThroughout(Run(s, steps))
  {
    hide OffThroughout, Next;
    InitialGood(s);
    if steps != [] {
      var most := steps[..|steps| - 1];
      OffRun(s, most);
      RunGood(s, most);
      OffStep(Run(s, most), steps[|steps| - 1]);
    } else {
      OffFirst(s);
    }
  }

  lemma OffFirst(s: Queue)
    requires Initial(s) && !s.mirror
    ensures OffThroughout(s)
  {
  }

  lemma OffStep(s: Queue, step: Step)
    requires OffThroughout(s) && Good(s) && step != Switch(true)
    ensures OffThroughout(Next(s, step))
  {
    var t := Next(s, step);
    OffSends(s, step);
    if t.delivered != s.delivered {
      SendingIs(s);
      FrontRow(s.log, s.phase.at, s.phase.rows);
    }
    hide Next, Good, Behind, Ascending;
    forall d | d in t.delivered
      ensures exists i :: 0 <= i < |t.log| && t.log[i].id == d && t.log[i].action != OtherAction
    {
      if d in s.delivered {
        var i :| 0 <= i < |s.log| && s.log[i].id == d && s.log[i].action != OtherAction;
        assert t.log[i] == s.log[i];
      } else {
        var n := Behind(s.log, s.phase.at);
        assert t.log[n].id == d;
      }
    }
  }

  lemma OffSends(s: Queue, step: Step)
    requires !s.mirror && (s.phase.Sending? ==> !s.phase.forwarding) && step != Switch(true)
    ensures var t := Next(s, step);
            && !t.mirror && (t.phase.Sending? ==> !t.phase.forwarding) && s.log <= t.log
            && (t.delivered != s.delivered ==>
                  && s.phase.Sending? && s.phase.rows != [] && s.phase.rows[0].action != OtherAction
                  && t.delivered == s.delivered + [s.phase.rows[0].id])
  {
    hide After;
  }
}

/** Scheduled jobs over every interleaving of the timer, edits, cancellations and
    restarts (internal/store/schedule.go, internal/fleet/scheduler.go). */
module Jobs {
  import opened Platform

  datatype Status = Pending | Running | Done | Failed

  /** A stored job. The operation is opaque here, as it is to the store. */
  datatype Job = Job(op: nat, runAt: int, status: Status)

  /** A job as Due read it. */
  datatype Copy = Copy(id: nat, job: Job)

  /** Where the timer's pass stands. */
  datatype Phase =
    | Resting
    | Passing(queue: seq<Copy>)
    | Claimed(copy: Copy, queue: seq<Copy>)
    | Applied(copy: Copy, queue: seq<Copy>)

  /** The table and the pass, and what has happened: the identifiers handed out, the
      claims, the changes applied and, per restart, the jobs found running. */
  datatype State = State(
    table: map<nat, Job>,
    phase: Phase,
    used: set<nat>,
    claims: seq<nat>,
    applied: seq<nat>,
    recovered: seq<nat>)

  /** How the store answered a claim: properly, with the answer lost after the update,
      or without having been reached. */
  datatype Reply = Answered | Lost | Unreached

  datatype Step =
    | Create(id: nat, op: nat, runAt: int)
    | Update(id: nat, op: nat, runAt: int)
    | Delete(id: nat)
    | Tick(now: int, due: seq<nat>)
    | Claim(reply: Reply)
    | Apply
    | Finish(stored: bool, good: bool)
    | Abandon
    | Restart(reset: bool, running: seq<nat>)

  predicate Distinct(ids: seq<nat>) {
    forall i, j :: 0 <= i < j < |ids| ==> ids[i] != ids[j]
  }

  predicate Ready(table: map<nat, Job>, now: int, id: nat) {
    id in table && table[id].status == Pending && table[id].runAt <= now
  }

  /** status = pending AND run_at <= now ORDER BY run_at, id */
  ghost predicate IsDue(table: map<nat, Job>, now: int, due: seq<nat>) {
    && (forall id :: id in due <==> id in table.Keys && Ready(table, now, id))
    && Distinct(due)
    && forall i, j :: 0 <= i < j < |due| && Ready(table, now, due[i]) && Ready(table, now, due[j]) ==>
         table[due[i]].runAt < table[due[j]].runAt || (table[due[i]].runAt == table[due[j]].runAt && due[i] < due[j])
  }

  ghost predicate IsRunning(table: map<nat, Job>, running: seq<nat>) {
    Distinct(running) && forall id :: id in running <==> id in table.Keys && table[id].status == Running
  }

  function Copies(table: map<nat, Job>, due: seq<nat>): (copies: seq<Copy>)
    requires forall i :: 0 <= i < |due| ==> due[i] in table
    ensures |copies| == |due| && forall i :: 0 <= i < |due| ==> copies[i] == Copy(due[i], table[due[i]])
  {
    seq(|due|, i requires 0 <= i < |due| => Copy(due[i], table[due[i]]))
  }

  function ResetRunning(table: map<nat, Job>): map<nat, Job> {
    map id | id in table :: if table[id].status == Running then table[id].(status := Pending) else table[id]
  }

  /** Each store method is one guarded update; a step that does not apply changes
      nothing. */
  ghost function Next(s: State, step: Step): State {
    match step
    case Create(id, op, runAt) =>
      if id in s.used then s
      else s.(table := s.table[id := Job(op, runAt, Pending)], used := s.used + {id})
    case Update(id, op, runAt) =>
      if id in s.table && s.table[id].status == Pending then
        s.(table := s.table[id := Job(op, runAt, Pending)])
      else s
    case Delete(id) =>
      if id in s.table && s.table[id].status != Running then s.(table := s.table - {id}) else s
    case Tick(now, due) =>
      if s.phase == Resting && IsDue(s.table, now, due) then s.(phase := Passing(Copies(s.table, due))) else s
    case Claim(reply) =>
      if !s.phase.Passing? then s
      else if s.phase.queue == [] then s.(phase := Resting)
      else
        var copy, rest := s.phase.queue[0], s.phase.queue[1..];
        if reply != Unreached && copy.id in s.table && s.table[copy.id].status == Pending then
          s.(table := s.table[copy.id := s.table[copy.id].(status := Running)],
             claims := s.claims + [copy.id],
             phase := if reply == Answered then Claimed(copy, rest) else Passing(rest))
        else s.(phase := Passing(rest))
    case Apply =>
      if !s.phase.Claimed? then s
      else s.(applied := s.applied + [s.phase.copy.id], phase := Applied(s.phase.copy, s.phase.queue))
    case Finish(stored, good) =>
      if !s.phase.Claimed? && !s.phase.Applied? then s
      else
        var id := s.phase.copy.id;
        var status := if s.phase.Applied? && good then Done else Failed;
        s.(table := if stored && id in s.table && s.table[id].status == Running
                    then s.table[id := s.table[id].(status := status)] else s.table,
           phase := Passing(s.phase.queue))
    case Abandon => if s.phase.Passing? then s.(phase := Resting) else s
    case Restart(reset, running) =>
      if reset && IsRunning(s.table, running) then
        s.(table := ResetRunning(s.table), recovered := s.recovered + running, phase := Resting)
      else s.(phase := Resting)
  }

  ghost function Run(s: State, steps: seq<Step>): State {
    if steps == [] then s else Next(Run(s, steps[..|steps| - 1]), steps[|steps| - 1])
  }

  predicate Initial(s: State) {
    s == State(map[], Resting, {}, [], [], [])
  }

  // ----- counting -----

  function Count(ids: seq<nat>, id: nat): nat {
    if ids == [] then 0 else Count(ids[..|ids| - 1], id) + if ids[|ids| - 1] == id then 1 else 0
  }

  lemma CountOneMore(ids: seq<nat>, last: nat, id: nat)
    ensures Count(ids + [last], id) == Count(ids, id) + if last == id then 1 else 0
  {
    assert (ids + [last])[..|ids|] == ids;
  }

  lemma {:induction false} CountConcat(a: seq<nat>, b: seq<nat>, id: nat)
    ensures Count(a + b, id) == Count(a, id) + Count(b, id)
  {
    if b == [] {
      assert a + b == a;
    } else {
      CountConcat(a, b[..|b| - 1], id);
      assert (a + b)[..|a + b| - 1] == a + b[..|b| - 1];
    }
  }

  lemma {:induction false} CountIn(ids: seq<nat>, id: nat)
    ensures Count(ids, id) > 0 <==> id in ids
  {
    if ids != [] {
      CountIn(ids[..|ids| - 1], id);
      assert ids == ids[..|ids| - 1] + [ids[|ids| - 1]];
    }
  }

  // ----- what every step keeps -----

  predicate InHand(s: State, id: nat) {
    (s.phase.Claimed? || s.phase.Applied?) && s.phase.copy.id == id
  }

  /** How often a job may have been applied, by where it stands. */
  predicate Bounded(s: State, id: nat) {
    var a, r, c := Count(s.applied, id), Count(s.recovered, id), Count(s.claims, id);
    && a <= c && a <= r + 1
    && (id !in s.used ==> a == 0 && r == 0 && c == 0)
    && (id in s.table && s.table[id].status == Pending ==> a <= r)
    && (s.phase.Claimed? && s.phase.copy.id == id ==> a <= r && a < c)
  }

  predicate Good(s: State) {
    && s.table.Keys <= s.used
    && (forall id :: id in s.table && InHand(s, id) ==> s.table[id].status == Running)
    && (s.phase.Claimed? || s.phase.Applied? ==> s.phase.copy.id in s.table)
  }

  ghost predicate AllBounded(s: State) {
    forall id: nat :: Bounded(s, id)
  }

  lemma StepGood(s: State, step: Step)
    requires Good(s)
    ensures Good(Next(s, step))
  {
    hide IsDue, IsRunning;
  }

  lemma StepBounded(s: State, step: Step, id: nat)
    requires Good(s) && Bounded(s, id)
    ensures Bounded(Next(s, step), id)
  {
    hide IsDue, Count;
    match step
    case Create(_, _, _) =>
    case Update(_, _, _) =>
    case Delete(_) =>
    case Tick(_, _) =>
    case Claim(_) =>
      if s.phase.Passing? && s.phase.queue != [] {
        CountOneMore(s.claims, s.phase.queue[0].id, id);
      }
    case Apply =>
      if s.phase.Claimed? {
        CountOneMore(s.applied, s.phase.copy.id, id);
      }
    case Finish(_, _) =>
    case Abandon =>
    case Restart(reset, running) =>
      CountConcat(s.recovered, running, id);
      CountIn(running, id);
  }

  lemma {:induction false} RunGood(s: State, steps: seq<Step>)
    requires Good(s) && AllBounded(s)
    ensures Good(Run(s, steps)) && AllBounded(Run(s, steps))
  {
    hide Next, Good, Bounded;
    if steps != [] {
      var before := Run(s, steps[..|steps| - 1]);
      RunGood(s, steps[..|steps| - 1]);
      StepGood(before, steps[|steps| - 1]);
      forall id: nat
        ensures Bounded(Run(s, steps), id)
      {
        StepBounded(before, steps[|steps| - 1], id);
      }
    }
  }

  lemma InitialGood(s: State)
    requires Initial(s)
    ensures Good(s) && AllBounded(s)
  {
  }

  /** A job is applied at most once, plus once for every restart that found it
      running, and never more often than it was claimed. */
  lemma AppliedAtMost(s: State, steps: seq<Step>, id: nat)
    requires Initial(s)
    ensures var t := Run(s, steps);
            Count(t.applied, id) <= 1 + Count(t.recovered, id) && Count(t.applied, id) <= Count(t.claims, id)
  {
    hide Run, Good;
    InitialGood(s);
    RunGood(s, steps);
    assert Bounded(Run(s, steps), id);
  }

  /** A cancelled job: it had an identifier and is not in the table any more. */
  predicate Gone(s: State, id: nat) {
    id in s.used && id !in s.table
  }

  lemma GoneStays(s: State, step: Step, id: nat)
    requires Good(s) && Gone(s, id)
    ensures Gone(Next(s, step), id) && Count(Next(s, step).applied, id) == Count(s.applied, id)
  {
    hide IsDue, IsRunning, Count;
    if s.phase.Claimed? {
      CountOneMore(s.applied, s.phase.copy.id, id);
    }
  }

  /** After a successful cancellation a job is never applied again. */
  lemma {:induction false} NeverAfterCancel(s: State, steps: seq<Step>, k: nat, id: nat)
    requires Initial(s) && k <= |steps| && Gone(Run(s, steps[..k]), id)
    ensures Gone(Run(s, steps), id) && Count(Run(s, steps).applied, id) == Count(Run(s, steps[..k]).applied, id)
  {
    hide Next, Good, Gone;
    if k < |steps| {
      var most := steps[..|steps| - 1];
      assert most[..k] == steps[..k];
      NeverAfterCancel(s, most, k, id);
      InitialGood(s);
      RunGood(s, most);
      GoneStays(Run(s, most), steps[|steps| - 1], id);
    } else {
      assert steps[..k] == steps;
    }
  }

  /** What takes a job out of running: the finish of the pass that holds it, or a restart
      that resets what it found running. */
  ghost predicate Closes(s: State, step: Step, id: nat) {
    || (step.Finish? && step.stored && InHand(s, id))
    || (step.Restart? && step.reset && IsRunning(s.table, step.running))
  }

  lemma RunningStep(s: State, step: Step, id: nat)
    requires Good(s) && id in s.table && s.table[id].status == Running && !Closes(s, step, id)
    ensures id in Next(s, step).table && Next(s, step).table[id] == s.table[id]
  {
    hide IsDue, IsRunning;
  }

  /** A running job is edited and deleted by nobody, however long it runs: it is as it was
      claimed until its pass finishes it or a restart resets it. */
  lemma {:induction false} RunningIsLeftAlone(s: State, steps: seq<Step>, k: nat, id: nat)
    requires Initial(s) && k <= |steps|
    requires id in Run(s, steps[..k]).table && Run(s, steps[..k]).table[id].status == Running
    requires forall j :: k <= j < |steps| ==> !Closes(Run(s, steps[..j]), steps[j], id)
    ensures id in Run(s, steps).table && Run(s, steps).table[id] == Run(s, steps[..k]).table[id]
  {
    hide Next, Good, Closes;
    if k < |steps| {
      var most := steps[..|steps| - 1];
      assert most[..k] == steps[..k];
      forall j | k <= j < |most|
        ensures !Closes(Run(s, most[..j]), most[j], id)
      {
        assert most[..j] == steps[..j];
      }
      RunningIsLeftAlone(s, most, k, id);
      InitialGood(s);
      RunGood(s, most);
      assert steps[..|most|] == most;
      RunningStep(Run(s, most), steps[|most|], id);
    } else {
      assert steps[..k] == steps;
    }
  }

  predicate Closed(job: Job) {
    job.status == Done || job.status == Failed
  }

  lemma ClosedStep(s: State, step: Step, id: nat)
    requires Good(s) && id in s.used && (id in s.table ==> Closed(s.table[id]))
    ensures var t := Next(s, step);
            id in t.used && (id in t.table ==> id in s.table && t.table[id] == s.table[id])
  {
    hide IsDue, IsRunning;
  }

  /** Done and failed are never left, except by deletion. */
  lemma {:induction false} ClosedIsFinal(s: State, steps: seq<Step>, k: nat, id: nat)
    requires Initial(s) && k <= |steps|
    requires id in Run(s, steps[..k]).table && Closed(Run(s, steps[..k]).table[id])
    ensures var t, u := Run(s, steps[..k]), Run(s, steps);
            id in u.used && (id in u.table ==> u.table[id] == t.table[id])
  {
    hide Next, Good;
    InitialGood(s);
    if k < |steps| {
      var most := steps[..|steps| - 1];
      assert most[..k] == steps[..k];
      ClosedIsFinal(s, most, k, id);
      RunGood(s, most);
      ClosedStep(Run(s, most), steps[|steps| - 1], id);
    } else {
      assert steps[..k] == steps;
      RunGood(s, steps);
      UsedHolds(Run(s, steps), id);
    }
  }

  lemma UsedHolds(s: State, id: nat)
    requires Good(s) && id in s.table
    ensures id in s.used
  {
  }

  // ----- which operation is applied -----

  function Held(phase: Phase): seq<Copy> {
    match phase
    case Resting => []
    case Passing(queue) => queue
    case Claimed(copy, queue) => [copy] + queue
    case Applied(copy, queue) => [copy] + queue
  }

  lemma DueIsThere(table: map<nat, Job>, now: int, due: seq<nat>)
    requires IsDue(table, now, due)
    ensures forall i :: 0 <= i < |due| ==> due[i] in table
  {
  }

  lemma UsedGrows(s: State, step: Step)
    ensures s.used <= Next(s, step).used
  {
    hide IsDue, IsRunning;
  }

  /** An edit that is stored. */
  predicate Edits(s: State, step: Step, id: nat) {
    step.Update? && step.id == id && id in s.table && s.table[id].status == Pending
  }

  /** The operation of the last edit of a job that was stored during a run. */
  ghost function LastEdit(s: State, steps: seq<Step>, id: nat): Option<(nat, int)> {
    if steps == [] then None
    else
      var most, last := steps[..|steps| - 1], steps[|steps| - 1];
      if Edits(Run(s, most), last, id) then Some((last.op, last.runAt)) else LastEdit(s, most, id)
  }

  lemma OnlyEdits(s: State, step: Step, id: nat)
    requires Good(s) && id in s.used && id in Next(s, step).table
    ensures id in s.table
    ensures Next(s, step).table[id].op == if Edits(s, step, id) then step.op else s.table[id].op
    ensures Next(s, step).table[id].runAt == if Edits(s, step, id) then step.runAt else s.table[id].runAt
  {
    hide IsDue, IsRunning;
  }

  /** The stored operation and time are those of the last edit, and nothing else changes
      them. */
  lemma {:induction false} StoredIsLastEdit(s: State, steps: seq<Step>, id: nat)
    requires Good(s) && AllBounded(s) && id in s.table && id in Run(s, steps).table
    ensures var job, edit := Run(s, steps).table[id], LastEdit(s, steps, id);
            (job.op, job.runAt) == if edit.Some? then edit.value else (s.table[id].op, s.table[id].runAt)
  {
    hide Next, Good, Edits, Bounded;
    if steps != [] {
      var most, last := steps[..|steps| - 1], steps[|steps| - 1];
      RunGood(s, most);
      UsedHolds(s, id);
      UsedOverRuns(s, most);
      OnlyEdits(Run(s, most), last, id);
      StoredIsLastEdit(s, most, id);
    }
  }

  lemma {:induction false} UsedOverRuns(s: State, steps: seq<Step>)
    ensures s.used <= Run(s, steps).used
  {
    hide Next;
    if steps != [] {
      UsedOverRuns(s, steps[..|steps| - 1]);
      UsedGrows(Run(s, steps[..|steps| - 1]), steps[|steps| - 1]);
    }
  }

  /** A pass that is under way in every state after this step. */
  ghost predicate Starts(s: State, steps: seq<Step>, k: nat) {
    && k < |steps|
    && Run(s, steps[..k]).phase == Resting && steps[k].Tick?
    && IsDue(Run(s, steps[..k]).table, steps[k].now, steps[k].due)
    && forall j :: k < j <= |steps| ==> Run(s, steps[..j]).phase != Resting
  }

  /** A pass under way was started by one tick. */
  lemma {:induction false} PassBegan(s: State, steps: seq<Step>) returns (k: nat)
    requires Initial(s) && Run(s, steps).phase != Resting
    ensures Starts(s, steps, k)
  {
    hide Next, IsDue;
    var most, last := steps[..|steps| - 1], |steps| - 1;
    assert steps[..last + 1] == steps;
    if Run(s, most).phase == Resting {
      k := last;
      BeginsPass(Run(s, most), steps[last]);
    } else {
      k := PassBegan(s, most);
      assert most[..k] == steps[..k];
      forall j | k < j <= |steps|
        ensures Run(s, steps[..j]).phase != Resting
      {
        if j <= last {
          assert most[..j] == steps[..j];
        } else {
          assert steps[..j] == steps;
        }
      }
    }
  }

  lemma BeginsPass(s: State, step: Step)
    requires s.phase == Resting && Next(s, step).phase != Resting
    ensures step.Tick? && IsDue(s.table, step.now, step.due)
  {
    hide IsDue, IsRunning;
  }

  lemma StillHeld(s: State, step: Step)
    requires s.phase != Resting
    ensures forall copy :: copy in Held(Next(s, step).phase) ==> copy in Held(s.phase)
  {
    hide IsDue, IsRunning;
  }

  lemma TickHolds(s: State, step: Step)
    requires s.phase == Resting && step.Tick? && IsDue(s.table, step.now, step.due)
    ensures forall copy :: copy in Held(Next(s, step).phase) ==>
      copy.id in s.table && copy.job == s.table[copy.id] && copy.job.runAt <= step.now
  {
    DueIsThere(s.table, step.now, step.due);
    hide IsDue, IsRunning;
  }

  /** Every copy a pass holds is the job as its tick found it, and was due then. */
  lemma {:induction false} PassHolds(s: State, steps: seq<Step>, k: nat)
    requires Starts(s, steps, k)
    ensures var t := Run(s, steps[..k]);
            forall copy :: copy in Held(Run(s, steps).phase) ==>
              copy.id in t.table && copy.job == t.table[copy.id] && copy.job.runAt <= steps[k].now
  {
    hide Next, IsDue, Held;
    var most, last := steps[..|steps| - 1], |steps| - 1;
    if k == last {
      TickHolds(Run(s, most), steps[last]);
    } else {
      assert most[..k] == steps[..k];
      assert most == steps[..last];
      forall j | k < j <= |most|
        ensures Run(s, most[..j]).phase != Resting
      {
        assert most[..j] == steps[..j];
      }
      PassHolds(s, most, k);
      StillHeld(Run(s, most), steps[last]);
    }
  }

  lemma {:induction false} RunConcat(s: State, a: seq<Step>, b: seq<Step>)
    ensures Run(s, a + b) == Run(Run(s, a), b)
  {
    hide Next;
    if b == [] {
      assert a + b == a;
    } else {
      RunConcat(s, a, b[..|b| - 1]);
      assert (a + b)[..|a + b| - 1] == a + b[..|b| - 1];
    }
  }

  /** The pass is about to apply a job that is not the stored one: another operation, or
      one stored for another time. */
  predicate AppliesStale(s: State) {
    && s.phase.Claimed? && s.phase.copy.id in s.table
    && var stored := s.table[s.phase.copy.id];
       (s.phase.copy.job.op, s.phase.copy.job.runAt) != (stored.op, stored.runAt)
  }

  /** The pass is about to apply a job before the time it is stored for. */
  predicate AppliesEarly(s: State, now: int) {
    s.phase.Claimed? && s.phase.copy.id in s.table && now < s.table[s.phase.copy.id].runAt
  }

  /** The claimed job is the one the tick of this pass found. It differs from the stored
      one exactly when the last edit stored since that tick says something else, and it is
      applied before its time exactly when that edit postponed it past the tick. */
  lemma ClaimedIsCurrent(s: State, steps: seq<Step>) returns (k: nat)
    requires Initial(s) && Run(s, steps).phase.Claimed?
    ensures Starts(s, steps, k)
    ensures var t, u := Run(s, steps[..k]), Run(s, steps); var copy := u.phase.copy;
            && copy.id in t.table && copy.id in u.table && copy.job == t.table[copy.id]
            && (AppliesStale(u) <==>
                var edit := LastEdit(t, steps[k..], copy.id);
                edit.Some? && edit.value != (copy.job.op, copy.job.runAt))
            && (AppliesEarly(u, steps[k].now) <==>
                var edit := LastEdit(t, steps[k..], copy.id); edit.Some? && steps[k].now < edit.value.1)
  {
    hide Run, LastEdit, IsDue, Bounded;
    k := PassBegan(s, steps);
    PassHolds(s, steps, k);
    InitialGood(s);
    RunGood(s, steps[..k]);
    RunGood(s, steps);
    RunConcat(s, steps[..k], steps[k..]);
    assert steps[..k] + steps[k..] == steps;
    var u := Run(s, steps);
    assert Held(u.phase)[0] == u.phase.copy;
    assert u.phase.copy in Held(u.phase);
    StoredIsLastEdit(Run(s, steps[..k]), steps[k..], u.phase.copy.id);
  }

  lemma RunMore(s: State, steps: seq<Step>, step: Step)
    ensures Run(s, steps + [step]) == Next(Run(s, steps), step)
  {
    hide Next;
    assert (steps + [step])[..|steps|] == steps;
  }

  const EMPTY := State(map[], Resting, {}, [], [], [])

  /** A job is found due, then edited, then claimed: the edit is stored and reported, and
      the pass is about to apply the operation from before it, ahead of its new time. */
  lemma EditedBetweenDueAndClaim()
    ensures Initial(EMPTY)
    ensures var s := Run(EMPTY, [Create(1, 10, 0), Tick(0, [1]), Update(1, 20, 5), Claim(Answered)]);
            AppliesStale(s) && AppliesEarly(s, 0) && s.phase.copy.job.op == 10 && 1 in s.table && s.table[1].op == 20
  {
    var before, after := Job(10, 0, Pending), Job(20, 5, Pending);
    var t1 := EMPTY.(table := map[1 := before], used := {1});
    var t2 := t1.(phase := Passing([Copy(1, before)]));
    var t3 := t2.(table := map[1 := after]);
    OneJobDue(t1.table, before);
    FirstTwo(t1, t2, before);
    assert Next(t2, Update(1, 20, 5)) == t3;
    var t4 := Next(t3, Claim(Answered));
    assert t4.phase == Claimed(Copy(1, before), []) && t4.table == map[1 := after.(status := Running)];
    hide Next, Run;
    FourSteps(Create(1, 10, 0), Tick(0, [1]), Update(1, 20, 5), Claim(Answered));
  }

  lemma OneJobDue(table: map<nat, Job>, job: Job)
    requires table == map[1 := job] && job.status == Pending && job.runAt == 0
    ensures IsDue(table, 0, [1]) && Copies(table, [1]) == [Copy(1, job)]
  {
  }

  lemma FirstTwo(t1: State, t2: State, job: Job)
    requires job == Job(10, 0, Pending) && t1 == EMPTY.(table := map[1 := job], used := {1})
    requires IsDue(t1.table, 0, [1]) && Copies(t1.table, [1]) == [Copy(1, job)]
    requires t2 == t1.(phase := Passing([Copy(1, job)]))
    ensures Next(EMPTY, Create(1, 10, 0)) == t1 && Next(t1, Tick(0, [1])) == t2
  {
    hide IsDue;
  }

  lemma FourSteps(a: Step, b: Step, c: Step, d: Step)
    ensures Run(EMPTY, [a, b, c, d]) == Next(Next(Next(Next(EMPTY, a), b), c), d)
  {
    hide Next;
    RunMore(EMPTY, [], a);
    RunMore(EMPTY, [a], b);
    RunMore(EMPTY, [a, b], c);
    RunMore(EMPTY, [a, b, c], d);
    assert [] + [a] == [a] && [a] + [b] == [a, b] && [a, b] + [c] == [a, b, c] && [a, b, c] + [d] == [a, b, c, d];
  }
}

/** How a scheduled job ends: which of the two closed states it gets, what a restart makes
    of it, and what a cancellation does (applyJob and failed of
    internal/fleet/scheduler.go, Finish, Delete and ResetRunning of
    internal/store/schedule.go). */
module Closing {
  import opened Jobs

  // ----- what is behind a closed job -----

  /** The step closes a job the pass has applied, and its report counts as done
      (Batches.OutcomeOf). */
  predicate ClosesGood(s: State, step: Step, id: nat) {
    step.Finish? && step.stored && step.good && s.phase.Applied? && s.phase.copy.id == id
  }

  /** The step closes a job the pass could not apply, or whose report counts as failed. */
  predicate ClosesBad(s: State, step: Step, id: nat) {
    && step.Finish? && step.stored
    && ((s.phase.Claimed? && s.phase.copy.id == id) || (!step.good && s.phase.Applied? && s.phase.copy.id == id))
  }

  lemma ClosedBy(s: State, step: Step, id: nat)
    requires Good(s) && id in Next(s, step).table
    ensures var t := Next(s, step);
            && (t.table[id].status == Done ==> (id in s.table && s.table[id].status == Done) || ClosesGood(s, step, id))
            && (t.table[id].status == Failed ==> (id in s.table && s.table[id].status == Failed) || ClosesBad(s, step, id))
  {
    hide IsDue, IsRunning;
  }

  predicate AppliedIsNoted(s: State) {
    s.phase.Applied? ==> s.phase.copy.id in s.applied
  }

  lemma NotedStep(s: State, step: Step)
    requires AppliedIsNoted(s)
    ensures AppliedIsNoted(Next(s, step)) && s.applied <= Next(s, step).applied
  {
    hide IsDue, IsRunning;
  }

  lemma {:induction false} NotedOverRuns(s: State, steps: seq<Step>, k: nat)
    requires Initial(s) && k <= |steps|
    ensures AppliedIsNoted(Run(s, steps)) && Run(s, steps[..k]).applied <= Run(s, steps).applied
  {
    hide Next, AppliedIsNoted;
    if k < |steps| {
      var most := steps[..|steps| - 1];
      assert most[..k] == steps[..k];
      NotedOverRuns(s, most, k);
      NotedStep(Run(s, most), steps[|steps| - 1]);
    } else if steps != [] {
      var most := steps[..|steps| - 1];
      assert steps[..k] == steps;
      NotedOverRuns(s, most, |most|);
      NotedStep(Run(s, most), steps[|steps| - 1]);
    } else {
      NothingNoted(s);
      assert steps[..k] == steps;
    }
  }

  lemma NothingNoted(s: State)
    requires Initial(s)
    ensures AppliedIsNoted(s)
  {
  }

  /** A job that is done was applied, and closed by the pass that applied it with a report
      that counts as done. */
  lemma {:induction false} DoneWasApplied(s: State, steps: seq<Step>, id: nat) returns (k: nat)
    requires Initial(s) && id in Run(s, steps).table && Run(s, steps).table[id].status == Done
    ensures k < |steps| && steps[k] == Finish(true, true)
    ensures var t := Run(s, steps[..k]); t.phase.Applied? && t.phase.copy.id == id
    ensures id in Run(s, steps).applied
  {
    hide Next, Good;
    NothingYet(s);
    var most, last := steps[..|steps| - 1], steps[|steps| - 1];
    InitialGood(s);
    RunGood(s, most);
    ClosedBy(Run(s, most), last, id);
    if ClosesGood(Run(s, most), last, id) {
      k := |most|;
      assert steps[..k] == most;
    } else {
      k := DoneWasApplied(s, most, id);
      assert most[..k] == steps[..k];
    }
    NotedOverRuns(s, steps[..k], k);
    NotedOverRuns(s, steps, k);
    assert steps[..k][..k] == steps[..k];
  }

  /** A job that failed was closed by a pass that could not apply it, or whose report counts
      as failed. */
  lemma {:induction false} FailedWhy(s: State, steps: seq<Step>, id: nat) returns (k: nat)
    requires Initial(s) && id in Run(s, steps).table && Run(s, steps).table[id].status == Failed
    ensures k < |steps| && steps[k].Finish? && steps[k].stored
    ensures var t := Run(s, steps[..k]);
            (t.phase.Claimed? && t.phase.copy.id == id) || (t.phase.Applied? && t.phase.copy.id == id && !steps[k].good)
  {
    hide Next, Good;
    NothingYet(s);
    var most, last := steps[..|steps| - 1], steps[|steps| - 1];
    InitialGood(s);
    RunGood(s, most);
    ClosedBy(Run(s, most), last, id);
    if ClosesBad(Run(s, most), last, id) {
      k := |most|;
      assert steps[..k] == most;
    } else {
      k := FailedWhy(s, most, id);
      assert most[..k] == steps[..k];
    }
  }

  lemma NothingYet(s: State)
    requires Initial(s)
    ensures Run(s, []) == s && s.table == map[]
  {
  }

  // ----- what closing does -----

  /** A finish that is stored closes the job in hand: done if it was applied and its report
      counts as done, failed otherwise. Nothing else changes. */
  lemma FinishStores(s: State, steps: seq<Step>, good: bool)
    requires Initial(s) && (Run(s, steps).phase.Claimed? || Run(s, steps).phase.Applied?)
    ensures var u, v := Run(s, steps), Run(s, steps + [Finish(true, good)]);
      var id := u.phase.copy.id;
      && id in u.table && id in v.table
      && (u.phase.Applied? && good ==> v.table[id] == Job(u.table[id].op, u.table[id].runAt, Done))
      && (!(u.phase.Applied? && good) ==> v.table[id] == Job(u.table[id].op, u.table[id].runAt, Failed))
      && v.table == u.table[id := v.table[id]]
      && v.phase == Passing(u.phase.queue)
  {
    InitialGood(s);
    RunGood(s, steps);
    RunMore(s, steps, Finish(true, good));
    hide Run;
    HandIsRunning(Run(s, steps));
  }

  lemma HandIsRunning(s: State)
    requires Good(s) && (s.phase.Claimed? || s.phase.Applied?)
    ensures s.phase.copy.id in s.table && s.table[s.phase.copy.id].status == Running
  {
    assert InHand(s, s.phase.copy.id);
  }

  /** After a restart that reset what it found, no job is running: each that was is pending
      again with its operation and its time, and every other is as it was. */
  lemma RestartResets(s: State, steps: seq<Step>, running: seq<nat>)
    requires IsRunning(Run(s, steps).table, running)
    ensures var u, v := Run(s, steps), Run(s, steps + [Restart(true, running)]);
      && v.phase == Resting && v.table.Keys == u.table.Keys
      && (forall id :: id in running <==> id in u.table && u.table[id].status == Running)
      && (forall id :: id in u.table && u.table[id].status == Running ==>
            v.table[id] == Job(u.table[id].op, u.table[id].runAt, Pending))
      && (forall id :: id in u.table && u.table[id].status != Running ==> v.table[id] == u.table[id])
      && (forall id :: id in v.table ==> v.table[id].status != Running)
  {
    RunMore(s, steps, Restart(true, running));
    hide Run;
    assert forall id :: id in running <==> id in Run(s, steps).table.Keys && Run(s, steps).table[id].status == Running;
  }

  /** A claim takes the front job of the pass exactly when it is still pending and the store
      was reached. The job is running then, whether or not the answer came back; without the
      answer the pass leaves it there and goes on. */
  lemma ClaimMeans(s: State, steps: seq<Step>, reply: Reply)
    requires Run(s, steps).phase.Passing? && Run(s, steps).phase.queue != []
    ensures var u, v := Run(s, steps), Run(s, steps + [Claim(reply)]);
      var copy, rest := u.phase.queue[0], u.phase.queue[1..];
      var pending := copy.id in u.table && u.table[copy.id].status == Pending;
      && (pending && reply != Unreached ==>
            && v.table == u.table[copy.id := Job(u.table[copy.id].op, u.table[copy.id].runAt, Running)]
            && v.claims == u.claims + [copy.id])
      && (!pending || reply == Unreached ==> v.table == u.table && v.claims == u.claims)
      && v.phase == (if pending && reply == Answered then Claimed(copy, rest) else Passing(rest))
      && v.applied == u.applied
  {
    RunMore(s, steps, Claim(reply));
    hide Run;
  }

  /** A cancellation takes a job away exactly when it is not running. */
  lemma CancelIff(s: State, steps: seq<Step>, id: nat)
    requires id in Run(s, steps).table
    ensures var u, v := Run(s, steps), Run(s, steps + [Delete(id)]);
            && (id !in v.table <==> u.table[id].status != Running)
            && (u.table[id].status != Running ==> v.table == u.table - {id})
            && (u.table[id].status == Running ==> v == u)
  {
    RunMore(s, steps, Delete(id));
    hide Run;
  }

  /** A job that is due, claimed and applied with a report that counts as done is done and
      was applied; one that cannot be applied is failed and never was. */
  lemma OneJobThrough()
    ensures var s := Run(EMPTY, [Create(1, 10, 0), Tick(0, [1]), Claim(Answered), Apply]);
            var t := Run(EMPTY, [Create(1, 10, 0), Tick(0, [1]), Claim(Answered)]);
            && s.applied == [1] && Next(s, Finish(true, true)).table == map[1 := Job(10, 0, Done)]
            && t.applied == [] && Next(t, Finish(true, false)).table == map[1 := Job(10, 0, Failed)]
  {
    hide Run, Next, IsDue, Copies;
    var job := Job(10, 0, Pending);
    var t1 := EMPTY.(table := map[1 := job], used := {1});
    var t2 := t1.(phase := Passing([Copy(1, job)]));
    var t3 := t2.(table := map[1 := job.(status := Running)], claims := [1], phase := Claimed(Copy(1, job), []));
    OneJobDue(t1.table, job);
    FirstTwo(t1, t2, job);
    ClaimTakes(t2, job);
    ApplyAndFinish(t3, job);
    ThreeSteps(Create(1, 10, 0), Tick(0, [1]), Claim(Answered));
    FourSteps(Create(1, 10, 0), Tick(0, [1]), Claim(Answered), Apply);
  }

  lemma ThreeSteps(a: Step, b: Step, c: Step)
    ensures Run(EMPTY, [a, b, c]) == Next(Next(Next(EMPTY, a), b), c)
  {
    hide Next;
    RunMore(EMPTY, [], a);
    RunMore(EMPTY, [a], b);
    RunMore(EMPTY, [a, b], c);
    assert [] + [a] == [a] && [a] + [b] == [a, b] && [a, b] + [c] == [a, b, c];
  }

  lemma ClaimTakes(s: State, job: Job)
    requires s.table == map[1 := job] && job.status == Pending && s.phase == Passing([Copy(1, job)]) && s.claims == []
    ensures Next(s, Claim(Answered))
            == s.(table := map[1 := job.(status := Running)], claims := [1], phase := Claimed(Copy(1, job), []))
  {
    assert [Copy(1, job)][1..] == [] && [] + [1] == [1];
    assert s.table[1 := job.(status := Running)] == map[1 := job.(status := Running)];
  }

  lemma ApplyAndFinish(s: State, job: Job)
    requires s.table == map[1 := job.(status := Running)] && s.phase == Claimed(Copy(1, job), []) && s.applied == []
    ensures var t := s.(applied := [1], phase := Applied(Copy(1, job), []));
            && Next(s, Apply) == t
            && Next(t, Finish(true, true)).table == map[1 := job.(status := Done)]
            && Next(s, Finish(true, false)).table == map[1 := job.(status := Failed)]
  {
    assert [] + [1] == [1];
    assert s.table[1 := job.(status := Done)] == map[1 := job.(status := Done)];
    assert s.table[1 := job.(status := Failed)] == map[1 := job.(status := Failed)];
  }
}

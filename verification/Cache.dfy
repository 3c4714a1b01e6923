/** The record cache under concurrent writes, reloads and refreshes, and the fleet wide
    pass that callers join (internal/fleet/refresh.go, internal/fleet/apply.go,
    internal/store/cache.go). */
module Cache {
  import opened Platform
  import opened Records

  // ----- sections under a server's lock -----

  /** What the panel stores about one server. */
  datatype Stored = Stored(records: seq<Record>, digest: string, reachable: bool)

  /** Where one goroutine stands: queued for the lock of a server, inside its section,
      inside with the file read, or with the records replaced as well. */
  datatype Stage =
    | Idle
    | Queued(server: nat)
    | Inside(server: nat)
    | HasRead(server: nat, content: string)
    | HasReplaced(server: nat, content: string)

  /** current is the servers whose file nobody has changed since the read that the last
      complete refill stored; touched is the servers somebody outside changed since the
      section on them read the file. */
  datatype State = State(
    files: map<nat, string>,
    stored: map<nat, Stored>,
    locks: map<nat, nat>,
    stages: map<nat, Stage>,
    current: set<nat>,
    touched: set<nat>)

  datatype Step =
    | Ask(who: nat, server: nat)
    | Take(who: nat)
    | Put(who: nat, content: string)
    | ReadFile(who: nat, answered: bool)
    | ReplaceRecords(who: nat, good: bool)
    | SetFetched(who: nat, good: bool)
    | Release(who: nat)
    | Outside(server: nat, content: string)
    | Crash

  function StageOf(s: State, who: nat): Stage {
    if who in s.stages then s.stages[who] else Idle
  }

  predicate Within(stage: Stage) {
    stage.Inside? || stage.HasRead? || stage.HasReplaced?
  }

  function Next(s: State, step: Step): State {
    match step
    case Ask(who, server) =>
      if StageOf(s, who) == Idle && server in s.files && server in s.stored then s.(stages := s.stages[who := Queued(server)])
      else s
    case Take(who) =>
      var stage := StageOf(s, who);
      if stage.Queued? && stage.server !in s.locks then
        s.(locks := s.locks[stage.server := who], stages := s.stages[who := Inside(stage.server)])
      else s
    case Put(who, content) =>
      var stage := StageOf(s, who);
      if stage.Inside? then
        s.(files := s.files[stage.server := content], current := s.current - {stage.server})
      else s
    case ReadFile(who, answered) =>
      var stage := StageOf(s, who);
      if !stage.Inside? || stage.server !in s.files || stage.server !in s.stored then s
      else if answered then
        s.(stages := s.stages[who := HasRead(stage.server, s.files[stage.server])], touched := s.touched - {stage.server})
      else s.(stored := s.stored[stage.server := s.stored[stage.server].(reachable := false)])
    case ReplaceRecords(who, good) =>
      var stage := StageOf(s, who);
      if !stage.HasRead? || stage.server !in s.stored then s
      else if good then
        s.(stored := s.stored[stage.server := s.stored[stage.server].(records := Parse(stage.content))],
           stages := s.stages[who := HasReplaced(stage.server, stage.content)])
      else s.(stages := s.stages[who := Inside(stage.server)])
    case SetFetched(who, good) =>
      var stage := StageOf(s, who);
      if !stage.HasReplaced? || stage.server !in s.stored then s
      else if good then
        s.(stored := s.stored[stage.server := Stored(s.stored[stage.server].records, DigestOf(stage.content), true)],
           stages := s.stages[who := Inside(stage.server)],
           current := if stage.server in s.touched then s.current else s.current + {stage.server})
      else s.(stages := s.stages[who := Inside(stage.server)])
    case Release(who) =>
      var stage := StageOf(s, who);
      if Within(stage) then s.(locks := s.locks - {stage.server}, stages := s.stages[who := Idle]) else s
    case Outside(server, content) =>
      if server in s.files then
        s.(files := s.files[server := content], current := s.current - {server}, touched := s.touched + {server})
      else s
    case Crash => s.(locks := map[], stages := map[])
  }

  function Run(s: State, steps: seq<Step>): State
    decreases |steps|
  {
    if steps == [] then s else Run(Next(s, steps[0]), steps[1..])
  }

  /** The stored records are what the file reads as, and the stored digest is its
      digest. */
  predicate Agrees(s: State, server: nat) {
    server in s.files && server in s.stored
    && s.stored[server].records == Parse(s.files[server])
    && s.stored[server].digest == DigestOf(s.files[server])
  }

  /** The lock of a server is held by whoever is in its section, and by nobody else. */
  predicate Holds(s: State, who: nat) {
    var stage := StageOf(s, who);
    && (Within(stage) ==> stage.server in s.locks && s.locks[stage.server] == who)
    && (stage != Idle ==> stage.server in s.files && stage.server in s.stored)
  }

  predicate Held(s: State, server: nat) {
    server in s.locks ==> Within(StageOf(s, s.locks[server])) && StageOf(s, s.locks[server]).server == server
  }

  ghost predicate Exclusive(s: State) {
    (forall who: nat :: Holds(s, who)) && forall server: nat :: Held(s, server)
  }

  /** What one goroutine holds is what the file says, unless somebody outside changed
      it. */
  predicate Sees(s: State, stage: Stage) {
    match stage
    case HasRead(server, content) =>
      server in s.files && (server !in s.touched ==> content == s.files[server])
    case HasReplaced(server, content) =>
      && server in s.files && (server !in s.touched ==> content == s.files[server])
      && server in s.stored && s.stored[server].records == Parse(content)
    case _ => true
  }

  function Actor(step: Step): nat {
    match step
    case Outside(_, _) => 0
    case Crash => 0
    case _ => step.who
  }

  lemma StepHolds(s: State, step: Step, other: nat)
    requires Holds(s, other) && Holds(s, Actor(step))
    ensures Holds(Next(s, step), other)
  {
    hide Parse, DigestOf;
  }

  lemma StepHeld(s: State, step: Step, server: nat)
    requires Held(s, server) && Holds(s, Actor(step))
    ensures Held(Next(s, step), server)
  {
    hide Parse, DigestOf;
  }

  lemma StepSees(s: State, step: Step, other: nat)
    requires Holds(s, other) && Holds(s, Actor(step)) && Sees(s, StageOf(s, other))
    ensures Sees(Next(s, step), StageOf(Next(s, step), other))
  {
    hide Parse, DigestOf;
  }

  predicate Fresh(s: State, server: nat) {
    server in s.current ==> server !in s.touched && Agrees(s, server)
  }

  lemma StepFresh(s: State, step: Step, server: nat)
    requires Holds(s, Actor(step)) && Sees(s, StageOf(s, Actor(step))) && Fresh(s, server)
    ensures Fresh(Next(s, step), server)
  {
    hide Parse, DigestOf;
  }

  ghost predicate Good(s: State) {
    && Exclusive(s)
    && (forall who: nat :: Sees(s, StageOf(s, who)))
    && forall server: nat :: Fresh(s, server)
  }

  lemma StepGood(s: State, step: Step)
    requires Good(s)
    ensures Good(Next(s, step))
  {
    hide Next, Holds, Held, Sees, Fresh, StageOf;
    var t := Next(s, step);
    forall who: nat
      ensures Holds(t, who) && Sees(t, StageOf(t, who))
    {
      StepHolds(s, step, who);
      StepSees(s, step, who);
    }
    forall server: nat
      ensures Held(t, server) && Fresh(t, server)
    {
      StepHeld(s, step, server);
      StepFresh(s, step, server);
    }
  }

  predicate Initial(s: State) {
    s.locks == map[] && s.stages == map[] && s.current == {}
  }

  lemma {:induction false} RunGood(s: State, steps: seq<Step>)
    requires Good(s)
    ensures Good(Run(s, steps))
    decreases |steps|
  {
    hide Next, Good;
    if steps != [] {
      StepGood(s, steps[0]);
      RunGood(Next(s, steps[0]), steps[1..]);
    }
  }

  lemma InitialGood(s: State)
    requires Initial(s)
    ensures Good(s)
  {
    hide Agrees;
    forall who: nat
      ensures Holds(s, who) && Sees(s, StageOf(s, who))
    {
      assert StageOf(s, who) == Idle;
    }
    assert forall server: nat :: Held(s, server) && Fresh(s, server);
  }

  /** At any moment of any run, whoever writes, reloads and refreshes at the same time:
      a server whose last refill is complete and whose file was not changed since that
      refill read it has the records and the digest of its file in the cache. */
  lemma CacheAgrees(s: State, steps: seq<Step>, server: nat)
    requires Initial(s) && server in Run(s, steps).current
    ensures Agrees(Run(s, steps), server)
  {
    hide Run, Next, Agrees;
    InitialGood(s);
    RunGood(s, steps);
    assert Fresh(Run(s, steps), server);
  }

  /** No two goroutines are ever inside the section of one server. */
  lemma OneInside(s: State, steps: seq<Step>, a: nat, b: nat)
    requires Initial(s)
    ensures var t := Run(s, steps);
            Within(StageOf(t, a)) && Within(StageOf(t, b)) && StageOf(t, a).server == StageOf(t, b).server ==> a == b
  {
    hide Run, Next, Sees, Fresh;
    InitialGood(s);
    RunGood(s, steps);
    assert Holds(Run(s, steps), a) && Holds(Run(s, steps), b);
  }

  // ----- when a refill counts -----

  /** What makes a server current: this step is a refill that was stored whole. */
  predicate Refills(s: State, step: Step, server: nat) {
    step.SetFetched? && step.good && StageOf(s, step.who).HasReplaced? && StageOf(s, step.who).server == server
    && server in s.stored && server !in s.touched
  }

  /** What stops it being current: this step changes the file. */
  predicate Changes(s: State, step: Step, server: nat) {
    || (step.Put? && StageOf(s, step.who).Inside? && StageOf(s, step.who).server == server)
    || (step.Outside? && step.server == server && server in s.files)
  }

  lemma CurrentStep(s: State, step: Step, server: nat)
    ensures server in Next(s, step).current <==> Refills(s, step, server) || (server in s.current && !Changes(s, step, server))
  {
    hide Parse, DigestOf;
  }

  // ----- the pass over the fleet -----

  /** Where a caller of All stands. A leader works, then ends the pass, then lets the
      others see the results. */
  datatype Caller =
    | Away
    | Leading(pass: nat)
    | Ending(pass: nat)
    | Closing(pass: nat)
    | Joining(pass: nat)
    | Gone
    | Served(pass: nat, results: nat)

  /** leaders names the caller that started each pass; results stands for what allOnce
      of a pass returned. */
  datatype Fleet = Fleet(
    pass: Option<nat>,
    leaders: seq<nat>,
    results: map<nat, nat>,
    closed: set<nat>,
    callers: map<nat, Caller>)

  datatype Move =
    | Call(who: nat)
    | Work(who: nat, results: nat)
    | End(who: nat)
    | Close(who: nat)
    | Wake(who: nat)
    | GiveUp(who: nat)

  function CallerOf(f: Fleet, who: nat): Caller {
    if who in f.callers then f.callers[who] else Away
  }

  function Advance(f: Fleet, move: Move): Fleet {
    var caller := CallerOf(f, move.who);
    match move
    case Call(who) =>
      if caller != Away then f
      else if f.pass.Some? then f.(callers := f.callers[who := Joining(f.pass.value)])
      else f.(pass := Some(|f.leaders|), leaders := f.leaders + [who], callers := f.callers[who := Leading(|f.leaders|)])
    case Work(who, results) =>
      if caller.Leading? then
        f.(results := f.results[caller.pass := results], callers := f.callers[who := Ending(caller.pass)])
      else f
    case End(who) =>
      if caller.Ending? then f.(pass := None, callers := f.callers[who := Closing(caller.pass)]) else f
    case Close(who) =>
      if caller.Closing? && caller.pass in f.results then
        f.(closed := f.closed + {caller.pass}, callers := f.callers[who := Served(caller.pass, f.results[caller.pass])])
      else f
    case Wake(who) =>
      if caller.Joining? && caller.pass in f.closed && caller.pass in f.results then
        f.(callers := f.callers[who := Served(caller.pass, f.results[caller.pass])])
      else f
    case GiveUp(who) =>
      if caller.Joining? then f.(callers := f.callers[who := Gone]) else f
  }

  function Advances(f: Fleet, moves: seq<Move>): Fleet
    decreases |moves|
  {
    if moves == [] then f else Advances(Advance(f, moves[0]), moves[1..])
  }

  const QUIET := Fleet(None, [], map[], {}, map[])

  predicate Working(caller: Caller) {
    caller.Leading? || caller.Ending?
  }

  predicate Leads(caller: Caller) {
    Working(caller) || caller.Closing?
  }

  /** What holds of one caller. */
  predicate Placed(f: Fleet, who: nat) {
    var caller := CallerOf(f, who);
    && (Leads(caller) ==> caller.pass < |f.leaders| && f.leaders[caller.pass] == who && caller.pass !in f.closed)
    && (Working(caller) ==> f.pass == Some(caller.pass))
    && (caller.Closing? ==> f.pass != Some(caller.pass))
    && (caller.Leading? ==> caller.pass !in f.results)
    && (caller.Ending? || caller.Closing? ==> caller.pass in f.results)
    && (caller.Joining? ==> caller.pass < |f.leaders|)
    && (caller.Served? ==> caller.pass in f.results && f.results[caller.pass] == caller.results)
  }

  /** What holds of one pass: somebody leads it until its results are out. */
  predicate Led(f: Fleet, pass: nat) {
    && (pass < |f.leaders| && pass !in f.closed ==>
          Leads(CallerOf(f, f.leaders[pass])) && CallerOf(f, f.leaders[pass]).pass == pass)
    && (pass in f.closed ==> pass < |f.leaders| && pass in f.results)
    && (f.pass == Some(pass) ==> pass < |f.leaders| && pass !in f.closed)
    && (pass in f.results ==> pass < |f.leaders|)
  }

  ghost predicate Sound(f: Fleet) {
    (forall who: nat :: Placed(f, who)) && forall pass: nat :: Led(f, pass)
  }

  lemma AdvancePlaced(f: Fleet, move: Move, who: nat)
    requires Placed(f, who) && Placed(f, move.who)
    requires Led(f, |f.leaders|) && (f.pass.Some? ==> Led(f, f.pass.value))
    ensures Placed(Advance(f, move), who)
  {
  }

  lemma AdvanceLed(f: Fleet, move: Move, pass: nat)
    requires Led(f, pass) && Placed(f, move.who)
    ensures Led(Advance(f, move), pass)
  {
  }

  lemma AdvanceSound(f: Fleet, move: Move)
    requires Sound(f)
    ensures Sound(Advance(f, move))
  {
    hide Advance, Placed, Led;
    forall who: nat
      ensures Placed(Advance(f, move), who)
    {
      AdvancePlaced(f, move, who);
    }
    forall pass: nat
      ensures Led(Advance(f, move), pass)
    {
      AdvanceLed(f, move, pass);
    }
  }

  lemma {:induction false} AdvancesSound(f: Fleet, moves: seq<Move>)
    requires Sound(f)
    ensures Sound(Advances(f, moves))
    decreases |moves|
  {
    hide Advance, Sound;
    if moves != [] {
      AdvanceSound(f, moves[0]);
      AdvancesSound(Advance(f, moves[0]), moves[1..]);
    }
  }

  lemma QuietSound()
    ensures Sound(QUIET)
  {
  }

  /** At most one caller does the work of a pass at any moment, and everybody a pass
      answered got that pass's results. */
  lemma OnePassWorks(moves: seq<Move>, a: nat, b: nat)
    ensures var f := Advances(QUIET, moves);
            && (Working(CallerOf(f, a)) && Working(CallerOf(f, b)) ==> a == b)
            && (CallerOf(f, a).Served? && CallerOf(f, b).Served? && CallerOf(f, a).pass == CallerOf(f, b).pass ==>
                  CallerOf(f, a).results == CallerOf(f, b).results)
  {
    hide Advances, Advance, Led;
    QuietSound();
    AdvancesSound(QUIET, moves);
    assert Placed(Advances(QUIET, moves), a) && Placed(Advances(QUIET, moves), b);
  }

  /** Whoever joined a pass can be answered, or its leader is still on the way to
      letting it be. */
  lemma NobodyIsStranded(moves: seq<Move>, who: nat)
    ensures var f := Advances(QUIET, moves); var caller := CallerOf(f, who);
            caller.Joining? ==>
              caller.pass < |f.leaders|
              && ((caller.pass in f.closed && caller.pass in f.results) || Leads(CallerOf(f, f.leaders[caller.pass])))
  {
    hide Advances, Advance;
    QuietSound();
    AdvancesSound(QUIET, moves);
    var f := Advances(QUIET, moves);
    assert Placed(f, who);
    if CallerOf(f, who).Joining? {
      assert Led(f, CallerOf(f, who).pass);
    }
  }
}

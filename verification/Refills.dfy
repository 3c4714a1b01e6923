/** That a refill refills: what one goroutine alone makes of the cache, what a failed read
    leaves, and what a pass over the fleet hands to its callers
    (internal/fleet/refresh.go, internal/store/cache.go). */
module Refills {
  import opened Platform
  import opened Records
  import opened Cache

  // ----- one section -----

  /** Nobody is in the way of this goroutine. */
  predicate Ready(s: State, who: nat, server: nat) {
    StageOf(s, who) == Idle && server in s.files && server in s.stored && server !in s.locks
  }

  function Entered(s: State, who: nat, server: nat): State {
    s.(locks := s.locks[server := who], stages := s.stages[who := Inside(server)])
  }

  lemma Enters(s: State, who: nat, server: nat)
    requires Ready(s, who, server)
    ensures Next(Next(s, Ask(who, server)), Take(who)) == Entered(s, who, server)
  {
    hide Next, Entered;
    EnteredTo(s, who, server);
    var t := s.(stages := s.stages[who := Queued(server)]);
    AskIs(s, who, server);
    TakeIs(t, who, server);
    assert t.stages[who := Inside(server)] == s.stages[who := Inside(server)];
  }

  lemma EnteredTo(s: State, who: nat, server: nat)
    ensures Entered(s, who, server) == s.(locks := s.locks[server := who], stages := s.stages[who := Inside(server)])
  {
  }

  lemma AskIs(s: State, who: nat, server: nat)
    requires Ready(s, who, server)
    ensures Next(s, Ask(who, server)) == s.(stages := s.stages[who := Queued(server)])
  {
    hide Parse, DigestOf;
  }

  lemma TakeIs(s: State, who: nat, server: nat)
    requires who in s.stages && s.stages[who] == Queued(server) && server !in s.locks
    ensures Next(s, Take(who)) == s.(locks := s.locks[server := who], stages := s.stages[who := Inside(server)])
  {
    hide Parse, DigestOf;
  }

  /** The read, the two stores, and the way out. */
  lemma RefillSteps(s: State, who: nat, server: nat)
    requires StageOf(s, who) == Inside(server) && server in s.files && server in s.stored
    requires server in s.locks && s.locks[server] == who
    ensures var t := Next(Next(Next(s, ReadFile(who, true)), ReplaceRecords(who, true)), SetFetched(who, true));
            && t.stored == s.stored[server := Stored(Parse(s.files[server]), DigestOf(s.files[server]), true)]
            && t.files == s.files && t.locks == s.locks && StageOf(t, who) == Inside(server)
            && t.current == s.current + {server}
            && Next(t, Release(who)).stored == t.stored && Next(t, Release(who)).files == t.files
            && Next(t, Release(who)).current == t.current
            && server !in Next(t, Release(who)).locks && StageOf(Next(t, Release(who)), who) == Idle
  {
    hide Parse, DigestOf;
    var content := s.files[server];
    var s1 := Next(s, ReadFile(who, true));
    assert s1.files == s.files && s1.stored == s.stored && s1.locks == s.locks && s1.current == s.current;
    assert StageOf(s1, who) == HasRead(server, content) && server !in s1.touched;
    var s2 := Next(s1, ReplaceRecords(who, true));
    assert s2.stored == s.stored[server := s.stored[server].(records := Parse(content))];
    assert s2.files == s.files && s2.locks == s.locks && s2.current == s.current && server !in s2.touched;
    assert StageOf(s2, who) == HasReplaced(server, content);
    var t := Next(s2, SetFetched(who, true));
    assert t.stored == s.stored[server := Stored(Parse(content), DigestOf(content), true)];
  }

  function RefillRun(who: nat, server: nat): seq<Step> {
    [Ask(who, server), Take(who), ReadFile(who, true), ReplaceRecords(who, true), SetFetched(who, true), Release(who)]
  }

  /** A refill nobody disturbs leaves the cache with the records and the digest of the
      file, the server reachable and its lock free, whatever was stored before. */
  lemma RefillWorks(s: State, who: nat, server: nat)
    requires Ready(s, who, server)
    ensures var t := Run(s, RefillRun(who, server));
            && t.files == s.files
            && t.stored == s.stored[server := Stored(Parse(s.files[server]), DigestOf(s.files[server]), true)]
            && server in t.current && server !in t.locks && StageOf(t, who) == Idle
  {
    hide Next, Run, Parse, DigestOf;
    Enters(s, who, server);
    EnteredIs(s, who, server);
    RefillSteps(Entered(s, who, server), who, server);
    SixSteps(s, Ask(who, server), Take(who), ReadFile(who, true), ReplaceRecords(who, true), SetFetched(who, true), Release(who));
  }

  lemma EnteredIs(s: State, who: nat, server: nat)
    ensures var t := Entered(s, who, server);
            && t.files == s.files && t.stored == s.stored && t.current == s.current
            && StageOf(t, who) == Inside(server) && server in t.locks && t.locks[server] == who
  {
  }

  lemma SixSteps(s: State, a: Step, b: Step, c: Step, d: Step, e: Step, f: Step)
    ensures Run(s, [a, b, c, d, e, f]) == Next(Next(Next(Next(Next(Next(s, a), b), c), d), e), f)
  {
    hide Next;
    assert [a, b, c, d, e, f][1..] == [b, c, d, e, f] && [b, c, d, e, f][1..] == [c, d, e, f];
    assert [c, d, e, f][1..] == [d, e, f] && [d, e, f][1..] == [e, f] && [e, f][1..] == [f] && [f][1..] == [];
    var s2 := Next(Next(s, a), b);
    assert Run(s, [a, b, c, d, e, f]) == Run(s2, [c, d, e, f]);
    var s4 := Next(Next(s2, c), d);
    assert Run(s2, [c, d, e, f]) == Run(s4, [e, f]);
    assert Run(s4, [e, f]) == Run(Next(Next(s4, e), f), []);
  }

  /** A write inside the section is what the file holds, and what a refill behind it puts in
      the cache. */
  lemma WriteThrough(s: State, who: nat, server: nat, content: string)
    requires StageOf(s, who) == Inside(server) && server in s.files && server in s.stored
    requires server in s.locks && s.locks[server] == who
    ensures var w := Next(s, Put(who, content));
            var t := Next(Next(Next(w, ReadFile(who, true)), ReplaceRecords(who, true)), SetFetched(who, true));
            && w.files == s.files[server := content] && server !in w.current && w.stored == s.stored
            && t.files == w.files && server in t.current
            && t.stored == s.stored[server := Stored(Parse(content), DigestOf(content), true)]
  {
    hide Parse, DigestOf;
    var w := Next(s, Put(who, content));
    assert StageOf(w, who) == Inside(server) && w.locks == s.locks && w.files[server] == content;
    RefillSteps(w, who, server);
    hide Next;
  }

  /** A read that is not answered marks the server unreachable and keeps what was stored of
      it; a store that fails gives the refill up and leaves the server as current as it
      was. */
  lemma FailedRefill(s: State, who: nat, server: nat)
    requires StageOf(s, who) == Inside(server) && server in s.files && server in s.stored
    ensures var t := Next(s, ReadFile(who, false));
            && t == s.(stored := s.stored[server := Stored(s.stored[server].records, s.stored[server].digest, false)])
    ensures var t := Next(Next(s, ReadFile(who, true)), ReplaceRecords(who, false));
            && t.stored == s.stored && t.files == s.files && t.current == s.current && StageOf(t, who) == Inside(server)
  {
    hide Parse, DigestOf;
  }

  // ----- one pass -----

  /** Two callers, one pass: the second joins, and both get what the first one computed;
      a caller after that starts a pass of its own. */
  lemma PassShared(a: nat, b: nat, c: nat, results: nat)
    requires a != b && a != c && b != c
    ensures var joined := Advance(Advance(QUIET, Call(a)), Call(b));
            var done := Advance(Advance(Advance(joined, Work(a, results)), End(a)), Close(a));
            var woken := Advance(done, Wake(b));
            && CallerOf(joined, a) == Leading(0) && CallerOf(joined, b) == Joining(0)
            && CallerOf(woken, a) == Served(0, results) && CallerOf(woken, b) == Served(0, results)
            && CallerOf(Advance(woken, Call(c)), c) == Leading(1)
  {
    var f1 := Advance(QUIET, Call(a));
    assert f1.pass == Some(0) && CallerOf(f1, a) == Leading(0) && |f1.leaders| == 1 && CallerOf(f1, b) == Away;
    var f2 := Advance(f1, Call(b));
    assert CallerOf(f2, a) == Leading(0) && CallerOf(f2, b) == Joining(0) && CallerOf(f2, c) == Away;
    var f3 := Advance(f2, Work(a, results));
    assert CallerOf(f3, a) == Ending(0) && CallerOf(f3, b) == Joining(0) && f3.results == map[0 := results];
    var f4 := Advance(f3, End(a));
    assert CallerOf(f4, a) == Closing(0) && f4.pass == None && CallerOf(f4, b) == Joining(0);
    var f5 := Advance(f4, Close(a));
    assert CallerOf(f5, a) == Served(0, results) && 0 in f5.closed && CallerOf(f5, b) == Joining(0);
    var f6 := Advance(f5, Wake(b));
    assert CallerOf(f6, b) == Served(0, results) && CallerOf(f6, c) == Away && |f6.leaders| == 1 && f6.pass == None;
  }

  /** A caller that joined gets the results exactly when its pass is closed, and those of its
      pass; otherwise it goes on waiting. */
  lemma WakeIff(f: Fleet, who: nat)
    requires CallerOf(f, who).Joining?
    ensures var pass, woken := CallerOf(f, who).pass, Advance(f, Wake(who));
      && (pass in f.closed && pass in f.results ==> CallerOf(woken, who) == Served(pass, f.results[pass]))
      && (!(pass in f.closed && pass in f.results) ==> woken == f)
      && woken.pass == f.pass && woken.results == f.results
  {
  }
}

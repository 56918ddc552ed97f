/** When a probe holds the loop up, when it lets it go, and how one can be lost. */
module ProbeProgress {
  import opened BreakerSafety
  import opened CircuitBreaker
  import opened LoopMoves
  import opened SubmissionLoop
  import opened Wrappers

  ghost predicate WaitingOn(b: BreakerState, p: Probe) {
    b.state == HALF_OPEN && b.probe == Some(p)
  }

  /** Still waiting on p, and nothing was logged, so nothing submitted, since s. */
  ghost predicate Blocked(s: LoopState, s': LoopState, p: Probe) {
    WaitingOn(s'.br, p) && s'.log == s.log
  }

  /** Some job was active in the last accepted listing and is missing from this one. */
  ghost predicate SomeVanish(prev: Listing, jobs: Listing) {
    exists i :: VanishesAt(prev, jobs, i)
  }

  /** An accepted listing in which a job vanished, or p's job succeeded, failed, or has been active long enough. */
  ghost predicate Resolves(prev: Listing, e: Event, p: Probe) {
    && Accepted(prev, e.listing)
    && (|| SomeVanish(prev, e.listing.value)
        || Lived(e.listing.value, p, e.now)
        || ListedFailed(e.listing.value, p.name))
  }

  /** The last listing accepted, starting from prev. */
  function LastAccepted(prev: Listing, events: seq<Event>): Listing {
    if |events| == 0 then prev
    else
      var before, e := LastAccepted(prev, events[..|events| - 1]), events[|events| - 1];
      if Accepted(before, e.listing) then e.listing.value else before
  }

  lemma {:induction false} RunRemembersListing(s: LoopState, events: seq<Event>, dryRun: bool)
    ensures Run(s, events, dryRun).br.prev == LastAccepted(s.br.prev, events)
  {
    if |events| == 0 {
    } else {
      var n := |events| - 1;
      RunRemembersListing(s, events[..n], dryRun);
      TickLogsVanished(Run(s, events[..n], dryRun), events[n], dryRun);
    }
  }

  lemma GoneWhenVanished(prev: Listing, jobs: Listing)
    ensures Gone(prev, jobs) != [] <==> SomeVanish(prev, jobs)
  {
    GoneIsExact(prev, jobs);
    if Gone(prev, jobs) != [] {
      assert Gone(prev, jobs)[0] in Gone(prev, jobs);
    }
    if i :| VanishesAt(prev, jobs, i) {
      assert VanishesAs(prev, jobs, prev[i].name);
    }
  }

  // ------------------------------------------------------------------ one tick

  /** A tick leaves a waiting loop as it was exactly when it does not resolve the probe. */
  lemma ProbeResolvedExactlyWhen(s: LoopState, e: Event, dryRun: bool, p: Probe)
    requires WaitingOn(s.br, p)
    ensures Blocked(s, Ticked(s, e, dryRun), p) <==> !Resolves(s.br.prev, e, p)
  {
    var s1 := ReadFile(s, e.file);
    ReadFileKeepsBreaker(s, e.file);
    if Accepted(s.br.prev, e.listing) {
      var jobs := e.listing.value;
      var s2 := Advanced(s1, e.now, jobs);
      GoneWhenVanished(s.br.prev, jobs);
      AdvanceBlocks(s1, e.now, jobs, p);
      SettledKeepsBreaker(s2, s2.inflight, Gone(s.br.prev, jobs), jobs);
      SubmissionBlocks(Settled(s2, s2.inflight, Gone(s.br.prev, jobs), jobs), e.now, e.submitOk, dryRun, p);
    }
  }

  lemma AdvanceBlocks(s: LoopState, now: real, jobs: Listing, p: Probe)
    requires WaitingOn(s.br, p)
    ensures |Advanced(s, now, jobs).log| >= |s.log|
    ensures Blocked(s, Advanced(s, now, jobs), p)
       <==> !(Gone(s.br.prev, jobs) != []
              || Lived(jobs, p, now) || ListedFailed(jobs, p.name))
    ensures Advanced(s, now, jobs).log == s.log
      ==> WaitingOn(Advanced(s, now, jobs).br, p) || Advanced(s, now, jobs).br.probe.None?
  {
    LookupReadsListing(jobs, p.name);
    if Gone(s.br.prev, jobs) == [] {
      assert s.log + DeletedLines([], now) == s.log;
    }
  }

  lemma SubmissionBlocks(s: LoopState, now: real, ok: bool, dryRun: bool, p: Probe)
    ensures WaitingOn(s.br, p) ==> Submission(s, now, ok, dryRun) == s
    ensures |Submission(s, now, ok, dryRun).log| >= |s.log|
    ensures Submission(s, now, ok, dryRun).log == s.log ==> Submission(s, now, ok, dryRun).br == s.br
  {}

  // ------------------------------------------------------------------ whole runs

  /** f holds of every prefix of the run, the empty and the whole one included. */
  ghost predicate AllPrefixes(f: seq<Event> -> bool, events: seq<Event>) {
    forall n :: 0 <= n <= |events| ==> f(events[..n])
  }

  lemma AllPrefixesLast(f: seq<Event> -> bool, events: seq<Event>)
    requires |events| > 0
    ensures AllPrefixes(f, events) <==> AllPrefixes(f, events[..|events| - 1]) && f(events)
  {
    var k := |events| - 1;
    assert events[..|events|] == events;
    forall n | 0 <= n <= k ensures events[..k][..n] == events[..n] {}
    if AllPrefixes(f, events) {
      forall n | 0 <= n <= k ensures f(events[..k][..n]) {
        assert events[..k][..n] == events[..n];
      }
    }
  }

  ghost function BlockedAfter(s: LoopState, dryRun: bool, p: Probe): seq<Event> -> bool {
    events => Blocked(s, Run(s, events, dryRun), p)
  }

  /** Every prefix of the run leaves the loop blocked on p. */
  ghost predicate StaysBlocked(s: LoopState, events: seq<Event>, dryRun: bool, p: Probe) {
    AllPrefixes(BlockedAfter(s, dryRun, p), events)
  }

  /** No tick of the run resolves p; prev is the last listing accepted before it. */
  ghost predicate NoneResolves(prev: Listing, events: seq<Event>, p: Probe) {
    forall n :: 0 <= n < |events| ==> !Resolves(LastAccepted(prev, events[..n]), events[n], p)
  }

  lemma NoneResolvesLast(prev: Listing, events: seq<Event>, p: Probe)
    requires |events| > 0
    ensures var k := |events| - 1;
            NoneResolves(prev, events, p)
            <==> NoneResolves(prev, events[..k], p) && !Resolves(LastAccepted(prev, events[..k]), events[k], p)
  {
    var k := |events| - 1;
    forall n | 0 <= n < k ensures events[..k][..n] == events[..n] {}
    if NoneResolves(prev, events, p) {
      forall n | 0 <= n < k ensures !Resolves(LastAccepted(prev, events[..k][..n]), events[..k][n], p) {
        assert events[..k][..n] == events[..n];
      }
    }
  }

  /** A run leaves the loop blocked on p throughout exactly when none of its ticks resolves p. */
  lemma {:induction false} BlocksExactlyWhen(s: LoopState, events: seq<Event>, dryRun: bool, p: Probe)
    requires WaitingOn(s.br, p)
    ensures StaysBlocked(s, events, dryRun, p) <==> NoneResolves(s.br.prev, events, p)
  {
    if |events| == 0 {
    } else {
      var k := |events| - 1;
      AllPrefixesLast(BlockedAfter(s, dryRun, p), events);
      NoneResolvesLast(s.br.prev, events, p);
      BlocksExactlyWhen(s, events[..k], dryRun, p);
      RunRemembersListing(s, events[..k], dryRun);
      if StaysBlocked(s, events[..k], dryRun, p) {
        assert events[..k][..k] == events[..k];
        ProbeResolvedExactlyWhen(Run(s, events[..k], dryRun), events[k], dryRun, p);
      }
    }
  }

  /**
   * Any tick: a waiting breaker reopens exactly when some job is listed and an active job of the
   * last accepted listing is not. A probe that is not listed is waited on otherwise.
   */
  lemma DeletedProbeReopensExactlyWhen(s: LoopState, e: Event, dryRun: bool, p: Probe)
    requires WaitingOn(s.br, p)
    ensures Ticked(s, e, dryRun).br.state == OPEN <==> SeesVanished(s.br.prev, e)
    ensures e.listing.None? || Unlisted(e.listing.value, p.name) ==>
              (Blocked(s, Ticked(s, e, dryRun), p) <==> !SeesVanished(s.br.prev, e))
  {
    ProbeResolvedExactlyWhen(s, e, dryRun, p);
    ReadFileKeepsBreaker(s, e.file);
    if Accepted(s.br.prev, e.listing) {
      var jobs := e.listing.value;
      GoneWhenVanished(s.br.prev, jobs);
      var s2 := Advanced(ReadFile(s, e.file), e.now, jobs);
      SettledKeepsBreaker(s2, s2.inflight, Gone(s.br.prev, jobs), jobs);
    }
  }

  /**
   * Any tick: a waiting breaker closes, with its base quiet again, exactly when the listing is accepted,
   * nothing vanished, and the probe is last listed as succeeded or has been active long enough.
   */
  lemma ProbeClosesExactlyWhen(s: LoopState, e: Event, dryRun: bool, p: Probe)
    requires WaitingOn(s.br, p)
    ensures var s' := Ticked(s, e, dryRun);
            && (s'.br.state == CLOSED <==> Accepted(s.br.prev, e.listing) && !SomeVanish(s.br.prev, e.listing.value)
                                           && Lived(e.listing.value, p, e.now))
            && (s'.br.state == CLOSED ==> s'.br.quiet == s.br.baseQuiet && s'.br.probe.None?)
  {
    ReadFileKeepsBreaker(s, e.file);
    if Accepted(s.br.prev, e.listing) {
      var jobs := e.listing.value;
      GoneWhenVanished(s.br.prev, jobs);
      LookupReadsListing(jobs, p.name);
      var s2 := Advanced(ReadFile(s, e.file), e.now, jobs);
      SettledKeepsBreaker(s2, s2.inflight, Gone(s.br.prev, jobs), jobs);
    }
  }

  /** The listing shows some job, and lacks one that was active in the last accepted listing. */
  ghost predicate SeesVanished(prev: Listing, e: Event) {
    e.listing.Some? && e.listing.value != [] && SomeVanish(prev, e.listing.value)
  }

  /** Listed active and nothing else. */
  ghost predicate ListedRunning(jobs: Listing, name: string) {
    ListedAs(jobs, name, Status(true, false, false))
  }

  lemma RunningIsActive(jobs: Listing, name: string)
    requires ListedRunning(jobs, name)
    ensures ListedActive(jobs, name) && !ListedSucceeded(jobs, name) && !ListedFailed(jobs, name)
  {
    LookupIsLast(jobs, name, Status(true, false, false));
    LookupReadsListing(jobs, name);
  }

  /** A skipped tick, or one that lists p's job as active and finds nothing vanished. */
  ghost predicate Alive(prev: Listing, e: Event, p: Probe) {
    Accepted(prev, e.listing) ==> ListedRunning(e.listing.value, p.name) && !SomeVanish(prev, e.listing.value)
  }

  /**
   * Progress: while the probe stays listed active and nothing vanishes, the loop waits, and it
   * closes at the first accepted tick PROBE_OK seconds after the submission.
   */
  lemma LiveProbeCloses(s: LoopState, events: seq<Event>, e: Event, dryRun: bool, p: Probe)
    requires WaitingOn(s.br, p)
    requires forall n :: 0 <= n < |events| ==>
      && Alive(LastAccepted(s.br.prev, events[..n]), events[n], p)
      && (Accepted(LastAccepted(s.br.prev, events[..n]), events[n].listing) ==> events[n].now - p.since < PROBE_OK)
    requires Accepted(LastAccepted(s.br.prev, events), e.listing) && Alive(LastAccepted(s.br.prev, events), e, p)
    requires e.now - p.since >= PROBE_OK
    ensures StaysBlocked(s, events, dryRun, p) && Run(s, events + [e], dryRun).br.state == CLOSED
  {
    forall n | 0 <= n < |events| ensures !Resolves(LastAccepted(s.br.prev, events[..n]), events[n], p) {
      assert Alive(LastAccepted(s.br.prev, events[..n]), events[n], p);
      if Accepted(LastAccepted(s.br.prev, events[..n]), events[n].listing) {
        RunningIsActive(events[n].listing.value, p.name);
      }
    }
    BlocksExactlyWhen(s, events, dryRun, p);
    assert events[..|events|] == events && (events + [e])[..|events|] == events;
    RunRemembersListing(s, events, dryRun);
    RunningIsActive(e.listing.value, p.name);
    ProbeClosesExactlyWhen(Run(s, events, dryRun), e, dryRun, p);
  }

  // ------------------------------------------------------------------ losing a probe

  /** Deleted before any listing shows it, a probe goes back to the queue while the breaker waits for it. */
  lemma LostProbeIsRequeued(s: LoopState, e: Event, dryRun: bool, p: Probe, i: nat)
    requires WaitingOn(s.br, p) && Accepted(s.br.prev, e.listing)
    requires Unlisted(e.listing.value, p.name) && !SomeVanish(s.br.prev, e.listing.value)
    requires i < |s.inflight| && s.inflight[i].job == p.name && s.inflight[i].tries < MAX_TRIES
    ensures Blocked(s, Ticked(s, e, dryRun), p) && s.inflight[i] in Ticked(s, e, dryRun).queue
  {
    var jobs, s1 := e.listing.value, ReadFile(s, e.file);
    var gone, s2 := Gone(s.br.prev, e.listing.value), Advanced(s1, e.now, jobs);
    DeletedProbeReopensExactlyWhen(s, e, dryRun, p);
    GoneWhenVanished(s.br.prev, jobs);
    ReadFileKeepsBreaker(s, e.file);
    SettlingSorts(s2, s2.inflight, gone, jobs);
    WithHas(s2.inflight, i, gone, jobs);
    ReversedHas(With(s2.inflight, Requeued, gone, jobs), s.inflight[i]);
    SettledKeepsBreaker(s2, s2.inflight, gone, jobs);
    AdvanceBlocks(s1, e.now, jobs, p);
    SubmissionBlocks(Settled(s2, s2.inflight, gone, jobs), e.now, e.submitOk, dryRun, p);
  }

  /**
   * Such a state is reached with any base above 0, by a single job submitted as the probe and gone
   * at the next tick. From then on nothing is submitted exactly as long as no tick resolves the
   * probe, though its job is not running and waits in the queue.
   */
  lemma LostProbeIsStuck(job: string, cmd: string, base: real, later: seq<Event>)
    requires base > 0.0
    ensures var s := Run(Start([Item(job, cmd, 0)], 0.0, base), LosingRun(base), false);
            && s.queue == [Item(job, cmd, 1)] && s.inflight == []
            && WaitingOn(s.br, Probe(job, base)) && s.br.prev == []
            && (StaysBlocked(s, later, false, Probe(job, base)) <==> NoneResolves([], later, Probe(job, base)))
  {
    var s0, p := Start([Item(job, cmd, 0)], 0.0, base), Probe(job, base);
    var s1 := Ticked(s0, EmptyTick(base), false);
    var s := Ticked(s1, EmptyTick(base + 30.0), false);
    TwoTicks(s0, EmptyTick(base), EmptyTick(base + 30.0));
    ProbeLeaves(s0, job, cmd, base);
    ProbeLost(s1, job, cmd, base);
    BlocksExactlyWhen(s, later, false, p);
  }

  /** An accepted tick that finds an empty namespace; the command succeeds. */
  function EmptyTick(now: real): Event { Event(now, Unchanged, Some([]), true) }

  function LosingRun(base: real): seq<Event> { [EmptyTick(base), EmptyTick(base + 30.0)] }

  lemma TwoTicks(s: LoopState, e: Event, e': Event)
    ensures Run(s, [e, e'], false) == Ticked(Ticked(s, e, false), e', false)
  {
    assert [e, e'][..1] == [e] && [e][..0] == [];
    assert Run(s, [e], false) == Ticked(s, e, false);
  }

  lemma ProbeLeaves(s: LoopState, job: string, cmd: string, base: real)
    requires s == Start([Item(job, cmd, 0)], 0.0, base) && base > 0.0
    ensures var s' := Ticked(s, EmptyTick(base), false);
            WaitingOn(s'.br, Probe(job, base)) && s'.br.prev == []
            && s'.queue == [] && s'.inflight == [Item(job, cmd, 1)]
  {
    assert Gone([], []) == [];
  }

  lemma ProbeLost(s: LoopState, job: string, cmd: string, base: real)
    requires WaitingOn(s.br, Probe(job, base)) && s.br.prev == [] && s.queue == [] && s.inflight == [Item(job, cmd, 1)]
    ensures var s' := Ticked(s, EmptyTick(base + 30.0), false);
            WaitingOn(s'.br, Probe(job, base)) && s'.br.prev == []
            && s'.queue == [Item(job, cmd, 1)] && s'.inflight == []
  {
    var now := base + 30.0;
    var s2 := Advanced(s, now, []);
    assert Gone([], []) == [];
    var s3 := Settled(s2, s2.inflight, [], []);
    assert s3 == SettledOne(Settled(s2, [], [], []), s.inflight[0], [], []);
    assert s3.queue == [s.inflight[0]] + [] == s.inflight;
  }
}

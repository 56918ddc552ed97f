/**
 * What happens when the namespace empties. A listing without jobs is skipped while the last
 * accepted one shows an active job, and a skipped tick leaves that listing in place, so the loop
 * sees nothing until some job is listed again.
 */
module EmptiedNamespace {
  import opened BreakerSafety
  import opened CircuitBreaker
  import opened ProbeProgress
  import opened SubmissionLoop
  import opened Wrappers

  ghost predicate SomeActive(prev: Listing) {
    exists i :: 0 <= i < |prev| && prev[i].status.active
  }

  predicate ListsNothing(e: Event) {
    e.listing.None? || e.listing.value == []
  }

  /** Every listing of the run fails or is empty. */
  ghost predicate NothingListed(events: seq<Event>) {
    forall n :: 0 <= n < |events| ==> ListsNothing(events[n])
  }

  /** Every tick of the run is skipped; prev is the last listing accepted before it. */
  ghost predicate AllSkipped(prev: Listing, events: seq<Event>) {
    forall n :: 0 <= n < |events| ==> !Accepted(LastAccepted(prev, events[..n]), events[n].listing)
  }

  lemma SkippedExactlyWhen(prev: Listing, listing: Option<Listing>)
    requires SomeActive(prev)
    ensures !Accepted(prev, listing) <==> listing.None? || listing.value == []
  {}

  lemma AllSkippedLast(prev: Listing, events: seq<Event>)
    requires |events| > 0
    ensures var k := |events| - 1;
            AllSkipped(prev, events)
            <==> AllSkipped(prev, events[..k]) && !Accepted(LastAccepted(prev, events[..k]), events[k].listing)
  {
    var k := |events| - 1;
    forall n | 0 <= n < k ensures events[..k][..n] == events[..n] {}
    if AllSkipped(prev, events) {
      forall n | 0 <= n < k ensures !Accepted(LastAccepted(prev, events[..k][..n]), events[..k][n].listing) {
        assert events[..k][..n] == events[..n];
      }
    }
  }

  lemma NothingListedLast(events: seq<Event>)
    requires |events| > 0
    ensures var k := |events| - 1; NothingListed(events) <==> NothingListed(events[..k]) && ListsNothing(events[k])
  {}

  /**
   * After a listing with an active job a whole run is skipped exactly when it lists no job, however
   * long that listing is ago; and the listing stays the one to compare with.
   */
  lemma {:induction false} AllSkippedExactlyWhen(prev: Listing, events: seq<Event>)
    requires SomeActive(prev)
    ensures AllSkipped(prev, events) <==> NothingListed(events)
    ensures NothingListed(events) ==> LastAccepted(prev, events) == prev
  {
    if |events| == 0 {
    } else {
      var k := |events| - 1;
      AllSkippedExactlyWhen(prev, events[..k]);
      AllSkippedLast(prev, events);
      NothingListedLast(events);
      SkippedExactlyWhen(prev, events[k].listing);
    }
  }

  /**
   * While nothing is listed the loop only reads its queue file: the breaker stays in its state, no
   * deletion is recorded, no job in flight is requeued and nothing is submitted.
   */
  lemma {:induction false} EmptiedNamespaceStalls(s: LoopState, events: seq<Event>, dryRun: bool)
    requires SomeActive(s.br.prev) && NothingListed(events)
    ensures var s' := Run(s, events, dryRun); s' == s.(queue := s'.queue, seen := s'.seen)
  {
    if |events| == 0 {
    } else {
      var k := |events| - 1;
      EmptiedNamespaceStalls(s, events[..k], dryRun);
      var before := Run(s, events[..k], dryRun);
      SkippedExactlyWhen(s.br.prev, events[k].listing);
      ReadFileKeepsBreaker(before, events[k].file);
    }
  }

  /** Whatever vanished meanwhile is recorded by the next listing that shows a job, and dated by it. */
  lemma VanishedRecordedLate(s: LoopState, events: seq<Event>, e: Event, dryRun: bool)
    requires SomeActive(s.br.prev) && NothingListed(events) && !ListsNothing(e)
    ensures var s' := Run(s, events + [e], dryRun);
            History(s'.log) == History(s.log) + Stamped(Gone(s.br.prev, e.listing.value), e.now)
  {
    EmptiedNamespaceStalls(s, events, dryRun);
    assert (events + [e])[..|events|] == events;
    TickLogsVanished(Run(s, events, dryRun), e, dryRun);
  }

  // ------------------------------------------------------------------ the probe alone

  /**
   * A probe that is the only job, and is listed once, is lost this way with every base above 0: the
   * namespace is empty ever after, yet the breaker waits for the probe, which stays in flight.
   */
  lemma LoneProbeIsNeverMissed(job: string, cmd: string, uid: string, base: real, later: seq<Event>)
    requires base > 0.0 && NothingListed(later)
    ensures var s := Run(Start([Item(job, cmd, 0)], 0.0, base), SeenOnce(job, uid, base), false);
            var s' := Run(s, later, false);
            && WaitingOn(s.br, Probe(job, base)) && s.br.prev == [Job(uid, job, RUNNING)]
            && s.inflight == [Item(job, cmd, 1)] && s.queue == []
            && s' == s.(queue := s'.queue, seen := s'.seen)
  {
    var s0 := Start([Item(job, cmd, 0)], 0.0, base);
    var s1 := Ticked(s0, EmptyTick(base), false);
    TwoTicks(s0, EmptyTick(base), ProbeTick(job, uid, base + 30.0));
    ProbeLeaves(s0, job, cmd, base);
    ProbeListed(s1, job, cmd, uid, base);
    var s := Run(s0, SeenOnce(job, uid, base), false);
    assert s.br.prev[0].status.active;
    EmptiedNamespaceStalls(s, later, false);
  }

  /** A tick that finds the probe, active, and no other job. */
  function ProbeTick(job: string, uid: string, now: real): Event {
    Event(now, Unchanged, Some([Job(uid, job, RUNNING)]), true)
  }

  function SeenOnce(job: string, uid: string, base: real): seq<Event> {
    [EmptyTick(base), ProbeTick(job, uid, base + 30.0)]
  }

  lemma ProbeListed(s: LoopState, job: string, cmd: string, uid: string, base: real)
    requires WaitingOn(s.br, Probe(job, base)) && s.br.prev == [] && s.queue == [] && s.inflight == [Item(job, cmd, 1)]
    ensures var s' := Ticked(s, ProbeTick(job, uid, base + 30.0), false);
            && WaitingOn(s'.br, Probe(job, base)) && s'.br.prev == [Job(uid, job, RUNNING)]
            && s'.inflight == [Item(job, cmd, 1)] && s'.queue == []
  {
    var jobs := [Job(uid, job, RUNNING)];
    var s2 := Advanced(s, base + 30.0, jobs);
    assert Gone([], jobs) == [];
    assert ByName(jobs, job) == Some(RUNNING);
    var s3 := Settled(s2, s2.inflight, [], jobs);
    assert s3 == SettledOne(Settled(s2, [], [], jobs), s.inflight[0], [], jobs);
    assert s3.inflight == [] + [s.inflight[0]] == s.inflight;
  }
}

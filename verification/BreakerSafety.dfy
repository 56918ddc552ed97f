/** What every run of the loop under a non-decreasing clock keeps: safety of submissions. */
module BreakerSafety {
  import opened CircuitBreaker
  import opened SubmissionLoop
  import opened Wrappers

  // ------------------------------------------------------------------ what the log records

  /** Every deletion ever logged. */
  function History(log: seq<LogLine>): seq<Deletion> {
    if |log| == 0 then [] else
      var last := log[|log| - 1];
      History(log[..|log| - 1]) + (if last.Deleted? then [Deletion(last.time, last.name)] else [])
  }

  /** Transitions from HALF_OPEN back to OPEN since the breaker last closed. */
  function Reopenings(log: seq<LogLine>): nat {
    if |log| == 0 then 0 else
      var last, rest := log[|log| - 1], Reopenings(log[..|log| - 1]);
      if last == Moved(HALF_OPEN, OPEN) then rest + 1
      else if last.Moved? && last.after == CLOSED then 0
      else rest
  }

  function Doubled(quiet: real, k: nat): real {
    if k == 0 then quiet else 2.0 * Doubled(quiet, k - 1)
  }

  /** No submission was made while THRESHOLD or more deletions lay in the last WINDOW seconds. */
  ghost predicate SafeLog(log: seq<LogLine>) {
    forall i :: 0 <= i < |log| && log[i].Submitted? ==> |Recent(History(log[..i]), log[i].at)| < THRESHOLD
  }

  // ------------------------------------------------------------------ the invariant

  /** The quiet period after k reopenings in a row. */
  function QuietAfter(base: real, k: nat): real {
    if k == 0 then base else Min(Doubled(base, k), MAX_QUIET)
  }

  /** The breaker at time t, after deletions h and k reopenings since it last closed. */
  ghost predicate BreakerInvariant(b: BreakerState, h: seq<Deletion>, k: nat, t: real) {
    && b.quiet == QuietAfter(b.baseQuiet, k)
    && b.lastDeletion <= t && (forall i :: 0 <= i < |h| ==> h[i].time <= b.lastDeletion)
    && b.deletions == Recent(h, t)
    && (b.state == HALF_OPEN ==> t - b.lastDeletion >= b.quiet)
    && (b.probe.Some? ==> b.state == HALF_OPEN)
  }

  /** Holds after every tick, whatever the base; t is when a listing was last observed. */
  ghost predicate Invariant(s: LoopState, t: real) {
    BreakerInvariant(s.br, History(s.log), Reopenings(s.log), t)
  }

  /** What a base beyond the window adds. */
  ghost predicate Guarded(s: LoopState, t: real) {
    && Invariant(s, t) && WINDOW < s.br.baseQuiet
    && (s.br.state == CLOSED ==> |s.br.deletions| < THRESHOLD)
    && SafeLog(s.log)
  }

  function Clock(start: real, events: seq<Event>): real {
    if |events| == 0 then start else events[|events| - 1].now
  }

  ghost predicate NonDecreasing(start: real, events: seq<Event>) {
    && (forall i :: 0 <= i < |events| ==> start <= events[i].now)
    && (forall i, j :: 0 <= i < j < |events| ==> events[i].now <= events[j].now)
  }

  /** When a listing was last accepted. */
  function ObservedAt(s: LoopState, start: real, events: seq<Event>, dryRun: bool): real {
    if |events| == 0 then start else
      var n := |events| - 1;
      if Accepted(Run(s, events[..n], dryRun).br.prev, events[n].listing) then events[n].now
      else ObservedAt(s, start, events[..n], dryRun)
  }

  /** Every run keeps the invariant. */
  lemma {:induction false} RunKeepsInvariant(queue: seq<Item>, start: real, base: real,
                                            events: seq<Event>, dryRun: bool)
    requires NonDecreasing(start, events)
    ensures var s := Start(queue, start, base);
            Invariant(Run(s, events, dryRun), ObservedAt(s, start, events, dryRun))
    ensures ObservedAt(Start(queue, start, base), start, events, dryRun) <= Clock(start, events)
  {
    if |events| == 0 {
    } else {
      var s, n := Start(queue, start, base), |events| - 1;
      RunKeepsInvariant(queue, start, base, events[..n], dryRun);
      TickKeepsInvariant(Run(s, events[..n], dryRun), ObservedAt(s, start, events[..n], dryRun), events[n], dryRun);
    }
  }

  /** A run whose base is longer than the window is guarded throughout. */
  lemma {:induction false} RunIsGuarded(queue: seq<Item>, start: real, base: real, events: seq<Event>, dryRun: bool)
    requires NonDecreasing(start, events) && WINDOW < base
    ensures var s := Start(queue, start, base);
            Guarded(Run(s, events, dryRun), ObservedAt(s, start, events, dryRun))
  {
    if |events| == 0 {
    } else {
      var s, n := Start(queue, start, base), |events| - 1;
      RunIsGuarded(queue, start, base, events[..n], dryRun);
      RunKeepsInvariant(queue, start, base, events[..n], dryRun);
      TickStaysGuarded(Run(s, events[..n], dryRun), ObservedAt(s, start, events[..n], dryRun), events[n], dryRun);
    }
  }

  lemma TickKeepsInvariant(s: LoopState, t: real, e: Event, dryRun: bool)
    requires Invariant(s, t) && t <= e.now
    ensures Invariant(Ticked(s, e, dryRun), if Accepted(s.br.prev, e.listing) then e.now else t)
  {
    var s1 := ReadFile(s, e.file);
    ReadFileKeepsBreaker(s, e.file);
    if Accepted(s.br.prev, e.listing) {
      var jobs := e.listing.value;
      var s2 := Advanced(s1, e.now, jobs);
      AdvanceKeepsInvariant(s1, t, e.now, jobs);
      SettledKeepsBreaker(s2, s2.inflight, Gone(s1.br.prev, jobs), jobs);
      SubmissionKeepsInvariant(Settled(s2, s2.inflight, Gone(s1.br.prev, jobs), jobs), e.now, e.submitOk, dryRun);
    }
  }

  lemma TickStaysGuarded(s: LoopState, t: real, e: Event, dryRun: bool)
    requires Guarded(s, t) && t <= e.now
    ensures Guarded(Ticked(s, e, dryRun), if Accepted(s.br.prev, e.listing) then e.now else t)
  {
    var s1 := ReadFile(s, e.file);
    ReadFileKeepsBreaker(s, e.file);
    if Accepted(s.br.prev, e.listing) {
      var jobs := e.listing.value;
      var s2 := Advanced(s1, e.now, jobs);
      AdvanceStaysGuarded(s1, t, e.now, jobs);
      SettledKeepsBreaker(s2, s2.inflight, Gone(s1.br.prev, jobs), jobs);
      SubmissionIsSafe(Settled(s2, s2.inflight, Gone(s1.br.prev, jobs), jobs), e.now, e.submitOk, dryRun);
    }
  }

  lemma {:induction false} SettledKeepsBreaker(s: LoopState, items: seq<Item>, gone: seq<string>, jobs: Listing)
    ensures var s' := Settled(s, items, gone, jobs); s'.br == s.br && s'.log == s.log && s'.seen == s.seen
  {
    if |items| == 0 {
    } else {
      SettledKeepsBreaker(s, items[..|items| - 1], gone, jobs);
    }
  }

  // ------------------------------------------------------------------ observing and stepping

  lemma {:induction false} HistoryOfDeletions(log: seq<LogLine>, gone: seq<string>, now: real)
    ensures History(log + DeletedLines(gone, now)) == History(log) + Stamped(gone, now)
    ensures Reopenings(log + DeletedLines(gone, now)) == Reopenings(log)
  {
    if |gone| == 0 {
      assert log + DeletedLines(gone, now) == log;
    } else {
      var rest, last := gone[..|gone| - 1], gone[|gone| - 1];
      HistoryOfDeletions(log, rest, now);
      DeletionLogged(log + DeletedLines(rest, now), now, last);
      DeletedLast(log, gone, now);
      assert History(log) + (Stamped(rest, now) + [Deletion(now, last)])
             == History(log) + Stamped(rest, now) + [Deletion(now, last)];
    }
  }

  lemma DeletedLast(log: seq<LogLine>, gone: seq<string>, now: real)
    requires |gone| > 0
    ensures var rest, last := gone[..|gone| - 1], gone[|gone| - 1];
            && log + DeletedLines(gone, now) == log + DeletedLines(rest, now) + [Deleted(now, last)]
            && Stamped(gone, now) == Stamped(rest, now) + [Deletion(now, last)]
  {}

  lemma DeletionLogged(log: seq<LogLine>, now: real, name: string)
    ensures History(log + [Deleted(now, name)]) == History(log) + [Deletion(now, name)]
    ensures Reopenings(log + [Deleted(now, name)]) == Reopenings(log)
  {
    assert (log + [Deleted(now, name)])[..|log|] == log;
  }

  /** Pruning the window as it goes is the same as filtering the whole history. */
  lemma {:induction false} PruningIsFiltering(h: seq<Deletion>, more: seq<Deletion>, t: real, now: real)
    requires t <= now
    ensures Recent(Recent(h, t) + more, now) == Recent(h + more, now)
  {
    if |more| == 0 {
      assert h + more == h && Recent(h, t) + more == Recent(h, t);
      RecentOfRecent(h, t, now);
    } else {
      var n := |more| - 1;
      PruningIsFiltering(h, more[..n], t, now);
      assert (h + more)[..|h + more| - 1] == h + more[..n];
      var w := Recent(h, t) + more;
      assert w[..|w| - 1] == Recent(h, t) + more[..n];
    }
  }

  lemma {:induction false} RecentOfRecent(h: seq<Deletion>, t: real, now: real)
    requires t <= now
    ensures Recent(Recent(h, t), now) == Recent(h, now)
  {
    if |h| == 0 {
    } else {
      var n := |h| - 1;
      RecentOfRecent(h[..n], t, now);
      if t - h[n].time <= WINDOW {
        assert Recent(h, t)[..|Recent(h, t)| - 1] == Recent(h[..n], t);
      } else {
        assert Recent(h, t) == Recent(h[..n], t) && Recent(h, now) == Recent(h[..n], now);
      }
    }
  }

  /** The places of the history that lie in the window: at most WINDOW seconds old. */
  ghost function InWindow(h: seq<Deletion>, now: real): set<int> {
    set i | 0 <= i < |h| && now - h[i].time <= WINDOW
  }

  /** Filtering keeps exactly the deletions in the window, each as often as it happened. */
  lemma {:induction false} RecentIsExact(h: seq<Deletion>, now: real)
    ensures |Recent(h, now)| == |InWindow(h, now)|
    ensures forall d :: d in Recent(h, now) <==> d in h && now - d.time <= WINDOW
  {
    if |h| == 0 {
    } else {
      var n := |h| - 1;
      RecentIsExact(h[..n], now);
      WindowOfMore(h, now);
      assert h == h[..n] + [h[n]];
    }
  }

  lemma WindowOfMore(h: seq<Deletion>, now: real)
    requires |h| > 0
    ensures var n := |h| - 1;
            |InWindow(h, now)| == |InWindow(h[..n], now)| + if now - h[n].time <= WINDOW then 1 else 0
  {
    var n := |h| - 1;
    forall i ensures i in InWindow(h, now) <==> i in InWindow(h[..n], now) || (i == n && now - h[n].time <= WINDOW) {}
    if now - h[n].time <= WINDOW {
      assert InWindow(h, now) == InWindow(h[..n], now) + {n};
    } else {
      assert InWindow(h, now) == InWindow(h[..n], now);
    }
  }

  lemma {:induction false} AllOld(h: seq<Deletion>, now: real)
    requires forall i :: 0 <= i < |h| ==> now - h[i].time > WINDOW
    ensures Recent(h, now) == []
  {
    if |h| == 0 {
    } else {
      AllOld(h[..|h| - 1], now);
    }
  }

  /** What a tick adds to the history and to the count of reopenings. */
  lemma AdvanceLogs(s: LoopState, now: real, jobs: Listing)
    ensures var s' := Advanced(s, now, jobs);
            && History(s'.log) == History(s.log) + Stamped(Gone(s.br.prev, jobs), now)
            && Reopenings(s'.log) == AfterMove(Reopenings(s.log), s.br.state, s'.br.state)
            && s'.br.prev == jobs
  {
    var gone, b := Gone(s.br.prev, jobs), s.br;
    var log, b' := s.log + DeletedLines(gone, now), Advanced(s, now, jobs).br;
    HistoryOfDeletions(s.log, gone, now);
    if b'.state != b.state {
      HistoryOfMove(log, b.state, b'.state);
    } else {
      assert log + [] == log;
    }
  }

  lemma AdvanceKeepsInvariant(s: LoopState, t: real, now: real, jobs: Listing)
    requires Invariant(s, t) && t <= now
    ensures Invariant(Advanced(s, now, jobs), now)
  {
    var gone, b := Gone(s.br.prev, jobs), Observed(s.br, jobs, now);
    AdvanceLogs(s, now, jobs);
    PruningIsFiltering(History(s.log), Stamped(gone, now), t, now);
    StepKeepsInvariant(b, History(s.log) + Stamped(gone, now), Reopenings(s.log), now, gone, jobs);
  }

  lemma AdvanceStaysGuarded(s: LoopState, t: real, now: real, jobs: Listing)
    requires Guarded(s, t) && t <= now
    ensures Guarded(Advanced(s, now, jobs), now)
  {
    AdvanceKeepsInvariant(s, t, now, jobs);
    AdvanceSubmitsNothing(s, now, jobs);
    AdvanceClosesQuietly(s, t, now, jobs);
  }

  lemma AdvanceClosesQuietly(s: LoopState, t: real, now: real, jobs: Listing)
    requires Invariant(s, t) && t <= now && WINDOW < s.br.baseQuiet
    ensures var b := Advanced(s, now, jobs).br;
            b.baseQuiet == s.br.baseQuiet && (b.state == CLOSED ==> |b.deletions| < THRESHOLD)
  {
    var gone, b := Gone(s.br.prev, jobs), Observed(s.br, jobs, now);
    PruningIsFiltering(History(s.log), Stamped(gone, now), t, now);
    QuietBeyondWindow(b.baseQuiet, Reopenings(s.log));
    StepClosesQuietly(b, History(s.log) + Stamped(gone, now), now, gone, jobs);
  }

  lemma {:induction false} QuietBeyondWindow(base: real, k: nat)
    requires WINDOW < base
    ensures QuietAfter(base, k) > WINDOW && Doubled(base, k) >= base
  {
    if k == 0 {
    } else {
      QuietBeyondWindow(base, k - 1);
    }
  }

  /** Closing needs a quiet window, so a closed breaker has fewer than THRESHOLD deletions in it. */
  lemma StepClosesQuietly(b: BreakerState, h: seq<Deletion>, now: real, gone: seq<string>, jobs: Listing)
    requires b.quiet > WINDOW && b.deletions == Recent(h, now)
    requires forall i :: 0 <= i < |h| ==> h[i].time <= b.lastDeletion
    requires b.state == HALF_OPEN && gone == [] ==> now - b.lastDeletion >= b.quiet
    ensures var b' := Stepped(b, now, gone, jobs); b'.state == CLOSED ==> |b'.deletions| < THRESHOLD
  {
    if b.state == HALF_OPEN && gone == [] {
      AllOld(h, now);
    }
  }

  lemma AdvanceSubmitsNothing(s: LoopState, now: real, jobs: Listing)
    requires SafeLog(s.log)
    ensures SafeLog(Advanced(s, now, jobs).log)
  {
    var b' := Advanced(s, now, jobs).br;
    var move := if b'.state != s.br.state then [Moved(s.br.state, b'.state)] else [];
    QuietLog(s.log, DeletedLines(Gone(s.br.prev, jobs), now));
    QuietLog(s.log + DeletedLines(Gone(s.br.prev, jobs), now), move);
  }

  /** Lines that are not submissions keep the log safe. */
  lemma QuietLog(log: seq<LogLine>, more: seq<LogLine>)
    requires SafeLog(log) && forall i :: 0 <= i < |more| ==> !more[i].Submitted?
    ensures SafeLog(log + more)
  {
    forall i | 0 <= i < |log + more| && (log + more)[i].Submitted?
      ensures |Recent(History((log + more)[..i]), (log + more)[i].at)| < THRESHOLD
    {
      assert (log + more)[..i] == log[..i];
    }
  }
  /** The step itself: quiet doubling, entry into HALF_OPEN only when quiet, a probe only there. */
  lemma StepKeepsInvariant(b: BreakerState, h: seq<Deletion>, k: nat, now: real,
                            gone: seq<string>, jobs: Listing)
    requires b.quiet == QuietAfter(b.baseQuiet, k)
    requires b.lastDeletion <= now && (forall i :: 0 <= i < |h| ==> h[i].time <= b.lastDeletion)
    requires b.deletions == Recent(h, now)
    requires b.state == HALF_OPEN && gone == [] ==> now - b.lastDeletion >= b.quiet
    requires b.probe.Some? ==> b.state == HALF_OPEN
    ensures var b' := Stepped(b, now, gone, jobs);
            BreakerInvariant(b', h, AfterMove(k, b.state, b'.state), now)
  {
    QuietDoubles(b.baseQuiet, k);
  }

  lemma QuietDoubles(base: real, k: nat)
    ensures QuietAfter(base, k + 1) == Min(2.0 * QuietAfter(base, k), MAX_QUIET)
  {
    assert Doubled(base, 1) == 2.0 * Doubled(base, 0);
  }

  /** Reopenings since the breaker last closed, after a transition. */
  function AfterMove(k: nat, before: State, after: State): nat {
    if before == HALF_OPEN && after == OPEN then k + 1
    else if before != CLOSED && after == CLOSED then 0
    else k
  }

  lemma HistoryOfMove(log: seq<LogLine>, before: State, after: State)
    requires before != after
    ensures var log' := log + [Moved(before, after)];
            History(log') == History(log) && Reopenings(log') == AfterMove(Reopenings(log), before, after)
  {
    var log' := log + [Moved(before, after)];
    assert log'[..|log|] == log;
  }

  // ------------------------------------------------------------------ submitting

  lemma SubmissionKeepsInvariant(s: LoopState, now: real, ok: bool, dryRun: bool)
    requires Invariant(s, now)
    ensures Invariant(Submission(s, now, ok, dryRun), now)
  {
    if s.queue != [] && MaySubmit(s.br) && !dryRun {
      var line := Submitted(now, s.queue[0].job, s.queue[0].tries + 1);
      CountedLog(s.log, line);
      assert Submission(s, now, ok, dryRun).log == s.log + [line];
    }
  }

  lemma CountedLog(log: seq<LogLine>, line: LogLine)
    requires line.Submitted?
    ensures History(log + [line]) == History(log) && Reopenings(log + [line]) == Reopenings(log)
  {
    assert (log + [line])[..|log|] == log;
  }

  lemma SubmissionIsSafe(s: LoopState, now: real, ok: bool, dryRun: bool)
    requires Guarded(s, now)
    ensures Guarded(Submission(s, now, ok, dryRun), now)
  {
    SubmissionKeepsInvariant(s, now, ok, dryRun);
    if s.queue != [] && MaySubmit(s.br) && !dryRun {
      if s.br.state == HALF_OPEN {
        QuietBeyondWindow(s.br.baseQuiet, Reopenings(s.log));
        AllOld(History(s.log), now);
      }
      SubmissionLogged(s.log, Submitted(now, s.queue[0].job, s.queue[0].tries + 1));
    }
  }

  lemma SubmissionLogged(log: seq<LogLine>, line: LogLine)
    requires SafeLog(log) && line.Submitted? && |Recent(History(log), line.at)| < THRESHOLD
    ensures SafeLog(log + [line])
  {
    var log' := log + [line];
    assert log'[..|log|] == log;
    forall i | 0 <= i < |log'| && log'[i].Submitted? ensures |Recent(History(log'[..i]), log'[i].at)| < THRESHOLD {
      assert i < |log| ==> log'[..i] == log[..i];
    }
  }

  // ------------------------------------------------------------------ the deletions are the vanished jobs

  datatype Observation = Observation(at: real, jobs: Listing)

  /** The listings the loop accepted, each with its time: a failed or suspicious one is skipped. */
  function AcceptedListings(events: seq<Event>): seq<Observation> {
    if |events| == 0 then [] else
      var e, before := events[|events| - 1], AcceptedListings(events[..|events| - 1]);
      if Accepted(LastJobs(before), e.listing) then before + [Observation(e.now, e.listing.value)] else before
  }

  function LastJobs(obs: seq<Observation>): Listing {
    if |obs| == 0 then [] else obs[|obs| - 1].jobs
  }

  /** The jobs that were active in one accepted listing and absent from the next, at its time. */
  function Vanished(obs: seq<Observation>): seq<Deletion> {
    if |obs| == 0 then [] else
      var last, before := obs[|obs| - 1], obs[..|obs| - 1];
      Vanished(before) + Stamped(Gone(LastJobs(before), last.jobs), last.at)
  }

  /**
   * Over any run the logged deletions are exactly the active jobs that vanish between consecutive
   * accepted listings; skipped ticks lose and invent none.
   */
  lemma {:induction false} DeletionsAreVanishedJobs(queue: seq<Item>, start: real, base: real,
                                                   events: seq<Event>, dryRun: bool)
    ensures var s := Run(Start(queue, start, base), events, dryRun);
            History(s.log) == Vanished(AcceptedListings(events)) && s.br.prev == LastJobs(AcceptedListings(events))
  {
    if |events| == 0 {
    } else {
      var n := |events| - 1;
      DeletionsAreVanishedJobs(queue, start, base, events[..n], dryRun);
      var s, e := Run(Start(queue, start, base), events[..n], dryRun), events[n];
      TickLogsVanished(s, e, dryRun);
      if e.listing.Some? {
        OneMoreListing(AcceptedListings(events[..n]), e);
      }
    }
  }

  lemma OneMoreListing(obs: seq<Observation>, e: Event)
    requires e.listing.Some?
    ensures var obs' := obs + [Observation(e.now, e.listing.value)];
            && LastJobs(obs') == e.listing.value
            && Vanished(obs') == Vanished(obs) + Stamped(Gone(LastJobs(obs), e.listing.value), e.now)
  {
    var obs' := obs + [Observation(e.now, e.listing.value)];
    assert obs'[..|obs|] == obs;
  }

  lemma TickLogsVanished(s: LoopState, e: Event, dryRun: bool)
    ensures var s' := Ticked(s, e, dryRun);
            if Accepted(s.br.prev, e.listing) then
              && History(s'.log) == History(s.log) + Stamped(Gone(s.br.prev, e.listing.value), e.now)
              && s'.br.prev == e.listing.value
            else History(s'.log) == History(s.log) && s'.br.prev == s.br.prev
  {
    var s1 := ReadFile(s, e.file);
    ReadFileKeepsBreaker(s, e.file);
    if Accepted(s.br.prev, e.listing) {
      var jobs := e.listing.value;
      var gone := Gone(s.br.prev, jobs);
      var s2 := Advanced(s1, e.now, jobs);
      AdvanceLogs(s1, e.now, jobs);
      SettledKeepsBreaker(s2, s2.inflight, gone, jobs);
      SubmissionLogsNoDeletion(Settled(s2, s2.inflight, gone, jobs), e.now, e.submitOk, dryRun);
    }
  }

  lemma SubmissionLogsNoDeletion(s: LoopState, now: real, ok: bool, dryRun: bool)
    ensures var s' := Submission(s, now, ok, dryRun);
            History(s'.log) == History(s.log) && s'.br.prev == s.br.prev
  {
    var log' := Submission(s, now, ok, dryRun).log;
    assert |log'| > |s.log| ==> log'[..|s.log|] == s.log;
  }

  ghost predicate Absent(jobs: Listing, uid: string) {
    forall j :: 0 <= j < |jobs| ==> jobs[j].uid != uid
  }

  /** The i-th job of a listing was active and is absent from the next listing. */
  ghost predicate VanishesAt(prev: seq<Job>, jobs: Listing, i: int) {
    0 <= i < |prev| && prev[i].status.active && Absent(jobs, prev[i].uid)
  }

  ghost predicate VanishesAs(prev: seq<Job>, jobs: Listing, name: string) {
    exists i :: VanishesAt(prev, jobs, i) && prev[i].name == name
  }

  /** The places of the jobs that vanish. */
  ghost function VanishedPlaces(prev: seq<Job>, jobs: Listing): set<int> {
    set i | 0 <= i < |prev| && VanishesAt(prev, jobs, i)
  }

  /** Each vanished active uid is recorded once, and nothing else is. */
  lemma {:induction false} GoneIsExact(prev: seq<Job>, jobs: Listing)
    ensures |Gone(prev, jobs)| == |VanishedPlaces(prev, jobs)|
    ensures forall name :: name in Gone(prev, jobs) <==> VanishesAs(prev, jobs, name)
  {
    if |prev| == 0 {
    } else {
      var n, before := |prev| - 1, prev[..|prev| - 1];
      GoneIsExact(before, jobs);
      ListedOrAbsent(jobs, prev[n].uid);
      VanishedOfMore(prev, jobs);
      forall name ensures VanishesAs(prev, jobs, name)
                     <==> (VanishesAs(before, jobs, name) || (VanishesAt(prev, jobs, n) && prev[n].name == name))
      {
        VanishesLast(prev, jobs, name);
      }
    }
  }

  lemma ListedOrAbsent(jobs: Listing, uid: string)
    ensures Absent(jobs, uid) <==> !Lists(jobs, uid)
  {}

  lemma VanishedOfMore(prev: seq<Job>, jobs: Listing)
    requires |prev| > 0
    ensures var n := |prev| - 1;
            |VanishedPlaces(prev, jobs)|
            == |VanishedPlaces(prev[..n], jobs)| + if VanishesAt(prev, jobs, n) then 1 else 0
  {
    var n := |prev| - 1;
    var all, some := VanishedPlaces(prev, jobs), VanishedPlaces(prev[..n], jobs);
    forall i ensures i in all <==> i in some || (i == n && VanishesAt(prev, jobs, n)) {
      assert 0 <= i < n ==> (VanishesAt(prev, jobs, i) <==> VanishesAt(prev[..n], jobs, i));
    }
    if VanishesAt(prev, jobs, n) {
      assert all == some + {n};
    } else {
      assert all == some;
    }
  }

  lemma VanishesLast(prev: seq<Job>, jobs: Listing, name: string)
    requires |prev| > 0
    ensures VanishesAs(prev, jobs, name)
       <==> (VanishesAs(prev[..|prev| - 1], jobs, name)
             || (VanishesAt(prev, jobs, |prev| - 1) && prev[|prev| - 1].name == name))
  {
    var before := prev[..|prev| - 1];
    if VanishesAs(before, jobs, name) {
      var i :| VanishesAt(before, jobs, i) && before[i].name == name;
      assert VanishesAt(prev, jobs, i) && prev[i].name == name;
    }
    if VanishesAs(prev, jobs, name) {
      var i :| VanishesAt(prev, jobs, i) && prev[i].name == name;
      assert i == |before| || (VanishesAt(before, jobs, i) && before[i].name == name);
    }
  }

  // ------------------------------------------------------------------ which bases are safe

  ghost predicate AllRunsSafe(base: real) {
    forall queue, start, events, dryRun | NonDecreasing(start, events) ::
      SafeLog(Run(Start(queue, start, base), events, dryRun).log)
  }

  /**
   * Safety over whole runs: whatever the listings and submissions do, no job is submitted while
   * THRESHOLD or more deletions lie in the window.
   */
  lemma SubmissionsAreSafe(queue: seq<Item>, start: real, base: real, events: seq<Event>, dryRun: bool)
    requires NonDecreasing(start, events) && WINDOW < base
    ensures SafeLog(Run(Start(queue, start, base), events, dryRun).log)
  {
    RunIsGuarded(queue, start, base, events, dryRun);
  }

  /** And the base has to be longer than the window: exactly then are all runs safe. */
  lemma SafeExactlyWhen(base: real)
    ensures AllRunsSafe(base) <==> WINDOW < base
  {
    if WINDOW < base {
      forall queue, start, events, dryRun | NonDecreasing(start, events)
        ensures SafeLog(Run(Start(queue, start, base), events, dryRun).log) {
        SubmissionsAreSafe(queue, start, base, events, dryRun);
      }
    } else {
      ShortBaseIsUnsafe(base);
    }
  }

  const RUNNING := Status(true, false, false)

  const A := Job("a", "a", RUNNING)
  const B := Job("b", "b", RUNNING)
  const C := Job("c", "c", RUNNING)

  function SilentEvent(now: real, jobs: Listing): Event { Event(now, Unchanged, Some(jobs), false) }

  /** Two of three jobs vanish at time 0, and the base has passed while they are still in the window. */
  function ShortRun(base: real): seq<Event> {
    var all: Listing := [A, B, C];
    [SilentEvent(0.0, all), SilentEvent(0.0, [C]), SilentEvent(if base > 0.0 then base else 0.0, [C])]
  }

  function Waiting(): seq<Item> { [Item("x", "", 0), Item("y", "", 0), Item("z", "", 0)] }

  lemma ShortBaseIsUnsafe(base: real)
    requires base <= WINDOW
    ensures NonDecreasing(0.0, ShortRun(base)) && !SafeLog(Run(Start(Waiting(), 0.0, base), ShortRun(base), false).log)
  {
    ShortRunIs(base, ShortRun(base));
    ShortRunIsUnsafe(Start(Waiting(), 0.0, base), base, ShortRun(base));
  }

  lemma ShortRunIs(base: real, es: seq<Event>)
    requires es == ShortRun(base)
    ensures |es| == 3 && NonDecreasing(0.0, es)
    ensures es[0] == SilentEvent(0.0, [A, B, C]) && es[1] == SilentEvent(0.0, [C])
    ensures es[2] == SilentEvent(if base > 0.0 then base else 0.0, [C])
  {}

  lemma ShortRunIsUnsafe(s0: LoopState, base: real, es: seq<Event>)
    requires s0 == Start(Waiting(), 0.0, base) && base <= WINDOW && |es| == 3
    requires es[0] == SilentEvent(0.0, [A, B, C]) && es[1] == SilentEvent(0.0, [C])
    requires es[2] == SilentEvent(if base > 0.0 then base else 0.0, [C])
    ensures !SafeLog(Run(s0, es, false).log)
  {
    RunOfThree(s0, es);
    ShortTicks(s0, base, es[2].now);
  }

  lemma ShortTicks(s0: LoopState, base: real, now: real)
    requires s0 == Start(Waiting(), 0.0, base) && base <= WINDOW && now == if base > 0.0 then base else 0.0
    ensures var s2 := Ticked(Ticked(s0, SilentEvent(0.0, [A, B, C]), false), SilentEvent(0.0, [C]), false);
            !SafeLog(Ticked(s2, SilentEvent(now, [C]), false).log)
  {
    var s1 := Ticked(s0, SilentEvent(0.0, [A, B, C]), false);
    AllListed(s0, SilentEvent(0.0, [A, B, C]));
    TwoLost(s1, SilentEvent(0.0, [C]));
    UnsafeSubmission(Ticked(s1, SilentEvent(0.0, [C]), false), SilentEvent(now, [C]));
  }

  /** The three jobs are on record, nothing has vanished. */
  ghost predicate AfterFirst(s: LoopState, base: real) {
    && s.br.prev == [A, B, C] && s.br.deletions == [] && s.br.lastDeletion == 0.0 && s.br.probe.None?
    && s.br.state == (if base <= 0.0 then HALF_OPEN else OPEN) && s.br.quiet == base
    && s.inflight == [] && |s.queue| >= 2 && History(s.log) == []
  }

  /** Open, with two deletions at time 0. */
  ghost predicate AfterSecond(s: LoopState, base: real) {
    && s.br.prev == [C] && s.br.state == OPEN && s.br.lastDeletion == 0.0 && s.br.probe.None?
    && s.br.quiet <= (if base > 0.0 then base else 0.0)
    && s.inflight == [] && s.queue != [] && History(s.log) == [Deletion(0.0, "a"), Deletion(0.0, "b")]
  }

  lemma RunOfThree(s: LoopState, es: seq<Event>)
    requires |es| == 3
    ensures Run(s, es, false) == Ticked(Ticked(Ticked(s, es[0], false), es[1], false), es[2], false)
  {
    assert es[..2][..1] == es[..1] && es[..1][..0] == [];
    assert Run(s, es[..1], false) == Ticked(s, es[0], false);
    assert Run(s, es[..2], false) == Ticked(Ticked(s, es[0], false), es[1], false);
  }

  /** A base of 0 or less lets one submission out at the first tick; it fails. */
  lemma AllListed(s: LoopState, e: Event)
    requires e == SilentEvent(0.0, [A, B, C]) && s == Start(Waiting(), 0.0, s.br.baseQuiet)
    ensures AfterFirst(Ticked(s, e, false), s.br.baseQuiet)
  {
    SubmittingTick(s, e);
    TickLogsVanished(s, e, false);
  }

  lemma TwoLost(s: LoopState, e: Event)
    requires e == SilentEvent(0.0, [C]) && AfterFirst(s, s.br.quiet)
    ensures AfterSecond(Ticked(s, e, false), s.br.quiet)
  {
    TwoVanish();
    SubmittingTick(s, e);
    TickLogsVanished(s, e, false);
    StampedPair("a", "b");
  }

  lemma StampedPair(a: string, b: string)
    ensures Stamped([a, b], 0.0) == [Deletion(0.0, a), Deletion(0.0, b)]
  {}

  lemma TwoVanish()
    ensures Gone([A, B, C], [C]) == ["a", "b"] && Gone([C], [C]) == []
  {
    assert Lists([C], "c") by { assert [C][0].uid == "c"; }
    assert "a"[0] != "c"[0] && "b"[0] != "c"[0];
    assert [A, B, C][..2] == [A, B] && [A, B][..1] == [A] && [A][..0] == [] && [C][..0] == [];
    assert Gone([A], [C]) == ["a"];
  }

  /** A tick with nothing in flight, an unchanged file and a failing command. */
  lemma SubmittingTick(s: LoopState, e: Event)
    requires e.file == Unchanged && Accepted(s.br.prev, e.listing) && !e.submitOk && s.inflight == []
    ensures var s1, s' := Advanced(s, e.now, e.listing.value), Ticked(s, e, false);
            && s'.inflight == [] && s'.br == s1.br && |s'.queue| >= |s.queue| - 1
            && s'.log == if MaySubmit(s1.br) && s.queue != []
                         then s1.log + [Submitted(e.now, s.queue[0].job, s.queue[0].tries + 1)] else s1.log
  {}

  /** A submission with both deletions still in the window. */
  lemma UnsafeSubmission(s: LoopState, e: Event)
    requires 0.0 <= e.now <= WINDOW && e == SilentEvent(e.now, [C]) && AfterSecond(s, e.now)
    ensures !SafeLog(Ticked(s, e, false).log)
  {
    var log, s' := Advanced(s, e.now, e.listing.value).log, Ticked(s, e, false);
    NothingGone(s, e.now, e.listing.value);
    SubmittingTick(s, e);
    BothRecent(e.now);
    UnsafeLog(log, Submitted(e.now, s.queue[0].job, s.queue[0].tries + 1), s'.log);
  }

  lemma NothingGone(s: LoopState, now: real, jobs: Listing)
    requires s.br.prev == jobs == [C]
    ensures History(Advanced(s, now, jobs).log) == History(s.log)
  {
    TwoVanish();
    AdvanceLogs(s, now, jobs);
    assert History(s.log) + Stamped([], now) == History(s.log);
  }

  lemma UnsafeLog(log: seq<LogLine>, line: LogLine, log': seq<LogLine>)
    requires line.Submitted? && |Recent(History(log), line.at)| >= THRESHOLD && log' == log + [line]
    ensures !SafeLog(log')
  {
    assert log'[|log|] == line && log'[..|log|] == log;
  }

  lemma BothRecent(now: real)
    requires now <= WINDOW
    ensures |Recent([Deletion(0.0, "a"), Deletion(0.0, "b")], now)| == 2
  {
    var h := [Deletion(0.0, "a"), Deletion(0.0, "b")];
    assert h[..1] == [Deletion(0.0, "a")] && h[..1][..0] == [];
    assert Recent(h[..1], now) == [Deletion(0.0, "a")];
  }
}

/** What one tick does, read off the history of deletions and the listing. */
module LoopMoves {
  import opened BreakerSafety
  import opened CircuitBreaker
  import opened QueueConservation
  import opened QueueReading
  import opened SubmissionLoop
  import opened Wrappers

  // ------------------------------------------------------------------ transitions

  /** The state of an accepted tick before it may submit. */
  function BeforeSubmission(s: LoopState, e: Event): LoopState
    requires e.listing.Some?
  {
    var s2 := Advanced(ReadFile(s, e.file), e.now, e.listing.value);
    Settled(s2, s2.inflight, Gone(s.br.prev, e.listing.value), e.listing.value)
  }

  /** When the last deletion happened; before the first, the time the breaker was started. */
  function LastTime(h: seq<Deletion>, start: real): real {
    if |h| == 0 then start else h[|h| - 1].time
  }

  lemma {:induction false} LastDeletionIsLast(queue: seq<Item>, start: real, base: real,
                                             events: seq<Event>, dryRun: bool)
    ensures var s := Run(Start(queue, start, base), events, dryRun);
            s.br.lastDeletion == LastTime(History(s.log), start)
  {
    if |events| == 0 {
    } else {
      LastDeletionIsLast(queue, start, base, events[..|events| - 1], dryRun);
      TickKeepsLast(Run(Start(queue, start, base), events[..|events| - 1], dryRun),
                    start, events[|events| - 1], dryRun);
    }
  }

  lemma TickKeepsLast(s: LoopState, start: real, e: Event, dryRun: bool)
    requires s.br.lastDeletion == LastTime(History(s.log), start)
    ensures var s' := Ticked(s, e, dryRun); s'.br.lastDeletion == LastTime(History(s'.log), start)
  {
    var s1 := ReadFile(s, e.file);
    ReadFileKeepsBreaker(s, e.file);
    if Accepted(s.br.prev, e.listing) {
      var jobs := e.listing.value;
      var gone := Gone(s1.br.prev, jobs);
      var s2 := Advanced(s1, e.now, jobs);
      AdvanceKeepsLast(s1, start, e.now, jobs);
      SettledKeepsBreaker(s2, s2.inflight, gone, jobs);
      SubmissionLogsNoDeletion(Settled(s2, s2.inflight, gone, jobs), e.now, e.submitOk, dryRun);
    }
  }

  lemma AdvanceKeepsLast(s: LoopState, start: real, now: real, jobs: Listing)
    requires s.br.lastDeletion == LastTime(History(s.log), start)
    ensures var s' := Advanced(s, now, jobs); s'.br.lastDeletion == LastTime(History(s'.log), start)
  {
    AdvanceLogs(s, now, jobs);
    StepKeepsLast(Observed(s.br, jobs, now), now, Gone(s.br.prev, jobs), jobs);
    LastOfMore(History(s.log), Gone(s.br.prev, jobs), start, now);
  }

  lemma LastOfMore(h: seq<Deletion>, gone: seq<string>, start: real, now: real)
    ensures LastTime(h + Stamped(gone, now), start) == if gone != [] then now else LastTime(h, start)
  {
    if gone != [] {
      var all := h + Stamped(gone, now);
      assert all[|all| - 1] == Stamped(gone, now)[|gone| - 1];
    } else {
      assert h + Stamped(gone, now) == h;
    }
  }

  /**
   * Transitions of any run, exactly: CLOSED opens when the whole history holds THRESHOLD deletions in
   * the window, OPEN lets a probe out when the last deletion of the history is quiet seconds old, and
   * HALF_OPEN opens on any deletion, with the quiet period doubled, closes on a probe that lived, and
   * drops one that failed. A submission changes the probe at most.
   */
  lemma TransitionsExactlyWhen(queue: seq<Item>, start: real, base: real, events: seq<Event>, dryRun: bool, e: Event)
    requires NonDecreasing(start, events + [e])
    ensures var s := Run(Start(queue, start, base), events, dryRun);
            MovesOnTick(s, Ticked(s, e, dryRun), start, e)
  {
    var s := Run(Start(queue, start, base), events, dryRun);
    assert forall i :: 0 <= i < |events| ==> (events + [e])[i] == events[i];
    assert (events + [e])[|events|] == e;
    RunKeepsInvariant(queue, start, base, events, dryRun);
    LastDeletionIsLast(queue, start, base, events, dryRun);
    TickMoves(s, ObservedAt(Start(queue, start, base), start, events, dryRun), start, e, dryRun);
  }

  ghost predicate MovesOnTick(s: LoopState, s': LoopState, start: real, e: Event) {
    if Accepted(s.br.prev, e.listing) then
      && StepsAs(s.br, BeforeSubmission(s, e).br, |InWindow(History(s'.log), e.now)|,
                 LastTime(History(s'.log), start), e.now, Gone(s.br.prev, e.listing.value), e.listing.value)
      && s'.br == BeforeSubmission(s, e).br.(probe := s'.br.probe)
    else s'.br == s.br && History(s'.log) == History(s.log)
  }

  lemma TickMoves(s: LoopState, t: real, start: real, e: Event, dryRun: bool)
    requires Invariant(s, t) && t <= e.now && s.br.lastDeletion == LastTime(History(s.log), start)
    ensures MovesOnTick(s, Ticked(s, e, dryRun), start, e)
  {
    var s1 := ReadFile(s, e.file);
    ReadFileKeepsBreaker(s, e.file);
    if Accepted(s.br.prev, e.listing) {
      var jobs := e.listing.value;
      var gone := Gone(s1.br.prev, jobs);
      var s2 := Advanced(s1, e.now, jobs);
      AdvanceMoves(s1, t, start, e.now, jobs);
      SettledKeepsBreaker(s2, s2.inflight, gone, jobs);
      SubmissionLogsNoDeletion(Settled(s2, s2.inflight, gone, jobs), e.now, e.submitOk, dryRun);
    }
  }

  lemma AdvanceMoves(s: LoopState, t: real, start: real, now: real, jobs: Listing)
    requires Invariant(s, t) && t <= now && s.br.lastDeletion == LastTime(History(s.log), start)
    ensures var s', gone := Advanced(s, now, jobs), Gone(s.br.prev, jobs);
            StepsAs(s.br, s'.br, |InWindow(History(s'.log), now)|, LastTime(History(s'.log), start), now, gone, jobs)
  {
    var gone := Gone(s.br.prev, jobs);
    AdvanceLogs(s, now, jobs);
    AdvanceKeepsLast(s, start, now, jobs);
    PruningIsFiltering(History(s.log), Stamped(gone, now), t, now);
    StepKeepsLast(Observed(s.br, jobs, now), now, gone, jobs);
    RecentIsExact(History(Advanced(s, now, jobs).log), now);
    StepReadsListing(s.br, Observed(s.br, jobs, now), now, gone, jobs);
  }

  lemma StepKeepsLast(b: BreakerState, now: real, gone: seq<string>, jobs: Listing)
    ensures Stepped(b, now, gone, jobs).lastDeletion == b.lastDeletion
  {}

  // ------------------------------------------------------------------ where jobs in flight go

  /** The queue, the jobs in flight and the finished ones of an accepted tick, before it submits. */
  lemma TickSettles(s: LoopState, e: Event)
    requires Accepted(s.br.prev, e.listing)
    ensures var jobs, gone, named := e.listing.value, Gone(s.br.prev, e.listing.value), Entries(e.file);
            var s3 := BeforeSubmission(s, e);
            && s3.inflight == With(s.inflight, StaysInFlight, gone, jobs)
            && s3.done == s.done + With(s.inflight, Finished, gone, jobs)
            && s3.failed == s.failed + With(s.inflight, Failed, gone, jobs)
            && s3.queue == Reversed(With(s.inflight, Requeued, gone, jobs)) + (s.queue + NewItems(s.seen, named))
            && s3.seen == s.seen + EntryNames(named)
  {
    var s2 := Advanced(ReadFile(s, e.file), e.now, e.listing.value);
    ReadFileKeepsBreaker(s, e.file);
    ReadingQueuesUnseen(s, e.file);
    SettlingSorts(s2, s2.inflight, Gone(s.br.prev, e.listing.value), e.listing.value);
  }

  lemma {:induction false} WithHas(items: seq<Item>, i: nat, gone: seq<string>, jobs: Listing)
    requires i < |items|
    ensures items[i] in With(items, FateOf(items[i], gone, jobs), gone, jobs)
  {
    if i == |items| - 1 {
    } else {
      WithHas(items[..|items| - 1], i, gone, jobs);
    }
  }

  lemma {:induction false} ReversedHas(items: seq<Item>, item: Item)
    requires item in items
    ensures item in Reversed(items)
  {
    if item == items[|items| - 1] {
    } else {
      ReversedHas(items[..|items| - 1], item);
    }
  }

  /**
   * A job in flight ends an accepted tick as the listing says: done when last listed as succeeded,
   * failed when last listed as failed only, in flight when listed as neither; a job that vanished
   * or is not listed has failed when its tries are used up, and is queued again otherwise.
   */
  lemma JobEndsAsListed(s: LoopState, e: Event, dryRun: bool, i: nat)
    requires Accepted(s.br.prev, e.listing) && i < |s.inflight|
    ensures var item, jobs := s.inflight[i], e.listing.value;
            var s3, s' := BeforeSubmission(s, e), Ticked(s, e, dryRun);
            if VanishesAs(s.br.prev, jobs, item.job) || Unlisted(jobs, item.job) then
              if item.tries < MAX_TRIES then item in s3.queue else item in s'.failed
            else if ListedSucceeded(jobs, item.job) then item in s'.done
            else if ListedFailed(jobs, item.job) then item in s'.failed
            else item in s3.inflight
  {
    var gone := Gone(s.br.prev, e.listing.value);
    ReadFileKeepsBreaker(s, e.file);
    GoneIsExact(s.br.prev, e.listing.value);
    TickSettles(s, e);
    WithHas(s.inflight, i, gone, e.listing.value);
    if FateOf(s.inflight[i], gone, e.listing.value) == Requeued {
      ReversedHas(With(s.inflight, Requeued, gone, e.listing.value), s.inflight[i]);
    }
    SubmissionKeepsFinished(BeforeSubmission(s, e), e.now, e.submitOk, dryRun);
  }

  lemma SubmissionKeepsFinished(s: LoopState, now: real, ok: bool, dryRun: bool)
    ensures Submission(s, now, ok, dryRun).done == s.done && s.failed <= Submission(s, now, ok, dryRun).failed
  {}

  // ------------------------------------------------------------------ what a tick submits

  /** The breaker lets a job out: CLOSED, or HALF_OPEN and not waiting on a probe. */
  ghost predicate LetsOut(b: BreakerState) {
    b.state == CLOSED || (b.state == HALF_OPEN && b.probe == None)
  }

  /**
   * A tick submits the head of the queue, once, exactly when the listing is accepted, the breaker lets
   * a job out and it is no dry run; otherwise it only reads the queue file, observes and settles.
   */
  lemma SubmitsExactlyWhen(s: LoopState, e: Event, dryRun: bool)
    ensures var s' := Ticked(s, e, dryRun);
            if Accepted(s.br.prev, e.listing) && !dryRun && LetsOut(BeforeSubmission(s, e).br)
               && BeforeSubmission(s, e).queue != []
            then && AllSubmissions(s'.log) == AllSubmissions(s.log) + 1
                 && Submissions(s'.log, BeforeSubmission(s, e).queue[0].job)
                    == Submissions(s.log, BeforeSubmission(s, e).queue[0].job) + 1
            else && AllSubmissions(s'.log) == AllSubmissions(s.log)
                 && s' == if Accepted(s.br.prev, e.listing) then BeforeSubmission(s, e) else ReadFile(s, e.file)
  {
    ReadFileKeepsBreaker(s, e.file);
    if Accepted(s.br.prev, e.listing) {
      var s3 := BeforeSubmission(s, e);
      BeforeSubmissionCounts(s, e);
      SubmissionLogs(s3, e.now, e.submitOk, dryRun);
      if !dryRun && LetsOut(s3.br) && s3.queue != [] {
        SubmissionCounts(s3, e.now, Submission(s3, e.now, e.submitOk, dryRun).log);
      }
    }
  }

  lemma SubmissionCounts(s: LoopState, now: real, log: seq<LogLine>)
    requires s.queue != [] && log == s.log + [Submitted(now, s.queue[0].job, s.queue[0].tries + 1)]
    ensures AllSubmissions(log) == AllSubmissions(s.log) + 1
    ensures Submissions(log, s.queue[0].job) == Submissions(s.log, s.queue[0].job) + 1
  {
    CountsLast(s.log, Submitted(now, s.queue[0].job, s.queue[0].tries + 1));
  }

  lemma SubmissionLogs(s: LoopState, now: real, ok: bool, dryRun: bool)
    ensures Submission(s, now, ok, dryRun).log ==
            if s.queue != [] && MaySubmit(s.br) && !dryRun
            then s.log + [Submitted(now, s.queue[0].job, s.queue[0].tries + 1)] else s.log
  {}

  lemma BeforeSubmissionCounts(s: LoopState, e: Event)
    requires e.listing.Some?
    ensures var s3 := BeforeSubmission(s, e);
            && AllSubmissions(s3.log) == AllSubmissions(s.log)
            && forall job :: Submissions(s3.log, job) == Submissions(s.log, job)
  {
    var s1 := ReadFile(s, e.file);
    var s2 := Advanced(s1, e.now, e.listing.value);
    ReadFileKeepsBreaker(s, e.file);
    AdvanceCounts(s1, e.now, e.listing.value);
    SettledKeepsBreaker(s2, s2.inflight, Gone(s.br.prev, e.listing.value), e.listing.value);
  }

  /** The item took the place of the first one with its name, or joined the end if there was none. */
  ghost predicate PutInto(before: seq<Item>, after: seq<Item>, item: Item) {
    || (Unnamed(before, item.job) && after == before + [item])
    || (exists i: nat :: i < |before| && before[i].job == item.job && Unnamed(before[..i], item.job)
                         && after == before[i := item])
  }

  ghost predicate Unnamed(items: seq<Item>, job: string) {
    forall i :: 0 <= i < |items| ==> items[i].job != job
  }

  /** Assigning a key of the in-flight dict: a known name keeps its place, a new one goes to the end. */
  lemma {:induction false} PutKeepsPlaces(items: seq<Item>, item: Item)
    ensures PutInto(items, Put(items, item), item)
  {
    if |items| == 0 {
    } else if items[0].job == item.job {
      assert Put(items, item) == items[0 := item] && items[..0] == [];
    } else {
      PutKeepsPlaces(items[1..], item);
      PutAfterFirst(items, Put(items[1..], item), item);
    }
  }

  lemma PutAfterFirst(items: seq<Item>, rest: seq<Item>, item: Item)
    requires |items| > 0 && items[0].job != item.job && PutInto(items[1..], rest, item)
    ensures PutInto(items, [items[0]] + rest, item)
  {
    if Unnamed(items[1..], item.job) && rest == items[1..] + [item] {
      assert forall i :: 1 <= i < |items| ==> items[i] == items[1..][i - 1];
      assert [items[0]] + rest == items + [item];
    } else {
      var i: nat :| i < |items| - 1 && items[1..][i].job == item.job && Unnamed(items[1..][..i], item.job)
                    && rest == items[1..][i := item];
      assert forall k :: 1 <= k < i + 1 ==> items[k] == items[1..][..i][k - 1];
      assert items[i + 1].job == item.job && Unnamed(items[..i + 1], item.job);
      assert [items[0]] + rest == items[i + 1 := item];
    }
  }

  /**
   * What a submission does: the head leaves the queue with one try more and is logged. It has failed at
   * once when its command fails, and is in flight otherwise; from HALF_OPEN it is then the probe that
   * bars all others. Nothing else changes.
   */
  lemma SubmittedJobLands(s: LoopState, e: Event)
    requires Accepted(s.br.prev, e.listing) && LetsOut(BeforeSubmission(s, e).br)
             && BeforeSubmission(s, e).queue != []
    ensures var s3, s' := BeforeSubmission(s, e), Ticked(s, e, false);
            var item := s3.queue[0].(tries := s3.queue[0].tries + 1);
            var s4 := s3.(queue := s3.queue[1..], log := s3.log + [Submitted(e.now, item.job, item.tries)]);
            && (!e.submitOk ==> s' == s4.(failed := s3.failed + [item]))
            && (e.submitOk ==>
                s' == s4.(inflight := s'.inflight, br := s'.br) && PutInto(s3.inflight, s'.inflight, item))
            && (e.submitOk && s3.br.state == CLOSED ==> s'.br == s3.br)
            && (e.submitOk && s3.br.state == HALF_OPEN ==>
                s'.br == s3.br.(probe := Some(Probe(item.job, e.now))) && !LetsOut(s'.br))
  {
    ReadFileKeepsBreaker(s, e.file);
    var s3 := BeforeSubmission(s, e);
    PutKeepsPlaces(s3.inflight, s3.queue[0].(tries := s3.queue[0].tries + 1));
  }

  lemma {:induction false} NoSubmissionLines(log: seq<LogLine>, lines: seq<LogLine>)
    requires forall i :: 0 <= i < |lines| ==> !lines[i].Submitted?
    ensures AllSubmissions(log + lines) == AllSubmissions(log)
    ensures forall job :: Submissions(log + lines, job) == Submissions(log, job)
  {
    OtherLines(log, lines);
    if |lines| == 0 {
      assert log + lines == log;
    } else {
      var n := |lines| - 1;
      NoSubmissionLines(log, lines[..n]);
      assert log + lines == (log + lines[..n]) + [lines[n]];
      CountsLast(log + lines[..n], lines[n]);
    }
  }

  lemma AdvanceCounts(s: LoopState, now: real, jobs: Listing)
    ensures var s' := Advanced(s, now, jobs);
            && AllSubmissions(s'.log) == AllSubmissions(s.log)
            && forall job :: Submissions(s'.log, job) == Submissions(s.log, job)
  {
    var lines := AdvanceLines(s, now, jobs);
    NoSubmissionLines(s.log, lines);
  }
}

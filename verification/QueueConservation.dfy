/** Where the jobs are: every job in exactly one place, and none submitted too often. */
module QueueConservation {
  import opened Blocks
  import opened BreakerSafety
  import opened CircuitBreaker
  import opened SubmissionLoop

  function JobSeq(items: seq<Item>): seq<string> {
    seq(|items|, i requires 0 <= i < |items| => items[i].job)
  }

  /** The job names of some items, with multiplicity. */
  ghost function Names(items: seq<Item>): multiset<string> {
    multiset(JobSeq(items))
  }

  /** The names in all four places together. */
  ghost function AllNames(s: LoopState): multiset<string> {
    Names(s.queue) + Names(s.inflight) + Names(s.done) + Names(s.failed)
  }

  /** Every job ever seen is in exactly one of queue, inflight, done and failed, and exactly once. */
  ghost predicate Partitioned(s: LoopState) {
    AllNames(s) == multiset(s.seen)
  }

  ghost predicate DistinctNames(items: seq<Item>) {
    forall i, j :: 0 <= i < j < |items| ==> items[i].job != items[j].job
  }

  lemma NamesConcat(a: seq<Item>, b: seq<Item>)
    ensures Names(a + b) == Names(a) + Names(b)
  {
    assert JobSeq(a + b) == JobSeq(a) + JobSeq(b);
  }

  lemma NamesOne(item: Item)
    ensures Names([item]) == multiset{item.job}
  {
    assert JobSeq([item]) == [item.job];
  }

  lemma NamesHas(items: seq<Item>, i: nat)
    requires i < |items|
    ensures Names(items)[items[i].job] > 0
  {
    assert JobSeq(items)[i] == items[i].job;
  }

  /** The names of a list without repetition are a set, and only then. */
  lemma NamesOfDistinct(items: seq<Item>)
    ensures Names(items) == multiset(JobNames(items)) <==> DistinctNames(items)
  {
    if DistinctNames(items) {
      DistinctNamesAreASet(items);
    } else {
      var i, j :| 0 <= i < j < |items| && items[i].job == items[j].job;
      var x := items[i].job;
      NamesConcat(items[..j], items[j..]);
      assert items == items[..j] + items[j..];
      NamesHas(items[..j], i);
      NamesHas(items[j..], 0);
      assert Names(items)[x] >= 2 && multiset(JobNames(items))[x] <= 1;
    }
  }

  lemma {:induction false} DistinctNamesAreASet(items: seq<Item>)
    requires DistinctNames(items)
    ensures Names(items) == multiset(JobNames(items))
  {
    if |items| == 0 {
      assert JobNames(items) == {};
    } else {
      var n := |items| - 1;
      var x := items[n].job;
      DistinctNamesAreASet(items[..n]);
      assert items == items[..n] + [items[n]];
      NamesConcat(items[..n], [items[n]]);
      NamesOne(items[n]);
      assert JobNames(items) == JobNames(items[..n]) + {x};
      assert x !in JobNames(items[..n]);
    }
  }

  // ------------------------------------------------------------------ conservation

  /** Conservation holds throughout every run if and only if the initial queue repeats no job. */
  lemma EveryJobInOnePlace(queue: seq<Item>, start: real, base: real, dryRun: bool)
    ensures AlwaysPartitioned(Start(queue, start, base), dryRun) <==> DistinctNames(queue)
  {
    StartIsPartitioned(queue, start, base);
    PartitionedThroughout(Start(queue, start, base), dryRun);
  }

  /** Conservation, at the end of every run. */
  ghost predicate AlwaysPartitioned(s: LoopState, dryRun: bool) {
    forall events :: Partitioned(Run(s, events, dryRun))
  }

  lemma PartitionedThroughout(s: LoopState, dryRun: bool)
    ensures AlwaysPartitioned(s, dryRun) <==> Partitioned(s)
  {
    if Partitioned(s) {
      forall events ensures Partitioned(Run(s, events, dryRun)) {
        RunStaysPartitioned(s, events, dryRun);
      }
    }
    var none: seq<Event> := [];
    assert Partitioned(Run(s, none, dryRun)) == Partitioned(s);
  }

  lemma StartIsPartitioned(queue: seq<Item>, start: real, base: real)
    ensures Partitioned(Start(queue, start, base)) <==> DistinctNames(queue)
  {
    NamesOfDistinct(queue);
    assert AllNames(Start(queue, start, base)) == Names(queue);
  }

  lemma {:induction false} RunStaysPartitioned(s: LoopState, events: seq<Event>, dryRun: bool)
    requires Partitioned(s)
    ensures Partitioned(Run(s, events, dryRun))
  {
    if |events| == 0 {
    } else {
      var n := |events| - 1;
      RunStaysPartitioned(s, events[..n], dryRun);
      TickStaysPartitioned(Run(s, events[..n], dryRun), events[n], dryRun);
    }
  }

  lemma TickStaysPartitioned(s: LoopState, e: Event, dryRun: bool)
    requires Partitioned(s)
    ensures Partitioned(Ticked(s, e, dryRun))
  {
    var s1 := ReadFile(s, e.file);
    if e.file.Changed? {
      EnqueuedStaysPartitioned(s, e.file.entries);
    }
    if Accepted(s1.br.prev, e.listing) {
      var jobs := e.listing.value;
      var gone, s2 := Gone(s1.br.prev, jobs), Advanced(s1, e.now, jobs);
      SettledKeepsNames(s2, s2.inflight, gone, jobs);
      var s3 := Settled(s2, s2.inflight, gone, jobs);
      SettledKeepsBreaker(s2, s2.inflight, gone, jobs);
      SubmissionKeepsNames(s3, e.now, e.submitOk, dryRun);
    }
  }

  lemma {:induction false} EnqueuedStaysPartitioned(s: LoopState, entries: seq<Entry>)
    requires Partitioned(s)
    ensures Partitioned(Enqueued(s, entries))
    decreases |entries|
  {
    if |entries| == 0 || !entries[0].Named? {
    } else {
      var e, s' := entries[0], EnqueuedOne(s, entries[0]);
      if e.job !in s.seen {
        NamesConcat(s.queue, [Item(e.job, e.cmd, 0)]);
        NamesOne(Item(e.job, e.cmd, 0));
        assert multiset(s.seen + {e.job}) == multiset(s.seen) + multiset{e.job};
      }
      EnqueuedStaysPartitioned(s', entries[1..]);
    }
  }

  lemma {:induction false} SettledKeepsNames(s: LoopState, items: seq<Item>, gone: seq<string>, jobs: Listing)
    ensures AllNames(Settled(s, items, gone, jobs)) == Names(s.queue) + Names(items) + Names(s.done) + Names(s.failed)
  {
    if |items| == 0 {
    } else {
      var n := |items| - 1;
      SettledKeepsNames(s, items[..n], gone, jobs);
      assert items == items[..n] + [items[n]];
      NamesConcat(items[..n], [items[n]]);
      SettledOneKeepsNames(Settled(s, items[..n], gone, jobs), items[n], gone, jobs);
    }
  }

  lemma SettledOneKeepsNames(s: LoopState, item: Item, gone: seq<string>, jobs: Listing)
    ensures AllNames(SettledOne(s, item, gone, jobs)) == AllNames(s) + Names([item])
  {
    var st := ByName(jobs, item.job);
    if item.job in gone || st.None? {
      if item.tries < MAX_TRIES {
        NamesConcat([item], s.queue);
      } else {
        NamesConcat(s.failed, [item]);
      }
    } else if st.value.succeeded {
      NamesConcat(s.done, [item]);
    } else if st.value.failed {
      NamesConcat(s.failed, [item]);
    } else {
      NamesConcat(s.inflight, [item]);
    }
  }

  lemma {:induction false} PutFresh(items: seq<Item>, item: Item)
    requires forall i :: 0 <= i < |items| ==> items[i].job != item.job
    ensures Put(items, item) == items + [item]
  {
    if |items| == 0 {
    } else {
      PutFresh(items[1..], item);
    }
  }

  /** A queued job is nowhere else. */
  lemma QueuedIsOnlyQueued(s: LoopState)
    requires Partitioned(s) && s.queue != []
    ensures forall i :: 0 <= i < |s.inflight| ==> s.inflight[i].job != s.queue[0].job
    ensures forall i :: 1 <= i < |s.queue| ==> s.queue[i].job != s.queue[0].job
    ensures s.queue[0].job in s.seen
  {
    var x := s.queue[0].job;
    NamesHas(s.queue, 0);
    assert AllNames(s)[x] == multiset(s.seen)[x] <= 1;
    forall i | 0 <= i < |s.inflight| ensures s.inflight[i].job != x {
      NamesHas(s.inflight, i);
    }
    assert s.queue == s.queue[..1] + s.queue[1..];
    NamesConcat(s.queue[..1], s.queue[1..]);
    NamesHas(s.queue[..1], 0);
    forall i | 1 <= i < |s.queue| ensures s.queue[i].job != x {
      NamesHas(s.queue[1..], i - 1);
    }
  }

  lemma SubmissionKeepsNames(s: LoopState, now: real, ok: bool, dryRun: bool)
    requires Partitioned(s)
    ensures Partitioned(Submission(s, now, ok, dryRun))
  {
    if s.queue != [] && MaySubmit(s.br) && !dryRun {
      var item := s.queue[0].(tries := s.queue[0].tries + 1);
      QueuedIsOnlyQueued(s);
      PutFresh(s.inflight, item);
      HeadKeepsNames(s, Submission(s, now, ok, dryRun), item);
    }
  }

  /** The head of the queue moved to the jobs in flight, or to the failed ones. */
  lemma HeadKeepsNames(s: LoopState, s': LoopState, item: Item)
    requires s.queue != [] && item.job == s.queue[0].job && s'.queue == s.queue[1..] && s'.done == s.done
    requires || (s'.inflight == s.inflight + [item] && s'.failed == s.failed)
             || (s'.inflight == s.inflight && s'.failed == s.failed + [item])
    ensures AllNames(s') == AllNames(s)
  {
    HeadName(s.queue);
    OneMoreName(s.inflight, item);
    OneMoreName(s.failed, item);
    FirstMoves(multiset{item.job}, Names(s.queue[1..]), Names(s.inflight), Names(s.done), Names(s.failed));
  }

  lemma FirstMoves(x: multiset<string>, queue: multiset<string>, inflight: multiset<string>,
                   done: multiset<string>, failed: multiset<string>)
    ensures x + queue + inflight + done + failed == queue + (inflight + x) + done + failed
    ensures x + queue + inflight + done + failed == queue + inflight + done + (failed + x)
  {}

  lemma HeadName(items: seq<Item>)
    requires items != []
    ensures Names(items) == multiset{items[0].job} + Names(items[1..])
  {
    assert items == [items[0]] + items[1..];
    NamesConcat([items[0]], items[1..]);
    NamesOne(items[0]);
  }

  lemma OneMoreName(items: seq<Item>, item: Item)
    ensures Names(items + [item]) == Names(items) + multiset{item.job}
  {
    NamesConcat(items, [item]);
    NamesOne(item);
  }

  // ------------------------------------------------------------------ bounded retries

  /** Submissions of one job recorded in the log. */
  function Submissions(log: seq<LogLine>, job: string): nat {
    if |log| == 0 then 0 else
      var last := log[|log| - 1];
      Submissions(log[..|log| - 1], job) + (if last.Submitted? && last.job == job then 1 else 0)
  }

  /** The tries a job starts with: those of the initial queue, or 0. */
  function InitialTries(queue: seq<Item>, job: string): int {
    if |queue| == 0 then 0
    else if queue[0].job == job then queue[0].tries
    else InitialTries(queue[1..], job)
  }

  /** Submissions a job with t initial tries can get: at least one, and none beyond MAX_TRIES. */
  function Allowance(t: int): nat {
    if t < MAX_TRIES - 1 then MAX_TRIES - t else 1
  }

  ghost predicate TriesAre(items: seq<Item>, q0: seq<Item>, log: seq<LogLine>) {
    forall i :: 0 <= i < |items| ==> items[i].tries == InitialTries(q0, items[i].job) + Submissions(log, items[i].job)
  }

  ghost predicate MayRetry(items: seq<Item>, log: seq<LogLine>) {
    forall i :: 0 <= i < |items| ==> Submissions(log, items[i].job) > 0 ==> items[i].tries < MAX_TRIES
  }

  ghost predicate WithinAllowance(q0: seq<Item>, log: seq<LogLine>) {
    forall job :: Submissions(log, job) <= Allowance(InitialTries(q0, job))
  }

  /** The tries of waiting and running items count their submissions, which stay within bounds. */
  ghost predicate Budgeted(s: LoopState, q0: seq<Item>) {
    && Partitioned(s) && JobNames(q0) <= s.seen
    && TriesAre(s.queue, q0, s.log) && MayRetry(s.queue, s.log) && TriesAre(s.inflight, q0, s.log)
    && WithinAllowance(q0, s.log)
    && forall job :: job !in s.seen ==> Submissions(s.log, job) == 0
  }

  /**
   * In any run a job is submitted at most MAX_TRIES minus the tries it starts with, or once if that is
   * less; a job that is not in the queue at the start, at most MAX_TRIES times.
   */
  lemma RetriesAreBounded(queue: seq<Item>, start: real, base: real, events: seq<Event>, dryRun: bool, job: string)
    requires DistinctNames(queue)
    ensures var n := Submissions(Run(Start(queue, start, base), events, dryRun).log, job);
            && (forall i :: 0 <= i < |queue| && queue[i].job == job ==> n <= 1 || n <= MAX_TRIES - queue[i].tries)
            && ((forall i :: 0 <= i < |queue| ==> queue[i].job != job) ==> n <= MAX_TRIES)
  {
    RunStaysBudgeted(queue, start, base, events, dryRun);
    if i :| 0 <= i < |queue| && queue[i].job == job {
      InitialTriesAt(queue, i);
      forall k | 0 <= k < |queue| && queue[k].job == job ensures k == i {}
    } else {
      InitialTriesAbsent(queue, job);
    }
  }

  lemma {:induction false} RunStaysBudgeted(queue: seq<Item>, start: real, base: real, events: seq<Event>, dryRun: bool)
    requires DistinctNames(queue)
    ensures Budgeted(Run(Start(queue, start, base), events, dryRun), queue)
  {
    var s := Start(queue, start, base);
    if |events| == 0 {
      NamesOfDistinct(queue);
      assert AllNames(s) == Names(queue);
      forall i | 0 <= i < |queue| ensures queue[i].tries == InitialTries(queue, queue[i].job) {
        InitialTriesAt(queue, i);
      }
    } else {
      var n := |events| - 1;
      RunStaysBudgeted(queue, start, base, events[..n], dryRun);
      TickStaysBudgeted(Run(s, events[..n], dryRun), queue, events[n], dryRun);
    }
  }

  lemma {:induction false} InitialTriesAt(queue: seq<Item>, i: nat)
    requires DistinctNames(queue) && i < |queue|
    ensures InitialTries(queue, queue[i].job) == queue[i].tries
  {
    if i == 0 {
    } else {
      InitialTriesAt(queue[1..], i - 1);
    }
  }

  lemma {:induction false} InitialTriesAbsent(queue: seq<Item>, job: string)
    requires job !in JobNames(queue)
    ensures InitialTries(queue, job) == 0
  {
    if |queue| == 0 {
    } else {
      assert queue[0].job in JobNames(queue);
      forall x | x in JobNames(queue[1..]) ensures x in JobNames(queue) {
        var i :| 0 <= i < |queue[1..]| && queue[1..][i].job == x;
        assert queue[i + 1].job == x;
      }
      InitialTriesAbsent(queue[1..], job);
    }
  }

  lemma TickStaysBudgeted(s: LoopState, q0: seq<Item>, e: Event, dryRun: bool)
    requires Budgeted(s, q0)
    ensures Budgeted(Ticked(s, e, dryRun), q0)
  {
    var s1 := ReadFile(s, e.file);
    if e.file.Changed? {
      EnqueuedStaysBudgeted(s, q0, e.file.entries);
    }
    if Accepted(s1.br.prev, e.listing) {
      var jobs := e.listing.value;
      var gone, s2 := Gone(s1.br.prev, jobs), Advanced(s1, e.now, jobs);
      var lines := AdvanceLines(s1, e.now, jobs);
      OtherLines(s1.log, lines);
      SettledStaysBudgeted(s2, q0, s2.inflight, gone, jobs);
      SettledKeepsNames(s2, s2.inflight, gone, jobs);
      SettledKeepsBreaker(s2, s2.inflight, gone, jobs);
      SubmissionStaysBudgeted(Settled(s2, s2.inflight, gone, jobs), q0, e.now, e.submitOk, dryRun);
    }
  }

  /** Lines that are not submissions count nothing. */
  lemma AdvanceLines(s: LoopState, now: real, jobs: Listing) returns (lines: seq<LogLine>)
    ensures Advanced(s, now, jobs).log == s.log + lines
    ensures forall i :: 0 <= i < |lines| ==> !lines[i].Submitted?
  {
    var state, state' := s.br.state, Advanced(s, now, jobs).br.state;
    var deleted := DeletedLines(Gone(s.br.prev, jobs), now);
    var moved := if state' != state then [Moved(state, state')] else [];
    Associative(s.log, deleted, moved);
    lines := deleted + moved;
  }

  lemma {:induction false} OtherLines(log: seq<LogLine>, lines: seq<LogLine>)
    requires forall i :: 0 <= i < |lines| ==> !lines[i].Submitted?
    ensures forall job :: Submissions(log + lines, job) == Submissions(log, job)
  {
    if |lines| == 0 {
      assert log + lines == log;
    } else {
      var n := |lines| - 1;
      OtherLines(log, lines[..n]);
      assert (log + lines)[..|log + lines| - 1] == log + lines[..n];
    }
  }

  lemma {:induction false} EnqueuedStaysBudgeted(s: LoopState, q0: seq<Item>, entries: seq<Entry>)
    requires Budgeted(s, q0)
    ensures Budgeted(Enqueued(s, entries), q0)
    decreases |entries|
  {
    if |entries| == 0 || !entries[0].Named? {
    } else {
      var e := entries[0];
      EnqueuedStaysPartitioned(s, [e]);
      assert Enqueued(s, [e]) == EnqueuedOne(s, e) by {
        assert Enqueued(EnqueuedOne(s, e), [e][1..]) == EnqueuedOne(s, e);
      }
      if e.job !in s.seen {
        InitialTriesAbsent(q0, e.job);
      }
      EnqueuedStaysBudgeted(EnqueuedOne(s, e), q0, entries[1..]);
    }
  }

  lemma {:induction false} SettledStaysBudgeted(s: LoopState, q0: seq<Item>, items: seq<Item>,
                                              gone: seq<string>, jobs: Listing)
    requires TriesAre(s.queue, q0, s.log) && MayRetry(s.queue, s.log) && TriesAre(items, q0, s.log)
    ensures var s' := Settled(s, items, gone, jobs);
            TriesAre(s'.queue, q0, s.log) && MayRetry(s'.queue, s.log) && TriesAre(s'.inflight, q0, s.log)
  {
    if |items| == 0 {
    } else {
      var n := |items| - 1;
      SettledStaysBudgeted(s, q0, items[..n], gone, jobs);
      SettledOneStaysBudgeted(Settled(s, items[..n], gone, jobs), q0, s.log, items[n], gone, jobs);
    }
  }

  lemma SettledOneStaysBudgeted(s: LoopState, q0: seq<Item>, log: seq<LogLine>, item: Item,
                                gone: seq<string>, jobs: Listing)
    requires TriesAre(s.queue, q0, log) && MayRetry(s.queue, log) && TriesAre(s.inflight, q0, log)
    requires item.tries == InitialTries(q0, item.job) + Submissions(log, item.job)
    ensures var s' := SettledOne(s, item, gone, jobs);
            TriesAre(s'.queue, q0, log) && MayRetry(s'.queue, log) && TriesAre(s'.inflight, q0, log)
  {}

  lemma SubmissionStaysBudgeted(s: LoopState, q0: seq<Item>, now: real, ok: bool, dryRun: bool)
    requires Budgeted(s, q0)
    ensures Budgeted(Submission(s, now, ok, dryRun), q0)
  {
    SubmissionKeepsNames(s, now, ok, dryRun);
    if s.queue != [] && MaySubmit(s.br) && !dryRun {
      var item := s.queue[0].(tries := s.queue[0].tries + 1);
      PoppedStaysBudgeted(s, q0, now, item);
      SubmissionPops(s, now, ok, item);
      if !ok {
        FewerTries(s.inflight, item, q0, s.log + [Submitted(now, item.job, item.tries)]);
      }
    }
  }

  lemma SubmissionPops(s: LoopState, now: real, ok: bool, item: Item)
    requires Partitioned(s) && s.queue != [] && MaySubmit(s.br) && item == s.queue[0].(tries := s.queue[0].tries + 1)
    ensures var s' := Submission(s, now, ok, false);
            && s'.queue == s.queue[1..] && s'.seen == s.seen && s'.log == s.log + [Submitted(now, item.job, item.tries)]
            && s'.inflight == if ok then s.inflight + [item] else s.inflight
  {
    QueuedIsOnlyQueued(s);
    PutFresh(s.inflight, item);
  }

  lemma FewerTries(items: seq<Item>, item: Item, q0: seq<Item>, log: seq<LogLine>)
    requires TriesAre(items + [item], q0, log)
    ensures TriesAre(items, q0, log)
  {
    forall i | 0 <= i < |items|
      ensures items[i].tries == InitialTries(q0, items[i].job) + Submissions(log, items[i].job) {
      assert (items + [item])[i] == items[i];
    }
  }

  /** The budget once the head of the queue is popped and its submission logged. */
  lemma PoppedStaysBudgeted(s: LoopState, q0: seq<Item>, now: real, item: Item)
    requires Budgeted(s, q0) && s.queue != [] && item == s.queue[0].(tries := s.queue[0].tries + 1)
    ensures var log := s.log + [Submitted(now, item.job, item.tries)];
            && TriesAre(s.queue[1..], q0, log) && MayRetry(s.queue[1..], log)
            && TriesAre(s.inflight + [item], q0, log) && WithinAllowance(q0, log)
            && forall job :: job !in s.seen ==> Submissions(log, job) == 0
  {
    QueuedIsOnlyQueued(s);
    OneMoreSubmission(s.log, now, item);
  }

  lemma OneMoreSubmission(log: seq<LogLine>, now: real, item: Item)
    ensures forall job :: Submissions(log + [Submitted(now, item.job, item.tries)], job)
                       == Submissions(log, job) + if job == item.job then 1 else 0
  {
    var log' := log + [Submitted(now, item.job, item.tries)];
    assert log'[..|log|] == log;
  }

  // ------------------------------------------------------------------ all jobs together

  function AllSubmissions(log: seq<LogLine>): nat {
    if |log| == 0 then 0
    else AllSubmissions(log[..|log| - 1]) + if log[|log| - 1].Submitted? then 1 else 0
  }

  /** The log without the submissions of one job. */
  function Without(log: seq<LogLine>, job: string): seq<LogLine> {
    if |log| == 0 then [] else
      var last := log[|log| - 1];
      Without(log[..|log| - 1], job) + (if last.Submitted? && last.job == job then [] else [last])
  }

  lemma {:induction false} WithoutCounts(log: seq<LogLine>, job: string)
    ensures AllSubmissions(log) == AllSubmissions(Without(log, job)) + Submissions(log, job)
    ensures forall other :: Submissions(Without(log, job), other) == if other == job then 0 else Submissions(log, other)
  {
    if |log| == 0 {
    } else {
      var rest, last := log[..|log| - 1], log[|log| - 1];
      WithoutCounts(rest, job);
      if last.Submitted? && last.job == job {
        assert Without(log, job) == Without(rest, job);
      } else {
        CountsLast(Without(rest, job), last);
      }
    }
  }

  lemma CountsLast(log: seq<LogLine>, line: LogLine)
    ensures AllSubmissions(log + [line]) == AllSubmissions(log) + if line.Submitted? then 1 else 0
    ensures forall job :: Submissions(log + [line], job) ==
                          Submissions(log, job) + if line.Submitted? && line.job == job then 1 else 0
  {
    assert (log + [line])[..|log|] == log;
  }

  lemma {:induction false} SumOfSubmissions(log: seq<LogLine>, jobs: set<string>, most: nat)
    requires forall job :: Submissions(log, job) <= if job in jobs then most else 0
    ensures AllSubmissions(log) <= most * |jobs|
    decreases |jobs|
  {
    if jobs == {} {
      NoSubmissions(log);
    } else {
      var job :| job in jobs;
      WithoutCounts(log, job);
      SumOfSubmissions(Without(log, job), jobs - {job}, most);
      OneMoreTimes(most, |jobs - {job}|, |jobs|);
    }
  }

  lemma OneMoreTimes(most: nat, k: nat, n: nat)
    requires n == k + 1
    ensures most * n == most * k + most
  {}

  lemma {:induction false} NoSubmissions(log: seq<LogLine>)
    requires forall job :: Submissions(log, job) == 0
    ensures AllSubmissions(log) == 0
  {
    if |log| == 0 {
    } else {
      var rest := log[..|log| - 1];
      forall job ensures Submissions(rest, job) == 0 {
        assert Submissions(log, job) == 0;
      }
      NoSubmissions(rest);
      assert log[|log| - 1].Submitted? ==> Submissions(log, log[|log| - 1].job) > 0;
    }
  }

  /** A run makes at most MAX_TRIES submissions for each job it has seen. */
  lemma TotalSubmissionsBounded(queue: seq<Item>, start: real, base: real, events: seq<Event>, dryRun: bool)
    requires DistinctNames(queue) && forall i :: 0 <= i < |queue| ==> queue[i].tries >= 0
    ensures var s := Run(Start(queue, start, base), events, dryRun);
            AllSubmissions(s.log) <= MAX_TRIES * |s.seen|
  {
    var s := Run(Start(queue, start, base), events, dryRun);
    RunStaysBudgeted(queue, start, base, events, dryRun);
    forall job ensures Submissions(s.log, job) <= if job in s.seen then MAX_TRIES else 0 {
      InitialTriesNonNegative(queue, job);
    }
    SumOfSubmissions(s.log, s.seen, MAX_TRIES);
  }

  lemma {:induction false} InitialTriesNonNegative(queue: seq<Item>, job: string)
    requires forall i :: 0 <= i < |queue| ==> queue[i].tries >= 0
    ensures InitialTries(queue, job) >= 0
  {
    if |queue| == 0 {
    } else {
      InitialTriesNonNegative(queue[1..], job);
    }
  }
}

/**
 * The submission loop around the breaker: a queue of jobs, those in flight, done and failed, and
 * the log. Each tick is an event: the clock, the queue file, the listing (None when it errors)
 * and whether a submission command would succeed.
 */
module SubmissionLoop {
  import opened CircuitBreaker
  import opened Wrappers

  const MAX_TRIES := 3

  datatype Item = Item(job: string, cmd: string, tries: int)

  /** An entry of the queue file; one without the "job" key stops the reading of the file. */
  datatype Entry = Named(job: string, cmd: string) | Malformed

  datatype QueueFile = Unchanged | Unreadable | Changed(entries: seq<Entry>)

  datatype Event = Event(now: real, file: QueueFile, listing: Option<Listing>, submitOk: bool)

  datatype LogLine =
    | Deleted(time: real, name: string)
    | Moved(before: State, after: State)
    | Submitted(at: real, job: string, tries: int)

  /** Everything the loop carries from tick to tick. Jobs in flight keep their insertion order. */
  datatype LoopState = LoopState(
    br: BreakerState, queue: seq<Item>, seen: set<string>,
    inflight: seq<Item>, done: seq<Item>, failed: seq<Item>, log: seq<LogLine>)

  // ------------------------------------------------------------------ specification

  function JobNames(items: seq<Item>): set<string> {
    set i | 0 <= i < |items| :: items[i].job
  }

  /** The loop as it starts; base is the quiet period of its breaker. */
  function Start(queue: seq<Item>, now: real, base: real := QUIET): LoopState {
    LoopState(Initial(now, base), queue, JobNames(queue), [], [], [], [])
  }

  /** Jobs of the changed file that were never seen join the end of the queue. */
  function Enqueued(s: LoopState, entries: seq<Entry>): LoopState
    decreases |entries|
  {
    if |entries| == 0 || entries[0].Malformed? then s
    else Enqueued(EnqueuedOne(s, entries[0]), entries[1..])
  }

  function EnqueuedOne(s: LoopState, e: Entry): LoopState
    requires e.Named?
  {
    if e.job in s.seen then s
    else s.(seen := s.seen + {e.job}, queue := s.queue + [Item(e.job, e.cmd, 0)])
  }

  function ReadFile(s: LoopState, file: QueueFile): LoopState {
    if file.Changed? then Enqueued(s, file.entries) else s
  }

  /** A listing that errors, or is empty while the last accepted one shows an active job, is skipped. */
  predicate Accepted(prev: Listing, listing: Option<Listing>) {
    listing.Some? && (listing.value != [] || forall i :: 0 <= i < |prev| ==> !prev[i].status.active)
  }

  function DeletedLines(gone: seq<string>, now: real): seq<LogLine> {
    seq(|gone|, i requires 0 <= i < |gone| => Deleted(now, gone[i]))
  }

  /** Observe a listing and advance the breaker. */
  function Advanced(s: LoopState, now: real, jobs: Listing): LoopState {
    var gone := Gone(s.br.prev, jobs);
    var br := Stepped(Observed(s.br, jobs, now), now, gone, jobs);
    s.(br := br,
       log := s.log + DeletedLines(gone, now) + (if br.state != s.br.state then [Moved(s.br.state, br.state)] else []))
  }

  /** What the listing says about one job in flight; the item stays in flight unless it is settled. */
  function SettledOne(s: LoopState, item: Item, gone: seq<string>, jobs: Listing): LoopState {
    var st := ByName(jobs, item.job);
    if item.job in gone || st.None? then
      if item.tries < MAX_TRIES then s.(queue := [item] + s.queue) else s.(failed := s.failed + [item])
    else if st.value.succeeded then s.(done := s.done + [item])
    else if st.value.failed then s.(failed := s.failed + [item])
    else s.(inflight := s.inflight + [item])
  }

  function Settled(s: LoopState, items: seq<Item>, gone: seq<string>, jobs: Listing): LoopState {
    if |items| == 0 then s.(inflight := [])
    else SettledOne(Settled(s, items[..|items| - 1], gone, jobs), items[|items| - 1], gone, jobs)
  }

  /** Assignment into the in-flight dict: an existing key keeps its place. */
  function Put(items: seq<Item>, item: Item): seq<Item> {
    if |items| == 0 then [item]
    else if items[0].job == item.job then [item] + items[1..]
    else [items[0]] + Put(items[1..], item)
  }

  /** At most one submission, the first of the queue; a HALF_OPEN one becomes the probe. */
  function Submission(s: LoopState, now: real, ok: bool, dryRun: bool): LoopState {
    if s.queue == [] || !MaySubmit(s.br) || dryRun then s
    else
      var item := s.queue[0].(tries := s.queue[0].tries + 1);
      var s' := s.(queue := s.queue[1..], log := s.log + [Submitted(now, item.job, item.tries)]);
      if !ok then s'.(failed := s.failed + [item])
      else
        s'.(inflight := Put(s.inflight, item),
            br := if s.br.state == HALF_OPEN then s.br.(probe := Some(Probe(item.job, now))) else s.br)
  }

  /** One tick of the loop. */
  function Ticked(s: LoopState, e: Event, dryRun: bool): LoopState {
    var s1 := ReadFile(s, e.file);
    if !Accepted(s1.br.prev, e.listing) then s1
    else
      var jobs := e.listing.value;
      var gone := Gone(s1.br.prev, jobs);
      var s2 := Advanced(s1, e.now, jobs);
      var s3 := Settled(s2, s2.inflight, gone, jobs);
      Submission(s3, e.now, e.submitOk, dryRun)
  }

  /** The state after a whole run. */
  function Run(s: LoopState, events: seq<Event>, dryRun: bool): LoopState {
    if |events| == 0 then s
    else Ticked(Run(s, events[..|events| - 1], dryRun), events[|events| - 1], dryRun)
  }

  // ------------------------------------------------------------------ where jobs in flight go

  datatype Fate = StaysInFlight | Requeued | Finished | Failed

  /** What the listing says: the last job listed under the name, or that there is none, or that it vanished. */
  ghost function FateOf(item: Item, gone: seq<string>, jobs: Listing): Fate {
    if item.job in gone || Unlisted(jobs, item.job) then (if item.tries < MAX_TRIES then Requeued else Failed)
    else if ListedSucceeded(jobs, item.job) then Finished
    else if ListedFailed(jobs, item.job) then Failed
    else StaysInFlight
  }

  /** The items of one fate, in order. */
  ghost function With(items: seq<Item>, fate: Fate, gone: seq<string>, jobs: Listing): seq<Item> {
    if |items| == 0 then [] else
      var before, last := With(items[..|items| - 1], fate, gone, jobs), items[|items| - 1];
      if FateOf(last, gone, jobs) == fate then before + [last] else before
  }

  function Reversed(items: seq<Item>): seq<Item> {
    if |items| == 0 then [] else [items[|items| - 1]] + Reversed(items[..|items| - 1])
  }

  lemma ReversedLast(items: seq<Item>, item: Item)
    ensures Reversed(items + [item]) == [item] + Reversed(items)
  {
    assert (items + [item])[..|items|] == items;
  }

  /** Jobs in flight sorted by their fate, keeping their order; requeued ones jump the queue. */
  ghost function SortedOut(s: LoopState, items: seq<Item>, gone: seq<string>, jobs: Listing): LoopState {
    s.(inflight := With(items, StaysInFlight, gone, jobs),
       done := s.done + With(items, Finished, gone, jobs),
       failed := s.failed + With(items, Failed, gone, jobs),
       queue := Reversed(With(items, Requeued, gone, jobs)) + s.queue)
  }

  /** Settling puts every job in flight exactly where its fate says. */
  lemma {:induction false} SettlingSorts(s: LoopState, items: seq<Item>, gone: seq<string>, jobs: Listing)
    ensures Settled(s, items, gone, jobs) == SortedOut(s, items, gone, jobs)
  {
    if |items| == 0 {
    } else {
      SettlingSorts(s, items[..|items| - 1], gone, jobs);
      SortOneMore(s, items, gone, jobs);
    }
  }

  lemma SortOneMore(s: LoopState, items: seq<Item>, gone: seq<string>, jobs: Listing)
    requires |items| > 0
    ensures SettledOne(SortedOut(s, items[..|items| - 1], gone, jobs), items[|items| - 1], gone, jobs)
            == SortedOut(s, items, gone, jobs)
  {
    var rest, last := items[..|items| - 1], items[|items| - 1];
    LookupReadsListing(jobs, last.job);
    match FateOf(last, gone, jobs)
    case Requeued =>
      var back := With(rest, Requeued, gone, jobs);
      ReversedLast(back, last);
      assert [last] + (Reversed(back) + s.queue) == ([last] + Reversed(back)) + s.queue;
    case StaysInFlight =>
    case Finished =>
      assert s.done + With(rest, Finished, gone, jobs) + [last] == s.done + (With(rest, Finished, gone, jobs) + [last]);
    case Failed =>
      assert s.failed + With(rest, Failed, gone, jobs) + [last] == s.failed + (With(rest, Failed, gone, jobs) + [last]);
  }

  // ------------------------------------------------------------------ the program

  class Loop {
    var queue: seq<Item>
    var seen: set<string>
    var inflight: seq<Item>
    var done: seq<Item>
    var failed: seq<Item>
    var log: seq<LogLine>
    const br: Breaker
    const dryRun: bool

    function View(): LoopState
      reads this, br
    {
      LoopState(br.View(), queue, seen, inflight, done, failed, log)
    }

    constructor (queue: seq<Item>, now: real, dryRun: bool, base: real := QUIET)
      ensures View() == Start(queue, now, base) && this.dryRun == dryRun
      ensures fresh(br)
    {
      this.queue := queue;
      seen := JobNames(queue);
      inflight, done, failed, log := [], [], [], [];
      br := new Breaker(now, base);
      this.dryRun := dryRun;
    }

    method RereadQueue(file: QueueFile)
      modifies this
      ensures View() == ReadFile(old(View()), file)
    {
      if file.Changed? {
        var i := 0;
        while i < |file.entries| && file.entries[i].Named?
          invariant i <= |file.entries|
          invariant View() == old(View()).(queue := queue, seen := seen)
          invariant Enqueued(View(), file.entries[i..]) == Enqueued(old(View()), file.entries)
        {
          var q := file.entries[i];
          assert file.entries[i..][1..] == file.entries[i + 1..];
          if q.job !in seen {
            seen := seen + {q.job};
            queue := queue + [Item(q.job, q.cmd, 0)];
          }
          i := i + 1;
        }
      }
    }

    method Settle(gone: seq<string>, jobs: Listing)
      modifies this
      ensures View() == Settled(old(View()), old(inflight), gone, jobs)
      ensures View() == SortedOut(old(View()), old(inflight), gone, jobs)
    {
      var items := inflight;
      inflight := [];
      for i := 0 to |items|
        invariant View() == Settled(old(View()), items[..i], gone, jobs)
      {
        assert items[..i + 1][..i] == items[..i];
        var item := items[i];
        var st := ByName(jobs, item.job);
        if item.job in gone || st.None? {
          if item.tries < MAX_TRIES {
            queue := [item] + queue;
          } else {
            failed := failed + [item];
          }
        } else if st.value.succeeded {
          done := done + [item];
        } else if st.value.failed {
          failed := failed + [item];
        } else {
          inflight := inflight + [item];
        }
      }
      assert items[..|items|] == items;
      SettlingSorts(old(View()), items, gone, jobs);
    }

    method Submit(now: real, ok: bool)
      modifies this, br
      ensures View() == Submission(old(View()), now, ok, dryRun)
    {
      if queue != [] && MaySubmit(br.View()) && !dryRun {
        var item := queue[0].(tries := queue[0].tries + 1);
        queue := queue[1..];
        log := log + [Submitted(now, item.job, item.tries)];
        if ok {
          inflight := Put(inflight, item);
          if br.state == HALF_OPEN {
            br.probe := Some(Probe(item.job, now));
          }
        } else {
          failed := failed + [item];
        }
      }
    }

    /** The body of the loop; it returns whether the queue is drained and the loop exits. */
    method Tick(e: Event) returns (drained: bool)
      modifies this, br
      ensures View() == Ticked(old(View()), e, dryRun)
      ensures drained <==> Accepted(old(br.prev), e.listing) && queue == [] && inflight == []
    {
      ReadFileKeepsBreaker(View(), e.file);
      RereadQueue(e.file);
      ghost var s1 := View();
      if e.listing.None? || (e.listing.value == [] && exists i :: 0 <= i < |br.prev| && br.prev[i].status.active) {
        return false;
      }
      var jobs := e.listing.value;
      var before := br.state;
      var gone := br.Observe(jobs, e.now);
      log := log + DeletedLines(gone, e.now);
      var state := br.Step(e.now, gone, jobs);
      if state != before {
        log := log + [Moved(before, state)];
      }
      assert log == s1.log + DeletedLines(gone, e.now) + (if state != before then [Moved(before, state)] else []);
      assert View() == Advanced(s1, e.now, jobs);
      Settle(gone, jobs);
      Submit(e.now, e.submitOk);
      return queue == [] && inflight == [];
    }
  }

  lemma ReadFileKeepsBreaker(s: LoopState, file: QueueFile)
    ensures ReadFile(s, file) == s.(queue := ReadFile(s, file).queue, seen := ReadFile(s, file).seen)
  {
    if file.Changed? {
      EnqueuedKeepsRest(s, file.entries);
    }
  }

  lemma EnqueuedKeepsRest(s: LoopState, entries: seq<Entry>)
    ensures Enqueued(s, entries) == s.(queue := Enqueued(s, entries).queue, seen := Enqueued(s, entries).seen)
    decreases |entries|
  {}
}

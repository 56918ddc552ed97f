/**
 * The circuit breaker of the submission loop: CLOSED, OPEN and HALF_OPEN over a sliding window
 * of deletions. `BreakerState` and its transition functions are the specification; the class
 * below is the program.
 */
module CircuitBreaker {
  import opened Wrappers

  const WINDOW: real := 1800.0
  const THRESHOLD: nat := 2
  const QUIET: real := 2700.0
  const MAX_QUIET: real := 14400.0
  const PROBE_OK: real := 1200.0

  datatype State = CLOSED | OPEN | HALF_OPEN

  datatype Status = Status(active: bool, succeeded: bool, failed: bool)

  datatype Job = Job(uid: string, name: string, status: Status)

  /** A listing is a dict keyed by uid: an ordered list without repeated uids. */
  type Listing = jobs: seq<Job> | DistinctUids(jobs)

  datatype Deletion = Deletion(time: real, name: string)

  datatype Probe = Probe(name: string, since: real)

  datatype BreakerState = BreakerState(
    state: State, baseQuiet: real, quiet: real, lastDeletion: real,
    deletions: seq<Deletion>, prev: Listing, probe: Option<Probe>)

  predicate DistinctUids(jobs: seq<Job>) {
    forall i, j :: 0 <= i < j < |jobs| ==> jobs[i].uid != jobs[j].uid
  }

  predicate Lists(jobs: seq<Job>, uid: string) {
    exists i :: 0 <= i < |jobs| && jobs[i].uid == uid
  }

  // ------------------------------------------------------------------ specification

  /** Names of the jobs that were active in one listing and are absent from the next, in order. */
  function Gone(prev: seq<Job>, jobs: Listing): seq<string> {
    if |prev| == 0 then [] else
      var last := prev[|prev| - 1];
      Gone(prev[..|prev| - 1], jobs) + (if last.status.active && !Lists(jobs, last.uid) then [last.name] else [])
  }

  /** The deletions at most WINDOW seconds old. */
  function Recent(ds: seq<Deletion>, now: real): seq<Deletion> {
    if |ds| == 0 then [] else
      var last := ds[|ds| - 1];
      Recent(ds[..|ds| - 1], now) + (if now - last.time <= WINDOW then [last] else [])
  }

  function Stamped(names: seq<string>, now: real): (ds: seq<Deletion>)
    ensures |ds| == |names|
  {
    seq(|names|, i requires 0 <= i < |names| => Deletion(now, names[i]))
  }

  /** The status of the last listed job of that name. */
  function ByName(jobs: seq<Job>, name: string): Option<Status> {
    if |jobs| == 0 then None
    else if jobs[|jobs| - 1].name == name then Some(jobs[|jobs| - 1].status)
    else ByName(jobs[..|jobs| - 1], name)
  }

  function Min(a: real, b: real): (m: real)
    ensures m <= a && m <= b && (m == a || m == b)
  {
    if a <= b then a else b
  }

  function Initial(now: real, quiet: real): BreakerState {
    BreakerState(OPEN, quiet, quiet, now, [], [], None)
  }

  function Observed(b: BreakerState, jobs: Listing, now: real): BreakerState {
    var gone := Gone(b.prev, jobs);
    b.(prev := jobs,
       deletions := Recent(b.deletions + Stamped(gone, now), now),
       lastDeletion := if gone != [] then now else b.lastDeletion)
  }

  /** What a listed status says about a probe submitted at a given time. */
  predicate ProbePassed(st: Option<Status>, age: real) {
    st.Some? && (st.value.succeeded || (st.value.active && age >= PROBE_OK))
  }

  predicate ProbeFailed(st: Option<Status>) {
    st.Some? && st.value.failed
  }

  function Stepped(b: BreakerState, now: real, gone: seq<string>, jobs: Listing): BreakerState {
    match b.state
    case CLOSED => if |b.deletions| >= THRESHOLD then b.(state := OPEN) else b
    case OPEN => if now - b.lastDeletion >= b.quiet then b.(state := HALF_OPEN) else b
    case HALF_OPEN =>
      if gone != [] then b.(state := OPEN, quiet := Min(2.0 * b.quiet, MAX_QUIET), probe := None)
      else if b.probe.None? then b
      else
        var st := ByName(jobs, b.probe.value.name);
        if ProbePassed(st, now - b.probe.value.since) then b.(state := CLOSED, quiet := b.baseQuiet, probe := None)
        else if ProbeFailed(st) then b.(probe := None)
        else b
  }

  predicate MaySubmit(b: BreakerState) {
    b.state == CLOSED || (b.state == HALF_OPEN && b.probe.None?)
  }

  // ------------------------------------------------------------------ what a listing says of a name

  /** Job i bears the name, and no later job does. */
  ghost predicate LastOfName(jobs: seq<Job>, name: string, i: int) {
    0 <= i < |jobs| && jobs[i].name == name && forall j :: i < j < |jobs| ==> jobs[j].name != name
  }

  ghost predicate Unlisted(jobs: seq<Job>, name: string) {
    forall i :: 0 <= i < |jobs| ==> jobs[i].name != name
  }

  ghost predicate ListedAs(jobs: seq<Job>, name: string, st: Status) {
    exists i :: LastOfName(jobs, name, i) && jobs[i].status == st
  }

  ghost predicate ListedSucceeded(jobs: seq<Job>, name: string) {
    exists i :: LastOfName(jobs, name, i) && jobs[i].status.succeeded
  }

  ghost predicate ListedFailed(jobs: seq<Job>, name: string) {
    exists i :: LastOfName(jobs, name, i) && jobs[i].status.failed
  }

  ghost predicate ListedActive(jobs: seq<Job>, name: string) {
    exists i :: LastOfName(jobs, name, i) && jobs[i].status.active
  }

  /** The probe's job, as last listed, succeeded or is active PROBE_OK seconds after it was submitted. */
  ghost predicate Lived(jobs: seq<Job>, p: Probe, now: real) {
    ListedSucceeded(jobs, p.name) || (ListedActive(jobs, p.name) && now - p.since >= PROBE_OK)
  }

  /** A name is looked up as the last job listed under it, and is missing exactly when no job bears it. */
  lemma {:induction false} LookupIsLast(jobs: seq<Job>, name: string, st: Status)
    ensures ByName(jobs, name) == Some(st) <==> ListedAs(jobs, name, st)
    ensures ByName(jobs, name).None? <==> Unlisted(jobs, name)
  {
    if |jobs| == 0 {
    } else {
      var n := |jobs| - 1;
      if jobs[n].name == name {
        ListedAtEnd(jobs, name, st);
      } else {
        LookupIsLast(jobs[..n], name, st);
        ListedBefore(jobs, name, st);
      }
    }
  }

  /** A last job of that name decides. */
  lemma ListedAtEnd(jobs: seq<Job>, name: string, st: Status)
    requires |jobs| > 0 && jobs[|jobs| - 1].name == name
    ensures ListedAs(jobs, name, st) <==> jobs[|jobs| - 1].status == st
    ensures !Unlisted(jobs, name)
  {
    var n := |jobs| - 1;
    assert LastOfName(jobs, name, n);
    if i :| LastOfName(jobs, name, i) && jobs[i].status == st {
      assert i == n;
    }
  }

  /** A last job of another name does not matter. */
  lemma ListedBefore(jobs: seq<Job>, name: string, st: Status)
    requires |jobs| > 0 && jobs[|jobs| - 1].name != name
    ensures ListedAs(jobs[..|jobs| - 1], name, st) <==> ListedAs(jobs, name, st)
    ensures Unlisted(jobs[..|jobs| - 1], name) <==> Unlisted(jobs, name)
  {
    var before := jobs[..|jobs| - 1];
    if i :| LastOfName(before, name, i) && before[i].status == st {
      assert LastOfName(jobs, name, i);
    }
    if i :| LastOfName(jobs, name, i) && jobs[i].status == st {
      assert LastOfName(before, name, i);
    }
  }

  /** The looked-up status, read off the listing itself. */
  lemma LookupReadsListing(jobs: seq<Job>, name: string)
    ensures var st := ByName(jobs, name);
            && (st.None? <==> Unlisted(jobs, name))
            && (st.Some? && st.value.succeeded <==> ListedSucceeded(jobs, name))
            && (st.Some? && st.value.failed <==> ListedFailed(jobs, name))
            && (st.Some? && st.value.active <==> ListedActive(jobs, name))
  {
    var st := ByName(jobs, name);
    LookupIsLast(jobs, name, if st.Some? then st.value else Status(false, false, false));
  }

  /** Twice the quiet period, or MAX_QUIET if that is less. */
  ghost predicate DoublesUpTo(quiet: real, before: real) {
    quiet <= 2.0 * before && quiet <= MAX_QUIET && (quiet == 2.0 * before || quiet == MAX_QUIET)
  }

  ghost predicate Keeps(before: BreakerState, after: BreakerState) {
    after.quiet == before.quiet && after.probe == before.probe
  }

  /**
   * Where a breaker goes with `recent` deletions in the window, the last one at `last`: CLOSED opens at
   * THRESHOLD of them, OPEN lets a probe out when the last is quiet seconds old, HALF_OPEN opens on any
   * deletion, with the quiet period doubled, closes on a probe that lived, and drops one that failed.
   */
  ghost predicate StepsAs(before: BreakerState, after: BreakerState, recent: nat, last: real, now: real,
                          gone: seq<string>, jobs: Listing)
  {
    match before.state
    case CLOSED => after.state == (if recent >= THRESHOLD then OPEN else CLOSED) && Keeps(before, after)
    case OPEN => after.state == (if now - last >= before.quiet then HALF_OPEN else OPEN) && Keeps(before, after)
    case HALF_OPEN =>
      if gone != [] then after.state == OPEN && after.probe.None? && DoublesUpTo(after.quiet, before.quiet)
      else if before.probe.Some? && Lived(jobs, before.probe.value, now) then
        after.state == CLOSED && after.probe.None? && after.quiet == before.baseQuiet
      else if before.probe.Some? && ListedFailed(jobs, before.probe.value.name) then
        after.state == HALF_OPEN && after.probe.None? && after.quiet == before.quiet
      else after.state == HALF_OPEN && Keeps(before, after)
  }

  /** The transition after an observation, which changes neither state nor quiet period nor probe. */
  lemma StepReadsListing(before: BreakerState, b: BreakerState, now: real, gone: seq<string>, jobs: Listing)
    requires b == before.(deletions := b.deletions, lastDeletion := b.lastDeletion, prev := b.prev)
    ensures StepsAs(before, Stepped(b, now, gone, jobs), |b.deletions|, b.lastDeletion, now, gone, jobs)
  {
    if b.probe.Some? {
      LookupReadsListing(jobs, b.probe.value.name);
    }
  }

  // ------------------------------------------------------------------ the program

  method VanishedNames(prev: Listing, jobs: Listing) returns (gone: seq<string>)
    ensures gone == Gone(prev, jobs)
  {
    gone := [];
    for i := 0 to |prev|
      invariant gone == Gone(prev[..i], jobs)
    {
      assert prev[..i + 1][..i] == prev[..i];
      if prev[i].status.active && !Lists(jobs, prev[i].uid) {
        gone := gone + [prev[i].name];
      }
    }
    assert prev[..|prev|] == prev;
  }

  method WithinWindow(all: seq<Deletion>, now: real) returns (kept: seq<Deletion>)
    ensures kept == Recent(all, now)
  {
    kept := [];
    for i := 0 to |all|
      invariant kept == Recent(all[..i], now)
    {
      assert all[..i + 1][..i] == all[..i];
      if now - all[i].time <= WINDOW {
        kept := kept + [all[i]];
      }
    }
    assert all[..|all|] == all;
  }

  class Breaker {
    var state: State
    const baseQuiet: real
    var quiet: real
    var lastDeletion: real
    var deletions: seq<Deletion>
    var prev: Listing
    var probe: Option<Probe>

    function View(): BreakerState
      reads this
    {
      BreakerState(state, baseQuiet, quiet, lastDeletion, deletions, prev, probe)
    }

    constructor (now: real, quiet: real)
      ensures View() == Initial(now, quiet)
    {
      state := OPEN;
      baseQuiet := quiet;
      this.quiet := quiet;
      lastDeletion := now;
      deletions := [];
      prev := [];
      probe := None;
    }

    method Observe(jobs: Listing, now: real) returns (gone: seq<string>)
      modifies this
      ensures gone == Gone(old(prev), jobs)
      ensures View() == Observed(old(View()), jobs, now)
    {
      gone := VanishedNames(prev, jobs);
      prev := jobs;
      for i := 0 to |gone|
        invariant deletions == old(deletions) + Stamped(gone, now)[..i]
        invariant lastDeletion == if i > 0 then now else old(lastDeletion)
        invariant View() == old(View()).(prev := jobs, deletions := deletions, lastDeletion := lastDeletion)
      {
        deletions := deletions + [Deletion(now, gone[i])];
        lastDeletion := now;
      }
      assert deletions == old(deletions) + Stamped(gone, now);
      deletions := WithinWindow(deletions, now);
    }

    method Step(now: real, gone: seq<string>, jobs: Listing) returns (s: State)
      modifies this
      ensures View() == Stepped(old(View()), now, gone, jobs)
      ensures StepsAs(old(View()), View(), |deletions|, lastDeletion, now, gone, jobs)
      ensures s == state
    {
      StepReadsListing(View(), View(), now, gone, jobs);
      if state == CLOSED {
        if |deletions| >= THRESHOLD {
          state := OPEN;
        }
      } else if state == OPEN {
        if now - lastDeletion >= quiet {
          state := HALF_OPEN;
        }
      } else {
        if gone != [] {
          state := OPEN;
          quiet := Min(2.0 * quiet, MAX_QUIET);
          probe := None;
        } else if probe.Some? {
          var st := ByName(jobs, probe.value.name);
          if ProbePassed(st, now - probe.value.since) {
            state := CLOSED;
            quiet := baseQuiet;
            probe := None;
          } else if ProbeFailed(st) {
            probe := None;
          }
        }
      }
      return state;
    }
  }
}

/** What the queue file adds to the queue: each name once, at its first mention, in file order. */
module QueueReading {
  import opened CircuitBreaker
  import opened SubmissionLoop

  ghost predicate AllNamed(entries: seq<Entry>) {
    forall i :: 0 <= i < |entries| ==> entries[i].Named?
  }

  /** The entries before the first one without a name. */
  function Readable(entries: seq<Entry>): (named: seq<Entry>)
    ensures named <= entries && AllNamed(named)
    ensures |named| < |entries| ==> entries[|named|].Malformed?
  {
    if |entries| == 0 || entries[0].Malformed? then [] else [entries[0]] + Readable(entries[1..])
  }

  /** The names of entries that all have one. */
  ghost function EntryNames(entries: seq<Entry>): set<string>
    requires AllNamed(entries)
  {
    set i | 0 <= i < |entries| :: entries[i].job
  }

  /** Entry i is the first to mention a name that is not in seen. */
  ghost predicate FirstMention(seen: set<string>, entries: seq<Entry>, i: nat)
    requires AllNamed(entries) && i < |entries|
  {
    entries[i].job !in seen && forall j :: 0 <= j < i ==> entries[j].job != entries[i].job
  }

  /** The jobs first mentioned by the entries, untried, in their order. */
  ghost function NewItems(seen: set<string>, entries: seq<Entry>): seq<Item>
    requires AllNamed(entries)
  {
    if |entries| == 0 then [] else
      var n := |entries| - 1;
      NewItems(seen, entries[..n])
      + if FirstMention(seen, entries, n) then [Item(entries[n].job, entries[n].cmd, 0)] else []
  }

  /** The entries a tick reads. */
  function Entries(file: QueueFile): (named: seq<Entry>)
    ensures AllNamed(named)
  {
    if file.Changed? then Readable(file.entries) else []
  }

  /** The new items stand at the end of the queue, all names read are seen, and nothing else changes. */
  ghost predicate Adds(s: LoopState, s': LoopState, entries: seq<Entry>)
    requires AllNamed(entries)
  {
    s' == s.(queue := s.queue + NewItems(s.seen, entries), seen := s.seen + EntryNames(entries))
  }

  /** Reading the queue file: an unchanged or unreadable one adds nothing, a changed one its readable part. */
  lemma ReadingQueuesUnseen(s: LoopState, file: QueueFile)
    ensures Adds(s, ReadFile(s, file), Entries(file))
  {
    if file.Changed? {
      StopsAtMalformed(s, file.entries);
      NamedEntriesAdd(s, Readable(file.entries));
    } else {
      NoneAdded(s);
    }
  }

  lemma NoneAdded(s: LoopState)
    ensures Adds(s, s, [])
  {
    assert s.queue + [] == s.queue && s.seen + EntryNames([]) == s.seen;
  }

  lemma {:induction false} StopsAtMalformed(s: LoopState, entries: seq<Entry>)
    ensures Enqueued(s, entries) == Enqueued(s, Readable(entries))
    decreases |entries|
  {
    if |entries| == 0 || entries[0].Malformed? {
    } else {
      var named := Readable(entries[1..]);
      StopsAtMalformed(EnqueuedOne(s, entries[0]), entries[1..]);
      assert ([entries[0]] + named)[1..] == named;
    }
  }

  lemma {:induction false} NamedEntriesAdd(s: LoopState, entries: seq<Entry>)
    requires AllNamed(entries)
    ensures Adds(s, Enqueued(s, entries), entries)
  {
    if |entries| == 0 {
      NoneAdded(s);
    } else {
      var front, last := entries[..|entries| - 1], entries[|entries| - 1];
      NamedEntriesAdd(s, front);
      EnqueuedLast(s, front, last);
      assert entries == front + [last];
      OneMoreEntry(s, Enqueued(s, front), entries);
    }
  }

  /** Reading one entry more is reading it after the others. */
  lemma {:induction false} EnqueuedLast(s: LoopState, front: seq<Entry>, last: Entry)
    requires AllNamed(front) && last.Named?
    ensures Enqueued(s, front + [last]) == EnqueuedOne(Enqueued(s, front), last)
    decreases |front|
  {
    var all := front + [last];
    if |front| == 0 {
      assert all[1..] == [];
      assert Enqueued(EnqueuedOne(s, last), []) == EnqueuedOne(s, last);
    } else {
      assert all[1..] == front[1..] + [last];
      EnqueuedLast(EnqueuedOne(s, front[0]), front[1..], last);
    }
  }

  lemma OneMoreEntry(s: LoopState, before: LoopState, entries: seq<Entry>)
    requires AllNamed(entries) && |entries| > 0
    requires Adds(s, before, entries[..|entries| - 1])
    ensures Adds(s, EnqueuedOne(before, entries[|entries| - 1]), entries)
  {
    var n := |entries| - 1;
    var e, front := entries[n], entries[..n];
    NamesOfMore(entries);
    if e.job in before.seen {
      assert !FirstMention(s.seen, entries, n);
      assert s.queue + NewItems(s.seen, entries) == before.queue;
    } else {
      assert FirstMention(s.seen, entries, n);
      assert s.queue + NewItems(s.seen, entries) == before.queue + [Item(e.job, e.cmd, 0)];
    }
  }

  lemma NamesOfMore(entries: seq<Entry>)
    requires AllNamed(entries) && |entries| > 0
    ensures var n := |entries| - 1;
            && EntryNames(entries) == EntryNames(entries[..n]) + {entries[n].job}
            && (entries[n].job in EntryNames(entries[..n])
                <==> exists j :: 0 <= j < n && entries[j].job == entries[n].job)
  {
    var n := |entries| - 1;
    forall name | name in EntryNames(entries[..n]) ensures name in EntryNames(entries) {
      var j :| 0 <= j < n && entries[..n][j].job == name;
      assert entries[j].job == name;
    }
    forall name | name in EntryNames(entries) ensures name in EntryNames(entries[..n]) + {entries[n].job} {
      var j :| 0 <= j < |entries| && entries[j].job == name;
      assert j < n ==> entries[..n][j].job == name;
    }
    forall j | 0 <= j < n ensures entries[j].job in EntryNames(entries[..n]) {
      assert entries[..n][j].job == entries[j].job;
    }
  }
}

/** The tracker feeding the log fetcher: when its batches have distinct heights, and so when the logs of every
    batch are delivered in order. */
module Pipeline {
  import opened BufferLinks
  import opened Chain
  import opened Limits
  import opened Logs
  import opened Reconcile
  import opened Sorting
  import opened Stream
  import opened Track
  import opened TrackLaws
  import T = TrackRuns

  /** What poll p emits after a run. */
  function Batch(start: Tracker, polls: seq<T.TrackPoll>, p: T.TrackPoll): seq<BlockRef>
    requires TipKnown(start.window)
  {
    var result := PollOnce(T.Run(start, polls).tracker, p.reply, p.reader, p.clock).result;
    if result.Polled? then result.emitted else []
  }

  /** At a confirmation depth of at most the window's depth plus one, every batch of every run is contiguous. */
  lemma ShallowContiguous(maxDepth: nat, confirmDepth: nat, polls: seq<T.TrackPoll>, p: T.TrackPoll)
    requires confirmDepth <= Fresh(maxDepth).depth + 1
    ensures TipKnown(Start(maxDepth, confirmDepth).window) && Contiguous(Batch(Start(maxDepth, confirmDepth), polls, p))
  {
    hide PollOnce, T.Run, BufferLinks.Inside;
    var start := Start(maxDepth, confirmDepth);
    StartInside(maxDepth, confirmDepth);
    RunKeepsInside(start, polls);
    PollKeepsInside(T.Run(start, polls).tracker, p.reply, p.reader, p.clock);
  }

  lemma StartInside(maxDepth: nat, confirmDepth: nat)
    ensures BufferLinks.Inside(Start(maxDepth, confirmDepth))
  {
  }

  /** At any confirmation depth, so is every batch that an allowed poll emits from a sound state. */
  lemma SoundContiguous(t: Tracker, live: Table, emitted: Table, reply: Reply, rd: Reader, k: nat)
    requires TipKnown(t.window) && Sound(t, live, emitted) && PollAllowed(t, live, reply, rd, k)
    requires PollOnce(t, reply, rd, k).result.Polled?
    ensures Contiguous(PollOnce(t, reply, rd, k).result.emitted)
  {
    hide Rows, Settle, OnHead, Allowed, Tracks;
    var head := reply.block;
    if !t.window.seeded {
      SeedKeepsInside(t, rd, k, head);
    } else {
      var lo: nat, first: nat, e: nat :| Buffered(t, lo, first, e, live);
      if Duplicate(t.window, head) {
        DuplicateHead(t.window, rd, k, head);
        DuplicateBelowTip(t, lo, first, e, live, head);
        DuplicateStep(t, lo, first, e, live, head);
      } else {
        T.NotifiedExactly(t, lo, first, e, live, head, rd, k);
      }
    }
  }

  lemma DuplicateBelowTip(t: Tracker, lo: nat, first: nat, e: nat, live: Table, head: BlockRef)
    requires Buffered(t, lo, first, e, live) && Duplicate(t.window, head)
    ensures head.number <= t.window.tip
  {
  }

  lemma SafeContiguous(maxDepth: nat, confirmDepth: nat, polls: seq<T.TrackPoll>, p: T.TrackPoll)
    requires T.SafeRun(Start(maxDepth, confirmDepth), map[], polls + [p])
    ensures Contiguous(Batch(Start(maxDepth, confirmDepth), polls, p))
  {
    hide PollOnce, T.Run, Sound, PollAllowed, Replay;
    var start := Start(maxDepth, confirmDepth);
    assert (polls + [p])[..|polls|] == polls;
    T.StartSound(maxDepth, confirmDepth);
    T.Conservation(start, map[], map[], polls);
    var r := T.Run(start, polls);
    if PollOnce(r.tracker, p.reply, p.reader, p.clock).result.Polled? {
      SoundContiguous(r.tracker, Replay(map[], r.up).value, Replay(map[], r.down).value, p.reply, p.reader, p.clock);
    }
  }

  /** Whatever a poll emits, after any run at such a depth or after any safe run, the logs of its batch are
      delivered in global order, each as often as the node returned it, with the emitted block. */
  lemma EmittedLogsInOrder(maxDepth: nat, confirmDepth: nat, polls: seq<T.TrackPoll>, p: T.TrackPoll,
                           batchSize: int, client: LogClient, calls: nat)
    requires InRangeOnly(client)
    requires confirmDepth <= Fresh(maxDepth).depth + 1 || T.SafeRun(Start(maxDepth, confirmDepth), map[], polls + [p])
    ensures var batch := Batch(Start(maxDepth, confirmDepth), polls, p);
            var ds := BatchDeliveries(batchSize, client, calls, batch);
            && InOrder(LogsOf(ds))
            && multiset(LogsOf(ds)) == Returned(client, calls, Requests(batchSize, batch))
            && forall d :: d in ds ==> d.block in batch && d.block.number == d.log.blockNumber
  {
    hide Batch, BatchDeliveries, Returned, Requests, InOrder, LogsOf, T.SafeRun;
    if confirmDepth <= Fresh(maxDepth).depth + 1 {
      ShallowContiguous(maxDepth, confirmDepth, polls, p);
    } else {
      SafeContiguous(maxDepth, confirmDepth, polls, p);
    }
    ContiguousIsDistinct(Batch(Start(maxDepth, confirmDepth), polls, p));
    OrderedExactlyOnce(batchSize, client, calls, Batch(Start(maxDepth, confirmDepth), polls, p));
  }

  ghost predicate AllDistinct(maxDepth: nat, confirmDepth: nat) {
    forall polls, p :: DistinctHeights(Batch(Start(maxDepth, confirmDepth), polls, p))
  }

  ghost predicate AllInOrder(maxDepth: nat, confirmDepth: nat, batchSize: int) {
    forall polls, p :: AlwaysInOrder(batchSize, Batch(Start(maxDepth, confirmDepth), polls, p))
  }

  /** Exactly when batches have distinct heights: over every run, allowed or not, if and only if the
      confirmation depth is at most the window's depth plus one. */
  lemma DistinctIffShallow(maxDepth: nat, confirmDepth: nat)
    ensures AllDistinct(maxDepth, confirmDepth) <==> confirmDepth <= Fresh(maxDepth).depth + 1
  {
    hide Batch, DistinctHeights;
    if confirmDepth <= Fresh(maxDepth).depth + 1 {
      forall polls, p
        ensures DistinctHeights(Batch(Start(maxDepth, confirmDepth), polls, p))
      {
        ShallowContiguous(maxDepth, confirmDepth, polls, p);
        ContiguousIsDistinct(Batch(Start(maxDepth, confirmDepth), polls, p));
      }
    } else {
      RepeatingBatch(maxDepth, confirmDepth);
    }
  }

  lemma RepeatingBatch(maxDepth: nat, confirmDepth: nat)
    requires confirmDepth > Fresh(maxDepth).depth + 1
    ensures !DistinctHeights(Batch(Start(maxDepth, confirmDepth), RepeatingRun(Fresh(maxDepth).depth),
        ConfirmingPoll(confirmDepth)))
  {
    hide PollOnce, T.Run;
    RepeatedBatch(maxDepth, confirmDepth);
    var batch := Batch(Start(maxDepth, confirmDepth), RepeatingRun(Fresh(maxDepth).depth),
        ConfirmingPoll(confirmDepth));
    assert batch[0].number == batch[1].number;
  }

  /** And so, at every batch size, logs are delivered in order from every node and over every run if and only
      if the confirmation depth is at most the window's depth plus one. */
  lemma InOrderIffShallow(maxDepth: nat, confirmDepth: nat, batchSize: int)
    ensures AllInOrder(maxDepth, confirmDepth, batchSize) <==> confirmDepth <= Fresh(maxDepth).depth + 1
  {
    hide Batch, AlwaysInOrder, DistinctHeights;
    DistinctIffShallow(maxDepth, confirmDepth);
    forall polls, p
      ensures AlwaysInOrder(batchSize, Batch(Start(maxDepth, confirmDepth), polls, p))
              <==> DistinctHeights(Batch(Start(maxDepth, confirmDepth), polls, p))
    {
      OrderedIffDistinct(batchSize, Batch(Start(maxDepth, confirmDepth), polls, p));
    }
  }
}

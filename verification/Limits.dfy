/** Runs that show each condition is needed: the poll that must not happen can happen, and what it breaks. */
module Limits {
  import opened BufferLinks
  import opened Chain
  import opened FastPath
  import opened Reboots
  import opened Reconcile
  import opened ReorgLaws
  import opened Restarting
  import opened Sorting
  import opened Stream
  import opened Track
  import opened TrackLaws
  import opened WindowLaws
  import T = TrackRuns

  // ---- A head below the window --------------------------------------------------------

  /** Two safe polls, and then another block 1, now below everything the window holds. */
  function BelowRun(depth: nat, head: BlockRef): seq<T.TrackPoll> {
    BreakingRun(depth)[..2] + [T.TrackPoll(Served(head), EVERY_BLOCK, 0)]
  }

  lemma BelowNotAllowed(t: Tracker, e: nat, depth: nat, head: BlockRef)
    requires Buffered(t, 2, 1, e, FirstBlocks(depth + 3)) && t.window.tip == depth + 2 && head.number == 1
    ensures TipKnown(t.window) && !PollAllowed(t, FirstBlocks(depth + 3), Served(head), EVERY_BLOCK, 0)
  {
    hide Rows, Graft, RecordAll;
    var w, live := t.window, FirstBlocks(depth + 3);
    assert 0 !in w.known && 1 !in w.known && !HasAnyBelow(w.known, 1) && !HasAnyBelow(w.known, 2);
    assert WalkBack(w, EVERY_BLOCK, 0, [head]) == Stopped(0, true, [head], 0);
    assert OnHead(w, EVERY_BLOCK, 0, head).outcome.Reconciled?;
    assert 1 in live.Keys && 1 !in w.known.Keys;
  }

  /** For every depth and confirmation depth there is a run whose first two polls are safe and whose third, a
      head below the window, leaves the tracker unsound. */
  lemma BelowWindowBreaks(maxDepth: nat, confirmDepth: nat, head: BlockRef)
    requires head.number == 1
    ensures var start, polls := Start(maxDepth, confirmDepth), BelowRun(Fresh(maxDepth).depth, head);
            && TipKnown(start.window) && T.SafeRun(start, map[], polls[..2])
            && !T.SafeRun(start, map[], polls) && !T.SoundThroughout(start, map[], map[], polls)
  {
    hide PollOnce, Buffered, PollAllowed, Replay, T.Run, T.SoundThroughout;
    var depth := Fresh(maxDepth).depth;
    var start, polls := Start(maxDepth, confirmDepth), BelowRun(depth, head);
    var e := PrunedAfterTwo(maxDepth, confirmDepth);
    assert polls[..2] == BreakingRun(depth)[..2] && polls[..|polls| - 1] == polls[..2];
    BelowNotAllowed(T.Run(start, polls[..2]).tracker, e, depth, head);
    T.FreshConservationIff(maxDepth, confirmDepth, polls);
  }

  // ---- A buffer with two blocks of one height -----------------------------------------

  /** A second chain, no block of which is the first chain's. */
  function Other(n: nat): BlockRef {
    BlockRef(n, (n + 1) % HASH_LIMIT, n % HASH_LIMIT)
  }

  const EVERY_OTHER: Reader := (k: nat, n: nat) => Served(Other(n))

  function OtherBlocks(n: nat): Table {
    map i | 1 <= i < n :: Other(i)
  }

  lemma OtherLinked(n: nat)
    requires n > 0
    ensures Column(OtherBlocks(n), 1, n) && HashLinked(OtherBlocks(n))
  {
  }

  /** Two safe polls that leave block 1 buffered below the window; another block 1, which does not revert it;
      and a head far enough above to confirm height 1. */
  function RepeatingRun(depth: nat): seq<T.TrackPoll> {
    BreakingRun(depth)[..2] + [T.TrackPoll(Served(Other(1)), EVERY_OTHER, 0)]
  }

  function ConfirmingPoll(confirmDepth: nat): T.TrackPoll {
    T.TrackPoll(Served(Other(confirmDepth + 1)), EVERY_OTHER, 0)
  }

  lemma SecondBlockOne(t: Tracker, depth: nat)
    requires Buffered(t, 2, 1, 1, FirstBlocks(depth + 3)) && t.window.tip == depth + 2 && t.window.depth == depth > 0
    requires TipKnown(t.window)
    ensures var out, w' := OnHead(t.window, EVERY_OTHER, 0, Other(1)).outcome,
        OnHead(t.window, EVERY_OTHER, 0, Other(1)).window;
            && out == Reconciled([Other(1)], Rows(t.window.known, 1, depth + 3))
            && Shows(w', 1) && w'.tip == 1 && w'.known == map[1 := Other(1)]
  {
    hide Rows, Graft, RecordAll;
    var w, head := t.window, Other(1);
    assert 0 !in w.known && 1 !in w.known && !HasAnyBelow(w.known, 1);
    assert WalkBack(w, EVERY_OTHER, 0, [head]) == Stopped(0, true, [head], 0);
    OnHeadShape(w, 2, EVERY_OTHER, 0, head);
    GraftedShows(w, 2, head, [head]);
    GraftOne(w.known, head);
    assert Below(w.known, 1) == map[];
  }

  lemma OneDropped(t: Tracker, depth: nat)
    requires Buffered(t, 2, 1, 1, FirstBlocks(depth + 3)) && t.window.tip == depth + 2
    ensures DropReverted(t.pending + [Other(1)], Rows(t.window.known, 1, depth + 3)) ==
        Dropped([Honestly(1), Other(1)], [])
  {
    hide Rows, DropReverted;
    var live, end := FirstBlocks(depth + 3), depth + 3;
    RowsFromFloor(t.window.known, 2, 1, end);
    RowsAgree(t.window.known, live, 2, end);
    DropBuffered(live, 1, 1, 2, end, end, [Other(1)]);
    EmptyRows(live, end, end);
    EmptyRows(live, 1, 1);
    RowsStep(live, 1, 1);
    assert [] + [Honestly(1)] + ([] + [Other(1)]) == [Honestly(1), Other(1)];
  }

  lemma KeepsBoth(t: Tracker, depth: nat)
    requires Buffered(t, 2, 1, 1, FirstBlocks(depth + 3)) && t.window.tip == depth + 2 && t.window.depth == depth > 0
    requires TipKnown(t.window) && t.confirmDepth > 0
    ensures var s := PollOnce(t, Served(Other(1)), EVERY_OTHER, 0).tracker;
            && s.pending == [Honestly(1), Other(1)] && s.confirmDepth == t.confirmDepth
            && Shows(s.window, 1) && s.window.tip == 1 && s.window.known == map[1 := Other(1)]
  {
    hide Rows, OnHead, DropReverted, Sort, PutBlocks;
    SecondBlockOne(t, depth);
    OneDropped(t, depth);
    var both := [Honestly(1), Other(1)];
    assert both[..1] == [Honestly(1)] && [Honestly(1)][..0] == [];
    assert Above([Honestly(1)], 0) == [Honestly(1)];
    assert Above(both, 0) == both;
  }

  lemma {:induction false} UpToLow(q: seq<BlockRef>, path: seq<BlockRef>, threshold: nat)
    requires forall b :: b in path ==> b.number > threshold
    ensures UpTo(q + path, threshold) == UpTo(q, threshold)
    decreases |path|
  {
    hide UpTo;
    if path == [] {
      assert q + path == q;
    } else {
      var p := path[..|path| - 1];
      assert Last(path) in path && forall b :: b in p ==> b in path;
      UpToLow(q, p, threshold);
      SplitSnoc(q + p, Last(path), threshold);
      assert q + path == q + p + [Last(path)];
    }
  }

  lemma UpToBoth()
    ensures UpTo([Honestly(1), Other(1)], 1) == [Honestly(1), Other(1)]
  {
    assert [Honestly(1), Other(1)][..1] == [Honestly(1)] && [Honestly(1)][..0] == [];
    assert UpTo([Honestly(1)], 1) == [Honestly(1)];
  }

  lemma SettleBoth(t: Tracker, window: Window, path: seq<BlockRef>)
    requires t.pending == [Honestly(1), Other(1)] && t.confirmDepth > 0 && forall b :: b in path ==> b.number > 1
    ensures Settle(t, Other(t.confirmDepth + 1), window, Reconciled(path, [])).1 == Polled([], [Honestly(1), Other(1)])
  {
    hide UpTo, Above, Sort, PutBlocks;
    UpToBoth();
    UpToLow(t.pending, path, 1);
    SortKeepsOrdered(NumberLeq, t.pending);
  }

  lemma EmitsBoth(t: Tracker)
    requires Shows(t.window, 1) && t.window.tip == 1 && t.window.known == map[1 := Other(1)]
    requires t.pending == [Honestly(1), Other(1)] && t.confirmDepth > 0
    ensures TipKnown(t.window)
    ensures PollOnce(t, Served(Other(t.confirmDepth + 1)), EVERY_OTHER, 0).result == Polled([], [Honestly(1), Other(1)])
  {
    hide Rows, OnHead, Settle;
    var head, anc := Other(t.confirmDepth + 1), OtherBlocks(t.confirmDepth + 2);
    OtherLinked(t.confirmDepth + 2);
    assert SameHashAt(t.window.known, anc, 1);
    var c := ServedStep(t.window, 1, EVERY_OTHER, 0, head, anc, 1, 1);
    var path := Rows(anc, 2, t.confirmDepth + 2);
    EmptyRows(t.window.known, 2, 2);
    RowsAtLeast(anc, 2, t.confirmDepth + 2);
    SettleBoth(t, OnHead(t.window, EVERY_OTHER, 0, head).window, path);
  }

  lemma RowsAtLeast(m: Table, a: nat, b: nat)
    requires forall n: nat :: n in m ==> m[n].number == n
    ensures forall x :: x in Rows(m, a, b) ==> x.number >= a
  {
    forall x
      ensures x in Rows(m, a, b) ==> x.number >= a
    {
      T.RowsMember(m, a, b, x);
    }
  }

  /** For every confirmation depth beyond the window's depth plus one, one batch holds two blocks 1. */
  lemma RepeatedBatch(maxDepth: nat, confirmDepth: nat)
    requires confirmDepth > Fresh(maxDepth).depth + 1
    ensures var start, polls, p := Start(maxDepth, confirmDepth), RepeatingRun(Fresh(maxDepth).depth),
        ConfirmingPoll(confirmDepth);
            && TipKnown(start.window)
            && PollOnce(T.Run(start, polls).tracker, p.reply, p.reader, p.clock).result ==
               Polled([], [Honestly(1), Other(1)])
  {
    hide PollOnce, Buffered, T.Run, T.SafeRun, Replay, Upstream, Downstream, Shows;
    var start, depth := Start(maxDepth, confirmDepth), Fresh(maxDepth).depth;
    var e := PrunedAfterTwo(maxDepth, confirmDepth);
    var before := BreakingRun(depth)[..2];
    KeepsBoth(T.Run(start, before).tracker, depth);
    T.RunSnoc(start, before, T.TrackPoll(Served(Other(1)), EVERY_OTHER, 0));
    EmitsBoth(T.Run(start, RepeatingRun(depth)).tracker);
  }

  // ---- A second block 0 ---------------------------------------------------------------

  lemma SecondNotAllowed(t: Tracker, e: nat, b: BlockRef, head: BlockRef, rd: Reader)
    requires Buffered(t, 0, 0, e, map[0 := b]) && b.number == head.number == 0 && b.hash != head.hash
    ensures TipKnown(t.window) && !PollAllowed(t, map[0 := b], Served(head), rd, 0)
  {
    hide Rows, Graft, RecordAll;
    assert t.window.tip in map[0 := b];
    assert t.window.known[0] == b;
    assert WalkBack(t.window, rd, 0, [head]) == Stopped(0, false, [head], 0);
  }

  /** For every depth and confirmation depth, every two different blocks 0, and every reader. */
  lemma SecondGenesisBreaks(maxDepth: nat, confirmDepth: nat, b: BlockRef, head: BlockRef, rd: Reader)
    requires b.number == head.number == 0 && b.hash != head.hash
    ensures var start, polls := Start(maxDepth, confirmDepth),
        [T.TrackPoll(Served(b), rd, 0), T.TrackPoll(Served(head), rd, 0)];
            && TipKnown(start.window) && T.SafeRun(start, map[], polls[..1])
            && !T.SafeRun(start, map[], polls) && !T.SoundThroughout(start, map[], map[], polls)
  {
    hide PollOnce, Buffered, PollAllowed, Replay, T.Run, T.SoundThroughout, Upstream;
    var start := Start(maxDepth, confirmDepth);
    var p0, p1 := T.TrackPoll(Served(b), rd, 0), T.TrackPoll(Served(head), rd, 0);
    var polls := [p0, p1];
    T.RunEmpty(start, map[]);
    UnseededAllows(start, p0);
    SeedInside(start, rd, 0, b);
    T.SafeSnoc(start, map[], [], p0);
    assert [] + [p0] == polls[..1] == polls[..|polls| - 1];
    SecondNotAllowed(T.Run(start, polls[..1]).tracker, Max(0, Threshold(0, confirmDepth) + 1), b, head, rd);
    T.FreshConservationIff(maxDepth, confirmDepth, polls);
  }

  // ---- A stale row --------------------------------------------------------------------

  /** With no confirmation depth everything live is with the consumer; a reconciling poll then reports exactly
      what the reconciler does, and stores the new path. */
  lemma PromptPoll(t: Tracker, lo: nat, first: nat, live: Table, rd: Reader, k: nat, head: BlockRef)
    requires Buffered(t, lo, first, t.window.tip + 1, live) && t.confirmDepth == 0 && head.number > 0
    requires TipKnown(t.window) && !Duplicate(t.window, head) && OnHead(t.window, rd, k, head).outcome.Reconciled?
    requires OnHead(t.window, rd, k, head).outcome.canonical == [head] && head.number > lo
    ensures var s, live' := PollOnce(t, Served(head), rd, k), Graft(live, [head]);
            && PollAllowed(t, live, Served(head), rd, k)
            && s.result == Polled(Rows(live, head.number, t.window.tip + 1), [head])
            && s.tracker.rows == t.rows[head.number := head] && s.tracker.cursor == Some(head)
            && s.tracker.confirmDepth == 0 && s.tracker.window.depth == t.window.depth
               && s.tracker.window.tip == head.number
            && Replay(live, Upstream(t, Served(head), rd, k)) == Some(live')
            && Buffered(s.tracker, NewFloor(t.window, lo, [head]), first, head.number + 1, live')
  {
    hide Rows, Graft, Settle, Replay, Events, WalkBack, Advance, RecordAll;
    var w, e := t.window, t.window.tip + 1;
    OnHeadShape(w, lo, rd, k, head);
    assert lo in w.known && HasAnyBelow(w.known, head.number + 1);
    ReconciledInside(t, lo, first, e, live, rd, k, head);
    SettleStep(t, lo, first, e, live, head, [head]);
    PutOne(t.rows, head);
    GraftRows(live, [head]);
  }

  lemma PutOne(m: Table, b: BlockRef)
    ensures PutBlocks(m, [b]) == m[b.number := b]
  {
    assert [b][..0] == [];
  }

  const B1: BlockRef := BlockRef(1, 1, 0)
  const B2: BlockRef := BlockRef(2, 2, 1)
  const B3: BlockRef := BlockRef(3, 3, 2)
  const OTHER_B2: BlockRef := BlockRef(2, 12, 1)
  const OTHER_B3: BlockRef := BlockRef(3, 13, 12)

  function AskFor(head: BlockRef): T.TrackPoll {
    T.TrackPoll(Served(head), EVERY_BLOCK, 0)
  }

  /** Three blocks, and then another second one: two blocks leave the chain and one arrives. */
  const STALE_RUN: seq<T.TrackPoll> := [AskFor(B1), AskFor(B2), AskFor(B3), AskFor(OTHER_B2)]

  /** The head extends the known tip, or replaces it and everything above its parent. */
  lemma DirectHead(w: Window, rd: Reader, k: nat, head: BlockRef)
    requires TipKnown(w) && w.seeded && head.number > 0 && !Duplicate(w, head) && head.number <= w.tip + 1
    requires head.number - 1 in w.known && w.known[head.number - 1].hash == head.parent
    ensures OnHead(w, rd, k, head).outcome == Reconciled([head], Rows(w.known, head.number, w.tip + 1))
  {
    hide RecordAll;
    if head.number > w.tip {
      assert Advance(w, rd, k, head, []) == Extends([] + [head], k);
      assert [] + [head] == [head];
      assert Rows(w.known, head.number, w.tip + 1) == [];
    } else {
      assert WalkBack(w, rd, k, [head]) == Stopped(head.number - 1, true, [head], k);
    }
  }

  /** One poll of the run: from a tracker whose live chain is m, with everything emitted. */
  lemma NextPrompt(start: Tracker, polls: seq<T.TrackPoll>, m: Table, head: BlockRef, depth: nat)
    requires TipKnown(start.window) && T.SafeRun(start, map[], polls) && depth >= 2
    requires var r := T.Run(start, polls);
             && Replay(map[], r.up) == Some(m) && r.tracker.window.depth == depth && r.tracker.confirmDepth == 0
             && Buffered(r.tracker, 1, 1, r.tracker.window.tip + 1, m) && r.tracker.window.tip <= 3
             && 1 < head.number <= 3 && head.number - 1 in m && m[head.number - 1].hash == head.parent
             && (head.number in m ==> m[head.number].hash != head.hash)
    ensures var r, r', m' := T.Run(start, polls), T.Run(start, polls + [AskFor(head)]), Graft(m, [head]);
            && T.SafeRun(start, map[], polls + [AskFor(head)])
            && Replay(map[], r'.up) == Some(m') && r'.tracker.window.depth == depth && r'.tracker.confirmDepth == 0
            && r'.tracker.window.tip == head.number && Buffered(r'.tracker, 1, 1, head.number + 1, m')
            && r'.tracker.rows == r.tracker.rows[head.number := head] && r'.tracker.cursor == Some(head)
            && r'.down == r.down + Downstream(Polled(Rows(m, head.number, r.tracker.window.tip + 1), [head]))
  {
    hide Rows, Graft, PollOnce, Replay, OnHead, Upstream, T.Run, T.SafeRun, PollAllowed, Downstream;
    var t := T.Run(start, polls).tracker;
    assert t.window.known == m && head.number <= t.window.tip + 1;
    DirectHead(t.window, EVERY_BLOCK, 0, head);
    PromptPoll(t, 1, 1, m, EVERY_BLOCK, 0, head);
    T.SafeSnoc(start, map[], polls, AskFor(head));
    T.RunSnoc(start, polls, AskFor(head));
  }

  lemma GraftOne(m: Table, b: BlockRef)
    ensures Graft(m, [b]) == Below(m, b.number)[b.number := b]
  {
    PutOne(Below(m, b.number), b);
  }

  lemma FirstPrompt(start: Tracker, depth: nat)
    requires start == Tracker(Window(depth, map[], 0, false), [], 0, map[], None)
    ensures var r := T.Run(start, [AskFor(B1)]);
            && T.SafeRun(start, map[], [AskFor(B1)])
            && Replay(map[], r.up) == Some(map[1 := B1]) && r.tracker.window.depth == depth
               && r.tracker.confirmDepth == 0
            && Buffered(r.tracker, 1, 1, 2, map[1 := B1]) && r.tracker.window.tip == 1 && r.tracker.rows == map[1 := B1]
  {
    hide PollOnce, Replay, Upstream, Downstream, T.Run, T.SafeRun, PollAllowed, Buffered;
    SeedInside(start, EVERY_BLOCK, 0, B1);
    SeedRows(start, EVERY_BLOCK, 0, B1);
    T.RunEmpty(start, map[]);
    UnseededAllows(start, AskFor(B1));
    T.SafeSnoc(start, map[], [], AskFor(B1));
    assert [] + [AskFor(B1)] == [AskFor(B1)];
    BufferedTip(T.Run(start, [AskFor(B1)]).tracker, 1, 1, 2, map[1 := B1], 1);
  }

  /** Where the run ends: block 3 is no longer live, its row is still there, and the cursor is below it. */
  lemma StaleState(maxDepth: nat)
    requires Fresh(maxDepth).depth >= 2
    ensures var start, m: Table := Start(maxDepth, 0), map[1 := B1, 2 := OTHER_B2];
            var r := T.Run(start, STALE_RUN);
            && TipKnown(start.window) && T.SafeRun(start, map[], STALE_RUN)
            && Replay(map[], r.up) == Some(m) && Reverted(B3) in r.down
            && r.tracker.rows == map[1 := B1, 2 := OTHER_B2, 3 := B3] && r.tracker.cursor == Some(OTHER_B2)
            && r.tracker.window.depth == Fresh(maxDepth).depth && r.tracker.confirmDepth == 0
            && Buffered(r.tracker, 1, 1, 3, m) && r.tracker.window.tip == 2
  {
    hide Rows, PollOnce, Replay, Upstream, Downstream, T.Run, T.SafeRun, Buffered, Graft;
    var start, depth := Start(maxDepth, 0), Fresh(maxDepth).depth;
    FirstPrompt(start, depth);
    NextPrompt(start, [AskFor(B1)], map[1 := B1], B2, depth);
    GraftOne(map[1 := B1], B2);
    assert [AskFor(B1)] + [AskFor(B2)] == [AskFor(B1), AskFor(B2)];
    assert Graft(map[1 := B1], [B2]) == map[1 := B1, 2 := B2];
    NextPrompt(start, [AskFor(B1), AskFor(B2)], map[1 := B1, 2 := B2], B3, depth);
    GraftOne(map[1 := B1, 2 := B2], B3);
    var before, three: Table := [AskFor(B1), AskFor(B2), AskFor(B3)], map[1 := B1, 2 := B2, 3 := B3];
    assert [AskFor(B1), AskFor(B2)] + [AskFor(B3)] == before;
    assert Graft(map[1 := B1, 2 := B2], [B3]) == three;
    NextPrompt(start, before, three, OTHER_B2, depth);
    GraftOne(three, OTHER_B2);
    assert before + [AskFor(OTHER_B2)] == STALE_RUN;
    assert Graft(three, [OTHER_B2]) == map[1 := B1, 2 := OTHER_B2];
    TwoReverted(three, T.Run(start, before).down);
  }

  lemma TwoReverted(m: Table, log: seq<Event>)
    requires m == map[1 := B1, 2 := B2, 3 := B3]
    ensures Reverted(B3) in log + Downstream(Polled(Rows(m, 2, 4), [OTHER_B2]))
  {
    RowsStep(m, 2, 3);
    RevertsSnoc(Rows(m, 2, 3), B3);
    var down := Reverts(Rows(m, 2, 4)) + Announces([OTHER_B2]);
    assert Reverts(Rows(m, 2, 4))[|Reverts(Rows(m, 2, 3))|] == Reverted(B3);
    assert down[|Reverts(Rows(m, 2, 3))|] == Reverted(B3);
    assert (log + down)[|log| + |Reverts(Rows(m, 2, 3))|] == Reverted(B3);
  }

  lemma RestartedStale(t: Tracker, maxDepth: nat)
    requires Fresh(maxDepth).depth >= 2 && t.confirmDepth == 0
    requires t.rows == map[1 := B1, 2 := OTHER_B2, 3 := B3] && t.cursor == Some(OTHER_B2)
    ensures var r := Restart(t, maxDepth);
            && TipKnown(r.window) && PollOnce(r, Served(OTHER_B3), EVERY_BLOCK, 0).result == Polled([B3], [OTHER_B3])
  {
    hide Rows, Restart, OnHead, LoadKnown;
    var r := Restart(t, maxDepth);
    assert 3 in t.rows.Keys && forall k :: k in t.rows.Keys ==> k <= 3;
    RestartWindow(t, maxDepth);
    assert r.window.tip == 3 && r.window.known[2] == OTHER_B2 && r.window.known[3] == B3;
    DirectHead(r.window, EVERY_BLOCK, 0, OTHER_B3);
    SettleStale(r, OnHead(r.window, EVERY_BLOCK, 0, OTHER_B3).window);
    RowsStep(r.window.known, 3, 3);
    EmptyRows(r.window.known, 3, 3);
  }

  lemma SettleStale(r: Tracker, window: Window)
    requires r.pending == [] && r.confirmDepth == 0
    ensures Settle(r, OTHER_B3, window, Reconciled([OTHER_B3], [B3])).1 == Polled([B3], [OTHER_B3])
  {
    hide Sort;
    assert [B3][..0] == [] && [OTHER_B3][..0] == [];
    assert [] + [OTHER_B3] == [OTHER_B3];
    assert DropReverted([OTHER_B3], []) == Dropped([OTHER_B3], []);
    assert !Holds([OTHER_B3], B3);
    assert DropReverted([OTHER_B3], [B3]) == Dropped([OTHER_B3], [B3]);
    assert UpTo([], 3) == [];
    assert UpTo([OTHER_B3], 3) == [OTHER_B3];
    SortKeepsOrdered(NumberLeq, [OTHER_B3]);
  }

  /** A stale row makes a restart visible: after this safe run, at every window depth of two or more, the next
      poll of the running tracker reverts nothing, and that of a restarted one reports a second time the
      reversal of a block whose reversal the consumer has already been told. */
  lemma StaleRowRestart(maxDepth: nat)
    requires Fresh(maxDepth).depth >= 2
    ensures var r := T.Run(Start(maxDepth, 0), STALE_RUN);
            && T.SafeRun(Start(maxDepth, 0), map[], STALE_RUN) && Reverted(B3) in r.down
            && !ReloadsWell(r.tracker, maxDepth, map[1 := B1, 2 := OTHER_B2])
            && TipKnown(Restart(r.tracker, maxDepth).window)
            && PollOnce(r.tracker, Served(OTHER_B3), EVERY_BLOCK, 0).result == Polled([], [OTHER_B3])
            && PollOnce(Restart(r.tracker, maxDepth), Served(OTHER_B3), EVERY_BLOCK, 0).result ==
               Polled([B3], [OTHER_B3])
  {
    hide Rows, PollOnce, Replay, T.Run, T.SafeRun, Graft, OnHead, Restart;
    StaleState(maxDepth);
    var t, m: Table := T.Run(Start(maxDepth, 0), STALE_RUN).tracker, map[1 := B1, 2 := OTHER_B2];
    assert t.window.known == m;
    DirectHead(t.window, EVERY_BLOCK, 0, OTHER_B3);
    PromptPoll(t, 1, 1, m, EVERY_BLOCK, 0, OTHER_B3);
    EmptyRows(m, 3, 3);
    assert 3 in t.rows.Keys && 3 !in m.Keys;
    RestartedStale(t, maxDepth);
  }

  // ---- The first block of all, and a crash --------------------------------------------

  /** Until a cursor has been saved a restart reloads nothing. From a fresh start without a confirmation depth, a
      crash after the first block was stored and announced has the same head emitted again, without a reversal. */
  lemma FirstCrashRepeats(maxDepth: nat, head: BlockRef, rd: Reader)
    ensures var start := Start(maxDepth, 0);
            && TipKnown(start.window)
            && var result := PollOnce(start, Served(head), rd, 0).result;
            && result == Polled([], [head]) && Written(result, 1) == [head]
            && var r := Restart(Interrupted(start, result, 1), maxDepth);
            && TipKnown(r.window) && PollOnce(r, Served(head), rd, 0).result == Polled([], [head])
  {
    hide Rows, Settle, Restart, OnHead;
    var start := Start(maxDepth, 0);
    SeedEmits(start, rd, head);
    assert [head][..1] == [head];
    var t := Interrupted(start, Polled([], [head]), 1);
    RestartEmpty(t, maxDepth, map[]);
    SeedEmits(Restart(t, maxDepth), rd, head);
  }

  lemma SeedEmits(t: Tracker, rd: Reader, head: BlockRef)
    requires !t.window.seeded && TipKnown(t.window) && t.pending == [] && t.confirmDepth == 0
    ensures PollOnce(t, Served(head), rd, 0).result == Polled([], [head])
  {
    hide Rows, Settle;
    SeedSettles(t, head, OnHead(t.window, rd, 0, head).window, head.number);
    SingleRow(head);
  }

  // ---- An unlinked pair among the rows ------------------------------------------------

  /** Two safe polls, and then a head as high as the tip, of the other chain: every block of the window is
      replaced, and the block below it stays. */
  function UnlinkedRun(depth: nat): seq<T.TrackPoll> {
    BreakingRun(depth)[..2] + [T.TrackPoll(Served(Other(depth + 2)), EVERY_OTHER, 0)]
  }

  lemma DifferentHashes(n: nat)
    ensures Honestly(n).hash != Other(n).hash && Other(n + 1).parent != Honestly(n).hash
  {
  }

  /** One step of the walk down the other chain, which meets nothing known above height 1. */
  lemma OtherStep(w: Window, k: nat, path: seq<BlockRef>, c: nat)
    requires Column(w.known, 2, w.tip + 1) && 2 <= c <= w.tip && path != [] && path[0] == Other(c)
    requires forall n: nat :: n in w.known ==> w.known[n] == Honestly(n)
    ensures c == 2 ==> WalkBack(w, EVERY_OTHER, k, path) == Stopped(1, true, path, k)
    ensures c > 2 ==>
              WalkBack(w, EVERY_OTHER, k, path) == WalkBack(w, EVERY_OTHER, k + 1, [Other(c - 1)] + path)
  {
    DifferentHashes(c - 1);
    assert c == 2 ==> !HasAnyBelow(w.known, 2);
  }

  lemma {:induction false} OtherWalk(w: Window, k: nat, c: nat, top: nat)
    requires Column(w.known, 2, top + 1) && w.tip == top && 2 <= c <= top
    requires forall n: nat :: n in w.known ==> w.known[n] == Honestly(n)
    ensures var anc := OtherBlocks(top + 1);
            && WalkBack(w, EVERY_OTHER, k, Rows(anc, c, top + 1)).Stopped?
            && WalkBack(w, EVERY_OTHER, k, Rows(anc, c, top + 1)).path == Rows(anc, 2, top + 1)
    decreases c
  {
    hide Rows, WalkBack;
    var anc := OtherBlocks(top + 1);
    OtherLinked(top + 1);
    RowsFront(anc, 1, c, top + 1);
    OtherStep(w, k, Rows(anc, c, top + 1), c);
    if c > 2 {
      RowsFront(anc, 1, c - 1, top + 1);
      OtherWalk(w, k + 1, c - 1, top);
    }
  }

  lemma ReplacesWindow(t: Tracker, e: nat, depth: nat)
    requires Buffered(t, 2, 1, e, FirstBlocks(depth + 3)) && t.window.tip == depth + 2 && TipKnown(t.window)
    ensures var head, live, path := Other(depth + 2), FirstBlocks(depth + 3),
        Rows(OtherBlocks(depth + 3), 2, depth + 3);
            && !Duplicate(t.window, head) && PollAllowed(t, live, Served(head), EVERY_OTHER, 0)
            && Allowed(t.window, live, EVERY_OTHER, 0, head)
            && OnHead(t.window, EVERY_OTHER, 0, head).outcome.Reconciled?
            && OnHead(t.window, EVERY_OTHER, 0, head).outcome.canonical == path
            && path != [] && path[0] == Other(2) && Contiguous(path) && |path| == depth + 1
  {
    hide Rows, Graft, RecordAll;
    var w, head, anc := t.window, Other(depth + 2), OtherBlocks(depth + 3);
    DifferentHashes(depth + 2);
    OtherLinked(depth + 3);
    RowsAt(anc, 1, depth + 2, depth + 3, depth + 3);
    assert Rows(anc, depth + 2, depth + 3) == [head];
    OtherWalk(w, 0, depth + 2, depth + 2);
    OnHeadShape(w, 2, EVERY_OTHER, 0, head);
    RowsAt(anc, 1, 2, depth + 3, depth + 3);
    assert 2 in w.known && HasAnyBelow(w.known, head.number + 1);
  }

  lemma {:induction false} PutBlocksKeys(m: Table, bs: seq<BlockRef>, bound: nat)
    requires (forall n :: n in m ==> n <= bound) && forall b :: b in bs ==> b.number <= bound
    ensures forall n :: n in PutBlocks(m, bs) ==> n <= bound
    decreases |bs|
  {
    if bs != [] {
      var q := bs[..|bs| - 1];
      assert Last(bs) in bs && forall b :: b in q ==> b in bs;
      PutBlocksKeys(m, q, bound);
    }
  }

  lemma PollRowsBelow(t: Tracker, reply: Reply, rd: Reader, k: nat, bound: nat)
    requires TipKnown(t.window) && (reply.Served? ==> reply.block.number <= bound + t.confirmDepth)
    requires forall n :: n in t.rows ==> n <= bound
    ensures var s := PollOnce(t, reply, rd, k).tracker;
            s.confirmDepth == t.confirmDepth && forall n :: n in s.rows ==> n <= bound
  {
    hide OnHead, DropReverted, UpTo, Above, Sort, PutBlocks;
    var s := PollOnce(t, reply, rd, k);
    if s.result.Polled? {
      T.EmittedIsConfirmed(t, reply.block, rd, k);
      PutBlocksKeys(t.rows, s.result.emitted, bound);
    }
  }

  /** No row is higher than the highest polled head allows. */
  lemma {:induction false} RunRowsBelow(start: Tracker, polls: seq<T.TrackPoll>, bound: nat)
    requires TipKnown(start.window) && forall n :: n in start.rows ==> n <= bound
    requires forall i :: 0 <= i < |polls| && polls[i].reply.Served? ==>
        polls[i].reply.block.number <= bound + start.confirmDepth
    ensures var t := T.Run(start, polls).tracker;
            t.confirmDepth == start.confirmDepth && forall n :: n in t.rows ==> n <= bound
    decreases |polls|
  {
    hide PollOnce, Upstream, Downstream;
    if polls != [] {
      var before, p := polls[..|polls| - 1], polls[|polls| - 1];
      RunRowsBelow(start, before, bound);
      PollRowsBelow(T.Run(start, before).tracker, p.reply, p.reader, p.clock, bound);
    }
  }

  /** Blocks 1 to depth + 2 are live, of which the second does not name the first; rows end at top. */
  ghost predicate PairUnlinked(t: Tracker, live: Table, lo: nat, depth: nat, top: nat) {
    && Column(live, 1, depth + 3) && live[1] == Honestly(1) && live[2] == Other(2)
    && Buffered(t, lo, 1, top + 1, live) && forall n :: n in t.rows ==> n <= top
  }

  lemma UnlinkedState(maxDepth: nat, confirmDepth: nat, top: nat) returns (lo: nat, live: Table)
    requires 1 <= confirmDepth <= Fresh(maxDepth).depth && top + confirmDepth == Fresh(maxDepth).depth + 2
    ensures TipKnown(Start(maxDepth, confirmDepth).window)
    ensures T.SafeRun(Start(maxDepth, confirmDepth), map[], UnlinkedRun(Fresh(maxDepth).depth))
    ensures Replay(map[], T.Run(Start(maxDepth, confirmDepth), UnlinkedRun(Fresh(maxDepth).depth)).up) == Some(live)
    ensures PairUnlinked(T.Run(Start(maxDepth, confirmDepth), UnlinkedRun(Fresh(maxDepth).depth)).tracker, live, lo,
        Fresh(maxDepth).depth, top)
  {
    hide PollOnce, Buffered, T.Run, T.SafeRun, Replay, Upstream, Downstream, Rows, Graft, PollAllowed, OnHead,
        Duplicate, Allowed;
    var start, depth := Start(maxDepth, confirmDepth), Fresh(maxDepth).depth;
    var before, p := BreakingRun(depth)[..2], T.TrackPoll(Served(Other(depth + 2)), EVERY_OTHER, 0);
    var e := PrunedAfterTwo(maxDepth, confirmDepth);
    var t, first := T.Run(start, before).tracker, FirstBlocks(depth + 3);
    RunTipKnown(start, before);
    ReplacesWindow(t, e, depth);
    BufferedAbove(t, 2, 1, e, first);
    ReconciledInside(t, 2, 1, e, first, EVERY_OTHER, 0, Other(depth + 2));
    var path := OnHead(t.window, EVERY_OTHER, 0, Other(depth + 2)).outcome.canonical;
    T.SafeSnoc(start, map[], before, p);
    RunRowsBelow(start, UnlinkedRun(depth), top);
    GraftedOther(depth, path);
    lo, live := NewFloor(t.window, 2, path), Graft(first, path);
  }

  lemma RunTipKnown(start: Tracker, polls: seq<T.TrackPoll>)
    requires TipKnown(start.window)
    ensures TipKnown(T.Run(start, polls).tracker.window)
  {
  }

  lemma BufferedAbove(t: Tracker, lo: nat, first: nat, e: nat, live: Table)
    requires Buffered(t, lo, first, e, live)
    ensures e > Threshold(t.window.tip, t.confirmDepth)
  {
  }

  lemma GraftedOther(depth: nat, path: seq<BlockRef>)
    requires path != [] && path[0] == Other(2) && Contiguous(path) && |path| == depth + 1
    ensures var live := Graft(FirstBlocks(depth + 3), path);
            Column(live, 1, depth + 3) && live[1] == Honestly(1) && live[2] == Other(2)
  {
    hide Graft;
    var live := Graft(FirstBlocks(depth + 3), path);
    forall n: nat
      ensures n in live <==> 1 <= n < depth + 3
      ensures n in live ==> live[n].number == n
    {
      GraftAt(FirstBlocks(depth + 3), path, n);
    }
    GraftAt(FirstBlocks(depth + 3), path, 1);
    GraftAt(FirstBlocks(depth + 3), path, 2);
  }

  /** Links are needed too: for every window depth up to the reload span, and every confirmation depth from one
      up to it, a safe run that leaves no stale row but an unlinked pair of rows, so that a restart is unsound. */
  lemma UnlinkedRestart(maxDepth: nat, confirmDepth: nat)
    requires 1 <= confirmDepth <= Fresh(maxDepth).depth <= 256
    ensures var start := Start(maxDepth, confirmDepth);
            var r := T.Run(start, UnlinkedRun(Fresh(maxDepth).depth));
            var m := Replay(map[], r.down);
            && TipKnown(start.window) && T.SafeRun(start, map[], UnlinkedRun(Fresh(maxDepth).depth))
            && m.Some? && r.tracker.cursor.Some? && r.tracker.rows.Keys <= m.value.Keys
            && !ReloadsWell(r.tracker, maxDepth, m.value)
            && !Sound(Restart(r.tracker, maxDepth), m.value, m.value)
  {
    hide Buffered, T.Run, T.SafeRun, Replay, Sound, Archived, Restart, Rows;
    var start, depth := Start(maxDepth, confirmDepth), Fresh(maxDepth).depth;
    var r, top := T.Run(start, UnlinkedRun(depth)), depth + 2 - confirmDepth;
    var lo, live := UnlinkedState(maxDepth, confirmDepth, top);
    SafeRunKept(maxDepth, confirmDepth, UnlinkedRun(depth));
    var m := Replay(map[], r.down).value;
    SeededIfBuffered(r.tracker, lo, 1, top + 1, live);
    var lo', first, e := KeptFacts(r.tracker, live, m);
    BufferedUnique(r.tracker, lo, 1, top + 1, lo', first, e, live);
    UnlinkedRows(r.tracker, maxDepth, live, m, top);
    RestartSoundIff(r.tracker, maxDepth, m, 1, top + 1);
  }

  lemma SeededIfBuffered(t: Tracker, lo: nat, first: nat, e: nat, live: Table)
    requires Buffered(t, lo, first, e, live)
    ensures t.window.seeded
  {
  }

  lemma UnlinkedRows(t: Tracker, maxDepth: nat, live: Table, m: Table, top: nat)
    requires Column(live, 1, Fresh(maxDepth).depth + 3) && live[1] == Honestly(1) && live[2] == Other(2)
    requires m == Below(live, top + 1) && Archive(t, live, 1, top + 1) && CursorRow(t)
    requires 2 <= top <= Fresh(maxDepth).depth + 1 && Fresh(maxDepth).depth <= 256
    requires forall n :: n in t.rows ==> n <= top
    ensures t.cursor.Some? && t.rows.Keys <= m.Keys && !ReloadsWell(t, maxDepth, m)
    ensures Column(m, 1, top + 1) && Stored(t, m, 1)
  {
    assert 1 in live && 1 in t.rows;
    var floor := LoadFloor(Fresh(maxDepth).depth, ReloadFloor(t.cursor.value), TopKey(t.rows.Keys));
    assert floor <= 1;
    assert !LinkedAt(From(m, floor), 1);
  }
}

/** The buffer stays inside the window, and so is a hash chain and emits contiguous batches, on every run exactly
    when the confirmation depth is at most one more than the window's depth. */
module BufferLinks {
  import opened Chain
  import opened Reconcile
  import opened FastPath
  import opened Stream
  import opened Track
  import opened TrackLaws
  import opened WindowLaws
  import Sorting
  import T = TrackRuns

  ghost predicate HashChain(s: seq<BlockRef>) {
    forall i: nat :: Follows(s, i)
  }

  /** Everything buffered is still in the window: the buffer is the top of what the window holds. */
  ghost predicate Inside(t: Tracker) {
    if t.window.seeded then exists lo: nat, e: nat :: Buffered(t, lo, lo, e, t.window.known)
    else t.window.known == map[] && t.window.tip == 0 && t.pending == []
  }

  lemma InsideLinked(t: Tracker)
    requires Inside(t)
    ensures HashChain(t.pending)
  {
    if t.window.seeded {
      var lo: nat, e: nat :| Buffered(t, lo, lo, e, t.window.known);
      RowsFollow(t.window.known, lo, e, t.window.tip + 1);
    }
  }

  lemma RowsFollow(m: Table, lo: nat, a: nat, end: nat)
    requires Column(m, lo, end) && HashLinked(m) && lo <= a <= end
    ensures HashChain(Rows(m, a, end))
  {
    hide Rows;
    RowsAt(m, lo, a, end, end);
    forall i: nat
      ensures Follows(Rows(m, a, end), i)
    {
      assert LinkedAt(m, a + i);
    }
  }

  lemma SwapDrops(t: Tracker, e: nat, head: BlockRef, path: seq<BlockRef>)
    requires Buffered(t, 0, 0, e, t.window.known) && Meets(t.window, 0, head, path) && path[0].number == 0
    ensures var known, end := t.window.known, t.window.tip + 1;
            DropReverted(t.pending + path, Rows(known, 1, end)) ==
            Dropped(Rows(Graft(known, path), 0, head.number + 1), Rows(known, 1, e))
  {
    hide Rows, Graft, AllUnknown, DropReverted, Apart, HashLinked;
    var known, end := t.window.known, t.window.tip + 1;
    PathApart(t.window, 0, 0, known, path, 1);
    DropAll(known, 0, e, 1, 1, end, path);
    EmptyRows(known, 1, 1);
    assert [] + path == path;
    GraftRows(known, path);
  }

  /** The reorganisation that replaces block 0 without reverting it still reverts everything buffered. */
  lemma SwapSettles(t: Tracker, e: nat, head: BlockRef, path: seq<BlockRef>)
    requires Buffered(t, 0, 0, e, t.window.known) && Meets(t.window, 0, head, path) && path[0].number == 0
    ensures var known := t.window.known;
            var out := Reconciled(path, Rows(known, 1, t.window.tip + 1));
            var (t', result), s := Settle(t, head, Grafted(t.window, path), out), Settled(t, e, known, head, path);
            t' == s.0 && result.Polled? && result.emitted == s.1.emitted
  {
    hide Rows, Graft, Grafted, Column, Tracks, Contiguous, AllUnknown, DropReverted, UpTo, Above, Sorting.Sort,
        PutBlocks, Settle;
    var known, live', thr := t.window.known, Graft(t.window.known, path), Threshold(head.number, t.confirmDepth);
    var dropped := Dropped(Rows(live', 0, head.number + 1), Rows(known, 1, e));
    GraftColumn(t.window, 0, 0, known, head, path);
    SwapDrops(t, e, head, path);
    SettleRows(live', 0, 0, head.number, t.confirmDepth);
    SettleOf(t, head, Grafted(t.window, path), Reconciled(path, Rows(known, 1, t.window.tip + 1)), dropped,
             Rows(live', 0, thr + 1), Rows(live', thr + 1, head.number + 1));
  }

  /** Any reconciling poll, allowed or not: what it emits and what it leaves buffered. */
  lemma AnyReconciled(t: Tracker, lo: nat, e: nat, rd: Reader, k: nat, head: BlockRef)
    requires TipKnown(t.window) && Buffered(t, lo, lo, e, t.window.known) && !Duplicate(t.window, head)
    requires OnHead(t.window, rd, k, head).outcome.Reconciled?
    ensures var s, path := PollOnce(t, Served(head), rd, k), OnHead(t.window, rd, k, head).outcome.canonical;
            && path != [] && Meets(t.window, lo, head, path)
            && s.tracker == Settled(t, e, t.window.known, head, path).0
            && s.result.Polled? && s.result.emitted == Settled(t, e, t.window.known, head, path).1.emitted
  {
    hide Rows, Graft, Grafted, Settle, GenesisSwapped, WalkBack, Advance, RecordAll;
    OnHeadShape(t.window, lo, rd, k, head);
    var path := OnHead(t.window, rd, k, head).outcome.canonical;
    if path[0].number == 0 && 0 in t.window.known {
      SwapSettles(t, e, head, path);
    } else {
      SettleStep(t, lo, lo, e, t.window.known, head, path);
    }
  }

  /** Buffered against the whole live chain, and inside the window. */
  lemma Rebased(t: Tracker, lo: nat, first: nat, e: nat, live: Table)
    requires Buffered(t, lo, first, e, live) && lo <= e
    ensures Buffered(t, lo, lo, e, t.window.known)
  {
    hide HashLinked;
    RowsAgree(live, t.window.known, e, t.window.tip + 1);
  }

  /** A poll of any kind keeps the buffer inside the window, and emits a contiguous batch. */
  lemma PollKeepsInside(t: Tracker, reply: Reply, rd: Reader, k: nat)
    requires TipKnown(t.window) && Inside(t) && t.confirmDepth <= t.window.depth + 1
    ensures var s := PollOnce(t, reply, rd, k);
            && s.tracker.confirmDepth == t.confirmDepth && s.tracker.window.depth == t.window.depth
            && Inside(s.tracker) && (s.result.Polled? ==> Contiguous(s.result.emitted))
  {
    hide Rows, Settle, OnHead, Tracks;
    if reply.Served? {
      var head := reply.block;
      if !t.window.seeded {
        SeedKeepsInside(t, rd, k, head);
      } else {
        var lo: nat, e: nat :| Buffered(t, lo, lo, e, t.window.known);
        if OnHead(t.window, rd, k, head).outcome.Failure? {
          FailureKeepsWindow(t.window, rd, k, head);
        } else if Duplicate(t.window, head) {
          DuplicateHead(t.window, rd, k, head);
          KnownBelowTip(t, lo, e, head.number);
          DuplicateStep(t, lo, lo, e, t.window.known, head);
        } else {
          ReconciledKeepsInside(t, lo, e, rd, k, head);
        }
      }
    }
  }

  lemma DuplicateHead(w: Window, rd: Reader, k: nat, head: BlockRef)
    requires w.seeded && TipKnown(w) && Duplicate(w, head)
    ensures OnHead(w, rd, k, head) == Reconcile.Step(Reconciled([], []), w, k)
  {
  }

  lemma KnownBelowTip(t: Tracker, lo: nat, e: nat, n: nat)
    requires Buffered(t, lo, lo, e, t.window.known) && n in t.window.known
    ensures n <= t.window.tip
  {
  }

  lemma SeedKeepsInside(t: Tracker, rd: Reader, k: nat, head: BlockRef)
    requires !t.window.seeded && t.window.known == map[] && t.window.tip == 0 && t.pending == []
    ensures var s := PollOnce(t, Served(head), rd, k);
            && s.tracker.confirmDepth == t.confirmDepth && s.tracker.window.depth == t.window.depth
            && Inside(s.tracker) && (s.result.Polled? ==> Contiguous(s.result.emitted))
  {
    hide Rows, Settle, Tracks;
    var n, thr, live: Table := head.number, Threshold(head.number, t.confirmDepth), map[head.number := head];
    var e := Max(n, thr + 1);
    SeedInside(t, rd, k, head);
    Rebased(PollOnce(t, Served(head), rd, k).tracker, n, n, e, live);
    SeedSettles(t, head, OnHead(t.window, rd, k, head).window, thr);
    T.RowsContiguous(live, n, n, e, n + 1);
  }

  lemma ReconciledKeepsInside(t: Tracker, lo: nat, e: nat, rd: Reader, k: nat, head: BlockRef)
    requires TipKnown(t.window) && Buffered(t, lo, lo, e, t.window.known) && !Duplicate(t.window, head)
    requires OnHead(t.window, rd, k, head).outcome.Reconciled? && t.confirmDepth <= t.window.depth + 1
    ensures var s := PollOnce(t, Served(head), rd, k);
            && s.tracker.confirmDepth == t.confirmDepth && s.tracker.window.depth == t.window.depth
            && Inside(s.tracker) && s.result.Polled? && Contiguous(s.result.emitted)
  {
    hide Rows, Graft, PollOnce, OnHead, Contiguous, HashLinked, AllUnknown;
    AnyReconciled(t, lo, e, rd, k, head);
    var path := OnHead(t.window, rd, k, head).outcome.canonical;
    var known, c, thr := t.window.known, path[0].number, Threshold(head.number, t.confirmDepth);
    SettledBuffered(t, lo, lo, e, known, head, path);
    GraftColumn(t.window, lo, lo, known, head, path);
    T.RowsContiguous(Graft(known, path), Min(lo, c), Min(e, c), thr + 1, head.number + 1);
    Rebased(PollOnce(t, Served(head), rd, k).tracker, NewFloor(t.window, lo, path), Min(lo, c),
            Max(Min(e, c), thr + 1), Graft(known, path));
  }

  lemma SeedInside(t: Tracker, rd: Reader, k: nat, head: BlockRef)
    requires !t.window.seeded && t.window.known == map[] && t.window.tip == 0 && t.pending == []
    ensures var s := PollOnce(t, Served(head), rd, k);
            && s.tracker.confirmDepth == t.confirmDepth && s.tracker.window.depth == t.window.depth
            && Replay(map[], Upstream(t, Served(head), rd, k)) == Some(map[head.number := head])
            && Buffered(s.tracker, head.number, head.number,
               Max(head.number, Threshold(head.number, t.confirmDepth) + 1), map[head.number := head])
  {
    hide Rows, Replay, Events, Settle, Tracks, OnHead;
    FirstStep(t.window, rd, k, head);
    FirstDepth(t.window, rd, k, head);
    SeedSettles(t, head, OnHead(t.window, rd, k, head).window, Threshold(head.number, t.confirmDepth));
  }

  lemma FirstDepth(w: Window, rd: Reader, k: nat, head: BlockRef)
    requires !w.seeded && TipKnown(w)
    ensures OnHead(w, rd, k, head).window.depth == w.depth
  {
  }

  lemma ReconciledInside(t: Tracker, lo: nat, first: nat, e: nat, live: Table, rd: Reader, k: nat, head: BlockRef)
    requires Buffered(t, lo, first, e, live) && !Duplicate(t.window, head)
    requires OnHead(t.window, rd, k, head).outcome.Reconciled? && Allowed(t.window, live, rd, k, head)
    ensures var s, path := PollOnce(t, Served(head), rd, k), OnHead(t.window, rd, k, head).outcome.canonical;
            && path != []
            && s.tracker.confirmDepth == t.confirmDepth && s.tracker.window.depth == t.window.depth
            && Replay(live, Upstream(t, Served(head), rd, k)) == Some(Graft(live, path))
            && Buffered(s.tracker, NewFloor(t.window, lo, path), Min(first, path[0].number),
                        Max(Min(e, path[0].number), Threshold(head.number, t.confirmDepth) + 1), Graft(live, path))
  {
    var w := t.window;
    hide Settle, Rows, Graft, Allowed, GenesisSwapped, Events, Replay;
    AllowedStep(w, lo, first, live, rd, k, head);
    OnHeadShape(w, lo, rd, k, head);
    AllowedGuards(w, lo, first, live, rd, k, head);
    var path := OnHead(w, rd, k, head).outcome.canonical;
    SettleStep(t, lo, first, e, live, head, path);
    SettledBuffered(t, lo, first, e, live, head, path);
  }

  lemma {:induction false} RunKeepsInside(start: Tracker, polls: seq<T.TrackPoll>)
    requires TipKnown(start.window) && Inside(start) && start.confirmDepth <= start.window.depth + 1
    ensures var t := T.Run(start, polls).tracker;
            t.confirmDepth == start.confirmDepth && t.window.depth == start.window.depth && Inside(t)
    decreases |polls|
  {
    hide Inside, PollOnce, Upstream, Downstream;
    if polls != [] {
      var before, p := polls[..|polls| - 1], polls[|polls| - 1];
      RunKeepsInside(start, before);
      PollKeepsInside(T.Run(start, before).tracker, p.reply, p.reader, p.clock);
    }
  }

  // ---- A deeper confirmation depth ----------------------------------------------------

  function Honestly(n: nat): BlockRef {
    BlockRef(n, n % HASH_LIMIT, if n == 0 then 0 else (n - 1) % HASH_LIMIT)
  }

  const EVERY_BLOCK: Reader := (k: nat, n: nat) => Served(Honestly(n))

  /** Another block 2, naming a parent that is not block 1. */
  const SIBLING: BlockRef := BlockRef(2, 3, 0)

  /** Seed at height 1, jump far enough ahead that block 1 is pruned but still buffered, then replace
      everything known. */
  function BreakingRun(depth: nat): seq<T.TrackPoll> {
    [T.TrackPoll(Served(Honestly(1)), EVERY_BLOCK, 0),
     T.TrackPoll(Served(Honestly(depth + 2)), EVERY_BLOCK, 0),
     T.TrackPoll(Served(SIBLING), EVERY_BLOCK, 0)]
  }

  function FirstBlocks(n: nat): Table {
    map i | 1 <= i < n :: Honestly(i)
  }

  lemma FirstBlocksLinked(n: nat)
    ensures Column(FirstBlocks(n), 1, if n < 1 then 1 else n) && HashLinked(FirstBlocks(n))
  {
  }

  lemma BreakingFirst(t: Tracker, depth: nat)
    requires t == Tracker(Window(depth, map[], 0, false), [], t.confirmDepth, map[], None) && depth > 0
    ensures var s := PollOnce(t, Served(Honestly(1)), EVERY_BLOCK, 0).tracker;
            && s.confirmDepth == t.confirmDepth && s.window.depth == depth
            && Replay(map[], Upstream(t, Served(Honestly(1)), EVERY_BLOCK, 0)) == Some(FirstBlocks(2))
            && Buffered(s, 1, 1, Max(1, Threshold(1, t.confirmDepth) + 1), FirstBlocks(2)) && s.window.tip == 1
  {
    hide Buffered, PollOnce, Replay, Upstream;
    SeedInside(t, EVERY_BLOCK, 0, Honestly(1));
    assert FirstBlocks(2) == map[1 := Honestly(1)];
    BufferedTip(PollOnce(t, Served(Honestly(1)), EVERY_BLOCK, 0).tracker, 1, 1,
        Max(1, Threshold(1, t.confirmDepth) + 1), FirstBlocks(2), 1);
  }

  lemma BufferedTip(t: Tracker, lo: nat, first: nat, e: nat, live: Table, n: nat)
    requires Buffered(t, lo, first, e, live) && n in live && forall k :: k in live ==> k <= n
    ensures t.window.tip == n
  {
    assert t.window.tip in live;
  }

  lemma BreakingSecond(t: Tracker, e: nat, depth: nat)
    requires Buffered(t, 1, 1, e, FirstBlocks(2)) && t.window.tip == 1 && t.window.depth == depth > 0
    ensures var head := Honestly(depth + 2);
            var s := PollOnce(t, Served(head), EVERY_BLOCK, 0).tracker;
            && TipKnown(t.window) && PollAllowed(t, FirstBlocks(2), Served(head), EVERY_BLOCK, 0)
            && s.confirmDepth == t.confirmDepth && s.window.depth == depth
            && Replay(FirstBlocks(2), Upstream(t, Served(head), EVERY_BLOCK, 0)) == Some(FirstBlocks(depth + 3))
            && Buffered(s, 2, 1, Max(Min(e, 2), Threshold(depth + 2, t.confirmDepth) + 1), FirstBlocks(depth + 3))
            && s.window.tip == depth + 2
  {
    hide Rows, Graft, GenesisSwapped;
    var head, anc, w := Honestly(depth + 2), FirstBlocks(depth + 3), t.window;
    FirstBlocksLinked(depth + 3);
    assert w.known == FirstBlocks(2);
    var c := ServedStep(w, 1, EVERY_BLOCK, 0, head, anc, 1, 1);
    assert c == 2;
    OnHeadShape(w, 1, EVERY_BLOCK, 0, head);
    assert 1 in w.known && HasAnyBelow(w.known, head.number + 1);
    ReconciledInside(t, 1, 1, e, FirstBlocks(2), EVERY_BLOCK, 0, head);
    var path := OnHead(w, EVERY_BLOCK, 0, head).outcome.canonical;
    GraftOfServed(FirstBlocks(2), anc, depth + 3, path);
    var e' := Max(Min(e, 2), Threshold(depth + 2, t.confirmDepth) + 1);
    BufferedTip(PollOnce(t, Served(head), EVERY_BLOCK, 0).tracker, 2, 1, e', anc, depth + 2);
  }

  /** At any confirmation depth the first two polls are safe, and leave blocks 1 to depth + 2 live with block 1
      no longer in the window. */
  lemma PrunedAfterTwo(maxDepth: nat, confirmDepth: nat) returns (e: nat)
    ensures var start, depth := Start(maxDepth, confirmDepth), Fresh(maxDepth).depth;
            var polls := BreakingRun(depth)[..2];
            && T.SafeRun(start, map[], polls)
            && var t := T.Run(start, polls).tracker;
               && Buffered(t, 2, 1, e, FirstBlocks(depth + 3)) && t.window.tip == depth + 2 && t.window.depth == depth
               && t.confirmDepth == confirmDepth
               && Replay(map[], T.Run(start, polls).up) == Some(FirstBlocks(depth + 3))
    ensures confirmDepth >= Fresh(maxDepth).depth + 2 ==> e == 1
  {
    hide PollOnce, Upstream, Downstream, Replay, PollAllowed, Buffered, T.Run, T.SafeRun;
    var depth := Fresh(maxDepth).depth;
    var start, polls := Start(maxDepth, confirmDepth), BreakingRun(depth);
    var p0, p1 := polls[0], polls[1];
    T.RunEmpty(start, map[]);
    UnseededAllows(start, p0);
    BreakingFirst(start, depth);
    T.SafeSnoc(start, map[], [], p0);
    assert [] + [p0] == [p0];
    var e1 := Max(1, Threshold(1, confirmDepth) + 1);
    BreakingSecond(PollOnce(start, p0.reply, p0.reader, p0.clock).tracker, e1, depth);
    T.SafeSnoc(start, map[], [p0], p1);
    assert [p0] + [p1] == polls[..2];
    e := Max(Min(e1, 2), Threshold(depth + 2, confirmDepth) + 1);
  }

  lemma GraftOfServed(m: Table, anc: Table, end: nat, path: seq<BlockRef>)
    requires Column(m, 1, 2) && Column(anc, 1, end) && end > 2 && m[1] == anc[1] && path == Rows(anc, 2, end)
    ensures path != [] && Graft(m, path) == anc
  {
    RowsAt(anc, 1, 2, end, end);
    forall n: nat
      ensures n in Graft(m, path) <==> n in anc
      ensures n in anc ==> Graft(m, path)[n] == anc[n]
    {
      GraftAt(m, path, n);
    }
  }

  lemma BreakingThird(t: Tracker, depth: nat)
    requires Buffered(t, 2, 1, 1, FirstBlocks(depth + 3)) && t.window.tip == depth + 2 && t.window.depth == depth > 0
    requires t.confirmDepth >= depth + 2
    ensures var s := PollOnce(t, Served(SIBLING), EVERY_BLOCK, 0).tracker;
            && TipKnown(t.window) && PollAllowed(t, FirstBlocks(depth + 3), Served(SIBLING), EVERY_BLOCK, 0)
            && !HashChain(s.pending)
  {
    hide Graft, Grafted;
    var w, live := t.window, FirstBlocks(depth + 3);
    assert 2 in w.known && w.known[2].hash == 2 && 1 !in w.known && !HasAnyBelow(w.known, 2);
    assert WalkBack(w, EVERY_BLOCK, 0, [SIBLING]) == Stopped(1, true, [SIBLING], 0);
    var out := OnHead(w, EVERY_BLOCK, 0, SIBLING).outcome;
    assert out.canonical == [SIBLING] && !GenesisSwapped(w, EVERY_BLOCK, 0, SIBLING);
    assert HasAnyBelow(w.known, SIBLING.number + 1);
    BrokenBuffer(t, depth);
  }

  lemma BrokenBuffer(t: Tracker, depth: nat)
    requires TipKnown(t.window)
    requires Buffered(t, 2, 1, 1, FirstBlocks(depth + 3)) && t.confirmDepth >= 3 && !Duplicate(t.window, SIBLING)
    requires OnHead(t.window, EVERY_BLOCK, 0, SIBLING).outcome.Reconciled?
    requires OnHead(t.window, EVERY_BLOCK, 0, SIBLING).outcome.canonical == [SIBLING]
    requires Allowed(t.window, FirstBlocks(depth + 3), EVERY_BLOCK, 0, SIBLING)
    ensures !HashChain(PollOnce(t, Served(SIBLING), EVERY_BLOCK, 0).tracker.pending)
  {
    hide OnHead, Allowed, Graft, PollOnce, Rows, Tracks;
    var live := FirstBlocks(depth + 3);
    ReconciledInside(t, 2, 1, 1, live, EVERY_BLOCK, 0, SIBLING);
    var s, live' := PollOnce(t, Served(SIBLING), EVERY_BLOCK, 0).tracker, Graft(live, [SIBLING]);
    GraftAt(live, [SIBLING], 1);
    GraftAt(live, [SIBLING], 2);
    assert 1 in live by { BufferedHolds(t, 2, 1, 1, live); }
    BufferStart(s, NewFloor(t.window, 2, [SIBLING]), 1, live');
    assert !Follows(s.pending, 0);
  }

  lemma BufferedHolds(t: Tracker, lo: nat, first: nat, e: nat, live: Table)
    requires Buffered(t, lo, first, e, live)
    ensures first in live
  {
  }

  /** The buffer from height 1 begins with the live blocks at heights 1 and 2. */
  lemma BufferStart(t: Tracker, lo: nat, first: nat, live: Table)
    requires Buffered(t, lo, first, 1, live) && 1 in live && 2 in live
    ensures |t.pending| >= 2 && t.pending[0] == live[1] && t.pending[1] == live[2]
  {
    hide Rows;
    RowsAt(live, first, 1, t.window.tip + 1, t.window.tip + 1);
  }

  /** With a confirmation depth of two or more beyond the window's depth, the breaking run is safe and
      leaves two adjacent blocks in the buffer of which the second does not name the first. */
  lemma BreakingRunBreaks(maxDepth: nat, confirmDepth: nat)
    requires confirmDepth > Fresh(maxDepth).depth + 1
    ensures var start, polls := Start(maxDepth, confirmDepth), BreakingRun(Fresh(maxDepth).depth);
            TipKnown(start.window) && T.SafeRun(start, map[], polls) && !HashChain(T.Run(start, polls).tracker.pending)
  {
    hide PollOnce, Upstream, Downstream, Replay, PollAllowed, Buffered, HashChain, T.Run, T.SafeRun;
    var depth := Fresh(maxDepth).depth;
    var start, polls := Start(maxDepth, confirmDepth), BreakingRun(depth);
    var e := PrunedAfterTwo(maxDepth, confirmDepth);
    BreakingThird(T.Run(start, polls[..2]).tracker, depth);
    T.SafeSnoc(start, map[], polls[..2], polls[2]);
    assert polls[..2] + [polls[2]] == polls;
  }

  lemma UnseededAllows(t: Tracker, p: T.TrackPoll)
    requires !t.window.seeded && TipKnown(t.window)
    ensures PollAllowed(t, map[], p.reply, p.reader, p.clock)
  {
  }

  /** The buffer is a hash chain at the end of every run from a fresh start, allowed or not, if and only if the
      confirmation depth is at most the window's depth plus one. Allowing only safe runs changes nothing. */
  lemma LinkedIffShallow(maxDepth: nat, confirmDepth: nat)
    ensures TipKnown(Start(maxDepth, confirmDepth).window)
    ensures (forall polls :: HashChain(T.Run(Start(maxDepth, confirmDepth), polls).tracker.pending))
            <==> confirmDepth <= Fresh(maxDepth).depth + 1
    ensures (forall polls :: T.SafeRun(Start(maxDepth, confirmDepth), map[], polls) ==>
               HashChain(T.Run(Start(maxDepth, confirmDepth), polls).tracker.pending))
            <==> confirmDepth <= Fresh(maxDepth).depth + 1
  {
    hide T.Run, T.SafeRun, HashChain;
    var start := Start(maxDepth, confirmDepth);
    if confirmDepth <= Fresh(maxDepth).depth + 1 {
      forall polls
        ensures HashChain(T.Run(start, polls).tracker.pending)
      {
        RunKeepsInside(start, polls);
        InsideLinked(T.Run(start, polls).tracker);
      }
    } else {
      BreakingRunBreaks(maxDepth, confirmDepth);
    }
  }
}

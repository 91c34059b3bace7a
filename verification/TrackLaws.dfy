/** What the head tracker keeps over every poll and every run. */
module TrackLaws {
  import opened Chain
  import opened Reconcile
  import opened Sorting
  import opened Stream
  import opened Track
  import opened WindowLaws

  // ---- Removing reverted blocks from the buffer ---------------------------------------

  lemma {:induction false} DropMiddle(before: seq<BlockRef>, r: BlockRef, after: seq<BlockRef>)
    requires forall i :: 0 <= i < |before| ==> !Matches(before[i], r)
    ensures DropFirst(before + ([r] + after), r) == before + after
    ensures Holds(before + ([r] + after), r)
    decreases |before|
  {
    var s := before + ([r] + after);
    assert s[|before|] == r;
    if before == [] {
      assert s[1..] == after;
    } else {
      assert s[1..] == before[1..] + ([r] + after) && s[0] == before[0];
      DropMiddle(before[1..], r, after);
    }
  }

  /** No block of path matches a block of m at heights a, ..., end - 1. */
  ghost predicate Apart(m: Table, a: nat, end: nat, path: seq<BlockRef>) {
    forall i: nat, n: nat :: i < |path| && a <= n < end && n in m ==> !Matches(path[i], m[n])
  }

  /** Reverting only buffered blocks: they leave the buffer and nobody is notified. */
  lemma {:induction false} DropBuffered(m: Table, first: nat, e: nat, a: nat, n: nat, end: nat, path: seq<BlockRef>)
    requires Column(m, first, end) && first <= e <= a <= n <= end && Apart(m, a, end, path)
    ensures DropReverted(Rows(m, e, end) + path, Rows(m, a, n)) == Dropped(Rows(m, e, a) + (Rows(m, n, end) + path), [])
    decreases n
  {
    hide Rows, Apart, DropReverted, DropFirst, Holds;
    if n == a {
      RowsSplit(m, e, a, end);
      NothingDropped(m, a, Rows(m, e, end) + path);
      assert Rows(m, e, end) + path == Rows(m, e, a) + (Rows(m, a, end) + path);
    } else {
      var k := n - 1;
      RowsStep(m, a, k);
      RowsAt(m, first, e, a, end);
      DropBuffered(m, first, e, a, k, end, path);
      DropOne(m, first, Rows(m, e, a), k, end, path);
      DropRevertedSnoc(Rows(m, e, end) + path, Rows(m, a, k), m[k]);
    }
  }

  lemma DropRevertedSnoc(pending: seq<BlockRef>, reverted: seq<BlockRef>, r: BlockRef)
    ensures var d := DropReverted(pending, reverted);
            DropReverted(pending, reverted + [r]) ==
            if Holds(d.pending, r) then d.(pending := DropFirst(d.pending, r)) else d.(notified := d.notified + [r])
  {
    assert (reverted + [r])[..|reverted|] == reverted;
    hide Holds, DropFirst;
  }

  lemma DropOne(m: Table, first: nat, kept: seq<BlockRef>, k: nat, end: nat, path: seq<BlockRef>)
    requires Column(m, first, end) && first <= k < end
    requires forall i :: 0 <= i < |kept| ==> !Matches(kept[i], m[k])
    ensures Holds(kept + (Rows(m, k, end) + path), m[k])
    ensures DropFirst(kept + (Rows(m, k, end) + path), m[k]) == kept + (Rows(m, k + 1, end) + path)
  {
    RowsSplit(m, k, k + 1, end);
    assert Rows(m, k, k) == [] && Rows(m, k, k + 1) == [m[k]];
    assert Rows(m, k, end) + path == [m[k]] + (Rows(m, k + 1, end) + path);
    DropMiddle(kept, m[k], Rows(m, k + 1, end) + path);
  }

  lemma NotHeld(m: Table, first: nat, e: nat, k: nat, end: nat, path: seq<BlockRef>)
    requires Column(m, first, end) && first <= k < e <= end && Apart(m, k, end, path)
    ensures !Holds(Rows(m, e, end) + path, m[k])
  {
    RowsAt(m, first, e, end, end);
    var s, rows := Rows(m, e, end) + path, Rows(m, e, end);
    forall i | 0 <= i < |s|
      ensures !Matches(s[i], m[k])
    {
      if i < |rows| { assert s[i] == m[e + i]; } else { assert s[i] == path[i - |rows|]; }
    }
  }

  lemma NothingDropped(m: Table, a: nat, pending: seq<BlockRef>)
    ensures Rows(m, a, a) == [] && DropReverted(pending, []) == Dropped(pending, [])
  {
  }

  /** Reverting from below the buffer: the emitted blocks are notified, the buffered ones dropped. */
  lemma {:induction false} DropEmitted(m: Table, first: nat, e: nat, a: nat, n: nat, end: nat, path: seq<BlockRef>)
    requires Column(m, first, end) && first <= a < e <= end && a <= n <= end && Apart(m, a, end, path)
    ensures DropReverted(Rows(m, e, end) + path, Rows(m, a, n)) ==
            Dropped(Rows(m, if n < e then e else n, end) + path, Rows(m, a, if n < e then n else e))
    decreases n
  {
    hide Rows, DropReverted, DropFirst, Holds;
    if n == a {
      NothingDropped(m, a, Rows(m, e, end) + path);
    } else {
      var k := n - 1;
      RowsStep(m, a, k);
      DropEmitted(m, first, e, a, k, end, path);
      DropRevertedSnoc(Rows(m, e, end) + path, Rows(m, a, k), m[k]);
      if k < e {
        NotHeld(m, first, e, k, end, path);
      } else {
        DropOne(m, first, [], k, end, path);
        assert [] + (Rows(m, k, end) + path) == Rows(m, k, end) + path;
        assert [] + (Rows(m, n, end) + path) == Rows(m, n, end) + path;
      }
    }
  }

  // ---- Splitting the buffer at the threshold ------------------------------------------

  lemma SplitSnoc(q: seq<BlockRef>, b: BlockRef, threshold: nat)
    ensures UpTo(q + [b], threshold) == if b.number <= threshold then UpTo(q, threshold) + [b] else UpTo(q, threshold)
    ensures Above(q + [b], threshold) ==
            if b.number <= threshold then Above(q, threshold) else Above(q, threshold) + [b]
  {
    assert (q + [b])[..|q|] == q;
  }

  lemma {:induction false} SplitRows(m: Table, lo: nat, a: nat, b: nat, end: nat, threshold: nat)
    requires Column(m, lo, end) && lo <= a && b <= end
    ensures UpTo(Rows(m, a, b), threshold) == Rows(m, a, if b <= threshold + 1 then b else threshold + 1)
    ensures Above(Rows(m, a, b), threshold) == Rows(m, if a <= threshold + 1 then threshold + 1 else a, b)
    decreases b
  {
    hide Rows, UpTo, Above;
    if b <= a {
      NothingSplit(m, a, b, threshold);
    } else {
      var k, q := b - 1, Rows(m, a, b - 1);
      RowsStep(m, a, k);
      SplitRows(m, lo, a, k, end, threshold);
      SplitSnoc(q, m[k], threshold);
      if k > threshold {
        RowsStep(m, if a <= threshold + 1 then threshold + 1 else a, k);
      } else {
        EmptyRows(m, threshold + 1, b);
        EmptyRows(m, threshold + 1, k);
      }
    }
  }

  lemma NothingSplit(m: Table, a: nat, b: nat, threshold: nat)
    requires b <= a
    ensures UpTo(Rows(m, a, b), threshold) == Rows(m, a, if b <= threshold + 1 then b else threshold + 1)
    ensures Above(Rows(m, a, b), threshold) == Rows(m, if a <= threshold + 1 then threshold + 1 else a, b)
  {
  }

  lemma RowsOrdered(m: Table, lo: nat, a: nat, b: nat, end: nat)
    requires Column(m, lo, end) && lo <= a && b <= end
    ensures Ordered(NumberLeq, Rows(m, a, b))
  {
    if a <= b { RowsAt(m, lo, a, b, end); }
  }

  // ---- One poll -----------------------------------------------------------------------

  /** The buffer is the live chain from height e up, and e is above everything confirmed at the tip. */
  ghost predicate Buffered(t: Tracker, lo: nat, first: nat, e: nat, live: Table) {
    && Tracks(t.window, lo, first, live)
    && first <= e <= t.window.tip + 1
    && e > Threshold(t.window.tip, t.confirmDepth)
    && t.pending == Rows(live, e, t.window.tip + 1)
  }

  function Min(a: nat, b: nat): nat { if a < b then a else b }

  function Max(a: nat, b: nat): nat { if a < b then b else a }

  lemma EmptyRows(m: Table, a: nat, b: nat)
    requires b <= a
    ensures Rows(m, a, b) == []
  {
  }

  lemma GraftRows(live: Table, path: seq<BlockRef>)
    requires path != [] && Contiguous(path)
    ensures Rows(Graft(live, path), path[0].number, Last(path).number + 1) == path
    ensures forall e: nat :: e <= path[0].number ==>
              Rows(Graft(live, path), e, Last(path).number + 1) == Rows(live, e, path[0].number) + path
  {
    var c, live' := path[0].number, Graft(live, path);
    RowsOfPut(Below(live, c), path);
    forall e: nat | e <= c
      ensures Rows(live', e, Last(path).number + 1) == Rows(live, e, c) + path
    {
      RowsSplit(live', e, c, Last(path).number + 1);
      forall n: nat | n < c
        ensures (n in live' <==> n in live) && (n in live ==> live'[n] == live[n])
      {
        GraftAt(live, path, n);
      }
      RowsAgree(live', live, e, c);
    }
  }

  lemma RevertedRows(w: Window, lo: nat, first: nat, live: Table, c: nat)
    requires Tracks(w, lo, first, live) && c <= w.tip + 1
    requires c < lo ==> first == lo
    requires c == 0 ==> 0 !in w.known
    ensures Rows(w.known, (if c == 0 then 1 else c), w.tip + 1) == Rows(live, Max(c, lo), w.tip + 1)
  {
    hide Rows, HashLinked;
    RowsFromFloor(w.known, lo, if c == 0 then 1 else c, w.tip + 1);
    RowsAgree(w.known, live, Max(c, lo), w.tip + 1);
  }

  lemma PathApart(w: Window, lo: nat, first: nat, live: Table, path: seq<BlockRef>, a: nat)
    requires Tracks(w, lo, first, live) && AllUnknown(w.known, path) && lo <= a
    ensures Apart(live, a, w.tip + 1, path)
  {
    forall i: nat, n: nat | i < |path| && a <= n < w.tip + 1 && n in live
      ensures !Matches(path[i], live[n])
    {
      assert path[i] in path && UnknownTo(w.known, path[i]);
      assert n in w.known;
    }
  }

  lemma DropAll(m: Table, first: nat, e: nat, a: nat, c: nat, end: nat, path: seq<BlockRef>)
    requires Column(m, first, end) && first <= e <= end && first <= a <= end && Apart(m, a, end, path)
    requires c == a || (c < a && a == first)
    ensures DropReverted(Rows(m, e, end) + path, Rows(m, a, end)) ==
            Dropped(if e <= c then Rows(m, e, c) + path else path, Rows(m, c, e))
  {
    EmptyRows(m, end, end);
    assert [] + path == path;
    hide Rows, Apart, DropReverted;
    if e <= a {
      DropBuffered(m, first, e, a, end, end, path);
      if e <= c {
        EmptyRows(m, c, e);
      } else {
        EmptyRows(m, e, a);
        EmptySpan(m, first, end, c, e);
      }
    } else {
      DropEmitted(m, first, e, a, end, end, path);
      if c < a { RowsFromFloorUpTo(m, first, end, c, e); }
    }
  }

  /** What remains to emit after the reverted blocks have left, and who was told: exactly the blocks
      reverted from below the buffer. Adding the canonical blocks first is harmless because none of them
      matches a reverted one. */
  lemma DropStep(w: Window, lo: nat, first: nat, e: nat, live: Table, head: BlockRef, path: seq<BlockRef>)
    requires Tracks(w, lo, first, live) && Meets(w, lo, head, path) && first <= e <= w.tip + 1
    requires head.number < lo ==> first == lo
    requires path[0].number == 0 ==> 0 !in w.known
    ensures var c := path[0].number;
            DropReverted(Rows(live, e, w.tip + 1) + path, Rows(w.known, (if c == 0 then 1 else c), w.tip + 1))
            == Dropped(Rows(Graft(live, path), Min(e, c), head.number + 1), Rows(live, c, e))
  {
    hide Rows, AllUnknown, Apart, Graft, DropReverted, HashLinked;
    var c, end := path[0].number, w.tip + 1;
    var a := Max(c, lo);
    assert Column(live, first, end) && first <= a <= end && (c < lo ==> a == first);
    hide Column;
    RevertedRows(w, lo, first, live, c);
    PathApart(w, lo, first, live, path, a);
    hide Tracks;
    DropAll(live, first, e, a, c, end, path);
    GraftRows(live, path);
  }

  lemma EmptySpan(m: Table, first: nat, end: nat, c: nat, e: nat)
    requires Column(m, first, end) && c <= e && (e <= first || e == c)
    ensures Rows(m, c, e) == []
  {
    RowsEmpty(m, c, e);
  }

  lemma RowsFromFloorUpTo(m: Table, first: nat, end: nat, c: nat, e: nat)
    requires Column(m, first, end) && c <= first <= e
    ensures Rows(m, c, e) == Rows(m, first, e)
  {
    RowsSplit(m, c, first, e);
    RowsEmpty(m, c, first);
  }

  /** The emit and keep halves of a buffer that is a stretch of chain; the stable sort changes nothing. */
  lemma SettleRows(m: Table, first: nat, a: nat, head: nat, depth: nat)
    requires Column(m, first, head + 1) && first <= a <= head + 1
    ensures var thr, work := Threshold(head, depth), Rows(m, a, head + 1);
            && Sort(NumberLeq, UpTo(work, thr)) == Rows(m, a, thr + 1)
            && Above(work, thr) == Rows(m, Max(a, thr + 1), head + 1)
  {
    hide Rows, Sort, UpTo, Above, Ordered;
    var thr := Threshold(head, depth);
    SplitRows(m, first, a, head + 1, head + 1, thr);
    RowsOrdered(m, first, a, thr + 1, head + 1);
    SortKeepsOrdered(NumberLeq, Rows(m, a, thr + 1));
  }

  lemma SettleOf(t: Tracker, head: BlockRef, window: Window, out: Outcome, d: Dropped, emit: seq<BlockRef>,
        keep: seq<BlockRef>)
    requires out.Reconciled? && DropReverted(t.pending + out.canonical, out.reverted) == d
    requires emit == Sort(NumberLeq, UpTo(d.pending, Threshold(head.number, t.confirmDepth)))
    requires keep == Above(d.pending, Threshold(head.number, t.confirmDepth))
    ensures Settle(t, head, window, out) ==
            (Tracker(window, keep, t.confirmDepth, PutBlocks(t.rows, emit),
                     if emit == [] then t.cursor else Some(Last(emit))),
             Polled(d.notified, emit))
  {
    hide DropReverted, Sort, UpTo, Above, PutBlocks;
  }

  /** The state and the report after a settled poll, in terms of the live chain before and after. */
  function Settled(t: Tracker, e: nat, live: Table, head: BlockRef, path: seq<BlockRef>): (Tracker, PollResult)
    requires path != []
  {
    var c, thr, live' := path[0].number, Threshold(head.number, t.confirmDepth), Graft(live, path);
    var emit := Rows(live', Min(e, c), thr + 1);
    (Tracker(Grafted(t.window, path), Rows(live', Max(Min(e, c), thr + 1), head.number + 1), t.confirmDepth,
             PutBlocks(t.rows, emit), if emit == [] then t.cursor else Some(Last(emit))),
     Polled(Rows(live, c, e), emit))
  }

  lemma SettleStep(t: Tracker, lo: nat, first: nat, e: nat, live: Table, head: BlockRef, path: seq<BlockRef>)
    requires Buffered(t, lo, first, e, live) && Meets(t.window, lo, head, path)
    requires head.number < lo ==> first == lo
    requires path[0].number == 0 ==> 0 !in t.window.known
    ensures var c := path[0].number;
            var out := Reconciled(path, Rows(t.window.known, (if c == 0 then 1 else c), t.window.tip + 1));
            Settle(t, head, Grafted(t.window, path), out) == Settled(t, e, live, head, path)
  {
    hide Rows, Graft, Grafted, Column, Tracks, Contiguous, AllUnknown, DropReverted, UpTo, Above, Sort, PutBlocks,
        Settle;
    var c, live', thr := path[0].number, Graft(live, path), Threshold(head.number, t.confirmDepth);
    var out := Reconciled(path, Rows(t.window.known, (if c == 0 then 1 else c), t.window.tip + 1));
    var left := Dropped(Rows(live', Min(e, c), head.number + 1), Rows(live, c, e));
    var emit, keep := Rows(live', Min(e, c), thr + 1), Rows(live', Max(Min(e, c), thr + 1), head.number + 1);
    GraftColumn(t.window, lo, first, live, head, path);
    assert first <= e <= t.window.tip + 1 && Min(first, c) <= Min(e, c) <= head.number + 1;
    assert Settled(t, e, live, head, path) ==
           (Tracker(Grafted(t.window, path), keep, t.confirmDepth, PutBlocks(t.rows, emit),
               if emit == [] then t.cursor else Some(Last(emit))),
            Polled(left.notified, emit));
    DropStep(t.window, lo, first, e, live, head, path);
    SettleRows(live', Min(first, c), Min(e, c), head.number, t.confirmDepth);
    SettleOf(t, head, Grafted(t.window, path), out, left, emit, keep);
  }

  lemma GraftColumn(w: Window, lo: nat, first: nat, live: Table, head: BlockRef, path: seq<BlockRef>)
    requires Tracks(w, lo, first, live) && Meets(w, lo, head, path)
    requires head.number < lo ==> first == lo
    ensures path[0].number <= head.number && Last(path) == head && Contiguous(path)
    ensures Column(live, first, w.tip + 1) && path[0].number <= w.tip + 1
    ensures Column(Graft(live, path), Min(first, path[0].number), head.number + 1)
  {
    GraftTracks(w, lo, first, live, head, path);
  }

  lemma SettledBuffered(t: Tracker, lo: nat, first: nat, e: nat, live: Table, head: BlockRef, path: seq<BlockRef>)
    requires Buffered(t, lo, first, e, live) && Meets(t.window, lo, head, path)
    requires head.number < lo ==> first == lo
    ensures Buffered(Settled(t, e, live, head, path).0, NewFloor(t.window, lo, path), Min(first, path[0].number),
                     Max(Min(e, path[0].number), Threshold(head.number, t.confirmDepth) + 1), Graft(live, path))
  {
    hide Rows, Graft, PutBlocks, Shows;
    GraftTracks(t.window, lo, first, live, head, path);
    assert Meets(t.window, lo, head, path);
    PathEnds(path, head);
  }

  lemma PathEnds(path: seq<BlockRef>, head: BlockRef)
    requires Path(path) && Last(path) == head
    ensures path[0].number <= head.number
  {
  }

  /** A head already known emits nothing: everything still buffered is above its threshold. */
  lemma DuplicateStep(t: Tracker, lo: nat, first: nat, e: nat, live: Table, head: BlockRef)
    requires Buffered(t, lo, first, e, live) && head.number <= t.window.tip
    ensures Settle(t, head, t.window, Reconciled([], [])) == (t, Polled([], []))
  {
    var end, thr := t.window.tip + 1, Threshold(head.number, t.confirmDepth);
    assert t.pending + [] == t.pending;
    SplitRows(live, first, e, end, end, thr);
    EmptyRows(live, e, thr + 1);
    assert PutBlocks(t.rows, []) == t.rows;
  }

  // ---- One poll keeps the tracker sound -----------------------------------------------

  /** The tracker against what is live upstream and what its consumer believes: the consumer has exactly
      the live blocks below height e, and the buffer is exactly the rest. */
  ghost predicate Sound(t: Tracker, live: Table, emitted: Table) {
    if t.window.seeded then
      exists lo: nat, first: nat, e: nat :: Buffered(t, lo, first, e, live) && emitted == Below(live, e)
    else t.window.known == map[] && t.window.tip == 0 && t.pending == [] && live == map[] && emitted == map[]
  }

  lemma SoundInStep(t: Tracker, live: Table, emitted: Table)
    requires Sound(t, live, emitted)
    ensures InStep(t.window, live) && TipKnown(t.window)
  {
    if t.window.seeded {
      var lo: nat, first: nat, e: nat :| Buffered(t, lo, first, e, live);
    }
  }

  /** The upstream events of a poll: those of its reconciliation, if it got that far. */
  function Upstream(t: Tracker, reply: Reply, rd: Reader, k: nat): seq<Event>
    requires TipKnown(t.window)
  {
    if reply.Failed? then [] else Events(OnHead(t.window, rd, k, reply.block).outcome)
  }

  predicate PollAllowed(t: Tracker, live: Table, reply: Reply, rd: Reader, k: nat)
    requires TipKnown(t.window)
  {
    reply.Served? ==> Allowed(t.window, live, rd, k, reply.block)
  }

  /** Downstream replay of one settled poll. */
  lemma DownstreamReplays(live: Table, first: nat, end: nat, e: nat, path: seq<BlockRef>, e': nat)
    requires Column(live, first, end) && first <= e <= end && path != [] && Contiguous(path) && path[0].number <= end
    requires Column(Graft(live, path), Min(first, path[0].number), Last(path).number + 1)
    requires Min(e, path[0].number) <= e' <= Last(path).number + 1
    ensures Replay(Below(live, e),
        Reverts(Rows(live, path[0].number, e)) + Announces(Rows(Graft(live, path), Min(e, path[0].number), e')))
            == Some(Below(Graft(live, path), e'))
  {
    var c, live' := path[0].number, Graft(live, path);
    var m := Min(e, c);
    var before := Below(live, e);
    assert Rows(live, c, e) == Rows(before, c, e) by { RowsAgree(live, before, c, e); }
    ReplayReverts(before, c, e);
    assert Without(before, c, e) == Below(live, m);
    BelowGraft(live, path, m);
    hide Rows;
    AnnounceRows(live', Min(first, c), Last(path).number + 1, m, e');
    ReplayConcat(before, Reverts(Rows(live, c, e)), Announces(Rows(live', m, e')));
  }

  lemma BelowGraft(live: Table, path: seq<BlockRef>, m: nat)
    requires path != [] && Contiguous(path) && m <= path[0].number
    ensures Below(live, m) == Below(Graft(live, path), m)
  {
    forall n: nat | n < m
      ensures (n in Graft(live, path) <==> n in live) && (n in live ==> Graft(live, path)[n] == live[n])
    {
      GraftAt(live, path, n);
    }
  }

  lemma {:induction false} AnnounceRows(m: Table, first: nat, end: nat, a: nat, b: nat)
    requires Column(m, first, end) && first <= a <= b <= end
    ensures Replay(Below(m, a), Announces(Rows(m, a, b))) == Some(Below(m, b))
    decreases b
  {
    hide Rows, Announces, Replay;
    if a < b {
      AnnounceRows(m, first, end, a, b - 1);
      RowsStep(m, a, b - 1);
      assert Below(m, b - 1)[b - 1 := m[b - 1]] == Below(m, b);
      AnnouncesSnoc(Rows(m, a, b - 1), m[b - 1]);
      ReplaySnoc(Below(m, a), Announces(Rows(m, a, b - 1)), Canonical(m[b - 1]));
    } else {
      NothingAnnounced(m, a);
    }
  }

  lemma NothingAnnounced(m: Table, a: nat)
    ensures Replay(Below(m, a), Announces(Rows(m, a, a))) == Some(Below(m, a))
  {
  }

  /** One poll, whatever the head, the reader or the depth: the upstream events turn the live blocks into
      live', the downstream ones turn what the consumer has into emitted', and the tracker is sound again. */
  lemma PollKeepsSound(t: Tracker, live: Table, emitted: Table, reply: Reply, rd: Reader, k: nat)
    requires TipKnown(t.window) && Sound(t, live, emitted) && PollAllowed(t, live, reply, rd, k)
    ensures var s := PollOnce(t, reply, rd, k);
            && TipKnown(s.tracker.window)
            && Replay(live, Upstream(t, reply, rd, k)).Some?
            && Replay(emitted, Downstream(s.result)).Some?
            && Sound(s.tracker, Replay(live, Upstream(t, reply, rd, k)).value,
               Replay(emitted, Downstream(s.result)).value)
            && s.tracker.confirmDepth == t.confirmDepth
  {
    if reply.Served? {
      var head := reply.block;
      var s := OnHead(t.window, rd, k, head);
      OnHeadKeepsTip(t.window, rd, k, head);
      if !t.window.seeded {
        SeedSound(t, rd, k, head);
      } else {
        var lo: nat, first: nat, e: nat :| Buffered(t, lo, first, e, live) && emitted == Below(live, e);
        if s.outcome.Failure? {
          FailureKeepsWindow(t.window, rd, k, head);
        } else if Duplicate(t.window, head) {
          DuplicateStep(t, lo, first, e, live, head);
          assert Reverts([]) + Announces([]) == [];
        } else {
          ReconciledSound(t, lo, first, e, live, rd, k, head);
        }
      }
    }
  }

  lemma SeedSound(t: Tracker, rd: Reader, k: nat, head: BlockRef)
    requires !t.window.seeded && Sound(t, map[], map[])
    ensures var s := PollOnce(t, Served(head), rd, k);
            && Replay(map[], Upstream(t, Served(head), rd, k)) == Some(map[head.number := head])
            && Replay(map[], Downstream(s.result)).Some?
            && Sound(s.tracker, map[head.number := head], Replay(map[], Downstream(s.result)).value)
  {
    hide OnHead, Rows, Replay, Announces, Events, Downstream, Settle, Tracks, Below;
    assert t.window.known == map[] && t.window.tip == 0 && t.pending == [];
    hide Sound;
    var n, live: Table := head.number, map[head.number := head];
    var s, thr := OnHead(t.window, rd, k, head), Threshold(n, t.confirmDepth);
    var e := Max(n, thr + 1);
    FirstStep(t.window, rd, k, head);
    SingleRow(head);
    SeedSettles(t, head, s.window, thr);
    var emit := Rows(live, n, e);
    AnnounceRows(live, n, n + 1, n, e);
    SeedDownstream(emit);
    var t' := PollOnce(t, Served(head), rd, k).tracker;
    assert Buffered(t', n, n, e, live);
    SoundBy(t', n, n, e, live);
  }

  lemma SingleRow(head: BlockRef)
    ensures Rows(map[head.number := head], head.number, head.number + 1) == [head]
    ensures Below(map[head.number := head], head.number) == map[]
  {
    EmptyRows(map[head.number := head], head.number, head.number);
  }

  lemma SeedDownstream(emit: seq<BlockRef>)
    ensures Downstream(Polled([], emit)) == Announces(emit)
  {
    hide Announces;
    assert Reverts([]) == [];
  }

  lemma SeedDrops(pending: seq<BlockRef>, head: BlockRef)
    requires pending == []
    ensures DropReverted(pending + [head], []) == Dropped([head], [])
  {
    assert pending + [head] == [head];
  }

  lemma SeedSettles(t: Tracker, head: BlockRef, window: Window, thr: nat)
    requires t.pending == [] && thr == Threshold(head.number, t.confirmDepth)
    ensures var live: Table := map[head.number := head];
            var e := Max(head.number, thr + 1);
            var (t', result) := Settle(t, head, window, Reconciled([head], []));
            && result == Polled([], Rows(live, head.number, e))
            && t'.window == window && t'.pending == Rows(live, e, head.number + 1) && t'.confirmDepth == t.confirmDepth
  {
    hide Rows, UpTo, Above, Sort, DropReverted, PutBlocks, Settle;
    var n, live: Table := head.number, map[head.number := head];
    var e := Max(n, thr + 1);
    SingleRow(head);
    if thr + 1 < n {
      EmptyRows(live, n, thr + 1);
      EmptyRows(live, n, n);
    }
    SeedDrops(t.pending, head);
    SettleRows(live, n, n, n, t.confirmDepth);
    SettleOf(t, head, window, Reconciled([head], []), Dropped([head], []), Rows(live, n, thr + 1),
        Rows(live, e, n + 1));
  }

  lemma ReconciledSound(t: Tracker, lo: nat, first: nat, e: nat, live: Table, rd: Reader, k: nat, head: BlockRef)
    requires Buffered(t, lo, first, e, live) && !Duplicate(t.window, head)
    requires OnHead(t.window, rd, k, head).outcome.Reconciled? && Allowed(t.window, live, rd, k, head)
    ensures var s := PollOnce(t, Served(head), rd, k);
            var down := Replay(Below(live, e), Downstream(s.result));
            && Replay(live, Upstream(t, Served(head), rd, k)).Some?
            && down.Some?
            && Sound(s.tracker, Replay(live, Upstream(t, Served(head), rd, k)).value, down.value)
  {
    var w := t.window;
    AllowedStep(w, lo, first, live, rd, k, head);
    OnHeadShape(w, lo, rd, k, head);
    AllowedGuards(w, lo, first, live, rd, k, head);
    var path := OnHead(w, rd, k, head).outcome.canonical;
    hide OnHead, Allowed, GenesisSwapped, Duplicate, Events;
    SettleSound(t, lo, first, e, live, head, path);
  }

  lemma AllowedGuards(w: Window, lo: nat, first: nat, live: Table, rd: Reader, k: nat, head: BlockRef)
    requires Tracks(w, lo, first, live) && !Duplicate(w, head) && OnHead(w, rd, k, head).outcome.Reconciled?
    requires Allowed(w, live, rd, k, head)
    ensures (head.number < lo ==> first == lo) && !GenesisSwapped(w, rd, k, head)
  {
    assert lo in w.known && first in live;
  }

  lemma SettleSound(t: Tracker, lo: nat, first: nat, e: nat, live: Table, head: BlockRef, path: seq<BlockRef>)
    requires Buffered(t, lo, first, e, live) && Meets(t.window, lo, head, path)
    requires head.number < lo ==> first == lo
    requires path[0].number == 0 ==> 0 !in t.window.known
    ensures var c := path[0].number;
            var out := Reconciled(path, Rows(t.window.known, (if c == 0 then 1 else c), t.window.tip + 1));
            var (t', result) := Settle(t, head, Grafted(t.window, path), out);
            var down := Replay(Below(live, e), Downstream(result));
            down.Some? && Sound(t', Graft(live, path), down.value)
  {
    hide Rows, Graft, Grafted, Column, Tracks, Contiguous, AllUnknown, PutBlocks, Settle, Replay, Reverts, Announces;
    var c, thr, live' := path[0].number, Threshold(head.number, t.confirmDepth), Graft(live, path);
    SettleStep(t, lo, first, e, live, head, path);
    SettledBuffered(t, lo, first, e, live, head, path);
    GraftColumn(t.window, lo, first, live, head, path);
    var e' := Max(Min(e, c), thr + 1);
    assert first <= e <= t.window.tip + 1 && e' <= head.number + 1;
    assert Rows(live', Min(e, c), thr + 1) == Rows(live', Min(e, c), e') by {
      if thr + 1 < Min(e, c) {
        EmptyRows(live', Min(e, c), thr + 1);
        EmptyRows(live', Min(e, c), e');
      }
    }
    assert Settled(t, e, live, head, path).1 == Polled(Rows(live, c, e), Rows(live', Min(e, c), e'));
    assert Downstream(Polled(Rows(live, c, e), Rows(live', Min(e, c), e'))) ==
           Reverts(Rows(live, c, e)) + Announces(Rows(live', Min(e, c), e'));
    hide *;
    DownstreamReplays(live, first, t.window.tip + 1, e, path, e');
    SoundBy(Settled(t, e, live, head, path).0, NewFloor(t.window, lo, path), Min(first, c), e', live');
  }

  lemma SoundBy(t: Tracker, lo: nat, first: nat, e: nat, live: Table)
    requires Buffered(t, lo, first, e, live)
    ensures Sound(t, live, Below(live, e))
  {
  }
}

/** When a call of the reconciler fails, and what it answers when nothing known is shared with the head's
    ancestry: outcomes stated by the reader's answers alone. */
module Outcomes {
  import opened Chain
  import opened FastPath
  import opened Reconcile
  import opened WindowLaws

  // ---- Why a call fails ---------------------------------------------------------------

  /** The block above height n when height n was read last but one call: the head, or the previous answer. */
  function Above(rd: Reader, head: BlockRef, clock: nat, n: nat): Reply {
    if n + 1 == head.number then Served(head) else if clock < 2 then Failed else rd(clock - 2, n + 1)
  }

  /** The last answer, to a request for the parent of the block above, had another hash. */
  predicate Mismatched(rd: Reader, head: BlockRef, clock: nat, n: nat) {
    && clock > 0 && n < head.number
    && rd(clock - 1, n).Served? && Above(rd, head, clock, n).Served?
    && rd(clock - 1, n).block.hash != Above(rd, head, clock, n).block.parent
  }

  predicate Unanswered(rd: Reader, clock: nat, n: nat) {
    clock > 0 && rd(clock - 1, n).Failed?
  }

  /** The path's first block is the head, or the last answer so far. */
  predicate OnCursor(rd: Reader, k: nat, head: BlockRef, path: seq<BlockRef>) {
    && path != [] && path[0].number <= head.number
    && (path[0].number == head.number ==> path[0] == head)
    && (path[0].number < head.number ==> k > 0 && rd(k - 1, path[0].number) == Served(path[0]))
  }

  lemma {:induction false} WalkFailure(w: Window, rd: Reader, k: nat, head: BlockRef, path: seq<BlockRef>)
    requires OnCursor(rd, k, head, path)
    ensures var walk := WalkBack(w, rd, k, path);
            && (walk.Unfetched? ==>
                  walk.clock > k && walk.height < head.number && Unanswered(rd, walk.clock, walk.height))
            && (walk.Shifted? ==> walk.clock > k && Mismatched(rd, head, walk.clock, walk.height))
    decreases if path == [] then 0 else path[0].number
  {
    if path[0].number > 0 {
      var p := path[0].number - 1;
      if rd(k, p).Served? && rd(k, p).block.hash == path[0].parent {
        WalkFailure(w, rd, k + 1, head, [rd(k, p).block] + path);
      }
    }
  }

  lemma {:induction false} CatchUpFailure(w: Window, rd: Reader, k: nat, head: BlockRef, fetched: seq<BlockRef>)
    requires w.tip in w.known && w.tip + |fetched| < head.number
    ensures var a := Advance(w, rd, k, head, fetched);
            && k <= a.clock
            && (a.Unread? ==> a.clock > k && w.tip < a.height < head.number && Unanswered(rd, a.clock, a.height))
    decreases head.number - |fetched|
  {
    var n := w.tip + |fetched| + 1;
    if n < head.number && rd(k, n).Served? {
      CatchUpFailure(w, rd, k + 1, head, fetched + [rd(k, n).block]);
    }
  }

  /** A call fails only because of its last read, which it therefore made: the node did not answer it, or, walking
      back, answered with another hash than the block above names as its parent. The error says which, and at
      which height. */
  lemma FailureReason(w: Window, rd: Reader, k: nat, head: BlockRef)
    requires TipKnown(w) && OnHead(w, rd, k, head).outcome.Failure?
    ensures var s := OnHead(w, rd, k, head);
            && s.clock > k
            && match s.outcome.error
               case CatchUpFailed(n) => w.tip < n < head.number && Unanswered(rd, s.clock, n)
               case WalkFailed(n) => n < head.number && Unanswered(rd, s.clock, n)
               case ChainShifted(n) => Mismatched(rd, head, s.clock, n)
  {
    hide WalkBack, Advance, RecordAll;
    var k' := k;
    if head.number > w.tip {
      CatchUpFailure(w, rd, k, head, []);
      k' := Advance(w, rd, k, head, []).clock;
    }
    WalkFailure(w, rd, k', head, [head]);
  }

  // ---- Nothing shared with the window -------------------------------------------------

  lemma {:induction false} WalkToFloor(w: Window, lo: nat, rd: Reader, k: nat, head: BlockRef, anc: Table, c: nat)
    requires Shows(w, lo) && Ancestry(rd, head, anc, lo) && lo <= c <= head.number
    requires forall n: nat :: !SameHashAt(w.known, anc, n)
    ensures var walk := WalkBack(w, rd, k, Rows(anc, c, head.number + 1));
            && walk.Stopped? && walk.path == Rows(anc, lo, head.number + 1)
            && walk.ancestor == (if lo == 0 then 0 else lo - 1)
    decreases c
  {
    hide Rows;
    RowsFront(anc, lo, c, head.number + 1);
    var path := Rows(anc, c, head.number + 1);
    if c > lo {
      var p := c - 1;
      assert LinkedAt(anc, p) && rd(k, p) == Served(anc[p]);
      assert !SameHashAt(w.known, anc, p);
      assert p in w.known || !(p < w.tip);
      RowsFront(anc, lo, p, head.number + 1);
      WalkToFloor(w, lo, rd, k + 1, head, anc, p);
    } else if c > 0 {
      assert c - 1 !in w.known && c - 1 < w.tip && !HasAnyBelow(w.known, c);
    }
  }

  /** Against a node that serves the head's ancestry down to the window's floor, a head that shares nothing with
      the window succeeds: the whole window is reverted - except a block 0 - and the ancestry from the floor up is
      announced. No block below the floor is asked for. */
  lemma FloorReached(w: Window, lo: nat, rd: Reader, k: nat, head: BlockRef, anc: Table)
    requires Shows(w, lo) && Ancestry(rd, head, anc, lo) && forall n: nat :: !SameHashAt(w.known, anc, n)
    ensures OnHead(w, rd, k, head).outcome ==
            Reconciled(Rows(anc, lo, head.number + 1), Rows(w.known, if lo == 0 then 1 else lo, w.tip + 1))
  {
    hide Rows, WalkBack, Advance, RecordAll;
    assert !SameHashAt(w.known, anc, head.number);
    HeadRow(anc, lo, head);
    if head.number > w.tip {
      NoRows(anc, w.tip + 1);
      AdvanceServed(w, rd, k, head, anc, lo, []);
      assert !SameHashAt(w.known, anc, w.tip);
      WalkToFloor(w, lo, rd, Advance(w, rd, k, head, []).clock, head, anc, head.number);
    } else {
      WalkToFloor(w, lo, rd, k, head, anc, head.number);
    }
  }

  lemma HeadRow(anc: Table, lo: nat, head: BlockRef)
    requires Column(anc, lo, head.number + 1) && lo <= head.number && anc[head.number] == head
    ensures Rows(anc, head.number, head.number + 1) == [head]
  {
    NoRows(anc, head.number);
    RowsStep(anc, head.number, head.number);
  }

  lemma NoRows(m: Table, a: nat)
    ensures Rows(m, a, a) == []
  {
  }

  /** A head below the window is taken at once, whatever the node: everything known is reverted - except a block
      0 - and nothing is read. */
  lemma BelowFloor(w: Window, lo: nat, rd: Reader, k: nat, head: BlockRef)
    requires Shows(w, lo) && head.number < lo
    ensures var s := OnHead(w, rd, k, head);
            && s.outcome == Reconciled([head], Rows(w.known, if head.number == 0 then 1 else head.number, w.tip + 1))
            && s.clock == k
  {
    hide Rows, RecordAll;
    if head.number > 0 {
      var p := head.number - 1;
      assert p !in w.known && p < w.tip && !HasAnyBelow(w.known, p + 1);
      assert WalkBack(w, rd, k, [head]) == Stopped(p, true, [head], k);
    } else {
      assert WalkBack(w, rd, k, [head]) == Stopped(0, false, [head], k);
    }
  }
}

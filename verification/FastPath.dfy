/** The two ways a gap can be closed agree, and against a node that serves the head's ancestry every
    call succeeds and turns the window into that ancestry. */
module FastPath {
  import opened Chain
  import opened Reconcile
  import opened WindowLaws

  // ---- Catching up is walking back ----------------------------------------------------

  /** The node answers each height the same way whenever it is asked. */
  ghost predicate Stable(rd: Reader) {
    forall k: nat, k': nat, n: nat :: rd(k, n) == rd(k', n)
  }

  /** The block a stable node would put at height n on the way from the tip to the head. */
  function Between(w: Window, rd: Reader, head: BlockRef, n: nat): Reply
    requires w.tip in w.known
  {
    if n == w.tip then Served(w.known[w.tip]) else if n == head.number then Served(head) else rd(0, n)
  }

  predicate Joined(w: Window, rd: Reader, head: BlockRef, n: nat)
    requires w.tip in w.known
  {
    && Between(w, rd, head, n).Served? && Between(w, rd, head, n + 1).Served?
    && Between(w, rd, head, n + 1).block.parent == Between(w, rd, head, n).block.hash
  }

  ghost predicate JoinedUp(w: Window, rd: Reader, head: BlockRef, a: nat, b: nat)
    requires w.tip in w.known
  {
    forall n: nat :: a <= n < b ==> Joined(w, rd, head, n)
  }

  /** The blocks between at heights a, ..., b - 1. */
  function Stretch(w: Window, rd: Reader, head: BlockRef, a: nat, b: nat): seq<BlockRef>
    requires w.tip in w.known
    decreases b
  {
    if b <= a then []
    else Stretch(w, rd, head, a, b - 1) +
         (if Between(w, rd, head, b - 1).Served? then [Between(w, rd, head, b - 1).block] else [])
  }

  lemma {:induction false} StretchFront(w: Window, rd: Reader, head: BlockRef, a: nat, b: nat)
    requires w.tip in w.known && a < b && Between(w, rd, head, a).Served?
    ensures Stretch(w, rd, head, a, b) == [Between(w, rd, head, a).block] + Stretch(w, rd, head, a + 1, b)
    decreases b
  {
    if b == a + 1 {
      assert Stretch(w, rd, head, a, a) == [] && Stretch(w, rd, head, a + 1, b) == [];
    } else {
      StretchFront(w, rd, head, a, b - 1);
    }
  }

  lemma {:induction false} AdvanceIsJoined(w: Window, rd: Reader, k: nat, head: BlockRef, fetched: seq<BlockRef>)
    requires Stable(rd) && w.tip in w.known && w.tip + |fetched| < head.number
    requires Between(w, rd, head, w.tip + |fetched|) == Served(if fetched == [] then w.known[w.tip] else Last(fetched))
    ensures var a := Advance(w, rd, k, head, fetched);
            && (a.Extends? <==> JoinedUp(w, rd, head, w.tip + |fetched|, head.number))
            && (a.Extends? ==> a.fetched == fetched + Stretch(w, rd, head, w.tip + |fetched| + 1, head.number + 1))
    decreases head.number - |fetched|
  {
    var n := w.tip + |fetched| + 1;
    assert n < head.number ==> rd(k, n) == rd(0, n);
    if Joined(w, rd, head, n - 1) {
      var b := Between(w, rd, head, n).block;
      StretchFront(w, rd, head, n, head.number + 1);
      if n < head.number {
        AdvanceIsJoined(w, rd, k + 1, head, fetched + [b]);
      } else {
        assert Stretch(w, rd, head, n + 1, n + 1) == [];
      }
    }
  }

  lemma {:induction false} WalkIsJoined(w: Window, lo: nat, rd: Reader, k: nat, head: BlockRef, path: seq<BlockRef>)
    requires Shows(w, lo) && Stable(rd) && path != [] && w.tip < path[0].number <= head.number
    requires Between(w, rd, head, path[0].number) == Served(path[0])
    ensures var walk := WalkBack(w, rd, k, path);
            && (walk.Stopped? && walk.found && walk.ancestor == w.tip <==> JoinedUp(w, rd, head, w.tip, path[0].number))
            && (JoinedUp(w, rd, head, w.tip, path[0].number) ==>
                walk.path == Stretch(w, rd, head, w.tip + 1, path[0].number) + path)
    decreases path[0].number
  {
    var p := path[0].number - 1;
    assert rd(k, p) == rd(0, p);
    if p == w.tip {
      assert JoinedUp(w, rd, head, w.tip, p + 1) <==> Joined(w, rd, head, p);
      assert Stretch(w, rd, head, p + 1, p + 1) + path == path;
      if !Joined(w, rd, head, p) && rd(k, p).Served? {
        WalkLandsBelow(w, rd, k + 1, [rd(k, p).block] + path);
      }
    } else {
      assert p !in w.known;
      if Joined(w, rd, head, p) {
        WalkIsJoined(w, lo, rd, k + 1, head, [rd(k, p).block] + path);
        assert JoinedUp(w, rd, head, w.tip, p + 1) <==> JoinedUp(w, rd, head, w.tip, p);
        assert Stretch(w, rd, head, w.tip + 1, p) + ([rd(k, p).block] + path) ==
            Stretch(w, rd, head, w.tip + 1, p + 1) + path;
      }
    }
  }

  lemma {:induction false} WalkLandsBelow(w: Window, rd: Reader, k: nat, path: seq<BlockRef>)
    requires path != []
    ensures var walk := WalkBack(w, rd, k, path);
            walk.Stopped? && walk.found ==> walk.ancestor < path[0].number
    decreases path[0].number
  {
    if path[0].number > 0 && rd(k, path[0].number - 1).Served? {
      WalkLandsBelow(w, rd, k + 1, [rd(k, path[0].number - 1).block] + path);
    }
  }

  /** Against a stable node, closing a gap forwards succeeds without a reorganisation exactly when walking
      back from the head lands on the tip, and then both give the same outcome and the same window. */
  lemma FastPathIsSlowPath(w: Window, lo: nat, rd: Reader, k: nat, k': nat, head: BlockRef)
    requires Shows(w, lo) && Stable(rd) && head.number > w.tip
    ensures var fast, slow := Advance(w, rd, k, head, []), WalkBack(w, rd, k', [head]);
            fast.Extends? <==> slow.Stopped? && slow.found && slow.ancestor == w.tip
    ensures Advance(w, rd, k, head, []).Extends? ==>
            var f, s := ApplyForward(w, rd, k, head), HandleReorg(w, rd, k', head);
            f.outcome == s.outcome && f.window == s.window
  {
    AdvanceIsJoined(w, rd, k, head, []);
    WalkIsJoined(w, lo, rd, k', head, [head]);
    if Advance(w, rd, k, head, []).Extends? {
      assert CutTo(w, w.tip).known == w.known;
      assert Stretch(w, rd, head, w.tip + 1, head.number + 1) == Stretch(w, rd, head, w.tip + 1, head.number) + [head];
      assert Rows(w.known, w.tip + 1, w.tip + 1) == [];
    }
  }

  // ---- A node that serves the head's ancestry -----------------------------------------

  /** anc is the head's ancestry from height a up, and the node serves it. */
  ghost predicate Ancestry(rd: Reader, head: BlockRef, anc: Table, a: nat) {
    && Column(anc, a, head.number + 1) && HashLinked(anc) && a <= head.number && anc[head.number] == head
    && forall k: nat, n: nat :: a <= n < head.number ==> rd(k, n) == Served(anc[n])
  }

  predicate SameHashAt(m: Table, m': Table, n: nat) {
    n in m && n in m' && m[n].hash == m'[n].hash
  }

  /** At each height, one hash is one block. */
  ghost predicate Identified(m: Table, m': Table) {
    forall n: nat :: SameHashAt(m, m', n) ==> m[n] == m'[n]
  }

  /** c is just above the highest height at which the two chains agree. */
  ghost predicate ForkAt(m: Table, anc: Table, c: nat) {
    c > 0 && SameHashAt(m, anc, c - 1) && forall n: nat :: n >= c ==> !SameHashAt(m, anc, n)
  }

  lemma {:induction false} AgreeBelowFork(m: Table, anc: Table, n: nat, d: nat)
    requires HashLinked(m) && HashLinked(anc) && Identified(m, anc) && SameHashAt(m, anc, n + d)
    requires forall i: nat :: n <= i <= n + d ==> i in m && i in anc
    ensures m[n] == anc[n]
    decreases d
  {
    if d > 0 {
      AgreeBelowFork(m, anc, n + 1, d - 1);
      assert LinkedAt(m, n) && LinkedAt(anc, n);
      assert SameHashAt(m, anc, n);
    }
  }

  lemma RowsFront(m: Table, lo: nat, c: nat, end: nat)
    requires Column(m, lo, end) && lo <= c < end
    ensures Rows(m, c, end) == [m[c]] + Rows(m, c + 1, end)
    ensures Rows(m, c, end)[0] == m[c]
  {
    RowsSplit(m, c, c + 1, end);
    assert Rows(m, c, c) == [];
    assert Rows(m, c, c + 1) == [m[c]];
  }

  /** From a point on the ancestry above an agreeing height f, the walk succeeds and stops at the fork. */
  lemma {:induction false} WalkBackServed(w: Window, lo: nat, rd: Reader, k: nat, head: BlockRef, anc: Table, a: nat,
        c: nat, f: nat)
    requires Shows(w, lo) && Ancestry(rd, head, anc, a) && a <= f < c <= head.number && lo <= f
    requires SameHashAt(w.known, anc, f) && forall n: nat :: n >= c ==> !SameHashAt(w.known, anc, n)
    ensures var walk := WalkBack(w, rd, k, Rows(anc, c, head.number + 1));
            && walk.Stopped? && walk.found && f <= walk.ancestor < c
            && ForkAt(w.known, anc, walk.ancestor + 1)
            && walk.path == Rows(anc, walk.ancestor + 1, head.number + 1)
    decreases c
  {
    hide Rows, Advance;
    var path, p := Rows(anc, c, head.number + 1), c - 1;
    RowsFront(anc, a, c, head.number + 1);
    assert path[0] == anc[c] && LinkedAt(anc, p);
    assert p in w.known && w.known[p].hash == anc[c].parent <==> SameHashAt(w.known, anc, p);
    assert p < w.tip ==> p in w.known;
    if !SameHashAt(w.known, anc, p) {
      RowsFront(anc, a, p, head.number + 1);
      assert rd(k, p) == Served(anc[p]);
      WalkBackServed(w, lo, rd, k + 1, head, anc, a, p, f);
    }
  }

  lemma {:induction false} AdvanceServed(w: Window, rd: Reader, k: nat, head: BlockRef, anc: Table, a: nat,
        fetched: seq<BlockRef>)
    requires w.tip in w.known && Ancestry(rd, head, anc, a) && a <= w.tip && w.tip + |fetched| < head.number
    requires fetched == Rows(anc, w.tip + 1, w.tip + |fetched| + 1)
    requires fetched != [] ==> SameHashAt(w.known, anc, w.tip)
    ensures var adv := Advance(w, rd, k, head, fetched);
            if SameHashAt(w.known, anc, w.tip)
            then adv.Extends? && adv.fetched == Rows(anc, w.tip + 1, head.number + 1)
            else adv.Broken?
    decreases head.number - |fetched|
  {
    var n := w.tip + |fetched| + 1;
    var reply := if n == head.number then Served(head) else rd(k, n);
    assert reply == Served(anc[n]) && LinkedAt(anc, n - 1);
    RowsAt(anc, a, w.tip + 1, n, head.number + 1);
    assert Rows(anc, w.tip + 1, n + 1) == fetched + [anc[n]];
    if n < head.number && SameHashAt(w.known, anc, w.tip) {
      AdvanceServed(w, rd, k + 1, head, anc, a, fetched + [anc[n]]);
    }
  }

  lemma ServedWalk(w: Window, lo: nat, rd: Reader, k: nat, head: BlockRef, anc: Table, a: nat, f: nat) returns (c: nat)
    requires Shows(w, lo) && Ancestry(rd, head, anc, a) && a <= lo <= f && SameHashAt(w.known, anc, f)
    requires !Duplicate(w, head)
    ensures var walk := WalkBack(w, rd, k, [head]);
            && walk.Stopped? && walk.path == Rows(anc, c, head.number + 1)
            && f < c <= head.number && ForkAt(w.known, anc, c)
  {
    assert !SameHashAt(w.known, anc, head.number);
    assert Rows(anc, head.number, head.number + 1) == [head] by { assert Rows(anc, head.number, head.number) == []; }
    hide Rows, Duplicate;
    WalkBackServed(w, lo, rd, k, head, anc, a, head.number, f);
    c := WalkBack(w, rd, k, [head]).ancestor + 1;
  }

  lemma ServedCanonical(w: Window, lo: nat, rd: Reader, k: nat, head: BlockRef, anc: Table, a: nat, f: nat)
    returns (c: nat)
    requires Shows(w, lo) && Ancestry(rd, head, anc, a) && a <= lo <= f && SameHashAt(w.known, anc, f)
    requires !Duplicate(w, head)
    ensures f < c <= head.number && ForkAt(w.known, anc, c)
    ensures var out := OnHead(w, rd, k, head).outcome;
            out.Reconciled? && out.canonical == Rows(anc, c, head.number + 1)
  {
    assert w.seeded && w.tip in w.known && f <= w.tip;
    if head.number > w.tip {
      assert Rows(anc, w.tip + 1, w.tip + 1) == [];
      AdvanceServed(w, rd, k, head, anc, a, []);
      if SameHashAt(w.known, anc, w.tip) {
        c := w.tip + 1;
      } else {
        c := ServedWalk(w, lo, rd, Advance(w, rd, k, head, []).clock, head, anc, a, f);
      }
    } else {
      c := ServedWalk(w, lo, rd, k, head, anc, a, f);
    }
  }

  /** A call against a node that serves the head's ancestry down to the window, when the two chains agree
      somewhere inside it: it succeeds, reverts exactly the known blocks above the fork, and announces
      exactly the ancestry above it. */
  lemma ServedStep(w: Window, lo: nat, rd: Reader, k: nat, head: BlockRef, anc: Table, a: nat, f: nat) returns (c: nat)
    requires Shows(w, lo) && Ancestry(rd, head, anc, a) && a <= lo <= f
    requires SameHashAt(w.known, anc, f)
    ensures f < c <= w.tip + 1 && ForkAt(w.known, anc, c)
    ensures var s := OnHead(w, rd, k, head);
            if Duplicate(w, head) then c == head.number + 1 && s.outcome == Reconciled([], []) && s.window == w
            else
              && c <= head.number
              && s.outcome == Reconciled(Rows(anc, c, head.number + 1), Rows(w.known, c, w.tip + 1))
              && s.outcome.canonical != [] && s.outcome.canonical[0].number == c
              && s.window == Grafted(w, s.outcome.canonical)
  {
    if Duplicate(w, head) {
      c := head.number + 1;
      assert SameHashAt(w.known, anc, head.number);
    } else {
      c := ServedCanonical(w, lo, rd, k, head, anc, a, f);
      OnHeadShape(w, lo, rd, k, head);
      RowsFront(anc, a, c, head.number + 1);
      hide OnHead, Duplicate, Rows, HashLinked;
    }
  }

  /** After such a call the window holds the head's ancestry: dropping the reverted blocks from the old
      chain and appending the canonical ones gives the ancestry from the window's lowest height up, and
      every block then known at a height of the ancestry is the ancestry's block. */
  lemma WindowConverges(w: Window, lo: nat, rd: Reader, k: nat, head: BlockRef, anc: Table, a: nat, f: nat)
    requires Shows(w, lo) && Ancestry(rd, head, anc, a) && a <= lo <= f
    requires SameHashAt(w.known, anc, f) && Identified(w.known, anc)
    ensures var s := OnHead(w, rd, k, head);
            && s.outcome.Reconciled?
            && (forall n: nat :: n in s.window.known && n in anc ==> s.window.known[n] == anc[n])
            && (!Duplicate(w, head) ==>
                exists kept ::
                  && Rows(w.known, lo, w.tip + 1) == kept + s.outcome.reverted
                  && Rows(anc, lo, head.number + 1) == kept + s.outcome.canonical)
  {
    var c := ServedStep(w, lo, rd, k, head, anc, a, f);
    BelowForkEqual(w, lo, head, anc, a, c);
    hide OnHead, Rows;
    if !Duplicate(w, head) {
      ServedRows(w, lo, head, anc, a, c);
      GraftedConverges(w, head, anc, a, c);
    }
  }

  lemma BelowForkEqual(w: Window, lo: nat, head: BlockRef, anc: Table, a: nat, c: nat)
    requires Shows(w, lo) && Column(anc, a, head.number + 1) && HashLinked(anc) && a <= lo < c
        && Identified(w.known, anc)
    requires ForkAt(w.known, anc, c)
    ensures forall n: nat :: n in w.known && n in anc && n < c ==> w.known[n] == anc[n]
  {
    forall n: nat | n in w.known && n in anc && n < c
      ensures w.known[n] == anc[n]
    {
      AgreeBelowFork(w.known, anc, n, c - 1 - n);
    }
  }

  lemma GraftedConverges(w: Window, head: BlockRef, anc: Table, a: nat, c: nat)
    requires Column(anc, a, head.number + 1) && a <= c <= head.number
    requires forall n: nat :: n in w.known && n in anc && n < c ==> w.known[n] == anc[n]
    ensures Rows(anc, c, head.number + 1) != []
    ensures var known := Grafted(w, Rows(anc, c, head.number + 1)).known;
            forall n: nat :: n in known && n in anc ==> known[n] == anc[n]
  {
    var path := Rows(anc, c, head.number + 1);
    RowsAt(anc, a, c, head.number + 1, head.number + 1);
    ContiguousRows(anc, a, c, head.number + 1);
    var known := Grafted(w, path).known;
    forall n: nat | n in known && n in anc
      ensures known[n] == anc[n]
    {
      GraftAt(w.known, path, n);
    }
  }

  lemma ContiguousRows(m: Table, lo: nat, c: nat, end: nat)
    requires Column(m, lo, end) && lo <= c <= end
    ensures Contiguous(Rows(m, c, end))
  {
    RowsAt(m, lo, c, end, end);
  }

  lemma ServedRows(w: Window, lo: nat, head: BlockRef, anc: Table, a: nat, c: nat)
    requires Shows(w, lo) && Column(anc, a, head.number + 1) && a <= lo < c <= head.number && c <= w.tip + 1
    requires forall n: nat :: n in w.known && n in anc && n < c ==> w.known[n] == anc[n]
    ensures Rows(w.known, lo, w.tip + 1) == Rows(anc, lo, c) + Rows(w.known, c, w.tip + 1)
    ensures Rows(anc, lo, head.number + 1) == Rows(anc, lo, c) + Rows(anc, c, head.number + 1)
  {
    hide Rows;
    RowsSplit(w.known, lo, c, w.tip + 1);
    RowsSplit(anc, lo, c, head.number + 1);
    RowsAgree(w.known, anc, lo, c);
  }
}

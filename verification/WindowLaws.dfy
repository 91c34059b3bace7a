/** The window invariant, and what one reconciliation does to the chain the window holds. */
module WindowLaws {
  import opened Chain
  import opened Reconcile

  /** The window holds one hash-linked block of every height from lo to the tip, at most depth + 1 of them. */
  ghost predicate Shows(w: Window, lo: nat) {
    && w.seeded
    && Column(w.known, lo, w.tip + 1)
    && HashLinked(w.known)
    && lo <= w.tip <= lo + w.depth
  }

  ghost predicate WindowInvariant(w: Window) {
    if w.seeded then exists lo: nat :: Shows(w, lo) else w.known == map[] && w.tip == 0
  }

  /** The lowest height a window with this tip may keep. */
  function Horizon(depth: nat, tip: nat): nat {
    if tip <= depth then 0 else tip - depth
  }

  // ---- Recording ----------------------------------------------------------------------

  lemma RecordKnown(w: Window, b: BlockRef)
    requires w.tip <= b.number
    ensures Record(w, b) == Window(w.depth, From(w.known[b.number := b], Horizon(w.depth, b.number)), b.number, true)
  {
    if b.number <= w.depth {
      assert From(w.known[b.number := b], 0) == w.known[b.number := b];
    }
  }

  /** Recording blocks one by one, pruning after each, is filing them all and pruning once. */
  lemma {:induction false} RecordAllKnown(w: Window, path: seq<BlockRef>)
    requires path != [] && Contiguous(path) && w.tip <= path[0].number
    ensures RecordAll(w, path) ==
            Window(w.depth, From(PutBlocks(w.known, path), Horizon(w.depth, Last(path).number)), Last(path).number,
                true)
    decreases |path|
  {
    var q, b := path[..|path| - 1], Last(path);
    var m := PutBlocks(w.known, q);
    assert PutBlocks(w.known, path) == m[b.number := b];
    if q == [] {
      assert RecordAll(w, q) == w;
      RecordKnown(w, b);
    } else {
      RecordAllKnown(w, q);
      var lo, hi := Horizon(w.depth, Last(q).number), Horizon(w.depth, b.number);
      assert Last(q).number < b.number && RecordAll(w, path) == Record(RecordAll(w, q), b);
      RecordKnown(RecordAll(w, q), b);
      assert From(From(m, lo)[b.number := b], hi) == From(m[b.number := b], hi);
    }
  }

  lemma GraftAt(m: Table, path: seq<BlockRef>, n: nat)
    requires path != [] && Contiguous(path)
    ensures if path[0].number <= n < path[0].number + |path|
            then n in Graft(m, path) && Graft(m, path)[n] == path[n - path[0].number]
            else
              && (n in Graft(m, path) <==> n in m && n < path[0].number)
              && (n in Graft(m, path) ==> Graft(m, path)[n] == m[n])
  {
    PutBlocksAt(Below(m, path[0].number), path, n);
  }

  /** However the blocks from the path's start up are dropped first, filing the path gives the graft. */
  lemma GraftFrom(m: Table, kept: Table, path: seq<BlockRef>)
    requires path != [] && Contiguous(path)
    requires forall n: nat :: n !in Below(m, path[0].number) && n in kept ==> n == path[0].number
    requires forall n: nat :: n in Below(m, path[0].number) ==> n in kept && kept[n] == m[n]
    ensures PutBlocks(kept, path) == Graft(m, path)
  {
    forall n: nat
      ensures n in PutBlocks(kept, path) <==> n in Graft(m, path)
      ensures n in Graft(m, path) ==> PutBlocks(kept, path)[n] == Graft(m, path)[n]
    {
      PutBlocksAt(kept, path, n);
      GraftAt(m, path, n);
    }
  }

  // ---- Walking back and catching up ---------------------------------------------------

  predicate UnknownTo(known: Table, b: BlockRef) {
    b.number in known ==> known[b.number].hash != b.hash
  }

  /** No block of path has the hash that the table holds at its height. */
  ghost predicate AllUnknown(known: Table, path: seq<BlockRef>) {
    forall b :: b in path ==> UnknownTo(known, b)
  }

  /** Where and how a path meets a window whose lowest height is lo: on top of the block it names as
      parent, or at the lowest height, or below it when the path starts at a head that is itself below. */
  ghost predicate Meets(w: Window, lo: nat, head: BlockRef, path: seq<BlockRef>) {
    && Path(path) && Last(path) == head && AllUnknown(w.known, path)
    && path[0].number <= w.tip + 1
    && (path[0].number > lo ==> path[0].number - 1 in w.known && w.known[path[0].number - 1].hash == path[0].parent)
    && (if head.number < lo then path == [head] else lo <= path[0].number)
  }

  /** Whatever the reader answers, a completed walk has built a linked path of unknown blocks ending
      where it started, and stopped for one of three reasons. */
  lemma {:induction false} WalkBackMeets(w: Window, lo: nat, rd: Reader, k: nat, head: BlockRef, path: seq<BlockRef>)
    requires Shows(w, lo) && Path(path) && Last(path) == head && AllUnknown(w.known, path)
    requires head.number >= lo ==> path[0].number >= lo
    requires head.number < lo ==> path == [head]
    ensures var walk := WalkBack(w, rd, k, path);
            && k <= walk.clock <= k + (if head.number < lo then 0 else path[0].number - lo)
            && (walk.Stopped? ==>
                && Meets(w, lo, head, walk.path)
                && (walk.found <==> walk.path[0].number > 0)
                && walk.ancestor == (if walk.found then walk.path[0].number - 1 else 0))
    decreases path[0].number
  {
    var cursor := path[0];
    if cursor.number > 0 {
      var p := cursor.number - 1;
      assert p < lo ==> !HasAnyBelow(w.known, p + 1);
      assert p in w.known <==> lo <= p <= w.tip;
      if p in w.known && w.known[p].hash == cursor.parent {
      } else if p < lo {
      } else if rd(k, p).Served? && rd(k, p).block.hash == cursor.parent {
        var got := rd(k, p).block;
        PrependPath(got, path);
        assert UnknownTo(w.known, got);
        WalkBackMeets(w, lo, rd, k + 1, head, [got] + path);
      }
    }
  }

  ghost predicate OnTip(w: Window, fetched: seq<BlockRef>) {
    w.tip in w.known &&
    (fetched != [] ==> Path(fetched) && fetched[0].number == w.tip + 1 && fetched[0].parent == w.known[w.tip].hash)
  }

  lemma {:induction false} AdvanceMeets(w: Window, rd: Reader, k: nat, head: BlockRef, fetched: seq<BlockRef>)
    requires w.tip in w.known && w.known[w.tip].number == w.tip
    requires OnTip(w, fetched) && w.tip + |fetched| < head.number
    ensures var a := Advance(w, rd, k, head, fetched);
            && k <= a.clock < k + head.number - w.tip - |fetched|
            && (a.Extends? ==> a.fetched != [] && OnTip(w, a.fetched) && Last(a.fetched) == head)
    decreases head.number - |fetched|
  {
    var n := w.tip + |fetched| + 1;
    var reply := if n == head.number then Served(head) else rd(k, n);
    var prev := if fetched == [] then w.known[w.tip] else Last(fetched);
    if reply.Served? && reply.block.parent == prev.hash {
      var b := reply.block;
      if fetched == [] {
        assert forall i: nat :: Follows([b], i);
        assert fetched + [b] == [b];
      } else {
        AppendPath(fetched, b);
      }
      if n < head.number { AdvanceMeets(w, rd, k + 1, head, fetched + [b]); }
    }
  }

  // ---- One reconciliation -------------------------------------------------------------

  /** The window after the path's blocks replace everything from the path's start up. */
  function Grafted(w: Window, path: seq<BlockRef>): Window
    requires path != []
  {
    var tip := Last(path).number;
    Window(w.depth, From(Graft(w.known, path), Horizon(w.depth, tip)), tip, true)
  }

  function NewFloor(w: Window, lo: nat, path: seq<BlockRef>): nat
    requires path != []
  {
    var low := if path[0].number < lo then path[0].number else lo;
    var horizon := Horizon(w.depth, Last(path).number);
    if low < horizon then horizon else low
  }

  lemma GraftedShows(w: Window, lo: nat, head: BlockRef, path: seq<BlockRef>)
    requires Shows(w, lo) && Meets(w, lo, head, path)
    ensures Shows(Grafted(w, path), NewFloor(w, lo, path))
  {
    var c, known := path[0].number, Grafted(w, path).known;
    forall n: nat
      ensures n in known <==> NewFloor(w, lo, path) <= n <= head.number
      ensures n in known ==> known[n].number == n
      ensures LinkedAt(known, n)
    {
      GraftAt(w.known, path, n);
      GraftAt(w.known, path, n + 1);
      assert LinkedAt(w.known, n);
      if c <= n < c + |path| { assert Follows(path, n - c); }
    }
  }

  lemma HandleReorgGrafts(w: Window, lo: nat, rd: Reader, k: nat, head: BlockRef)
    requires Shows(w, lo) && !Duplicate(w, head)
    ensures var walk, s := WalkBack(w, rd, k, [head]), HandleReorg(w, rd, k, head);
            if !walk.Stopped? then s.outcome.Failure? && s.window == w
            else
              && Meets(w, lo, head, walk.path)
              && s.outcome == Reconciled(walk.path,
                 Rows(w.known, (if walk.found then walk.path[0].number else 1), w.tip + 1))
              && s.window == Grafted(w, walk.path)
              && (walk.found <==> walk.path[0].number > 0)
  {
    hide Rows, Graft, WalkBack, RecordAll, HasAnyBelow;
    assert forall i: nat :: Follows([head], i);
    WalkBackMeets(w, lo, rd, k, head, [head]);
    var walk := WalkBack(w, rd, k, [head]);
    if walk.Stopped? {
      var cut := CutTo(w, walk.ancestor);
      GraftFrom(w.known, cut.known, walk.path);
      RecordAllKnown(cut, walk.path);
    }
  }

  lemma ApplyForwardGrafts(w: Window, lo: nat, rd: Reader, k: nat, head: BlockRef)
    requires Shows(w, lo) && w.tip < head.number && Advance(w, rd, k, head, []).Extends?
    ensures var fetched, s := Advance(w, rd, k, head, []).fetched, ApplyForward(w, rd, k, head);
            && s.outcome == Reconciled(fetched, Rows(w.known, w.tip + 1, w.tip + 1))
            && fetched != [] && fetched[0].number == w.tip + 1 && Meets(w, lo, head, fetched)
            && s.window == Grafted(w, fetched)
  {
    AdvanceMeets(w, rd, k, head, []);
    var fetched := Advance(w, rd, k, head, []).fetched;
    GraftFrom(w.known, w.known, fetched);
    RecordAllKnown(w, fetched);
  }

  /** Every way a call of OnHead on a seeded window can end: it fails and changes nothing; the head is
      already known and nothing happens; or a linked path of unknown blocks ending at the head replaces
      everything known from its start up, and everything replaced is reported as reverted, ascending -
      except a block at height 0, which is replaced without being reported. */
  lemma OnHeadShape(w: Window, lo: nat, rd: Reader, k: nat, head: BlockRef)
    requires Shows(w, lo)
    ensures var s := OnHead(w, rd, k, head);
            if s.outcome.Failure? then s.window == w && !Duplicate(w, head)
            else if Duplicate(w, head) then s == Step(Reconciled([], []), w, k)
            else
              var path := s.outcome.canonical;
              && Meets(w, lo, head, path)
              && s.window == Grafted(w, path)
              && (GenesisSwapped(w, rd, k, head) <==> path[0].number == 0 && 0 in w.known)
              && s.outcome.reverted == Rows(w.known, (if path[0].number == 0 then 1 else path[0].number), w.tip + 1)
  {
    if !Duplicate(w, head) {
      if head.number > w.tip {
        AdvanceMeets(w, rd, k, head, []);
        var a := Advance(w, rd, k, head, []);
        if a.Extends? {
          ApplyForwardGrafts(w, lo, rd, k, head);
        } else if a.Broken? {
          HandleReorgGrafts(w, lo, rd, a.clock, head);
        }
      } else {
        HandleReorgGrafts(w, lo, rd, k, head);
      }
    }
  }

  // ---- The tip is always known --------------------------------------------------------

  lemma {:induction false} LoadKnownKeepsTip(w: Window, bs: seq<BlockRef>)
    requires TipKnown(w)
    ensures TipKnown(PutAll(w, bs)) && TipKnown(LoadKnown(w, bs))
    decreases |bs|
  {
    if bs != [] {
      LoadKnownKeepsTip(w, bs[..|bs| - 1]);
    }
  }

  lemma {:induction false} WalkBackEnds(w: Window, rd: Reader, k: nat, path: seq<BlockRef>)
    requires path != [] && Contiguous(path)
    ensures var walk := WalkBack(w, rd, k, path);
            walk.Stopped? ==> && walk.path != [] && Contiguous(walk.path) && Last(walk.path) == Last(path)
                              && walk.ancestor <= walk.path[0].number
    decreases path[0].number
  {
    if path[0].number > 0 {
      var p := path[0].number - 1;
      if rd(k, p).Served? {
        var longer := [rd(k, p).block] + path;
        assert forall i :: 0 < i < |longer| ==> longer[i] == path[i - 1];
        WalkBackEnds(w, rd, k + 1, longer);
      }
    }
  }

  lemma {:induction false} AdvanceEnds(w: Window, rd: Reader, k: nat, head: BlockRef, fetched: seq<BlockRef>)
    requires w.tip in w.known && w.tip + |fetched| < head.number
    requires forall i :: 0 <= i < |fetched| ==> fetched[i].number == w.tip + 1 + i
    ensures var a := Advance(w, rd, k, head, fetched);
            a.Extends? ==>
              && a.fetched != [] && Contiguous(a.fetched)
              && a.fetched[0].number == w.tip + 1 && Last(a.fetched) == head
    decreases head.number - |fetched|
  {
    var n := w.tip + |fetched| + 1;
    if n < head.number && rd(k, n).Served? {
      AdvanceEnds(w, rd, k + 1, head, fetched + [rd(k, n).block]);
    }
  }

  lemma RecordAllKeepsTip(w: Window, path: seq<BlockRef>)
    requires path != [] && Contiguous(path) && w.tip <= path[0].number
    ensures TipKnown(RecordAll(w, path))
  {
    RecordAllKnown(w, path);
    PutBlocksAt(w.known, path, Last(path).number);
  }

  /** Whatever was loaded and whatever the reader answers, the tip height is in the table. */
  lemma OnHeadKeepsTip(w: Window, rd: Reader, k: nat, head: BlockRef)
    requires TipKnown(w)
    ensures TipKnown(OnHead(w, rd, k, head).window)
  {
    if w.seeded && !Duplicate(w, head) {
      var k' := k;
      if head.number > w.tip {
        AdvanceEnds(w, rd, k, head, []);
        var a := Advance(w, rd, k, head, []);
        if a.Extends? { RecordAllKeepsTip(w, a.fetched); }
        k' := a.clock;
      }
      WalkBackEnds(w, rd, k', [head]);
      var walk := WalkBack(w, rd, k', [head]);
      if walk.Stopped? { RecordAllKeepsTip(CutTo(w, walk.ancestor), walk.path); }
    }
  }
}

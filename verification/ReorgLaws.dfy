/** Theorems about single calls of the reconciler: the window invariant, the fewest blocks reverted,
    the number of reads, and when rows loaded from storage make a valid window. */
module ReorgLaws {
  import opened Chain
  import opened Reconcile
  import opened WindowLaws

  // ---- The window invariant -----------------------------------------------------------

  lemma FreshInvariant(maxDepth: nat)
    ensures WindowInvariant(Fresh(maxDepth)) && Fresh(maxDepth).depth == (if maxDepth == 0 then 256 else maxDepth)
  {
  }

  lemma FirstHeadShows(w: Window, rd: Reader, k: nat, head: BlockRef)
    requires !w.seeded && WindowInvariant(w)
    ensures OnHead(w, rd, k, head) == Step(Reconciled([head], []), Grafted(w, [head]), k)
    ensures Shows(Grafted(w, [head]), head.number)
  {
    RecordKnown(w, head);
    var m := Graft(w.known, [head]);
    assert m == map[head.number := head] by {
      assert [head][..0] == [];
      assert PutBlocks(Below(w.known, head.number), []) == map[];
    }
  }

  /** Whatever the head and the reader's answers, every call keeps the window contiguous up to its tip,
      hash-linked, keyed by its blocks' own numbers, and no wider than depth + 1. */
  lemma OnHeadKeepsInvariant(w: Window, rd: Reader, k: nat, head: BlockRef)
    requires WindowInvariant(w)
    ensures var s := OnHead(w, rd, k, head);
            && WindowInvariant(s.window)
            && (s.outcome.Failure? ==> s.window == w)
            && (s.outcome.Reconciled? && s.outcome.canonical != [] ==> Tip(s.window) == Some(head))
  {
    var s := OnHead(w, rd, k, head);
    if !w.seeded {
      FirstHeadShows(w, rd, k, head);
    } else {
      var lo: nat :| Shows(w, lo);
      OnHeadShape(w, lo, rd, k, head);
      if s.outcome.Reconciled? && !Duplicate(w, head) {
        GraftedShows(w, lo, head, s.outcome.canonical);
        GraftAt(w.known, s.outcome.canonical, head.number);
      }
    }
  }

  lemma InvariantBoundsWindow(w: Window)
    requires WindowInvariant(w) && w.seeded
    ensures w.tip in w.known && w.known[w.tip].number == w.tip && |w.known| <= w.depth + 1
    ensures forall n: nat :: n in w.known && n < w.tip ==> n + 1 in w.known && w.known[n + 1].parent == w.known[n].hash
  {
    var lo: nat :| Shows(w, lo);
    forall n: nat | n in w.known && n < w.tip
      ensures n + 1 in w.known && w.known[n + 1].parent == w.known[n].hash
    {
      assert LinkedAt(w.known, n);
    }
    ColumnSize(w.known, lo, w.tip + 1);
  }

  lemma {:induction false} ColumnSize(m: Table, lo: nat, end: nat)
    requires Column(m, lo, end) && lo <= end
    ensures |m| == end - lo
    decreases end
  {
    if lo == end {
      assert m == map[];
    } else {
      ColumnSize(Below(m, end - 1), lo, end - 1);
      assert m == Below(m, end - 1)[end - 1 := m[end - 1]];
    }
  }

  // ---- Minimal revert -----------------------------------------------------------------

  ghost predicate HashesIdentify(s: seq<BlockRef>, t: seq<BlockRef>) {
    forall a, b :: a in s && b in t && a.hash == b.hash ==> a == b
  }

  /** Two linked paths to one head agree wherever both reach, when hashes identify their blocks. */
  lemma {:induction false} PathsAgree(s: seq<BlockRef>, t: seq<BlockRef>, d: nat)
    requires Path(s) && Path(t) && Last(s) == Last(t) && HashesIdentify(s, t)
    requires d < |s| && d < |t|
    ensures s[|s| - 1 - d] == t[|t| - 1 - d]
    decreases d
  {
    if d > 0 {
      PathsAgree(s, t, d - 1);
      assert Follows(s, |s| - 1 - d) && Follows(t, |t| - 1 - d);
      assert s[|s| - 1 - d] in s && t[|t| - 1 - d] in t;
    }
  }

  /** No linked path from the known chain to the head leaves a longer part of that chain standing than
      the path the reconciler chose: it reverts as few blocks as any correct reorganisation could. */
  lemma MinimalRevert(w: Window, lo: nat, rd: Reader, k: nat, head: BlockRef, other: seq<BlockRef>)
    requires Shows(w, lo) && !Duplicate(w, head)
    requires OnHead(w, rd, k, head).outcome.Reconciled?
    requires Path(other) && Last(other) == head && other[0].number > 0
    requires other[0].number - 1 in w.known && w.known[other[0].number - 1].hash == other[0].parent
    requires HashesIdentify(OnHead(w, rd, k, head).outcome.canonical, other)
    ensures OnHead(w, rd, k, head).outcome.canonical != []
    ensures other[0].number <= OnHead(w, rd, k, head).outcome.canonical[0].number
  {
    hide WalkBack, Advance, RecordAll, Graft, HasAnyBelow;
    OnHeadShape(w, lo, rd, k, head);
    var path := OnHead(w, rd, k, head).outcome.canonical;
    assert Meets(w, lo, head, path);
    hide OnHead, GenesisSwapped, Duplicate, Rows, Grafted;
    if other[0].number > path[0].number {
      var i := other[0].number - path[0].number;
      assert Last(path).number == path[0].number + |path| - 1 && Last(other).number == other[0].number + |other| - 1;
      assert UnknownTo(w.known, path[i - 1]) by { assert path[i - 1] in path; }
      assert path[i].parent == path[i - 1].hash by { assert Follows(path, i - 1); }
      PathsAgree(path, other, |other| - 1);
    }
  }

  /** The reported blocks: apart from the height-0 fallback, Reverted is exactly the known blocks from the
      fork up, ascending; Canonical is a linked ascending path to the head, attached to the block below the
      fork unless the fork is at or below the lowest known height. */
  lemma ReportedBlocks(w: Window, lo: nat, rd: Reader, k: nat, head: BlockRef)
    requires Shows(w, lo) && !Duplicate(w, head) && !GenesisSwapped(w, rd, k, head)
    requires OnHead(w, rd, k, head).outcome.Reconciled?
    ensures var out := OnHead(w, rd, k, head).outcome;
            && Path(out.canonical) && Last(out.canonical) == head
            && (forall n: nat :: n in w.known ==> (w.known[n] in out.reverted <==> n >= out.canonical[0].number))
            && (forall b :: b in out.reverted ==> b.number in w.known && w.known[b.number] == b)
            && (forall i, j :: 0 <= i < j < |out.reverted| ==> out.reverted[i].number < out.reverted[j].number)
            && (out.canonical[0].number > lo ==>
                out.canonical[0].number - 1 in w.known
                    && w.known[out.canonical[0].number - 1].hash == out.canonical[0].parent)
            && (head.number >= lo ==> out.canonical[0].number >= lo)
  {
    OnHeadShape(w, lo, rd, k, head);
    var out := OnHead(w, rd, k, head).outcome;
    var c := out.canonical[0].number;
    RowsReported(w.known, lo, c, w.tip + 1, out.reverted);
  }

  lemma RowsReported(m: Table, lo: nat, c: nat, end: nat, reverted: seq<BlockRef>)
    requires Column(m, lo, end) && lo <= end && c <= end && (c == 0 ==> lo > 0)
    requires reverted == Rows(m, if c == 0 then 1 else c, end)
    ensures forall n: nat :: n in m ==> (m[n] in reverted <==> n >= c)
    ensures forall b :: b in reverted ==> b.number in m && m[b.number] == b
    ensures forall i, j :: 0 <= i < j < |reverted| ==> reverted[i].number < reverted[j].number
  {
    var a := if c < lo then lo else c;
    RowsFromFloor(m, lo, if c == 0 then 1 else c, end);
    RowsAt(m, lo, a, end, end);
    forall n: nat | n in m && n >= c
      ensures m[n] in reverted
    {
      assert reverted[n - a] == m[n];
    }
  }

  /** What is reverted and what becomes canonical share no block, nor any hash at one height; the tracker
      relies on this when it adds the one before removing the other. */
  lemma ReportedDisjoint(w: Window, lo: nat, rd: Reader, k: nat, head: BlockRef)
    requires Shows(w, lo) && OnHead(w, rd, k, head).outcome.Reconciled?
    ensures var out := OnHead(w, rd, k, head).outcome;
            forall a, b :: a in out.canonical && b in out.reverted && a.number == b.number ==> a.hash != b.hash
  {
    OnHeadShape(w, lo, rd, k, head);
    var out := OnHead(w, rd, k, head).outcome;
    if !Duplicate(w, head) {
      RowsKnown(w.known, if out.canonical[0].number == 0 then 1 else out.canonical[0].number, w.tip + 1);
      forall a, b | a in out.canonical && b in out.reverted && a.number == b.number
        ensures a.hash != b.hash
      {
        assert UnknownTo(w.known, a);
      }
    }
  }

  lemma {:induction false} RowsKnown(m: Table, a: nat, end: nat)
    requires forall n: nat :: n in m ==> m[n].number == n
    ensures forall b :: b in Rows(m, a, end) ==> b.number in m && m[b.number] == b
    decreases end
  {
    if end > a {
      RowsKnown(m, a, end - 1);
    }
  }

  // ---- Reads --------------------------------------------------------------------------

  /** The number of reader calls, on every way a call can end. */
  lemma ReadBound(w: Window, rd: Reader, k: nat, head: BlockRef)
    requires WindowInvariant(w)
    ensures var calls := OnHead(w, rd, k, head).clock - k;
            && (!w.seeded || Duplicate(w, head) ==> calls == 0)
            && (head.number <= w.tip ==> 0 <= calls <= w.depth)
            && (w.seeded && head.number > w.tip ==> 0 <= calls < 2 * (head.number - w.tip) + w.depth)
  {
    if w.seeded && !Duplicate(w, head) {
      var lo: nat :| Shows(w, lo);
      var k' := k;
      if head.number > w.tip {
        AdvanceMeets(w, rd, k, head, []);
        k' := Advance(w, rd, k, head, []).clock;
      }
      assert forall i: nat :: Follows([head], i);
      WalkBackMeets(w, lo, rd, k', head, [head]);
    }
  }

  // ---- Loading from storage -----------------------------------------------------------

  ghost predicate KeyedByNumber(m: Table) {
    forall n: nat :: n in m ==> m[n].number == n
  }

  predicate Continues(m: Table, n: nat) {
    n in m ==> n + 1 in m && m[n + 1].parent == m[n].hash
  }

  /** From height h up to top, no present block lacks a linked successor. */
  ghost predicate Unbroken(m: Table, h: nat, top: nat) {
    forall n: nat :: h <= n < top ==> Continues(m, n)
  }

  lemma {:induction false} UnbrokenUp(m: Table, h: nat, top: nat, n: nat, k: nat)
    requires Unbroken(m, h, top) && h <= n <= k <= top && n in m
    ensures k in m
    decreases k
  {
    if n < k {
      UnbrokenUp(m, h, top, n, k - 1);
      assert Continues(m, k - 1);
    }
  }

  /** Loading the rows of a table files exactly those rows, and the last one becomes the tip. */
  lemma {:induction false} PutAllRows(w: Window, m: Table, lo: nat, end: nat)
    requires w.known == map[] && w.tip == 0 && KeyedByNumber(m)
    ensures var p, rows := PutAll(w, Rows(m, lo, end)), Rows(m, lo, end);
            && p == w.(known := Below(From(m, lo), end), tip := (if rows == [] then 0 else Last(rows).number),
                       seeded := w.seeded || rows != [])
            && (rows != [] ==> Last(rows).number < end)
    decreases end
  {
    hide Rows, PutAll;
    if end > lo {
      var n := end - 1;
      PutAllRows(w, m, lo, n);
      RowsStep(m, lo, n);
      if n in m {
        PutAllSnoc(w, Rows(m, lo, n), m[n]);
        assert Below(From(m, lo), n)[n := m[n]] == Below(From(m, lo), end);
      } else {
        assert Below(From(m, lo), n) == Below(From(m, lo), end);
      }
    } else {
      NothingPut(w, m, lo, end);
      assert Below(From(m, lo), end) == map[];
    }
  }

  lemma PutAllSnoc(w: Window, bs: seq<BlockRef>, b: BlockRef)
    ensures PutAll(w, bs + [b]) == Put(PutAll(w, bs), b)
  {
    assert (bs + [b])[..|bs|] == bs;
  }

  lemma NothingPut(w: Window, m: Table, lo: nat, end: nat)
    requires end <= lo
    ensures Rows(m, lo, end) == [] && PutAll(w, []) == w
  {
  }

  /** Loading blocks in any order: of each height the last one is filed, and the tip is raised to the highest. */
  lemma {:induction false} LoadFiles(w: Window, bs: seq<BlockRef>)
    ensures var p := PutAll(w, bs);
            && p.known == PutBlocks(w.known, bs) && p.depth == w.depth && (p.seeded <==> w.seeded || bs != [])
            && w.tip <= p.tip && (forall b :: b in bs ==> b.number <= p.tip)
            && (p.tip == w.tip || exists b :: b in bs && b.number == p.tip)
    decreases |bs|
  {
    if bs != [] {
      var q := bs[..|bs| - 1];
      LoadFiles(w, q);
      assert Last(bs) in bs && forall b :: b in q ==> b in bs;
      assert forall b :: b in bs ==> b in q || b == Last(bs);
    }
  }

  /** The lowest height kept when rows from min up are loaded and the highest is top. */
  function LoadFloor(depth: nat, min: nat, top: nat): nat {
    if min < Horizon(depth, top) then Horizon(depth, top) else min
  }

  lemma LoadKnownRows(maxDepth: nat, m: Table, min: nat, top: nat)
    requires KeyedByNumber(m) && min <= top && top in m && forall n :: n in m ==> n <= top
    ensures var d := Fresh(maxDepth).depth;
            LoadKnown(Fresh(maxDepth), Rows(m, min, top + 1)) == Window(d, From(m, LoadFloor(d, min, top)), top, true)
  {
    var f, rows := Fresh(maxDepth), Rows(m, min, top + 1);
    PutAllRows(f, m, min, top + 1);
    assert rows == Rows(m, min, top) + [m[top]];
    var p := PutAll(f, rows);
    assert p == Window(f.depth, From(m, min), top, true);
    hide PutAll, Rows;
    assert Prune(p).known == From(m, LoadFloor(f.depth, min, top));
  }

  /** Seeding from stored rows gives a valid window exactly when, among the rows within depth of the
      highest one, none lacks a linked successor. Older rows are dropped and may be anything; a stale row
      left behind by a reorganisation inside that span makes the window invalid. */
  lemma LoadKnownValidIff(maxDepth: nat, m: Table, min: nat, top: nat)
    requires KeyedByNumber(m) && min <= top && top in m && forall n :: n in m ==> n <= top
    ensures var w := LoadKnown(Fresh(maxDepth), Rows(m, min, top + 1));
            && TipKnown(w) && Tip(w) == Some(m[top])
            && (WindowInvariant(w) <==> Unbroken(m, LoadFloor(w.depth, min, top), top))
  {
    LoadKnownRows(maxDepth, m, min, top);
    var w := LoadKnown(Fresh(maxDepth), Rows(m, min, top + 1));
    var h := LoadFloor(w.depth, min, top);
    assert w.known == From(m, h) && w.seeded && w.tip == top && top in w.known && w.known[top] == m[top];
    hide LoadKnown, Rows;
    if WindowInvariant(w) {
      InvariantBoundsWindow(w);
      hide WindowInvariant;
      forall n: nat | h <= n < top
        ensures Continues(m, n)
      {
        if n in m {
          assert n in From(m, h) && n in w.known && n + 1 in w.known;
        }
      }
    }
    if Unbroken(m, h, top) {
      UnbrokenShows(w, m, h);
    }
  }

  lemma UnbrokenShows(w: Window, m: Table, h: nat)
    requires KeyedByNumber(m) && w.seeded && w.known == From(m, h) && w.tip in m && h <= w.tip <= h + w.depth
    requires forall n :: n in m ==> n <= w.tip
    requires Unbroken(m, h, w.tip)
    ensures WindowInvariant(w)
  {
    var lo := w.tip;
    while lo > h && lo - 1 in m
      invariant h <= lo <= w.tip && forall n :: lo <= n <= w.tip ==> n in m
    {
      lo := lo - 1;
    }
    forall n: nat
      ensures n in w.known <==> lo <= n < w.tip + 1
    {
      if h <= n < lo && n in m {
        UnbrokenUp(m, h, w.tip, n, lo - 1);
      }
    }
    forall n: nat
      ensures LinkedAt(w.known, n)
    {
      assert h <= n < w.tip ==> Continues(m, n);
    }
    assert Shows(w, lo);
  }
}

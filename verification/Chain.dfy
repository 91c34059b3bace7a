/** Block references, and a stretch of chain as the height-indexed table the program stores it in. */
module Chain {
  /** A 32-byte hash, as the number its bytes spell in big-endian order. */
  const HASH_LIMIT: nat := 0x1_0000000000000000_0000000000000000_0000000000000000_0000000000000000

  type Hash = h: nat | h < HASH_LIMIT

  datatype Option<+T> = None | Some(value: T)

  datatype BlockRef = BlockRef(number: nat, hash: Hash, parent: Hash)

  type Table = map<nat, BlockRef>

  // ---- Sequences of blocks ------------------------------------------------------------

  function Last(s: seq<BlockRef>): BlockRef
    requires s != []
  {
    s[|s| - 1]
  }

  ghost predicate Contiguous(s: seq<BlockRef>) {
    forall i :: 0 <= i < |s| ==> s[i].number == s[0].number + i
  }

  /** The block after position i names the hash of the block at i as its parent. */
  predicate Follows(s: seq<BlockRef>, i: nat) {
    i + 1 < |s| ==> s[i + 1].parent == s[i].hash
  }

  /** A non-empty run of consecutive heights in which every block names its predecessor's hash. */
  ghost predicate Path(s: seq<BlockRef>) {
    s != [] && Contiguous(s) && forall i: nat :: Follows(s, i)
  }

  // ---- Tables -------------------------------------------------------------------------

  /** m holds one block of each height in [lo, end), filed under its own number, and nothing else. */
  ghost predicate Column(m: Table, lo: nat, end: nat) {
    forall n: nat :: (n in m <==> lo <= n < end) && (n in m ==> m[n].number == n)
  }

  predicate LinkedAt(m: Table, n: nat) {
    n in m && n + 1 in m ==> m[n + 1].parent == m[n].hash
  }

  /** Wherever two adjacent heights are present, the upper block names the lower one's hash. */
  ghost predicate HashLinked(m: Table) {
    forall n: nat :: LinkedAt(m, n)
  }

  function From(m: Table, lo: nat): Table {
    map n | n in m && n >= lo :: m[n]
  }

  function Below(m: Table, end: nat): Table {
    map n | n in m && n < end :: m[n]
  }

  function PutBlocks(m: Table, bs: seq<BlockRef>): Table {
    if bs == [] then m else PutBlocks(m, bs[..|bs| - 1])[Last(bs).number := Last(bs)]
  }

  /** m below the first height of path, and path from there on. */
  function Graft(m: Table, path: seq<BlockRef>): Table
    requires path != []
  {
    PutBlocks(Below(m, path[0].number), path)
  }

  /** The blocks of m at heights lo, ..., end - 1, ascending; heights without a block are skipped. */
  function Rows(m: Table, lo: nat, end: nat): seq<BlockRef>
    decreases end
  {
    if end <= lo then []
    else Rows(m, lo, end - 1) + (if end - 1 in m then [m[end - 1]] else [])
  }

  // ---- Laws of paths ------------------------------------------------------------------

  lemma PrependPath(b: BlockRef, path: seq<BlockRef>)
    requires Path(path) && path[0].number == b.number + 1 && path[0].parent == b.hash
    ensures Path([b] + path) && Last([b] + path) == Last(path)
  {
    var s := [b] + path;
    forall i: nat
      ensures Follows(s, i)
    {
      assert i > 0 ==> Follows(path, i - 1);
    }
  }

  lemma AppendPath(path: seq<BlockRef>, b: BlockRef)
    requires Path(path) && b.number == Last(path).number + 1 && b.parent == Last(path).hash
    ensures Path(path + [b])
  {
    var s := path + [b];
    forall i: nat
      ensures Follows(s, i)
    {
      assert Follows(path, i);
    }
  }

  // ---- Laws of tables -----------------------------------------------------------------

  /** Filing a contiguous run puts its blocks at their own heights and touches no other. */
  lemma {:induction false} PutBlocksAt(m: Table, bs: seq<BlockRef>, n: nat)
    requires Contiguous(bs)
    ensures if bs != [] && bs[0].number <= n < bs[0].number + |bs|
            then n in PutBlocks(m, bs) && PutBlocks(m, bs)[n] == bs[n - bs[0].number]
            else (n in PutBlocks(m, bs) <==> n in m) && (n in m ==> PutBlocks(m, bs)[n] == m[n])
    decreases |bs|
  {
    if bs != [] {
      PutBlocksAt(m, bs[..|bs| - 1], n);
    }
  }

  lemma RowsStep(m: Table, a: nat, b: nat)
    requires a <= b
    ensures b in m ==> Rows(m, a, b + 1) == Rows(m, a, b) + [m[b]]
    ensures b !in m ==> Rows(m, a, b + 1) == Rows(m, a, b)
  {
  }

  lemma {:induction false} RowsAt(m: Table, lo: nat, a: nat, b: nat, end: nat)
    requires Column(m, lo, end) && lo <= a <= b <= end
    ensures |Rows(m, a, b)| == b - a
    ensures forall i :: 0 <= i < b - a ==> Rows(m, a, b)[i] == m[a + i]
    decreases b
  {
    if a < b {
      RowsAt(m, lo, a, b - 1, end);
    }
  }

  lemma {:induction false} RowsSplit(m: Table, a: nat, b: nat, c: nat)
    requires a <= b <= c
    ensures Rows(m, a, c) == Rows(m, a, b) + Rows(m, b, c)
    decreases c
  {
    if b < c {
      RowsSplit(m, a, b, c - 1);
    } else {
      assert Rows(m, b, c) == [];
    }
  }

  /** Rows sees only the heights it covers. */
  lemma {:induction false} RowsAgree(m: Table, m': Table, a: nat, b: nat)
    requires forall n: nat :: a <= n < b ==> (n in m <==> n in m') && (n in m ==> m[n] == m'[n])
    ensures Rows(m, a, b) == Rows(m', a, b)
    decreases b
  {
    if a < b {
      RowsAgree(m, m', a, b - 1);
    }
  }

  lemma {:induction false} RowsEmpty(m: Table, a: nat, b: nat)
    requires forall n: nat :: a <= n < b ==> n !in m
    ensures Rows(m, a, b) == []
    decreases b
  {
    if a < b {
      RowsEmpty(m, a, b - 1);
    }
  }

  /** Heights below the lowest one present contribute no rows. */
  lemma RowsFromFloor(m: Table, lo: nat, a: nat, end: nat)
    requires Column(m, lo, end) && lo <= end
    ensures a <= lo ==> Rows(m, a, end) == Rows(m, lo, end)
  {
    if a <= lo {
      RowsSplit(m, a, lo, end);
      RowsEmpty(m, a, lo);
    }
  }

  /** Reading back the heights a contiguous run was filed under returns the run. */
  lemma {:induction false} RowsOfPut(m: Table, bs: seq<BlockRef>)
    requires bs != [] && Contiguous(bs)
    ensures Rows(PutBlocks(m, bs), bs[0].number, bs[0].number + |bs|) == bs
  {
    RowsOfPutUpTo(m, bs, |bs|);
    assert bs[..|bs|] == bs;
  }

  lemma {:induction false} RowsOfPutUpTo(m: Table, bs: seq<BlockRef>, k: nat)
    requires bs != [] && Contiguous(bs) && k <= |bs|
    ensures Rows(PutBlocks(m, bs), bs[0].number, bs[0].number + k) == bs[..k]
    decreases k
  {
    if k > 0 {
      RowsOfPutUpTo(m, bs, k - 1);
      PutBlocksAt(m, bs, bs[0].number + k - 1);
      hide PutBlocks, Contiguous;
      assert bs[..k] == bs[..k - 1] + [bs[k - 1]];
    }
  }
}

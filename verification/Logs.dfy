/** Fetching the logs of a batch of blocks: heights are grouped greedily into ranges, and the logs of all
    ranges are delivered in one global order. */
module Logs {
  import opened Chain
  import opened Sorting

  datatype Log = Log(blockNumber: nat, index: nat, id: nat)

  datatype Delivery = Delivery(block: BlockRef, log: Log)

  type Range = (nat, nat)

  /** The node's answer to the k-th request, for the logs of a range of heights; None when it fails. */
  type LogClient = (nat, nat, nat) -> Option<seq<Log>>

  ghost predicate InRangeOnly(client: LogClient) {
    forall k: nat, from: nat, to: nat :: client(k, from, to).Some? ==>
      forall l :: l in client(k, from, to).value ==> from <= l.blockNumber <= to
  }

  const DEFAULT_BATCH: nat := 1000

  function BatchOf(configured: int): (size: nat)
    ensures size > 0
  {
    if configured <= 0 then DEFAULT_BATCH else configured
  }

  function Heights(blocks: seq<BlockRef>): seq<nat> {
    if blocks == [] then [] else Heights(blocks[..|blocks| - 1]) + [Last(blocks).number]
  }

  predicate NatLeq(a: nat, b: nat) {
    a <= b
  }

  predicate LogLeq(a: Log, b: Log) {
    a.blockNumber < b.blockNumber || (a.blockNumber == b.blockNumber && a.index <= b.index)
  }

  /** The promised order, spelled out: by block number, and within one block by log index. */
  ghost predicate InOrder(ls: seq<Log>) {
    forall i, j :: 0 <= i < j < |ls| ==>
      ls[i].blockNumber < ls[j].blockNumber || (ls[i].blockNumber == ls[j].blockNumber && ls[i].index <= ls[j].index)
  }

  /** It is the order the logs are sorted by. */
  lemma SortedInOrder(ls: seq<Log>)
    ensures Ordered(LogLeq, ls) <==> InOrder(ls)
  {
    if InOrder(ls) {
      forall i, j | 0 <= i < j < |ls|
        ensures LogLeq(ls[i], ls[j])
      {
      }
    }
    if Ordered(LogLeq, ls) {
      forall i, j | 0 <= i < j < |ls|
        ensures || ls[i].blockNumber < ls[j].blockNumber
                || (ls[i].blockNumber == ls[j].blockNumber && ls[i].index <= ls[j].index)
      {
        assert LogLeq(ls[i], ls[j]);
      }
    }
  }

  // ---- Grouping heights into ranges ---------------------------------------------------

  /** Where the run that starts at index start and has reached end stops. */
  function RunEnd(nums: seq<nat>, start: nat, end: nat, size: nat): (e: nat)
    requires start <= end < |nums|
    ensures end <= e < |nums|
    decreases |nums| - end
  {
    if end + 1 < |nums| && nums[end + 1] == nums[end] + 1 && end - start + 1 < size then
      RunEnd(nums, start, end + 1, size)
    else end
  }

  function Ranges(nums: seq<nat>, i: nat, size: nat): seq<Range>
    decreases |nums| - i
  {
    if i >= |nums| then []
    else
      var e := RunEnd(nums, i, i, size);
      [(nums[i], nums[e])] + Ranges(nums, e + 1, size)
  }

  predicate Inside(r: Range, n: nat) {
    r.0 <= n <= r.1
  }

  ghost predicate StrictlyUp(nums: seq<nat>) {
    forall i, j :: 0 <= i < j < |nums| ==> nums[i] < nums[j]
  }

  lemma {:induction false} RunIsConsecutive(nums: seq<nat>, start: nat, end: nat, size: nat)
    requires start <= end < |nums| && size > 0 && end - start + 1 <= size
    requires forall j :: start <= j <= end ==> nums[j] == nums[start] + (j - start)
    ensures var e := RunEnd(nums, start, end, size);
            && (forall j :: start <= j <= e ==> nums[j] == nums[start] + (j - start))
            && e - start + 1 <= size
            && (e + 1 < |nums| ==> nums[e + 1] != nums[e] + 1 || e - start + 1 == size)
    decreases |nums| - end
  {
    if end + 1 < |nums| && nums[end + 1] == nums[end] + 1 && end - start + 1 < size {
      RunIsConsecutive(nums, start, end + 1, size);
    }
  }

  ghost predicate Ascending(ranges: seq<Range>) {
    forall i, j :: 0 <= i < j < |ranges| ==> ranges[i].1 < ranges[j].0
  }

  predicate CoveredBy(ranges: seq<Range>, n: nat) {
    exists i :: 0 <= i < |ranges| && Inside(ranges[i], n)
  }

  ghost predicate Fits(r: Range, size: nat) {
    r.0 <= r.1 && r.1 - r.0 + 1 <= size
  }

  ghost predicate CoverExactly(ranges: seq<Range>, nums: seq<nat>, i: nat, size: nat) {
    && (forall r :: r in ranges ==> Fits(r, size))
    && (forall n: nat :: CoveredBy(ranges, n) <==> n in nums[if i < |nums| then i else |nums|..])
  }

  /** For distinct sorted heights the ranges asked for are ascending and disjoint, no longer than the batch
      size, and cover exactly the given heights. */
  lemma {:induction false} RangesCover(nums: seq<nat>, i: nat, size: nat)
    requires StrictlyUp(nums) && size > 0 && i <= |nums|
    ensures var rs := Ranges(nums, i, size);
            && CoverExactly(rs, nums, i, size) && Ascending(rs)
            && (forall r :: r in rs ==> i < |nums| && nums[i] <= r.0)
    decreases |nums| - i
  {
    if i < |nums| {
      var e := RunEnd(nums, i, i, size);
      RunIsConsecutive(nums, i, i, size);
      RangesCover(nums, e + 1, size);
      var rest, rs := Ranges(nums, e + 1, size), Ranges(nums, i, size);
      assert rs == [(nums[i], nums[e])] + rest;
      RangesAscend(nums, e, rest, (nums[i], nums[e]));
      forall n: nat
        ensures CoveredBy(rs, n) <==> n in nums[i..]
      {
        CoveredCons((nums[i], nums[e]), rest, n);
        RunMembers(nums, i, e, n);
      }
    } else {
      assert nums[i..] == [];
    }
  }

  lemma CoveredCons(r: Range, rest: seq<Range>, n: nat)
    ensures CoveredBy([r] + rest, n) <==> Inside(r, n) || CoveredBy(rest, n)
  {
    var rs := [r] + rest;
    if Inside(r, n) { assert Inside(rs[0], n); }
    if CoveredBy(rest, n) {
      var i :| 0 <= i < |rest| && Inside(rest[i], n);
      assert Inside(rs[i + 1], n);
    }
    if CoveredBy(rs, n) && !Inside(r, n) {
      var i :| 0 <= i < |rs| && Inside(rs[i], n);
      assert rs[i] == rest[i - 1];
    }
  }

  lemma RunMembers(nums: seq<nat>, i: nat, e: nat, n: nat)
    requires i <= e < |nums| && forall j :: i <= j <= e ==> nums[j] == nums[i] + (j - i)
    ensures n in nums[i..] <==> nums[i] <= n <= nums[e] || n in nums[e + 1..]
  {
    if nums[i] <= n <= nums[e] {
      assert nums[i..][n - nums[i]] == n;
    }
    if n in nums[e + 1..] {
      var j :| 0 <= j < |nums[e + 1..]| && nums[e + 1..][j] == n;
      assert nums[i..][j + e + 1 - i] == n;
    }
    if n in nums[i..] {
      var j :| 0 <= j < |nums[i..]| && nums[i..][j] == n;
      if j + i > e { assert nums[e + 1..][j + i - e - 1] == n; }
    }
  }

  lemma RangesAscend(nums: seq<nat>, e: nat, rest: seq<Range>, r: Range)
    requires StrictlyUp(nums) && e < |nums| && r.1 == nums[e] && Ascending(rest)
    requires forall q :: q in rest ==> e + 1 < |nums| && nums[e + 1] <= q.0
    ensures Ascending([r] + rest)
  {
    var rs := [r] + rest;
    forall i, j | 0 <= i < j < |rs|
      ensures rs[i].1 < rs[j].0
    {
      assert rs[j] == rest[j - 1] && rest[j - 1] in rest;
      if i > 0 { assert rs[i] == rest[i - 1]; }
    }
  }

  /** The ranges are disjoint exactly when the sorted heights are distinct: a repeated height is asked for
      again in a range of its own. */
  lemma DisjointIffDistinct(nums: seq<nat>, size: nat)
    requires Ordered(NatLeq, nums) && size > 0
    ensures Ascending(Ranges(nums, 0, size)) <==> StrictlyUp(nums)
  {
    if StrictlyUp(nums) {
      RangesCover(nums, 0, size);
    } else {
      var i :| 0 <= i < |nums| - 1 && nums[i] == nums[i + 1] by { HasRepeat(nums); }
      RepeatOverlaps(nums, 0, size, i);
    }
  }

  lemma HasRepeat(nums: seq<nat>)
    requires Ordered(NatLeq, nums) && !StrictlyUp(nums)
    ensures exists i :: 0 <= i < |nums| - 1 && nums[i] == nums[i + 1]
  {
    var i, j :| 0 <= i < j < |nums| && nums[i] >= nums[j];
    assert NatLeq(nums[i], nums[i + 1]) && (i + 1 < j ==> NatLeq(nums[i + 1], nums[j])) && NatLeq(nums[i], nums[j]);
  }

  lemma RunStopsAtRepeat(nums: seq<nat>, i: nat, size: nat, k: nat)
    requires size > 0 && i <= k < |nums| - 1 && nums[k] == nums[k + 1]
    ensures RunEnd(nums, i, i, size) <= k
  {
    RunIsConsecutive(nums, i, i, size);
  }

  lemma {:induction false} RepeatOverlaps(nums: seq<nat>, i: nat, size: nat, k: nat)
    requires size > 0 && i <= k < |nums| - 1 && nums[k] == nums[k + 1]
    ensures !Ascending(Ranges(nums, i, size))
    decreases |nums| - i
  {
    var e := RunEnd(nums, i, i, size);
    RunStopsAtRepeat(nums, i, size, k);
    var rest, rs := Ranges(nums, e + 1, size), Ranges(nums, i, size);
    if e < k {
      RepeatOverlaps(nums, e + 1, size, k);
      var a, b :| 0 <= a < b < |rest| && rest[a].1 >= rest[b].0;
      assert rs[a + 1] == rest[a] && rs[b + 1] == rest[b];
    } else {
      assert rest[0].0 == nums[k + 1];
      assert rs[0] == (nums[i], nums[k]) && rs[1] == rest[0];
    }
  }

  // ---- No grouping uses fewer ranges --------------------------------------------------

  /** A range of given heights that starts no later than a greedy run's start stops within the run's reach:
      it cannot also hold a later greedy start. */
  lemma StaysBelow(nums: seq<nat>, i: nat, size: nat, r: Range)
    requires StrictlyUp(nums) && size > 0 && Fits(r, size)
    requires forall n: nat :: Inside(r, n) ==> n in nums
    requires i < |nums| && Inside(r, nums[i])
    ensures var e := RunEnd(nums, i, i, size); e + 1 < |nums| ==> r.1 < nums[e + 1]
  {
    var e := RunEnd(nums, i, i, size);
    RunIsConsecutive(nums, i, i, size);
    if e + 1 < |nums| && nums[e + 1] != nums[e] + 1 {
      NotAHeight(nums, e);
      assert !Inside(r, nums[e] + 1);
    }
  }

  lemma NotAHeight(nums: seq<nat>, e: nat)
    requires StrictlyUp(nums) && e + 1 < |nums| && nums[e + 1] != nums[e] + 1
    ensures nums[e] + 1 !in nums && nums[e] + 1 < nums[e + 1]
  {
    assert nums[e] < nums[e + 1];
    forall j | 0 <= j < |nums|
      ensures nums[j] != nums[e] + 1
    {
      assert j < e ==> nums[j] < nums[e];
      assert j > e + 1 ==> nums[e + 1] < nums[j];
    }
  }

  /** A range that fits and asks only for given heights holds the start of at most one greedy range. */
  lemma {:induction false} OneStart(nums: seq<nat>, i: nat, size: nat, r: Range, a: nat, b: nat)
    requires StrictlyUp(nums) && size > 0 && i <= |nums| && Fits(r, size)
    requires forall n: nat :: Inside(r, n) ==> n in nums
    requires a < b < |Ranges(nums, i, size)|
    ensures !(Inside(r, Ranges(nums, i, size)[a].0) && Inside(r, Ranges(nums, i, size)[b].0))
    decreases |nums| - i
  {
    var e := RunEnd(nums, i, i, size);
    var rest := Ranges(nums, e + 1, size);
    if a > 0 {
      OneStart(nums, e + 1, size, r, a - 1, b - 1);
    } else if Inside(r, nums[i]) {
      StaysBelow(nums, i, size, r);
      RangesCover(nums, e + 1, size);
      assert rest[b - 1] in rest;
    }
  }

  function Starts(ranges: seq<Range>): seq<nat> {
    seq(|ranges|, i requires 0 <= i < |ranges| => ranges[i].0)
  }

  /** Distinct heights, each in some range and no two in one range, are no more than the ranges. */
  lemma {:induction false} Pigeonhole(starts: seq<nat>, ranges: seq<Range>)
    requires forall i :: 0 <= i < |starts| ==> CoveredBy(ranges, starts[i])
    requires forall k, i, j :: 0 <= k < |ranges| && 0 <= i < j < |starts| ==>
        !(Inside(ranges[k], starts[i]) && Inside(ranges[k], starts[j]))
    ensures |starts| <= |ranges|
    decreases |starts|
  {
    if starts != [] {
      var last, before := |starts| - 1, starts[..|starts| - 1];
      var k :| 0 <= k < |ranges| && Inside(ranges[k], starts[last]);
      var others := ranges[..k] + ranges[k + 1..];
      forall i | 0 <= i < |before|
        ensures CoveredBy(others, before[i])
      {
        assert CoveredBy(ranges, starts[i]);
        var m :| 0 <= m < |ranges| && Inside(ranges[m], starts[i]);
        assert m != k;
        assert others[if m < k then m else m - 1] == ranges[m];
      }
      forall m, i, j | 0 <= m < |others| && 0 <= i < j < |before|
        ensures !(Inside(others[m], before[i]) && Inside(others[m], before[j]))
      {
        assert others[m] == ranges[if m < k then m else m + 1];
      }
      Pigeonhole(before, others);
    }
  }

  /** Optimality: any set of ranges that fit the batch size and together ask for exactly the given heights
      - in any order, overlapping or not - has at least as many ranges as the greedy grouping. */
  lemma GreedyIsOptimal(nums: seq<nat>, size: nat, other: seq<Range>)
    requires StrictlyUp(nums) && size > 0 && CoverExactly(other, nums, 0, size)
    ensures |Ranges(nums, 0, size)| <= |other|
  {
    RangesCover(nums, 0, size);
    var rs := Ranges(nums, 0, size);
    var starts := Starts(rs);
    assert nums[0..] == nums;
    forall i | 0 <= i < |starts|
      ensures CoveredBy(other, starts[i])
    {
      assert rs[i] in rs && Fits(rs[i], size);
      assert Inside(rs[i], starts[i]);
      assert CoveredBy(rs, starts[i]);
    }
    forall k, i, j | 0 <= k < |other| && 0 <= i < j < |starts|
      ensures !(Inside(other[k], starts[i]) && Inside(other[k], starts[j]))
    {
      assert other[k] in other;
      forall n: nat | Inside(other[k], n)
        ensures n in nums
      {
        assert CoveredBy(other, n);
      }
      OneStart(nums, 0, size, other[k], i, j);
    }
    Pigeonhole(starts, other);
  }

  // ---- Delivering the logs ------------------------------------------------------------

  /** Each log with the batch's block of its height; a log of any other height is skipped. */
  function Attach(table: Table, ls: seq<Log>): seq<Delivery> {
    if ls == [] then []
    else
      var l := ls[|ls| - 1];
      Attach(table, ls[..|ls| - 1]) + (if l.blockNumber in table then [Delivery(table[l.blockNumber], l)] else [])
  }

  function Fetched(table: Table, client: LogClient, k: nat, r: Range): seq<Delivery> {
    match client(k, r.0, r.1)
    case None => []
    case Some(ls) => Attach(table, Sort(LogLeq, ls))
  }

  function FetchAll(table: Table, client: LogClient, k: nat, ranges: seq<Range>): seq<Delivery>
    decreases |ranges|
  {
    if ranges == [] then [] else Fetched(table, client, k, ranges[0]) + FetchAll(table, client, k + 1, ranges[1..])
  }

  /** What the node returned for the k-th request. */
  function Answer(client: LogClient, k: nat, r: Range): multiset<Log> {
    match client(k, r.0, r.1)
    case None => multiset{}
    case Some(ls) => multiset(ls)
  }

  function Returned(client: LogClient, k: nat, ranges: seq<Range>): multiset<Log>
    decreases |ranges|
  {
    if ranges == [] then multiset{} else Answer(client, k, ranges[0]) + Returned(client, k + 1, ranges[1..])
  }

  function LogsOf(ds: seq<Delivery>): seq<Log> {
    if ds == [] then [] else LogsOf(ds[..|ds| - 1]) + [ds[|ds| - 1].log]
  }

  lemma {:induction false} LogsAt(ds: seq<Delivery>)
    ensures |LogsOf(ds)| == |ds|
    ensures forall i :: 0 <= i < |ds| ==> LogsOf(ds)[i] == ds[i].log
    decreases |ds|
  {
    if ds != [] {
      LogsAt(ds[..|ds| - 1]);
    }
  }

  lemma LogsOfSnoc(ds: seq<Delivery>, d: Delivery)
    ensures LogsOf(ds + [d]) == LogsOf(ds) + [d.log]
  {
    assert (ds + [d])[..|ds|] == ds;
  }

  lemma LogOrder()
    ensures TotalPreorder(LogLeq)
  {
  }

  ghost predicate Placed(ds: seq<Delivery>, table: Table) {
    forall d :: d in ds ==> d.log.blockNumber in table && d.block == table[d.log.blockNumber]
  }

  lemma {:induction false} AttachAll(table: Table, ls: seq<Log>)
    requires forall l :: l in ls ==> l.blockNumber in table
    ensures LogsOf(Attach(table, ls)) == ls && Placed(Attach(table, ls), table)
    decreases |ls|
  {
    hide Attach, LogsOf;
    if ls == [] {
      AttachNone(table);
    } else {
      var q, l := ls[..|ls| - 1], ls[|ls| - 1];
      assert l in ls && forall x :: x in q ==> x in ls;
      AttachAll(table, q);
      AttachSnoc(table, q, l);
      assert ls == q + [l];
    }
  }

  lemma AttachNone(table: Table)
    ensures LogsOf(Attach(table, [])) == [] && Placed(Attach(table, []), table)
  {
  }

  lemma AttachSnoc(table: Table, q: seq<Log>, l: Log)
    requires l.blockNumber in table && LogsOf(Attach(table, q)) == q && Placed(Attach(table, q), table)
    ensures LogsOf(Attach(table, q + [l])) == q + [l] && Placed(Attach(table, q + [l]), table)
  {
    var d := Delivery(table[l.blockNumber], l);
    assert (q + [l])[..|q|] == q;
    assert Attach(table, q + [l]) == Attach(table, q) + [d];
    LogsOfSnoc(Attach(table, q), d);
  }

  ghost predicate Between(from: nat, ls: seq<Log>, to: nat) {
    forall l :: l in ls ==> from <= l.blockNumber <= to
  }

  lemma FetchedWell(table: Table, client: LogClient, k: nat, r: Range)
    requires InRangeOnly(client) && forall n: nat :: Inside(r, n) ==> n in table
    ensures var ds := Fetched(table, client, k, r);
            && Placed(ds, table) && Ordered(LogLeq, LogsOf(ds)) && Between(r.0, LogsOf(ds), r.1)
            && multiset(LogsOf(ds)) == Answer(client, k, r)
  {
    hide Attach, Sort, LogsOf;
    match client(k, r.0, r.1)
    case None =>
      LogsAt([]);
    case Some(ls) =>
      var sorted := Sort(LogLeq, ls);
      LogOrder();
      SortOrders(LogLeq, ls);
      SortPermutes(LogLeq, ls);
      forall l | l in sorted
        ensures l.blockNumber in table && Inside(r, l.blockNumber)
      {
        assert l in multiset(sorted);
        assert l in ls;
      }
      AttachAll(table, sorted);
  }

  lemma {:induction false} LogsOfConcat(a: seq<Delivery>, b: seq<Delivery>)
    ensures LogsOf(a + b) == LogsOf(a) + LogsOf(b)
  {
    LogsAt(a);
    LogsAt(b);
    LogsAt(a + b);
  }

  lemma OrderedConcat(a: seq<Log>, b: seq<Log>, from: nat, mid: nat, to: nat)
    requires Ordered(LogLeq, a) && Ordered(LogLeq, b)
    requires Between(from, a, mid) && Between(mid + 1, b, to)
    ensures Ordered(LogLeq, a + b)
  {
    forall i, j | 0 <= i < j < |a + b|
      ensures LogLeq((a + b)[i], (a + b)[j])
    {
      if j < |a| {
        assert LogLeq(a[i], a[j]);
      } else if i >= |a| {
        assert LogLeq(b[i - |a|], b[j - |a|]);
      } else {
        assert a[i] in a && b[j - |a|] in b;
      }
    }
  }

  ghost predicate RangesWithin(ranges: seq<Range>, table: Table, from: nat, to: nat) {
    forall r :: r in ranges ==> from <= r.0 <= r.1 <= to && forall n: nat :: Inside(r, n) ==> n in table
  }

  /** Ordered exactly-once delivery for ascending ranges, whatever the node answers inside each. */
  lemma {:induction false} FetchAllWell(table: Table, client: LogClient, k: nat, ranges: seq<Range>, from: nat, to: nat)
    requires InRangeOnly(client) && Ascending(ranges) && RangesWithin(ranges, table, from, to)
    ensures var ds := FetchAll(table, client, k, ranges);
            && Placed(ds, table) && Ordered(LogLeq, LogsOf(ds)) && Between(from, LogsOf(ds), to)
            && multiset(LogsOf(ds)) == Returned(client, k, ranges)
    decreases |ranges|
  {
    hide Fetched, LogsOf, Ordered, Answer;
    if ranges == [] {
      LogsAt([]);
      assert LogsOf([]) == [];
      EmptyOrdered();
    } else {
      var r, rest := ranges[0], ranges[1..];
      assert r in ranges;
      FetchedWell(table, client, k, r);
      AscendingRest(ranges, table, from, to);
      FetchAllWell(table, client, k + 1, rest, r.1 + 1, to);
      var a, b := Fetched(table, client, k, r), FetchAll(table, client, k + 1, rest);
      LogsOfConcat(a, b);
      OrderedConcat(LogsOf(a), LogsOf(b), r.0, r.1, to);
    }
  }

  lemma EmptyOrdered()
    ensures Ordered(LogLeq, [])
  {
  }

  lemma AscendingRest(ranges: seq<Range>, table: Table, from: nat, to: nat)
    requires ranges != [] && Ascending(ranges) && RangesWithin(ranges, table, from, to)
    ensures Ascending(ranges[1..]) && RangesWithin(ranges[1..], table, ranges[0].1 + 1, to)
  {
    var rest := ranges[1..];
    forall q | q in rest
      ensures ranges[0].1 < q.0
    {
      var i :| 0 <= i < |rest| && rest[i] == q;
      assert ranges[i + 1] == q;
    }
  }

  // ---- One request, whatever the node answers -----------------------------------------

  lemma {:induction false} AttachCounts(table: Table, ls: seq<Log>, l: Log)
    ensures multiset(LogsOf(Attach(table, ls)))[l] == if l.blockNumber in table then multiset(ls)[l] else 0
    ensures forall x :: x in LogsOf(Attach(table, ls)) ==> x in ls
    decreases |ls|
  {
    hide Attach, LogsOf;
    if ls == [] {
      AttachNone(table);
    } else {
      var q, x := ls[..|ls| - 1], ls[|ls| - 1];
      AttachCounts(table, q, l);
      SnocMultiset(ls);
      AttachStep(table, q, x);
      assert ls == q + [x] && forall y :: y in q ==> y in ls;
      assert x in ls;
    }
  }

  lemma AttachStep(table: Table, q: seq<Log>, x: Log)
    ensures LogsOf(Attach(table, q + [x])) ==
            if x.blockNumber in table then LogsOf(Attach(table, q)) + [x] else LogsOf(Attach(table, q))
  {
    hide LogsOf;
    assert (q + [x])[..|q|] == q;
    if x.blockNumber in table {
      LogsOfSnoc(Attach(table, q), Delivery(table[x.blockNumber], x));
    } else {
      assert Attach(table, q + [x]) == Attach(table, q) + [];
      assert Attach(table, q) + [] == Attach(table, q);
    }
  }

  lemma {:induction false} AttachPlaces(table: Table, ls: seq<Log>)
    ensures Placed(Attach(table, ls), table)
    decreases |ls|
  {
    if ls != [] {
      AttachPlaces(table, ls[..|ls| - 1]);
    }
  }

  lemma {:induction false} AttachOrdered(table: Table, ls: seq<Log>)
    requires Ordered(LogLeq, ls)
    ensures Ordered(LogLeq, LogsOf(Attach(table, ls)))
    decreases |ls|
  {
    if ls == [] {
      AttachNone(table);
    } else {
      var q, x := ls[..|ls| - 1], ls[|ls| - 1];
      AttachOrdered(table, q);
      AttachStep(table, q, x);
      assert ls == q + [x];
      AttachCounts(table, q, x);
      OrderedSnoc(q, LogsOf(Attach(table, q)), x);
    }
  }

  lemma OrderedSnoc(q: seq<Log>, kept: seq<Log>, x: Log)
    requires Ordered(LogLeq, q + [x]) && Ordered(LogLeq, kept) && forall y :: y in kept ==> y in q
    ensures Ordered(LogLeq, kept + [x])
  {
    forall i | 0 <= i < |kept|
      ensures LogLeq(kept[i], x)
    {
      assert kept[i] in q;
      var j :| 0 <= j < |q| && q[j] == kept[i];
      assert LogLeq((q + [x])[j], (q + [x])[|q|]);
    }
  }

  /** Whatever the node answers to one request, in range or not: the logs of the batch's heights are delivered, in
      order, each as often as it was returned and with the batch's block of its height; the others are skipped;
      and a request that fails delivers nothing. */
  lemma RequestDelivers(table: Table, client: LogClient, k: nat, r: Range)
    ensures var ds := Fetched(table, client, k, r);
            && Placed(ds, table) && InOrder(LogsOf(ds))
            && forall l :: multiset(LogsOf(ds))[l] == if l.blockNumber in table then Answer(client, k, r)[l] else 0
  {
    hide Attach, Sort, LogsOf, Ordered, InOrder;
    match client(k, r.0, r.1)
    case None =>
      LogsAt([]);
      EmptyOrdered();
      assert LogsOf([]) == [];
      SortedInOrder([]);
    case Some(ls) =>
      var sorted := Sort(LogLeq, ls);
      LogOrder();
      SortOrders(LogLeq, ls);
      SortPermutes(LogLeq, ls);
      AttachPlaces(table, sorted);
      AttachOrdered(table, sorted);
      SortedInOrder(LogsOf(Attach(table, sorted)));
      forall l
        ensures multiset(LogsOf(Attach(table, sorted)))[l] == if l.blockNumber in table then multiset(ls)[l] else 0
      {
        AttachCounts(table, sorted, l);
      }
  }

  /** A failing request does not keep the others' logs from being delivered. */
  lemma {:induction false} EachAnswerDelivered(table: Table, client: LogClient, k: nat, ranges: seq<Range>, i: nat)
    requires i < |ranges|
    ensures multiset(LogsOf(Fetched(table, client, k + i, ranges[i])))
         <= multiset(LogsOf(FetchAll(table, client, k, ranges)))
    decreases |ranges|
  {
    hide Fetched, LogsOf;
    LogsOfConcat(Fetched(table, client, k, ranges[0]), FetchAll(table, client, k + 1, ranges[1..]));
    if i > 0 {
      EachAnswerDelivered(table, client, k + 1, ranges[1..], i - 1);
    }
  }

  // ---- One batch ----------------------------------------------------------------------

  ghost predicate DistinctHeights(blocks: seq<BlockRef>) {
    forall i, j :: 0 <= i < j < |blocks| ==> blocks[i].number != blocks[j].number
  }

  lemma {:induction false} HeightsAt(blocks: seq<BlockRef>)
    ensures |Heights(blocks)| == |blocks|
    ensures forall i :: 0 <= i < |blocks| ==> Heights(blocks)[i] == blocks[i].number
    decreases |blocks|
  {
    if blocks != [] {
      HeightsAt(blocks[..|blocks| - 1]);
    }
  }

  /** The map built from the batch holds, of each height, a block of the batch; the sorted heights are the
      map's keys. */
  lemma {:induction false} BatchTable(blocks: seq<BlockRef>)
    ensures var table := PutBlocks(map[], blocks);
            && (forall n: nat :: n in table <==> n in Heights(blocks))
            && (forall n: nat :: n in table ==> table[n] in blocks && table[n].number == n)
    decreases |blocks|
  {
    if blocks != [] {
      var q, b := blocks[..|blocks| - 1], Last(blocks);
      BatchTable(q);
      assert forall x :: x in q ==> x in blocks;
      assert b in blocks;
    }
  }

  lemma {:induction false} UniqueOccurrences(nums: seq<nat>)
    requires forall i, j :: 0 <= i < j < |nums| ==> nums[i] != nums[j]
    ensures forall n :: multiset(nums)[n] <= 1
    decreases |nums|
  {
    if nums != [] {
      var q, x := nums[..|nums| - 1], nums[|nums| - 1];
      UniqueOccurrences(q);
      SnocMultiset(nums);
      assert x !in q;
      assert multiset(q)[x] == 0;
    }
  }

  lemma RepeatsTwice(nums: seq<nat>, i: nat, j: nat)
    requires i < j < |nums| && nums[i] == nums[j]
    ensures multiset(nums)[nums[i]] >= 2
  {
    var a, b := nums[..j], nums[j..];
    assert nums == a + b;
    assert a[i] == nums[i] && a[i] in a && b[0] == nums[j] && b[0] in b;
    assert multiset(nums) == multiset(a) + multiset(b);
  }

  /** Sorting distinct heights gives strictly ascending ones. */
  lemma SortedHeights(blocks: seq<BlockRef>)
    ensures var nums := Sort(NatLeq, Heights(blocks));
            && Ordered(NatLeq, nums)
            && (StrictlyUp(nums) <==> DistinctHeights(blocks))
            && (forall n: nat :: n in nums <==> n in Heights(blocks))
  {
    var hs := Heights(blocks);
    var nums := Sort(NatLeq, hs);
    NatOrder();
    SortOrders(NatLeq, hs);
    SortPermutes(NatLeq, hs);
    HeightsAt(blocks);
    forall n: nat
      ensures n in nums <==> n in hs
    {
      assert n in multiset(nums) <==> n in multiset(hs);
    }
    if DistinctHeights(blocks) {
      UniqueOccurrences(hs);
      StrictIfUnique(nums);
    }
    if StrictlyUp(nums) {
      UniqueOccurrences(nums);
      DistinctIfUnique(hs);
    }
  }

  lemma NatOrder()
    ensures TotalPreorder(NatLeq)
  {
  }

  lemma StrictIfUnique(nums: seq<nat>)
    requires Ordered(NatLeq, nums) && forall n :: multiset(nums)[n] <= 1
    ensures StrictlyUp(nums)
  {
    forall i, j | 0 <= i < j < |nums|
      ensures nums[i] < nums[j]
    {
      assert NatLeq(nums[i], nums[j]);
      if nums[i] == nums[j] { RepeatsTwice(nums, i, j); }
    }
  }

  lemma DistinctIfUnique(nums: seq<nat>)
    requires forall n :: multiset(nums)[n] <= 1
    ensures forall i, j :: 0 <= i < j < |nums| ==> nums[i] != nums[j]
  {
    forall i, j | 0 <= i < j < |nums|
      ensures nums[i] != nums[j]
    {
      if nums[i] == nums[j] { RepeatsTwice(nums, i, j); }
    }
  }

  /** The requests of a batch, and what it delivers. */
  function Requests(configured: int, blocks: seq<BlockRef>): seq<Range> {
    Ranges(Sort(NatLeq, Heights(blocks)), 0, BatchOf(configured))
  }

  function BatchDeliveries(configured: int, client: LogClient, k: nat, blocks: seq<BlockRef>): seq<Delivery> {
    FetchAll(PutBlocks(map[], blocks), client, k, Requests(configured, blocks))
  }

  /** Optimal batching: a batch of distinct heights, in any order, is fetched with ascending disjoint
      requests, none longer than the batch size, that ask for exactly the batch's heights; no set of such
      requests is smaller. */
  lemma OptimalBatching(configured: int, blocks: seq<BlockRef>, other: seq<Range>)
    requires DistinctHeights(blocks) && CoverExactly(other, Sort(NatLeq, Heights(blocks)), 0, BatchOf(configured))
    ensures var rs := Requests(configured, blocks);
            && Ascending(rs) && CoverExactly(rs, Sort(NatLeq, Heights(blocks)), 0, BatchOf(configured))
            && |rs| <= |other|
  {
    SortedHeights(blocks);
    RangesCover(Sort(NatLeq, Heights(blocks)), 0, BatchOf(configured));
    GreedyIsOptimal(Sort(NatLeq, Heights(blocks)), BatchOf(configured), other);
  }

  /** The requests of a batch of distinct heights hold at most the configured number of heights each, and at most
      1000 when none is configured. */
  lemma RequestsFit(configured: int, blocks: seq<BlockRef>, other: seq<Range>)
    requires DistinctHeights(blocks)
    requires CoverExactly(other, Sort(NatLeq, Heights(blocks)), 0, if configured <= 0 then 1000 else configured)
    ensures var rs := Requests(configured, blocks);
            && |rs| <= |other|
            && forall r :: r in rs ==> r.0 <= r.1 && r.1 - r.0 + 1 <= (if configured <= 0 then 1000 else configured)
  {
    OptimalBatching(configured, blocks, other);
  }

  /** Ordered exactly-once delivery: when the node returns only logs of the range asked, a batch of distinct
      heights delivers, in non-decreasing (height, index) order across all its requests, each returned log
      once per time it was returned, and each with the batch's block of its height. */
  lemma OrderedExactlyOnce(configured: int, client: LogClient, k: nat, blocks: seq<BlockRef>)
    requires InRangeOnly(client) && DistinctHeights(blocks)
    ensures var ds := BatchDeliveries(configured, client, k, blocks);
            && InOrder(LogsOf(ds))
            && multiset(LogsOf(ds)) == Returned(client, k, Requests(configured, blocks))
            && forall d :: d in ds ==> d.block in blocks && d.block.number == d.log.blockNumber
  {
    hide FetchAll, Ranges, Sort, LogsOf, Ordered, Returned, InOrder;
    var nums, size, table := Sort(NatLeq, Heights(blocks)), BatchOf(configured), PutBlocks(map[], blocks);
    SortedHeights(blocks);
    RangesCover(nums, 0, size);
    BatchTable(blocks);
    var to := if nums == [] then 0 else nums[|nums| - 1];
    CoveredWithin(Ranges(nums, 0, size), nums, size, table);
    FetchAllWell(table, client, k, Ranges(nums, 0, size), 0, to);
    SortedInOrder(LogsOf(BatchDeliveries(configured, client, k, blocks)));
    forall d | d in BatchDeliveries(configured, client, k, blocks)
      ensures d.block in blocks && d.block.number == d.log.blockNumber
    {
      assert d.log.blockNumber in table && d.block == table[d.log.blockNumber];
    }
  }

  lemma CoveredWithin(ranges: seq<Range>, nums: seq<nat>, size: nat, table: Table)
    requires StrictlyUp(nums) && CoverExactly(ranges, nums, 0, size)
    requires forall n: nat :: n in table <==> n in nums
    ensures RangesWithin(ranges, table, 0, if nums == [] then 0 else nums[|nums| - 1])
  {
    forall r, n: nat | r in ranges && Inside(r, n)
      ensures n in nums && n <= nums[|nums| - 1]
    {
      var i :| 0 <= i < |ranges| && ranges[i] == r;
      assert Inside(ranges[i], n);
      assert CoveredBy(ranges, n);
      assert nums[0..] == nums;
    }
    forall r | r in ranges
      ensures nums != [] && r.0 <= r.1 <= nums[|nums| - 1]
    {
      assert Fits(r, size);
      assert Inside(r, r.1);
    }
  }

  /** The tracker emits contiguous batches, and their heights are distinct. */
  lemma ContiguousIsDistinct(blocks: seq<BlockRef>)
    requires Contiguous(blocks)
    ensures DistinctHeights(blocks)
  {
  }

  // ---- Only distinct heights are delivered in order -----------------------------------

  /** How many of the ranges contain height n. */
  function Hits(ranges: seq<Range>, n: nat): nat {
    if ranges == [] then 0 else (if Inside(ranges[0], n) then 1 else 0) + Hits(ranges[1..], n)
  }

  /** A repeated height is asked for at least twice. */
  lemma {:induction false} RepeatHitTwice(nums: seq<nat>, i: nat, size: nat, k: nat)
    requires size > 0 && i <= k < |nums| - 1 && nums[k] == nums[k + 1]
    ensures Hits(Ranges(nums, i, size), nums[k]) >= 2
    decreases |nums| - i
  {
    var e := RunEnd(nums, i, i, size);
    RunStopsAtRepeat(nums, i, size, k);
    RunIsConsecutive(nums, i, i, size);
    var rest, rs := Ranges(nums, e + 1, size), Ranges(nums, i, size);
    assert rs[1..] == rest;
    if e < k {
      RepeatHitTwice(nums, e + 1, size, k);
    } else {
      RunIsConsecutive(nums, k + 1, k + 1, size);
      assert Inside(rs[0], nums[k]) && Inside(rest[0], nums[k]);
    }
  }

  /** The node that has two logs at height n, one after the other, and none elsewhere. */
  function TwoLogs(n: nat): LogClient {
    (k: nat, from: nat, to: nat) => Some(if from <= n <= to then [Log(n, 0, 0), Log(n, 1, 1)] else [])
  }

  function Pairs(n: nat, count: nat): seq<Log> {
    if count == 0 then [] else [Log(n, 0, 0), Log(n, 1, 1)] + Pairs(n, count - 1)
  }

  lemma TwoAttached(table: Table, n: nat, k: nat, r: Range)
    requires n in table
    ensures LogsOf(Fetched(table, TwoLogs(n), k, r)) == if Inside(r, n) then Pairs(n, 1) else []
  {
    hide Sort, Attach, LogsOf, Pairs;
    OnePair(n);
    if Inside(r, n) {
      SortKeepsOrdered(LogLeq, Pairs(n, 1));
      AttachAll(table, Pairs(n, 1));
    } else {
      SortKeepsOrdered(LogLeq, []);
      AttachNone(table);
    }
  }

  lemma OnePair(n: nat)
    ensures Pairs(n, 1) == [Log(n, 0, 0), Log(n, 1, 1)] && Pairs(n, 0) == []
  {
  }

  /** Each range that contains n delivers the two logs again. */
  lemma {:induction false} PairPerHit(table: Table, n: nat, k: nat, ranges: seq<Range>)
    requires n in table
    ensures LogsOf(FetchAll(table, TwoLogs(n), k, ranges)) == Pairs(n, Hits(ranges, n))
    decreases |ranges|
  {
    hide Fetched, LogsOf;
    if ranges == [] {
      LogsAt([]);
      assert LogsOf([]) == [];
    } else {
      TwoAttached(table, n, k, ranges[0]);
      PairPerHit(table, n, k + 1, ranges[1..]);
      LogsOfConcat(Fetched(table, TwoLogs(n), k, ranges[0]), FetchAll(table, TwoLogs(n), k + 1, ranges[1..]));
      assert Pairs(n, 0) == [];
    }
  }

  lemma PairsNotOrdered(n: nat, count: nat)
    requires count >= 2
    ensures !Ordered(LogLeq, Pairs(n, count))
  {
    assert Pairs(n, count) == [Log(n, 0, 0), Log(n, 1, 1)] + ([Log(n, 0, 0), Log(n, 1, 1)] + Pairs(n, count - 2));
    assert !LogLeq(Pairs(n, count)[1], Pairs(n, count)[2]);
  }

  lemma RepeatedHeight(blocks: seq<BlockRef>) returns (k: nat)
    requires !DistinctHeights(blocks)
    ensures var nums := Sort(NatLeq, Heights(blocks));
            k < |nums| - 1 && nums[k] == nums[k + 1] && nums[k] in PutBlocks(map[], blocks)
  {
    hide Sort, Heights, PutBlocks, DistinctHeights, StrictlyUp;
    var nums := Sort(NatLeq, Heights(blocks));
    SortedHeights(blocks);
    HasRepeat(nums);
    k :| 0 <= k < |nums| - 1 && nums[k] == nums[k + 1];
    BatchTable(blocks);
    assert nums[k] in nums;
  }

  lemma RepeatOutOfOrder(configured: int, blocks: seq<BlockRef>) returns (n: nat)
    requires !DistinctHeights(blocks)
    ensures InRangeOnly(TwoLogs(n))
    ensures !Ordered(LogLeq, LogsOf(BatchDeliveries(configured, TwoLogs(n), 0, blocks)))
  {
    hide Sort, Ranges, FetchAll, Heights, LogsOf, Ordered, Pairs, PutBlocks, Hits;
    var k := RepeatedHeight(blocks);
    var nums := Sort(NatLeq, Heights(blocks));
    n := nums[k];
    RepeatHitTwice(nums, 0, BatchOf(configured), k);
    PairPerHit(PutBlocks(map[], blocks), n, 0, Requests(configured, blocks));
    PairsNotOrdered(n, Hits(Requests(configured, blocks), n));
  }

  ghost predicate AlwaysInOrder(configured: int, blocks: seq<BlockRef>) {
    forall client: LogClient, k: nat :: InRangeOnly(client) ==>
      InOrder(LogsOf(BatchDeliveries(configured, client, k, blocks)))
  }

  /** Exactly: a batch is delivered in (height, index) order from every node that keeps to the asked range if
      and only if its heights are distinct, at any batch size. */
  lemma OrderedIffDistinct(configured: int, blocks: seq<BlockRef>)
    ensures AlwaysInOrder(configured, blocks) <==> DistinctHeights(blocks)
  {
    hide BatchDeliveries, LogsOf, Ordered, InOrder;
    if DistinctHeights(blocks) {
      forall client: LogClient, k: nat | InRangeOnly(client)
        ensures InOrder(LogsOf(BatchDeliveries(configured, client, k, blocks)))
      {
        OrderedExactlyOnce(configured, client, k, blocks);
      }
    } else {
      var n := RepeatOutOfOrder(configured, blocks);
      SortedInOrder(LogsOf(BatchDeliveries(configured, TwoLogs(n), 0, blocks)));
    }
  }

  lemma FetchNothing(table: Table, client: LogClient, k: nat, nums: seq<nat>, size: nat)
    ensures Ranges(nums, |nums|, size) == [] && FetchAll(table, client, k, []) == []
  {
  }

  // ---- The fetcher --------------------------------------------------------------------

  class LogFetcher {
    const client: LogClient
    const batchSize: int
    /** How many requests the node has had, which it had, and what the callback was called with. */
    var calls: nat
    var asked: seq<Range>
    var delivered: seq<Delivery>

    constructor (client: LogClient, batchSize: int)
      ensures this.client == client && this.batchSize == batchSize
      ensures calls == 0 && asked == [] && delivered == []
    {
      this.client, this.batchSize := client, batchSize;
      calls, asked, delivered := 0, [], [];
    }

    method FetchRange(from: nat, to: nat, byNumber: Table)
      modifies this
      ensures calls == old(calls) + 1 && asked == old(asked) + [(from, to)]
      ensures delivered == old(delivered) + Fetched(byNumber, client, old(calls), (from, to))
    {
      var answer := client(calls, from, to);
      calls, asked := calls + 1, asked + [(from, to)];
      if answer.None? {
        return;
      }
      var logs := Sort(LogLeq, answer.value);
      for i := 0 to |logs|
        invariant calls == old(calls) + 1 && asked == old(asked) + [(from, to)]
        invariant delivered == old(delivered) + Attach(byNumber, logs[..i])
      {
        assert logs[..i + 1][..i] == logs[..i];
        if logs[i].blockNumber in byNumber {
          delivered := delivered + [Delivery(byNumber[logs[i].blockNumber], logs[i])];
        }
      }
      assert logs[..|logs|] == logs;
    }

    /** One batch makes exactly the greedy requests, in order, and delivers exactly what they bring; an
        empty batch asks for nothing. */
    method OnCanonicalBatch(blocks: seq<BlockRef>)
      modifies this
      ensures asked == old(asked) + Requests(batchSize, blocks)
      ensures delivered == old(delivered) + BatchDeliveries(batchSize, client, old(calls), blocks)
      ensures calls == old(calls) + |Requests(batchSize, blocks)|
    {
      if blocks == [] {
        return;
      }
      var byNumber: Table, nums: seq<nat> := map[], [];
      for i := 0 to |blocks|
        invariant byNumber == PutBlocks(map[], blocks[..i]) && nums == Heights(blocks[..i])
      {
        assert blocks[..i + 1][..i] == blocks[..i];
        byNumber := byNumber[blocks[i].number := blocks[i]];
        nums := nums + [blocks[i].number];
      }
      assert blocks[..|blocks|] == blocks;
      nums := Sort(NatLeq, nums);
      var size := if batchSize <= 0 then DEFAULT_BATCH else batchSize;
      FetchRuns(nums, size, byNumber);
    }

    method FetchRuns(nums: seq<nat>, size: nat, byNumber: Table)
      modifies this
      ensures asked == old(asked) + Ranges(nums, 0, size)
      ensures delivered == old(delivered) + FetchAll(byNumber, client, old(calls), Ranges(nums, 0, size))
      ensures calls == old(calls) + |Ranges(nums, 0, size)|
    {
      hide Fetched, FetchAll, Ranges;
      var i := 0;
      ghost var all := Ranges(nums, 0, size);
      while i < |nums|
        invariant i <= |nums|
        invariant asked + Ranges(nums, i, size) == old(asked) + all
        invariant delivered + FetchAll(byNumber, client, calls, Ranges(nums, i, size))
               == old(delivered) + FetchAll(byNumber, client, old(calls), all)
        invariant calls + |Ranges(nums, i, size)| == old(calls) + |all|
      {
        var start, end := i, i;
        while end + 1 < |nums| && nums[end + 1] == nums[end] + 1 && end - start + 1 < size
          invariant start <= end < |nums| && RunEnd(nums, start, end, size) == RunEnd(nums, start, start, size)
          decreases |nums| - end
        {
          end := end + 1;
        }
        FetchAllStep(byNumber, client, calls, nums, i, size);
        FetchRange(nums[start], nums[end], byNumber);
        i := end + 1;
      }
      FetchNothing(byNumber, client, calls, nums, size);
    }
  }

  lemma FetchAllStep(table: Table, client: LogClient, k: nat, nums: seq<nat>, i: nat, size: nat)
    requires i < |nums|
    ensures var e := RunEnd(nums, i, i, size);
            && Ranges(nums, i, size) == [(nums[i], nums[e])] + Ranges(nums, e + 1, size)
            && FetchAll(table, client, k, Ranges(nums, i, size))
            == Fetched(table, client, k, (nums[i], nums[e])) + FetchAll(table, client, k + 1, Ranges(nums, e + 1, size))
  {
    var e := RunEnd(nums, i, i, size);
    assert ([(nums[i], nums[e])] + Ranges(nums, e + 1, size))[1..] == Ranges(nums, e + 1, size);
  }
}

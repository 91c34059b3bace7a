/** What one poll of the head tracker computes, as a function of its state. */
module Track {
  import opened Chain
  import opened Reconcile
  import opened Sorting
  import opened Stream

  /** The tracker: its reconciler, the canonical blocks not yet emitted, and its rows in the store. */
  datatype Tracker = Tracker(window: Window, pending: seq<BlockRef>, confirmDepth: nat, rows: Table,
      cursor: Option<BlockRef>)

  datatype PollResult =
    | Polled(reverted: seq<BlockRef>, emitted: seq<BlockRef>)
    | HeadFailed
    | ReconcileFailed(error: Error)

  datatype PollStep = PollStep(result: PollResult, tracker: Tracker, clock: nat)

  function Start(maxDepth: nat, confirmDepth: nat): Tracker {
    Tracker(Fresh(maxDepth), [], confirmDepth, map[], None)
  }

  /** Heights up to the threshold are confirmed; height 0 always is. */
  function Threshold(height: nat, confirmDepth: nat): nat {
    if height > confirmDepth then height - confirmDepth else 0
  }

  predicate Matches(p: BlockRef, r: BlockRef) {
    p.number == r.number && p.hash == r.hash
  }

  predicate Holds(pending: seq<BlockRef>, r: BlockRef) {
    exists i :: 0 <= i < |pending| && Matches(pending[i], r)
  }

  /** pending without its first block matching r. */
  function DropFirst(pending: seq<BlockRef>, r: BlockRef): seq<BlockRef> {
    if pending == [] then []
    else if Matches(pending[0], r) then pending[1..]
    else [pending[0]] + DropFirst(pending[1..], r)
  }

  datatype Dropped = Dropped(pending: seq<BlockRef>, notified: seq<BlockRef>)

  /** Each reverted block leaves pending if it is there; the others were emitted, so they are notified. */
  function DropReverted(pending: seq<BlockRef>, reverted: seq<BlockRef>): Dropped {
    if reverted == [] then Dropped(pending, [])
    else
      var d, r := DropReverted(pending, reverted[..|reverted| - 1]), Last(reverted);
      if Holds(d.pending, r) then d.(pending := DropFirst(d.pending, r)) else d.(notified := d.notified + [r])
  }

  function UpTo(bs: seq<BlockRef>, threshold: nat): seq<BlockRef> {
    if bs == [] then []
    else UpTo(bs[..|bs| - 1], threshold) + (if Last(bs).number <= threshold then [Last(bs)] else [])
  }

  function Above(bs: seq<BlockRef>, threshold: nat): seq<BlockRef> {
    if bs == [] then []
    else Above(bs[..|bs| - 1], threshold) + (if Last(bs).number > threshold then [Last(bs)] else [])
  }

  predicate NumberLeq(a: BlockRef, b: BlockRef) {
    a.number <= b.number
  }

  /** The end of a poll whose reconciliation succeeded. */
  function Settle(t: Tracker, head: BlockRef, window: Window, out: Outcome): (Tracker, PollResult)
    requires out.Reconciled?
  {
    var d := DropReverted(t.pending + out.canonical, out.reverted);
    var threshold := Threshold(head.number, t.confirmDepth);
    var emit := Sort(NumberLeq, UpTo(d.pending, threshold));
    (Tracker(window, Above(d.pending, threshold), t.confirmDepth, PutBlocks(t.rows, emit),
             if emit == [] then t.cursor else Some(Last(emit))),
     Polled(d.notified, emit))
  }

  function PollOnce(t: Tracker, reply: Reply, rd: Reader, k: nat): PollStep
    requires TipKnown(t.window)
  {
    if reply.Failed? then PollStep(HeadFailed, t, k)
    else
      var s := OnHead(t.window, rd, k, reply.block);
      if s.outcome.Failure? then PollStep(ReconcileFailed(s.outcome.error), t.(window := s.window), s.clock)
      else
        var (t', result) := Settle(t, reply.block, s.window, s.outcome);
        PollStep(result, t', s.clock)
  }

  /** What the consumer downstream sees of one poll: reversals first, then the confirmed blocks. */
  function Downstream(result: PollResult): seq<Event> {
    if result.Polled? then Reverts(result.reverted) + Announces(result.emitted) else []
  }

  const RELOAD_DEPTH: nat := 256

  /** The lowest row reloaded after a restart. */
  function ReloadFloor(cursor: BlockRef): nat {
    if cursor.number > RELOAD_DEPTH then cursor.number - RELOAD_DEPTH else 0
  }

  /** A height above every row. */
  ghost function EndOf(m: Table): nat {
    if m == map[] then 0 else TopKey(m.Keys) + 1
  }

  ghost function TopKey(keys: set<nat>): (top: nat)
    requires keys != {}
    ensures top in keys && forall k :: k in keys ==> k <= top
  {
    HasTopKey(keys);
    var k :| IsTop(keys, k);
    k
  }

  lemma HasTopKey(keys: set<nat>)
    requires keys != {}
    ensures exists k :: IsTop(keys, k)
  {
    var k := FindTop(keys);
  }

  ghost predicate IsTop(keys: set<nat>, k: nat) {
    k in keys && forall j :: j in keys ==> j <= k
  }

  lemma {:induction false} FindTop(keys: set<nat>) returns (top: nat)
    requires keys != {}
    ensures IsTop(keys, top)
    decreases keys
  {
    var k :| k in keys;
    var rest := keys - {k};
    top := k;
    if rest != {} {
      var other := FindTop(rest);
      if other > k { top := other; }
    }
    assert forall i :: i in keys ==> i == k || i in rest;
  }

  lemma EndOfIs(m: Table, end: nat)
    requires forall n :: n in m ==> n < end
    requires end > 0 ==> end - 1 in m
    ensures EndOf(m) == end
  {
  }

  ghost function SeedFromStorage(t: Tracker): Tracker {
    if t.cursor.None? then t
    else t.(window := LoadKnown(t.window, Rows(t.rows, ReloadFloor(t.cursor.value), EndOf(t.rows))))
  }

  /** A new process over the same rows and cursor: an empty buffer and a window loaded from storage. */
  ghost function Restart(t: Tracker, maxDepth: nat): Tracker {
    SeedFromStorage(Tracker(Fresh(maxDepth), [], t.confirmDepth, t.rows, t.cursor))
  }
}

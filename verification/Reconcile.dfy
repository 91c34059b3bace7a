/** What one call of the reconciler computes, as a function of its fields, the reader's answers and
    the new head. The reader is an oracle: its answer may depend on the call's sequence number, so
    two calls for one height may disagree. Only the height of an answer is trusted. */
module Reconcile {
  import opened Chain

  datatype Reply = Served(block: BlockRef) | Failed

  ghost predicate Honest(f: (nat, nat) -> Reply) {
    forall k, n :: f(k, n).Served? ==> f(k, n).block.number == n
  }

  type Reader = f: (nat, nat) -> Reply | Honest(f) ghost witness (k: nat, n: nat) => Failed

  datatype Error = CatchUpFailed(height: nat) | WalkFailed(height: nat) | ChainShifted(height: nat)

  datatype Outcome =
    | Reconciled(canonical: seq<BlockRef>, reverted: seq<BlockRef>)
    | Failure(error: Error)

  /** The reconciler's fields. */
  datatype Window = Window(depth: nat, known: Table, tip: nat, seeded: bool)

  datatype Step = Step(outcome: Outcome, window: Window, clock: nat)

  const DEFAULT_DEPTH: nat := 256

  function Fresh(maxDepth: nat): Window {
    Window(if maxDepth == 0 then DEFAULT_DEPTH else maxDepth, map[], 0, false)
  }

  /** What every state of the reconciler satisfies, whatever it was fed. */
  ghost predicate TipKnown(w: Window) {
    if w.seeded then w.tip in w.known else w.known == map[] && w.tip == 0
  }

  function Tip(w: Window): Option<BlockRef>
    requires TipKnown(w)
  {
    if w.seeded then Some(w.known[w.tip]) else None
  }

  function Put(w: Window, b: BlockRef): Window {
    w.(known := w.known[b.number := b], tip := if b.number > w.tip then b.number else w.tip, seeded := true)
  }

  function Prune(w: Window): Window {
    if w.tip <= w.depth then w
    else w.(known := map n | n in w.known && n >= w.tip - w.depth :: w.known[n])
  }

  function PutAll(w: Window, bs: seq<BlockRef>): Window {
    if bs == [] then w else Put(PutAll(w, bs[..|bs| - 1]), Last(bs))
  }

  function LoadKnown(w: Window, bs: seq<BlockRef>): Window {
    Prune(PutAll(w, bs))
  }

  function Record(w: Window, b: BlockRef): Window {
    Prune(Put(w, b))
  }

  function RecordAll(w: Window, bs: seq<BlockRef>): Window {
    if bs == [] then w else Record(RecordAll(w, bs[..|bs| - 1]), Last(bs))
  }

  predicate HasAnyBelow(known: Table, n: nat) {
    exists k :: k in known && k < n
  }

  // ---- Catching up over a gap ---------------------------------------------------------

  datatype CatchUp = Extends(fetched: seq<BlockRef>, clock: nat) | Broken(clock: nat) | Unread(height: nat, clock: nat)

  /** The forward loop, with the blocks accepted so far. */
  function Advance(w: Window, rd: Reader, k: nat, head: BlockRef, fetched: seq<BlockRef>): CatchUp
    requires w.tip in w.known && w.tip + |fetched| < head.number
    decreases head.number - |fetched|
  {
    var n := w.tip + |fetched| + 1;
    var reply := if n == head.number then Served(head) else rd(k, n);
    var k' := if n == head.number then k else k + 1;
    var prev := if fetched == [] then w.known[w.tip] else Last(fetched);
    if reply.Failed? then Unread(n, k')
    else if reply.block.parent != prev.hash then Broken(k')
    else if n == head.number then Extends(fetched + [head], k')
    else Advance(w, rd, k', head, fetched + [reply.block])
  }

  // ---- Walking back to a common ancestor ----------------------------------------------

  datatype Walk =
    | Stopped(ancestor: nat, found: bool, path: seq<BlockRef>, clock: nat)
    | Unfetched(height: nat, clock: nat)
    | Shifted(height: nat, clock: nat)

  /** The walk-back loop; path is ascending, so its first block is the cursor. */
  function WalkBack(w: Window, rd: Reader, k: nat, path: seq<BlockRef>): Walk
    requires path != []
    decreases path[0].number
  {
    var cursor := path[0];
    if cursor.number == 0 then Stopped(0, false, path, k)
    else
      var p := cursor.number - 1;
      if p in w.known && w.known[p].hash == cursor.parent then Stopped(p, true, path, k)
      else if p !in w.known && p < w.tip && !HasAnyBelow(w.known, p + 1) then Stopped(p, true, path, k)
      else
        match rd(k, p)
        case Failed => Unfetched(p, k + 1)
        case Served(got) =>
          if got.hash != cursor.parent then Shifted(p, k + 1) else WalkBack(w, rd, k + 1, [got] + path)
  }

  /** The window after the blocks above the ancestor are dropped and the tip is moved there. */
  function CutTo(w: Window, ancestor: nat): Window {
    w.(known := map n | n in w.known && !(ancestor < n <= w.tip) :: w.known[n], tip := ancestor)
  }

  function HandleReorg(w: Window, rd: Reader, k: nat, head: BlockRef): Step {
    match WalkBack(w, rd, k, [head])
    case Unfetched(n, k') => Step(Failure(WalkFailed(n)), w, k')
    case Shifted(n, k') => Step(Failure(ChainShifted(n)), w, k')
    case Stopped(ancestor, _, path, k') =>
      Step(Reconciled(path, Rows(w.known, ancestor + 1, w.tip + 1)), RecordAll(CutTo(w, ancestor), path), k')
  }

  function ApplyForward(w: Window, rd: Reader, k: nat, head: BlockRef): Step
    requires w.tip in w.known && w.tip < head.number
  {
    match Advance(w, rd, k, head, [])
    case Unread(n, k') => Step(Failure(CatchUpFailed(n)), w, k')
    case Broken(k') => HandleReorg(w, rd, k', head)
    case Extends(fetched, k') => Step(Reconciled(fetched, []), RecordAll(w, fetched), k')
  }

  predicate Duplicate(w: Window, head: BlockRef) {
    head.number in w.known && w.known[head.number].hash == head.hash
  }

  function OnHead(w: Window, rd: Reader, k: nat, head: BlockRef): Step
    requires TipKnown(w)
  {
    if !w.seeded then Step(Reconciled([head], []), Record(w, head), k)
    else if Duplicate(w, head) then Step(Reconciled([], []), w, k)
    else if head.number > w.tip then ApplyForward(w, rd, k, head)
    else HandleReorg(w, rd, k, head)
  }

  /** The walk-back OnHead performs for this head, if it performs one. */
  function WalkFor(w: Window, rd: Reader, k: nat, head: BlockRef): Option<Walk>
    requires TipKnown(w)
  {
    if !w.seeded || Duplicate(w, head) then None
    else if head.number <= w.tip then Some(WalkBack(w, rd, k, [head]))
    else
      match Advance(w, rd, k, head, [])
      case Broken(k') => Some(WalkBack(w, rd, k', [head]))
      case _ => None
  }

  /** The head's ancestry reaches height 0 without meeting the known chain, and a block is known there. */
  predicate GenesisSwapped(w: Window, rd: Reader, k: nat, head: BlockRef)
    requires TipKnown(w)
  {
    var walk := WalkFor(w, rd, k, head);
    0 in w.known && walk.Some? && walk.value.Stopped? && !walk.value.found
  }
}

/** The safe and finalized loops running beside the polls: each advances a watermark and reads the rows it
    passed over. Every store write, every advance and every read is a step of its own, so any of them may
    fall between two writes of one poll. */
module Watermarks {
  import ReorgLaws
  import Sorting
  import TrackRuns
  import opened Chain
  import opened Reconcile
  import opened Storage
  import opened Stream
  import opened Track

  datatype Kind = Safe | Finalized

  /** A watermark, and the range it has advanced over but not read yet. */
  datatype Mark = Mark(tip: nat, seeded: bool, asked: Option<(nat, nat)>)

  datatype Fact =
    | Wrote(block: BlockRef)
    | Seeded(kind: Kind, height: nat)
    | Asked(kind: Kind, from: nat, to: nat)
    | Delivered(kind: Kind, blocks: seq<BlockRef>)

  /** The tracker between writes: queue is what the current poll has still to store, cursor where it will end. */
  datatype System = System(tracker: Tracker, queue: seq<BlockRef>, safe: Mark, finalized: Mark, history: seq<Fact>)

  datatype Step =
    | Poll(reply: Reply, reader: Reader, clock: nat)
    | Write
    | AdvanceMark(kind: Kind, reply: Reply)
    | Read(kind: Kind, ok: bool)

  const NO_MARK := Mark(0, false, None)

  function Launch(maxDepth: nat, confirmDepth: nat): System {
    System(Start(maxDepth, confirmDepth), [], NO_MARK, NO_MARK, [])
  }

  function MarkOf(s: System, kind: Kind): Mark {
    if kind.Safe? then s.safe else s.finalized
  }

  function WithMark(s: System, kind: Kind, m: Mark): System {
    if kind.Safe? then s.(safe := m) else s.(finalized := m)
  }

  function Note(s: System, f: Fact): System {
    s.(history := s.history + [f])
  }

  /** A poll up to its writes; they follow as steps. */
  function BeginPoll(s: System, reply: Reply, rd: Reader, k: nat): System
    requires TipKnown(s.tracker.window)
  {
    var p := PollOnce(s.tracker, reply, rd, k);
    if !p.result.Polled? then s.(tracker := p.tracker)
    else s.(tracker := p.tracker.(rows := s.tracker.rows, cursor := s.tracker.cursor), queue := p.result.emitted)
  }

  function WriteNext(s: System): System
    requires s.queue != []
  {
    var b, rest := s.queue[0], s.queue[1..];
    var t := s.tracker.(rows := s.tracker.rows[b.number := b],
                        cursor := if rest == [] then Some(b) else s.tracker.cursor);
    Note(s.(tracker := t, queue := rest), Wrote(b))
  }

  function Advanced(s: System, kind: Kind, reply: Reply): System {
    var m := MarkOf(s, kind);
    if reply.Failed? then s
    else
      var n := reply.block.number;
      if !m.seeded then Note(WithMark(s, kind, Mark(n, true, None)), Seeded(kind, n))
      else if n <= m.tip then s
      else Note(WithMark(s, kind, Mark(n, true, Some((m.tip + 1, n)))), Asked(kind, m.tip + 1, n))
  }

  /** The read of a range; when it fails the range is lost. An empty one calls nobody. */
  function ReadRange(s: System, kind: Kind, ok: bool): System
    requires MarkOf(s, kind).asked.Some?
  {
    var m := MarkOf(s, kind);
    var (from, to) := m.asked.value;
    var blocks := Rows(s.tracker.rows, from, to + 1);
    var s' := WithMark(s, kind, m.(asked := None));
    if ok && blocks != [] then Note(s', Delivered(kind, blocks)) else s'
  }

  /** One step; a step that its loop could not take now does nothing. */
  function Next(s: System, step: Step): (s': System)
    requires TipKnown(s.tracker.window)
    ensures TipKnown(s'.tracker.window)
  {
    match step
    case Poll(reply, rd, k) =>
      TrackRuns.PollKeepsTip(s.tracker, reply, rd, k);
      if s.queue == [] then BeginPoll(s, reply, rd, k) else s
    case Write => if s.queue == [] then s else WriteNext(s)
    case AdvanceMark(kind, reply) => if MarkOf(s, kind).asked.None? then Advanced(s, kind, reply) else s
    case Read(kind, ok) => if MarkOf(s, kind).asked.Some? then ReadRange(s, kind, ok) else s
  }

  function Run(s: System, steps: seq<Step>): (s': System)
    requires TipKnown(s.tracker.window)
    ensures TipKnown(s'.tracker.window)
  {
    if steps == [] then s else Next(Run(s, steps[..|steps| - 1]), steps[|steps| - 1])
  }

  // ---- Drained, a poll is a poll ------------------------------------------------------

  function Drain(s: System): System
    decreases |s.queue|
  {
    if s.queue == [] then s else Drain(WriteNext(s))
  }

  lemma {:induction false} PutBlocksFront(m: Table, b: BlockRef, bs: seq<BlockRef>)
    ensures PutBlocks(m, [b] + bs) == PutBlocks(m[b.number := b], bs)
    decreases |bs|
  {
    if bs == [] {
      assert [b] + bs == [b] && [b][..0] == [];
    } else {
      assert ([b] + bs)[..|bs|] == [b] + bs[..|bs| - 1];
      PutBlocksFront(m, b, bs[..|bs| - 1]);
    }
  }

  lemma {:induction false} DrainWrites(s: System)
    ensures Drain(s).tracker == s.tracker.(rows := PutBlocks(s.tracker.rows, s.queue),
                                           cursor := if s.queue == [] then s.tracker.cursor else Some(Last(s.queue)))
    ensures Drain(s).queue == []
    decreases |s.queue|
  {
    if s.queue != [] {
      DrainWrites(WriteNext(s));
      assert s.queue == [s.queue[0]] + s.queue[1..];
      PutBlocksFront(s.tracker.rows, s.queue[0], s.queue[1..]);
    }
  }

  /** Once its writes are done, a poll taken in steps has left the tracker as the poll in one go does. */
  lemma StepwisePollIsPoll(s: System, reply: Reply, rd: Reader, k: nat)
    requires TipKnown(s.tracker.window) && s.queue == []
    ensures Drain(BeginPoll(s, reply, rd, k)).tracker == PollOnce(s.tracker, reply, rd, k).tracker
  {
    hide DropReverted, UpTo, Above, Sorting.Sort, OnHead, PutBlocks;
    DrainWrites(BeginPoll(s, reply, rd, k));
  }

  // ---- What the history says ----------------------------------------------------------

  /** The rows as the writes in the history leave them. */
  function Written(h: seq<Fact>): Table {
    if h == [] then map[]
    else
      var m := Written(h[..|h| - 1]);
      if h[|h| - 1].Wrote? then m[h[|h| - 1].block.number := h[|h| - 1].block] else m
  }

  /** The watermark the history gives a kind: its seed, then the end of the last range asked. None before
      the seed; and BadMark if a range does not start right after the previous one, or is empty. */
  datatype Trace = Unseeded | At(height: nat) | BadMark

  function TraceOf(h: seq<Fact>, kind: Kind): Trace {
    if h == [] then Unseeded
    else
      var before, f := TraceOf(h[..|h| - 1], kind), h[|h| - 1];
      match f
      case Seeded(k, n) => if k != kind then before else if before.Unseeded? then At(n) else BadMark
      case Asked(k, from, to) =>
        if k != kind then before else if before.At? && from == before.height + 1 && from <= to then At(to) else BadMark
      case _ => before
  }

  /** How many of a kind's asked ranges contain height n. */
  function AskedAt(h: seq<Fact>, kind: Kind, n: nat): nat {
    if h == [] then 0
    else
      var f := h[|h| - 1];
      AskedAt(h[..|h| - 1], kind, n) + (if f.Asked? && f.kind == kind && f.from <= n <= f.to then 1 else 0)
  }

  function SeedOf(h: seq<Fact>, kind: Kind): Option<nat> {
    if h == [] then None
    else
      var before, f := SeedOf(h[..|h| - 1], kind), h[|h| - 1];
      if before.None? && f.Seeded? && f.kind == kind then Some(f.height) else before
  }

  /** Everything delivered to a kind's callback, in order. */
  function Deliveries(h: seq<Fact>, kind: Kind): seq<BlockRef> {
    if h == [] then []
    else
      var before, f := Deliveries(h[..|h| - 1], kind), h[|h| - 1];
      if f.Delivered? && f.kind == kind then before + f.blocks else before
  }

  lemma HistorySnoc(h: seq<Fact>, f: Fact, kind: Kind)
    ensures Written(h + [f]) == if f.Wrote? then Written(h)[f.block.number := f.block] else Written(h)
    ensures TraceOf(h + [f], kind) ==
            match f
            case Seeded(k, n) =>
              if k != kind then TraceOf(h, kind) else if TraceOf(h, kind).Unseeded? then At(n) else BadMark
            case Asked(k, from, to) =>
              if k != kind then TraceOf(h, kind)
              else if TraceOf(h, kind).At? && from == TraceOf(h, kind).height + 1 && from <= to then At(to) else BadMark
            case _ => TraceOf(h, kind)
    ensures Deliveries(h + [f], kind) ==
            if f.Delivered? && f.kind == kind then Deliveries(h, kind) + f.blocks else Deliveries(h, kind)
  {
    assert (h + [f])[..|h|] == h;
  }

  /** If the trace is sound, its ranges tile the heights above the seed up to the watermark: each height
      there was asked for exactly once, and no other was asked for at all. */
  lemma {:induction false} TraceTiles(h: seq<Fact>, kind: Kind, n: nat)
    requires !TraceOf(h, kind).BadMark?
    ensures TraceOf(h, kind).At? <==> SeedOf(h, kind).Some?
    ensures TraceOf(h, kind).At? ==> SeedOf(h, kind).value <= TraceOf(h, kind).height
    ensures AskedAt(h, kind, n) ==
            if TraceOf(h, kind).At? && SeedOf(h, kind).value < n <= TraceOf(h, kind).height then 1 else 0
    decreases |h|
  {
    if h != [] {
      TraceTiles(h[..|h| - 1], kind, n);
    }
  }

  ghost predicate Rising(bs: seq<BlockRef>, floor: nat, end: nat) {
    && (forall i, j :: 0 <= i < j < |bs| ==> bs[i].number < bs[j].number)
    && (forall i :: 0 <= i < |bs| ==> floor < bs[i].number < end)
  }

  /** The delivery at index i of the history was read from the rows as they were written so far. */
  ghost predicate ReadTrue(h: seq<Fact>, i: nat) {
    i < |h| && h[i].Delivered? ==> forall b :: b in h[i].blocks ==> IsLive(Written(h[..i]), b)
  }

  /** What every reachable state satisfies for one kind. */
  ghost predicate Watched(s: System, kind: Kind) {
    var m, t := MarkOf(s, kind), TraceOf(s.history, kind);
    && t == (if m.seeded then At(m.tip) else Unseeded)
    && (m.asked.Some? ==> m.seeded && 0 < m.asked.value.0 <= m.asked.value.1 == m.tip)
    && Rising(Deliveries(s.history, kind), SeedHeight(s.history, kind),
              if m.asked.Some? then m.asked.value.0 else if m.seeded then m.tip + 1 else 0)
    && (m.asked.Some? ==> SeedHeight(s.history, kind) < m.asked.value.0)
    && (m.seeded ==> SeedHeight(s.history, kind) <= m.tip)
  }

  function SeedHeight(h: seq<Fact>, kind: Kind): nat {
    if SeedOf(h, kind).Some? then SeedOf(h, kind).value else 0
  }

  ghost predicate Sane(s: System) {
    && TipKnown(s.tracker.window)
    && s.tracker.rows == Written(s.history)
    && ReorgLaws.KeyedByNumber(s.tracker.rows)
    && Watched(s, Safe) && Watched(s, Finalized)
    && forall i: nat :: ReadTrue(s.history, i)
  }

  lemma LaunchSane(maxDepth: nat, confirmDepth: nat)
    ensures Sane(Launch(maxDepth, confirmDepth))
  {
  }

  lemma ReadTrueSnoc(h: seq<Fact>, f: Fact)
    requires forall i: nat :: ReadTrue(h, i)
    requires f.Delivered? ==> forall b :: b in f.blocks ==> IsLive(Written(h), b)
    ensures forall i: nat :: ReadTrue(h + [f], i)
  {
    forall i: nat
      ensures ReadTrue(h + [f], i)
    {
      if i < |h| {
        assert ReadTrue(h, i) && (h + [f])[..i] == h[..i];
      } else if i == |h| {
        assert (h + [f])[..i] == h;
      }
    }
  }

  lemma SeedSnoc(h: seq<Fact>, f: Fact, kind: Kind)
    ensures SeedOf(h + [f], kind) ==
            if SeedOf(h, kind).None? && f.Seeded? && f.kind == kind then Some(f.height) else SeedOf(h, kind)
  {
    assert (h + [f])[..|h|] == h;
  }

  lemma RowsRise(m: Table, a: nat, b: nat)
    requires ReorgLaws.KeyedByNumber(m)
    ensures forall i, j :: 0 <= i < j < |Rows(m, a, b)| ==> Rows(m, a, b)[i].number < Rows(m, a, b)[j].number
    ensures forall x :: x in Rows(m, a, b) ==> a <= x.number < b && IsLive(m, x)
    decreases b
  {
    if a < b {
      RowsRise(m, a, b - 1);
    }
  }

  lemma WriteSane(s: System)
    requires Sane(s) && s.queue != []
    ensures Sane(WriteNext(s))
  {
    hide Written, TraceOf, Deliveries, SeedOf, Rising;
    var f := Wrote(s.queue[0]);
    HistorySnoc(s.history, f, Safe);
    HistorySnoc(s.history, f, Finalized);
    SeedSnoc(s.history, f, Safe);
    SeedSnoc(s.history, f, Finalized);
    ReadTrueSnoc(s.history, f);
  }

  /** A step of one kind's loop leaves the other kind's record alone. */
  lemma OtherWatched(s: System, s': System, f: Fact, kind: Kind)
    requires Watched(s, kind) && s'.history == s.history + [f] && MarkOf(s', kind) == MarkOf(s, kind)
    requires f.Wrote? || f.kind != kind
    ensures Watched(s', kind)
  {
    hide Written, TraceOf, Deliveries, SeedOf, Rising;
    HistorySnoc(s.history, f, kind);
    SeedSnoc(s.history, f, kind);
  }

  function Other(kind: Kind): Kind {
    if kind.Safe? then Finalized else Safe
  }

  lemma AdvanceSane(s: System, kind: Kind, reply: Reply)
    requires Sane(s) && MarkOf(s, kind).asked.None?
    ensures Sane(Advanced(s, kind, reply))
  {
    hide Written, TraceOf, Deliveries, SeedOf;
    var s' := Advanced(s, kind, reply);
    if s' != s {
      var f := s'.history[|s.history|];
      assert s'.history == s.history + [f];
      HistorySnoc(s.history, f, kind);
      SeedSnoc(s.history, f, kind);
      SeededMark(s, kind);
      OtherWatched(s, s', f, Other(kind));
      ReadTrueSnoc(s.history, f);
    }
  }

  lemma SeededMark(s: System, kind: Kind)
    requires Watched(s, kind)
    ensures SeedOf(s.history, kind).Some? <==> MarkOf(s, kind).seeded
    ensures !MarkOf(s, kind).seeded ==> Deliveries(s.history, kind) == []
  {
    TraceTiles(s.history, kind, 0);
    if !MarkOf(s, kind).seeded {
      RisingFirst(Deliveries(s.history, kind), SeedHeight(s.history, kind), 0);
    }
  }

  lemma RisingFirst(bs: seq<BlockRef>, floor: nat, end: nat)
    requires Rising(bs, floor, end)
    ensures bs != [] ==> floor < bs[0].number < end
  {
  }

  /** A delivery extends its kind's record. */
  lemma ReadWatched(s: System, kind: Kind, blocks: seq<BlockRef>)
    requires Watched(s, kind) && ReorgLaws.KeyedByNumber(s.tracker.rows) && MarkOf(s, kind).asked.Some?
    requires blocks == Rows(s.tracker.rows, MarkOf(s, kind).asked.value.0, MarkOf(s, kind).asked.value.1 + 1)
    ensures var s' := WithMark(s, kind, MarkOf(s, kind).(asked := None));
            Watched(Note(s', Delivered(kind, blocks)), kind) && Watched(s', kind)
  {
    hide Written, TraceOf, Deliveries, SeedOf, Rows;
    var (from, to) := MarkOf(s, kind).asked.value;
    RowsRise(s.tracker.rows, from, to + 1);
    HistorySnoc(s.history, Delivered(kind, blocks), kind);
    SeedSnoc(s.history, Delivered(kind, blocks), kind);
    RisingConcat(Deliveries(s.history, kind), blocks, SeedHeight(s.history, kind), from, to + 1);
  }

  lemma ReadSane(s: System, kind: Kind, ok: bool)
    requires Sane(s) && MarkOf(s, kind).asked.Some?
    ensures Sane(ReadRange(s, kind, ok))
  {
    hide Written, TraceOf, Deliveries, SeedOf, Rows, Rising;
    var (from, to) := MarkOf(s, kind).asked.value;
    var blocks := Rows(s.tracker.rows, from, to + 1);
    ReadWatched(s, kind, blocks);
    if ok && blocks != [] {
      var f := Delivered(kind, blocks);
      RowsRise(s.tracker.rows, from, to + 1);
      HistorySnoc(s.history, f, kind);
      OtherWatched(s, ReadRange(s, kind, ok), f, Other(kind));
      ReadTrueSnoc(s.history, f);
    }
  }

  lemma RisingConcat(a: seq<BlockRef>, b: seq<BlockRef>, floor: nat, mid: nat, end: nat)
    requires Rising(a, floor, mid) && floor < mid <= end
    requires forall i, j :: 0 <= i < j < |b| ==> b[i].number < b[j].number
    requires forall x :: x in b ==> mid <= x.number < end
    ensures Rising(a + b, floor, end)
  {
    var c := a + b;
    assert forall i :: 0 <= i < |b| ==> b[i] in b;
    forall i | 0 <= i < |c|
      ensures floor < c[i].number < end && (i < |a| ==> c[i].number < mid) && (i >= |a| ==> mid <= c[i].number)
    {
      if i >= |a| { assert c[i] == b[i - |a|]; }
    }
  }

  lemma PollSane(s: System, reply: Reply, rd: Reader, k: nat)
    requires Sane(s)
    ensures Sane(BeginPoll(s, reply, rd, k))
  {
    hide Written, TraceOf, Deliveries, SeedOf, Rising, OnHead, Settle;
    TrackRuns.PollKeepsTip(s.tracker, reply, rd, k);
    FailedPollRows(s.tracker, reply, rd, k);
  }

  lemma FailedPollRows(t: Tracker, reply: Reply, rd: Reader, k: nat)
    requires TipKnown(t.window)
    ensures var p := PollOnce(t, reply, rd, k); !p.result.Polled? ==> p.tracker.rows == t.rows
  {
  }

  lemma NextSane(s: System, step: Step)
    requires Sane(s)
    ensures Sane(Next(s, step))
  {
    hide BeginPoll, WriteNext, Advanced, ReadRange;
    match step
    case Poll(reply, rd, k) => PollSane(s, reply, rd, k);
    case Write => if s.queue != [] { WriteSane(s); }
    case AdvanceMark(kind, reply) => if MarkOf(s, kind).asked.None? { AdvanceSane(s, kind, reply); }
    case Read(kind, ok) => if MarkOf(s, kind).asked.Some? { ReadSane(s, kind, ok); }
  }

  lemma {:induction false} RunSane(s: System, steps: seq<Step>)
    requires Sane(s)
    ensures Sane(Run(s, steps))
    decreases |steps|
  {
    hide Next;
    if steps != [] {
      RunSane(s, steps[..|steps| - 1]);
      NextSane(Run(s, steps[..|steps| - 1]), steps[|steps| - 1]);
    }
  }

  // ---- The theorems over every interleaving -------------------------------------------

  ghost predicate Reachable(s: System) {
    exists maxDepth: nat, confirmDepth: nat, steps: seq<Step> :: s == Run(Launch(maxDepth, confirmDepth), steps)
  }

  lemma ReachableSane(s: System)
    requires Reachable(s)
    ensures Sane(s)
  {
    hide Run, Sane;
    var maxDepth: nat, confirmDepth: nat, steps: seq<Step> :| s == Run(Launch(maxDepth, confirmDepth), steps);
    LaunchSane(maxDepth, confirmDepth);
    RunSane(Launch(maxDepth, confirmDepth), steps);
  }

  /** Tiling: under any interleaving, once a kind is seeded every height above its seed up to its watermark
      has been asked for exactly once, and no other height ever. */
  lemma WatermarkTiles(s: System, kind: Kind, n: nat)
    requires Reachable(s)
    ensures MarkOf(s, kind).seeded <==> SeedOf(s.history, kind).Some?
    ensures AskedAt(s.history, kind, n) ==
            if MarkOf(s, kind).seeded && SeedOf(s.history, kind).value < n <= MarkOf(s, kind).tip then 1 else 0
  {
    hide Reachable, TraceOf, Written, Deliveries, Rising;
    ReachableSane(s);
    TraceTiles(s.history, kind, n);
  }

  /** Heights delivered to one kind strictly increase over the whole run. */
  lemma DeliveriesRise(s: System, kind: Kind)
    requires Reachable(s)
    ensures var bs := Deliveries(s.history, kind); forall i, j :: 0 <= i < j < |bs| ==> bs[i].number < bs[j].number
  {
    hide Reachable, TraceOf, Written, Deliveries;
    ReachableSane(s);
  }

  /** Everything delivered to one kind lies above its seed and not above its watermark. */
  lemma DeliveriesBetween(s: System, kind: Kind, b: BlockRef)
    requires Reachable(s) && b in Deliveries(s.history, kind)
    ensures MarkOf(s, kind).seeded && SeedOf(s.history, kind).Some?
    ensures SeedOf(s.history, kind).value < b.number <= MarkOf(s, kind).tip
  {
    hide Reachable, TraceOf, Written, Deliveries;
    ReachableSane(s);
    SeededMark(s, kind);
  }

  /** The last write at a height: where a written row came from. */
  lemma {:induction false} WrittenBy(h: seq<Fact>, b: BlockRef) returns (i: nat)
    requires IsLive(Written(h), b)
    ensures i < |h| && h[i] == Wrote(b)
    ensures forall j :: i < j < |h| && h[j].Wrote? ==> h[j].block.number != b.number
    decreases |h|
  {
    if h[|h| - 1].Wrote? && h[|h| - 1].block.number == b.number {
      i := |h| - 1;
    } else {
      i := WrittenBy(h[..|h| - 1], b);
    }
  }

  /** Under any interleaving, every block delivered by a safe or finalized read had been written before, and
      nothing else was written at its height between that write and the read. */
  lemma DeliveredWasLatest(s: System, j: nat, b: BlockRef) returns (i: nat)
    requires Reachable(s) && j < |s.history| && s.history[j].Delivered? && b in s.history[j].blocks
    ensures i < j && s.history[i] == Wrote(b)
    ensures forall k :: i < k < j && s.history[k].Wrote? ==> s.history[k].block.number != b.number
  {
    hide Reachable, Written, Watched;
    ReachableSane(s);
    assert ReadTrue(s.history, j);
    i := WrittenBy(s.history[..j], b);
  }

  /** The step reads, successfully, a range holding the block's height while the block is the row there. */
  predicate ReadsBlock(s: System, step: Step, kind: Kind, b: BlockRef) {
    && step == Read(kind, true) && MarkOf(s, kind).asked.Some?
    && MarkOf(s, kind).asked.value.0 <= b.number <= MarkOf(s, kind).asked.value.1
    && IsLive(s.tracker.rows, b)
  }

  lemma NextDelivers(s: System, step: Step, kind: Kind, b: BlockRef)
    requires Sane(s)
    ensures b in Deliveries(Next(s, step).history, kind) <==>
            b in Deliveries(s.history, kind) || ReadsBlock(s, step, kind, b)
  {
    hide Sane, Deliveries, Rows, PollOnce, TraceOf, Written;
    SaneKeyed(s);
    var s' := Next(s, step);
    if s'.history != s.history {
      var f := s'.history[|s.history|];
      assert s'.history == s.history + [f];
      HistorySnoc(s.history, f, kind);
    }
    if step == Read(kind, true) && MarkOf(s, kind).asked.Some? {
      var (from, to) := MarkOf(s, kind).asked.value;
      TrackRuns.RowsMember(s.tracker.rows, from, to + 1, b);
    }
  }

  lemma SaneKeyed(s: System)
    requires Sane(s)
    ensures TipKnown(s.tracker.window) && ReorgLaws.KeyedByNumber(s.tracker.rows)
  {
  }

  predicate ReadsBlockAt(start: System, steps: seq<Step>, i: nat, kind: Kind, b: BlockRef)
    requires TipKnown(start.tracker.window) && i < |steps|
  {
    ReadsBlock(Run(start, steps[..i]), steps[i], kind, b)
  }

  lemma {:induction false} DeliveredFrom(start: System, steps: seq<Step>, kind: Kind, b: BlockRef)
    requires Sane(start) && TipKnown(start.tracker.window) && start.history == []
    ensures b in Deliveries(Run(start, steps).history, kind) <==>
            exists i: nat :: i < |steps| && ReadsBlockAt(start, steps, i, kind, b)
    decreases |steps|
  {
    hide Next, ReadsBlock, Deliveries, Sane, TipKnown;
    if steps == [] {
      NothingDelivered(kind);
    } else {
      var before, last := steps[..|steps| - 1], |steps| - 1;
      DeliveredFrom(start, before, kind, b);
      RunSane(start, before);
      NextDelivers(Run(start, before), steps[last], kind, b);
      forall i: nat | i < last
        ensures ReadsBlockAt(start, before, i, kind, b) <==> ReadsBlockAt(start, steps, i, kind, b)
      {
        assert before[..i] == steps[..i] && before[i] == steps[i];
      }
      assert ReadsBlockAt(start, steps, last, kind, b) <==> ReadsBlock(Run(start, before), steps[last], kind, b);
    }
  }

  lemma NothingDelivered(kind: Kind)
    ensures Deliveries([], kind) == []
  {
  }

  /** Exactly what a confirmation callback is given: over any interleaving a block is delivered if and only if
      it was the row at its height when a range holding that height was read successfully. As each height is
      asked for once, rows written later, and ranges whose read fails, are never delivered. */
  lemma DeliveredIff(maxDepth: nat, confirmDepth: nat, steps: seq<Step>, kind: Kind, b: BlockRef)
    ensures b in Deliveries(Run(Launch(maxDepth, confirmDepth), steps).history, kind) <==>
            exists i: nat :: i < |steps| && ReadsBlockAt(Launch(maxDepth, confirmDepth), steps, i, kind, b)
  {
    hide Run, ReadsBlockAt, Deliveries, Sane;
    LaunchSane(maxDepth, confirmDepth);
    DeliveredFrom(Launch(maxDepth, confirmDepth), steps, kind, b);
  }

  /** In every reachable state a successful read delivers exactly the rows then stored in the asked range,
      in height order; an empty range calls nobody. */
  lemma ReadIsComplete(s: System, kind: Kind)
    requires Reachable(s) && MarkOf(s, kind).asked.Some?
    ensures var (from, to) := MarkOf(s, kind).asked.value;
            var s' := ReadRange(s, kind, true);
            var blocks :=
              if s'.history == s.history then [] else Deliveries(s'.history, kind)[|Deliveries(s.history, kind)|..];
            && |Deliveries(s.history, kind)| <= |Deliveries(s'.history, kind)|
            && (forall b :: b in blocks <==> from <= b.number <= to && IsLive(s.tracker.rows, b))
            && (forall i, j :: 0 <= i < j < |blocks| ==> blocks[i].number < blocks[j].number)
  {
    hide Reachable, TraceOf, Written, Deliveries, Rising, Rows;
    ReachableSane(s);
    var (from, to) := MarkOf(s, kind).asked.value;
    var blocks := Rows(s.tracker.rows, from, to + 1);
    HistorySnoc(s.history, Delivered(kind, blocks), kind);
    RowsRise(s.tracker.rows, from, to + 1);
    forall b
      ensures b in blocks <==> from <= b.number <= to && IsLive(s.tracker.rows, b)
    {
      TrackRuns.RowsMember(s.tracker.rows, from, to + 1, b);
    }
  }

  /** One confirmation poll in one go: the mark afterwards, and what the callback gets, None when it is not
      called. The mark moves before the rows are read, and stays moved when the read fails. */
  function Confirmed(m: Mark, rows: Table, reply: Reply, readOk: bool): (Mark, Option<seq<BlockRef>>) {
    if reply.Failed? then (m, None)
    else if !m.seeded then (Mark(reply.block.number, true, None), None)
    else if reply.block.number <= m.tip then (m, None)
    else
      var blocks := Rows(rows, m.tip + 1, reply.block.number + 1);
      (Mark(reply.block.number, true, None), if readOk && blocks != [] then Some(blocks) else None)
  }

  /** An advance and its read, with nothing in between, are one confirmation poll: same mark, same delivery,
      and neither the tracker nor the other kind is touched. */
  lemma AdvanceThenRead(s: System, kind: Kind, reply: Reply, readOk: bool)
    requires MarkOf(s, kind).asked.None?
    ensures var a := Advanced(s, kind, reply);
            var s' := if MarkOf(a, kind).asked.Some? then ReadRange(a, kind, readOk) else a;
            var (m, out) := Confirmed(MarkOf(s, kind), s.tracker.rows, reply, readOk);
            && MarkOf(s', kind) == m && MarkOf(s', Other(kind)) == MarkOf(s, Other(kind))
            && s'.tracker == s.tracker && s'.queue == s.queue
            && Deliveries(s'.history, kind) == Deliveries(s.history, kind) + (if out.Some? then out.value else [])
            && Deliveries(s'.history, Other(kind)) == Deliveries(s.history, Other(kind))
  {
    hide Rows, Deliveries, TraceOf, Written;
    var a := Advanced(s, kind, reply);
    if a != s {
      var f := a.history[|s.history|];
      HistorySnoc(s.history, f, kind);
      HistorySnoc(s.history, f, Other(kind));
      if MarkOf(a, kind).asked.Some? {
        var blocks := Rows(s.tracker.rows, MarkOf(s, kind).tip + 1, reply.block.number + 1);
        HistorySnoc(a.history, Delivered(kind, blocks), kind);
        HistorySnoc(a.history, Delivered(kind, blocks), Other(kind));
      }
    }
  }

  // ---- The loop body as the program runs it -------------------------------------------

  class Watermark {
    const kind: Kind
    var tip: nat
    var seeded: bool

    constructor (kind: Kind)
      ensures this.kind == kind && tip == 0 && !seeded
    {
      this.kind, tip, seeded := kind, 0, false;
    }

    method PollConfirmation(reply: Reply, store: Store, readOk: bool) returns (out: Option<seq<BlockRef>>)
      modifies this
      ensures (Mark(tip, seeded, None), out) ==
          Confirmed(Mark(old(tip), old(seeded), None), store.blocks, reply, readOk)
    {
      out := None;
      if reply.Failed? {
        return;
      }
      var head := reply.block.number;
      if !seeded {
        tip, seeded := head, true;
        return;
      }
      var prev := tip;
      if head <= prev {
        return;
      }
      tip := head;
      if !readOk {
        return;
      }
      var blocks := store.LoadCanonicalBlocksRange(prev + 1, head);
      if |blocks| == 0 {
        return;
      }
      out := Some(blocks);
    }
  }
}

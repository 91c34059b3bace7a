/** The head tracker as the program runs it: the buffer edited in place by loops, each block stored and
    announced in turn, proved to compute module Track's functions. */
module HeadTracking {
  import opened Chain
  import opened Reboots
  import opened Reconcile
  import opened Reorg
  import opened Sorting
  import opened Storage
  import opened Stream
  import opened Track

  /** Everything the tracker's callbacks are told, in order. */
  class Consumer {
    const journal: Journal
    var log: seq<Event>
    var batches: seq<seq<BlockRef>>

    constructor (journal: Journal)
      ensures log == [] && batches == [] && this.journal == journal
    {
      this.journal := journal;
      log, batches := [], [];
    }

    method OnReverted(b: BlockRef)
      modifies this, journal
      ensures log == old(log) + [Reverted(b)] && batches == old(batches)
      ensures journal.entries == old(journal.entries) + [Entry.Told(Reverted(b))]
    {
      log := log + [Reverted(b)];
      journal.Add(Entry.Told(Reverted(b)));
    }

    method OnCanonical(b: BlockRef)
      modifies this, journal
      ensures log == old(log) + [Canonical(b)] && batches == old(batches)
      ensures journal.entries == old(journal.entries) + [Entry.Told(Canonical(b))]
    {
      log := log + [Canonical(b)];
      journal.Add(Entry.Told(Canonical(b)));
    }

    method OnCanonicalBatch(bs: seq<BlockRef>)
      modifies this, journal
      ensures log == old(log) && batches == old(batches) + [bs]
      ensures journal.entries == old(journal.entries) + [BatchTold(bs)]
    {
      batches := batches + [bs];
      journal.Add(BatchTold(bs));
    }
  }

  // ---- The order of a poll's acts -----------------------------------------------------

  function Tells(bs: seq<BlockRef>): seq<Entry> {
    if bs == [] then [] else Tells(bs[..|bs| - 1]) + [Entry.Told(Reverted(Last(bs)))]
  }

  /** Each block is stored, then announced. */
  function Writes(bs: seq<BlockRef>): seq<Entry> {
    if bs == [] then [] else Writes(bs[..|bs| - 1]) + [Row(Last(bs)), Entry.Told(Canonical(Last(bs)))]
  }

  function Closing(bs: seq<BlockRef>): seq<Entry> {
    if bs == [] then [] else [BatchTold(bs), Cursor(Last(bs))]
  }

  function Acts(result: PollResult): seq<Entry> {
    if result.Polled? then Tells(result.reverted) + Writes(result.emitted) + Closing(result.emitted) else []
  }

  /** The rows and the stream that a list of acts leaves. */
  function RowsAfter(rows: Table, acts: seq<Entry>): Table {
    if acts == [] then rows
    else
      var before, e := RowsAfter(rows, acts[..|acts| - 1]), acts[|acts| - 1];
      if e.Row? then before[e.block.number := e.block] else before
  }

  function ToldIn(acts: seq<Entry>): seq<Event> {
    if acts == [] then []
    else
      var before, e := ToldIn(acts[..|acts| - 1]), acts[|acts| - 1];
      if e.Told? then before + [e.event] else before
  }

  lemma ActsSnoc(rows: Table, acts: seq<Entry>, e: Entry)
    ensures RowsAfter(rows, acts + [e]) ==
            if e.Row? then RowsAfter(rows, acts)[e.block.number := e.block] else RowsAfter(rows, acts)
    ensures ToldIn(acts + [e]) == if e.Told? then ToldIn(acts) + [e.event] else ToldIn(acts)
  {
    assert (acts + [e])[..|acts|] == acts;
  }

  lemma TellsSnoc(bs: seq<BlockRef>, b: BlockRef)
    ensures Tells(bs + [b]) == Tells(bs) + [Entry.Told(Reverted(b))]
  {
    assert (bs + [b])[..|bs|] == bs;
  }

  lemma WritesSnoc(bs: seq<BlockRef>, b: BlockRef)
    ensures Writes(bs + [b]) == Writes(bs) + [Row(b), Entry.Told(Canonical(b))]
  {
    assert (bs + [b])[..|bs|] == bs;
  }

  lemma {:induction false} AfterTells(rows: Table, bs: seq<BlockRef>)
    ensures |Tells(bs)| == |bs| && RowsAfter(rows, Tells(bs)) == rows && ToldIn(Tells(bs)) == Reverts(bs)
    decreases |bs|
  {
    hide RowsAfter, ToldIn;
    if bs == [] {
      NoActs(rows);
    } else {
      AfterTells(rows, bs[..|bs| - 1]);
      ActsSnoc(rows, Tells(bs[..|bs| - 1]), Entry.Told(Reverted(Last(bs))));
    }
  }

  lemma NoActs(rows: Table)
    ensures RowsAfter(rows, []) == rows && ToldIn([]) == []
  {
  }

  lemma {:induction false} AfterWrites(rows: Table, acts: seq<Entry>, bs: seq<BlockRef>)
    ensures |Writes(bs)| == 2 * |bs|
    ensures RowsAfter(rows, acts + Writes(bs)) == PutBlocks(RowsAfter(rows, acts), bs)
    ensures ToldIn(acts + Writes(bs)) == ToldIn(acts) + Announces(bs)
    decreases |bs|
  {
    hide RowsAfter, ToldIn;
    if bs == [] {
      assert acts + Writes(bs) == acts;
    } else {
      var q, b := bs[..|bs| - 1], Last(bs);
      AfterWrites(rows, acts, q);
      ActsSnoc(rows, acts + Writes(q), Row(b));
      ActsSnoc(rows, acts + Writes(q) + [Row(b)], Entry.Told(Canonical(b)));
      assert acts + Writes(bs) == acts + Writes(q) + [Row(b)] + [Entry.Told(Canonical(b))];
    }
  }

  lemma {:induction false} WritesPrefix(bs: seq<BlockRef>, i: nat)
    requires i <= |bs|
    ensures |Writes(bs)| == 2 * |bs| && Writes(bs)[..2 * i] == Writes(bs[..i])
    ensures i < |bs| ==> Writes(bs)[2 * i] == Row(bs[i])
    decreases |bs|
  {
    if bs != [] {
      var q, b := bs[..|bs| - 1], Last(bs);
      if i < |bs| {
        WritesPrefix(q, i);
        assert q[..i] == bs[..i];
      } else {
        WritesPrefix(q, i - 1);
        assert bs[..i] == bs;
      }
    }
  }

  /** Stopping a poll after 2 * i of its writing acts is the interruption after i writes; one act later the next
      block is stored and not yet announced. */
  lemma CutIsInterruption(t: Tracker, result: PollResult, i: nat)
    requires result.Polled? && i <= |result.emitted|
    ensures var n := |result.reverted| + 2 * i;
            && n <= |Acts(result)|
            && RowsAfter(t.rows, Acts(result)[..n]) == Interrupted(t, result, i).rows
            && ToldIn(Acts(result)[..n]) == Reboots.Told(result, i)
            && (i < |result.emitted| ==>
                && n < |Acts(result)|
                && RowsAfter(t.rows, Acts(result)[..n + 1]) == Interrupted(t, result, i + 1).rows
                && ToldIn(Acts(result)[..n + 1]) == Reboots.Told(result, i))
  {
    hide RowsAfter, ToldIn, Tells, Writes, PutBlocks, Announces, Reverts, Acts;
    var n, tells, all, before := |result.reverted| + 2 * i, Tells(result.reverted), Acts(result), result.emitted[..i];
    AfterTells(t.rows, result.reverted);
    AfterWrites(t.rows, tells, before);
    CutAt(result, i);
    WrittenIs(result, i);
    if i < |result.emitted| {
      ActsSnoc(t.rows, all[..n], Row(result.emitted[i]));
      PutSnoc(t.rows, before, result.emitted[i]);
      WrittenIs(result, i + 1);
    }
  }

  lemma WrittenIs(result: PollResult, i: nat)
    requires result.Polled? && i <= |result.emitted|
    ensures Written(result, i) == result.emitted[..i]
    ensures i < |result.emitted| ==> result.emitted[..i + 1] == result.emitted[..i] + [result.emitted[i]]
  {
  }

  lemma CutAt(result: PollResult, i: nat)
    requires result.Polled? && i <= |result.emitted|
    ensures var n := |result.reverted| + 2 * i;
            && n <= |Acts(result)| && Acts(result)[..n] == Tells(result.reverted) + Writes(result.emitted[..i])
            && (i < |result.emitted| ==>
                n < |Acts(result)| && Acts(result)[..n + 1] == Acts(result)[..n] + [Row(result.emitted[i])])
  {
    hide Tells, Writes;
    AfterTells(map[], result.reverted);
    WritesPrefix(result.emitted, i);
  }

  lemma NoWrites(m: Table)
    ensures PutBlocks(m, []) == m && Announces([]) == [] && Writes([]) == []
  {
  }

  lemma PutSnoc(m: Table, bs: seq<BlockRef>, b: BlockRef)
    ensures PutBlocks(m, bs + [b]) == PutBlocks(m, bs)[b.number := b]
  {
    assert (bs + [b])[..|bs|] == bs;
  }

  lemma {:induction false} DropFirstAt(pending: seq<BlockRef>, r: BlockRef, i: nat)
    requires i < |pending| && Matches(pending[i], r) && forall j :: 0 <= j < i ==> !Matches(pending[j], r)
    ensures Holds(pending, r) && DropFirst(pending, r) == pending[..i] + pending[i + 1..]
    decreases i
  {
    if i > 0 {
      DropFirstAt(pending[1..], r, i - 1);
      assert pending[..i] == [pending[0]] + pending[1..][..i - 1];
      assert pending[1..][i - 1 + 1..] == pending[i + 1..];
    }
  }

  class HeadTracker {
    const confirmDepth: nat
    const reconciler: Reconciler
    const store: Store
    const consumer: Consumer
    var pending: seq<BlockRef>

    ghost function View(): Tracker
      reads this, reconciler, store
    {
      Tracker(reconciler.View(), pending, confirmDepth, store.blocks, store.cursor)
    }

    ghost predicate Valid()
      reads this, reconciler
    {
      reconciler.Valid() && consumer.journal == store.journal
    }

    constructor (confirmDepth: nat, reconciler: Reconciler, store: Store, consumer: Consumer)
      requires reconciler.Valid() && consumer.journal == store.journal
      ensures Valid() && this.reconciler == reconciler && this.store == store && this.consumer == consumer
      ensures View() == Tracker(reconciler.View(), [], confirmDepth, store.blocks, store.cursor)
    {
      this.confirmDepth, this.reconciler, this.store, this.consumer := confirmDepth, reconciler, store, consumer;
      pending := [];
    }

    method Seed()
      requires Valid()
      modifies reconciler
      ensures Valid() && View() == SeedFromStorage(old(View()))
    {
      if store.cursor.Some? {
        var n := store.cursor.value.number;
        var minBlock := if n > RELOAD_DEPTH then n - RELOAD_DEPTH else 0;
        var blocks := store.LoadRecentBlocks(minBlock);
        reconciler.LoadBlocks(blocks);
      }
    }

    /** Appends the canonical blocks, then takes out each reverted one or announces its reversal. */
    method Absorb(canonical: seq<BlockRef>, reverted: seq<BlockRef>) returns (notified: seq<BlockRef>)
      modifies this, consumer, consumer.journal
      ensures var d := DropReverted(old(pending) + canonical, reverted);
              pending == d.pending && notified == d.notified && consumer.log == old(consumer.log) + Reverts(d.notified)
      ensures consumer.batches == old(consumer.batches)
      ensures consumer.journal.entries == old(consumer.journal.entries) + Tells(notified)
    {
      pending := pending + canonical;
      notified := [];
      ghost var start := pending;
      assert consumer.log == old(consumer.log) + Reverts([]);
      assert consumer.journal.entries == old(consumer.journal.entries) + Tells([]);
      for j := 0 to |reverted|
        invariant Dropped(pending, notified) == DropReverted(start, reverted[..j])
        invariant consumer.log == old(consumer.log) + Reverts(notified)
        invariant consumer.batches == old(consumer.batches)
        invariant consumer.journal.entries == old(consumer.journal.entries) + Tells(notified)
      {
        var r := reverted[j];
        assert reverted[..j + 1][..j] == reverted[..j];
        ghost var d := DropReverted(start, reverted[..j]);
        assert DropReverted(start, reverted[..j + 1]) ==
               if Holds(d.pending, r) then d.(pending := DropFirst(d.pending, r)) else d.(notified := d.notified + [r]);
        var removed := TakeOut(r);
        if !removed {
          RevertsSnoc(notified, r);
          TellsSnoc(notified, r);
          consumer.OnReverted(r);
          notified := notified + [r];
        }
      }
      assert reverted[..|reverted|] == reverted;
    }

    method TakeOut(r: BlockRef) returns (removed: bool)
      modifies this
      ensures removed == Holds(old(pending), r)
      ensures pending == if removed then DropFirst(old(pending), r) else old(pending)
    {
      var i := 0;
      while i < |pending|
        invariant pending == old(pending) && i <= |pending| && forall j :: 0 <= j < i ==> !Matches(pending[j], r)
      {
        if pending[i].number == r.number && pending[i].hash == r.hash {
          DropFirstAt(pending, r, i);
          pending := pending[..i] + pending[i + 1..];
          return true;
        }
        i := i + 1;
      }
      return false;
    }

    /** Splits the buffer at the threshold, keeping what is above it. */
    method TakeConfirmed(threshold: nat) returns (emit: seq<BlockRef>)
      modifies this
      ensures emit == UpTo(old(pending), threshold) && pending == Above(old(pending), threshold)
    {
      emit := [];
      var keep := [];
      for i := 0 to |pending|
        invariant pending == old(pending)
        invariant emit == UpTo(pending[..i], threshold) && keep == Above(pending[..i], threshold)
      {
        var b := pending[i];
        assert pending[..i + 1][..i] == pending[..i];
        if b.number <= threshold {
          emit := emit + [b];
        } else {
          keep := keep + [b];
        }
      }
      assert pending[..|pending|] == pending;
      pending := keep;
    }

    /** Stores and announces each confirmed block, then the batch, then moves the cursor to its last block. */
    method Emit(emit: seq<BlockRef>)
      requires consumer.journal == store.journal
      modifies store, consumer, store.journal
      ensures store.blocks == PutBlocks(old(store.blocks), emit)
      ensures store.cursor == if emit == [] then old(store.cursor) else Some(Last(emit))
      ensures consumer.log == old(consumer.log) + Announces(emit)
      ensures consumer.batches == if emit == [] then old(consumer.batches) else old(consumer.batches) + [emit]
      ensures store.journal.entries == old(store.journal.entries) + Writes(emit) + Closing(emit)
    {
      hide PutBlocks, Announces, Writes;
      NoWrites(store.blocks);
      assert store.journal.entries == old(store.journal.entries) + Writes([]);
      assert consumer.log == old(consumer.log) + Announces([]);
      for i := 0 to |emit|
        invariant store.blocks == PutBlocks(old(store.blocks), emit[..i]) && store.cursor == old(store.cursor)
        invariant consumer.log == old(consumer.log) + Announces(emit[..i]) && consumer.batches == old(consumer.batches)
        invariant store.journal.entries == old(store.journal.entries) + Writes(emit[..i])
      {
        assert emit[..i + 1] == emit[..i] + [emit[i]];
        PutSnoc(old(store.blocks), emit[..i], emit[i]);
        AnnouncesSnoc(emit[..i], emit[i]);
        WritesSnoc(emit[..i], emit[i]);
        store.RememberBlock(emit[i]);
        consumer.OnCanonical(emit[i]);
      }
      assert emit[..|emit|] == emit;
      if |emit| > 0 {
        consumer.OnCanonicalBatch(emit);
        store.SaveCursor(emit[|emit| - 1]);
      }
    }

    /** The end of a poll whose reconciliation succeeded. */
    method Conclude(head: BlockRef, out: Outcome) returns (result: PollResult)
      requires Valid() && out.Reconciled?
      modifies this, store, consumer, store.journal
      ensures Valid()
      ensures (View(), result) == Settle(old(View()), head, reconciler.View(), out)
      ensures consumer.log == old(consumer.log) + Downstream(result)
      ensures consumer.batches == old(consumer.batches) + (if result.emitted != [] then [result.emitted] else [])
      ensures store.journal.entries == old(store.journal.entries) + Acts(result)
    {
      hide DropReverted, UpTo, Above, Sort, PutBlocks, Reverts, Announces, Tells, Writes, Closing;
      var notified := Absorb(out.canonical, out.reverted);
      var threshold := 0;
      if head.number > confirmDepth {
        threshold := head.number - confirmDepth;
      }
      var emit := TakeConfirmed(threshold);
      emit := Sort(NumberLeq, emit);
      Emit(emit);
      result := Polled(notified, emit);
    }

    /** One poll; reply is the node's answer to the request for its head. */
    method PollHead(reply: Reply) returns (result: PollResult)
      requires Valid()
      modifies this, reconciler, reconciler.reader, store, consumer, store.journal
      ensures Valid()
      ensures var s := PollOnce(old(View()), reply, reconciler.reader.replies, old(reconciler.reader.calls));
              && result == s.result && View() == s.tracker && reconciler.reader.calls == s.clock
              && consumer.log == old(consumer.log) + Downstream(s.result)
              && consumer.batches ==
                 old(consumer.batches) + (if result.Polled? && result.emitted != [] then [result.emitted] else [])
              && store.journal.entries == old(store.journal.entries) + Acts(s.result)
    {
      hide OnHead, DropReverted, UpTo, Above, Sort, PutBlocks, Reverts, Announces, Tells, Writes, Closing;
      if reply.Failed? {
        return HeadFailed;
      }
      var head := reply.block;
      var out := reconciler.Head(head);
      if out.Failure? {
        return ReconcileFailed(out.error);
      }
      result := Conclude(head, out);
    }
  }
}

/** Whole runs of the head tracker: conservation, confirmation depth, who is notified, failed
    polls, and what the store holds. */
module TrackRuns {
  import opened Chain
  import opened Reconcile
  import opened Sorting
  import opened Stream
  import opened Track
  import opened TrackLaws
  import opened WindowLaws

  datatype TrackPoll = TrackPoll(reply: Reply, reader: Reader, clock: nat)

  /** The tracker after a run, what its reconciler reported, and what its consumer was told. */
  datatype TrackState = TrackState(tracker: Tracker, up: seq<Event>, down: seq<Event>)

  function Run(start: Tracker, polls: seq<TrackPoll>): (r: TrackState)
    requires TipKnown(start.window)
    ensures TipKnown(r.tracker.window)
  {
    if polls == [] then TrackState(start, [], [])
    else
      var r, p := Run(start, polls[..|polls| - 1]), polls[|polls| - 1];
      PollKeepsTip(r.tracker, p.reply, p.reader, p.clock);
      var s := PollOnce(r.tracker, p.reply, p.reader, p.clock);
      TrackState(s.tracker, r.up + Upstream(r.tracker, p.reply, p.reader, p.clock), r.down + Downstream(s.result))
  }

  lemma PollKeepsTip(t: Tracker, reply: Reply, rd: Reader, k: nat)
    requires TipKnown(t.window)
    ensures TipKnown(PollOnce(t, reply, rd, k).tracker.window)
  {
    if reply.Served? {
      OnHeadKeepsTip(t.window, rd, k, reply.block);
    }
  }

  lemma RunSnoc(start: Tracker, polls: seq<TrackPoll>, p: TrackPoll)
    requires TipKnown(start.window)
    ensures var r := Run(start, polls);
            var s := PollOnce(r.tracker, p.reply, p.reader, p.clock);
            Run(start, polls + [p]) ==
            TrackState(s.tracker, r.up + Upstream(r.tracker, p.reply, p.reader, p.clock), r.down + Downstream(s.result))
  {
    hide PollOnce, Upstream, Downstream;
    assert (polls + [p])[..|polls|] == polls;
  }

  /** Every reconciliation of the run is allowed in the state it meets. */
  predicate SafeRun(start: Tracker, live: Table, polls: seq<TrackPoll>)
    requires TipKnown(start.window)
  {
    polls == [] ||
    (var before, p := polls[..|polls| - 1], polls[|polls| - 1];
     var r := Run(start, before);
     && SafeRun(start, live, before)
     && (var now := Replay(live, r.up);
         now.Some? ==> PollAllowed(r.tracker, now.value, p.reply, p.reader, p.clock)))
  }

  lemma RunEmpty(start: Tracker, live: Table)
    requires TipKnown(start.window)
    ensures Run(start, []).tracker == start && Replay(live, Run(start, []).up) == Some(live) && SafeRun(start, live, [])
  {
  }

  /** One more allowed poll after a safe run whose stream replays. */
  lemma SafeSnoc(start: Tracker, live: Table, polls: seq<TrackPoll>, p: TrackPoll)
    requires TipKnown(start.window) && SafeRun(start, live, polls) && Replay(live, Run(start, polls).up).Some?
    requires PollAllowed(Run(start, polls).tracker, Replay(live, Run(start, polls).up).value, p.reply, p.reader,
        p.clock)
    ensures SafeRun(start, live, polls + [p])
    ensures Run(start, polls + [p]).tracker == PollOnce(Run(start, polls).tracker, p.reply, p.reader, p.clock).tracker
    ensures Replay(live, Run(start, polls + [p]).up) ==
            Replay(Replay(live, Run(start, polls).up).value,
                Upstream(Run(start, polls).tracker, p.reply, p.reader, p.clock))
  {
    hide PollAllowed, Replay, PollOnce, Upstream, Downstream;
    RunSnoc(start, polls, p);
    assert (polls + [p])[..|polls|] == polls;
    ReplayConcat(live, Run(start, polls).up, Upstream(Run(start, polls).tracker, p.reply, p.reader, p.clock));
  }

  lemma StartSound(maxDepth: nat, confirmDepth: nat)
    ensures TipKnown(Start(maxDepth, confirmDepth).window) && Sound(Start(maxDepth, confirmDepth), map[], map[])
  {
  }

  /** Conservation over every run: the consumer's stream is replayable like the reconciler's, and at the
      end the live blocks are exactly the ones the consumer has and, above them, the buffered ones. No
      bound on the confirmation depth is needed. */
  lemma {:induction false} Conservation(start: Tracker, live: Table, emitted: Table, polls: seq<TrackPoll>)
    requires TipKnown(start.window) && Sound(start, live, emitted) && SafeRun(start, live, polls)
    ensures var r := Run(start, polls);
            && Replay(live, r.up).Some? && Replay(emitted, r.down).Some?
            && Sound(r.tracker, Replay(live, r.up).value, Replay(emitted, r.down).value)
    decreases |polls|
  {
    if polls != [] {
      var before, p := polls[..|polls| - 1], polls[|polls| - 1];
      Conservation(start, live, emitted, before);
      var r := Run(start, before);
      hide Sound, PollOnce, Upstream, Downstream, PollAllowed, Replay;
      PollKeepsSound(r.tracker, Replay(live, r.up).value, Replay(emitted, r.down).value, p.reply, p.reader, p.clock);
      ReplayConcat(live, r.up, Upstream(r.tracker, p.reply, p.reader, p.clock));
      ReplayConcat(emitted, r.down, Downstream(PollOnce(r.tracker, p.reply, p.reader, p.clock).result));
    }
  }

  /** After the run both streams replay and the tracker is sound. */
  ghost predicate SoundAfter(start: Tracker, live: Table, emitted: Table, polls: seq<TrackPoll>)
    requires TipKnown(start.window)
  {
    var r := Run(start, polls);
    && Replay(live, r.up).Some? && Replay(emitted, r.down).Some?
    && Sound(r.tracker, Replay(live, r.up).value, Replay(emitted, r.down).value)
  }

  ghost predicate SoundThroughout(start: Tracker, live: Table, emitted: Table, polls: seq<TrackPoll>)
    requires TipKnown(start.window)
  {
    forall i: nat :: i <= |polls| ==> SoundAfter(start, live, emitted, polls[..i])
  }

  /** One poll, in both directions: it keeps the tracker sound exactly when it was allowed. */
  lemma PollSoundIff(t: Tracker, live: Table, emitted: Table, reply: Reply, rd: Reader, k: nat)
    requires TipKnown(t.window) && Sound(t, live, emitted)
    ensures var s := PollOnce(t, reply, rd, k);
            var live', emitted' := Replay(live, Upstream(t, reply, rd, k)), Replay(emitted, Downstream(s.result));
            live'.Some? && emitted'.Some? && Sound(s.tracker, live'.value, emitted'.value) <==>
                PollAllowed(t, live, reply, rd, k)
  {
    hide Sound, Allowed, InStep, OnHead, Events, Replay, Settle, Downstream;
    if PollAllowed(t, live, reply, rd, k) {
      PollKeepsSound(t, live, emitted, reply, rd, k);
    }
    var s := PollOnce(t, reply, rd, k);
    var live', emitted' := Replay(live, Upstream(t, reply, rd, k)), Replay(emitted, Downstream(s.result));
    if reply.Served? && live'.Some? && emitted'.Some? && Sound(s.tracker, live'.value, emitted'.value) {
      SoundInStep(t, live, emitted);
      SoundInStep(s.tracker, live'.value, emitted'.value);
      PollWindow(t, reply.block, rd, k);
      InStepIffAllowed(t.window, live, rd, k, reply.block);
    }
  }

  lemma PollWindow(t: Tracker, head: BlockRef, rd: Reader, k: nat)
    requires TipKnown(t.window)
    ensures PollOnce(t, Served(head), rd, k).tracker.window == OnHead(t.window, rd, k, head).window
  {
    hide OnHead, DropReverted, UpTo, Above, Sort;
  }

  /** Conservation, in both directions: the tracker is sound after every poll of a run if and only if every
      poll was allowed in the state it met. */
  lemma {:induction false} ConservationIff(start: Tracker, live: Table, emitted: Table, polls: seq<TrackPoll>)
    requires TipKnown(start.window) && Sound(start, live, emitted)
    ensures SoundThroughout(start, live, emitted, polls) <==> SafeRun(start, live, polls)
    decreases |polls|
  {
    hide SoundAfter, PollAllowed, PollOnce, Run, Replay;
    if polls == [] {
      Conservation(start, live, emitted, []);
      SoundAfterIs(start, live, emitted, []);
      assert polls[..0] == [];
    } else {
      var before, p := polls[..|polls| - 1], polls[|polls| - 1];
      ConservationIff(start, live, emitted, before);
      assert forall i: nat :: i <= |before| ==> polls[..i] == before[..i];
      assert polls[..|polls|] == polls && before[..|before|] == before && polls == before + [p];
      if SoundAfter(start, live, emitted, before) {
        NextSoundIff(start, live, emitted, before, p);
      }
    }
  }

  lemma SoundAfterIs(start: Tracker, live: Table, emitted: Table, polls: seq<TrackPoll>)
    requires TipKnown(start.window)
    ensures SoundAfter(start, live, emitted, polls) <==>
            var r := Run(start, polls);
            && Replay(live, r.up).Some? && Replay(emitted, r.down).Some?
            && Sound(r.tracker, Replay(live, r.up).value, Replay(emitted, r.down).value)
  {
  }

  lemma NextSoundIff(start: Tracker, live: Table, emitted: Table, before: seq<TrackPoll>, p: TrackPoll)
    requires TipKnown(start.window) && SoundAfter(start, live, emitted, before)
    ensures Replay(live, Run(start, before).up).Some?
    ensures SoundAfter(start, live, emitted, before + [p]) <==>
            PollAllowed(Run(start, before).tracker, Replay(live, Run(start, before).up).value, p.reply, p.reader,
                p.clock)
  {
    hide Run, PollOnce, Sound, PollAllowed, Replay, Upstream, Downstream;
    var r := Run(start, before);
    var l, m := Replay(live, r.up).value, Replay(emitted, r.down).value;
    PollSoundIff(r.tracker, l, m, p.reply, p.reader, p.clock);
    RunSnoc(start, before, p);
    var s := PollOnce(r.tracker, p.reply, p.reader, p.clock);
    ReplayConcat(live, r.up, Upstream(r.tracker, p.reply, p.reader, p.clock));
    ReplayConcat(emitted, r.down, Downstream(s.result));
  }

  /** From a fresh start. */
  lemma FreshConservationIff(maxDepth: nat, confirmDepth: nat, polls: seq<TrackPoll>)
    ensures TipKnown(Start(maxDepth, confirmDepth).window)
    ensures SoundThroughout(Start(maxDepth, confirmDepth), map[], map[], polls)
            <==> SafeRun(Start(maxDepth, confirmDepth), map[], polls)
  {
    hide SoundThroughout, SafeRun;
    StartSound(maxDepth, confirmDepth);
    ConservationIff(Start(maxDepth, confirmDepth), map[], map[], polls);
  }

  // ---- What soundness means -----------------------------------------------------------

  lemma {:induction false} RowsMember(m: Table, a: nat, b: nat, x: BlockRef)
    requires forall n: nat :: n in m ==> m[n].number == n
    ensures x in Rows(m, a, b) <==> a <= x.number < b && IsLive(m, x)
    decreases b
  {
    if a < b {
      RowsMember(m, a, b - 1, x);
      var n := b - 1;
      assert Rows(m, a, b) == Rows(m, a, n) + (if n in m then [m[n]] else []);
    }
  }

  /** Every live block is in exactly one place, with the consumer or in the buffer, and nothing else is in
      either; everything buffered is above the threshold of the tip. */
  lemma BufferPartition(t: Tracker, live: Table, emitted: Table)
    requires Sound(t, live, emitted) && t.window.seeded
    ensures forall b :: IsLive(live, b) <==> (IsLive(emitted, b) || b in t.pending)
    ensures forall b :: !(IsLive(emitted, b) && b in t.pending)
    ensures forall b :: b in t.pending ==> b.number > Threshold(t.window.tip, t.confirmDepth)
  {
    hide Rows, Below, Shows;
    var lo: nat, first: nat, e: nat :| Buffered(t, lo, first, e, live) && emitted == Below(live, e);
    hide Sound, IsLive, Contiguous;
    BufferMembers(live, first, e, t.window.tip + 1);
  }

  /** The buffer is one block of each height, ascending to the tip, and starts just above the highest
      block the consumer has. */
  lemma BufferIsChainTop(t: Tracker, live: Table, emitted: Table)
    requires Sound(t, live, emitted) && t.window.seeded
    ensures Contiguous(t.pending)
    ensures t.pending != [] ==> Last(t.pending).number == t.window.tip
    ensures t.pending != [] ==> forall n :: n in emitted ==> n < t.pending[0].number
    ensures t.pending != [] && emitted != map[] ==> t.pending[0].number - 1 in emitted
    ensures t.pending == [] ==> emitted == live
  {
    hide Rows, Below, Shows, Contiguous;
    var lo: nat, first: nat, e: nat :| Buffered(t, lo, first, e, live) && emitted == Below(live, e);
    hide Sound;
    BufferRun(live, first, e, t.window.tip + 1);
  }

  lemma BufferRun(live: Table, first: nat, e: nat, end: nat)
    requires Column(live, first, end) && first <= e <= end
    ensures var s := Rows(live, e, end);
            && Contiguous(s)
            && (s != [] ==> Last(s).number == end - 1 && s[0].number == e)
            && (s != [] && Below(live, e) != map[] ==> s[0].number - 1 in Below(live, e))
            && (s == [] ==> Below(live, e) == live)
            && (forall n :: n in Below(live, e) ==> n < e)
  {
    hide Rows;
    RowsAt(live, first, e, end, end);
    if e < end && Below(live, e) != map[] {
      var n :| n in Below(live, e);
      assert first <= n < e;
    }
  }

  lemma BufferMembers(live: Table, first: nat, e: nat, end: nat)
    requires Column(live, first, end)
    ensures forall b :: b in Rows(live, e, end) <==> IsLive(live, b) && b.number >= e
    ensures forall b :: IsLive(Below(live, e), b) <==> IsLive(live, b) && b.number < e
  {
    forall b
      ensures b in Rows(live, e, end) <==> IsLive(live, b) && b.number >= e
    {
      RowsMember(live, e, end, b);
    }
  }

  // ---- Confirmation depth -------------------------------------------------------------

  lemma {:induction false} UpToBound(bs: seq<BlockRef>, threshold: nat)
    ensures forall b :: b in UpTo(bs, threshold) ==> b in bs && b.number <= threshold
    decreases |bs|
  {
    if bs != [] {
      UpToBound(bs[..|bs| - 1], threshold);
    }
  }

  /** Every block a poll emits, except one at height 0, has the full confirmation depth under the polled
      head; and the batch is in height order. This needs nothing about the tracker's history. */
  lemma EmittedIsConfirmed(t: Tracker, head: BlockRef, rd: Reader, k: nat)
    requires TipKnown(t.window) && PollOnce(t, Served(head), rd, k).result.Polled?
    ensures var emitted := PollOnce(t, Served(head), rd, k).result.emitted;
            && (forall b :: b in emitted && b.number > 0 ==> b.number + t.confirmDepth <= head.number)
            && (forall i, j :: 0 <= i < j < |emitted| ==> emitted[i].number <= emitted[j].number)
  {
    var s := OnHead(t.window, rd, k, head);
    var work, thr := DropReverted(t.pending + s.outcome.canonical, s.outcome.reverted).pending,
        Threshold(head.number, t.confirmDepth);
    var emitted := PollOnce(t, Served(head), rd, k).result.emitted;
    assert emitted == Sort(NumberLeq, UpTo(work, thr));
    hide OnHead, PollOnce, Sort, UpTo, DropReverted;
    UpToBound(work, thr);
    SortPermutes(NumberLeq, UpTo(work, thr));
    SortOrders(NumberLeq, UpTo(work, thr));
    forall b | b in emitted
      ensures b.number <= thr
    {
      assert b in multiset(emitted);
    }
  }

  /** After every successful poll no live block at or below the polled head's threshold is unemitted. */
  lemma NothingConfirmedWaits(t: Tracker, live: Table, emitted: Table, head: BlockRef, rd: Reader, k: nat)
    requires TipKnown(t.window) && Sound(t, live, emitted) && PollAllowed(t, live, Served(head), rd, k)
    requires PollOnce(t, Served(head), rd, k).result.Polled?
    ensures var s := PollOnce(t, Served(head), rd, k);
            var live', emitted' := Replay(live, Upstream(t, Served(head), rd, k)),
                Replay(emitted, Downstream(s.result));
            && live'.Some? && emitted'.Some?
            && forall n :: n in live'.value && n <= Threshold(head.number, t.confirmDepth) ==>
               IsLive(emitted'.value, live'.value[n])
  {
    hide PollOnce, Replay, Upstream, Downstream, Rows, Shows, PollAllowed;
    PollKeepsSound(t, live, emitted, Served(head), rd, k);
    TipReachesHead(t, live, emitted, head, rd, k);
    var s := PollOnce(t, Served(head), rd, k);
    var live' := Replay(live, Upstream(t, Served(head), rd, k)).value;
    var emitted' := Replay(emitted, Downstream(s.result)).value;
    var lo: nat, first: nat, e: nat :| Buffered(s.tracker, lo, first, e, live') && emitted' == Below(live', e);
    assert Threshold(head.number, t.confirmDepth) < e;
  }

  lemma TipReachesHead(t: Tracker, live: Table, emitted: Table, head: BlockRef, rd: Reader, k: nat)
    requires TipKnown(t.window) && Sound(t, live, emitted) && PollOnce(t, Served(head), rd, k).result.Polled?
    ensures var w := PollOnce(t, Served(head), rd, k).tracker.window; w.seeded && head.number <= w.tip
  {
    if !t.window.seeded {
      FirstStep(t.window, rd, k, head);
    } else {
      var lo: nat, first: nat, e: nat :| Buffered(t, lo, first, e, live);
      OnHeadShape(t.window, lo, rd, k, head);
    }
  }

  // ---- Who is notified ----------------------------------------------------------------

  /** A poll notifies exactly the reverted blocks the consumer had; every other reverted block was still
      buffered, leaves the buffer, and is not emitted. The emitted batch is the run of live blocks from
      just above what the consumer still has. */
  lemma NotifiedExactly(t: Tracker, lo: nat, first: nat, e: nat, live: Table, head: BlockRef, rd: Reader, k: nat)
    requires TipKnown(t.window) && Buffered(t, lo, first, e, live) && !Duplicate(t.window, head)
    requires OnHead(t.window, rd, k, head).outcome.Reconciled? && Allowed(t.window, live, rd, k, head)
    ensures OnHead(t.window, rd, k, head).outcome.canonical != []
    ensures var s, out := PollOnce(t, Served(head), rd, k), OnHead(t.window, rd, k, head).outcome;
            var live' := Graft(live, out.canonical);
            && s.result.Polled?
            && (forall b :: b in s.result.reverted <==> b in out.reverted && IsLive(Below(live, e), b))
            && (forall b :: b in out.reverted && !IsLive(Below(live, e), b) ==>
                  b in t.pending && b !in s.tracker.pending && b !in s.result.emitted)
            && s.result.emitted ==
               Rows(live', Min(e, out.canonical[0].number), Threshold(head.number, t.confirmDepth) + 1)
            && Contiguous(s.result.emitted)
  {
    var w := t.window;
    OnHeadShape(w, lo, rd, k, head);
    AllowedGuards(w, lo, first, live, rd, k, head);
    var path := OnHead(w, rd, k, head).outcome.canonical;
    SettleStep(t, lo, first, e, live, head, path);
    RevertedRows(w, lo, first, live, path[0].number);
    hide OnHead, Allowed, GenesisSwapped, Settle, Rows, Graft;
    NotifiedMembers(t, lo, first, e, live, head, path);
  }

  lemma NotifiedMembers(t: Tracker, lo: nat, first: nat, e: nat, live: Table, head: BlockRef, path: seq<BlockRef>)
    requires Buffered(t, lo, first, e, live) && Meets(t.window, lo, head, path)
    requires head.number < lo ==> first == lo
    requires path[0].number == 0 ==> 0 !in t.window.known
    ensures var (t', result) := Settled(t, e, live, head, path);
            var reverted := Rows(live, Max(path[0].number, lo), t.window.tip + 1);
            && (forall b :: b in result.reverted <==> b in reverted && IsLive(Below(live, e), b))
            && (forall b :: b in reverted && !IsLive(Below(live, e), b) ==>
                  b in t.pending && b !in t'.pending && b !in result.emitted)
            && Contiguous(result.emitted)
  {
    hide HashLinked, Rows, Graft, Contiguous, AllUnknown, Grafted, PutBlocks, Below, IsLive;
    var c, end, live', thr := path[0].number, t.window.tip + 1, Graft(live, path),
        Threshold(head.number, t.confirmDepth);
    var m := Min(e, c);
    GraftColumn(t.window, lo, first, live, head, path);
    assert first <= e && Column(live, first, end) && Column(live', Min(first, c), head.number + 1);
    assert c < lo ==> lo == first;
    NotifiedRows(live, first, lo, e, c, end);
    hide Column;
    forall b | b in Rows(live, Max(c, lo), end) && !IsLive(Below(live, e), b)
      ensures b !in Rows(live', Max(m, thr + 1), head.number + 1) && b !in Rows(live', m, thr + 1)
    {
      RevertedGone(t.window, lo, first, live, head, path, b);
      RowsLive(live', Min(first, c), head.number + 1, Max(m, thr + 1), head.number + 1, b);
      RowsLive(live', Min(first, c), head.number + 1, m, thr + 1, b);
    }
    RowsContiguous(live', Min(first, c), m, thr + 1, head.number + 1);
  }

  lemma RowsLive(m: Table, first: nat, end: nat, a: nat, b: nat, x: BlockRef)
    requires Column(m, first, end)
    ensures x in Rows(m, a, b) ==> IsLive(m, x)
  {
    RowsMember(m, a, b, x);
  }

  lemma RowsContiguous(m: Table, first: nat, a: nat, b: nat, end: nat)
    requires Column(m, first, end) && first <= a && b <= end
    ensures Contiguous(Rows(m, a, b))
  {
    if a <= b { RowsAt(m, first, a, b, end); } else { EmptyRows(m, a, b); }
  }

  lemma NotifiedRows(live: Table, first: nat, lo: nat, e: nat, c: nat, end: nat)
    requires Column(live, first, end) && first <= lo && first <= e <= end && (c < lo ==> lo == first)
    ensures forall b :: b in Rows(live, c, e) <==> b in Rows(live, Max(c, lo), end) && IsLive(Below(live, e), b)
    ensures forall b :: b in Rows(live, Max(c, lo), end) && !IsLive(Below(live, e), b) ==> b in Rows(live, e, end)
  {
    forall b
      ensures b in Rows(live, c, e) <==> b in Rows(live, Max(c, lo), end) && IsLive(Below(live, e), b)
      ensures b in Rows(live, Max(c, lo), end) && !IsLive(Below(live, e), b) ==> b in Rows(live, e, end)
    {
      RowsMember(live, c, e, b);
      RowsMember(live, e, end, b);
      RowsMember(live, Max(c, lo), end, b);
    }
  }

  /** A reverted block is not live afterwards: the path holds another hash at its height, or none. */
  lemma RevertedGone(w: Window, lo: nat, first: nat, live: Table, head: BlockRef, path: seq<BlockRef>, b: BlockRef)
    requires Tracks(w, lo, first, live) && Meets(w, lo, head, path)
    requires b in Rows(live, Max(path[0].number, lo), w.tip + 1)
    ensures !IsLive(Graft(live, path), b)
  {
    var c := path[0].number;
    RowsMember(live, Max(c, lo), w.tip + 1, b);
    GraftAt(live, path, b.number);
    if b.number < c + |path| {
      assert path[b.number - c] in path && UnknownTo(w.known, path[b.number - c]);
      assert b.number in w.known && w.known[b.number] == b;
    }
  }

  // ---- Failed polls -------------------------------------------------------------------

  /** A poll whose head or reconciliation fails changes nothing and tells nobody. */
  lemma FailedPollKeeps(t: Tracker, reply: Reply, rd: Reader, k: nat)
    requires TipKnown(t.window) && !PollOnce(t, reply, rd, k).result.Polled?
    ensures var s := PollOnce(t, reply, rd, k);
            s.tracker == t && Downstream(s.result) == [] && Upstream(t, reply, rd, k) == []
  {
    if reply.Served? {
      FailureKeepsWindow(t.window, rd, k, reply.block);
    }
  }

  /** A poll reports the node's failure exactly when the node did not answer, and the reconciler's error exactly
      when the reconciler failed; otherwise it succeeds. */
  lemma PollFails(t: Tracker, reply: Reply, rd: Reader, k: nat)
    requires TipKnown(t.window)
    ensures var result := PollOnce(t, reply, rd, k).result;
            && (result.HeadFailed? <==> reply.Failed?)
            && (forall e :: result == ReconcileFailed(e) <==>
                  reply.Served? && OnHead(t.window, rd, k, reply.block).outcome == Failure(e))
            && (result.Polled? <==> reply.Served? && OnHead(t.window, rd, k, reply.block).outcome.Reconciled?)
  {
    hide OnHead, DropReverted, UpTo, Above, Sort;
  }

  predicate Fails(start: Tracker, polls: seq<TrackPoll>, p: TrackPoll)
    requires TipKnown(start.window)
  {
    !PollOnce(Run(start, polls).tracker, p.reply, p.reader, p.clock).result.Polled?
  }

  /** The run without the polls that fail in it. */
  function Succeeding(start: Tracker, polls: seq<TrackPoll>): seq<TrackPoll>
    requires TipKnown(start.window)
  {
    if polls == [] then []
    else
      var before, p := polls[..|polls| - 1], polls[|polls| - 1];
      Succeeding(start, before) + (if Fails(start, before, p) then [] else [p])
  }

  /** Failure leaves no trace: any run leaves the tracker and both streams as it leaves them without the
      polls that fail in it. */
  lemma {:induction false} FailedPollsErase(start: Tracker, polls: seq<TrackPoll>)
    requires TipKnown(start.window)
    ensures Run(start, Succeeding(start, polls)) == Run(start, polls)
    decreases |polls|
  {
    hide PollOnce, Run, Upstream, Downstream;
    if polls != [] {
      var before, p := polls[..|polls| - 1], polls[|polls| - 1];
      FailedPollsErase(start, before);
      assert polls == before + [p];
      RunSnoc(start, before, p);
      if Fails(start, before, p) {
        var r := Run(start, before);
        FailedPollKeeps(r.tracker, p.reply, p.reader, p.clock);
        assert r.up + [] == r.up && r.down + [] == r.down;
        assert Succeeding(start, polls) == Succeeding(start, before);
      } else {
        RunSnoc(start, Succeeding(start, before), p);
      }
    }
  }

  // ---- What the store holds -----------------------------------------------------------

  /** The last block announced at each height, whether or not it was reverted since. */
  function LastAt(log: seq<Event>): Table {
    if log == [] then map[]
    else
      var m, e := LastAt(log[..|log| - 1]), log[|log| - 1];
      if e.Canonical? then m[e.block.number := e.block] else m
  }

  function LastAnnounced(log: seq<Event>): Option<BlockRef> {
    if log == [] then None
    else if log[|log| - 1].Canonical? then Some(log[|log| - 1].block)
    else LastAnnounced(log[..|log| - 1])
  }

  lemma LastSnoc(log: seq<Event>, e: Event)
    ensures LastAt(log + [e]) == if e.Canonical? then LastAt(log)[e.block.number := e.block] else LastAt(log)
    ensures LastAnnounced(log + [e]) == if e.Canonical? then Some(e.block) else LastAnnounced(log)
  {
    assert (log + [e])[..|log|] == log;
  }

  lemma {:induction false} LastAfterReverts(log: seq<Event>, bs: seq<BlockRef>)
    ensures LastAt(log + Reverts(bs)) == LastAt(log) && LastAnnounced(log + Reverts(bs)) == LastAnnounced(log)
    decreases |bs|
  {
    hide LastAt, LastAnnounced;
    if bs == [] {
      assert log + Reverts(bs) == log;
    } else {
      var q := bs[..|bs| - 1];
      LastAfterReverts(log, q);
      LastSnoc(log + Reverts(q), Reverted(Last(bs)));
      assert log + Reverts(bs) == log + Reverts(q) + [Reverted(Last(bs))];
    }
  }

  lemma {:induction false} LastAfterAnnounces(log: seq<Event>, bs: seq<BlockRef>)
    ensures LastAt(log + Announces(bs)) == PutBlocks(LastAt(log), bs)
    ensures LastAnnounced(log + Announces(bs)) == if bs == [] then LastAnnounced(log) else Some(Last(bs))
    decreases |bs|
  {
    hide LastAt, LastAnnounced;
    if bs == [] {
      assert log + Announces(bs) == log;
    } else {
      var q := bs[..|bs| - 1];
      LastAfterAnnounces(log, q);
      LastSnoc(log + Announces(q), Canonical(Last(bs)));
      assert log + Announces(bs) == log + Announces(q) + [Canonical(Last(bs))];
    }
  }

  /** Over every run, safe or not, the store is a record of the consumer's stream: the row at each height is
      the last block announced there, reverted since or not, and the cursor is the last block announced. */
  lemma {:induction false} StoreMirrorsAnnouncements(maxDepth: nat, confirmDepth: nat, polls: seq<TrackPoll>)
    ensures TipKnown(Start(maxDepth, confirmDepth).window)
    ensures var r := Run(Start(maxDepth, confirmDepth), polls);
            r.tracker.rows == LastAt(r.down) && r.tracker.cursor == LastAnnounced(r.down)
    decreases |polls|
  {
    hide PollOnce, LastAt, LastAnnounced, Upstream;
    if polls == [] {
      LastOfNothing();
    } else {
      StoreMirrorsAnnouncements(maxDepth, confirmDepth, polls[..|polls| - 1]);
      var r, p := Run(Start(maxDepth, confirmDepth), polls[..|polls| - 1]), polls[|polls| - 1];
      PollStores(r.tracker, p.reply, p.reader, p.clock, r.down);
    }
  }

  lemma LastOfNothing()
    ensures LastAt([]) == map[] && LastAnnounced([]) == None
  {
  }

  lemma PollStores(t: Tracker, reply: Reply, rd: Reader, k: nat, log: seq<Event>)
    requires TipKnown(t.window) && t.rows == LastAt(log) && t.cursor == LastAnnounced(log)
    ensures var s := PollOnce(t, reply, rd, k);
            && s.tracker.rows == LastAt(log + Downstream(s.result))
            && s.tracker.cursor == LastAnnounced(log + Downstream(s.result))
  {
    hide OnHead, DropReverted, UpTo, Above, Sort, LastAt, LastAnnounced, Reverts, Announces, PutBlocks;
    var s := PollOnce(t, reply, rd, k);
    if s.result.Polled? {
      var reverted, emitted := s.result.reverted, s.result.emitted;
      LastAfterReverts(log, reverted);
      LastAfterAnnounces(log + Reverts(reverted), emitted);
      assert log + Downstream(s.result) == log + Reverts(reverted) + Announces(emitted);
    } else {
      assert log + Downstream(s.result) == log;
    }
  }
}

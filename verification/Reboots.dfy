/** Runs in which the tracker is also stopped, between polls or between two writes of one poll, and started
    again from storage. */
module Reboots {
  import opened Chain
  import opened Reconcile
  import opened ReorgLaws
  import opened Restarting
  import opened Stream
  import opened Track
  import opened TrackLaws
  import opened WindowLaws
  import Sorting
  import T = TrackRuns

  // ---- What a restart needs -----------------------------------------------------------

  /** The store has every block the consumer has, nothing below the consumer's first, and the cursor's row. */
  ghost predicate Stored(t: Tracker, emitted: Table, first: nat) {
    && KeyedByNumber(t.rows)
    && (forall n: nat :: n in emitted ==> n in t.rows && t.rows[n] == emitted[n])
    && (forall n: nat :: n in t.rows ==> n >= first)
    && (t.cursor.Some? ==> t.cursor.value.number in t.rows)
  }

  /** No row is of a height at which the consumer has no block - none is stale - and what will be reloaded is
      hash-linked; without a cursor, nothing has been stored. */
  ghost predicate ReloadsWell(t: Tracker, maxDepth: nat, emitted: Table) {
    if t.cursor.None? then emitted == map[] && t.rows == map[]
    else
      && t.rows != map[] && t.rows.Keys <= emitted.Keys
      && HashLinked(From(emitted, LoadFloor(Fresh(maxDepth).depth, ReloadFloor(t.cursor.value), TopKey(t.rows.Keys))))
  }

  ghost predicate CursorRow(t: Tracker) {
    if t.cursor.Some? then t.cursor.value.number in t.rows else t.rows == map[]
  }

  /** Sound, with everything the consumer has in the store. */
  ghost predicate Kept(t: Tracker, live: Table, emitted: Table) {
    Sound(t, live, emitted) && Archived(t, live) && CursorRow(t)
  }

  lemma RestartWindow(t: Tracker, maxDepth: nat)
    requires KeyedByNumber(t.rows) && t.cursor.Some? && t.cursor.value.number in t.rows
    ensures var top, r := TopKey(t.rows.Keys), Restart(t, maxDepth);
            && top in t.rows && (forall n: nat :: n in t.rows ==> n <= top)
            && r.window == Window(Fresh(maxDepth).depth,
               From(t.rows, LoadFloor(Fresh(maxDepth).depth, ReloadFloor(t.cursor.value), top)), top, true)
            && r.pending == [] && r.confirmDepth == t.confirmDepth && r.rows == t.rows && r.cursor == t.cursor
  {
    hide Rows, LoadKnown;
    var top := TopKey(t.rows.Keys);
    assert t.cursor.value.number <= top;
    EndOfIs(t.rows, top + 1);
    LoadKnownRows(maxDepth, t.rows, ReloadFloor(t.cursor.value), top);
  }

  /** What a restart reloads, exactly: the rows at most 256 heights below the cursor and at most the window's depth
      below the highest row, which becomes the tip. */
  lemma RestartLoads(t: Tracker, maxDepth: nat)
    requires KeyedByNumber(t.rows) && t.cursor.Some? && t.cursor.value.number in t.rows
    ensures var w := Restart(t, maxDepth).window;
            && w.seeded && w.tip in t.rows && (forall n: nat :: n in t.rows ==> n <= w.tip)
            && (forall n: nat :: n in w.known <==>
                  n in t.rows && n + 256 >= t.cursor.value.number && n + w.depth >= w.tip)
            && (forall n: nat :: n in w.known ==> w.known[n] == t.rows[n])
  {
    hide Restart;
    RestartWindow(t, maxDepth);
  }

  /** A reloaded window that is the consumer's chain from some height up, with nothing buffered. */
  lemma ReloadKept(r: Tracker, emitted: Table, first: nat, e: nat, floor: nat)
    requires Column(emitted, first, e) && first < e && floor < e <= floor + 1 + r.window.depth
    requires r.window == Window(r.window.depth, From(emitted, floor), e - 1, true) && r.pending == []
    requires HashLinked(From(emitted, floor)) && Stored(r, emitted, first) && r.cursor.Some?
    ensures Kept(r, emitted, emitted)
  {
    hide Rows, HashLinked;
    var from := Max(first, floor);
    assert From(emitted, floor) == From(emitted, from);
    assert Below(emitted, e) == emitted;
    EmptyRows(emitted, e, e);
    assert Buffered(r, from, first, e, emitted);
    SoundBy(r, from, first, e, emitted);
    ArchivedBy(r, from, first, e, emitted);
  }

  lemma UnlessKept(r: Tracker, emitted: Table, first: nat, e: nat, floor: nat)
    requires Column(emitted, first, e) && first <= e && Stored(r, emitted, first) && r.cursor.Some?
    requires r.window.seeded && r.window.known == From(r.rows, floor) && r.window.tip in r.rows
    requires forall n: nat :: n in r.rows ==> n <= r.window.tip
    requires Sound(r, emitted, emitted)
    ensures r.rows.Keys <= emitted.Keys && HashLinked(From(emitted, floor))
  {
    hide Rows;
    var lo: nat, first': nat, e': nat :| Buffered(r, lo, first', e', emitted) && emitted == Below(emitted, e');
    assert r.window.tip in emitted;
    assert r.rows == emitted;
  }

  /** Exactly when a restart is harmless: it leaves a tracker that is sound for what the consumer has if and
      only if no stored row is stale and the reloaded rows are linked. */
  lemma RestartKeptIff(t: Tracker, maxDepth: nat, emitted: Table, first: nat, e: nat)
    requires Column(emitted, first, e) && first <= e && Stored(t, emitted, first)
    ensures Kept(Restart(t, maxDepth), emitted, emitted) <==> ReloadsWell(t, maxDepth, emitted)
  {
    hide Restart, HashLinked, Sound, Archived, Column;
    if t.cursor.None? {
      RestartEmpty(t, maxDepth, emitted);
    } else {
      var r, top := Restart(t, maxDepth), TopKey(t.rows.Keys);
      var floor := LoadFloor(Fresh(maxDepth).depth, ReloadFloor(t.cursor.value), top);
      RestartWindow(t, maxDepth);
      if Kept(r, emitted, emitted) {
        UnlessKept(r, emitted, first, e, floor);
      }
      if ReloadsWell(t, maxDepth, emitted) {
        TopIsLast(t.rows, emitted, first, e, top);
        ReloadKept(r, emitted, first, e, floor);
      }
    }
  }

  /** The same for tracker and consumer alone, whatever the store holds beyond what is reloaded: without a cursor
      it is enough that the consumer has nothing. */
  lemma RestartSoundIff(t: Tracker, maxDepth: nat, emitted: Table, first: nat, e: nat)
    requires Column(emitted, first, e) && first <= e && Stored(t, emitted, first)
    ensures Sound(Restart(t, maxDepth), emitted, emitted) <==>
            if t.cursor.None? then emitted == map[] else ReloadsWell(t, maxDepth, emitted)
  {
    hide Restart, HashLinked, Sound, Archived, Column;
    if t.cursor.None? {
      NoCursorRestart(t, maxDepth, emitted);
    } else {
      RestartKeptIff(t, maxDepth, emitted, first, e);
      RestartWindow(t, maxDepth);
      if Sound(Restart(t, maxDepth), emitted, emitted) {
        var top := TopKey(t.rows.Keys);
        UnlessKept(Restart(t, maxDepth), emitted, first, e,
            LoadFloor(Fresh(maxDepth).depth, ReloadFloor(t.cursor.value), top));
      }
    }
  }

  lemma TopIsLast(rows: Table, emitted: Table, first: nat, e: nat, top: nat)
    requires Column(emitted, first, e) && rows.Keys <= emitted.Keys && top in rows
    requires forall n: nat :: n in emitted ==> n in rows && rows[n] == emitted[n]
    requires forall n: nat :: n in rows ==> n <= top
    ensures first < e && top == e - 1 && rows == emitted
  {
    assert e - 1 in emitted;
  }

  lemma RestartEmpty(t: Tracker, maxDepth: nat, emitted: Table)
    requires t.cursor.None?
    ensures Restart(t, maxDepth) == Tracker(Fresh(maxDepth), [], t.confirmDepth, t.rows, None)
    ensures Kept(Restart(t, maxDepth), emitted, emitted) <==> emitted == map[] && t.rows == map[]
  {
  }

  // ---- One poll -----------------------------------------------------------------------

  lemma KeptFacts(t: Tracker, live: Table, emitted: Table) returns (lo: nat, first: nat, e: nat)
    requires Kept(t, live, emitted) && t.window.seeded
    ensures Buffered(t, lo, first, e, live) && Archive(t, live, first, e) && emitted == Below(live, e)
  {
    hide Rows, Archive, Shows;
    lo, first, e :| Buffered(t, lo, first, e, live) && emitted == Below(live, e);
    var lo': nat, first': nat, e': nat :| Buffered(t, lo', first', e', live) && Archive(t, live, first', e');
    BufferedUnique(t, lo, first, e, lo', first', e', live);
  }

  lemma KeptStored(t: Tracker, live: Table, emitted: Table) returns (first: nat, e: nat)
    requires Kept(t, live, emitted)
    ensures first <= e && Column(emitted, first, e) && Stored(t, emitted, first)
  {
    hide Rows, Shows;
    if t.window.seeded {
      var lo;
      lo, first, e := KeptFacts(t, live, emitted);
    } else {
      first, e := 0, 0;
    }
  }

  lemma {:induction false} PutBlocksHolds(m: Table, bs: seq<BlockRef>)
    ensures m.Keys <= PutBlocks(m, bs).Keys && (bs != [] ==> Last(bs).number in PutBlocks(m, bs))
    decreases |bs|
  {
    if bs != [] {
      PutBlocksHolds(m, bs[..|bs| - 1]);
    }
  }

  lemma PollKeepsCursor(t: Tracker, reply: Reply, rd: Reader, k: nat)
    requires TipKnown(t.window) && CursorRow(t)
    ensures CursorRow(PollOnce(t, reply, rd, k).tracker)
  {
    hide OnHead, DropReverted, UpTo, Above, Sorting.Sort, PutBlocks;
    var s := PollOnce(t, reply, rd, k);
    if s.result.Polled? {
      PutBlocksHolds(t.rows, s.result.emitted);
      PutNothing(t.rows);
    }
  }

  lemma PutNothing(m: Table)
    ensures PutBlocks(m, []) == m
  {
  }

  /** A poll keeps tracker and store right exactly when it was allowed. */
  lemma PollKeptIff(t: Tracker, live: Table, emitted: Table, reply: Reply, rd: Reader, k: nat)
    requires TipKnown(t.window) && Kept(t, live, emitted)
    ensures var s := PollOnce(t, reply, rd, k);
            var live', emitted' := Replay(live, Upstream(t, reply, rd, k)), Replay(emitted, Downstream(s.result));
            live'.Some? && emitted'.Some? && Kept(s.tracker, live'.value, emitted'.value) <==>
                PollAllowed(t, live, reply, rd, k)
  {
    hide PollOnce, Sound, Archived, CursorRow, Replay, PollAllowed, Upstream, Downstream;
    T.PollSoundIff(t, live, emitted, reply, rd, k);
    PollKeepsCursor(t, reply, rd, k);
    if PollAllowed(t, live, reply, rd, k) {
      PollKeepsArchive(t, live, reply, rd, k);
    }
  }

  lemma {:induction false} RunKeepsCursor(start: Tracker, polls: seq<T.TrackPoll>)
    requires TipKnown(start.window) && CursorRow(start)
    ensures CursorRow(T.Run(start, polls).tracker)
    decreases |polls|
  {
    hide CursorRow, PollOnce, Upstream, Downstream;
    if polls != [] {
      var before, p := polls[..|polls| - 1], polls[|polls| - 1];
      RunKeepsCursor(start, before);
      PollKeepsCursor(T.Run(start, before).tracker, p.reply, p.reader, p.clock);
    }
  }

  lemma SafeRunKept(maxDepth: nat, confirmDepth: nat, polls: seq<T.TrackPoll>)
    requires T.SafeRun(Start(maxDepth, confirmDepth), map[], polls)
    ensures var r := T.Run(Start(maxDepth, confirmDepth), polls);
            && Replay(map[], r.up).Some? && Replay(map[], r.down).Some?
            && Kept(r.tracker, Replay(map[], r.up).value, Replay(map[], r.down).value)
  {
    hide T.Run, T.SafeRun, Replay;
    var start := Start(maxDepth, confirmDepth);
    T.StartSound(maxDepth, confirmDepth);
    T.Conservation(start, map[], map[], polls);
    RunKeepsArchive(start, map[], polls);
    RunKeepsCursor(start, polls);
  }

  // ---- Stopped between two writes -----------------------------------------------------

  /** A poll cut short after some of its blocks were stored and announced, before its batch was announced and
      its cursor saved: what the store holds, and what the consumer was told. */
  function Written(result: PollResult, writes: nat): seq<BlockRef> {
    if !result.Polled? then [] else if writes <= |result.emitted| then result.emitted[..writes] else result.emitted
  }

  function Interrupted(t: Tracker, result: PollResult, writes: nat): Tracker {
    t.(rows := PutBlocks(t.rows, Written(result, writes)))
  }

  function Told(result: PollResult, writes: nat): seq<Event> {
    if result.Polled? then Reverts(result.reverted) + Announces(Written(result, writes)) else []
  }

  lemma RowsPrefix(m: Table, first: nat, end: nat, a: nat, b: nat, i: nat)
    requires Column(m, first, end) && first <= a && b <= end && i <= |Rows(m, a, b)|
    ensures a + i <= Max(a, b) && Rows(m, a, b)[..i] == Rows(m, a, a + i)
  {
    if a <= b {
      RowsAt(m, first, a, b, end);
      RowsAt(m, first, a, a + i, end);
    } else {
      EmptyRows(m, a, b);
      EmptyRows(m, a, a);
    }
  }

  lemma RowsNumber(m: Table, first: nat, end: nat, a: nat, b: nat, i: nat)
    requires Column(m, first, end) && first <= a && b <= end && i < |Rows(m, a, b)|
    ensures Rows(m, a, b)[i].number == a + i
  {
    if a <= b {
      RowsAt(m, first, a, b, end);
    } else {
      EmptyRows(m, a, b);
    }
  }

  /** Everything in m is below the first emitted block not written. */
  ghost predicate BelowRest(m: Table, result: PollResult, writes: nat) {
    result.Polled? && writes < |result.emitted| ==> forall n: nat :: n in m ==> n < result.emitted[writes].number
  }

  ghost predicate StoredFrom(t: Tracker, emitted: Table) {
    exists first: nat, e: nat :: first <= e && Column(emitted, first, e) && Stored(t, emitted, first)
  }

  lemma ReconciledInterrupted(t: Tracker, lo: nat, first: nat, e: nat, live: Table, rd: Reader, k: nat,
        head: BlockRef, writes: nat)
    requires TipKnown(t.window) && Buffered(t, lo, first, e, live) && Archive(t, live, first, e) && CursorRow(t)
    requires !Duplicate(t.window, head) && OnHead(t.window, rd, k, head).outcome.Reconciled?
    requires Allowed(t.window, live, rd, k, head)
    ensures var result := PollOnce(t, Served(head), rd, k).result;
            var m := Replay(Below(live, e), Told(result, writes));
            m.Some? && StoredFrom(Interrupted(t, result, writes), m.value) && BelowRest(m.value, result, writes)
  {
    hide Rows, Graft, Settle, Allowed, GenesisSwapped, Replay, Shows, Written, PutBlocks, BelowRest;
    var w := t.window;
    OnHeadShape(w, lo, rd, k, head);
    AllowedGuards(w, lo, first, live, rd, k, head);
    var path := OnHead(w, rd, k, head).outcome.canonical;
    SettleStep(t, lo, first, e, live, head, path);
    GraftColumn(w, lo, first, live, head, path);
    var result := PollOnce(t, Served(head), rd, k).result;
    assert result == Settled(t, e, live, head, path).1;
    SplicedPartly(t, first, e, live, w.tip + 1, head, path, writes);
  }

  lemma SplicedPartly(t: Tracker, first: nat, e: nat, live: Table, end: nat, head: BlockRef, path: seq<BlockRef>,
        writes: nat)
    requires Column(live, first, end) && first <= e <= end && Archive(t, live, first, e) && CursorRow(t)
    requires path != [] && Contiguous(path) && path[0].number <= end && Last(path) == head
        && path[0].number <= head.number
    requires Column(Graft(live, path), Min(first, path[0].number), head.number + 1)
    ensures var result := Settled(t, e, live, head, path).1;
            var m := Replay(Below(live, e), Told(result, writes));
            m.Some? && StoredFrom(Interrupted(t, result, writes), m.value) && BelowRest(m.value, result, writes)
  {
    hide Rows, Graft, Replay, PutBlocks, Archive, Grafted, Contiguous, CursorRow, Column, StoredFrom;
    var c, thr, live' := path[0].number, Threshold(head.number, t.confirmDepth), Graft(live, path);
    var m, first' := Min(e, c), Min(first, c);
    var all := Rows(live', m, thr + 1);
    var i := if writes <= |all| then writes else |all|;
    var result := Settled(t, e, live, head, path).1;
    assert all[..|all|] == all;
    assert Written(result, writes) == all[..i];
    assert thr <= head.number;
    RowsPrefix(live', first', head.number + 1, m, thr + 1, i);
    DownstreamReplays(live, first, end, e, path, m + i);
    WrittenStored(t, first, e, live, head, path, m, i);
    assert Told(result, writes) == Reverts(Rows(live, c, e)) + Announces(Rows(live', m, m + i));
    if writes < |all| { RowsNumber(live', first', head.number + 1, m, thr + 1, writes); }
  }

  lemma WrittenStored(t: Tracker, first: nat, e: nat, live: Table, head: BlockRef, path: seq<BlockRef>, m: nat, i: nat)
    requires Archive(t, live, first, e) && CursorRow(t) && path != [] && Contiguous(path) && Last(path) == head
    requires m == Min(e, path[0].number) && m + i <= head.number + 1 && first <= e
    requires Column(Graft(live, path), Min(first, path[0].number), head.number + 1)
    ensures var emitted' := Below(Graft(live, path), m + i);
            StoredFrom(t.(rows := PutBlocks(t.rows, Rows(Graft(live, path), m, m + i))), emitted')
  {
    hide Rows, Graft, PutBlocks, Contiguous;
    var c, live', first' := path[0].number, Graft(live, path), Min(first, path[0].number);
    var t', emitted' := t.(rows := PutBlocks(t.rows, Rows(live', m, m + i))), Below(live', m + i);
    if i == 0 {
      EmptyRows(live', m, m);
      PutNothing(t.rows);
      forall n: nat | n < m
        ensures (n in live' <==> n in live) && (n in live ==> live'[n] == live[n])
      {
        GraftAt(live, path, n);
      }
    } else {
      ArchiveStep(t.rows, live, live', first, first', e, m, c, head.number, m + i - 1, path);
    }
    PutBlocksHolds(t.rows, Rows(live', m, m + i));
    assert Column(emitted', first', m + i);
    assert Stored(t', emitted', first');
  }

  lemma SeedInterrupted(t: Tracker, rd: Reader, k: nat, head: BlockRef, writes: nat)
    requires !t.window.seeded && TipKnown(t.window) && t.pending == [] && t.rows == map[] && CursorRow(t)
    ensures var result := PollOnce(t, Served(head), rd, k).result;
            var m := Replay(map[], Told(result, writes));
            m.Some? && StoredFrom(Interrupted(t, result, writes), m.value)
  {
    hide Rows, Settle, Replay;
    var n, live: Table := head.number, map[head.number := head];
    var thr, s := Threshold(head.number, t.confirmDepth), OnHead(t.window, rd, k, head);
    SeedSettles(t, head, s.window, thr);
    SingleRow(head);
    EmptyRows(live, n, n);
    SingleAnnounced(head);
    NothingTold();
    var result := PollOnce(t, Served(head), rd, k).result;
    assert result == Polled([], []) || result == Polled([], [head]);
    assert [head][..0] == [] && [head][..1] == [head];
    assert PutBlocks(map[], []) == map[] && PutBlocks(map[], [head]) == map[n := head];
    var t' := Interrupted(t, result, writes);
    if Written(result, writes) == [] {
      NothingToldOf(map[]);
      assert Told(result, writes) == [];
      assert Column(map[], 0, 0) && Stored(t', map[], 0);
    } else {
      assert [] + [Canonical(head)] == [Canonical(head)];
      assert Column(live, n, n + 1) && Stored(t', live, n);
    }
  }

  lemma NothingTold()
    ensures Reverts([]) == [] && Announces([]) == [] && Replay(map[], []) == Some(map[])
  {
  }

  lemma NothingToldOf(emitted: Table)
    ensures Replay(emitted, []) == Some(emitted) && Reverts([]) + Announces([]) == []
  {
  }

  /** However many of its blocks a poll got to write, the consumer's stream makes sense and the store has
      what the consumer was told. */
  lemma InterruptedStored(t: Tracker, live: Table, emitted: Table, reply: Reply, rd: Reader, k: nat, writes: nat)
    requires TipKnown(t.window) && Kept(t, live, emitted) && PollAllowed(t, live, reply, rd, k)
    ensures var result := PollOnce(t, reply, rd, k).result;
            var m := Replay(emitted, Told(result, writes));
            m.Some? && StoredFrom(Interrupted(t, result, writes), m.value)
  {
    hide Replay, OnHead, Allowed, Settle, Sound, Archived, Buffered, Archive, StoredFrom;
    var result := PollOnce(t, reply, rd, k).result;
    PutNothing(t.rows);
    NothingToldOf(emitted);
    KeptStoredFrom(t, live, emitted);
    if result.Polled? && !t.window.seeded {
      UnseededEmpty(t, live, emitted);
      SeedInterrupted(t, rd, k, reply.block, writes);
    } else if result.Polled? {
      var lo, first, e := KeptFacts(t, live, emitted);
      if Duplicate(t.window, reply.block) {
        DuplicateResult(t, lo, first, e, live, rd, k, reply.block);
      } else {
        ReconciledInterrupted(t, lo, first, e, live, rd, k, reply.block, writes);
      }
    }
  }

  lemma KeptStoredFrom(t: Tracker, live: Table, emitted: Table)
    requires Kept(t, live, emitted)
    ensures StoredFrom(t, emitted)
  {
    var first, e := KeptStored(t, live, emitted);
  }

  lemma UnseededEmpty(t: Tracker, live: Table, emitted: Table)
    requires Kept(t, live, emitted) && !t.window.seeded
    ensures t.pending == [] && t.rows == map[] && live == map[] && emitted == map[]
  {
  }

  lemma DuplicateResult(t: Tracker, lo: nat, first: nat, e: nat, live: Table, rd: Reader, k: nat, head: BlockRef)
    requires TipKnown(t.window) && Buffered(t, lo, first, e, live) && Duplicate(t.window, head)
    ensures PollOnce(t, Served(head), rd, k).result == Polled([], [])
  {
    hide Rows, Settle;
    DuplicateStep(t, lo, first, e, live, head);
  }

  // ---- What a crash loses -------------------------------------------------------------

  lemma {:induction false} RevertsKeep(live: Table, bs: seq<BlockRef>, b: BlockRef)
    requires Replay(live, Reverts(bs)).Some? && IsLive(live, b) && b !in bs
    ensures IsLive(Replay(live, Reverts(bs)).value, b)
    decreases |bs|
  {
    if bs != [] {
      var q := bs[..|bs| - 1];
      assert forall x :: x in q ==> x in bs;
      assert Last(bs) in bs;
      ReplayConcat(live, Reverts(q), [Reverted(Last(bs))]);
      RevertsKeep(live, q, b);
    }
  }

  lemma {:induction false} AnnouncesFresh(live: Table, bs: seq<BlockRef>, b: BlockRef)
    requires Replay(live, Announces(bs)).Some? && b in bs
    ensures b.number !in live && (forall n :: n in live ==> n in Replay(live, Announces(bs)).value)
    decreases |bs|
  {
    var q := bs[..|bs| - 1];
    ReplayConcat(live, Announces(q), [Canonical(Last(bs))]);
    AnnouncesGrow(live, q);
    if b in q {
      AnnouncesFresh(live, q, b);
    }
  }

  lemma {:induction false} AnnouncesGrow(live: Table, bs: seq<BlockRef>)
    requires Replay(live, Announces(bs)).Some?
    ensures forall n :: n in live ==> n in Replay(live, Announces(bs)).value
    decreases |bs|
  {
    if bs != [] {
      ReplayConcat(live, Announces(bs[..|bs| - 1]), [Canonical(Last(bs))]);
      AnnouncesGrow(live, bs[..|bs| - 1]);
    }
  }

  /** A sound tracker's poll emits no block the consumer already has, unless it first reverts it. */
  lemma NotGivenTwice(t: Tracker, live: Table, emitted: Table, reply: Reply, rd: Reader, k: nat, b: BlockRef)
    requires TipKnown(t.window) && Sound(t, live, emitted) && PollAllowed(t, live, reply, rd, k)
    requires PollOnce(t, reply, rd, k).result.Polled? && IsLive(emitted, b)
    ensures var result := PollOnce(t, reply, rd, k).result;
            b in result.emitted ==> b in result.reverted
  {
    hide PollOnce, Replay, Sound, PollAllowed, Upstream;
    PollKeepsSound(t, live, emitted, reply, rd, k);
    var result := PollOnce(t, reply, rd, k).result;
    ReplayConcat(emitted, Reverts(result.reverted), Announces(result.emitted));
    if b in result.emitted && b !in result.reverted {
      RevertsKeep(emitted, result.reverted, b);
      AnnouncesFresh(Replay(emitted, Reverts(result.reverted)).value, result.emitted, b);
    }
  }

  /** A crash between two writes, exactly: the blocks already written count as delivered. Restarting is
      harmless if and only if the rows reload well, and then the next poll's batch holds none of them unless
      it first reverts them - although the batch callback never saw them. */
  lemma CrashKeptIff(t: Tracker, live: Table, emitted: Table, reply: Reply, rd: Reader, k: nat, writes: nat,
        maxDepth: nat)
    requires TipKnown(t.window) && Kept(t, live, emitted) && PollAllowed(t, live, reply, rd, k)
    ensures var result := PollOnce(t, reply, rd, k).result;
            var t', m := Interrupted(t, result, writes), Replay(emitted, Told(result, writes));
            && m.Some?
            && (forall b :: b in Written(result, writes) ==> IsLive(m.value, b))
            && (Kept(Restart(t', maxDepth), m.value, m.value) <==> ReloadsWell(t', maxDepth, m.value))
  {
    hide PollOnce, Replay, Kept, ReloadsWell, Restart, PollAllowed, Stored, Column, Interrupted, Written;
    InterruptedStored(t, live, emitted, reply, rd, k, writes);
    var result := PollOnce(t, reply, rd, k).result;
    var t', m := Interrupted(t, result, writes), Replay(emitted, Told(result, writes)).value;
    var first: nat, e: nat :| first <= e && Column(m, first, e) && Stored(t', m, first);
    RestartKeptIff(t', maxDepth, m, first, e);
    if result.Polled? {
      ReplayConcat(emitted, Reverts(result.reverted), Announces(Written(result, writes)));
      AnnouncedLive(Replay(emitted, Reverts(result.reverted)).value, Written(result, writes));
    } else {
      NothingWritten(result, writes);
    }
  }

  lemma NothingWritten(result: PollResult, writes: nat)
    requires !result.Polled?
    ensures Written(result, writes) == []
  {
  }

  lemma {:induction false} AnnouncedLive(live: Table, bs: seq<BlockRef>)
    requires Replay(live, Announces(bs)).Some?
    ensures forall b :: b in bs ==> IsLive(Replay(live, Announces(bs)).value, b)
    decreases |bs|
  {
    if bs != [] {
      var q := bs[..|bs| - 1];
      ReplayConcat(live, Announces(q), [Canonical(Last(bs))]);
      AnnouncedLive(live, q);
      assert bs == q + [Last(bs)];
    }
  }

  /** So what a crash left written is skipped by the next batch. */
  lemma CrashSkips(t: Tracker, live: Table, emitted: Table, reply: Reply, rd: Reader, k: nat, writes: nat,
        maxDepth: nat, reply': Reply, rd': Reader, k': nat, b: BlockRef)
    requires TipKnown(t.window) && Kept(t, live, emitted) && PollAllowed(t, live, reply, rd, k)
    requires var result := PollOnce(t, reply, rd, k).result;
             var t', m := Interrupted(t, result, writes), Replay(emitted, Told(result, writes));
             && b in Written(result, writes) && m.Some? && ReloadsWell(t', maxDepth, m.value)
             && TipKnown(Restart(t', maxDepth).window)
             && PollAllowed(Restart(t', maxDepth), m.value, reply', rd', k')
    ensures var result := PollOnce(t, reply, rd, k).result;
            var next := PollOnce(Restart(Interrupted(t, result, writes), maxDepth), reply', rd', k').result;
            next.Polled? && b in next.emitted ==> b in next.reverted
  {
    hide PollOnce, Replay, ReloadsWell, Restart, PollAllowed, Interrupted, Written, Told, Archived, CursorRow, Sound;
    CrashKeptIff(t, live, emitted, reply, rd, k, writes, maxDepth);
    var result := PollOnce(t, reply, rd, k).result;
    var r, m := Restart(Interrupted(t, result, writes), maxDepth), Replay(emitted, Told(result, writes)).value;
    if PollOnce(r, reply', rd', k').result.Polled? {
      NotGivenTwice(r, m, m, reply', rd', k', b);
    }
  }

  /** With a cursor, what a restarted tracker takes for its tip is the highest row. */
  lemma TipAboveConsumer(t: Tracker, maxDepth: nat, emitted: Table, n: nat)
    requires KeyedByNumber(t.rows) && t.cursor.Some? && t.cursor.value.number in t.rows
    requires n in t.rows && forall k: nat :: k in emitted ==> k < n
    ensures !Sound(Restart(t, maxDepth), emitted, emitted)
  {
    hide Restart, Sound, LoadKnown, Rows;
    RestartWindow(t, maxDepth);
    SoundTip(Restart(t, maxDepth), emitted);
  }

  lemma SoundTip(r: Tracker, emitted: Table)
    requires r.window.seeded
    ensures Sound(r, emitted, emitted) ==> r.window.tip in emitted
  {
    hide Rows;
    if Sound(r, emitted, emitted) {
      var lo: nat, first: nat, e: nat :| Buffered(r, lo, first, e, emitted) && emitted == Below(emitted, e);
    }
  }

  lemma NoCursorRestart(t: Tracker, maxDepth: nat, emitted: Table)
    requires t.cursor.None?
    ensures Sound(Restart(t, maxDepth), emitted, emitted) <==> emitted == map[]
  {
  }

  /** A crash after a block was stored and before it was announced. With a cursor the restarted tracker takes the
      block for delivered, and the consumer was never told of it; without one nothing is reloaded. Exactly:
      tracker and consumer still agree if and only if there is no cursor and the consumer has nothing. */
  lemma HalfWrittenSoundIff(t: Tracker, live: Table, emitted: Table, reply: Reply, rd: Reader, k: nat, writes: nat,
        maxDepth: nat)
    requires TipKnown(t.window) && Kept(t, live, emitted) && PollAllowed(t, live, reply, rd, k)
    requires var result := PollOnce(t, reply, rd, k).result; result.Polled? && writes < |result.emitted|
    ensures var result := PollOnce(t, reply, rd, k).result;
            var t', m := Interrupted(t, result, writes + 1), Replay(emitted, Told(result, writes));
            && m.Some? && !Kept(Restart(t', maxDepth), m.value, m.value)
            && (Sound(Restart(t', maxDepth), m.value, m.value) <==> t.cursor.None? && m.value == map[])
  {
    hide PollOnce, Replay, Sound, Archived, Restart, PollAllowed, Reverts, Announces, PutBlocks, BelowRest, Told;
    InterruptedStored(t, live, emitted, reply, rd, k, writes);
    InterruptedStored(t, live, emitted, reply, rd, k, writes + 1);
    var result := PollOnce(t, reply, rd, k).result;
    var t', m := Interrupted(t, result, writes + 1), Replay(emitted, Told(result, writes)).value;
    var b, written := result.emitted[writes], Written(result, writes + 1);
    assert written != [] && Last(written) == b;
    PutBlocksHolds(t.rows, written);
    if t.cursor.None? {
      NoCursorRestart(t', maxDepth, m);
      RestartEmpty(t', maxDepth, m);
    } else {
      SeededByRows(t, live, emitted);
      RestBelow(t, live, emitted, reply, rd, k, writes);
      BelowRestIs(m, result, writes);
      TipAboveConsumer(t', maxDepth, m, b.number);
    }
  }

  lemma BelowRestIs(m: Table, result: PollResult, writes: nat)
    requires BelowRest(m, result, writes) && result.Polled? && writes < |result.emitted|
    ensures forall n: nat :: n in m ==> n < result.emitted[writes].number
  {
  }

  lemma SeededByRows(t: Tracker, live: Table, emitted: Table)
    requires Kept(t, live, emitted) && t.cursor.Some?
    ensures t.window.seeded
  {
  }

  lemma RestBelow(t: Tracker, live: Table, emitted: Table, reply: Reply, rd: Reader, k: nat, writes: nat)
    requires TipKnown(t.window) && Kept(t, live, emitted) && PollAllowed(t, live, reply, rd, k) && t.window.seeded
    requires var result := PollOnce(t, reply, rd, k).result; result.Polled? && writes < |result.emitted|
    ensures var result := PollOnce(t, reply, rd, k).result;
            var m := Replay(emitted, Told(result, writes));
            m.Some? && BelowRest(m.value, result, writes)
  {
    hide Replay, OnHead, Allowed, Settle, Sound, Archived, Buffered, Archive, StoredFrom, BelowRest, Told;
    var lo, first, e := KeptFacts(t, live, emitted);
    if Duplicate(t.window, reply.block) {
      DuplicateResult(t, lo, first, e, live, rd, k, reply.block);
    } else {
      ReconciledInterrupted(t, lo, first, e, live, rd, k, reply.block, writes);
    }
  }

  // ---- Mixed runs ---------------------------------------------------------------------

  datatype Turn = Ask(poll: T.TrackPoll) | Reboot | Crash(poll: T.TrackPoll, writes: nat)

  /** The tracker, the chain it works on, and what the consumer has. */
  datatype World = World(tracker: Tracker, live: Table, emitted: Table)

  /** One turn; None when the consumer - or the tracker - is told something that makes no sense. After a
      restart the tracker works on what the consumer has: what was buffered is forgotten. */
  ghost function Turned(w: World, turn: Turn, maxDepth: nat): (w': Option<World>)
    requires TipKnown(w.tracker.window)
    ensures w'.Some? ==> TipKnown(w'.value.tracker.window)
  {
    match turn
    case Ask(p) =>
      T.PollKeepsTip(w.tracker, p.reply, p.reader, p.clock);
      var s := PollOnce(w.tracker, p.reply, p.reader, p.clock);
      var live', emitted' := Replay(w.live, Upstream(w.tracker, p.reply, p.reader, p.clock)),
          Replay(w.emitted, Downstream(s.result));
      if live'.Some? && emitted'.Some? then Some(World(s.tracker, live'.value, emitted'.value)) else None
    case Reboot =>
      RestartTipKnown(w.tracker, maxDepth);
      Some(World(Restart(w.tracker, maxDepth), w.emitted, w.emitted))
    case Crash(p, writes) =>
      var result := PollOnce(w.tracker, p.reply, p.reader, p.clock).result;
      var t', m := Interrupted(w.tracker, result, writes), Replay(w.emitted, Told(result, writes));
      RestartTipKnown(t', maxDepth);
      if m.Some? then Some(World(Restart(t', maxDepth), m.value, m.value)) else None
  }

  lemma RestartTipKnown(t: Tracker, maxDepth: nat)
    ensures TipKnown(Restart(t, maxDepth).window)
  {
    if t.cursor.Some? {
      LoadKnownKeepsTip(Fresh(maxDepth), Rows(t.rows, ReloadFloor(t.cursor.value), EndOf(t.rows)));
    }
  }

  /** A poll is allowed, and whenever the tracker is restarted the rows reload well. */
  ghost predicate TurnAllowed(w: World, turn: Turn, maxDepth: nat)
    requires TipKnown(w.tracker.window)
  {
    match turn
    case Ask(p) => PollAllowed(w.tracker, w.live, p.reply, p.reader, p.clock)
    case Reboot => ReloadsWell(w.tracker, maxDepth, w.emitted)
    case Crash(p, writes) =>
      && PollAllowed(w.tracker, w.live, p.reply, p.reader, p.clock)
      && var result := PollOnce(w.tracker, p.reply, p.reader, p.clock).result;
         var m := Replay(w.emitted, Told(result, writes));
         m.Some? ==> ReloadsWell(Interrupted(w.tracker, result, writes), maxDepth, m.value)
  }

  ghost predicate KeptWorld(w: Option<World>) {
    w.Some? && Kept(w.value.tracker, w.value.live, w.value.emitted)
  }

  lemma TurnKept(w: World, turn: Turn, maxDepth: nat)
    requires TipKnown(w.tracker.window) && Kept(w.tracker, w.live, w.emitted)
    ensures TurnAllowed(w, turn, maxDepth) ==> KeptWorld(Turned(w, turn, maxDepth))
    ensures !turn.Crash? && KeptWorld(Turned(w, turn, maxDepth)) ==> TurnAllowed(w, turn, maxDepth)
  {
    hide PollOnce, Replay, Kept, Restart, ReloadsWell, PollAllowed, Upstream, Downstream, Interrupted, Told, Written;
    match turn
    case Ask(p) =>
      PollKeptIff(w.tracker, w.live, w.emitted, p.reply, p.reader, p.clock);
    case Reboot =>
      var first, e := KeptStored(w.tracker, w.live, w.emitted);
      RestartKeptIff(w.tracker, maxDepth, w.emitted, first, e);
    case Crash(p, writes) =>
      if PollAllowed(w.tracker, w.live, p.reply, p.reader, p.clock) {
        CrashKeptIff(w.tracker, w.live, w.emitted, p.reply, p.reader, p.clock, writes, maxDepth);
      }
  }

  ghost function Life(w: World, turns: seq<Turn>, maxDepth: nat): (w': Option<World>)
    requires TipKnown(w.tracker.window)
    ensures w'.Some? ==> TipKnown(w'.value.tracker.window)
  {
    if turns == [] then Some(w)
    else
      match Life(w, turns[..|turns| - 1], maxDepth)
      case None => None
      case Some(now) => Turned(now, turns[|turns| - 1], maxDepth)
  }

  ghost predicate SafeLife(w: World, turns: seq<Turn>, maxDepth: nat)
    requires TipKnown(w.tracker.window)
  {
    turns == [] ||
    (var before := turns[..|turns| - 1];
     && SafeLife(w, before, maxDepth)
     && Life(w, before, maxDepth).Some?
     && TurnAllowed(Life(w, before, maxDepth).value, turns[|turns| - 1], maxDepth))
  }

  ghost predicate KeptThroughout(w: World, turns: seq<Turn>, maxDepth: nat)
    requires TipKnown(w.tracker.window)
  {
    && (turns == [] || KeptThroughout(w, turns[..|turns| - 1], maxDepth))
    && KeptWorld(Life(w, turns, maxDepth))
  }

  /** Runs that mix polls, restarts and crashes between any two writes: tracker, store and consumer agree after
      every turn when every turn was allowed; and without crashes, only then. */
  lemma {:induction false} LifeKept(w: World, turns: seq<Turn>, maxDepth: nat)
    requires TipKnown(w.tracker.window) && Kept(w.tracker, w.live, w.emitted)
    ensures SafeLife(w, turns, maxDepth) ==> KeptThroughout(w, turns, maxDepth)
    ensures (forall i :: 0 <= i < |turns| ==> !turns[i].Crash?) && KeptThroughout(w, turns, maxDepth) ==>
        SafeLife(w, turns, maxDepth)
    decreases |turns|
  {
    hide Turned, TurnAllowed, Kept;
    if turns != [] {
      var before, last := turns[..|turns| - 1], turns[|turns| - 1];
      LifeKept(w, before, maxDepth);
      var now := Life(w, before, maxDepth);
      if KeptWorld(now) {
        TurnKept(now.value, last, maxDepth);
      }
    }
  }

  lemma FreshKept(maxDepth: nat, confirmDepth: nat)
    ensures TipKnown(Start(maxDepth, confirmDepth).window) && Kept(Start(maxDepth, confirmDepth), map[], map[])
  {
    T.StartSound(maxDepth, confirmDepth);
  }

  /** From an empty store. */
  lemma FreshLife(maxDepth: nat, confirmDepth: nat, turns: seq<Turn>)
    ensures TipKnown(Start(maxDepth, confirmDepth).window)
    ensures var w := World(Start(maxDepth, confirmDepth), map[], map[]);
            && (SafeLife(w, turns, maxDepth) ==> KeptThroughout(w, turns, maxDepth))
            && ((forall i :: 0 <= i < |turns| ==> !turns[i].Crash?) && KeptThroughout(w, turns, maxDepth) ==>
               SafeLife(w, turns, maxDepth))
  {
    hide SafeLife, KeptThroughout, Kept;
    FreshKept(maxDepth, confirmDepth);
    LifeKept(World(Start(maxDepth, confirmDepth), map[], map[]), turns, maxDepth);
  }
}

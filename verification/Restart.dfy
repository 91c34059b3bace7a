/** Stopping the tracker after a poll and starting it again from storage: when the next poll reports and
    emits the same blocks as if it had not been stopped. */
module Restarting {
  import opened Chain
  import opened Reconcile
  import opened FastPath
  import opened ReorgLaws
  import opened Stream
  import opened Track
  import opened TrackLaws
  import BL = BufferLinks
  import Sorting
  import T = TrackRuns
  import opened WindowLaws

  // ---- What the store holds -----------------------------------------------------------

  /** Every block the consumer has is the row at its height, and no row is below the live chain. */
  ghost predicate Archive(t: Tracker, live: Table, first: nat, e: nat) {
    && KeyedByNumber(t.rows)
    && (forall n: nat :: n in live && n < e ==> n in t.rows && t.rows[n] == live[n])
    && (forall n: nat :: n in t.rows ==> n >= first)
  }

  ghost predicate Archived(t: Tracker, live: Table) {
    if t.window.seeded then
      exists lo: nat, first: nat, e: nat :: Buffered(t, lo, first, e, live) && Archive(t, live, first, e)
    else t.window.known == map[] && t.window.tip == 0 && t.pending == [] && live == map[] && t.rows == map[]
  }

  lemma SettledArchive(t: Tracker, lo: nat, first: nat, e: nat, live: Table, head: BlockRef, path: seq<BlockRef>)
    requires Buffered(t, lo, first, e, live) && Archive(t, live, first, e) && Meets(t.window, lo, head, path)
    requires head.number < lo ==> first == lo
    ensures Archive(Settled(t, e, live, head, path).0, Graft(live, path), Min(first, path[0].number),
                    Max(Min(e, path[0].number), Threshold(head.number, t.confirmDepth) + 1))
  {
    hide Rows, Graft, HashLinked, AllUnknown, Grafted, PutBlocks;
    var c, thr, live' := path[0].number, Threshold(head.number, t.confirmDepth), Graft(live, path);
    var m := Min(e, c);
    GraftColumn(t.window, lo, first, live, head, path);
    ArchiveStep(t.rows, live, live', first, Min(first, c), e, m, c, head.number, thr, path);
  }

  lemma ArchiveStep(rows: Table, live: Table, live': Table, first: nat, first': nat, e: nat, m: nat, c: nat, top: nat,
        thr: nat, path: seq<BlockRef>)
    requires KeyedByNumber(rows) && path != [] && Contiguous(path) && path[0].number == c && live' == Graft(live, path)
    requires forall n: nat :: n in live && n < e ==> n in rows && rows[n] == live[n]
    requires forall n: nat :: n in rows ==> n >= first
    requires Column(live', first', top + 1) && first' <= first && first' <= m && m == Min(e, c) && thr <= top
    ensures var rows' := PutBlocks(rows, Rows(live', m, thr + 1));
            && KeyedByNumber(rows')
            && (forall n: nat :: n in live' && n < Max(m, thr + 1) ==> n in rows' && rows'[n] == live'[n])
            && (forall n: nat :: n in rows' ==> n >= first')
  {
    hide Rows, PutBlocks, Graft;
    var emit := Rows(live', m, thr + 1);
    if m <= thr + 1 { RowsAt(live', first', m, thr + 1, top + 1); } else { EmptyRows(live', m, thr + 1); }
    var rows' := PutBlocks(rows, emit);
    forall n: nat
      ensures n in rows' ==> rows'[n].number == n && n >= first'
      ensures n in live' && n < Max(m, thr + 1) ==> n in rows' && rows'[n] == live'[n]
    {
      PutBlocksAt(rows, emit, n);
      GraftAt(live, path, n);
    }
  }

  lemma PollKeepsArchive(t: Tracker, live: Table, reply: Reply, rd: Reader, k: nat)
    requires TipKnown(t.window) && Archived(t, live) && PollAllowed(t, live, reply, rd, k)
    ensures var live' := Replay(live, Upstream(t, reply, rd, k));
            live'.Some? && Archived(PollOnce(t, reply, rd, k).tracker, live'.value)
  {
    if reply.Served? {
      var head := reply.block;
      if !t.window.seeded {
        SeedArchive(t, rd, k, head);
      } else {
        var lo: nat, first: nat, e: nat :| Buffered(t, lo, first, e, live) && Archive(t, live, first, e);
        if OnHead(t.window, rd, k, head).outcome.Failure? {
          FailureKeepsWindow(t.window, rd, k, head);
        } else if Duplicate(t.window, head) {
          DuplicateStep(t, lo, first, e, live, head);
          assert Reverts([]) + Announces([]) == [];
        } else {
          ReconciledArchive(t, lo, first, e, live, rd, k, head);
        }
      }
    }
  }

  lemma ReconciledArchive(t: Tracker, lo: nat, first: nat, e: nat, live: Table, rd: Reader, k: nat, head: BlockRef)
    requires Buffered(t, lo, first, e, live) && Archive(t, live, first, e) && !Duplicate(t.window, head)
    requires OnHead(t.window, rd, k, head).outcome.Reconciled? && Allowed(t.window, live, rd, k, head)
    ensures var live' := Replay(live, Upstream(t, Served(head), rd, k));
            live'.Some? && Archived(PollOnce(t, Served(head), rd, k).tracker, live'.value)
  {
    hide Settle, Rows, Graft, Allowed, GenesisSwapped, Events, Replay, Archive, HashLinked;
    var w := t.window;
    BL.ReconciledInside(t, lo, first, e, live, rd, k, head);
    OnHeadShape(w, lo, rd, k, head);
    AllowedGuards(w, lo, first, live, rd, k, head);
    var path := OnHead(w, rd, k, head).outcome.canonical;
    SettleStep(t, lo, first, e, live, head, path);
    SettledArchive(t, lo, first, e, live, head, path);
  }

  lemma SeedArchive(t: Tracker, rd: Reader, k: nat, head: BlockRef)
    requires !t.window.seeded && Archived(t, map[])
    ensures var live' := Replay(map[], Upstream(t, Served(head), rd, k));
            live'.Some? && Archived(PollOnce(t, Served(head), rd, k).tracker, live'.value)
  {
    hide Replay, Upstream, Buffered, PollOnce;
    var n, live: Table, s := head.number, map[head.number := head], PollOnce(t, Served(head), rd, k).tracker;
    var e := Max(n, Threshold(n, t.confirmDepth) + 1);
    BL.SeedInside(t, rd, k, head);
    SeedRows(t, rd, k, head);
    ArchivedBy(s, n, n, e, live);
  }

  lemma ArchivedBy(t: Tracker, lo: nat, first: nat, e: nat, live: Table)
    requires Buffered(t, lo, first, e, live) && Archive(t, live, first, e)
    ensures Archived(t, live)
  {
  }

  lemma SeedRows(t: Tracker, rd: Reader, k: nat, head: BlockRef)
    requires !t.window.seeded && TipKnown(t.window) && t.pending == [] && t.rows == map[]
    ensures PollOnce(t, Served(head), rd, k).tracker.rows ==
            if head.number <= Threshold(head.number, t.confirmDepth) then map[head.number := head] else map[]
  {
    hide OnHead, Sorting.Sort;
    var s := OnHead(t.window, rd, k, head);
    assert s.outcome == Reconciled([head], []) by { FirstStep(t.window, rd, k, head); }
    SeedDrops(t.pending, head);
    var thr := Threshold(head.number, t.confirmDepth);
    assert [head][..0] == [];
    assert UpTo([], thr) == [];
    assert UpTo([head], thr) == if head.number <= thr then [head] else [];
    SortOne(UpTo([head], thr));
    assert PutBlocks(map[], []) == map[];
  }

  lemma SortOne(s: seq<BlockRef>)
    requires |s| <= 1
    ensures Sorting.Sort(NumberLeq, s) == s
  {
    Sorting.SortKeepsOrdered(NumberLeq, s);
  }

  lemma {:induction false} RunKeepsArchive(start: Tracker, live: Table, polls: seq<T.TrackPoll>)
    requires TipKnown(start.window) && Archived(start, live) && T.SafeRun(start, live, polls)
    ensures var r := T.Run(start, polls);
            Replay(live, r.up).Some? && Archived(r.tracker, Replay(live, r.up).value)
    decreases |polls|
  {
    hide Archived, PollOnce, Upstream, Downstream, PollAllowed, Replay;
    if polls != [] {
      var before, p := polls[..|polls| - 1], polls[|polls| - 1];
      RunKeepsArchive(start, live, before);
      var r := T.Run(start, before);
      PollKeepsArchive(r.tracker, Replay(live, r.up).value, p.reply, p.reader, p.clock);
      ReplayConcat(live, r.up, Upstream(r.tracker, p.reply, p.reader, p.clock));
    } else {
      T.RunEmpty(start, live);
      assert polls == [];
    }
  }

  // ---- The reloaded tracker -----------------------------------------------------------

  /** The lowest block reloaded: the first live one, unless the window or the reload span is shorter. */
  function ReloadedFrom(t: Tracker, maxDepth: nat, first: nat): nat
    requires t.cursor.Some?
  {
    Max(first, LoadFloor(Fresh(maxDepth).depth, ReloadFloor(t.cursor.value), t.cursor.value.number))
  }

  /** The cursor row is the highest row, and the consumer still has that block. */
  ghost predicate CursorOnTop(t: Tracker, live: Table, e: nat) {
    && t.cursor.Some?
    && IsLive(Below(live, e), t.cursor.value)
    && forall n: nat :: n in t.rows ==> n <= t.cursor.value.number
  }

  lemma CursorIsLastEmitted(t: Tracker, lo: nat, first: nat, e: nat, live: Table)
    requires Buffered(t, lo, first, e, live) && Archive(t, live, first, e) && CursorOnTop(t, live, e)
    ensures e > first && t.cursor == Some(live[e - 1]) && t.cursor.value.number == e - 1
  {
    assert e - 1 in live;
  }

  /** The restarted tracker holds the consumer's blocks from ReloadedFrom up, with nothing buffered. */
  lemma RestartBuffered(t: Tracker, maxDepth: nat, lo: nat, first: nat, e: nat, live: Table)
    requires Buffered(t, lo, first, e, live) && Archive(t, live, first, e) && CursorOnTop(t, live, e)
    requires HashLinked(From(Below(live, e), ReloadedFrom(t, maxDepth, first)))
    ensures e > first && e > 0
    ensures var r, from := Restart(t, maxDepth), ReloadedFrom(t, maxDepth, first);
            && Buffered(r, from, from, e, From(Below(live, e), from)) && r.confirmDepth == t.confirmDepth
            && r.window == Window(Fresh(maxDepth).depth, From(Below(live, e), from), e - 1, true)
  {
    hide Rows, HashLinked, Shows, LoadKnown;
    CursorIsLastEmitted(t, lo, first, e, live);
    var top, min, d := e - 1, ReloadFloor(t.cursor.value), Fresh(maxDepth).depth;
    var floor := LoadFloor(d, min, top);
    assert top in t.rows && forall n: nat :: n in t.rows ==> n <= top;
    LoadKnownRows(maxDepth, t.rows, min, top);
    EndOfIs(t.rows, e);
    ReloadedTable(t, live, first, e, lo, floor);
    ReloadedBuffered(t, Restart(t, maxDepth), d, lo, first, e, Max(first, floor), live);
  }

  lemma ReloadedBuffered(t: Tracker, r: Tracker, d: nat, lo: nat, first: nat, e: nat, from: nat, live: Table)
    requires Buffered(t, lo, first, e, live) && first <= from < e <= from + 1 + d
    requires r.window == Window(d, From(Below(live, e), from), e - 1, true) && r.pending == []
        && r.confirmDepth == t.confirmDepth
    requires Column(From(Below(live, e), from), from, e) && HashLinked(From(Below(live, e), from))
    ensures Buffered(r, from, from, e, From(Below(live, e), from))
  {
    hide Rows, HashLinked;
    var live_r := From(Below(live, e), from);
    EmptyRows(live_r, e, e);
    assert From(live_r, from) == live_r;
  }

  lemma ReloadedTable(t: Tracker, live: Table, first: nat, e: nat, lo: nat, floor: nat)
    requires Buffered(t, lo, first, e, live) && Archive(t, live, first, e) && first < e && floor < e
    requires forall n: nat :: n in t.rows ==> n < e
    ensures var from := Max(first, floor);
            && From(t.rows, floor) == From(Below(live, e), from)
            && Column(From(Below(live, e), from), from, e)
  {
    hide Rows, Shows;
    var from := Max(first, floor);
    var m := From(Below(live, e), from);
    forall n: nat
      ensures n in From(t.rows, floor) <==> n in m
      ensures n in m ==> From(t.rows, floor)[n] == m[n]
    {
    }
  }

  // ---- One poll against a node that serves the head's ancestry ------------------------

  lemma ServedPoll(t: Tracker, lo: nat, first: nat, e: nat, live: Table, rd: Reader, k: nat, head: BlockRef,
        anc: Table, a: nat, f: nat)
    returns (c: nat)
    requires TipKnown(t.window) && Buffered(t, lo, first, e, live)
    requires Ancestry(rd, head, anc, a) && a <= lo <= f && SameHashAt(t.window.known, anc, f)
    ensures f < c <= head.number + 1 && ForkAt(t.window.known, anc, c)
    ensures Rows(anc, c, head.number + 1) != [] || Duplicate(t.window, head)
    ensures PollOnce(t, Served(head), rd, k).result ==
            if Duplicate(t.window, head) then Polled([], [])
            else Polled(Rows(live, c, e),
                        Rows(Graft(live, Rows(anc, c, head.number + 1)), Min(e, c),
                            Threshold(head.number, t.confirmDepth) + 1))
    ensures Duplicate(t.window, head) ==> c == head.number + 1
  {
    hide Rows, Graft, Settle, GenesisSwapped, HashLinked, Grafted;
    c := ServedStep(t.window, lo, rd, k, head, anc, a, f);
    if Duplicate(t.window, head) {
      DuplicateStep(t, lo, first, e, live, head);
    } else {
      OnHeadShape(t.window, lo, rd, k, head);
      SettleStep(t, lo, first, e, live, head, OnHead(t.window, rd, k, head).outcome.canonical);
    }
  }

  lemma ForkUnique(m: Table, anc: Table, c: nat, c': nat)
    requires ForkAt(m, anc, c) && ForkAt(m, anc, c')
    ensures c == c'
  {
  }

  /** From the fork down to a, the live chain is the ancestry. */
  lemma LiveBelowFork(live: Table, first: nat, end: nat, anc: Table, a: nat, h: nat, f: nat, n: nat)
    requires Column(live, first, end) && HashLinked(live) && Column(anc, a, h + 1) && HashLinked(anc)
        && Identified(live, anc)
    requires SameHashAt(live, anc, f) && n <= f && n in live && n in anc
    ensures live[n] == anc[n]
  {
    AgreeBelowFork(live, anc, n, f - n);
  }

  /** The fork the restarted tracker sees is the running tracker's, or just above its own tip. */
  lemma RestartFork(live: Table, lo: nat, first: nat, end: nat, e: nat, from: nat, anc: Table, a: nat, h: nat, c: nat)
    requires Column(live, first, end) && Column(anc, a, h + 1) && HashLinked(anc)
    requires HashLinked(From(live, from)) && Identified(From(live, from), anc)
    requires first <= lo < end && first <= from < e <= end && from <= lo && a <= from && lo < c
    requires ForkAt(From(live, lo), anc, c)
    ensures ForkAt(From(Below(live, e), from), anc, Min(c, e))
    ensures forall n: nat :: from <= n < c ==> n in anc && n in live && live[n] == anc[n]
  {
    var span := From(live, from);
    assert Column(span, from, end) && SameHashAt(span, anc, c - 1) && c <= end && c <= h + 1;
    forall n: nat | from <= n < c
      ensures n in anc && n in live && live[n] == anc[n]
    {
      LiveBelowFork(span, from, end, anc, a, h, c - 1, n);
    }
    var m, d := From(Below(live, e), from), Min(c, e);
    assert SameHashAt(m, anc, d - 1);
    forall n: nat | n >= d
      ensures !SameHashAt(m, anc, n)
    {
      if SameHashAt(m, anc, n) {
        assert n >= c && SameHashAt(From(live, lo), anc, n);
      }
    }
  }

  // ---- Restart equivalence ------------------------------------------------------------

  /** After a poll, restarting from storage and then polling reports the same reversals and emits the same
      batch as polling on, provided: the reloaded part of the live chain is hash-linked; the cursor row is the
      highest and the consumer still has that block; the window is no deeper than the reload span; and the node
      serves the next head's ancestry down to the reloaded blocks, which agrees with the chain somewhere inside
      the window. The confirmation depth is unrestricted. */
  lemma RestartEquivalence(t: Tracker, lo: nat, first: nat, e: nat, live: Table,
                           rd: Reader, k: nat, k': nat, head: BlockRef, anc: Table, a: nat, f: nat)
    requires Buffered(t, lo, first, e, live) && Archive(t, live, first, e) && CursorOnTop(t, live, e)
    requires 0 < t.window.depth <= 256
    requires var span := From(live, ReloadedFrom(t, t.window.depth, first)); HashLinked(span) && Identified(span, anc)
    requires Ancestry(rd, head, anc, a) && a <= ReloadedFrom(t, t.window.depth, first)
    requires lo <= f && SameHashAt(t.window.known, anc, f)
    ensures TipKnown(t.window) && TipKnown(Restart(t, t.window.depth).window)
    ensures PollOnce(Restart(t, t.window.depth), Served(head), rd, k').result == PollOnce(t, Served(head), rd, k).result
  {
    hide Rows, Graft, PollOnce, Restart, Ancestry, HashLinked, Archive, CursorOnTop, ForkAt, TipKnown, Column;
    var depth, tip := t.window.depth, t.window.tip;
    CursorIsLastEmitted(t, lo, first, e, live);
    LinkedBelow(live, ReloadedFrom(t, depth, first), e);
    RestartBuffered(t, depth, lo, first, e, live);
    var r, from := Restart(t, depth), ReloadedFrom(t, depth, first);
    var live_r := From(Below(live, e), from);
    assert TipKnown(t.window) && TipKnown(r.window) by {
      BufferedTipKnown(t, lo, first, e, live);
      BufferedTipKnown(r, from, from, e, live_r);
    }
    assert from <= lo && from < e && r.window == Window(depth, live_r, e - 1, true);
    AncestryFacts(rd, head, anc, a);
    var c := ServedPoll(t, lo, first, e, live, rd, k, head, anc, a, f);
    RestartFork(live, lo, first, tip + 1, e, from, anc, a, head.number, c);
    var d := Min(c, e);
    var c' := ServedPoll(r, from, from, e, live_r, rd, k', head, anc, a, d - 1);
    ForkUnique(live_r, anc, c', d);
    SamePoll(t, lo, first, e, from, live, head, anc, a, c);
  }

  lemma LinkedBelow(m: Table, from: nat, e: nat)
    requires HashLinked(From(m, from))
    ensures HashLinked(From(Below(m, e), from))
  {
    forall n: nat
      ensures LinkedAt(From(Below(m, e), from), n)
    {
      assert LinkedAt(From(m, from), n);
    }
  }

  lemma BufferedTipKnown(t: Tracker, lo: nat, first: nat, e: nat, live: Table)
    requires Buffered(t, lo, first, e, live)
    ensures TipKnown(t.window)
  {
  }

  lemma AncestryFacts(rd: Reader, head: BlockRef, anc: Table, a: nat)
    requires Ancestry(rd, head, anc, a)
    ensures Column(anc, a, head.number + 1) && HashLinked(anc) && a <= head.number && anc[head.number] == head
  {
  }

  /** The two reports agree, in each combination of the head being known to either tracker. */
  lemma SamePoll(t: Tracker, lo: nat, first: nat, e: nat, from: nat, live: Table, head: BlockRef, anc: Table, a: nat,
        c: nat)
    requires Buffered(t, lo, first, e, live) && first <= from <= lo && from < e && a <= from
    requires Column(anc, a, head.number + 1) && a <= head.number && anc[head.number] == head
    requires lo < c <= head.number + 1 && ForkAt(t.window.known, anc, c)
    requires forall n: nat :: from <= n < c ==> n in anc && n in live && live[n] == anc[n]
    requires Rows(anc, c, head.number + 1) != [] || Duplicate(t.window, head)
    requires Duplicate(t.window, head) ==> c == head.number + 1
    requires var w_r := Window(t.window.depth, From(Below(live, e), from), e - 1, true);
             Rows(anc, Min(c, e), head.number + 1) != [] || Duplicate(w_r, head)
    ensures var live_r, thr, d, h := From(Below(live, e), from), Threshold(head.number, t.confirmDepth), Min(c, e),
        head.number;
            var w_r := Window(t.window.depth, live_r, e - 1, true);
            var on := if Duplicate(t.window, head) then Polled([], [])
                      else Polled(Rows(live, c, e), Rows(Graft(live, Rows(anc, c, h + 1)), Min(e, c), thr + 1));
            var again := if Duplicate(w_r, head) then Polled([], [])
                         else Polled(Rows(live_r, d, e), Rows(Graft(live_r, Rows(anc, d, h + 1)), Min(e, d), thr + 1));
            on == again
  {
    hide Rows, Graft, Shows, HashLinked;
    var live_r, thr, d, h := From(Below(live, e), from), Threshold(head.number, t.confirmDepth), Min(c, e), head.number;
    var w_r := Window(t.window.depth, live_r, e - 1, true);
    if Duplicate(t.window, head) {
      assert SameHashAt(t.window.known, anc, h) && c == h + 1;
      assert h < e ==> h in live_r && live_r[h] == anc[h];
      if !Duplicate(w_r, head) {
        EmptyRows(live_r, d, e);
        EmptyRows(Graft(live_r, Rows(anc, d, h + 1)), Min(e, d), thr + 1);
      }
    } else {
      assert h >= c - 1 >= lo && h in anc;
      assert h in live_r ==> h in t.window.known && t.window.known[h] == live_r[h];
      RowsAgreeFrom(live, live_r, c, d, e, from);
      GraftedAncestry(live, anc, a, from, c, d, h, thr);
      GraftedAncestry(live_r, anc, a, from, d, d, h, thr);
    }
  }

  lemma RowsAgreeFrom(live: Table, live_r: Table, c: nat, d: nat, e: nat, from: nat)
    requires live_r == From(Below(live, e), from) && d == Min(c, e) && from <= c
    ensures Rows(live, c, e) == Rows(live_r, d, e)
  {
    hide Rows;
    if c >= e {
      EmptyRows(live, c, e);
      EmptyRows(live_r, d, e);
    } else {
      RowsAgree(live, live_r, c, e);
    }
  }

  /** Grafting the ancestry from c leaves exactly the ancestry from any lower height d down to which they agree. */
  lemma GraftedAncestry(live: Table, anc: Table, a: nat, from: nat, c: nat, d: nat, h: nat, thr: nat)
    requires Column(anc, a, h + 1) && a <= from <= d <= c <= h && thr <= h
    requires forall n: nat :: d <= n < c ==> n in live && live[n] == anc[n]
    ensures Rows(anc, c, h + 1) != []
    ensures Rows(Graft(live, Rows(anc, c, h + 1)), d, thr + 1) == Rows(anc, d, thr + 1)
  {
    hide Rows, Graft;
    var path := Rows(anc, c, h + 1);
    RowsAt(anc, a, c, h + 1, h + 1);
    ContiguousRows(anc, a, c, h + 1);
    forall n: nat | d <= n < thr + 1
      ensures (n in Graft(live, path) <==> n in anc) && (n in anc ==> Graft(live, path)[n] == anc[n])
    {
      GraftAt(live, path, n);
    }
    RowsAgree(Graft(live, path), anc, d, thr + 1);
  }

  /** A reorganisation whose fork is above the window's lowest block keeps the live chain hash-linked. */
  lemma ForkInsideKeepsLinked(w: Window, lo: nat, first: nat, live: Table, head: BlockRef, path: seq<BlockRef>)
    requires Tracks(w, lo, first, live) && Meets(w, lo, head, path) && HashLinked(live) && path[0].number > lo
    ensures HashLinked(Graft(live, path))
  {
    hide Rows, Graft;
    var c := path[0].number;
    forall n: nat
      ensures LinkedAt(Graft(live, path), n)
    {
      GraftAt(live, path, n);
      GraftAt(live, path, n + 1);
      assert LinkedAt(live, n);
      if c <= n < c + |path| { assert Follows(path, n - c); }
    }
  }

  /** The poll fails, seeds, repeats a known head, or its fork is just above a known block. */
  predicate ForksInside(t: Tracker, reply: Reply, rd: Reader, k: nat)
    requires TipKnown(t.window)
  {
    reply.Failed? || !t.window.seeded || Duplicate(t.window, reply.block) ||
    match OnHead(t.window, rd, k, reply.block).outcome
    case Failure(_) => true
    case Reconciled(path, _) => path != [] && path[0].number > 0 && path[0].number - 1 in t.window.known
  }

  ghost predicate InsideRun(start: Tracker, polls: seq<T.TrackPoll>)
    requires TipKnown(start.window)
  {
    forall i: nat :: i < |polls| ==>
      ForksInside(T.Run(start, polls[..i]).tracker, polls[i].reply, polls[i].reader, polls[i].clock)
  }

  lemma PollKeepsLinked(t: Tracker, live: Table, emitted: Table, reply: Reply, rd: Reader, k: nat)
    requires TipKnown(t.window) && Sound(t, live, emitted) && PollAllowed(t, live, reply, rd, k)
    requires HashLinked(live) && ForksInside(t, reply, rd, k)
    ensures var live' := Replay(live, Upstream(t, reply, rd, k)); live'.Some? && HashLinked(live'.value)
  {
    hide Replay, OnHead, Allowed, Events, HashLinked, Duplicate;
    if reply.Failed? {
      NoEvents(live);
    } else {
      var head := reply.block;
      if !t.window.seeded {
        FirstStep(t.window, rd, k, head);
        OneBlockLinked(head);
      } else {
        var lo: nat, first: nat, e: nat :| Buffered(t, lo, first, e, live);
        ReconciledLinked(t.window, lo, first, live, rd, k, head);
      }
    }
  }

  lemma NoEvents(live: Table)
    ensures Replay(live, []) == Some(live)
  {
  }

  lemma OneBlockLinked(b: BlockRef)
    ensures HashLinked(map[b.number := b])
  {
  }

  lemma ReconciledLinked(w: Window, lo: nat, first: nat, live: Table, rd: Reader, k: nat, head: BlockRef)
    requires Tracks(w, lo, first, live) && HashLinked(live) && Allowed(w, live, rd, k, head)
    requires Duplicate(w, head) || OnHead(w, rd, k, head).outcome.Failure? ||
             (var path := OnHead(w, rd, k, head).outcome.canonical;
              path != [] && path[0].number > 0 && path[0].number - 1 in w.known)
    ensures var live' := Replay(live, Events(OnHead(w, rd, k, head).outcome));
            live'.Some? && HashLinked(live'.value)
  {
    hide Rows, Graft, WalkBack, Advance, RecordAll, Replay, HashLinked;
    NoEvents(live);
    if !Duplicate(w, head) && OnHead(w, rd, k, head).outcome.Reconciled? {
      OnHeadShape(w, lo, rd, k, head);
      AllowedStep(w, lo, first, live, rd, k, head);
      ForkInsideKeepsLinked(w, lo, first, live, head, OnHead(w, rd, k, head).outcome.canonical);
    } else if Duplicate(w, head) {
      DuplicateEvents(w, rd, k, head);
    }
  }

  lemma DuplicateEvents(w: Window, rd: Reader, k: nat, head: BlockRef)
    requires w.seeded && TipKnown(w) && Duplicate(w, head)
    ensures Events(OnHead(w, rd, k, head).outcome) == []
  {
  }

  /** Over every safe run whose forks are all just above a block known at the time, the live chain stays
      hash-linked from its first block to its tip. */
  lemma {:induction false} RunKeepsLinked(start: Tracker, live: Table, emitted: Table, polls: seq<T.TrackPoll>)
    requires TipKnown(start.window) && Sound(start, live, emitted) && HashLinked(live)
    requires T.SafeRun(start, live, polls) && InsideRun(start, polls)
    ensures var r := T.Run(start, polls); Replay(live, r.up).Some? && HashLinked(Replay(live, r.up).value)
    decreases |polls|
  {
    hide Sound, PollOnce, Upstream, Downstream, PollAllowed, Replay, HashLinked, ForksInside, T.Run;
    if polls == [] {
      T.RunEmpty(start, live);
    } else {
      var before, p := polls[..|polls| - 1], polls[|polls| - 1];
      assert forall i: nat :: i <= |before| ==> polls[..i] == before[..i];
      assert polls == before + [p] && polls[..|before|] == before;
      RunKeepsLinked(start, live, emitted, before);
      T.Conservation(start, live, emitted, before);
      var r := T.Run(start, before);
      PollKeepsLinked(r.tracker, Replay(live, r.up).value, Replay(emitted, r.down).value, p.reply, p.reader, p.clock);
      T.RunSnoc(start, before, p);
      ReplayConcat(live, r.up, Upstream(r.tracker, p.reply, p.reader, p.clock));
    }
  }

  lemma BufferedUnique(t: Tracker, lo: nat, first: nat, e: nat, lo': nat, first': nat, e': nat, live: Table)
    requires Buffered(t, lo, first, e, live) && Buffered(t, lo', first', e', live)
    ensures lo == lo' && first == first' && e == e'
  {
    hide Rows;
    var end := t.window.tip + 1;
    assert lo in t.window.known && lo' in t.window.known && first in live && first' in live;
    RowsAt(live, first, e, end, end);
    RowsAt(live, first, e', end, end);
  }

  /** The part of the live chain that a restart with the cursor on the highest row would reload. */
  function Span(t: Tracker, maxDepth: nat, live: Table): Table
    requires t.cursor.Some?
  {
    From(live, LoadFloor(Fresh(maxDepth).depth, ReloadFloor(t.cursor.value), t.cursor.value.number))
  }

  /** The same over runs: after any safe run from a fresh start over an empty store, when the reloaded part of
      the live chain is hash-linked and the cursor is the highest row and a block the consumer still has. */
  lemma RestartAfterRun(maxDepth: nat, confirmDepth: nat, polls: seq<T.TrackPoll>, live: Table, emitted: Table,
                        rd: Reader, k: nat, k': nat, head: BlockRef, anc: Table, a: nat, f: nat)
    requires Fresh(maxDepth).depth <= 256
    requires T.SafeRun(Start(maxDepth, confirmDepth), map[], polls)
    requires var r := T.Run(Start(maxDepth, confirmDepth), polls);
             && r.tracker.window.seeded
             && Replay(map[], r.up) == Some(live) && Replay(map[], r.down) == Some(emitted)
             && r.tracker.cursor.Some? && IsLive(emitted, r.tracker.cursor.value)
             && (forall n: nat :: n in r.tracker.rows ==> n <= r.tracker.cursor.value.number)
             && HashLinked(Span(r.tracker, maxDepth, live)) && Identified(Span(r.tracker, maxDepth, live), anc)
             && (forall n: nat :: n in Span(r.tracker, maxDepth, live) ==> a <= n)
             && SameHashAt(r.tracker.window.known, anc, f)
    requires Ancestry(rd, head, anc, a)
    ensures var t := T.Run(Start(maxDepth, confirmDepth), polls).tracker;
            && TipKnown(Restart(t, maxDepth).window)
            && PollOnce(Restart(t, maxDepth), Served(head), rd, k').result == PollOnce(t, Served(head), rd, k).result
  {
    hide Rows, PollOnce, Restart, Replay, HashLinked, Ancestry, Identified, Archive, Span, T.Run, T.SafeRun;
    var start := Start(maxDepth, confirmDepth);
    T.Conservation(start, map[], map[], polls);
    RunKeepsArchive(start, map[], polls);
    KeepsDepth(start, polls);
    var t := T.Run(start, polls).tracker;
    var lo: nat, first: nat, e: nat :| Buffered(t, lo, first, e, live) && emitted == Below(live, e);
    var lo': nat, first': nat, e': nat :| Buffered(t, lo', first', e', live) && Archive(t, live, first', e');
    BufferedUnique(t, lo, first, e, lo', first', e', live);
    assert f in t.window.known && lo <= f;
    SpanIs(t, maxDepth, lo, first, e, live);
    assert Restart(t, maxDepth) == Restart(t, t.window.depth) by { RestartDepth(t, maxDepth); }
    RestartEquivalence(t, lo, first, e, live, rd, k, k', head, anc, a, f);
  }

  /** After a safe run from a fresh start in which no fork passed the window, every reloaded span is linked,
      so the restart theorem's first condition holds. */
  lemma InsideRunSpanLinked(maxDepth: nat, confirmDepth: nat, polls: seq<T.TrackPoll>)
    requires T.SafeRun(Start(maxDepth, confirmDepth), map[], polls) && InsideRun(Start(maxDepth, confirmDepth), polls)
    requires T.Run(Start(maxDepth, confirmDepth), polls).tracker.cursor.Some?
    ensures var r := T.Run(Start(maxDepth, confirmDepth), polls);
            var live := Replay(map[], r.up);
            live.Some? && HashLinked(Span(r.tracker, maxDepth, live.value))
  {
    hide T.Run, T.SafeRun, InsideRun, Replay;
    T.StartSound(maxDepth, confirmDepth);
    RunKeepsLinked(Start(maxDepth, confirmDepth), map[], map[], polls);
    var r := T.Run(Start(maxDepth, confirmDepth), polls);
    var live, span := Replay(map[], r.up).value, Span(r.tracker, maxDepth, Replay(map[], r.up).value);
    forall n: nat
      ensures LinkedAt(span, n)
    {
      assert LinkedAt(live, n);
    }
  }

  lemma SpanIs(t: Tracker, maxDepth: nat, lo: nat, first: nat, e: nat, live: Table)
    requires Buffered(t, lo, first, e, live) && Archive(t, live, first, e) && CursorOnTop(t, live, e)
    requires t.window.depth == Fresh(maxDepth).depth
    ensures var from := ReloadedFrom(t, t.window.depth, first);
            Span(t, maxDepth, live) == From(live, from) && from in Span(t, maxDepth, live)
  {
    hide Rows, HashLinked;
    CursorIsLastEmitted(t, lo, first, e, live);
  }

  lemma RestartDepth(t: Tracker, maxDepth: nat)
    requires t.window.depth == Fresh(maxDepth).depth
    ensures Restart(t, maxDepth) == Restart(t, t.window.depth)
  {
    assert Fresh(maxDepth) == Fresh(Fresh(maxDepth).depth);
  }

  lemma {:induction false} KeepsDepth(start: Tracker, polls: seq<T.TrackPoll>)
    requires TipKnown(start.window)
    ensures T.Run(start, polls).tracker.window.depth == start.window.depth
    decreases |polls|
  {
    hide OnHead, Upstream, Downstream, Settle;
    if polls != [] {
      var before, p := polls[..|polls| - 1], polls[|polls| - 1];
      KeepsDepth(start, before);
      if p.reply.Served? { OnHeadKeepsDepth(T.Run(start, before).tracker.window, p.reader, p.clock, p.reply.block); }
      SettleKeepsWindow();
    }
  }

  lemma SettleKeepsWindow()
    ensures forall t: Tracker, head: BlockRef, w: Window, out: Outcome ::
              out.Reconciled? ==> Settle(t, head, w, out).0.window == w
  {
  }

  lemma {:induction false} RecordAllKeepsDepth(w: Window, path: seq<BlockRef>)
    ensures RecordAll(w, path).depth == w.depth
    decreases |path|
  {
    if path != [] {
      RecordAllKeepsDepth(w, path[..|path| - 1]);
    }
  }

  lemma OnHeadKeepsDepth(w: Window, rd: Reader, k: nat, head: BlockRef)
    requires TipKnown(w)
    ensures OnHead(w, rd, k, head).window.depth == w.depth
  {
    hide RecordAll;
    if w.seeded && !Duplicate(w, head) {
      if head.number > w.tip && Advance(w, rd, k, head, []).Extends? {
        RecordAllKeepsDepth(w, Advance(w, rd, k, head, []).fetched);
      }
      var walk := WalkFor(w, rd, k, head);
      if walk.Some? && walk.value.Stopped? {
        RecordAllKeepsDepth(CutTo(w, walk.value.ancestor), walk.value.path);
      }
    }
  }
}

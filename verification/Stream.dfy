/** The stream of canonical and reverted blocks over whole runs of the reconciler. */
module Stream {
  import opened Chain
  import opened Reconcile
  import opened ReorgLaws
  import opened WindowLaws

  datatype Event = Canonical(block: BlockRef) | Reverted(block: BlockRef)

  // ---- Replaying a stream -------------------------------------------------------------

  /** What a consumer believes canonical after one more event; None when the event makes no sense: a
      block announced at a height already occupied, or one reverted that is not the one there. */
  function Apply(live: Table, e: Event): Option<Table> {
    match e
    case Canonical(b) => if b.number in live then None else Some(live[b.number := b])
    case Reverted(b) => if b.number in live && live[b.number] == b then Some(live - {b.number}) else None
  }

  function Replay(live: Table, log: seq<Event>): Option<Table> {
    if log == [] then Some(live)
    else
      match Replay(live, log[..|log| - 1])
      case None => None
      case Some(l) => Apply(l, log[|log| - 1])
  }

  lemma ReplaySnoc(live: Table, log: seq<Event>, e: Event)
    ensures Replay(live, log + [e]) == match Replay(live, log) case None => None case Some(l) => Apply(l, e)
  {
    hide Apply;
    assert (log + [e])[..|log|] == log;
  }

  lemma {:induction false} ReplayConcat(live: Table, a: seq<Event>, b: seq<Event>)
    ensures Replay(live, a + b) == match Replay(live, a) case None => None case Some(l) => Replay(l, b)
    decreases |b|
  {
    if b == [] {
      assert a + b == a;
    } else {
      ReplayConcat(live, a, b[..|b| - 1]);
      assert (a + b)[..|a + b| - 1] == a + b[..|b| - 1];
    }
  }

  lemma ReplayPrefix(live: Table, log: seq<Event>, i: nat)
    requires i <= |log| && Replay(live, log).Some?
    ensures Replay(live, log[..i]).Some?
  {
    assert log == log[..i] + log[i..];
    ReplayConcat(live, log[..i], log[i..]);
  }

  predicate IsLive(live: Table, b: BlockRef) {
    b.number in live && live[b.number] == b
  }

  lemma ReplayAt(live: Table, log: seq<Event>, i: nat)
    requires i < |log| && Replay(live, log).Some?
    ensures Replay(live, log[..i]).Some?
    ensures Replay(live, log[..i + 1]) == Apply(Replay(live, log[..i]).value, log[i])
  {
    ReplayPrefix(live, log, i);
    assert log[..i + 1][..i] == log[..i];
    ReplayPrefix(live, log, i + 1);
  }

  lemma {:induction false} StaysUntilEvent(live: Table, log: seq<Event>, b: BlockRef, i: nat, j: nat)
    requires i <= j <= |log| && Replay(live, log).Some?
    requires Replay(live, log[..i]).Some? && Replay(live, log[..j]).Some?
    requires forall k :: i <= k < j ==> log[k] != Reverted(b) && log[k] != Canonical(b)
    ensures IsLive(Replay(live, log[..i]).value, b) == IsLive(Replay(live, log[..j]).value, b)
    decreases j
  {
    if i < j {
      ReplayAt(live, log, j - 1);
      StaysUntilEvent(live, log, b, i, j - 1);
    }
  }

  /** In a replayable stream each block's events strictly alternate: between two announcements of one
      block lies its reversal, and between two reversals its announcement. */
  lemma AlternatesStrictly(live: Table, log: seq<Event>, b: BlockRef, i: nat, j: nat)
    requires Replay(live, log).Some? && i < j < |log|
    ensures log[i] == log[j] == Canonical(b) ==> exists k :: i < k < j && log[k] == Reverted(b)
    ensures log[i] == log[j] == Reverted(b) ==> exists k :: i < k < j && log[k] == Canonical(b)
  {
    if log[i] == log[j] && (log[i] == Canonical(b) || log[i] == Reverted(b)) {
      ReplayAt(live, log, i);
      ReplayAt(live, log, j);
      if (forall k :: i < k < j ==> log[k] != Reverted(b) && log[k] != Canonical(b)) {
        ReplayPrefix(live, log, i + 1);
        StaysUntilEvent(live, log, b, i + 1, j);
      } else {
        var k :| i < k < j && (log[k] == Reverted(b) || log[k] == Canonical(b));
        if log[k] == log[i] {
          AlternatesStrictly(live, log, b, i, k);
        }
      }
    }
  }

  /** The first event of a block that was not live at the start is its announcement. */
  lemma AnnouncedFirst(live: Table, log: seq<Event>, b: BlockRef, j: nat)
    requires Replay(live, log).Some? && j < |log| && log[j] == Reverted(b) && !IsLive(live, b)
    ensures exists k :: 0 <= k < j && log[k] == Canonical(b)
  {
    ReplayAt(live, log, j);
    if forall k :: 0 <= k < j ==> log[k] != Canonical(b) {
      if k :| 0 <= k < j && log[k] == Reverted(b) {
        AnnouncedFirst(live, log, b, k);
      } else {
        assert log[..0] == [];
        StaysUntilEvent(live, log, b, 0, j);
      }
    }
  }

  // ---- The events of one reconciliation -----------------------------------------------

  function Reverts(bs: seq<BlockRef>): seq<Event> {
    if bs == [] then [] else Reverts(bs[..|bs| - 1]) + [Reverted(Last(bs))]
  }

  function Announces(bs: seq<BlockRef>): seq<Event> {
    if bs == [] then [] else Announces(bs[..|bs| - 1]) + [Canonical(Last(bs))]
  }

  lemma RevertsSnoc(bs: seq<BlockRef>, b: BlockRef)
    ensures Reverts(bs + [b]) == Reverts(bs) + [Reverted(b)]
  {
    assert (bs + [b])[..|bs|] == bs;
  }

  lemma AnnouncesSnoc(bs: seq<BlockRef>, b: BlockRef)
    ensures Announces(bs + [b]) == Announces(bs) + [Canonical(b)]
  {
    assert (bs + [b])[..|bs|] == bs;
  }

  function Events(out: Outcome): seq<Event> {
    if out.Failure? then [] else Reverts(out.reverted) + Announces(out.canonical)
  }

  function Without(m: Table, a: nat, b: nat): Table {
    map n | n in m && !(a <= n < b) :: m[n]
  }

  lemma {:induction false} ReplayReverts(live: Table, a: nat, b: nat)
    requires forall n: nat :: n in live ==> live[n].number == n
    ensures Replay(live, Reverts(Rows(live, a, b))) == Some(Without(live, a, b))
    decreases b
  {
    hide Rows, Replay, Reverts, Without;
    if b <= a {
      NothingReverted(live, a, b);
    } else {
      ReplayReverts(live, a, b - 1);
      WithoutStep(live, a, b - 1);
      RowsStep(live, a, b - 1);
      if b - 1 in live {
        RevertsSnoc(Rows(live, a, b - 1), live[b - 1]);
        ReplaySnoc(live, Reverts(Rows(live, a, b - 1)), Reverted(live[b - 1]));
      }
    }
  }

  lemma NothingReverted(live: Table, a: nat, b: nat)
    requires b <= a
    ensures Replay(live, Reverts(Rows(live, a, b))) == Some(Without(live, a, b))
  {
    assert Rows(live, a, b) == [] && Without(live, a, b) == live;
  }

  lemma WithoutStep(m: Table, a: nat, n: nat)
    requires a <= n
    ensures Without(m, a, n + 1) == Without(m, a, n) - {n}
    ensures n !in m ==> Without(m, a, n + 1) == Without(m, a, n)
    ensures n in m ==> n in Without(m, a, n) && Without(m, a, n)[n] == m[n]
  {
  }

  lemma {:induction false} ReplayAnnounces(live: Table, path: seq<BlockRef>)
    requires path != [] && Contiguous(path)
    requires forall n: nat :: path[0].number <= n < path[0].number + |path| ==> n !in live
    ensures Replay(live, Announces(path)) == Some(PutBlocks(live, path))
    decreases |path|
  {
    var q, b := path[..|path| - 1], Last(path);
    assert PutBlocks(live, path) == PutBlocks(live, q)[b.number := b];
    assert Announces(path) == Announces(q) + [Canonical(b)];
    if q == [] {
      assert Announces(q) == [] && PutBlocks(live, q) == live && Replay(live, []) == Some(live);
    } else {
      ReplayAnnounces(live, q);
      PutBlocksAt(live, q, b.number);
    }
    hide Replay, Announces, PutBlocks;
    ReplaySnoc(live, Announces(q), Canonical(b));
  }

  /** Reverting what is live from height a up and announcing a path that starts no higher than a. */
  lemma ReplaySplice(live: Table, a: nat, end: nat, path: seq<BlockRef>)
    requires path != [] && Contiguous(path) && path[0].number <= a
    requires forall n: nat :: n in live ==> live[n].number == n && n < end
    requires forall n: nat :: path[0].number <= n < a ==> n !in live
    ensures Replay(live, Reverts(Rows(live, a, end)) + Announces(path)) == Some(Graft(live, path))
  {
    var c := path[0].number;
    ReplayReverts(live, a, end);
    assert Without(live, a, end) == Below(live, c);
    ReplayAnnounces(Below(live, c), path);
    ReplayConcat(live, Reverts(Rows(live, a, end)), Announces(path));
  }

  // ---- Staying in step ----------------------------------------------------------------

  /** The consumer's live blocks are one of every height from first to the tip, and the window holds
      exactly those from lo up; the others have been pruned. */
  ghost predicate Tracks(w: Window, lo: nat, first: nat, live: Table) {
    && Shows(w, lo)
    && first <= lo
    && Column(live, first, w.tip + 1)
    && w.known == From(live, lo)
  }

  ghost predicate InStep(w: Window, live: Table) {
    if w.seeded then exists lo: nat, first: nat :: Tracks(w, lo, first, live)
    else w.known == map[] && w.tip == 0 && live == map[]
  }

  /** The head is no lower than some known block, or everything live is still known; and the head's
      ancestry does not end in a second block 0. */
  predicate Allowed(w: Window, live: Table, rd: Reader, k: nat, head: BlockRef)
    requires TipKnown(w)
  {
    || !w.seeded
    || Duplicate(w, head)
    || OnHead(w, rd, k, head).outcome.Failure?
    || ((HasAnyBelow(w.known, head.number + 1) || live.Keys <= w.known.Keys) && !GenesisSwapped(w, rd, k, head))
  }

  lemma AllowedStep(w: Window, lo: nat, first: nat, live: Table, rd: Reader, k: nat, head: BlockRef)
    requires Tracks(w, lo, first, live) && !Duplicate(w, head) && OnHead(w, rd, k, head).outcome.Reconciled?
    requires Allowed(w, live, rd, k, head)
    ensures var s := OnHead(w, rd, k, head);
            && s.outcome.canonical != []
            && Replay(live, Events(s.outcome)) == Some(Graft(live, s.outcome.canonical))
            && Tracks(s.window, NewFloor(w, lo, s.outcome.canonical),
                      (if s.outcome.canonical[0].number < first then s.outcome.canonical[0].number else first),
                      Graft(live, s.outcome.canonical))
  {
    OnHeadShape(w, lo, rd, k, head);
    var s := OnHead(w, rd, k, head);
    var path := s.outcome.canonical;
    assert lo in w.known && first in live;
    assert head.number < lo ==> first == lo;
    hide OnHead, GenesisSwapped, Duplicate, Allowed;
    SpliceStep(w, lo, first, live, head, path);
    hide *;
    GraftTracks(w, lo, first, live, head, path);
  }

  lemma SpliceStep(w: Window, lo: nat, first: nat, live: Table, head: BlockRef, path: seq<BlockRef>)
    requires Tracks(w, lo, first, live) && Meets(w, lo, head, path)
    requires head.number < lo ==> first == lo
    requires path[0].number == 0 ==> 0 !in w.known
    ensures Replay(live,
        Reverts(Rows(w.known, (if path[0].number == 0 then 1 else path[0].number), w.tip + 1)) + Announces(path))
            == Some(Graft(live, path))
  {
    var a := if path[0].number == 0 then 1 else path[0].number;
    hide Rows, HashLinked;
    RowsAgree(w.known, live, a, w.tip + 1);
    ReplaySplice(live, a, w.tip + 1, path);
  }

  lemma GraftTracks(w: Window, lo: nat, first: nat, live: Table, head: BlockRef, path: seq<BlockRef>)
    requires Tracks(w, lo, first, live) && Meets(w, lo, head, path)
    requires head.number < lo ==> first == lo
    ensures Tracks(Grafted(w, path), NewFloor(w, lo, path),
        (if path[0].number < first then path[0].number else first), Graft(live, path))
  {
    GraftedShows(w, lo, head, path);
    var w', live', floor := Grafted(w, path), Graft(live, path), NewFloor(w, lo, path);
    assert Last(path).number == path[0].number + |path| - 1;
    forall n: nat
      ensures n in live' <==> (if path[0].number < first then path[0].number else first) <= n < w'.tip + 1
      ensures n in live' ==> live'[n].number == n
      ensures n in w'.known <==> n in From(live', floor)
      ensures n in w'.known ==> w'.known[n] == live'[n]
    {
      GraftAt(live, path, n);
      GraftAt(w.known, path, n);
    }
  }

  /** Exactly when a call keeps the stream sound: the events replay and what is then live from the new
      lowest height up is what the window holds, if and only if the call was allowed. */
  lemma InStepIffAllowed(w: Window, live: Table, rd: Reader, k: nat, head: BlockRef)
    requires TipKnown(w) && InStep(w, live)
    ensures var s := OnHead(w, rd, k, head);
            var live' := Replay(live, Events(s.outcome));
            live'.Some? && InStep(s.window, live'.value) <==> Allowed(w, live, rd, k, head)
  {
    var s := OnHead(w, rd, k, head);
    if !w.seeded {
      FirstStep(w, rd, k, head);
    } else if s.outcome.Reconciled? && !Duplicate(w, head) {
      var lo: nat, first: nat :| Tracks(w, lo, first, live);
      if Allowed(w, live, rd, k, head) {
        AllowedStep(w, lo, first, live, rd, k, head);
      } else {
        DisallowedStep(w, lo, first, live, rd, k, head);
      }
    } else {
      assert Events(s.outcome) == [];
      if s.outcome.Failure? {
        var lo: nat, first: nat :| Tracks(w, lo, first, live);
        OnHeadShape(w, lo, rd, k, head);
      }
    }
  }

  lemma FirstStep(w: Window, rd: Reader, k: nat, head: BlockRef)
    requires !w.seeded && w.known == map[] && w.tip == 0
    ensures var s := OnHead(w, rd, k, head);
            && s.outcome == Reconciled([head], []) && s.window.seeded && s.window.tip == head.number
            && Replay(map[], Events(s.outcome)) == Some(map[head.number := head])
            && Tracks(s.window, head.number, head.number, map[head.number := head])
  {
    var live: Table := map[head.number := head];
    var s := OnHead(w, rd, k, head);
    RecordKnown(w, head);
    assert w.known[head.number := head] == live == From(live, head.number) == From(live, Horizon(w.depth, head.number));
    assert s == Step(Reconciled([head], []), Window(w.depth, live, head.number, true), k);
    hide OnHead, From, Record;
    SingleAnnounced(head);
    assert Reverts([]) + [Canonical(head)] == [Canonical(head)];
  }

  lemma SingleAnnounced(b: BlockRef)
    ensures Announces([b]) == [Canonical(b)] && Replay(map[], [Canonical(b)]) == Some(map[b.number := b])
  {
    assert [b][..0] == [] && [Canonical(b)][..0] == [];
    assert Announces([]) == [] && Replay(map[], []) == Some(map[]);
  }

  lemma DisallowedStep(w: Window, lo: nat, first: nat, live: Table, rd: Reader, k: nat, head: BlockRef)
    requires Tracks(w, lo, first, live) && !Duplicate(w, head) && OnHead(w, rd, k, head).outcome.Reconciled?
    requires !Allowed(w, live, rd, k, head)
    ensures var s := OnHead(w, rd, k, head);
            var live' := Replay(live, Events(s.outcome));
            live'.None? || !InStep(s.window, live'.value)
  {
    OnHeadShape(w, lo, rd, k, head);
    var out := OnHead(w, rd, k, head).outcome;
    var path := out.canonical;
    assert lo in w.known && (first == lo ==> live == w.known);
    if GenesisSwapped(w, rd, k, head) {
      hide OnHead, GenesisSwapped, Duplicate, Allowed, Grafted;
      SwappedStep(w, lo, first, live, path);
    } else {
      assert head.number < lo && first < lo && path == [head];
      hide OnHead, GenesisSwapped, Duplicate, Allowed, Grafted, Tracks, Meets;
      PrunedStep(w, lo, first, live, head, out.reverted);
    }
  }

  /** Block 0 is replaced but not reverted, so the new block 0 is announced at an occupied height. */
  lemma SwappedStep(w: Window, lo: nat, first: nat, live: Table, path: seq<BlockRef>)
    requires Tracks(w, lo, first, live) && 0 in w.known && path != [] && path[0].number == 0
    ensures Replay(live, Reverts(Rows(w.known, 1, w.tip + 1)) + Announces(path)).None?
  {
    var reverts := Reverts(Rows(w.known, 1, w.tip + 1));
    RowsAgree(w.known, live, 1, w.tip + 1);
    ReplayReverts(live, 1, w.tip + 1);
    AnnounceOccupied(Without(live, 1, w.tip + 1), path);
    ReplayConcat(live, reverts, Announces(path));
  }

  lemma {:induction false} AnnounceOccupied(live: Table, path: seq<BlockRef>)
    requires path != [] && path[0].number in live
    ensures Replay(live, Announces(path)).None?
    decreases |path|
  {
    var q := path[..|path| - 1];
    var log := Announces(q);
    assert (log + [Canonical(Last(path))])[..|log|] == log;
    if q != [] {
      AnnounceOccupied(live, q);
    }
  }

  /** A head below the window while older blocks are live: either its height is announced twice, or
      live blocks remain above a window that does not hold them. */
  lemma PrunedStep(w: Window, lo: nat, first: nat, live: Table, head: BlockRef, reverted: seq<BlockRef>)
    requires Tracks(w, lo, first, live) && head.number < lo && first < lo
    requires reverted == Rows(w.known, (if head.number == 0 then 1 else head.number), w.tip + 1)
    ensures var live' := Replay(live, Reverts(reverted) + Announces([head]));
            live'.None? || !InStep(Grafted(w, [head]), live'.value)
  {
    var kept := Below(live, lo);
    RevertWindow(w, lo, first, live, if head.number == 0 then 1 else head.number);
    ReplayConcat(live, Reverts(reverted), Announces([head]));
    assert first in kept && forall n: nat :: n in kept ==> n >= first;
    hide Below, Tracks, Rows;
    if head.number in kept {
      AnnounceOccupied(kept, [head]);
    } else {
      ReplayAnnounces(kept, [head]);
      PutBlocksAt(kept, [head], first);
      StrandedBlock(w, head, PutBlocks(kept, [head]), first);
    }
  }

  lemma RevertWindow(w: Window, lo: nat, first: nat, live: Table, a: nat)
    requires Tracks(w, lo, first, live) && a <= lo
    ensures Replay(live, Reverts(Rows(w.known, a, w.tip + 1))) == Some(Below(live, lo))
  {
    hide Rows, HashLinked;
    RowsFromFloor(w.known, lo, a, w.tip + 1);
    RowsAgree(w.known, live, lo, w.tip + 1);
    ReplayReverts(live, lo, w.tip + 1);
    assert Without(live, lo, w.tip + 1) == Below(live, lo);
  }

  /** A block live above the tip of the window puts the two out of step. */
  lemma StrandedBlock(w: Window, head: BlockRef, live: Table, n: nat)
    requires n in live && n > head.number
    ensures !InStep(Grafted(w, [head]), live)
  {
    var w' := Grafted(w, [head]);
    hide Shows;
    forall lo: nat, first: nat
      ensures !Tracks(w', lo, first, live)
    {
    }
  }

  // ---- Whole runs ---------------------------------------------------------------------

  datatype Poll = Poll(head: BlockRef, reader: Reader, clock: nat)

  datatype RunState = RunState(window: Window, log: seq<Event>)

  function Run(start: Window, polls: seq<Poll>): (r: RunState)
    requires TipKnown(start)
    ensures TipKnown(r.window)
  {
    if polls == [] then RunState(start, [])
    else
      var r := Run(start, polls[..|polls| - 1]);
      var p := polls[|polls| - 1];
      var s := OnHead(r.window, p.reader, p.clock, p.head);
      OnHeadKeepsTip(r.window, p.reader, p.clock, p.head);
      RunState(s.window, r.log + Events(s.outcome))
  }

  /** Whatever the heads and the answers, every run keeps the window invariant. */
  lemma {:induction false} RunKeepsInvariant(start: Window, polls: seq<Poll>)
    requires WindowInvariant(start)
    ensures TipKnown(start) && WindowInvariant(Run(start, polls).window)
    decreases |polls|
  {
    hide OnHead, WindowInvariant, Events;
    InvariantTipKnown(start);
    if polls != [] {
      var before, p := polls[..|polls| - 1], polls[|polls| - 1];
      RunKeepsInvariant(start, before);
      OnHeadKeepsInvariant(Run(start, before).window, p.reader, p.clock, p.head);
    }
  }

  lemma InvariantTipKnown(w: Window)
    requires WindowInvariant(w)
    ensures TipKnown(w)
  {
    if w.seeded {
      InvariantBoundsWindow(w);
    }
  }

  /** So every window reached from an empty one satisfies it, and every window reached from stored rows of
      which none within depth of the highest lacks its linked successor. */
  lemma ReachedInvariant(maxDepth: nat, m: Table, min: nat, top: nat, polls: seq<Poll>)
    ensures WindowInvariant(Run(Fresh(maxDepth), polls).window)
    ensures
      KeyedByNumber(m) && min <= top && top in m && (forall n :: n in m ==> n <= top)
      && Unbroken(m, LoadFloor(Fresh(maxDepth).depth, min, top), top) ==>
        var loaded := LoadKnown(Fresh(maxDepth), Rows(m, min, top + 1));
        TipKnown(loaded) && WindowInvariant(Run(loaded, polls).window)
  {
    hide Run, WindowInvariant, LoadKnown, Rows;
    FreshInvariant(maxDepth);
    RunKeepsInvariant(Fresh(maxDepth), polls);
    if KeyedByNumber(m) && min <= top && top in m && (forall n :: n in m ==> n <= top)
       && Unbroken(m, LoadFloor(Fresh(maxDepth).depth, min, top), top) {
      LoadKnownRows(maxDepth, m, min, top);
      LoadKnownValidIff(maxDepth, m, min, top);
      RunKeepsInvariant(LoadKnown(Fresh(maxDepth), Rows(m, min, top + 1)), polls);
    }
  }

  // ---- Loading and polling in any order -----------------------------------------------

  datatype Act = Load(blocks: seq<BlockRef>) | Head(poll: Poll)

  function Acted(w: Window, acts: seq<Act>): (r: Window)
    requires TipKnown(w)
    ensures TipKnown(r)
  {
    if acts == [] then w
    else
      var before := Acted(w, acts[..|acts| - 1]);
      match acts[|acts| - 1]
      case Load(blocks) =>
        LoadKnownKeepsTip(before, blocks);
        LoadKnown(before, blocks)
      case Head(p) =>
        OnHeadKeepsTip(before, p.reader, p.clock, p.head);
        OnHead(before, p.reader, p.clock, p.head).window
  }

  /** After any sequence of loads - of anything - and polls, Tip answers the block filed at the tip height, and
      answers none exactly while nothing has been filed. */
  lemma TipAlwaysKnown(maxDepth: nat, acts: seq<Act>)
    ensures var w := Acted(Fresh(maxDepth), acts);
            && TipKnown(w)
            && (Tip(w).Some? <==> w.known != map[])
            && (Tip(w).Some? ==> w.tip in w.known && Tip(w) == Some(w.known[w.tip]))
  {
  }

  /** The i-th call of the run is allowed in the state it meets. */
  predicate AllowedAt(start: Window, live: Table, polls: seq<Poll>, i: nat)
    requires TipKnown(start) && i < |polls|
  {
    var r := Run(start, polls[..i]);
    var now := Replay(live, r.log);
    now.Some? && Allowed(r.window, now.value, polls[i].reader, polls[i].clock, polls[i].head)
  }

  ghost predicate SafeRun(start: Window, live: Table, polls: seq<Poll>)
    requires TipKnown(start)
  {
    forall i: nat :: i < |polls| ==> AllowedAt(start, live, polls, i)
  }

  /** After the run the stream replays and what is live from the window's lowest height up is the window. */
  ghost predicate InStepAfter(start: Window, live: Table, polls: seq<Poll>)
    requires TipKnown(start)
  {
    var r := Run(start, polls);
    var now := Replay(live, r.log);
    now.Some? && InStep(r.window, now.value)
  }

  ghost predicate InStepThroughout(start: Window, live: Table, polls: seq<Poll>)
    requires TipKnown(start)
  {
    forall i: nat :: i <= |polls| ==> InStepAfter(start, live, polls[..i])
  }

  /** Whole-run stream safety, in both directions. From any start in step - fresh, or just loaded - a run
      of any heads against any readers keeps a replayable stream whose live blocks from the window's
      lowest height up are exactly the window, after every poll, if and only if every call was allowed. */
  lemma StreamSafetyIff(start: Window, live: Table, polls: seq<Poll>)
    requires TipKnown(start) && InStep(start, live)
    ensures InStepThroughout(start, live, polls) <==> SafeRun(start, live, polls)
  {
    hide InStepAfter, AllowedAt;
    if InStepThroughout(start, live, polls) {
      forall i: nat | i < |polls|
        ensures AllowedAt(start, live, polls, i)
      {
        assert InStepAfter(start, live, polls[..i]) && InStepAfter(start, live, polls[..i + 1]);
        NextInStep(start, live, polls, i);
      }
    }
    if SafeRun(start, live, polls) {
      forall i: nat | i <= |polls|
        ensures InStepAfter(start, live, polls[..i])
      {
        SafeInStep(start, live, polls, i);
      }
    }
  }

  lemma NextInStep(start: Window, live: Table, polls: seq<Poll>, i: nat)
    requires TipKnown(start) && i < |polls| && InStepAfter(start, live, polls[..i])
    ensures InStepAfter(start, live, polls[..i + 1]) <==> AllowedAt(start, live, polls, i)
  {
    hide OnHead, Allowed, InStep, Replay;
    var r, p := Run(start, polls[..i]), polls[i];
    var now := Replay(live, r.log).value;
    InStepIffAllowed(r.window, now, p.reader, p.clock, p.head);
    ReplayConcat(live, r.log, Events(OnHead(r.window, p.reader, p.clock, p.head).outcome));
    RunSnoc(start, polls[..i], p);
    assert polls[..i + 1] == polls[..i] + [p];
  }

  lemma {:induction false} SafeInStep(start: Window, live: Table, polls: seq<Poll>, i: nat)
    requires TipKnown(start) && InStep(start, live) && SafeRun(start, live, polls) && i <= |polls|
    ensures InStepAfter(start, live, polls[..i])
    decreases i
  {
    hide InStep, AllowedAt;
    if i > 0 {
      SafeInStep(start, live, polls, i - 1);
      assert AllowedAt(start, live, polls, i - 1);
      NextInStep(start, live, polls, i - 1);
    }
  }

  predicate Fails(start: Window, polls: seq<Poll>, p: Poll)
    requires TipKnown(start)
  {
    OnHead(Run(start, polls).window, p.reader, p.clock, p.head).outcome.Failure?
  }

  /** The run without the polls that fail in it. */
  function Succeeding(start: Window, polls: seq<Poll>): seq<Poll>
    requires TipKnown(start)
  {
    if polls == [] then []
    else
      var before, p := polls[..|polls| - 1], polls[|polls| - 1];
      Succeeding(start, before) + (if Fails(start, before, p) then [] else [p])
  }

  /** Failure leaves no trace: any run leaves the window and the stream that it leaves without the polls
      that fail in it. */
  lemma {:induction false} FailedPollsErase(start: Window, polls: seq<Poll>)
    requires TipKnown(start)
    ensures Run(start, Succeeding(start, polls)) == Run(start, polls)
    decreases |polls|
  {
    hide OnHead, Run;
    if polls != [] {
      var before, p := polls[..|polls| - 1], polls[|polls| - 1];
      FailedPollsErase(start, before);
      assert polls == before + [p];
      RunSnoc(start, before, p);
      if Fails(start, before, p) {
        FailureKeepsWindow(Run(start, before).window, p.reader, p.clock, p.head);
        assert Run(start, before).log + [] == Run(start, before).log;
        assert Succeeding(start, polls) == Succeeding(start, before);
      } else {
        RunSnoc(start, Succeeding(start, before), p);
      }
    }
  }

  lemma RunSnoc(start: Window, polls: seq<Poll>, p: Poll)
    requires TipKnown(start)
    ensures var r := Run(start, polls);
            var s := OnHead(r.window, p.reader, p.clock, p.head);
            Run(start, polls + [p]) == RunState(s.window, r.log + Events(s.outcome))
  {
    hide OnHead, Events;
    assert (polls + [p])[..|polls|] == polls;
  }

  lemma FailureKeepsWindow(w: Window, rd: Reader, k: nat, head: BlockRef)
    requires TipKnown(w) && OnHead(w, rd, k, head).outcome.Failure?
    ensures OnHead(w, rd, k, head).window == w
  {
  }

  // ---- A fixed genesis block ----------------------------------------------------------

  /** Everything at height 0 in sight - known, served or the head - has one hash. */
  ghost predicate GenesisFixed(w: Window, rd: Reader, head: BlockRef, g: Hash) {
    && (0 in w.known ==> w.known[0].hash == g)
    && (forall k: nat :: rd(k, 0).Served? ==> rd(k, 0).block.hash == g)
    && (head.number == 0 ==> head.hash == g)
  }

  lemma {:induction false} WalkBackGenesis(w: Window, rd: Reader, k: nat, path: seq<BlockRef>, head: BlockRef, g: Hash)
    requires path != [] && GenesisFixed(w, rd, head, g) && (path[0].number == 0 ==> path[0].hash == g)
    ensures var walk := WalkBack(w, rd, k, path);
            walk.Stopped? ==> walk.path != [] && (walk.path[0].number == 0 ==> walk.path[0].hash == g)
    decreases path[0].number
  {
    if path[0].number > 0 && rd(k, path[0].number - 1).Served? {
      WalkBackGenesis(w, rd, k + 1, [rd(k, path[0].number - 1).block] + path, head, g);
    }
  }

  /** With one genesis block in sight the height-0 fallback never fires, and it stays in sight. */
  lemma NoSwapWhenGenesisFixed(w: Window, lo: nat, rd: Reader, k: nat, head: BlockRef, g: Hash)
    requires Shows(w, lo) && GenesisFixed(w, rd, head, g)
    ensures !GenesisSwapped(w, rd, k, head)
    ensures GenesisFixed(OnHead(w, rd, k, head).window, rd, head, g)
  {
    OnHeadShape(w, lo, rd, k, head);
    var s := OnHead(w, rd, k, head);
    if s.outcome.Reconciled? && !Duplicate(w, head) {
      var path := s.outcome.canonical;
      assert path[0] in path && UnknownTo(w.known, path[0]);
      assert path[0].number == 0 ==> path[0].hash == g by {
        if path[0].number == 0 {
          var walk := WalkFor(w, rd, k, head).value;
          var k' := if head.number > w.tip then Advance(w, rd, k, head, []).clock else k;
          WalkBackGenesis(w, rd, k', [head], head, g);
        }
      }
      GraftAt(w.known, path, 0);
    }
  }
}

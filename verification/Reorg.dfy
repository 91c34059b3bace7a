/** The reconciler as the program runs it: fields updated in place by loops, each method proved to
    compute the corresponding function of module Reconcile. */
module Reorg {
  import opened Chain
  import opened Reconcile
  import opened WindowLaws

  /** The remote node: its answers are fixed in advance per call number and height, and otherwise arbitrary. */
  class ChainReader {
    const replies: Reader
    var calls: nat

    constructor (replies: Reader)
      ensures this.replies == replies && calls == 0
    {
      this.replies := replies;
      calls := 0;
    }

    method BlockByNumber(n: nat) returns (reply: Reply)
      modifies this
      ensures reply == replies(old(calls), n) && calls == old(calls) + 1
    {
      reply := replies(calls, n);
      calls := calls + 1;
    }
  }

  function Reversed(s: seq<BlockRef>): (r: seq<BlockRef>)
    ensures |r| == |s|
  {
    if s == [] then [] else [Last(s)] + Reversed(s[..|s| - 1])
  }

  lemma {:induction false} ReversedAt(s: seq<BlockRef>, k: nat)
    requires k < |s|
    ensures Reversed(s)[k] == s[|s| - 1 - k]
    decreases |s|
  {
    if k > 0 {
      ReversedAt(s[..|s| - 1], k - 1);
    }
  }

  lemma ReversedAppend(s: seq<BlockRef>, b: BlockRef)
    ensures Reversed(s + [b]) == [b] + Reversed(s)
  {
    assert (s + [b])[..|s|] == s;
  }

  /** Swapping from both ends inwards reverses the buffer in place. */
  method Reverse(path: array<BlockRef>)
    modifies path
    ensures path[..] == Reversed(old(path[..]))
  {
    ghost var was := path[..];
    var i, j := 0, path.Length - 1;
    while i < j
      invariant 0 <= i <= j + 2 && i + j == path.Length - 1
      invariant forall k :: 0 <= k < i || j < k < path.Length ==> path[k] == was[path.Length - 1 - k]
      invariant forall k :: i <= k <= j ==> path[k] == was[k]
    {
      path[i], path[j] := path[j], path[i];
      i, j := i + 1, j - 1;
    }
    forall k | 0 <= k < path.Length
      ensures path[..][k] == Reversed(was)[k]
    {
      ReversedAt(was, k);
    }
  }

  method Ascending(walked: seq<BlockRef>) returns (path: seq<BlockRef>)
    ensures path == Reversed(walked)
  {
    var buffer := new BlockRef[|walked|](i requires 0 <= i < |walked| => walked[i]);
    assert buffer[..] == walked;
    Reverse(buffer);
    path := buffer[..];
  }

  class Reconciler {
    const maxDepth: nat
    const reader: ChainReader
    var known: Table
    var tip: nat
    var seeded: bool

    ghost function View(): Window
      reads this
    {
      Window(maxDepth, known, tip, seeded)
    }

    ghost predicate Valid()
      reads this
    {
      TipKnown(View())
    }

    constructor (maxDepth: nat, reader: ChainReader)
      ensures Valid() && View() == Fresh(maxDepth) && this.reader == reader
    {
      this.maxDepth := if maxDepth == 0 then DEFAULT_DEPTH else maxDepth;
      this.reader := reader;
      known, tip, seeded := map[], 0, false;
    }

    method TipBlock() returns (b: Option<BlockRef>)
      requires Valid()
      ensures b == Tip(View())
    {
      if !seeded {
        return None;
      }
      return Some(known[tip]);
    }

    method PruneOld()
      modifies this
      ensures View() == Prune(old(View()))
    {
      if tip <= maxDepth {
        return;
      }
      var threshold := tip - maxDepth;
      var heights := known.Keys;
      while heights != {}
        invariant heights <= old(known.Keys) && tip == old(tip) && seeded == old(seeded)
        invariant known == map n | n in old(known) && (n in heights || n >= threshold) :: old(known)[n]
        decreases heights
      {
        var n :| n in heights;
        heights := heights - {n};
        if n < threshold {
          known := known - {n};
        }
      }
    }

    method RecordBlock(b: BlockRef)
      modifies this
      ensures View() == Record(old(View()), b)
    {
      known := known[b.number := b];
      if b.number > tip {
        tip := b.number;
      }
      seeded := true;
      PruneOld();
    }

    method HasBelow(n: nat) returns (found: bool)
      ensures found == HasAnyBelow(known, n)
    {
      var heights := known.Keys;
      while heights != {}
        invariant heights <= known.Keys
        invariant forall k :: k in known && k < n ==> k in heights
        decreases heights
      {
        var k :| k in heights;
        if k < n {
          return true;
        }
        heights := heights - {k};
      }
      return false;
    }

    method LoadBlocks(blocks: seq<BlockRef>)
      requires Valid()
      modifies this
      ensures Valid() && View() == LoadKnown(old(View()), blocks)
    {
      for i := 0 to |blocks|
        invariant View() == PutAll(old(View()), blocks[..i])
      {
        var b := blocks[i];
        assert blocks[..i + 1][..i] == blocks[..i];
        known := known[b.number := b];
        if b.number > tip {
          tip := b.number;
        }
        seeded := true;
      }
      assert blocks[..|blocks|] == blocks;
      LoadKnownKeepsTip(old(View()), blocks);
      PruneOld();
    }

    method Forward(head: BlockRef) returns (out: Outcome)
      requires Valid() && seeded && tip < head.number
      modifies this, reader
      ensures var s := ApplyForward(old(View()), reader.replies, old(reader.calls), head);
              out == s.outcome && View() == s.window && reader.calls == s.clock
    {
      ghost var w, rd, k := View(), reader.replies, reader.calls;
      var originalTip := tip;
      var fetched := [];
      var n := originalTip + 1;
      while n <= head.number
        invariant View() == w && |fetched| == n - originalTip - 1 && n <= head.number + 1
        invariant Advance(w, rd, k, head, []) ==
                  if n <= head.number then Advance(w, rd, reader.calls, head, fetched)
                      else Extends(fetched, reader.calls)
      {
        var b := head;
        if n != head.number {
          var got := reader.BlockByNumber(n);
          if got.Failed? {
            return Failure(CatchUpFailed(n));
          }
          b := got.block;
        }
        var prev := if n == originalTip + 1 then known[originalTip] else fetched[|fetched| - 1];
        if b.parent != prev.hash {
          out := Reorganise(head);
          return;
        }
        fetched := fetched + [b];
        n := n + 1;
      }
      ghost var calls := reader.calls;
      for i := 0 to |fetched|
        invariant View() == RecordAll(w, fetched[..i]) && reader.calls == calls
      {
        assert fetched[..i + 1][..i] == fetched[..i];
        RecordBlock(fetched[i]);
      }
      assert fetched[..|fetched|] == fetched;
      return Reconciled(fetched, []);
    }

    method Reorganise(head: BlockRef) returns (out: Outcome)
      modifies this, reader
      ensures var s := HandleReorg(old(View()), reader.replies, old(reader.calls), head);
              out == s.outcome && View() == s.window && reader.calls == s.clock
    {
      hide RecordAll, Rows, CutTo;
      ghost var w, rd, k := View(), reader.replies, reader.calls;
      var cursor := head;
      var ancestryPath := [head];
      var commonAncestor := 0;
      var ancestorFound := false;
      assert Reversed([head]) == [head];
      while cursor.number > 0
        invariant View() == w && ancestryPath != [] && cursor == Reversed(ancestryPath)[0]
        invariant !ancestorFound && commonAncestor == 0
        invariant WalkBack(w, rd, k, [head]) == WalkBack(w, rd, reader.calls, Reversed(ancestryPath))
        decreases cursor.number
      {
        var parentNum := cursor.number - 1;
        if parentNum in known {
          if known[parentNum].hash == cursor.parent {
            commonAncestor, ancestorFound := parentNum, true;
            break;
          }
        } else if parentNum < tip {
          var below := HasBelow(parentNum + 1);
          if !below {
            commonAncestor, ancestorFound := parentNum, true;
            break;
          }
        }
        var got := reader.BlockByNumber(parentNum);
        if got.Failed? {
          return Failure(WalkFailed(parentNum));
        }
        if got.block.hash != cursor.parent {
          return Failure(ChainShifted(parentNum));
        }
        cursor := got.block;
        ReversedAppend(ancestryPath, cursor);
        ancestryPath := ancestryPath + [cursor];
      }
      assert WalkBack(w, rd, k, [head]) == Stopped(commonAncestor, ancestorFound, Reversed(ancestryPath), reader.calls);
      hide WalkBack, Reversed;
      ancestryPath := Ascending(ancestryPath);
      out := Resplice(commonAncestor, ancestryPath);
    }

    /** Dropping the blocks above the ancestor and recording the new path, once the walk has succeeded. */
    method Resplice(commonAncestor: nat, ancestryPath: seq<BlockRef>) returns (out: Outcome)
      modifies this
      ensures out == Reconciled(ancestryPath, Rows(old(known), commonAncestor + 1, old(tip) + 1))
      ensures View() == RecordAll(CutTo(old(View()), commonAncestor), ancestryPath)
    {
      var reverted := [];
      var oldTip := tip;
      var n := commonAncestor + 1;
      while n <= oldTip
        invariant tip == oldTip == old(tip) && seeded == old(seeded) && commonAncestor + 1 <= n
        invariant n <= oldTip + 1 || n == commonAncestor + 1
        invariant reverted == Rows(old(known), commonAncestor + 1, n)
        invariant known == map h | h in old(known) && !(commonAncestor < h < n) :: old(known)[h]
      {
        if n in known {
          reverted := reverted + [known[n]];
          known := known - {n};
        }
        n := n + 1;
      }
      assert Rows(old(known), commonAncestor + 1, n) == Rows(old(known), commonAncestor + 1, oldTip + 1);
      tip := commonAncestor;
      ghost var cut := CutTo(old(View()), commonAncestor);
      assert View() == cut;
      var canonical := [];
      for i := 0 to |ancestryPath|
        invariant View() == RecordAll(cut, ancestryPath[..i]) && canonical == ancestryPath[..i]
      {
        assert ancestryPath[..i + 1][..i] == ancestryPath[..i];
        RecordBlock(ancestryPath[i]);
        canonical := canonical + [ancestryPath[i]];
      }
      assert ancestryPath[..|ancestryPath|] == ancestryPath;
      return Reconciled(canonical, reverted);
    }

    method Head(head: BlockRef) returns (out: Outcome)
      requires Valid()
      modifies this, reader
      ensures Valid()
      ensures var s := OnHead(old(View()), reader.replies, old(reader.calls), head);
              out == s.outcome && View() == s.window && reader.calls == s.clock
    {
      OnHeadKeepsTip(View(), reader.replies, reader.calls, head);
      if !seeded {
        RecordBlock(head);
        return Reconciled([head], []);
      }
      if head.number in known && known[head.number].hash == head.hash {
        return Reconciled([], []);
      }
      if head.number > tip {
        out := Forward(head);
      } else {
        out := Reorganise(head);
      }
    }
  }
}

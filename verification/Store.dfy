/** The store: one row per height, overwritten in place and never deleted, and one cursor. */
module Storage {
  import opened Chain
  import opened Stream
  import opened Track

  /** What the tracker does to the outside, one act at a time. */
  datatype Entry =
    | Row(block: BlockRef)
    | Told(event: Event)
    | BatchTold(blocks: seq<BlockRef>)
    | Cursor(block: BlockRef)

  /** The order in which the store and the callbacks are used. */
  class Journal {
    var entries: seq<Entry>

    constructor ()
      ensures entries == []
    {
      entries := [];
    }

    method Add(e: Entry)
      modifies this
      ensures entries == old(entries) + [e]
    {
      entries := entries + [e];
    }
  }

  class Store {
    const journal: Journal
    var blocks: Table
    var cursor: Option<BlockRef>

    constructor (journal: Journal)
      ensures blocks == map[] && cursor == None && this.journal == journal
    {
      this.journal := journal;
      blocks, cursor := map[], None;
    }

    method RememberBlock(b: BlockRef)
      modifies this, journal
      ensures blocks == old(blocks)[b.number := b] && cursor == old(cursor)
      ensures journal.entries == old(journal.entries) + [Row(b)]
    {
      blocks := blocks[b.number := b];
      journal.Add(Row(b));
    }

    method SaveCursor(b: BlockRef)
      modifies this, journal
      ensures cursor == Some(b) && blocks == old(blocks)
      ensures journal.entries == old(journal.entries) + [Cursor(b)]
    {
      cursor := Some(b);
      journal.Add(Cursor(b));
    }

    /** The rows at heights in [lo, end), read one after another in height order. */
    method ReadRows(lo: nat, end: nat) returns (rows: seq<BlockRef>)
      ensures rows == Rows(blocks, lo, end)
    {
      rows := [];
      var n := lo;
      while n < end
        invariant lo <= n && (n <= end || n == lo)
        invariant rows == Rows(blocks, lo, n)
      {
        if n in blocks {
          rows := rows + [blocks[n]];
        }
        n := n + 1;
      }
    }

    method LoadRecentBlocks(min: nat) returns (rows: seq<BlockRef>)
      ensures rows == Rows(blocks, min, EndOf(blocks))
    {
      var end, left := 0, blocks.Keys;
      while left != {}
        invariant left <= blocks.Keys && (end > 0 ==> end - 1 in blocks)
        invariant forall n :: n in blocks ==> n < end || n in left
        decreases left
      {
        var n :| n in left;
        left := left - {n};
        if n >= end {
          end := n + 1;
        }
      }
      EndOfIs(blocks, end);
      rows := ReadRows(min, end);
    }

    method LoadCanonicalBlocksRange(from: nat, to: nat) returns (rows: seq<BlockRef>)
      ensures rows == Rows(blocks, from, to + 1)
    {
      rows := ReadRows(from, to + 1);
    }
  }
}

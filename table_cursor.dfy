/** `TableCursor`: a position (block index, loaded block, offset in it) over
    the decoded blocks of one table. The block table and `readBlock` are
    given: block `i` is `blocks[i]`, with its first key and the entries
    `readBlock` decodes for it. */
module TableCursor {
  import opened Bytes
  import opened Results
  import opened Block

  /** One block of the table: its first key and its decoded entries. */
  datatype BlockRef = BlockRef(firstKey: bytes, entries: seq<Entry>)

  /** The cursor's fields: `currentBlockIndex`, `currentBlock` (absent
      until a block is read) and `currentBlockOffset`. */
  datatype Cursor = Cursor(blocks: seq<BlockRef>, index: nat, block: Option<seq<Entry>>, offset: nat)

  /** A newly constructed cursor. */
  function Start(blocks: seq<BlockRef>): Cursor
  {
    Cursor(blocks, 0, None, 0)
  }

  /** `blockIdx`: the rightmost block whose first key is at most `key`, or
      -1 when every first key is above it. */
  function Candidate(blocks: seq<BlockRef>, key: bytes): (r: int)
    ensures -1 <= r < |blocks|
    ensures r == -1 <==> forall i :: 0 <= i < |blocks| ==> !LessEq(blocks[i].firstKey, key)
    ensures r >= 0 ==> LessEq(blocks[r].firstKey, key)
    ensures r >= 0 ==> forall i :: r < i < |blocks| ==> !LessEq(blocks[i].firstKey, key)
  {
    if blocks == [] then -1
    else if Compare(blocks[|blocks| - 1].firstKey, key) <= 0 then |blocks| - 1
    else Candidate(blocks[..|blocks| - 1], key)
  }

  /** `findIndex` of the first entry whose key is at least `key`, or -1. */
  function FirstAtLeast(es: seq<Entry>, key: bytes): (r: int)
    ensures -1 <= r < |es|
    ensures r == -1 <==> forall i :: 0 <= i < |es| ==> Less(es[i].key, key)
    ensures r >= 0 ==> LessEq(key, es[r].key) && forall i :: 0 <= i < r ==> Less(es[i].key, key)
  {
    if es == [] then -1
    else if Compare(es[0].key, key) >= 0 then 0
    else
      var r := FirstAtLeast(es[1..], key);
      assert forall i :: 1 <= i < |es| ==> es[i] == es[1..][i - 1];
      if r == -1 then -1 else r + 1
  }

  /** `es[i]`, or nothing (`undefined`) past the end. */
  function EntryAt(es: seq<Entry>, i: nat): Option<Entry>
  {
    if i < |es| then Some(es[i]) else None
  }

  /** `ensureBlock`: false when the index is past the last block; reads the
      block when none is loaded; at the end of the loaded block moves to
      offset 0 of the next one, which it reads unless that is past the
      last block. */
  function EnsureStep(c: Cursor): (bool, Cursor)
  {
    if c.index >= |c.blocks| then (false, c)
    else
      var b := if c.block.None? then c.blocks[c.index].entries else c.block.value;
      if c.offset < |b| then (true, c.(block := Some(b)))
      else if c.index + 1 >= |c.blocks| then (false, c.(index := c.index + 1, block := Some(b), offset := 0))
      else (true, c.(index := c.index + 1, block := Some(c.blocks[c.index + 1].entries), offset := 0))
  }

  /** `peek`: the assertion that a block is loaded fails (`InvalidBlock`)
      when none ever was; otherwise nothing when `ensureBlock` said false,
      else the entry at the offset. */
  function PeekStep(c: Cursor): (Result<Option<Entry>>, Cursor)
  {
    var (ready, c1) := EnsureStep(c);
    if c1.block.None? then (Err(InvalidBlock), c1)
    else if !ready then (Ok(None), c1)
    else (Ok(EntryAt(c1.block.value, c1.offset)), c1)
  }

  /** `next`: as `peek`, and a ready cursor's offset moves on by one. */
  function NextStep(c: Cursor): (Result<Option<Entry>>, Cursor)
  {
    var (ready, c1) := EnsureStep(c);
    if c1.block.None? then (Err(InvalidBlock), c1)
    else if !ready then (Ok(None), c1)
    else (Ok(EntryAt(c1.block.value, c1.offset)), c1.(offset := c1.offset + 1))
  }

  /** `seek`: with no candidate block, the index goes past the last block;
      otherwise the index goes to the candidate with offset 0, `ensureBlock`
      runs (reading a block only when none is loaded), and the offset goes
      to the first entry of the loaded block at or above `key`, or its end. */
  function SeekStep(c: Cursor, key: bytes): Cursor
  {
    var bi := Candidate(c.blocks, key);
    if bi < 0 then c.(index := |c.blocks|, offset := 0)
    else
      var c2 := EnsureStep(c.(index := bi, offset := 0)).1;
      var b := c2.block.value;
      var idx := FirstAtLeast(b, key);
      c2.(offset := if idx < 0 then |b| else idx)
  }

  // ---------------------------------------------------------------------
  // The cursor object

  class TableCursor {
    const blocks: seq<BlockRef>
    var currentBlockIndex: nat
    var currentBlock: Option<seq<Entry>>
    var currentBlockOffset: nat

    function State(): Cursor
      reads this
    {
      Cursor(blocks, currentBlockIndex, currentBlock, currentBlockOffset)
    }

    /** The file handle is not modelled: the cursor is given the blocks. */
    constructor (table: seq<BlockRef>)
      ensures State() == Start(table)
    {
      blocks := table;
      currentBlockIndex, currentBlock, currentBlockOffset := 0, None, 0;
    }

    method EnsureBlock() returns (ready: bool)
      modifies this
      ensures (ready, State()) == EnsureStep(old(State()))
    {
      if currentBlockIndex >= |blocks| {
        return false;
      }
      if currentBlock.None? {
        currentBlock := Some(blocks[currentBlockIndex].entries);
      }
      if currentBlockOffset >= |currentBlock.value| {
        currentBlockOffset := 0;
        currentBlockIndex := currentBlockIndex + 1;
        if currentBlockIndex >= |blocks| {
          return false;
        }
        currentBlock := Some(blocks[currentBlockIndex].entries);
      }
      return true;
    }

    method Peek() returns (r: Result<Option<Entry>>)
      modifies this
      ensures (r, State()) == PeekStep(old(State()))
    {
      var ready := EnsureBlock();
      if currentBlock.None? {
        return Err(InvalidBlock);
      }
      if !ready {
        return Ok(None);
      }
      return Ok(EntryAt(currentBlock.value, currentBlockOffset));
    }

    method Next() returns (r: Result<Option<Entry>>)
      modifies this
      ensures (r, State()) == NextStep(old(State()))
    {
      var ready := EnsureBlock();
      if currentBlock.None? {
        return Err(InvalidBlock);
      }
      if !ready {
        return Ok(None);
      }
      r := Ok(EntryAt(currentBlock.value, currentBlockOffset));
      currentBlockOffset := currentBlockOffset + 1;
    }

    method Seek(key: bytes)
      modifies this
      ensures State() == SeekStep(old(State()), key)
    {
      var blockIndex := Candidate(blocks, key);
      if blockIndex < 0 {
        currentBlockIndex, currentBlockOffset := |blocks|, 0;
        return;
      }
      currentBlockIndex, currentBlockOffset := blockIndex, 0;
      var _ := EnsureBlock();
      var idx := FirstAtLeast(currentBlock.value, key);
      if idx < 0 {
        currentBlockOffset := |currentBlock.value|;
      } else {
        currentBlockOffset := idx;
      }
    }
  }

  // ---------------------------------------------------------------------
  // One step at a time

  /** Past the last block the cursor stays put and yields nothing, or fails
      its assertion when no block was ever loaded. */
  lemma ExhaustedSticky(c: Cursor)
    requires c.index >= |c.blocks|
    ensures NextStep(c) == (if c.block.None? then Err(InvalidBlock) else Ok(None), c)
    ensures PeekStep(c) == NextStep(c)
  {
  }

  /** `peek` returns what `next` returns and leaves the offset where `next`
      found the entry. */
  lemma PeekIsNext(c: Cursor)
    ensures PeekStep(c).0 == NextStep(c).0
    ensures NextStep(c).1 == if EnsureStep(c).0 && PeekStep(c).1.block.Some? then PeekStep(c).1.(offset := PeekStep(c).1.offset + 1)
                             else PeekStep(c).1
  {
  }

  /** After a `peek` that found an entry, `next` returns that entry. */
  lemma PeekThenNext(c: Cursor, e: Entry)
    requires PeekStep(c).0 == Ok(Some(e))
    ensures NextStep(PeekStep(c).1) == (Ok(Some(e)), PeekStep(c).1.(offset := PeekStep(c).1.offset + 1))
  {
    var c1 := PeekStep(c).1;
    assert c1.index < |c1.blocks| && c1.block.Some? && c1.offset < |c1.block.value|;
  }

  // ---------------------------------------------------------------------
  // Draining a cursor

  predicate NonEmptyBlocks(blocks: seq<BlockRef>)
  {
    forall i :: 0 <= i < |blocks| ==> blocks[i].entries != []
  }

  /** Every entry of every block, in block order. */
  function Entries(blocks: seq<BlockRef>): seq<Entry>
  {
    if blocks == [] then [] else blocks[0].entries + Entries(blocks[1..])
  }

  /** A position a cursor over non-empty blocks can be in: before the
      first entry of a block not yet read, inside (or at the end of) the
      block it has read, or past the last block. */
  predicate Good(c: Cursor)
  {
    && NonEmptyBlocks(c.blocks)
    && c.index <= |c.blocks|
    && (c.index < |c.blocks| ==>
          (c.block.None? && c.offset == 0)
          || (c.block == Some(c.blocks[c.index].entries) && c.offset <= |c.blocks[c.index].entries|))
  }

  /** The entries still ahead of a cursor. */
  function Remaining(c: Cursor): seq<Entry>
    requires Good(c)
  {
    if c.index == |c.blocks| then [] else c.blocks[c.index].entries[c.offset..] + Entries(c.blocks[c.index + 1..])
  }

  lemma {:induction false} EntriesCons(blocks: seq<BlockRef>, i: nat)
    requires i < |blocks|
    ensures Entries(blocks[i..]) == blocks[i].entries + Entries(blocks[i + 1..])
  {
    assert blocks[i..][1..] == blocks[i + 1..];
  }

  /** `next` on a good position returns the first remaining entry and
      leaves the rest; with nothing remaining it returns nothing, or fails
      its assertion when no block was ever loaded, and stays exhausted. */
  lemma NextRemaining(c: Cursor)
    requires Good(c)
    ensures Good(NextStep(c).1)
    ensures Remaining(c) != [] ==>
              && NextStep(c).0 == Ok(Some(Remaining(c)[0]))
              && Remaining(NextStep(c).1) == Remaining(c)[1..]
              && NextStep(c).1.block.Some?
    ensures Remaining(c) == [] ==>
              && NextStep(c).0 == (if c.block.None? then Err(InvalidBlock) else Ok(None))
              && Remaining(NextStep(c).1) == []
              && NextStep(c).1.block.None? == c.block.None?
  {
    if c.index < |c.blocks| {
      var b := c.blocks[c.index].entries;
      if c.offset < |b| {
        NextInBlock(c);
      } else if c.index + 1 < |c.blocks| {
        NextNextBlock(c);
      } else {
        NextLastBlock(c);
      }
    }
  }

  /** The entry at the offset of the current block. */
  lemma NextInBlock(c: Cursor)
    requires Good(c) && c.index < |c.blocks| && c.offset < |c.blocks[c.index].entries|
    ensures Good(NextStep(c).1) && Remaining(c) != []
    ensures NextStep(c).0 == Ok(Some(Remaining(c)[0]))
    ensures Remaining(NextStep(c).1) == Remaining(c)[1..]
    ensures NextStep(c).1.block.Some?
  {
    var b := c.blocks[c.index].entries;
    var rest := Entries(c.blocks[c.index + 1..]);
    assert NextStep(c) == (Ok(Some(b[c.offset])), c.(block := Some(b), offset := c.offset + 1));
    assert Remaining(c) == b[c.offset..] + rest;
    assert b[c.offset..][1..] == b[c.offset + 1..];
  }

  /** At the end of a block that is not the last, the first entry of the
      next block. */
  lemma NextNextBlock(c: Cursor)
    requires Good(c) && c.index + 1 < |c.blocks| && c.offset == |c.blocks[c.index].entries|
    ensures Good(NextStep(c).1) && Remaining(c) != []
    ensures NextStep(c).0 == Ok(Some(Remaining(c)[0]))
    ensures Remaining(NextStep(c).1) == Remaining(c)[1..]
    ensures NextStep(c).1.block.Some?
  {
    var b, rest := c.blocks[c.index + 1].entries, Entries(c.blocks[c.index + 2..]);
    NextAtBlockEnd(c);
    RemainingAtBlockEnd(c);
    assert (b + rest)[1..] == b[1..] + rest;
  }

  /** `next` at the end of a block that is not the last loads the next
      block and returns its first entry. */
  lemma NextAtBlockEnd(c: Cursor)
    requires Good(c) && c.index + 1 < |c.blocks| && c.offset == |c.blocks[c.index].entries|
    ensures var b := c.blocks[c.index + 1].entries;
            b != [] && NextStep(c) == (Ok(Some(b[0])), c.(index := c.index + 1, block := Some(b), offset := 1))
  {
    var b := c.blocks[c.index + 1].entries;
    assert b != [];
  }

  /** What remains at the end of a block is the blocks after it. */
  lemma RemainingAtBlockEnd(c: Cursor)
    requires Good(c) && c.index + 1 < |c.blocks| && c.offset == |c.blocks[c.index].entries|
    ensures Remaining(c) == c.blocks[c.index + 1].entries + Entries(c.blocks[c.index + 2..])
  {
    EntriesCons(c.blocks, c.index + 1);
    assert c.blocks[c.index].entries[c.offset..] == [];
  }

  /** At the end of the last block: nothing, and the cursor goes past it. */
  lemma NextLastBlock(c: Cursor)
    requires Good(c) && c.index + 1 == |c.blocks| && c.offset == |c.blocks[c.index].entries|
    ensures Good(NextStep(c).1) && Remaining(c) == [] && c.block.Some?
    ensures NextStep(c).0 == Ok(None)
    ensures Remaining(NextStep(c).1) == []
    ensures NextStep(c).1.block.Some?
  {
    assert c.blocks[c.index].entries != [];
    assert c.blocks[c.index + 1..] == [];
  }

  /** The results of `n` calls of `next`, and the cursor after them. */
  function Pull(c: Cursor, n: nat): (seq<Result<Option<Entry>>>, Cursor)
    decreases n
  {
    if n == 0 then ([], c)
    else
      var (r, c1) := NextStep(c);
      var (rs, c2) := Pull(c1, n - 1);
      ([r] + rs, c2)
  }

  /** Each entry as a result of `next`. */
  function Found(es: seq<Entry>): (r: seq<Result<Option<Entry>>>)
    ensures |r| == |es|
  {
    seq(|es|, i requires 0 <= i < |es| => Ok(Some(es[i])))
  }

  lemma FoundCons(es: seq<Entry>, n: nat)
    requires 0 < n <= |es|
    ensures Found(es[..n]) == [Ok(Some(es[0]))] + Found(es[1..][..n - 1])
    ensures es[1..][n - 1..] == es[n..]
  {
    assert es[1..][..n - 1] == es[1..n];
  }

  lemma FoundTail(es: seq<Entry>)
    requires es != []
    ensures Found(es) == [Ok(Some(es[0]))] + Found(es[1..])
  {
    assert Found(es)[1..] == Found(es[1..]);
  }

  lemma {:induction false} PullRemaining(c: Cursor, n: nat)
    requires Good(c) && n <= |Remaining(c)|
    ensures Good(Pull(c, n).1)
    ensures Pull(c, n).0 == Found(Remaining(c)[..n])
    ensures Remaining(Pull(c, n).1) == Remaining(c)[n..]
    ensures Pull(c, n).1.block.Some? <==> (n > 0 || c.block.Some?)
    decreases n
  {
    if n > 0 {
      var rest := Remaining(c);
      var c1 := NextStep(c).1;
      NextRemaining(c);
      assert NextStep(c).0 == Ok(Some(rest[0])) && Remaining(c1) == rest[1..];
      PullRemaining(c1, n - 1);
      FoundCons(rest, n);
      PullCons(c, n);
    } else {
      assert Remaining(c)[..0] == [];
    }
  }

  lemma PullCons(c: Cursor, n: nat)
    requires n > 0
    ensures Pull(c, n).0 == [NextStep(c).0] + Pull(NextStep(c).1, n - 1).0
    ensures Pull(c, n).1 == Pull(NextStep(c).1, n - 1).1
  {
  }

  /** Draining a new cursor over non-empty blocks yields every entry of
      every block in block order, then nothing; over no blocks at all the
      first `next` fails its assertion. */
  lemma DrainFresh(blocks: seq<BlockRef>)
    requires NonEmptyBlocks(blocks)
    ensures Pull(Start(blocks), |Entries(blocks)| + 1).0
            == Found(Entries(blocks)) + [if blocks == [] then Err(InvalidBlock) else Ok(None)]
  {
    var c := Start(blocks);
    var n := |Entries(blocks)|;
    if blocks != [] {
      assert blocks[0].entries[0..] == blocks[0].entries;
      assert Remaining(c) == Entries(blocks);
    }
    PullAll(c, n);
    assert Remaining(c)[..n] == Remaining(c);
  }

  lemma {:induction false} PullAll(c: Cursor, n: nat)
    requires Good(c) && n == |Remaining(c)|
    ensures Pull(c, n + 1).0 == Found(Remaining(c)) + [if n == 0 && c.block.None? then Err(InvalidBlock) else Ok(None)]
    decreases n
  {
    var rest := Remaining(c);
    NextRemaining(c);
    PullCons(c, n + 1);
    if n > 0 {
      var c1 := NextStep(c).1;
      assert NextStep(c).0 == Ok(Some(rest[0])) && Remaining(c1) == rest[1..];
      PullAll(c1, n - 1);
      FoundTail(rest);
    } else {
      assert Pull(NextStep(c).1, 0).0 == [];
    }
  }

  // ---------------------------------------------------------------------
  // Seeking

  /** With no candidate block the cursor goes past the last block: `next`
      then yields nothing, or fails its assertion on a cursor that never
      loaded a block. */
  lemma SeekNoCandidate(c: Cursor, key: bytes)
    requires Candidate(c.blocks, key) == -1
    ensures SeekStep(c, key) == c.(index := |c.blocks|, offset := 0)
    ensures NextStep(SeekStep(c, key)).0 == if c.block.None? then Err(InvalidBlock) else Ok(None)
  {
  }

  /** A cursor that already holds a non-empty block searches that block,
      not the candidate block: `seek` never reloads. */
  lemma SeekKeepsLoadedBlock(c: Cursor, key: bytes, b: seq<Entry>)
    requires c.block == Some(b) && b != [] && Candidate(c.blocks, key) >= 0
    ensures SeekStep(c, key)
            == c.(index := Candidate(c.blocks, key),
                  offset := if FirstAtLeast(b, key) < 0 then |b| else FirstAtLeast(b, key))
  {
  }

  /** The blocks of a written table: non-empty, each named by its first
      key, the keys strictly increasing across the table. */
  predicate SortedTable(blocks: seq<BlockRef>)
  {
    && NonEmptyBlocks(blocks)
    && (forall i :: 0 <= i < |blocks| ==> blocks[i].firstKey == blocks[i].entries[0].key)
    && StrictlyIncreasing(KeysOf(Entries(blocks)))
  }

  lemma {:induction false} EntriesSplit(blocks: seq<BlockRef>, j: nat)
    requires j < |blocks|
    ensures Entries(blocks) == Entries(blocks[..j]) + blocks[j].entries + Entries(blocks[j + 1..])
  {
    if j > 0 {
      EntriesSplit(blocks[1..], j - 1);
      assert blocks[1..][..j - 1] == blocks[..j][1..];
      assert blocks[1..][j - 1] == blocks[j] && blocks[1..][j..] == blocks[j + 1..];
    } else {
      assert blocks[..0] == [] && blocks[1..] == blocks[j + 1..];
    }
  }

  /** In a strictly increasing run, a key at or below the one at `p`
      is below every later key's... */
  lemma AtLeastFrom(es: seq<Entry>, p: nat, key: bytes)
    requires StrictlyIncreasing(KeysOf(es)) && p < |es| && LessEq(key, es[p].key)
    ensures forall i :: p <= i < |es| ==> LessEq(key, es[i].key)
  {
    forall i | p < i < |es| ensures LessEq(key, es[i].key) {
      assert Less(KeysOf(es)[p], KeysOf(es)[i]);
      LessEqTransitive(key, es[p].key, es[i].key);
    }
  }

  /** ... and a key above the one at `p` is above every earlier key. */
  lemma BelowUpTo(es: seq<Entry>, p: nat, key: bytes)
    requires StrictlyIncreasing(KeysOf(es)) && p < |es| && LessEq(es[p].key, key)
    ensures forall i :: 0 <= i < p ==> Less(es[i].key, key)
  {
    forall i | 0 <= i < p ensures Less(es[i].key, key) {
      assert Less(KeysOf(es)[i], KeysOf(es)[p]);
      if es[p].key != key {
        LessTransitive(es[i].key, es[p].key, key);
      }
    }
  }

  /** Where `seek` leaves a new cursor that has a candidate block. */
  lemma SeekFreshState(blocks: seq<BlockRef>, key: bytes)
    requires NonEmptyBlocks(blocks) && Candidate(blocks, key) >= 0
    ensures var j := Candidate(blocks, key);
            var b := blocks[j].entries;
            var idx := FirstAtLeast(b, key);
            SeekStep(Start(blocks), key) == Cursor(blocks, j, Some(b), if idx < 0 then |b| else idx)
  {
  }

  /** A position inside block `j` is a position in the whole run of entries. */
  lemma RemainingInBlock(blocks: seq<BlockRef>, j: nat, off: nat)
    requires NonEmptyBlocks(blocks) && j < |blocks| && off <= |blocks[j].entries|
    ensures Good(Cursor(blocks, j, Some(blocks[j].entries), off))
    ensures |Entries(blocks[..j])| + off <= |Entries(blocks)|
    ensures Remaining(Cursor(blocks, j, Some(blocks[j].entries), off))
            == Entries(blocks)[|Entries(blocks[..j])| + off..]
  {
    EntriesSplit(blocks, j);
    var b := blocks[j].entries;
    var before := Entries(blocks[..j]);
    assert Entries(blocks)[|before| + off..] == b[off..] + Entries(blocks[j + 1..]);
  }

  /** The entries of block `j` sit at `|Entries(blocks[..j])|` on. */
  lemma EntryInBlock(blocks: seq<BlockRef>, j: nat, k: nat)
    requires j < |blocks| && k < |blocks[j].entries|
    ensures |Entries(blocks[..j])| + k < |Entries(blocks)|
    ensures Entries(blocks)[|Entries(blocks[..j])| + k] == blocks[j].entries[k]
  {
    EntriesSplit(blocks, j);
  }

  /** Block `j`'s entries, in the whole run of entries. */
  lemma BlockSlice(blocks: seq<BlockRef>, j: nat)
    requires j < |blocks|
    ensures |Entries(blocks[..j])| + |blocks[j].entries| <= |Entries(blocks)|
    ensures Entries(blocks)[|Entries(blocks[..j])|..|Entries(blocks[..j])| + |blocks[j].entries|] == blocks[j].entries
    ensures j + 1 == |blocks| ==> |Entries(blocks)| == |Entries(blocks[..j])| + |blocks[j].entries|
  {
    EntriesSplit(blocks, j);
    if j + 1 == |blocks| {
      assert blocks[j + 1..] == [];
    }
  }

  lemma SkippedBelow(es: seq<Entry>, a: nat, b: seq<Entry>, key: bytes)
    requires a + |b| <= |es| && es[a..a + |b|] == b
    ensures var off := if FirstAtLeast(b, key) < 0 then |b| else FirstAtLeast(b, key);
            forall i :: a <= i < a + off ==> Less(es[i].key, key)
  {
    var off := if FirstAtLeast(b, key) < 0 then |b| else FirstAtLeast(b, key);
    SeekOffset(b, key);
    forall i | a <= i < a + off ensures Less(es[i].key, key) {
      assert es[i] == es[a..a + |b|][i - a];
    }
  }

  /** The entry right after block `j` is the first entry of block `j + 1`. */
  lemma EntryAfterBlock(blocks: seq<BlockRef>, j: nat)
    requires NonEmptyBlocks(blocks) && j + 1 < |blocks|
    ensures |Entries(blocks[..j])| + |blocks[j].entries| < |Entries(blocks)|
    ensures Entries(blocks)[|Entries(blocks[..j])| + |blocks[j].entries|] == blocks[j + 1].entries[0]
  {
    EntriesSplit(blocks, j);
    EntriesCons(blocks, j + 1);
  }

  /** The offset `seek` picks in block `b`: the first entry at or above
      `key`, or the end. */
  lemma SeekOffset(b: seq<Entry>, key: bytes)
    ensures var off := if FirstAtLeast(b, key) < 0 then |b| else FirstAtLeast(b, key);
            && off <= |b|
            && (forall k :: 0 <= k < off ==> Less(b[k].key, key))
            && (off < |b| ==> LessEq(key, b[off].key))
  {
  }

  /** The position in the run of all entries where `seek` leaves a new
      cursor with a candidate block. */
  function SeekPosition(blocks: seq<BlockRef>, key: bytes): nat
    requires Candidate(blocks, key) >= 0
  {
    var j := Candidate(blocks, key);
    var b := blocks[j].entries;
    |Entries(blocks[..j])| + if FirstAtLeast(b, key) < 0 then |b| else FirstAtLeast(b, key)
  }

  /** What remains ahead after that `seek` is everything from that
      position on. */
  lemma SeekFreshRest(blocks: seq<BlockRef>, key: bytes)
    requires NonEmptyBlocks(blocks) && Candidate(blocks, key) >= 0
    ensures Good(SeekStep(Start(blocks), key))
    ensures SeekPosition(blocks, key) <= |Entries(blocks)|
    ensures Remaining(SeekStep(Start(blocks), key)) == Entries(blocks)[SeekPosition(blocks, key)..]
  {
    var j := Candidate(blocks, key);
    var b := blocks[j].entries;
    SeekOffset(b, key);
    SeekFreshState(blocks, key);
    RemainingInBlock(blocks, j, if FirstAtLeast(b, key) < 0 then |b| else FirstAtLeast(b, key));
  }

  /** The candidate block starts at or below `key`, and the position is
      inside or just after it, ... */
  lemma SeekFreshFirst(blocks: seq<BlockRef>, key: bytes)
    requires NonEmptyBlocks(blocks) && Candidate(blocks, key) >= 0
    requires forall i :: 0 <= i < |blocks| ==> blocks[i].firstKey == blocks[i].entries[0].key
    ensures var es, a, p := Entries(blocks), |Entries(blocks[..Candidate(blocks, key)])|, SeekPosition(blocks, key);
            a <= p <= |es| && a < |es| && LessEq(es[a].key, key)
  {
    var j := Candidate(blocks, key);
    var b := blocks[j].entries;
    var a := |Entries(blocks[..j])|;
    SeekOffset(b, key);
    EntryInBlock(blocks, j, 0);
    BlockSlice(blocks, j);
    assert blocks[j].firstKey == b[0].key;
  }

  /** ... the entries skipped in it are below `key`, ... */
  lemma SeekFreshKeys(blocks: seq<BlockRef>, key: bytes)
    requires NonEmptyBlocks(blocks) && Candidate(blocks, key) >= 0
    ensures var es, a, p := Entries(blocks), |Entries(blocks[..Candidate(blocks, key)])|, SeekPosition(blocks, key);
            p <= |es| && forall i :: a <= i < p ==> Less(es[i].key, key)
  {
    var j := Candidate(blocks, key);
    var b := blocks[j].entries;
    var a := |Entries(blocks[..j])|;
    var off := if FirstAtLeast(b, key) < 0 then |b| else FirstAtLeast(b, key);
    assert SeekPosition(blocks, key) == a + off;
    BlockSlice(blocks, j);
    SkippedBelow(Entries(blocks), a, b, key);
  }

  /** ... and the entry at the position is at or above it. */
  lemma SeekTarget(blocks: seq<BlockRef>, key: bytes)
    requires NonEmptyBlocks(blocks) && Candidate(blocks, key) >= 0
    requires forall i :: 0 <= i < |blocks| ==> blocks[i].firstKey == blocks[i].entries[0].key
    ensures SeekPosition(blocks, key) <= |Entries(blocks)|
    ensures SeekPosition(blocks, key) < |Entries(blocks)| ==> LessEq(key, Entries(blocks)[SeekPosition(blocks, key)].key)
  {
    var j := Candidate(blocks, key);
    var b := blocks[j].entries;
    var a := |Entries(blocks[..j])|;
    var off := if FirstAtLeast(b, key) < 0 then |b| else FirstAtLeast(b, key);
    assert SeekPosition(blocks, key) == a + off;
    SeekOffset(b, key);
    if off == |b| && j + 1 < |blocks| {
      LessTotal(blocks[j + 1].firstKey, key);
    }
    PositionAtLeast(blocks, j, off, key);
  }

  /** A position inside block `j`, or at its end when the next block starts
      above `key`, holds an entry at or above `key`. */
  lemma PositionAtLeast(blocks: seq<BlockRef>, j: nat, off: nat, key: bytes)
    requires NonEmptyBlocks(blocks) && j < |blocks| && off <= |blocks[j].entries|
    requires forall i :: 0 <= i < |blocks| ==> blocks[i].firstKey == blocks[i].entries[0].key
    requires off < |blocks[j].entries| ==> LessEq(key, blocks[j].entries[off].key)
    requires off == |blocks[j].entries| && j + 1 < |blocks| ==> LessEq(key, blocks[j + 1].firstKey)
    ensures |Entries(blocks[..j])| + off <= |Entries(blocks)|
    ensures |Entries(blocks[..j])| + off < |Entries(blocks)| ==> LessEq(key, Entries(blocks)[|Entries(blocks[..j])| + off].key)
  {
    BlockSlice(blocks, j);
    var a := |Entries(blocks[..j])|;
    if a + off < |Entries(blocks)| {
      if off < |blocks[j].entries| {
        EntryInBlock(blocks, j, off);
      } else {
        EntryAfterBlock(blocks, j);
      }
    }
  }

  /** In a strictly increasing run, if the entry at `a` is at or below
      `key`, those from `a` to `p` are below it and the one at `p` is at or
      above it, then `p` splits the run into the entries below `key` and
      those at or above it. */
  lemma SortedAround(es: seq<Entry>, a: nat, p: nat, key: bytes)
    requires StrictlyIncreasing(KeysOf(es)) && a <= p <= |es| && a < |es| && LessEq(es[a].key, key)
    requires forall i :: a <= i < p ==> Less(es[i].key, key)
    requires p < |es| ==> LessEq(key, es[p].key)
    ensures forall i :: 0 <= i < p ==> Less(es[i].key, key)
    ensures forall i :: p <= i < |es| ==> LessEq(key, es[i].key)
  {
    BelowUpTo(es, a, key);
    if p < |es| {
      AtLeastFrom(es, p, key);
    }
  }

  /** On a new cursor over a written table, `seek` to a key at or above
      the first key leaves ahead exactly the entries at or above `key`:
      the entries skipped are all below it. */
  lemma SeekFresh(blocks: seq<BlockRef>, key: bytes)
    requires SortedTable(blocks) && Candidate(blocks, key) >= 0
    ensures Good(SeekStep(Start(blocks), key))
    ensures var es, rest := Entries(blocks), Remaining(SeekStep(Start(blocks), key));
            |rest| <= |es| && rest == es[|es| - |rest|..]
            && (forall i :: 0 <= i < |es| - |rest| ==> Less(es[i].key, key))
            && (forall i :: |es| - |rest| <= i < |es| ==> LessEq(key, es[i].key))
  {
    var es, p := Entries(blocks), SeekPosition(blocks, key);
    SeekFreshRest(blocks, key);
    var rest := Remaining(SeekStep(Start(blocks), key));
    assert |es| - |rest| == p;
    SeekFreshFirst(blocks, key);
    SeekFreshKeys(blocks, key);
    SeekTarget(blocks, key);
    SortedAround(es, |Entries(blocks[..Candidate(blocks, key)])|, p, key);
  }

  /** ... so the following `next` returns the smallest stored key at or
      above `key`, or nothing when there is none. */
  lemma SeekThenNext(blocks: seq<BlockRef>, key: bytes)
    requires SortedTable(blocks) && Candidate(blocks, key) >= 0
    ensures var es, p := Entries(blocks), SeekPosition(blocks, key);
            && p <= |es|
            && NextStep(SeekStep(Start(blocks), key)).0 == (if p < |es| then Ok(Some(es[p])) else Ok(None))
            && (forall i :: 0 <= i < p ==> Less(es[i].key, key))
            && (forall i :: p <= i < |es| ==> LessEq(key, es[i].key))
  {
    SeekFresh(blocks, key);
    SeekFreshRest(blocks, key);
    SeekFreshState(blocks, key);
    NextRemaining(SeekStep(Start(blocks), key));
  }

  // ---------------------------------------------------------------------
  // Seeking in a table with equal keys

  /** The blocks the writer accepts: non-empty, each named by its first
      key, the keys non-decreasing across the table. Equal keys are
      allowed, and may straddle a block boundary. */
  predicate WrittenTable(blocks: seq<BlockRef>)
  {
    && NonEmptyBlocks(blocks)
    && (forall i :: 0 <= i < |blocks| ==> blocks[i].firstKey == blocks[i].entries[0].key)
    && NonDecreasing(KeysOf(Entries(blocks)))
  }

  /** In a non-decreasing run, every entry from `p` on is at or above the
      entry at `p`, and so at or above any key below it. */
  lemma AtLeastFromAscending(es: seq<Entry>, p: nat, key: bytes)
    requires NonDecreasing(KeysOf(es)) && p < |es| && LessEq(key, es[p].key)
    ensures forall i :: p <= i < |es| ==> LessEq(es[p].key, es[i].key) && LessEq(key, es[i].key)
  {
    forall i | p <= i < |es| ensures LessEq(es[p].key, es[i].key) && LessEq(key, es[i].key) {
      if i > p {
        assert LessEq(KeysOf(es)[p], KeysOf(es)[i]);
      }
      LessEqTransitive(key, es[p].key, es[i].key);
    }
  }

  /** In a non-decreasing run, every entry before `a` is at or below the
      entry at `a`; below `key` when that entry is. */
  lemma BelowUpToAscending(es: seq<Entry>, a: nat, key: bytes)
    requires NonDecreasing(KeysOf(es)) && a < |es| && LessEq(es[a].key, key)
    ensures forall i :: 0 <= i < a ==> LessEq(es[i].key, es[a].key) && LessEq(es[i].key, key)
    ensures Less(es[a].key, key) ==> forall i :: 0 <= i < a ==> Less(es[i].key, key)
  {
    forall i | 0 <= i < a ensures LessEq(es[i].key, es[a].key) && LessEq(es[i].key, key) {
      assert LessEq(KeysOf(es)[i], KeysOf(es)[a]);
      LessEqTransitive(es[i].key, es[a].key, key);
    }
    if Less(es[a].key, key) {
      forall i | 0 <= i < a ensures Less(es[i].key, key) {
        if es[i].key != es[a].key {
          LessTransitive(es[i].key, es[a].key, key);
        }
      }
    }
  }

  /** When `seek` stops at the start of the candidate block, whose first
      key is at or below `key`: a stored key at or above `key` that comes
      earlier is equal to `key`, and so is the key at `p`. */
  lemma LeastAtBlockStart(es: seq<Entry>, p: nat, key: bytes)
    requires NonDecreasing(KeysOf(es)) && p < |es| && es[p].key == key
    ensures forall i :: 0 <= i < |es| && LessEq(key, es[i].key) ==> LessEq(es[p].key, es[i].key)
  {
    BelowUpToAscending(es, p, key);
    AtLeastFromAscending(es, p, key);
    forall i | 0 <= i < p && LessEq(key, es[i].key) ensures LessEq(es[p].key, es[i].key) {
      LessEqAntisymmetric(key, es[i].key);
    }
  }

  /** When `seek` stops past the start of the candidate block, everything
      before `p` is below `key`. */
  lemma LeastPastBlockStart(es: seq<Entry>, a: nat, p: nat, key: bytes)
    requires NonDecreasing(KeysOf(es)) && a < p <= |es| && LessEq(es[a].key, key)
    requires forall i :: a <= i < p ==> Less(es[i].key, key)
    requires p < |es| ==> LessEq(key, es[p].key)
    ensures forall i :: 0 <= i < p ==> Less(es[i].key, key)
    ensures p < |es| ==> forall i :: 0 <= i < |es| && LessEq(key, es[i].key) ==> LessEq(es[p].key, es[i].key)
  {
    BelowUpToAscending(es, a, key);
    if p < |es| {
      AtLeastFromAscending(es, p, key);
      forall i | 0 <= i < p && LessEq(key, es[i].key) ensures false {
        LessNotAtLeast(es[i].key, key);
      }
    }
  }

  /** In a non-decreasing run, if the entry at `a` is at or below `key`,
      those from `a` to `p` are below it and the one at `p` is at or above
      it, then the entry at `p` holds the least key at or above `key`, and
      `p` is the end exactly when every key is below `key`. */
  lemma LeastAround(es: seq<Entry>, a: nat, p: nat, key: bytes)
    requires NonDecreasing(KeysOf(es)) && a <= p <= |es| && a < |es| && LessEq(es[a].key, key)
    requires forall i :: a <= i < p ==> Less(es[i].key, key)
    requires p < |es| ==> LessEq(key, es[p].key)
    ensures p == |es| <==> forall i :: 0 <= i < |es| ==> Less(es[i].key, key)
    ensures forall i :: 0 <= i < p ==> LessEq(es[i].key, key)
    ensures forall i :: p <= i < |es| ==> LessEq(key, es[i].key)
    ensures p < |es| ==> forall i :: 0 <= i < |es| && LessEq(key, es[i].key) ==> LessEq(es[p].key, es[i].key)
  {
    BelowUpToAscending(es, a, key);
    if p < |es| {
      AtLeastFromAscending(es, p, key);
      LessNotAtLeast(es[p].key, key);
    }
    if p == a {
      LessEqAntisymmetric(key, es[a].key);
      LeastAtBlockStart(es, p, key);
    } else {
      LeastPastBlockStart(es, a, p, key);
    }
  }

  /** On a new cursor over any table the writer accepts, equal keys
      included, the `next` after a `seek` with a candidate returns an entry
      holding the least stored key at or above `key`, or nothing exactly
      when every stored key is below `key`. Entries before it are at or
      below `key`: with equal keys across a block boundary, earlier entries
      equal to `key` are passed over (`SeekSkipsDuplicate`). */
  lemma SeekThenNextLeast(blocks: seq<BlockRef>, key: bytes)
    requires WrittenTable(blocks) && Candidate(blocks, key) >= 0
    ensures var es, p := Entries(blocks), SeekPosition(blocks, key);
            && p <= |es|
            && NextStep(SeekStep(Start(blocks), key)).0 == (if p < |es| then Ok(Some(es[p])) else Ok(None))
            && (p == |es| <==> forall i :: 0 <= i < |es| ==> Less(es[i].key, key))
            && (forall i :: 0 <= i < p ==> LessEq(es[i].key, key))
            && (forall i :: p <= i < |es| ==> LessEq(key, es[i].key))
            && (p < |es| ==> forall i :: 0 <= i < |es| && LessEq(key, es[i].key) ==> LessEq(es[p].key, es[i].key))
  {
    SeekFreshRest(blocks, key);
    SeekFreshState(blocks, key);
    NextRemaining(SeekStep(Start(blocks), key));
    SeekFreshFirst(blocks, key);
    SeekFreshKeys(blocks, key);
    SeekTarget(blocks, key);
    LeastAround(Entries(blocks), |Entries(blocks[..Candidate(blocks, key)])|, SeekPosition(blocks, key), key);
  }

  /** Equal keys across a block boundary: blocks `[(1, 0), (5, 1)]` and
      `[(5, 2), (9, 3)]`. */
  function DupBlocks(): seq<BlockRef>
  {
    [BlockRef([1], [Entry([1], [0]), Entry([5], [1])]),
     BlockRef([5], [Entry([5], [2]), Entry([9], [3])])]
  }

  lemma DupKeysOrdered()
    ensures Less([1], [5]) && Less([5], [9]) && Less([1], [9])
    ensures !Less([5], [1]) && !Less([9], [5])
  {
    assert LessFrom([1], [5], 0) && LessFrom([5], [9], 0) && LessFrom([1], [9], 0);
    assert !LessFrom([5], [1], 0) && !LessFrom([9], [5], 0);
  }

  lemma DupEntries()
    ensures Entries(DupBlocks()) == DupBlocks()[0].entries + DupBlocks()[1].entries
  {
    var blocks := DupBlocks();
    assert blocks[1..][1..] == [];
    assert Entries(blocks[1..]) == blocks[1].entries + Entries(blocks[1..][1..]);
  }

  lemma DupWritten()
    ensures WrittenTable(DupBlocks())
  {
    DupKeysOrdered();
    DupEntries();
    var ks := KeysOf(Entries(DupBlocks()));
    assert ks == [[1], [5], [5], [9]];
    forall i, j | 0 <= i < j < |ks| ensures LessEq(ks[i], ks[j]) {
      if i == 0 {
        assert ks[i] == [1];
      } else {
        assert j == 3 || ks[i] == ks[j];
      }
    }
  }

  /** The candidate for key 5 is the second block, so a new cursor's
      `seek(5)` then `next` returns `(5, 2)` and passes over the earlier
      `(5, 1)`, whose key is also 5. */
  lemma SeekSkipsDuplicate()
    ensures WrittenTable(DupBlocks()) && Candidate(DupBlocks(), [5]) == 1
    ensures Entries(DupBlocks())[1] == Entry([5], [1])
    ensures NextStep(SeekStep(Start(DupBlocks()), [5])).0 == Ok(Some(Entry([5], [2])))
  {
    DupWritten();
    DupEntries();
    DupKeysOrdered();
    var blocks := DupBlocks();
    assert Compare(blocks[1].firstKey, [5]) == 0;
    assert FirstAtLeast(blocks[1].entries, [5]) == 0;
  }
}

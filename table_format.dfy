/** The table file format as the writer lays it out: records packed into
    data blocks, the `(firstKey, offset)` pair of every data block packed
    into index blocks by the same size rule, then a trailer of N 6-byte
    index-block offsets and a u32 count N. */
module TableFormat {
  import opened Bytes
  import opened Results
  import opened Block
  import opened Seqs

  // ---------------------------------------------------------------------
  // The packing rule, shared by data blocks and index blocks

  /** Blocks already closed, and the records of the block being filled. */
  datatype Packing = Packing(done: seq<seq<Entry>>, current: seq<Entry>)

  /** One `add`: the current block takes the record if the size rule admits
      it; otherwise the current block is closed and a fresh one takes it. */
  function PackStep(p: Packing, e: Entry): Packing
  {
    if Admits(EncodedSize(p.current), e) then Packing(p.done, p.current + [e])
    else Packing(p.done + [p.current], [e])
  }

  /** The packing a run of adds produces, starting from nothing. */
  function Pack(es: seq<Entry>): Packing
  {
    if es == [] then Packing([], []) else PackStep(Pack(es[..|es| - 1]), es[|es| - 1])
  }

  /** Every block the packing will emit: the closed ones and a non-empty
      current one. */
  function Emitted(p: Packing): seq<seq<Entry>>
  {
    if p.current == [] then p.done else p.done + [p.current]
  }

  function Flatten(bs: seq<seq<Entry>>): seq<Entry>
  {
    if bs == [] then [] else Flatten(bs[..|bs| - 1]) + bs[|bs| - 1]
  }

  /** No closed block is empty, and a block of two or more records stays
      within the size target. */
  ghost predicate WellPacked(p: Packing)
  {
    && (forall i :: 0 <= i < |p.done| ==> p.done[i] != [])
    && (forall i :: 0 <= i < |p.done| ==> |p.done[i]| >= 2 ==> EncodedSize(p.done[i]) <= BlockSizeTarget)
    && (|p.current| >= 2 ==> EncodedSize(p.current) <= BlockSizeTarget)
  }

  lemma PackStepWellPacked(p: Packing, e: Entry)
    requires WellPacked(p)
    ensures WellPacked(PackStep(p, e))
  {
    var q := PackStep(p, e);
    if Admits(EncodedSize(p.current), e) {
      var c := p.current + [e];
      assert c[..|c| - 1] == p.current;
      EncodedSizeZero(p.current);
    } else {
      EncodedSizeZero(p.current);
      assert p.current != [];
      assert forall i :: 0 <= i < |p.done| ==> q.done[i] == p.done[i];
    }
  }

  lemma PackStepFlatten(p: Packing, e: Entry)
    ensures Flatten(PackStep(p, e).done) + PackStep(p, e).current == Flatten(p.done) + p.current + [e]
  {
    var q := PackStep(p, e);
    if !Admits(EncodedSize(p.current), e) {
      assert q.done[..|q.done| - 1] == p.done;
    }
  }

  /** Every added record lands in exactly one block, in order; no block is
      empty; a block with two or more records is within the size target. */
  lemma PackProperties(es: seq<Entry>)
    ensures WellPacked(Pack(es))
    ensures Flatten(Pack(es).done) + Pack(es).current == es
    ensures es != [] ==> Pack(es).current != []
  {
    PackWellPacked(es);
    PackFlatten(es);
  }

  lemma {:induction false} PackWellPacked(es: seq<Entry>)
    ensures WellPacked(Pack(es))
  {
    if es != [] {
      PackWellPacked(es[..|es| - 1]);
      PackStepWellPacked(Pack(es[..|es| - 1]), es[|es| - 1]);
    }
  }

  lemma {:induction false} PackFlatten(es: seq<Entry>)
    ensures Flatten(Pack(es).done) + Pack(es).current == es
  {
    if es != [] {
      var init, e := es[..|es| - 1], es[|es| - 1];
      PackFlatten(init);
      PackStepFlatten(Pack(init), e);
      InitLast(es);
    }
  }

  /** The size rule is greedy: a block was closed only because the first
      record of the next block did not fit. */
  lemma {:induction false} PackGreedy(es: seq<Entry>, i: nat)
    requires i + 1 < |Emitted(Pack(es))|
    ensures Emitted(Pack(es))[i + 1] != []
    ensures !Admits(EncodedSize(Emitted(Pack(es))[i]), Emitted(Pack(es))[i + 1][0])
    decreases |es|, 1
  {
    var init := es[..|es| - 1];
    if Admits(EncodedSize(Pack(init).current), es[|es| - 1]) {
      GreedyAdmitted(es, i);
    } else {
      GreedyCut(es, i);
    }
  }

  /** `PackGreedy` when the last record joined the current block. */
  lemma {:induction false} GreedyAdmitted(es: seq<Entry>, i: nat)
    requires es != [] && i + 1 < |Emitted(Pack(es))|
    requires Admits(EncodedSize(Pack(es[..|es| - 1]).current), es[|es| - 1])
    ensures Emitted(Pack(es))[i + 1] != []
    ensures !Admits(EncodedSize(Emitted(Pack(es))[i]), Emitted(Pack(es))[i + 1][0])
    decreases |es|, 0
  {
    var init := es[..|es| - 1];
    var p := Pack(init);
    var e := es[|es| - 1];
    var q := Packing(p.done, p.current + [e]);
    assert Pack(es) == q;
    assert Emitted(q) == p.done + [p.current + [e]];
    assert i < |p.done|;
    assert init != [];
    assert p.current != [];
    assert Emitted(p) == p.done + [p.current];
    PackGreedy(init, i);
    assert Emitted(p)[i] == Emitted(q)[i];
    assert Emitted(p)[i + 1][0] == Emitted(q)[i + 1][0];
  }

  /** `PackGreedy` when the last record started a new block. */
  lemma {:induction false} GreedyCut(es: seq<Entry>, i: nat)
    requires es != [] && i + 1 < |Emitted(Pack(es))|
    requires !Admits(EncodedSize(Pack(es[..|es| - 1]).current), es[|es| - 1])
    ensures Emitted(Pack(es))[i + 1] != []
    ensures !Admits(EncodedSize(Emitted(Pack(es))[i]), Emitted(Pack(es))[i + 1][0])
    decreases |es|, 0
  {
    var init := es[..|es| - 1];
    var p := Pack(init);
    var e := es[|es| - 1];
    var q := Packing(p.done + [p.current], [e]);
    assert Pack(es) == q;
    EncodedSizeZero(p.current);
    assert p.current != [];
    assert Emitted(q) == p.done + [p.current] + [[e]];
    if i < |p.done| {
      assert Emitted(p) == p.done + [p.current];
      PackGreedy(init, i);
      assert Emitted(p)[i] == Emitted(q)[i];
      assert Emitted(p)[i + 1] == Emitted(q)[i + 1];
    } else {
      assert Emitted(q)[i] == p.current && Emitted(q)[i + 1] == [e];
    }
  }

  // ---------------------------------------------------------------------
  // The bytes of a finished table

  predicate BlocksFit(bs: seq<seq<Entry>>)
  {
    forall i :: 0 <= i < |bs| ==> AllFit(bs[i])
  }

  /** The encoded blocks, one after another. */
  function BlocksBytes(bs: seq<seq<Entry>>): bytes
    requires BlocksFit(bs)
  {
    if bs == [] then [] else BlocksBytes(bs[..|bs| - 1]) + EncodeBlock(bs[|bs| - 1])
  }

  /** Where each block starts when the blocks are written from `base` on. */
  function BlockStarts(base: nat, bs: seq<seq<Entry>>): (r: seq<nat>)
    requires BlocksFit(bs)
    ensures |r| == |bs|
  {
    if bs == [] then [] else BlockStarts(base, bs[..|bs| - 1]) + [base + |BlocksBytes(bs[..|bs| - 1])|]
  }

  /** `(firstKey, offset)` of every data block: `blockFirstKeys`. */
  datatype IndexPair = IndexPair(firstKey: bytes, offset: nat)

  function FirstKeys(bs: seq<seq<Entry>>): (r: seq<IndexPair>)
    requires BlocksFit(bs) && forall i :: 0 <= i < |bs| ==> bs[i] != []
    ensures |r| == |bs|
  {
    if bs == [] then []
    else
      var init := bs[..|bs| - 1];
      FirstKeys(init) + [IndexPair(bs[|bs| - 1][0].key, |BlocksBytes(init)|)]
  }

  /** Entry i of `FirstKeys` holds the first key of block i. */
  lemma {:induction false} FirstKeysKey(bs: seq<seq<Entry>>, i: nat)
    requires BlocksFit(bs) && forall i :: 0 <= i < |bs| ==> bs[i] != []
    requires i < |bs|
    ensures FirstKeys(bs)[i].firstKey == bs[i][0].key
  {
    if i < |bs| - 1 {
      FirstKeysKey(bs[..|bs| - 1], i);
    }
  }

  const Offset48Limit: nat := 0x1_0000_0000_0000

  lemma Offset48LimitIsPow()
    ensures Pow256(6) == Offset48Limit
  {
    assert Pow256(2) == 65536;
    assert Pow256(6) == 256 * (256 * (256 * (256 * Pow256(2))));
  }

  /** The 8-byte index value: two zero bytes, then the offset as a 48-bit
      big-endian number (`writeUIntBE(offset, 2, 6)`). */
  function IndexValue(offset: nat): (r: bytes)
    requires offset < Offset48Limit
    ensures |r| == 8
  {
    Offset48LimitIsPow();
    [0, 0] + U48(offset)
  }

  function IndexEntries(pairs: seq<IndexPair>): (r: seq<Entry>)
    requires forall i :: 0 <= i < |pairs| ==> pairs[i].offset < Offset48Limit
    ensures |r| == |pairs|
  {
    seq(|pairs|, i requires 0 <= i < |pairs| => Entry(pairs[i].firstKey, IndexValue(pairs[i].offset)))
  }

  /** N 6-byte big-endian offsets followed by u32be(N). */
  function TrailerBytes(offsets: seq<nat>): bytes
    requires forall i :: 0 <= i < |offsets| ==> offsets[i] < Offset48Limit
    requires |offsets| <= FieldLimit
  {
    Offset48LimitIsPow();
    FieldLimitIsU32Max();
    OffsetsBytes(offsets) + U32(|offsets|)
  }

  function OffsetsBytes(offsets: seq<nat>): (r: bytes)
    requires forall i :: 0 <= i < |offsets| ==> offsets[i] < Offset48Limit
    ensures |r| == 6 * |offsets|
  {
    Offset48LimitIsPow();
    if offsets == [] then [] else OffsetsBytes(offsets[..|offsets| - 1]) + U48(offsets[|offsets| - 1])
  }

  predicate Below48(offsets: seq<nat>)
  {
    forall i :: 0 <= i < |offsets| ==> offsets[i] < Offset48Limit
  }

  predicate PairsBelow48(pairs: seq<IndexPair>)
  {
    forall i :: 0 <= i < |pairs| ==> pairs[i].offset < Offset48Limit
  }

  /** The index blocks written for the given data blocks. */
  function IndexBlocks(data: seq<seq<Entry>>): seq<seq<Entry>>
    requires BlocksFit(data) && forall i :: 0 <= i < |data| ==> data[i] != []
    requires PairsBelow48(FirstKeys(data))
  {
    Emitted(Pack(IndexEntries(FirstKeys(data))))
  }

  /** The whole file `close` leaves behind, given the data blocks. */
  function TableFile(data: seq<seq<Entry>>): Result<bytes>
    requires BlocksFit(data) && forall i :: 0 <= i < |data| ==> data[i] != []
  {
    if data == [] then Err(EmptyTable)
    else if !PairsBelow48(FirstKeys(data)) then Err(OffsetOutOfRange)
    else
      var index := IndexBlocks(data);
      IndexBlocksFit(data);
      var metas := BlockStarts(|BlocksBytes(data)|, index);
      if !Below48(metas) || |metas| > FieldLimit then Err(OffsetOutOfRange)
      else Ok(BlocksBytes(data) + BlocksBytes(index) + TrailerBytes(metas))
  }

  lemma IndexBlocksFit(data: seq<seq<Entry>>)
    requires BlocksFit(data) && forall i :: 0 <= i < |data| ==> data[i] != []
    requires PairsBelow48(FirstKeys(data))
    ensures BlocksFit(IndexBlocks(data))
  {
    var pairs := FirstKeys(data);
    forall i | 0 <= i < |pairs| ensures |pairs[i].firstKey| <= FieldLimit {
      FirstKeysKey(data, i);
      assert Fits(data[i][0]);
    }
    IndexFit(pairs);
  }

  /** A table with data has index blocks, and they hold the index
      entries in order. */
  lemma IndexBlocksShape(data: seq<seq<Entry>>)
    requires BlocksFit(data) && (forall i :: 0 <= i < |data| ==> data[i] != []) && data != []
    requires PairsBelow48(FirstKeys(data))
    ensures IndexBlocks(data) != []
    ensures Flatten(IndexBlocks(data)) == IndexEntries(FirstKeys(data))
  {
    var es := IndexEntries(FirstKeys(data));
    PackProperties(es);
    EmittedFlatten(Pack(es));
  }

  /** Written blocks take at least their trailers. */
  lemma BlocksBytesNonEmpty(bs: seq<seq<Entry>>)
    requires BlocksFit(bs) && bs != []
    ensures BlocksBytes(bs) != []
  {
    assert |EncodeBlock(bs[|bs| - 1])| >= |Trailer|;
  }

  /** Every key of `pairs` fits a u32 length field. */
  predicate KeysFit(pairs: seq<IndexPair>)
  {
    forall i :: 0 <= i < |pairs| ==> |pairs[i].firstKey| <= FieldLimit
  }

  lemma IndexFit(pairs: seq<IndexPair>)
    requires PairsBelow48(pairs) && KeysFit(pairs)
    ensures BlocksFit(Emitted(Pack(IndexEntries(pairs))))
  {
    var es := IndexEntries(pairs);
    assert AllFit(es);
    PackProperties(es);
    EmittedFlatten(Pack(es));
    FlattenFits(Emitted(Pack(es)));
  }

  /** The index blocks for the given `(firstKey, offset)` pairs. */
  function PackIndex(pairs: seq<IndexPair>): (r: seq<seq<Entry>>)
    requires PairsBelow48(pairs) && KeysFit(pairs)
    ensures BlocksFit(r)
  {
    IndexFit(pairs);
    Emitted(Pack(IndexEntries(pairs)))
  }

  lemma EmittedFlatten(p: Packing)
    ensures Flatten(Emitted(p)) == Flatten(p.done) + p.current
  {
    if p.current != [] {
      assert (p.done + [p.current])[..|p.done|] == p.done;
    }
  }

  /** A block of a flattened sequence holds only entries of it. */
  lemma {:induction false} FlattenFits(bs: seq<seq<Entry>>)
    requires AllFit(Flatten(bs))
    ensures BlocksFit(bs)
  {
    if bs != [] {
      var init := bs[..|bs| - 1];
      var f := Flatten(bs);
      assert f == Flatten(init) + bs[|bs| - 1];
      assert AllFit(Flatten(init)) by {
        forall i | 0 <= i < |Flatten(init)| ensures Fits(Flatten(init)[i]) {
          assert Flatten(init)[i] == f[i];
        }
      }
      var last := bs[|bs| - 1];
      assert AllFit(last) by {
        forall i | 0 <= i < |last| ensures Fits(last[i]) {
          assert last[i] == f[|Flatten(init)| + i];
        }
      }
      FlattenFits(init);
      assert forall i :: 0 <= i < |init| ==> bs[i] == init[i];
    }
  }

  // ---------------------------------------------------------------------
  // Appending one block

  lemma BlocksSnoc(bs: seq<seq<Entry>>, b: seq<Entry>)
    requires BlocksFit(bs) && AllFit(b)
    ensures BlocksFit(bs + [b])
    ensures BlocksBytes(bs + [b]) == BlocksBytes(bs) + EncodeBlock(b)
    ensures BlockStarts(0, bs + [b]) == BlockStarts(0, bs) + [|BlocksBytes(bs)|]
    ensures Flatten(bs + [b]) == Flatten(bs) + b
  {
    var all := bs + [b];
    assert all[..|bs|] == bs;
  }

  /** Writing one more block after `done`, which fill `out` from `start`
      on, extends the bytes and the block starts. */
  lemma BlocksAppend(done: seq<seq<Entry>>, cur: seq<Entry>, start: nat, out: bytes, pos: nat, metas: seq<nat>)
    requires BlocksFit(done) && AllFit(cur)
    requires out == BlocksBytes(done) && pos == start + |out| && metas == BlockStarts(start, done)
    ensures BlocksFit(done + [cur])
    ensures BlocksBytes(done + [cur]) == out + EncodeBlock(cur)
    ensures BlockStarts(start, done + [cur]) == metas + [pos]
  {
    var all := done + [cur];
    assert all[..|done|] == done;
  }

  lemma FirstKeysSnoc(bs: seq<seq<Entry>>, b: seq<Entry>)
    requires BlocksFit(bs) && AllFit(b) && b != []
    requires forall i :: 0 <= i < |bs| ==> bs[i] != []
    ensures BlocksFit(bs + [b])
    ensures FirstKeys(bs + [b]) == FirstKeys(bs) + [IndexPair(b[0].key, |BlocksBytes(bs)|)]
  {
    BlocksSnoc(bs, b);
  }

  /** In a sorted concatenation, the front part is sorted and at or below
      every key of the back part. */
  lemma SortedConcat(a: seq<Entry>, b: seq<Entry>)
    requires NonDecreasing(KeysOf(a + b))
    ensures NonDecreasing(KeysOf(a))
    ensures forall i, j :: 0 <= i < |a| && 0 <= j < |b| ==> LessEq(a[i].key, b[j].key)
  {
    var ab := a + b;
    forall i, j | 0 <= i < |a| && 0 <= j < |b| ensures LessEq(a[i].key, b[j].key) {
      assert a[i] == ab[i] && b[j] == ab[|a| + j];
    }
    forall i, j | 0 <= i < j < |a| ensures LessEq(KeysOf(a)[i], KeysOf(a)[j]) {
      assert a[i] == ab[i] && a[j] == ab[j];
    }
  }

  lemma {:induction false} FirstInFlatten(bs: seq<seq<Entry>>, i: nat, j: nat)
    requires i < |bs| && j < |bs[i]|
    ensures exists k :: 0 <= k < |Flatten(bs)| && Flatten(bs)[k] == bs[i][j]
  {
    var init, last := bs[..|bs| - 1], bs[|bs| - 1];
    if i == |bs| - 1 {
      assert Flatten(bs)[|Flatten(init)| + j] == bs[i][j];
    } else {
      FirstInFlatten(init, i, j);
      var k :| 0 <= k < |Flatten(init)| && Flatten(init)[k] == init[i][j];
      assert Flatten(bs)[k] == bs[i][j];
    }
  }

  /** The first keys of blocks cut from a sorted run are sorted. */
  lemma {:induction false} FirstKeysSorted(bs: seq<seq<Entry>>)
    requires BlocksFit(bs) && forall i :: 0 <= i < |bs| ==> bs[i] != []
    requires NonDecreasing(KeysOf(Flatten(bs)))
    ensures forall i, j :: 0 <= i < j < |bs| ==> LessEq(FirstKeys(bs)[i].firstKey, FirstKeys(bs)[j].firstKey)
  {
    if bs != [] {
      var init, last := bs[..|bs| - 1], bs[|bs| - 1];
      assert BlocksFit(init) by {
        assert forall i :: 0 <= i < |init| ==> init[i] == bs[i];
      }
      assert init + [last] == bs;
      BlocksSnoc(init, last);
      FirstKeysSnoc(init, last);
      SortedConcat(Flatten(init), last);
      FirstKeysSorted(init);
      var fk := FirstKeys(bs);
      forall i, j | 0 <= i < j < |bs| ensures LessEq(fk[i].firstKey, fk[j].firstKey) {
        if j == |bs| - 1 {
          FirstInFlatten(init, i, 0);
          var k :| 0 <= k < |Flatten(init)| && Flatten(init)[k] == init[i][0];
          FirstKeysKey(init, i);
          assert fk[i] == FirstKeys(init)[i];
          assert LessEq(Flatten(init)[k].key, last[0].key);
        } else {
          assert fk[i] == FirstKeys(init)[i] && fk[j] == FirstKeys(init)[j];
        }
      }
    }
  }

  /** The recorded block offsets climb strictly: every data block holds at
      least its four-byte trailer, so each block starts after the one
      before it and inside the bytes written. */
  lemma {:induction false} FirstKeysOffsetsIncrease(bs: seq<seq<Entry>>)
    requires BlocksFit(bs) && forall i :: 0 <= i < |bs| ==> bs[i] != []
    ensures forall i :: 0 <= i < |bs| ==> FirstKeys(bs)[i].offset < |BlocksBytes(bs)|
    ensures forall i, j :: 0 <= i < j < |bs| ==> FirstKeys(bs)[i].offset < FirstKeys(bs)[j].offset
  {
    if bs != [] {
      var init, last := bs[..|bs| - 1], bs[|bs| - 1];
      assert BlocksFit(init) && forall i :: 0 <= i < |init| ==> init[i] != [] by {
        assert forall i :: 0 <= i < |init| ==> init[i] == bs[i];
      }
      assert init + [last] == bs;
      FirstKeysSnoc(init, last);
      FirstKeysOffsetsIncrease(init);
      var fk, fi := FirstKeys(bs), FirstKeys(init);
      assert fk == fi + [IndexPair(last[0].key, |BlocksBytes(init)|)];
      assert |BlocksBytes(bs)| == |BlocksBytes(init)| + |RecordsBytes(last)| + 4;
      forall i, j | 0 <= i < j < |bs| ensures fk[i].offset < fk[j].offset {
        if j < |init| {
          assert fk[i] == fi[i] && fk[j] == fi[j];
        } else {
          assert fk[i] == fi[i] && fi[i].offset < |BlocksBytes(init)|;
        }
      }
    }
  }
}

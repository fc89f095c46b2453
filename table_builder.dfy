/** The table writer (`TableBuilder`): records are added in key order,
    packed into data blocks by the block size rule, and `close` appends the
    index blocks and the trailer.

    The writer's state is first described as a value (`Writer`) with one
    step function per operation; the class `TableBuilder` then performs
    each operation on its fields and is proved to move its state exactly
    as the step function does. What the steps lay down in the file is
    proved about the step functions. */
module TableBuilder {
  import opened Bytes
  import opened Results
  import opened Block
  import opened TableFormat

  /** The file handle: not yet started (`open(path, "wx")` happens on the
      first `add`), open, or closed by a successful `close`. */
  datatype Handle = Unopened | Open | Closed

  /** Everything the writer keeps: the bytes written so far, the running
      offset, the `(firstKey, offset)` pair of every data block written,
      the first key of the block being filled, the records of the block
      builder when there is one, and the last key added. */
  datatype Writer = Writer(
    handle: Handle,
    file: bytes,
    offset: nat,
    blockFirstKeys: seq<IndexPair>,
    blockFirstKey: Option<bytes>,
    pending: Option<seq<Entry>>,
    previousKey: Option<bytes>)

  /** A newly constructed writer. */
  const Fresh: Writer := Writer(Unopened, [], 0, [], None, None, None)

  /** The records held by the block builder (none when there is no builder). */
  function Records(w: Writer): seq<Entry>
  {
    if w.pending.Some? then w.pending.value else []
  }

  function PairKeys(pairs: seq<IndexPair>): (r: seq<bytes>)
    ensures |r| == |pairs| && forall i :: 0 <= i < |pairs| ==> r[i] == pairs[i].firstKey
  {
    seq(|pairs|, i requires 0 <= i < |pairs| => pairs[i].firstKey)
  }

  /** What the step functions need of a writer: the pending records fit
      their length fields, a non-empty builder has a first key that fits,
      and every recorded first key fits. */
  ghost predicate Writable(w: Writer)
  {
    && AllFit(Records(w))
    && (Records(w) != [] ==> w.blockFirstKey.Some?)
    && (w.blockFirstKey.Some? ==> |w.blockFirstKey.value| <= FieldLimit)
    && KeysFit(w.blockFirstKeys)
  }

  /** What the writer's fields always satisfy between operations: the
      pending records fit and are sorted, `blockFirstKey` is the first of
      them and `previousKey` the last, and the first keys of the written
      blocks are sorted and at or below everything added after them. */
  ghost predicate Coherent(w: Writer)
  {
    var rs := Records(w);
    var pairs := w.blockFirstKeys;
    && Writable(w)
    && NonDecreasing(KeysOf(rs))
    && w.blockFirstKey == (if rs == [] then None else Some(rs[0].key))
    && (rs != [] ==> w.previousKey == Some(rs[|rs| - 1].key))
    && NonDecreasing(PairKeys(pairs))
    && (pairs != [] ==> w.previousKey.Some? && LessEq(pairs[|pairs| - 1].firstKey, w.previousKey.value))
    && (pairs != [] && rs != [] ==> LessEq(pairs[|pairs| - 1].firstKey, rs[0].key))
  }

  /** Restates coherence of a writer for an equal one, so that a method's
      obligation about its own state matches the lemma's result. */
  lemma CoherentSame(w: Writer, w': Writer)
    requires Coherent(w) && w' == w
    ensures Coherent(w')
  {
  }

  lemma FreshCoherent()
    ensures Coherent(Fresh)
  {
  }

  /** `writeCurrentBlock`: the builder's block is written at the current
      offset, its `(firstKey, offset)` pair recorded, and a fresh builder
      started. */
  function WriteBlock(w: Writer): Writer
    requires AllFit(Records(w)) && w.blockFirstKey.Some?
  {
    var block := EncodeBlock(Records(w));
    w.(file := w.file + block,
       offset := w.offset + |block|,
       blockFirstKeys := w.blockFirstKeys + [IndexPair(w.blockFirstKey.value, w.offset)],
       blockFirstKey := None,
       pending := Some([]))
  }

  lemma WriteBlockCoherent(w: Writer)
    requires Coherent(w) && w.blockFirstKey.Some?
    ensures Coherent(WriteBlock(w))
  {
    var rs := Records(w);
    var pairs := w.blockFirstKeys;
    var pairs' := WriteBlock(w).blockFirstKeys;
    assert rs != [];
    assert LessEq(rs[0].key, rs[|rs| - 1].key) by {
      if |rs| > 1 {
        assert KeysOf(rs)[0] == rs[0].key && KeysOf(rs)[|rs| - 1] == rs[|rs| - 1].key;
      }
    }
    forall i, j | 0 <= i < j < |pairs'| ensures LessEq(PairKeys(pairs')[i], PairKeys(pairs')[j]) {
      if j == |pairs| {
        assert PairKeys(pairs)[i] == pairs[i].firstKey;
        if i < |pairs| - 1 {
          assert LessEq(PairKeys(pairs)[i], PairKeys(pairs)[|pairs| - 1]);
        }
        LessEqTransitive(pairs[i].firstKey, pairs[|pairs| - 1].firstKey, rs[0].key);
      } else {
        assert PairKeys(pairs)[i] == pairs'[i].firstKey && PairKeys(pairs)[j] == pairs'[j].firstKey;
      }
    }
  }

  /** The part of `add` before the builder sees the record: the handle
      is opened and a block builder created if there is none. */
  function Start(w: Writer): Writer
  {
    w.(handle := if w.handle == Unopened then Open else w.handle, pending := Some(Records(w)))
  }

  /** The builder's size rule: a record it rejects makes `add` write the
      current block and start a fresh one. */
  function Ready(w: Writer, e: Entry): Writer
    requires Writable(w)
  {
    EncodedSizeZero(Records(w));
    if Admits(EncodedSize(Records(w)), e) then w else WriteBlock(w)
  }

  /** The record is in the builder. */
  function Push(w: Writer, e: Entry): Writer
  {
    w.(pending := Some(Records(w) + [e]))
  }

  /** The block's first key is set if it was not, and `key` is the previous
      key. */
  function Mark(w: Writer, key: bytes): Writer
  {
    w.(blockFirstKey := if w.blockFirstKey.None? then Some(key) else w.blockFirstKey,
       previousKey := Some(key))
  }

  function Append(w: Writer, e: Entry): Writer
  {
    Mark(Push(w, e), e.key)
  }

  /** `add`: the order check, then opening the file and creating a builder
      as needed, then the builder's `add`; a block the size rule closes is
      written first and the record goes to the fresh builder. A record that
      does not fit its length fields is an error that leaves the opened
      handle, the new builder and any block written just before it. */
  function AddStep(w: Writer, key: bytes, value: bytes): (Result<()>, Writer)
    requires Writable(w)
  {
    var e := Entry(key, value);
    if w.previousKey.Some? && Less(key, w.previousKey.value) then (Err(OutOfOrder), w)
    else
      var ready := Ready(Start(w), e);
      if !Fits(e) then (Err(OversizeField), ready) else (Ok(()), Append(ready, e))
  }

  lemma StartCoherent(w: Writer)
    requires Coherent(w)
    ensures Coherent(Start(w))
  {
  }

  lemma ReadyCoherent(w: Writer, e: Entry)
    requires Coherent(w)
    ensures Coherent(Ready(w, e)) && Ready(w, e).previousKey == w.previousKey
  {
    EncodedSizeZero(Records(w));
    if !Admits(EncodedSize(Records(w)), e) {
      WriteBlockCoherent(w);
    }
  }

  lemma AppendCoherent(w: Writer, e: Entry)
    requires Coherent(w) && Fits(e)
    requires w.previousKey.Some? ==> LessEq(w.previousKey.value, e.key)
    ensures Coherent(Append(w, e))
  {
    var rs := Records(w);
    var pairs := w.blockFirstKeys;
    AppendKeepsOrder(rs, e);
    assert (rs + [e])[0] == (if rs == [] then e else rs[0]);
    if pairs != [] {
      LessEqTransitive(pairs[|pairs| - 1].firstKey, w.previousKey.value, e.key);
    }
  }

  /** Every `add`, whether it succeeds or fails, keeps the writer coherent. */
  lemma AddStepCoherent(w: Writer, key: bytes, value: bytes)
    requires Coherent(w)
    ensures Coherent(AddStep(w, key, value).1)
  {
    var e := Entry(key, value);
    var prev := w.previousKey;
    if !(prev.Some? && Less(key, prev.value)) {
      StartCoherent(w);
      ReadyCoherent(Start(w), e);
      if Fits(e) {
        if prev.Some? {
          LessTotal(key, prev.value);
        }
        AppendCoherent(Ready(Start(w), e), e);
      }
    }
  }

  /** Every `add` keeps what the step functions need. */
  lemma AddStepWritable(w: Writer, key: bytes, value: bytes)
    requires Writable(w)
    ensures Writable(AddStep(w, key, value).1)
  {
    var e := Entry(key, value);
    if !(w.previousKey.Some? && Less(key, w.previousKey.value)) {
      var s := Start(w);
      assert Records(s) == Records(w);
      EncodedSizeZero(Records(s));
      var ready := Ready(s, e);
      if !Admits(EncodedSize(Records(s)), e) {
        WriteBlockWritable(s);
      }
      if Fits(e) {
        AppendWritable(ready, e);
      }
    }
  }

  lemma WriteBlockWritable(w: Writer)
    requires Writable(w) && w.blockFirstKey.Some?
    ensures Writable(WriteBlock(w))
  {
    var pairs := w.blockFirstKeys;
    var pairs' := WriteBlock(w).blockFirstKeys;
    assert forall i :: 0 <= i < |pairs| ==> pairs'[i] == pairs[i];
  }

  lemma AppendWritable(w: Writer, e: Entry)
    requires Writable(w) && Fits(e)
    ensures Writable(Append(w, e))
  {
    var rs := Records(w);
    assert Records(Append(w, e)) == rs + [e];
    assert forall i :: 0 <= i < |rs| ==> (rs + [e])[i] == rs[i];
  }

  lemma FlushedWritable(w: Writer)
    requires Writable(w)
    ensures Writable(Flushed(w))
  {
    if w.pending.Some? && w.blockFirstKey.Some? {
      WriteBlockWritable(w);
    }
  }

  /** The first step of `close`: the builder's block is written if it has
      a first key. */
  function Flushed(w: Writer): Writer
    requires Writable(w)
  {
    if w.pending.Some? && w.blockFirstKey.Some? then WriteBlock(w) else w
  }

  lemma FlushedCoherent(w: Writer)
    requires Coherent(w)
    ensures Coherent(Flushed(w))
  {
    if w.pending.Some? && w.blockFirstKey.Some? {
      WriteBlockCoherent(w);
    }
  }

  /** The whole of `close`: it needs an open handle, flushes the current
      block, needs at least one data block, then writes the index blocks
      (the pairs packed by the block size rule, each offset as 8 bytes)
      and the trailer. Offsets of 2^48 and more cannot be written. */
  function CloseFile(w: Writer): Result<bytes>
    requires Writable(w)
  {
    if w.handle != Open then Err(NoHandle)
    else
      FlushedWritable(w);
      CloseFlushed(Flushed(w))
  }

  /** What `close` writes once the pending block is on the file. */
  function CloseFlushed(w1: Writer): Result<bytes>
    requires Writable(w1)
  {
    if w1.blockFirstKeys == [] then Err(EmptyTable)
    else if !PairsBelow48(w1.blockFirstKeys) then Err(OffsetOutOfRange)
    else
      var index := PackIndex(w1.blockFirstKeys);
      var metas := BlockStarts(w1.offset, index);
      if !Below48(metas) || |metas| > FieldLimit then Err(OffsetOutOfRange)
      else Ok(w1.file + BlocksBytes(index) + TrailerBytes(metas))
  }

  /** A run of `add` calls, one per entry, stopping at the first error. */
  function Run(w: Writer, es: seq<Entry>): (r: (Result<()>, Writer))
    requires Writable(w)
    ensures Writable(r.1)
  {
    if es == [] then (Ok(()), w)
    else
      var prior := Run(w, es[..|es| - 1]);
      if prior.0.Err? then prior
      else
        var e := es[|es| - 1];
        AddStepWritable(prior.1, e.key, e.value);
        AddStep(prior.1, e.key, e.value)
  }

  /** A run of `add` calls keeps the writer coherent. */
  lemma {:induction false} RunCoherent(w: Writer, es: seq<Entry>)
    requires Coherent(w)
    ensures Coherent(Run(w, es).1)
  {
    if es != [] {
      var init, e := es[..|es| - 1], es[|es| - 1];
      RunCoherent(w, init);
      if Run(w, init).0.Ok? {
        AddStepCoherent(Run(w, init).1, e.key, e.value);
      }
    }
  }

  // ---------------------------------------------------------------------
  // What the writer has laid down

  /** The file holds exactly the encoded blocks `written`, the offset is
      its length, and `blockFirstKeys` names each block's first key and
      start. */
  ghost predicate Layout(w: Writer, written: seq<seq<Entry>>)
  {
    && BlocksFit(written)
    && (forall i :: 0 <= i < |written| ==> written[i] != [])
    && w.file == BlocksBytes(written)
    && w.offset == |w.file|
    && w.blockFirstKeys == FirstKeys(written)
  }

  lemma FreshLayout()
    ensures Layout(Fresh, [])
  {
  }

  lemma WriteBlockLayout(w: Writer, written: seq<seq<Entry>>)
    requires Coherent(w) && Layout(w, written) && w.blockFirstKey.Some?
    ensures Layout(WriteBlock(w), written + [Records(w)])
  {
    BlocksSnoc(written, Records(w));
    FirstKeysSnoc(written, Records(w));
    var all := written + [Records(w)];
    assert forall i :: 0 <= i < |written| ==> all[i] == written[i];
  }

  /** The blocks after an `add` of `e` that passes the order check: the
      pending block is written first when the size rule rejects `e`. */
  function NextWritten(written: seq<seq<Entry>>, rs: seq<Entry>, e: Entry): seq<seq<Entry>>
  {
    if Admits(EncodedSize(rs), e) then written else written + [rs]
  }

  lemma ReadyLayout(w: Writer, written: seq<seq<Entry>>, e: Entry)
    requires Coherent(w) && Layout(w, written)
    ensures Layout(Ready(w, e), NextWritten(written, Records(w), e))
    ensures Ready(w, e).handle == w.handle
    ensures Packing(NextWritten(written, Records(w), e), Records(Ready(w, e)) + [e])
              == PackStep(Packing(written, Records(w)), e)
  {
    EncodedSizeZero(Records(w));
    if !Admits(EncodedSize(Records(w)), e) {
      WriteBlockLayout(w, written);
    }
  }

  /** An `add` that passes the order check lays the blocks down as the
      packing rule says: on success the writer's blocks and records are
      one `PackStep` further; on a record too large for its fields, only
      the flush of the pending block has happened. */
  lemma AddStepLayout(w: Writer, written: seq<seq<Entry>>, key: bytes, value: bytes)
    requires Coherent(w) && Layout(w, written) && w.handle != Closed
    requires !(w.previousKey.Some? && Less(key, w.previousKey.value))
    ensures Layout(AddStep(w, key, value).1, NextWritten(written, Records(w), Entry(key, value)))
    ensures AddStep(w, key, value).0.Ok? <==> Fits(Entry(key, value))
    ensures AddStep(w, key, value).1.handle == Open
    ensures AddStep(w, key, value).0.Ok? ==>
      Packing(NextWritten(written, Records(w), Entry(key, value)), Records(AddStep(w, key, value).1))
        == PackStep(Packing(written, Records(w)), Entry(key, value))
    ensures AddStep(w, key, value).0.Ok? ==> AddStep(w, key, value).1.previousKey == Some(key)
  {
    var e := Entry(key, value);
    StartCoherent(w);
    assert Layout(Start(w), written) && Records(Start(w)) == Records(w);
    ReadyLayout(Start(w), written, e);
  }

  /** Adding a sorted run of records that fit never fails, and leaves the
      written blocks and the pending records exactly as the packing rule
      cuts the run. */
  lemma {:induction false} RunLayout(es: seq<Entry>)
    requires AllFit(es) && NonDecreasing(KeysOf(es))
    ensures Run(Fresh, es).0 == Ok(())
    ensures Layout(Run(Fresh, es).1, Pack(es).done)
    ensures Records(Run(Fresh, es).1) == Pack(es).current
    ensures es != [] ==> Run(Fresh, es).1.handle == Open
    ensures es != [] ==> Run(Fresh, es).1.previousKey == Some(es[|es| - 1].key)
    ensures es == [] ==> Run(Fresh, es).1 == Fresh
  {
    if es != [] {
      var init, e := es[..|es| - 1], es[|es| - 1];
      SortedInit(es);
      RunLayout(init);
      RunCoherent(Fresh, init);
      var w := Run(Fresh, init).1;
      AddStepLayout(w, Pack(init).done, e.key, e.value);
      assert Pack(es) == PackStep(Pack(init), e);
    }
  }

  /** Dropping the last record of a sorted run of records that fit leaves
      one too, and the last record is not below the one before it. */
  lemma SortedInit(es: seq<Entry>)
    requires AllFit(es) && NonDecreasing(KeysOf(es)) && es != []
    ensures AllFit(es[..|es| - 1]) && NonDecreasing(KeysOf(es[..|es| - 1]))
    ensures Fits(es[|es| - 1])
    ensures |es| > 1 ==> !Less(es[|es| - 1].key, es[|es| - 2].key)
  {
    var init, e := es[..|es| - 1], es[|es| - 1];
    assert AllFit(init) by {
      forall i | 0 <= i < |init| ensures Fits(init[i]) {
        assert init[i] == es[i];
      }
    }
    assert NonDecreasing(KeysOf(init)) by {
      forall i, j | 0 <= i < j < |init| ensures LessEq(KeysOf(init)[i], KeysOf(init)[j]) {
        assert KeysOf(init)[i] == KeysOf(es)[i] && KeysOf(init)[j] == KeysOf(es)[j];
      }
    }
    if |es| > 1 {
      assert KeysOf(es)[|es| - 2] == es[|es| - 2].key && KeysOf(es)[|es| - 1] == e.key;
      LessAsymmetric(es[|es| - 2].key, e.key);
      LessIrreflexive(e.key);
    }
  }

  /** `close` after `add` with the blocks `written` so far produces the
      table file of those blocks and the pending one. */
  lemma CloseFileTable(w: Writer, written: seq<seq<Entry>>)
    requires Coherent(w) && Layout(w, written) && w.handle == Open
    ensures AllFit(Records(w))
    ensures BlocksFit(Emitted(Packing(written, Records(w))))
    ensures forall i :: 0 <= i < |Emitted(Packing(written, Records(w)))| ==> Emitted(Packing(written, Records(w)))[i] != []
    ensures CloseFile(w) == TableFile(Emitted(Packing(written, Records(w))))
  {
    var rs := Records(w);
    var data := Emitted(Packing(written, rs));
    var w1 := Flushed(w);
    if rs != [] {
      WriteBlockLayout(w, written);
      assert data == written + [rs];
    } else {
      assert data == written;
    }
    assert Layout(w1, data);
  }

  /** End to end: writing a sorted run of records that fit and closing
      gives the table file of the blocks the packing rule cuts; with no
      records there is no file handle to close. */
  lemma RunFile(es: seq<Entry>)
    requires AllFit(es) && NonDecreasing(KeysOf(es))
    ensures BlocksFit(Emitted(Pack(es)))
    ensures forall i :: 0 <= i < |Emitted(Pack(es))| ==> Emitted(Pack(es))[i] != []
    ensures es == [] ==> CloseFile(Run(Fresh, es).1) == Err(NoHandle)
    ensures es != [] ==> CloseFile(Run(Fresh, es).1) == TableFile(Emitted(Pack(es)))
  {
    if es != [] {
      RunFileTable(es);
    } else {
      assert Pack(es) == Packing([], []) && Run(Fresh, es).1 == Fresh;
    }
  }

  lemma RunFileTable(es: seq<Entry>)
    requires AllFit(es) && NonDecreasing(KeysOf(es)) && es != []
    ensures BlocksFit(Emitted(Pack(es)))
    ensures forall i :: 0 <= i < |Emitted(Pack(es))| ==> Emitted(Pack(es))[i] != []
    ensures CloseFile(Run(Fresh, es).1) == TableFile(Emitted(Pack(es)))
  {
    RunLayout(es);
    RunCoherent(Fresh, es);
    var w, p := Run(Fresh, es).1, Pack(es);
    assert p == Packing(p.done, Records(w));
    CloseFileTable(w, p.done);
  }

  // ---------------------------------------------------------------------
  // The index blocks and the trailer that `close` writes

  /** The state of `close`'s index loop against the packing `p` of the
      entries so far: the closed index blocks are written from `start` on
      and their starts recorded, and `cur` is what the index block builder
      holds. */
  ghost predicate IndexLoop(p: Packing, start: nat, out: bytes, pos: nat, metas: seq<nat>, cur: seq<Entry>)
  {
    && BlocksFit(p.done) && AllFit(p.current)
    && out == BlocksBytes(p.done)
    && pos == start + |out|
    && metas == BlockStarts(start, p.done)
    && cur == p.current
  }

  /** After the loop, the index block still in the builder is written. */
  lemma FinishLoop(p: Packing, start: nat, out: bytes, pos: nat, metas: seq<nat>)
    requires IndexLoop(p, start, out, pos, metas, p.current)
    ensures BlocksFit(Emitted(p))
    ensures p.current == [] ==> out == BlocksBytes(Emitted(p)) && metas == BlockStarts(start, Emitted(p))
    ensures p.current != [] ==>
      out + EncodeBlock(p.current) == BlocksBytes(Emitted(p)) &&
      metas + [pos] == BlockStarts(start, Emitted(p))
  {
    if p.current != [] {
      BlocksAppend(p.done, p.current, start, out, pos, metas);
    }
  }

  ghost predicate IndexProgress(pairs: seq<IndexPair>, i: nat, start: nat,
                                out: bytes, pos: nat, metas: seq<nat>, cur: seq<Entry>)
    requires i <= |pairs| && PairsBelow48(pairs[..i])
  {
    && IndexLoop(Pack(IndexEntries(pairs[..i])), start, out, pos, metas, cur)
    && (i > 0 ==> cur != [] && cur[|cur| - 1].key == pairs[i - 1].firstKey)
  }

  lemma AdmitLoop(p: Packing, e: Entry, start: nat, out: bytes, pos: nat, metas: seq<nat>)
    requires IndexLoop(p, start, out, pos, metas, p.current) && Fits(e)
    requires Admits(EncodedSize(p.current), e)
    ensures IndexLoop(PackStep(p, e), start, out, pos, metas, p.current + [e])
  {
    assert AllFit(p.current + [e]);
  }

  lemma CutLoop(p: Packing, e: Entry, start: nat, out: bytes, pos: nat, metas: seq<nat>)
    requires IndexLoop(p, start, out, pos, metas, p.current) && Fits(e)
    requires !Admits(EncodedSize(p.current), e)
    ensures IndexLoop(PackStep(p, e), start, out + EncodeBlock(p.current), pos + |EncodeBlock(p.current)|,
                      metas + [pos], [e])
  {
    var q := PackStep(p, e);
    assert q.done == p.done + [p.current] && q.current == [e];
    BlocksAppend(p.done, p.current, start, out, pos, metas);
    assert AllFit(q.current);
  }

  function IndexEntry(pair: IndexPair): Entry
    requires pair.offset < Offset48Limit
  {
    Entry(pair.firstKey, IndexValue(pair.offset))
  }

  lemma IndexStart(pairs: seq<IndexPair>, start: nat)
    ensures PairsBelow48(pairs[..0])
    ensures IndexProgress(pairs, 0, start, [], start, [], [])
  {
    assert pairs[..0] == [];
    assert IndexEntries([]) == [];
  }

  /** The packing of the first `i + 1` index entries is one `PackStep`
      past that of the first `i`. */
  lemma IndexPackStep(pairs: seq<IndexPair>, i: nat)
    requires i < |pairs| && PairsBelow48(pairs[..i]) && pairs[i].offset < Offset48Limit
    ensures PairsBelow48(pairs[..i + 1])
    ensures Pack(IndexEntries(pairs[..i + 1])) == PackStep(Pack(IndexEntries(pairs[..i])), IndexEntry(pairs[i]))
  {
    var es := IndexEntries(pairs[..i]);
    var es' := IndexEntries(pairs[..i + 1]);
    assert pairs[..i + 1][..i] == pairs[..i];
    assert es' == es + [IndexEntry(pairs[i])];
    assert es'[..|es'| - 1] == es;
  }

  /** One pass of `close`'s loop over the pairs: the next index entry
      fits and is in order. */
  lemma IndexNext(pairs: seq<IndexPair>, i: nat, start: nat,
                  out: bytes, pos: nat, metas: seq<nat>, cur: seq<Entry>)
    requires i < |pairs| && PairsBelow48(pairs[..i]) && pairs[i].offset < Offset48Limit
    requires KeysFit(pairs) && NonDecreasing(PairKeys(pairs))
    requires IndexProgress(pairs, i, start, out, pos, metas, cur)
    ensures Fits(IndexEntry(pairs[i]))
    ensures cur != [] ==> !Less(pairs[i].firstKey, cur[|cur| - 1].key)
    ensures cur == [] ==> i == 0
  {
    if cur != [] {
      assert PairKeys(pairs)[i - 1] == pairs[i - 1].firstKey && PairKeys(pairs)[i] == pairs[i].firstKey;
      LessAsymmetric(pairs[i - 1].firstKey, pairs[i].firstKey);
      LessIrreflexive(pairs[i].firstKey);
    }
  }

  /** The index block builder takes the entry. */
  lemma IndexAdmit(pairs: seq<IndexPair>, i: nat, start: nat,
                   out: bytes, pos: nat, metas: seq<nat>, cur: seq<Entry>)
    requires i < |pairs| && PairsBelow48(pairs[..i]) && pairs[i].offset < Offset48Limit
    requires KeysFit(pairs)
    requires IndexProgress(pairs, i, start, out, pos, metas, cur)
    requires Admits(EncodedSize(cur), IndexEntry(pairs[i]))
    ensures PairsBelow48(pairs[..i + 1])
    ensures IndexProgress(pairs, i + 1, start, out, pos, metas, cur + [IndexEntry(pairs[i])])
  {
    IndexPackStep(pairs, i);
    AdmitLoop(Pack(IndexEntries(pairs[..i])), IndexEntry(pairs[i]), start, out, pos, metas);
  }

  /** The size rule rejects the entry: the index block is written and a
      fresh one takes the entry. */
  lemma IndexCut(pairs: seq<IndexPair>, i: nat, start: nat,
                 out: bytes, pos: nat, metas: seq<nat>, cur: seq<Entry>)
    requires i < |pairs| && PairsBelow48(pairs[..i]) && pairs[i].offset < Offset48Limit
    requires KeysFit(pairs)
    requires IndexProgress(pairs, i, start, out, pos, metas, cur)
    requires !Admits(EncodedSize(cur), IndexEntry(pairs[i]))
    ensures PairsBelow48(pairs[..i + 1]) && AllFit(cur)
    ensures IndexProgress(pairs, i + 1, start, out + EncodeBlock(cur), pos + |EncodeBlock(cur)|,
                          metas + [pos], [IndexEntry(pairs[i])])
  {
    IndexPackStep(pairs, i);
    CutLoop(Pack(IndexEntries(pairs[..i])), IndexEntry(pairs[i]), start, out, pos, metas);
  }

  lemma IndexFinish(pairs: seq<IndexPair>, start: nat,
                    out: bytes, pos: nat, metas: seq<nat>, cur: seq<Entry>)
    requires PairsBelow48(pairs[..|pairs|]) && KeysFit(pairs)
    requires IndexProgress(pairs, |pairs|, start, out, pos, metas, cur)
    ensures PairsBelow48(pairs) && AllFit(cur)
    ensures cur == [] ==> out == BlocksBytes(PackIndex(pairs)) && metas == BlockStarts(start, PackIndex(pairs))
    ensures cur != [] ==>
      out + EncodeBlock(cur) == BlocksBytes(PackIndex(pairs)) &&
      metas + [pos] == BlockStarts(start, PackIndex(pairs))
  {
    assert pairs[..|pairs|] == pairs;
    FinishLoop(Pack(IndexEntries(pairs)), start, out, pos, metas);
  }

  /** The body of `close`'s index loop: the entry goes to the index block
      builder, unless there is none or its size rule rejects the entry; then
      the full builder's block is returned for writing and a fresh builder
      takes the entry. */
  method IndexAdd(idx: BlockBuilder?, key: bytes, value: bytes) returns (next: BlockBuilder, block: Option<bytes>)
    requires Fits(Entry(key, value))
    requires idx != null ==> idx.Valid() && idx.Entries != [] && !Less(key, idx.Entries[|idx.Entries| - 1].key)
    modifies idx
    ensures next.Valid()
    ensures idx == null ==> fresh(next) && next.Entries == [Entry(key, value)] && block.None?
    ensures idx != null && Admits(EncodedSize(old(idx.Entries)), Entry(key, value)) ==>
      next == idx && next.Entries == old(idx.Entries) + [Entry(key, value)] && block.None?
    ensures idx != null && !Admits(EncodedSize(old(idx.Entries)), Entry(key, value)) ==>
      fresh(next) && next.Entries == [Entry(key, value)] && block == Some(EncodeBlock(old(idx.Entries)))
  {
    var added := false;
    if idx != null {
      var res := idx.Add(key, value);
      added := res == Ok(true);
    }
    if added {
      return idx, None;
    }
    block := None;
    if idx != null {
      var out := idx.Close();
      block := Some(out);
    }
    next := new BlockBuilder();
    var _ := next.Add(key, value);
  }

  /** What `close`'s index loop keeps after `i` pairs: the builder `idx`
      (none before the first pair) holds the entries `cur` of the
      pending index block. */
  ghost predicate IndexInv(pairs: seq<IndexPair>, i: nat, start: nat, idx: BlockBuilder?,
                           out: bytes, pos: nat, metas: seq<nat>, cur: seq<Entry>)
    reads idx
  {
    && i <= |pairs| && PairsBelow48(pairs[..i])
    && (idx == null) == (i == 0)
    && (idx != null ==> idx.Valid() && idx.Entries == cur)
    && (idx == null ==> cur == [])
    && IndexProgress(pairs, i, start, out, pos, metas, cur)
  }

  /** One pass of `close`'s index loop, for a pair whose offset can be
      written: the index entry goes to the builder, and a block the size
      rule closes is appended to the output. */
  method IndexStep(pairs: seq<IndexPair>, i: nat, start: nat, idx: BlockBuilder?,
                   out: bytes, pos: nat, metas: seq<nat>, ghost cur: seq<Entry>)
    returns (next: BlockBuilder, out': bytes, pos': nat, metas': seq<nat>, ghost cur': seq<Entry>)
    requires KeysFit(pairs) && NonDecreasing(PairKeys(pairs))
    requires IndexInv(pairs, i, start, idx, out, pos, metas, cur)
    requires i < |pairs| && pairs[i].offset < Offset48Limit
    modifies idx
    ensures next == idx || fresh(next)
    ensures IndexInv(pairs, i + 1, start, next, out', pos', metas', cur')
  {
    var offsetBuf := IndexValue(pairs[i].offset);
    ghost var e := IndexEntry(pairs[i]);
    IndexNext(pairs, i, start, out, pos, metas, cur);
    var block;
    next, block := IndexAdd(idx, pairs[i].firstKey, offsetBuf);
    if block.Some? {
      IndexCut(pairs, i, start, out, pos, metas, cur);
      metas', out', pos' := metas + [pos], out + block.value, pos + |block.value|;
      cur' := [e];
    } else {
      IndexAdmit(pairs, i, start, out, pos, metas, cur);
      out', pos', metas' := out, pos, metas;
      cur' := cur + [e];
    }
  }

  /** After the loop, the index block still in the builder is written. */
  method IndexClose(pairs: seq<IndexPair>, start: nat, idx: BlockBuilder?,
                    out: bytes, pos: nat, metas: seq<nat>, ghost cur: seq<Entry>)
    returns (out': bytes, metas': seq<nat>)
    requires KeysFit(pairs)
    requires IndexInv(pairs, |pairs|, start, idx, out, pos, metas, cur)
    modifies idx
    ensures PairsBelow48(pairs)
    ensures out' == BlocksBytes(PackIndex(pairs)) && metas' == BlockStarts(start, PackIndex(pairs))
  {
    IndexFinish(pairs, start, out, pos, metas, cur);
    out', metas' := out, metas;
    if idx != null {
      var block := idx.Close();
      metas', out' := metas + [pos], out + block;
    }
  }

  lemma TooFar(pairs: seq<IndexPair>, i: nat)
    requires i < |pairs| && pairs[i].offset >= Offset48Limit
    ensures !PairsBelow48(pairs)
  {
  }

  /** The index loop of `close`: each pair's offset as an 8-byte value,
      added to the current index block builder; a block the size rule
      closes is written and its start recorded. An offset of 2^48 or more
      cannot be written. */
  method WriteIndex(pairs: seq<IndexPair>, start: nat) returns (r: Result<(bytes, seq<nat>)>)
    requires KeysFit(pairs) && NonDecreasing(PairKeys(pairs))
    ensures r == if PairsBelow48(pairs) then Ok((BlocksBytes(PackIndex(pairs)), BlockStarts(start, PackIndex(pairs))))
                 else Err(OffsetOutOfRange)
  {
    var out: bytes := [];
    var pos: nat := start;
    var metas: seq<nat> := [];
    var idx: BlockBuilder? := null;
    ghost var cur: seq<Entry> := [];
    IndexStart(pairs, start);
    var i := 0;
    while i < |pairs|
      invariant IndexInv(pairs, i, start, idx, out, pos, metas, cur)
      invariant idx != null ==> fresh(idx)
    {
      if pairs[i].offset >= Offset48Limit {
        TooFar(pairs, i);
        return Err(OffsetOutOfRange);
      }
      idx, out, pos, metas, cur := IndexStep(pairs, i, start, idx, out, pos, metas, cur);
      i := i + 1;
    }
    out, metas := IndexClose(pairs, start, idx, out, pos, metas, cur);
    return Ok((out, metas));
  }

  /** The trailer: each index block's start as a 6-byte number, then the
      count as a u32. A start of 2^48 or more, or more than u32-max
      blocks, cannot be written. */
  method BuildTrailer(metas: seq<nat>) returns (r: Result<bytes>)
    ensures r == if Below48(metas) && |metas| <= FieldLimit then Ok(TrailerBytes(metas))
                 else Err(OffsetOutOfRange)
  {
    Offset48LimitIsPow();
    FieldLimitIsU32Max();
    var trailer := new byte[|metas| * 6 + 4](_ => 0);
    for i := 0 to |metas|
      invariant Below48(metas[..i])
      invariant trailer[..6 * i] == OffsetsBytes(metas[..i])
    {
      if metas[i] >= Offset48Limit {
        return Err(OffsetOutOfRange);
      }
      CopyInto(trailer, 6 * i, U48(metas[i]));
      assert metas[..i + 1][..i] == metas[..i];
    }
    assert metas[..|metas|] == metas;
    if |metas| > FieldLimit {
      return Err(OffsetOutOfRange);
    }
    CopyInto(trailer, 6 * |metas|, U32(|metas|));
    assert trailer[..] == trailer[..6 * |metas| + 4];
    return Ok(trailer[..]);
  }

  // ---------------------------------------------------------------------
  // The writer object

  class TableBuilder {
    var handle: Handle
    var file: bytes
    var offset: nat
    var blockFirstKeys: seq<IndexPair>
    var blockFirstKey: Option<bytes>
    var blockBuilder: BlockBuilder?
    var previousKey: Option<bytes>

    /** The writer's state as a value. */
    ghost function Snapshot(): Writer
      reads this, blockBuilder
    {
      Writer(handle, file, offset, blockFirstKeys, blockFirstKey,
             if blockBuilder == null then None else Some(blockBuilder.Entries), previousKey)
    }

    ghost predicate Valid()
      reads this, blockBuilder
    {
      && (blockBuilder != null ==> blockBuilder.Valid())
      && handle != Closed
      && Coherent(Snapshot())
    }

    /** The path is not modelled: the file starts empty. */
    constructor ()
      ensures Valid() && Snapshot() == Fresh
    {
      handle, file, offset, blockFirstKeys := Unopened, [], 0, [];
      blockFirstKey, blockBuilder, previousKey := None, null, None;
    }

    /** `writeCurrentBlock`. */
    method WriteCurrentBlock()
      requires Valid() && handle == Open && blockBuilder != null && blockFirstKey.Some?
      modifies this
      ensures Valid() && fresh(blockBuilder)
      ensures Snapshot() == WriteBlock(old(Snapshot()))
    {
      ghost var w := Snapshot();
      ghost var rs := blockBuilder.Entries;
      assert Records(w) == rs;
      var out := blockBuilder.Close();
      var next := new BlockBuilder();
      file, offset, blockFirstKeys, blockFirstKey, blockBuilder :=
        file + out, offset + |out|, blockFirstKeys + [IndexPair(blockFirstKey.value, offset)], None, next;
      WriteBlockCoherent(w);
      ghost var w' := WriteBlock(w);
      assert out == EncodeBlock(Records(w)) && next.Entries == [];
      assert Snapshot() == w';
      CoherentSame(w', Snapshot());
    }

    /** `add`: moves the writer as `AddStep` says. */
    method Add(key: bytes, value: bytes) returns (r: Result<()>)
      requires Valid()
      modifies this, blockBuilder
      ensures Valid()
      ensures (r, Snapshot()) == AddStep(old(Snapshot()), key, value)
      ensures blockBuilder != null && blockBuilder != old(blockBuilder) ==> fresh(blockBuilder)
    {
      if previousKey.Some? && Compare(previousKey.value, key) > 0 {
        return Err(OutOfOrder);
      }
      r := AddInOrder(key, value);
    }

    /** The part of `add` after the order check. */
    method AddInOrder(key: bytes, value: bytes) returns (r: Result<()>)
      requires Valid()
      requires !(previousKey.Some? && Less(key, previousKey.value))
      modifies this, blockBuilder
      ensures Valid()
      ensures (r, Snapshot()) == AddStep(old(Snapshot()), key, value)
      ensures blockBuilder != null && blockBuilder != old(blockBuilder) ==> fresh(blockBuilder)
    {
      ghost var w := Snapshot();
      ghost var e := Entry(key, value);
      if previousKey.Some? {
        LessTotal(key, previousKey.value);
      }
      Prepare();
      ghost var ready := Ready(Start(w), e);
      ReadyCoherent(Start(w), e);
      r := PushRecord(key, value);
      if r.Ok? {
        MarkKey(key, value, ready);
      } else {
        CoherentSame(ready, Snapshot());
      }
    }

    /** The last lines of `add`, after the builder took the record: the
        block's first key and the previous key. */
    method MarkKey(key: bytes, ghost value: bytes, ghost ready: Writer)
      requires blockBuilder != null && blockBuilder.Valid() && handle == Open
      requires Coherent(ready) && Fits(Entry(key, value)) && Snapshot() == Push(ready, Entry(key, value))
      requires ready.previousKey.Some? ==> LessEq(ready.previousKey.value, key)
      modifies this
      ensures Valid() && blockBuilder == old(blockBuilder)
      ensures Snapshot() == Mark(old(Snapshot()), key)
    {
      ghost var w := Snapshot();
      blockFirstKey, previousKey := if blockFirstKey.None? then Some(key) else blockFirstKey, Some(key);
      AppendCoherent(ready, Entry(key, value));
      assert Snapshot() == Mark(w, key);
      CoherentSame(Append(ready, Entry(key, value)), Snapshot());
    }

    /** The part of `add` after the order check: the handle is opened and a
        block builder created if there is none. */
    method Prepare()
      requires Valid()
      modifies this
      ensures Valid() && handle == Open && blockBuilder != null
      ensures blockBuilder != old(blockBuilder) ==> fresh(blockBuilder)
      ensures Snapshot() == Start(old(Snapshot()))
    {
      ghost var w := Snapshot();
      var builder := blockBuilder;
      if builder == null {
        builder := new BlockBuilder();
      }
      handle, blockBuilder := if handle == Unopened then Open else handle, builder;
      assert Snapshot() == Start(w);
      StartCoherent(w);
      CoherentSame(Start(w), Snapshot());
    }

    /** The builder's `add` and, when its size rule rejects the record,
        `writeCurrentBlock` and the retry on the fresh builder. */
    method PushRecord(key: bytes, value: bytes) returns (r: Result<()>)
      requires Valid() && handle == Open && blockBuilder != null
      requires previousKey.Some? ==> LessEq(previousKey.value, key)
      modifies this, blockBuilder
      ensures blockBuilder != null && blockBuilder.Valid() && handle == Open
      ensures blockBuilder != old(blockBuilder) ==> fresh(blockBuilder)
      ensures r == (if Fits(Entry(key, value)) then Ok(()) else Err(OversizeField))
      ensures r.Err? ==> Snapshot() == Ready(old(Snapshot()), Entry(key, value))
      ensures r.Ok? ==> Snapshot() == Push(Ready(old(Snapshot()), Entry(key, value)), Entry(key, value))
    {
      ghost var w := Snapshot();
      ghost var e := Entry(key, value);
      EncodedSizeZero(Records(w));
      if blockBuilder.Entries != [] {
        LessAsymmetric(previousKey.value, key);
        LessIrreflexive(key);
      }
      var res := blockBuilder.Add(key, value);
      if res == Ok(false) {
        assert Snapshot() == w;
        CoherentSame(w, Snapshot());
        WriteCurrentBlock();
        res := blockBuilder.Add(key, value);
      }
      r := if res.Err? then Err(OversizeField) else Ok(());
    }

    /** `close`: on success the file holds exactly what `CloseFile` says and
        the handle is closed; every error is the one `CloseFile` names. */
    method Close() returns (r: Result<()>)
      requires Valid()
      modifies this, blockBuilder
      ensures r.Ok? <==> CloseFile(old(Snapshot())).Ok?
      ensures r.Err? ==> CloseFile(old(Snapshot())) == Err(r.error)
      ensures r.Ok? ==> file == CloseFile(old(Snapshot())).value && handle == Closed
    {
      ghost var w := Snapshot();
      if handle == Unopened {
        return Err(NoHandle);
      }
      if blockBuilder != null && blockFirstKey.Some? {
        WriteCurrentBlock();
      }
      assert Snapshot() == Flushed(w);
      FlushedCoherent(w);
      r := WriteTail();
    }

    /** `close` after the pending block is written: the index blocks and
        the trailer. */
    method WriteTail() returns (r: Result<()>)
      requires Coherent(Snapshot())
      modifies this
      ensures r.Ok? <==> CloseFlushed(old(Snapshot())).Ok?
      ensures r.Err? ==> CloseFlushed(old(Snapshot())) == Err(r.error)
      ensures r.Ok? ==> file == CloseFlushed(old(Snapshot())).value && handle == Closed
    {
      if |blockFirstKeys| == 0 {
        return Err(EmptyTable);
      }
      var index := WriteIndex(blockFirstKeys, offset);
      if index.Err? {
        return Err(index.error);
      }
      var trailer := BuildTrailer(index.value.1);
      if trailer.Err? {
        return Err(trailer.error);
      }
      file, offset := file + index.value.0 + trailer.value, offset + |index.value.0| + |trailer.value|;
      handle := Closed;
      return Ok(());
    }
  }
}

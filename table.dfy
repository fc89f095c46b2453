/** The table reader (`Table`): the trailer and the index blocks parsed out
    of the file's bytes, the candidate-block search and point lookup. The
    file is the byte sequence found at the table's path. */
module Table {
  import opened Bytes
  import opened Results
  import opened Block
  import opened TableFormat

  /** One element of `blockEntries`: an index key and the offset the reader
      takes from its value. */
  datatype IndexRef = IndexRef(key: bytes, offset: nat)

  /** `handle.read(buf, 0, len, pos)`: the bytes from `pos` on, at most
      `len` of them; nothing past the end of the file. */
  function ReadAt(file: bytes, pos: nat, len: nat): (r: bytes)
    ensures |r| <= len
    ensures |r| == len <==> len == 0 || pos + len <= |file|
    ensures pos + len <= |file| ==> r == file[pos..pos + len]
  {
    if pos >= |file| then [] else file[pos..Min(pos + len, |file|)]
  }

  /** `Buffer.alloc(len)` filled by a read whose byte count is not checked:
      what the read delivers, then zeros. */
  function Filled(file: bytes, pos: nat, len: nat): (r: bytes)
    ensures |r| == len
    ensures pos + len <= |file| ==> r == file[pos..pos + len]
  {
    var got := ReadAt(file, pos, len);
    got + seq(len - |got|, _ => 0)
  }

  // ---------------------------------------------------------------------
  // `ensureOpen` as a function of the file

  /** The index-block offsets and where the trailer's offset list starts
      (`metaBlockPos`). */
  datatype Trailer = Trailer(offsets: seq<nat>, metaPos: nat)

  /** `readUIntBE(i * 6, 6)` for each of the `n` references. */
  function RefOffsets(refs: bytes, n: nat): (r: seq<nat>)
    requires |refs| == 6 * n
    ensures |r| == n
  {
    seq(n, i requires 0 <= i < n => BeValue(refs[6 * i..6 * i + 6]))
  }

  /** The count in the last four bytes, then the offsets in the `6 * count`
      bytes before them; a file of four bytes or fewer, or one too short for
      its count, is refused. */
  function ParseTrailer(file: bytes): Result<Trailer>
  {
    if |file| <= 4 then Err(CorruptTable)
    else
      var count := BeValue(file[|file| - 4..]);
      if |file| < count * 6 + 4 then Err(CorruptTable)
      else
        var metaPos := |file| - count * 6 - 4;
        Ok(Trailer(RefOffsets(file[metaPos..metaPos + count * 6], count), metaPos))
  }

  /** Where index block `i` ends: the next block's start, or the trailer. */
  function BlockEnd(t: Trailer, i: nat): nat
    requires i < |t.offsets|
  {
    if i < |t.offsets| - 1 then t.offsets[i + 1] else t.metaPos
  }

  /** The references pushed for the entries of one index block, in order;
      a value shorter than four bytes stops the pushing with an error
      (`readUInt32BE(0)` throws), after the references before it. */
  function ValueRefs(es: seq<Entry>): (Result<()>, seq<IndexRef>)
  {
    if es == [] then (Ok(()), [])
    else if |es[0].value| < 4 then (Err(CorruptBlock), [])
    else
      var rest := ValueRefs(es[1..]);
      (rest.0, [IndexRef(es[0].key, BeValue(es[0].value[..4]))] + rest.1)
  }

  /** One index block: a negative size is refused by `Buffer.alloc`, a
      short read is an error, then the block is decoded and its references
      pushed. */
  function BlockRefs(file: bytes, start: nat, end: nat): (Result<()>, seq<IndexRef>)
  {
    if end < start then (Err(CorruptTable), [])
    else
      var buf := ReadAt(file, start, end - start);
      if |buf| != end - start then (Err(CorruptTable), [])
      else
        match ParseRecords(ExclTrailer(buf))
        case Err(e) => (Err(e), [])
        case Ok(es) => ValueRefs(es)
  }

  /** The index blocks from `i` on, until the first one that fails. */
  function ScanFrom(file: bytes, t: Trailer, i: nat): (Result<()>, seq<IndexRef>)
    requires i <= |t.offsets|
    decreases |t.offsets| - i
  {
    if i == |t.offsets| then (Ok(()), [])
    else
      var b := BlockRefs(file, t.offsets[i], BlockEnd(t, i));
      if b.0.Err? then b
      else
        var rest := ScanFrom(file, t, i + 1);
        (rest.0, b.1 + rest.1)
  }

  /** What one `ensureOpen` call reports, the references it appends to
      `blockEntries`, and the `metaBlockStart` it sets (once the first
      index block went through). */
  datatype Opening = Opening(result: Result<()>, refs: seq<IndexRef>, metaStart: Option<nat>)

  function OpenScan(file: bytes): Opening
  {
    match ParseTrailer(file)
    case Err(e) => Opening(Err(e), [], None)
    case Ok(t) =>
      var s := ScanFrom(file, t, 0);
      var first := |t.offsets| > 0 && BlockRefs(file, t.offsets[0], BlockEnd(t, 0)).0.Ok?;
      Opening(s.0, s.1, if first then Some(t.offsets[0]) else None)
  }

  /** A block that fails to read ends the scan with its error, after the
      references pushed so far and any it pushed. */
  lemma ScanStops(file: bytes, t: Trailer, i: nat, pushed: seq<IndexRef>)
    requires i < |t.offsets| && BlockRefs(file, t.offsets[i], BlockEnd(t, i)).0.Err?
    requires ScanFrom(file, t, 0) == (ScanFrom(file, t, i).0, pushed + ScanFrom(file, t, i).1)
    ensures ScanFrom(file, t, 0)
            == (BlockRefs(file, t.offsets[i], BlockEnd(t, i)).0, pushed + BlockRefs(file, t.offsets[i], BlockEnd(t, i)).1)
  {
  }

  /** A block that reads adds its references and the scan goes on. */
  lemma ScanGoesOn(file: bytes, t: Trailer, i: nat, pushed: seq<IndexRef>)
    requires i < |t.offsets| && BlockRefs(file, t.offsets[i], BlockEnd(t, i)).0.Ok?
    requires ScanFrom(file, t, 0) == (ScanFrom(file, t, i).0, pushed + ScanFrom(file, t, i).1)
    ensures ScanFrom(file, t, 0)
            == (ScanFrom(file, t, i + 1).0, (pushed + BlockRefs(file, t.offsets[i], BlockEnd(t, i)).1) + ScanFrom(file, t, i + 1).1)
  {
    var b := BlockRefs(file, t.offsets[i], BlockEnd(t, i));
    var rest := ScanFrom(file, t, i + 1);
    assert ScanFrom(file, t, i) == (rest.0, b.1 + rest.1);
    Assoc(pushed, b.1, rest.1);
  }

  lemma Assoc<T>(a: seq<T>, b: seq<T>, c: seq<T>)
    ensures (a + b) + c == a + (b + c)
  {
  }

  // ---------------------------------------------------------------------
  // `blockIdx`, `blockRange` and `get` as functions of the reader's state

  function Reversed(s: seq<IndexRef>): (r: seq<IndexRef>)
    ensures |r| == |s| && forall i :: 0 <= i < |s| ==> r[i] == s[|s| - 1 - i]
  {
    if s == [] then [] else [s[|s| - 1]] + Reversed(s[..|s| - 1])
  }

  /** `findIndex(([entryKey]) => entryKey.compare(key) <= 0)`. */
  function FindAtMost(s: seq<IndexRef>, key: bytes): (r: int)
    ensures -1 <= r < |s|
    ensures r == -1 <==> forall i :: 0 <= i < |s| ==> !LessEq(s[i].key, key)
    ensures r >= 0 ==> LessEq(s[r].key, key) && forall i :: 0 <= i < r ==> !LessEq(s[i].key, key)
  {
    if s == [] then -1
    else if Compare(s[0].key, key) <= 0 then 0
    else
      var r := FindAtMost(s[1..], key);
      assert forall i :: 1 <= i < |s| ==> s[i] == s[1..][i - 1];
      if r == -1 then -1 else r + 1
  }

  /** `blockIdx`: an index into the REVERSED list of references. It is -1
      exactly when every key is above `key`; otherwise it counts from the
      end to the rightmost reference whose key is at most `key`. */
  function BlockIdx(entries: seq<IndexRef>, key: bytes): (r: int)
    ensures -1 <= r < |entries|
    ensures r == -1 <==> forall i :: 0 <= i < |entries| ==> !LessEq(entries[i].key, key)
    ensures r >= 0 ==> LessEq(entries[|entries| - 1 - r].key, key)
    ensures r >= 0 ==> forall i :: |entries| - 1 - r < i < |entries| ==> !LessEq(entries[i].key, key)
  {
    var rev := Reversed(entries);
    var r := FindAtMost(rev, key);
    assert forall i :: 0 <= i < |entries| ==> entries[i] == rev[|entries| - 1 - i];
    r
  }

  /** `blockRange(idx)`: from reference `idx`'s offset to the next one's,
      or to `metaBlockStart` for the last reference. */
  function BlockRange(entries: seq<IndexRef>, metaStart: nat, idx: nat): (nat, nat)
    requires idx < |entries|
  {
    (entries[idx].offset, if idx + 1 == |entries| then metaStart else entries[idx + 1].offset)
  }

  /** `get` after the reader is open: no candidate block means no value;
      otherwise the candidate's byte range is read (short reads leave
      zeros), decoded as a block and searched. */
  function Lookup(file: bytes, entries: seq<IndexRef>, metaStart: nat, key: bytes): Result<Option<bytes>>
  {
    var idx := BlockIdx(entries, key);
    if idx == -1 then Ok(None)
    else
      var (start, end) := BlockRange(entries, metaStart, idx);
      if end < start then Err(CorruptTable)
      else
        match ParseRecords(ExclTrailer(Filled(file, start, end - start)))
        case Err(e) => Err(e)
        case Ok(es) => Ok(Find(es, key))
  }

  // ---------------------------------------------------------------------
  // Reading back what the writer wrote

  /** The offset the reader takes from an index value: bytes 0..4 as a
      u32. The writer puts the offset in bytes 2..8, so what comes back is
      the offset divided by 2^32. */
  lemma IndexValueQuirk(offset: nat)
    requires offset < Offset48Limit
    ensures |IndexValue(offset)| >= 4
    ensures BeValue(IndexValue(offset)[..4]) == offset / Pow256(4)
  {
    Offset48LimitIsPow();
    var v := IndexValue(offset);
    BeBytesPrefix(offset, 6, 2);
    var q := offset / Pow256(4);
    assert v[..4] == [0, 0] + BeBytes(q, 2);
    BeValueLeadingZeros([0, 0], BeBytes(q, 2));
    BeRoundTrip(q, 2);
  }

  /** The references the reader builds from the writer's `(firstKey,
      offset)` pairs. */
  function QuirkRefs(pairs: seq<IndexPair>): (r: seq<IndexRef>)
    ensures |r| == |pairs|
  {
    seq(|pairs|, i requires 0 <= i < |pairs| => IndexRef(pairs[i].firstKey, pairs[i].offset / Pow256(4)))
  }

  lemma {:induction false} ValueRefsIndex(pairs: seq<IndexPair>)
    requires PairsBelow48(pairs)
    ensures ValueRefs(IndexEntries(pairs)) == (Ok(()), QuirkRefs(pairs))
  {
    if pairs != [] {
      var es := IndexEntries(pairs);
      assert es[1..] == IndexEntries(pairs[1..]);
      ValueRefsIndex(pairs[1..]);
      IndexValueQuirk(pairs[0].offset);
      assert QuirkRefs(pairs) == [IndexRef(pairs[0].firstKey, pairs[0].offset / Pow256(4))] + QuirkRefs(pairs[1..]);
    }
  }

  /** Pushing the references of two runs of entries one after the other. */
  lemma {:induction false} ValueRefsConcat(a: seq<Entry>, b: seq<Entry>)
    ensures ValueRefs(a + b) == if ValueRefs(a).0.Ok? then (ValueRefs(b).0, ValueRefs(a).1 + ValueRefs(b).1)
                                else ValueRefs(a)
  {
    if a == [] {
      assert a + b == b && [] + ValueRefs(b).1 == ValueRefs(b).1;
    } else {
      assert (a + b)[0] == a[0] && (a + b)[1..] == a[1..] + b;
      ValueRefsConcat(a[1..], b);
      if |a[0].value| >= 4 {
        var ref := IndexRef(a[0].key, BeValue(a[0].value[..4]));
        Assoc([ref], ValueRefs(a[1..]).1, ValueRefs(b).1);
      }
    }
  }

  lemma {:induction false} FlattenCons(bs: seq<seq<Entry>>)
    requires bs != []
    ensures Flatten(bs) == bs[0] + Flatten(bs[1..])
  {
    if |bs| > 1 {
      var init, last := bs[..|bs| - 1], bs[|bs| - 1];
      FlattenCons(init);
      var tail := bs[1..];
      assert tail[..|tail| - 1] == init[1..] && tail[|tail| - 1] == last;
      assert Flatten(tail) == Flatten(init[1..]) + last;
      assert Flatten(bs) == (init[0] + Flatten(init[1..])) + last;
      Assoc(init[0], Flatten(init[1..]), last);
    } else {
      assert bs[1..] == [] && bs[..0] == [];
    }
  }

  /** The encodings of the blocks, in order. */
  function Encodings(bs: seq<seq<Entry>>): (r: seq<bytes>)
    requires BlocksFit(bs)
    ensures |r| == |bs|
  {
    seq(|bs|, i requires 0 <= i < |bs| => EncodeBlock(bs[i]))
  }

  /** Byte strings written one after another. */
  function Concat(parts: seq<bytes>): bytes
  {
    if parts == [] then [] else Concat(parts[..|parts| - 1]) + parts[|parts| - 1]
  }

  /** Where each part starts when the parts are written from `base` on. */
  function Starts(base: nat, parts: seq<bytes>): (r: seq<nat>)
    ensures |r| == |parts|
  {
    if parts == [] then [] else Starts(base, parts[..|parts| - 1]) + [base + |Concat(parts[..|parts| - 1])|]
  }

  lemma EncodingsInit(bs: seq<seq<Entry>>)
    requires BlocksFit(bs) && bs != []
    ensures BlocksFit(bs[..|bs| - 1])
    ensures Encodings(bs)[..|bs| - 1] == Encodings(bs[..|bs| - 1])
  {
    var init := bs[..|bs| - 1];
    assert forall j :: 0 <= j < |init| ==> init[j] == bs[j];
  }

  /** Writing blocks is writing their encodings ... */
  lemma {:induction false} BytesAsParts(bs: seq<seq<Entry>>)
    requires BlocksFit(bs)
    ensures BlocksBytes(bs) == Concat(Encodings(bs))
  {
    if bs != [] {
      EncodingsInit(bs);
      BytesAsParts(bs[..|bs| - 1]);
    }
  }

  /** ... at the starts of the encodings. */
  lemma {:induction false} StartsAsParts(base: nat, bs: seq<seq<Entry>>)
    requires BlocksFit(bs)
    ensures BlockStarts(base, bs) == Starts(base, Encodings(bs))
  {
    if bs != [] {
      EncodingsInit(bs);
      StartsAsParts(base, bs[..|bs| - 1]);
      BytesAsParts(bs[..|bs| - 1]);
    }
  }

  lemma ConcatSplit(parts: seq<bytes>, i: nat)
    requires i < |parts|
    ensures Concat(parts[..i + 1]) == Concat(parts[..i]) + parts[i]
  {
    assert parts[..i + 1][..i] == parts[..i];
  }

  /** The parts before `i` are written first. */
  lemma {:induction false} ConcatPrefix(parts: seq<bytes>, i: nat)
    requires i <= |parts|
    ensures |Concat(parts[..i])| <= |Concat(parts)|
    ensures Concat(parts)[..|Concat(parts[..i])|] == Concat(parts[..i])
  {
    if i == |parts| {
      assert parts[..i] == parts;
    } else {
      var init := parts[..|parts| - 1];
      assert init[..i] == parts[..i];
      ConcatPrefix(init, i);
    }
  }

  /** The recorded start of part `i` is `base` plus the bytes before it. */
  lemma {:induction false} StartsAt(base: nat, parts: seq<bytes>, i: nat)
    requires i < |parts|
    ensures Starts(base, parts)[i] == base + |Concat(parts[..i])|
  {
    var init := parts[..|parts| - 1];
    if i < |init| {
      assert init[..i] == parts[..i];
      StartsAt(base, init, i);
    } else {
      assert init == parts[..i];
    }
  }

  /** Part `i` of parts written from `base` on starts at its recorded start
      and ends where the next one starts, or at the end. */
  lemma PartSpan(base: nat, parts: seq<bytes>, i: nat)
    requires i < |parts|
    ensures base <= Starts(base, parts)[i]
    ensures i == 0 ==> Starts(base, parts)[i] == base
    ensures Starts(base, parts)[i] + |parts[i]|
            == if i + 1 < |parts| then Starts(base, parts)[i + 1] else base + |Concat(parts)|
  {
    StartsAt(base, parts, i);
    ConcatSplit(parts, i);
    if i + 1 < |parts| {
      StartsAt(base, parts, i + 1);
    } else {
      assert parts[..i + 1] == parts;
    }
    if i == 0 {
      assert parts[..0] == [];
    }
  }

  /** ... and its bytes there are the part. */
  lemma PartAt(base: nat, parts: seq<bytes>, i: nat)
    requires i < |parts|
    ensures base <= Starts(base, parts)[i]
    ensures Starts(base, parts)[i] + |parts[i]| <= base + |Concat(parts)|
    ensures Concat(parts)[Starts(base, parts)[i] - base..Starts(base, parts)[i] - base + |parts[i]|] == parts[i]
  {
    StartsAt(base, parts, i);
    ConcatSplit(parts, i);
    ConcatPrefix(parts, i + 1);
    SliceInPrefix(Concat(parts), Concat(parts[..i + 1]), Concat(parts[..i]), parts[i]);
  }

  lemma SliceInPrefix(whole: bytes, pre: bytes, a: bytes, b: bytes)
    requires |pre| <= |whole| && whole[..|pre|] == pre && pre == a + b
    ensures |a| + |b| <= |whole| && whole[|a|..|a| + |b|] == b
  {
    assert whole[|a|..|a| + |b|] == pre[|a|..];
  }

  /** The 6 bytes of offset `i` in the trailer. */
  lemma {:induction false} OffsetsChunk(offsets: seq<nat>, i: nat)
    requires Below48(offsets) && i < |offsets|
    ensures OffsetsBytes(offsets)[6 * i..6 * i + 6] == U48(offsets[i])
  {
    Offset48LimitIsPow();
    var init := offsets[..|offsets| - 1];
    assert OffsetsBytes(offsets) == OffsetsBytes(init) + U48(offsets[|offsets| - 1]);
    if i < |init| {
      OffsetsChunk(init, i);
      assert init[i] == offsets[i];
    }
  }

  /** The trailer of a written table parses back to the index-block starts
      and the end of the index blocks. */
  lemma TrailerOfTable(prefix: bytes, metas: seq<nat>)
    requires prefix != [] && Below48(metas) && |metas| <= FieldLimit
    ensures ParseTrailer(prefix + TrailerBytes(metas)) == Ok(Trailer(metas, |prefix|))
  {
    Offset48LimitIsPow();
    FieldLimitIsU32Max();
    var offs := OffsetsBytes(metas);
    OffsetsOfTrailer(metas);
    Assoc(prefix, offs, U32(|metas|));
    ParseTrailerOf(prefix, offs, |metas|, metas);
  }

  /** The `n` offsets written as 6-byte numbers read back as themselves. */
  lemma OffsetsOfTrailer(metas: seq<nat>)
    requires Below48(metas)
    ensures RefOffsets(OffsetsBytes(metas), |metas|) == metas
  {
    Offset48LimitIsPow();
    var got := RefOffsets(OffsetsBytes(metas), |metas|);
    forall i | 0 <= i < |metas| ensures got[i] == metas[i] {
      OffsetsChunk(metas, i);
      BeRoundTrip(metas[i], 6);
    }
  }

  lemma ParseTrailerOf(prefix: bytes, offs: bytes, n: nat, metas: seq<nat>)
    requires prefix != [] && |offs| == 6 * n && n < Pow256(4) && RefOffsets(offs, n) == metas
    ensures ParseTrailer((prefix + offs) + U32(n)) == Ok(Trailer(metas, |prefix|))
  {
    var f := (prefix + offs) + U32(n);
    assert f[|f| - 4..] == U32(n);
    BeRoundTrip(n, 4);
    assert BeValue(f[|f| - 4..]) == n;
    assert |f| - n * 6 - 4 == |prefix|;
    assert f[|prefix|..|prefix| + n * 6] == offs;
  }

  /** A block read in full from the file decodes to `es`. */
  lemma BlockRefsOfSlice(file: bytes, start: nat, end: nat, es: seq<Entry>)
    requires start <= end <= |file| && ParseRecords(ExclTrailer(file[start..end])) == Ok(es)
    ensures BlockRefs(file, start, end) == ValueRefs(es)
  {
    assert ReadAt(file, start, end - start) == file[start..end];
  }

  /** Index block `i` of a written table lies where the trailer says. */
  lemma IndexBlockSlice(file: bytes, t: Trailer, index: seq<seq<Entry>>, base: nat, i: nat)
    requires BlocksFit(index) && i < |index|
    requires t.offsets == BlockStarts(base, index) && t.metaPos == base + |BlocksBytes(index)|
    requires t.metaPos <= |file| && file[base..t.metaPos] == BlocksBytes(index)
    ensures t.offsets[i] <= BlockEnd(t, i) <= |file|
    ensures file[t.offsets[i]..BlockEnd(t, i)] == EncodeBlock(index[i])
  {
    var parts := Encodings(index);
    BytesAsParts(index);
    StartsAsParts(base, index);
    PartOfFile(file, base, parts, i);
  }

  /** Index block `i` of a written table, read where the trailer says it
      is, decodes to its entries. */
  lemma ReadIndexBlockOfTable(file: bytes, t: Trailer, index: seq<seq<Entry>>, base: nat, i: nat)
    requires BlocksFit(index) && i < |index|
    requires t.offsets == BlockStarts(base, index) && t.metaPos == base + |BlocksBytes(index)|
    requires t.metaPos <= |file| && file[base..t.metaPos] == BlocksBytes(index)
    ensures BlockRefs(file, t.offsets[i], BlockEnd(t, i)) == ValueRefs(index[i])
  {
    IndexBlockSlice(file, t, index, base, i);
    BlockRoundTrip(index[i]);
    BlockRefsOfSlice(file, t.offsets[i], BlockEnd(t, i), index[i]);
  }

  /** Part `i` of parts written at `base` in a file sits between its start
      and the next start, or the end of the parts. */
  lemma PartOfFile(file: bytes, base: nat, parts: seq<bytes>, i: nat)
    requires i < |parts| && base + |Concat(parts)| <= |file| && file[base..base + |Concat(parts)|] == Concat(parts)
    ensures var start, end := Starts(base, parts)[i], if i + 1 < |parts| then Starts(base, parts)[i + 1] else base + |Concat(parts)|;
            start <= end <= |file| && file[start..end] == parts[i]
  {
    var start := Starts(base, parts)[i];
    PartSpan(base, parts, i);
    PartAt(base, parts, i);
    SliceOfSlice(file, base, base + |Concat(parts)|, start - base, start - base + |parts[i]|);
  }

  lemma SliceOfSlice(s: bytes, base: nat, top: nat, lo: nat, hi: nat)
    requires base <= top <= |s| && lo <= hi <= top - base
    ensures s[base..top][lo..hi] == s[base + lo..base + hi]
  {
    assert forall k :: 0 <= k < hi - lo ==> s[base..top][lo..hi][k] == s[base + lo + k];
  }

  lemma {:induction false} ScanOfTable(file: bytes, t: Trailer, index: seq<seq<Entry>>, base: nat, i: nat)
    requires BlocksFit(index) && i <= |index|
    requires t.offsets == BlockStarts(base, index) && t.metaPos == base + |BlocksBytes(index)|
    requires t.metaPos <= |file| && file[base..t.metaPos] == BlocksBytes(index)
    ensures ScanFrom(file, t, i) == ValueRefs(Flatten(index[i..]))
    decreases |index| - i
  {
    if i < |index| {
      ReadIndexBlockOfTable(file, t, index, base, i);
      ScanOfTable(file, t, index, base, i + 1);
      FlattenCons(index[i..]);
      assert index[i..][1..] == index[i + 1..];
      ValueRefsConcat(index[i], Flatten(index[i + 1..]));
    } else {
      assert index[i..] == [];
    }
  }

  /** Opening a file the writer produced succeeds: the references are the
      writer's `(firstKey, offset)` pairs with each offset divided by 2^32,
      and `metaBlockStart` is where the index blocks begin. */
  lemma OpenWrittenTable(data: seq<seq<Entry>>)
    requires BlocksFit(data) && forall i :: 0 <= i < |data| ==> data[i] != []
    requires TableFile(data).Ok?
    ensures OpenScan(TableFile(data).value)
            == Opening(Ok(()), QuirkRefs(FirstKeys(data)), Some(|BlocksBytes(data)|))
  {
    var pairs := FirstKeys(data);
    var index := IndexBlocks(data);
    IndexBlocksFit(data);
    IndexBlocksShape(data);
    var d, ix := BlocksBytes(data), BlocksBytes(index);
    var metas := BlockStarts(|d|, index);
    var f := TableFile(data).value;
    assert f == (d + ix) + TrailerBytes(metas);
    BlocksBytesNonEmpty(index);
    TrailerOfTable(d + ix, metas);
    var t := Trailer(metas, |d + ix|);
    Middle(d, ix, TrailerBytes(metas));
    ScanOfTable(f, t, index, |d|, 0);
    assert index[0..] == index;
    ValueRefsIndex(pairs);
    FirstBlockStart(|d|, index);
    ScanFirstOk(f, t);
  }

  lemma Middle(a: bytes, b: bytes, c: bytes)
    ensures |a| + |b| <= |(a + b) + c|
    ensures ((a + b) + c)[|a|..|a| + |b|] == b
  {
    assert ((a + b) + c)[|a|..|a| + |b|] == (a + b)[|a|..];
  }

  /** The first of the blocks starts at the base. */
  lemma FirstBlockStart(base: nat, index: seq<seq<Entry>>)
    requires BlocksFit(index) && index != []
    ensures BlockStarts(base, index)[0] == base
  {
    StartsAsParts(base, index);
    PartSpan(base, Encodings(index), 0);
  }

  /** A scan that succeeds read its first block without error. */
  lemma ScanFirstOk(file: bytes, t: Trailer)
    requires |t.offsets| > 0 && ScanFrom(file, t, 0).0.Ok?
    ensures BlockRefs(file, t.offsets[0], BlockEnd(t, 0)).0.Ok?
  {
  }

  // ---------------------------------------------------------------------
  // Looking keys up in a table the writer produced

  /** With every reference offset read as 0, a key whose rightmost
      candidate is not the first reference gets the reversed index of a
      reference that is not the last, so the range read is [0, 0): the key
      is reported absent. */
  lemma LookupPastFirst(file: bytes, entries: seq<IndexRef>, metaStart: nat, key: bytes)
    requires |entries| >= 2 && forall i :: 0 <= i < |entries| ==> entries[i].offset == 0
    requires LessEq(entries[1].key, key)
    ensures Lookup(file, entries, metaStart, key) == Ok(None)
  {
    assert Filled(file, 0, 0) == [];
  }

  /** With one reference at offset 0, the candidate range is everything
      before `metaStart`. */
  lemma LookupSingle(file: bytes, entries: seq<IndexRef>, metaStart: nat, key: bytes)
    requires |entries| == 1 && entries[0].offset == 0 && metaStart <= |file|
    ensures Lookup(file, entries, metaStart, key)
            == if !LessEq(entries[0].key, key) then Ok(None)
               else var parsed := ParseRecords(ExclTrailer(file[..metaStart]));
                 if parsed.Err? then Err(parsed.error) else Ok(Find(parsed.value, key))
  {
    assert Filled(file, 0, metaStart) == file[..metaStart];
  }

  /** The offset recorded for data block `i` is within the data blocks. */
  lemma {:induction false} FirstKeysOffset(bs: seq<seq<Entry>>, i: nat)
    requires BlocksFit(bs) && (forall j :: 0 <= j < |bs| ==> bs[j] != []) && i < |bs|
    ensures FirstKeys(bs)[i].offset <= |BlocksBytes(bs)|
  {
    var init := bs[..|bs| - 1];
    assert forall j :: 0 <= j < |init| ==> init[j] == bs[j];
    if i < |init| {
      FirstKeysOffset(init, i);
    }
  }

  /** With the data blocks under 4 GiB every reference the reader builds
      has offset 0. */
  lemma OffsetsReadAsZero(data: seq<seq<Entry>>)
    requires BlocksFit(data) && forall i :: 0 <= i < |data| ==> data[i] != []
    requires |BlocksBytes(data)| < Pow256(4)
    ensures forall i :: 0 <= i < |data| ==> QuirkRefs(FirstKeys(data))[i].offset == 0
  {
    forall i | 0 <= i < |data| ensures QuirkRefs(FirstKeys(data))[i].offset == 0 {
      FirstKeysOffset(data, i);
      DivUnique(FirstKeys(data)[i].offset, Pow256(4), 0, FirstKeys(data)[i].offset);
    }
  }

  /** A table of one data block answers `get` from that block. */
  lemma GetOneBlockTable(b: seq<Entry>, key: bytes)
    requires AllFit(b) && b != [] && BlocksFit([b])
    requires TableFile([b]).Ok?
    ensures Lookup(TableFile([b]).value, QuirkRefs(FirstKeys([b])), |BlocksBytes([b])|, key)
            == if LessEq(b[0].key, key) then Ok(Find(b, key)) else Ok(None)
  {
    var f := TableFile([b]).value;
    var refs := QuirkRefs(FirstKeys([b]));
    OneBlock(b);
    QuirkRefsOne(b[0].key);
    var d := BlocksBytes([b]);
    DataInFront([b]);
    LookupSingle(f, refs, |d|, key);
    BlockRoundTrip(b);
  }

  /** `ensureOpen` appends the index again on every call. Opening a
      one-block table twice leaves its reference twice, both at offset 0:
      for a key at or above the first key, `blockIdx` then picks the later
      copy and `blockRange` uses the earlier one, whose range is empty, so
      on the second `get` every key reads as absent. */
  lemma SecondGetOneBlock(b: seq<Entry>, key: bytes)
    requires AllFit(b) && b != [] && BlocksFit([b])
    requires TableFile([b]).Ok?
    ensures var refs := QuirkRefs(FirstKeys([b]));
            Lookup(TableFile([b]).value, refs + refs, |BlocksBytes([b])|, key) == Ok(None)
  {
    var refs := QuirkRefs(FirstKeys([b]));
    OneBlock(b);
    QuirkRefsOne(b[0].key);
    assert refs + refs == [IndexRef(b[0].key, 0), IndexRef(b[0].key, 0)];
    if LessEq(b[0].key, key) {
      LookupPastFirst(TableFile([b]).value, refs + refs, |BlocksBytes([b])|, key);
    }
  }

  lemma QuirkRefsOne(key: bytes)
    ensures QuirkRefs([IndexPair(key, 0)]) == [IndexRef(key, 0)]
  {
    assert 0 / Pow256(4) == 0;
  }

  lemma OneBlock(b: seq<Entry>)
    requires AllFit(b) && b != [] && BlocksFit([b])
    ensures BlocksBytes([b]) == EncodeBlock(b)
    ensures FirstKeys([b]) == [IndexPair(b[0].key, 0)]
  {
    assert [b][..0] == [];
  }

  /** The data blocks are the front of the file. */
  lemma DataInFront(data: seq<seq<Entry>>)
    requires BlocksFit(data) && forall i :: 0 <= i < |data| ==> data[i] != []
    requires TableFile(data).Ok?
    ensures |BlocksBytes(data)| <= |TableFile(data).value|
    ensures TableFile(data).value[..|BlocksBytes(data)|] == BlocksBytes(data)
  {
    var index := IndexBlocks(data);
    IndexBlocksFit(data);
    var d, ix := BlocksBytes(data), BlocksBytes(index);
    var tr := TrailerBytes(BlockStarts(|d|, index));
    assert TableFile(data).value == (d + ix) + tr;
    Front(d, ix, tr);
  }

  lemma Front(a: bytes, b: bytes, c: bytes)
    ensures ((a + b) + c)[..|a|] == a
  {
    assert ((a + b) + c)[..|a|] == (a + b)[..|a|];
  }

  /** In a table of two or more data blocks under 4 GiB, a key at or above
      the first key of the second block is reported absent, wherever it
      was written. */
  lemma LaterBlocksNotFound(data: seq<seq<Entry>>, key: bytes)
    requires BlocksFit(data) && forall i :: 0 <= i < |data| ==> data[i] != []
    requires TableFile(data).Ok? && |TableFile(data).value| < Pow256(4)
    requires |data| >= 2 && LessEq(data[1][0].key, key)
    ensures Lookup(TableFile(data).value, QuirkRefs(FirstKeys(data)), |BlocksBytes(data)|, key) == Ok(None)
  {
    DataInFront(data);
    OffsetsReadAsZero(data);
    FirstKeysKey(data, 1);
    LookupPastFirst(TableFile(data).value, QuirkRefs(FirstKeys(data)), |BlocksBytes(data)|, key);
  }

  // ---------------------------------------------------------------------
  // The reader object

  /** With a trailer that parses, opening is the scan of its index
      blocks. */
  lemma OpenScanOfTrailer(file: bytes, t: Trailer)
    requires ParseTrailer(file) == Ok(t)
    ensures OpenScan(file).result == ScanFrom(file, t, 0).0
    ensures OpenScan(file).refs == ScanFrom(file, t, 0).1
    ensures OpenScan(file).metaStart
            == if |t.offsets| > 0 && BlockRefs(file, t.offsets[0], BlockEnd(t, 0)).0.Ok? then Some(t.offsets[0]) else None
  {
  }

  /** The offsets loop of `ensureOpen`. */
  method ReadOffsets(refs: bytes, n: nat) returns (offsets: seq<nat>)
    requires |refs| == 6 * n
    ensures offsets == RefOffsets(refs, n)
  {
    offsets := [];
    for i := 0 to n
      invariant |offsets| == i
      invariant forall j :: 0 <= j < i ==> offsets[j] == BeValue(refs[6 * j..6 * j + 6])
    {
      offsets := offsets + [BeValue(refs[6 * i..6 * i + 6])];
    }
  }

  class Table {
    const file: bytes
    var isOpen: bool
    var blockEntries: seq<IndexRef>
    var metaBlockStart: nat

    /** The path is not modelled: the reader is given the file's bytes. */
    constructor (contents: bytes)
      ensures file == contents && !isOpen && blockEntries == [] && metaBlockStart == 0
    {
      file := contents;
      isOpen, blockEntries, metaBlockStart := false, [], 0;
    }

    /** The `map` over a decoded index block: push a reference per entry. */
    method PushRefs(es: seq<Entry>) returns (r: Result<()>)
      modifies this
      ensures r == ValueRefs(es).0
      ensures blockEntries == old(blockEntries) + ValueRefs(es).1
      ensures isOpen == old(isOpen) && metaBlockStart == old(metaBlockStart)
    {
      ghost var pushed: seq<IndexRef> := [];
      var k := 0;
      assert es[0..] == es && pushed + ValueRefs(es).1 == ValueRefs(es).1;
      while k < |es|
        invariant k <= |es|
        invariant blockEntries == old(blockEntries) + pushed
        invariant ValueRefs(es) == (ValueRefs(es[k..]).0, pushed + ValueRefs(es[k..]).1)
        invariant isOpen == old(isOpen) && metaBlockStart == old(metaBlockStart)
      {
        var key, value := es[k].key, es[k].value;
        assert es[k..][0] == es[k] && es[k..][1..] == es[k + 1..];
        if |value| < 4 {
          return Err(CorruptBlock);
        }
        var offset := BeValue(value[..4]);
        ghost var rest := ValueRefs(es[k + 1..]);
        assert pushed + ValueRefs(es[k..]).1 == (pushed + [IndexRef(key, offset)]) + rest.1;
        blockEntries := blockEntries + [IndexRef(key, offset)];
        pushed := pushed + [IndexRef(key, offset)];
        k := k + 1;
      }
      return Ok(());
    }

    /** `ensureOpen`: parses the trailer and every index block and APPENDS
        their references to `blockEntries`, on every call; only opening
        the handle happens once. */
    method EnsureOpen() returns (r: Result<()>)
      modifies this
      ensures isOpen
      ensures r == OpenScan(file).result
      ensures blockEntries == old(blockEntries) + OpenScan(file).refs
      ensures metaBlockStart == if OpenScan(file).metaStart.Some? then OpenScan(file).metaStart.value
                                else old(metaBlockStart)
    {
      isOpen := true;
      var trailer := ReadTrailer();
      if trailer.Err? {
        return Err(trailer.error);
      }
      OpenScanOfTrailer(file, trailer.value);
      r := ScanIndex(trailer.value.offsets, trailer.value.metaPos);
    }

    /** The block loop of `ensureOpen`: every index block in turn, stopping
        at the first error; `metaBlockStart` is set to the first block's
        start once that block is read. */
    method ScanIndex(offsets: seq<nat>, metaBlockPos: nat) returns (r: Result<()>)
      modifies this
      ensures isOpen == old(isOpen)
      ensures r == ScanFrom(file, Trailer(offsets, metaBlockPos), 0).0
      ensures blockEntries == old(blockEntries) + ScanFrom(file, Trailer(offsets, metaBlockPos), 0).1
      ensures metaBlockStart
              == if |offsets| > 0 && BlockRefs(file, offsets[0], BlockEnd(Trailer(offsets, metaBlockPos), 0)).0.Ok?
                 then offsets[0] else old(metaBlockStart)
    {
      ghost var t := Trailer(offsets, metaBlockPos);
      ghost var pushed: seq<IndexRef> := [];
      var i := 0;
      assert pushed + ScanFrom(file, t, 0).1 == ScanFrom(file, t, 0).1;
      while i < |offsets|
        invariant i <= |offsets| && isOpen == old(isOpen)
        invariant blockEntries == old(blockEntries) + pushed
        invariant ScanFrom(file, t, 0) == (ScanFrom(file, t, i).0, pushed + ScanFrom(file, t, i).1)
        invariant i > 0 ==> BlockRefs(file, offsets[0], BlockEnd(t, 0)).0.Ok?
        invariant metaBlockStart == if i > 0 then offsets[0] else old(metaBlockStart)
      {
        var blockStart := offsets[i];
        var blockEnd := if i < |offsets| - 1 then offsets[i + 1] else metaBlockPos;
        var status := ReadIndexBlock(blockStart, blockEnd);
        ghost var b := BlockRefs(file, blockStart, blockEnd);
        Assoc(old(blockEntries), pushed, b.1);
        if status.Err? {
          ScanStops(file, t, i, pushed);
          return status;
        }
        ScanGoesOn(file, t, i, pushed);
        pushed := pushed + b.1;
        metaBlockStart := offsets[0];
        i := i + 1;
      }
      return Ok(());
    }

    /** The start of `ensureOpen`: the count and the index-block offsets. */
    method ReadTrailer() returns (r: Result<Trailer>)
      ensures r == ParseTrailer(file)
    {
      var size := |file|;
      if size <= 4 {
        return Err(CorruptTable);
      }
      var count := BeValue(file[size - 4..]);
      if size < count * 6 + 4 {
        return Err(CorruptTable);
      }
      var metaBlockPos := size - count * 6 - 4;
      var blockRefBuf := ReadAt(file, metaBlockPos, count * 6);
      var offsets := ReadOffsets(blockRefBuf, count);
      return Ok(Trailer(offsets, metaBlockPos));
    }

    /** One pass of `ensureOpen`'s block loop: read the index block between
        `blockStart` and `blockEnd`, decode it and push its references. */
    method ReadIndexBlock(blockStart: nat, blockEnd: nat) returns (r: Result<()>)
      modifies this
      ensures r == BlockRefs(file, blockStart, blockEnd).0
      ensures blockEntries == old(blockEntries) + BlockRefs(file, blockStart, blockEnd).1
      ensures isOpen == old(isOpen) && metaBlockStart == old(metaBlockStart)
    {
      if blockEnd < blockStart {
        return Err(CorruptTable);
      }
      var blockBuf := ReadAt(file, blockStart, blockEnd - blockStart);
      if |blockBuf| != blockEnd - blockStart {
        return Err(CorruptTable);
      }
      var decoded := DecodeBlock(blockBuf);
      if decoded.Err? {
        return Err(decoded.error);
      }
      r := PushRefs(decoded.value);
    }

    /** `get`: `ensureOpen`, then the lookup over the references it left. */
    method Get(key: bytes) returns (r: Result<Option<bytes>>)
      modifies this
      ensures isOpen
      ensures blockEntries == old(blockEntries) + OpenScan(file).refs
      ensures metaBlockStart == if OpenScan(file).metaStart.Some? then OpenScan(file).metaStart.value
                                else old(metaBlockStart)
      ensures OpenScan(file).result.Err? ==> r == Err(OpenScan(file).result.error)
      ensures OpenScan(file).result.Ok? ==> r == Lookup(file, blockEntries, metaBlockStart, key)
    {
      var status := EnsureOpen();
      if status.Err? {
        return Err(status.error);
      }
      var keyBlockIdx := BlockIdx(blockEntries, key);
      if keyBlockIdx == -1 {
        return Ok(None);
      }
      var (blockStart, blockEnd) := BlockRange(blockEntries, metaBlockStart, keyBlockIdx);
      if blockEnd < blockStart {
        return Err(CorruptTable);
      }
      var blockBuf := Filled(file, blockStart, blockEnd - blockStart);
      var decoded := DecodeBlock(blockBuf);
      if decoded.Err? {
        return Err(decoded.error);
      }
      return Ok(Find(decoded.value, key));
    }
  }

  /** Two `get` calls for the same key on a fresh reader of a one-block
      table: the first answers from the block, the second finds nothing. */
  method GetTwiceOneBlock(b: seq<Entry>, key: bytes) returns (first: Result<Option<bytes>>, second: Result<Option<bytes>>)
    requires AllFit(b) && b != [] && BlocksFit([b])
    requires TableFile([b]).Ok?
    ensures first == if LessEq(b[0].key, key) then Ok(Find(b, key)) else Ok(None)
    ensures second == Ok(None)
  {
    var t := new Table(TableFile([b]).value);
    OpenWrittenTable([b]);
    first := t.Get(key);
    GetOneBlockTable(b, key);
    second := t.Get(key);
    SecondGetOneBlock(b, key);
  }
}

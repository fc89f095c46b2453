/** A block: a key-ordered run of records, each
      u32be(0) ++ u32be(|key|) ++ u32be(|value|) ++ key ++ value,
    followed by a four-byte zero trailer. `BlockBuilder` encodes one,
    `DecodeBlock` (the `Block` constructor) decodes one. */
module Block {
  import opened Bytes
  import opened Results

  const BlockSizeTarget: nat := 65536
  const FieldLimit: nat := 4294967295
  const RecordOverhead: nat := 12
  const Trailer: bytes := [0, 0, 0, 0]

  datatype Entry = Entry(key: bytes, value: bytes)

  function KeysOf(es: seq<Entry>): (r: seq<bytes>)
    ensures |r| == |es| && forall i :: 0 <= i < |es| ==> r[i] == es[i].key
  {
    seq(|es|, i requires 0 <= i < |es| => es[i].key)
  }

  /** Both lengths fit the record's u32 length fields. */
  predicate Fits(e: Entry)
  {
    |e.key| <= FieldLimit && |e.value| <= FieldLimit
  }

  predicate AllFit(es: seq<Entry>)
  {
    forall i :: 0 <= i < |es| ==> Fits(es[i])
  }

  lemma FieldLimitIsU32Max()
    ensures Pow256(4) == FieldLimit + 1
  {
    assert Pow256(2) == 65536;
    assert Pow256(4) == 256 * (256 * Pow256(2));
  }

  /** The number of bytes a record occupies. */
  function RecordSize(e: Entry): nat
  {
    |e.key| + |e.value| + RecordOverhead
  }

  /** The bytes `buildRecord` produces for one record. */
  function RecordBytes(e: Entry): (r: bytes)
    requires Fits(e)
    ensures |r| == RecordSize(e)
  {
    FieldLimitIsU32Max();
    U32(0) + U32(|e.key|) + U32(|e.value|) + e.key + e.value
  }

  /** Total record bytes of a run of entries: the builder's `byteLength`. */
  function EncodedSize(es: seq<Entry>): nat
  {
    if es == [] then 0 else EncodedSize(es[..|es| - 1]) + RecordSize(es[|es| - 1])
  }

  function RecordsBytes(es: seq<Entry>): (r: bytes)
    requires AllFit(es)
    ensures |r| == EncodedSize(es)
  {
    if es == [] then [] else RecordsBytes(es[..|es| - 1]) + RecordBytes(es[|es| - 1])
  }

  /** The bytes `close` returns for a builder holding `es`. */
  function EncodeBlock(es: seq<Entry>): bytes
    requires AllFit(es)
  {
    RecordsBytes(es) + Trailer
  }

  /** The soft size rule: a block with no bytes yet admits any record; a
      later record must keep the block within `BlockSizeTarget`. */
  predicate Admits(byteLength: nat, e: Entry)
  {
    byteLength == 0 || byteLength + RecordSize(e) <= BlockSizeTarget
  }

  lemma {:induction false} EncodedSizeZero(es: seq<Entry>)
    ensures EncodedSize(es) == 0 <==> es == []
    ensures es != [] ==> EncodedSize(es) >= RecordOverhead
  {
    if es != [] {
      EncodedSizeZero(es[..|es| - 1]);
    }
  }

  // ---------------------------------------------------------------------
  // Encoding

  /** `Buffer.copy`: `src` lands at `at`, every other byte is kept. */
  method CopyInto(a: array<byte>, at: nat, src: bytes)
    requires at + |src| <= a.Length
    modifies a
    ensures a[..] == old(a[..at]) + src + old(a[at + |src|..])
    ensures a[..at + |src|] == old(a[..at]) + src
  {
    for j := 0 to |src|
      invariant forall k :: 0 <= k < a.Length ==>
        a[k] == if at <= k < at + j then src[k - at] else old(a[k])
    {
      a[at + j] := src[j];
    }
    assert a[..] == old(a[..at]) + src + old(a[at + |src|..]);
    assert a[..at + |src|] == a[..][..at + |src|];
  }

  /** `buildRecord`: allocate, write the three length fields, copy the key
      and the value. Fails when a length does not fit its u32 field. */
  method BuildRecord(key: bytes, value: bytes) returns (r: Result<bytes>)
    ensures r.Ok? <==> Fits(Entry(key, value))
    ensures r.Err? ==> r.error == OversizeField
    ensures r.Ok? ==> r.value == RecordBytes(Entry(key, value))
  {
    if |key| > FieldLimit || |value| > FieldLimit {
      return Err(OversizeField);
    }
    FieldLimitIsU32Max();
    var out := new byte[|key| + |value| + RecordOverhead](_ => 0);
    CopyInto(out, 0, U32(0));
    assert out[..4] == U32(0);
    CopyInto(out, 4, U32(|key|));
    assert out[..8] == U32(0) + U32(|key|);
    CopyInto(out, 8, U32(|value|));
    assert out[..12] == U32(0) + U32(|key|) + U32(|value|);
    CopyInto(out, 12, key);
    assert out[..12 + |key|] == U32(0) + U32(|key|) + U32(|value|) + key;
    CopyInto(out, 12 + |key|, value);
    assert out[..] == out[..12 + |key| + |value|];
    return Ok(out[..]);
  }

  /** The builder's fields agree with the entries added so far. */
  ghost predicate BuilderState(records: seq<bytes>, byteLength: nat, previousKey: Option<bytes>,
                               entries: seq<Entry>)
  {
    && AllFit(entries)
    && |records| == |entries|
    && (forall i :: 0 <= i < |records| ==> records[i] == RecordBytes(entries[i]))
    && byteLength == EncodedSize(entries)
    && previousKey == (if entries == [] then None else Some(entries[|entries| - 1].key))
    && NonDecreasing(KeysOf(entries))
    && (|entries| >= 2 ==> byteLength <= BlockSizeTarget)
  }

  /** Appending an admitted record that fits and is in order keeps the
      builder's fields in agreement. */
  lemma BuilderAppend(records: seq<bytes>, byteLength: nat, previousKey: Option<bytes>,
                      entries: seq<Entry>, e: Entry,
                      records': seq<bytes>, byteLength': nat, entries': seq<Entry>)
    requires BuilderState(records, byteLength, previousKey, entries)
    requires Fits(e) && Admits(byteLength, e)
    requires previousKey.Some? ==> LessEq(previousKey.value, e.key)
    requires records' == records + [RecordBytes(e)] && entries' == entries + [e]
    requires byteLength' == byteLength + RecordSize(e)
    ensures BuilderState(records', byteLength', Some(e.key), entries')
  {
    AppendKeepsOrder(entries, e);
    EncodedSizeZero(entries);
    assert entries'[..|entries'| - 1] == entries;
    assert forall i :: 0 <= i < |records| ==> records'[i] == records[i] && entries'[i] == entries[i];
  }

  /** The in-memory builder of one block. */
  class BlockBuilder {
    var records: seq<bytes>
    var byteLength: nat
    var previousKey: Option<bytes>
    /** The entries added so far, in order. */
    ghost var Entries: seq<Entry>

    ghost predicate Valid()
      reads this
    {
      BuilderState(records, byteLength, previousKey, Entries)
    }

    constructor ()
      ensures Valid() && Entries == []
    {
      records, byteLength, previousKey := [], 0, None;
      Entries := [];
    }

    /** Ok(true) when the record was appended, Ok(false) when the size rule
        rejected it. A key below the previous one is an error, an equal key
        is accepted. Nothing changes unless the result is Ok(true). */
    method Add(key: bytes, value: bytes) returns (r: Result<bool>)
      requires Valid()
      modifies this
      ensures Valid()
      ensures r == (if old(previousKey).Some? && Less(key, old(previousKey).value) then Err(OutOfOrder)
                    else if !Admits(old(byteLength), Entry(key, value)) then Ok(false)
                    else if !Fits(Entry(key, value)) then Err(OversizeField)
                    else Ok(true))
      ensures r == Ok(true) ==> Entries == old(Entries) + [Entry(key, value)]
      ensures r == Ok(true) ==> byteLength == old(byteLength) + RecordSize(Entry(key, value))
      ensures r != Ok(true) ==> Entries == old(Entries) && byteLength == old(byteLength)
                                && records == old(records) && previousKey == old(previousKey)
    {
      if previousKey.Some? && Compare(previousKey.value, key) > 0 {
        return Err(OutOfOrder);
      }
      if byteLength > 0 && byteLength + |key| + |value| + RecordOverhead > BlockSizeTarget {
        return Ok(false);
      }
      var record := BuildRecord(key, value);
      if record.Err? {
        return Err(record.error);
      }
      ghost var e := Entry(key, value);
      records, byteLength, previousKey, Entries :=
        records + [record.value], byteLength + |record.value|, Some(key), Entries + [e];
      BuilderAppend(old(records), old(byteLength), old(previousKey), old(Entries), e,
                    records, byteLength, Entries);
      return Ok(true);
    }

    /** The encoded block: every record in order, then the zero trailer. */
    method Close() returns (out: bytes)
      requires Valid()
      ensures out == EncodeBlock(Entries)
    {
      out := [];
      for i := 0 to |records|
        invariant out == RecordsBytes(Entries[..i])
      {
        assert Entries[..i + 1][..i] == Entries[..i];
        out := out + records[i];
      }
      assert Entries[..|records|] == Entries;
      out := out + Trailer;
    }
  }

  lemma AppendKeepsOrder(es: seq<Entry>, e: Entry)
    requires NonDecreasing(KeysOf(es))
    requires es != [] ==> LessEq(es[|es| - 1].key, e.key)
    ensures NonDecreasing(KeysOf(es + [e]))
  {
    var ks := KeysOf(es + [e]);
    forall i, j | 0 <= i < j < |ks| ensures LessEq(ks[i], ks[j]) {
      if j == |es| && i < |es| - 1 {
        LessEqTransitive(ks[i], es[|es| - 1].key, e.key);
      }
    }
  }

  /** An empty builder closes to exactly the trailer. */
  lemma EmptyBlock()
    ensures EncodeBlock([]) == [0, 0, 0, 0]
  {
  }

  // ---------------------------------------------------------------------
  // Decoding

  function Min(a: int, b: int): int
  {
    if a <= b then a else b
  }

  /** The records in `body` (a block without its trailer), decoded as the
      `Block` constructor does: a record header cut short is an error
      (`readUInt32BE` throws), while a key or value that runs past the end
      is cut at the end (`slice` clamps). */
  function ParseRecords(body: bytes): Result<seq<Entry>>
    decreases |body|
  {
    if body == [] then Ok([])
    else if |body| < RecordOverhead then Err(CorruptBlock)
    else Prepend([FirstRecord(body)], ParseRecords(body[ValueEnd(body)..]))
  }

  /** Where the first record's key ends, cut at the end of `body`. */
  function KeyEnd(body: bytes): nat
    requires |body| >= RecordOverhead
  {
    Min(RecordOverhead + BeValue(body[4..8]), |body|)
  }

  /** Where the first record's value ends, cut at the end of `body`. */
  function ValueEnd(body: bytes): (r: nat)
    requires |body| >= RecordOverhead
    ensures KeyEnd(body) <= r <= |body| && r >= RecordOverhead
  {
    Min(RecordOverhead + BeValue(body[4..8]) + BeValue(body[8..12]), |body|)
  }

  function FirstRecord(body: bytes): Entry
    requires |body| >= RecordOverhead
  {
    Entry(body[RecordOverhead..KeyEnd(body)], body[KeyEnd(body)..ValueEnd(body)])
  }

  /** `buf.subarray(0, -4)`: everything but the last four bytes. */
  function ExclTrailer(buf: bytes): bytes
  {
    if |buf| <= 4 then [] else buf[..|buf| - 4]
  }

  function Prepend(es: seq<Entry>, r: Result<seq<Entry>>): Result<seq<Entry>>
  {
    match r
    case Ok(rest) => Ok(es + rest)
    case Err(err) => Err(err)
  }

  /** The `Block` constructor: walk the records one by one. */
  method DecodeBlock(buf: bytes) returns (r: Result<seq<Entry>>)
    ensures r == ParseRecords(ExclTrailer(buf))
  {
    var body := ExclTrailer(buf);
    var entries: seq<Entry> := [];
    var offset := 0;
    PrependNil(ParseFrom(body, 0));
    while offset < |body|
      invariant 0 <= offset <= |body|
      invariant ParseFrom(body, 0) == Prepend(entries, ParseFrom(body, offset))
      decreases |body| - offset
    {
      if offset + RecordOverhead > |body| {
        r := Err(CorruptBlock);
        ParseFromSlice(body, 0);
        assert body[0..] == body;
        return;
      }
      var keySize := BeValue(body[offset + 4..offset + 8]);
      var valueSize := BeValue(body[offset + 8..offset + 12]);
      var keyEnd := Min(offset + RecordOverhead + keySize, |body|);
      var valueEnd := Min(offset + RecordOverhead + keySize + valueSize, |body|);
      var e := Entry(body[offset + RecordOverhead..keyEnd], body[keyEnd..valueEnd]);
      assert e == RecordAt(body, offset) && valueEnd == ValueEndAt(body, offset);
      ParseFromStep(body, offset);
      PrependPrepend(entries, e, ParseFrom(body, valueEnd));
      entries := entries + [e];
      offset := valueEnd;
    }
    assert entries + [] == entries;
    r := Ok(entries);
    ParseFromSlice(body, 0);
    assert body[0..] == body;
  }

  /** Where the record at `offset` ends, cut at the end of `body`. */
  function ValueEndAt(body: bytes, offset: nat): (r: nat)
    requires offset + RecordOverhead <= |body|
    ensures offset < r <= |body|
  {
    Min(offset + RecordOverhead + BeValue(body[offset + 4..offset + 8]) + BeValue(body[offset + 8..offset + 12]), |body|)
  }

  /** The records of `body` from `offset` on, read in place. */
  function ParseFrom(body: bytes, offset: nat): Result<seq<Entry>>
    requires offset <= |body|
    decreases |body| - offset
  {
    if offset == |body| then Ok([])
    else if offset + RecordOverhead > |body| then Err(CorruptBlock)
    else Prepend([RecordAt(body, offset)], ParseFrom(body, ValueEndAt(body, offset)))
  }

  /** The record at `offset`, its key and value cut at the end of `body`. */
  function RecordAt(body: bytes, offset: nat): Entry
    requires offset + RecordOverhead <= |body|
  {
    var keyEnd := Min(offset + RecordOverhead + BeValue(body[offset + 4..offset + 8]), |body|);
    Entry(body[offset + RecordOverhead..keyEnd], body[keyEnd..ValueEndAt(body, offset)])
  }

  lemma ParseFromStep(body: bytes, offset: nat)
    requires offset + RecordOverhead <= |body|
    ensures ParseFrom(body, offset) == Prepend([RecordAt(body, offset)], ParseFrom(body, ValueEndAt(body, offset)))
  {
  }

  /** Reading in place agrees with reading the rest of the block. */
  lemma {:induction false} ParseFromSlice(body: bytes, offset: nat)
    requires offset <= |body|
    ensures ParseFrom(body, offset) == ParseRecords(body[offset..])
    decreases |body| - offset
  {
    if offset + RecordOverhead <= |body| {
      ParseAt(body, offset);
      ParseFromSlice(body, ValueEndAt(body, offset));
    }
  }

  /** One record read straight from `body` at `offset` is one unfolding of
      `ParseRecords` on the rest. */
  lemma ParseAt(body: bytes, offset: nat)
    requires offset + RecordOverhead <= |body|
    ensures
      var keyEnd := Min(offset + RecordOverhead + BeValue(body[offset + 4..offset + 8]), |body|);
      var valueEnd := ValueEndAt(body, offset);
      ParseRecords(body[offset..])
        == Prepend([Entry(body[offset + RecordOverhead..keyEnd], body[keyEnd..valueEnd])],
                   ParseRecords(body[valueEnd..]))
  {
    var rest := body[offset..];
    assert rest[4..8] == body[offset + 4..offset + 8];
    assert rest[8..12] == body[offset + 8..offset + 12];
    var keyEnd := offset + KeyEnd(rest);
    var valueEnd := offset + ValueEnd(rest);
    assert rest[RecordOverhead..KeyEnd(rest)] == body[offset + RecordOverhead..keyEnd];
    assert rest[KeyEnd(rest)..ValueEnd(rest)] == body[keyEnd..valueEnd];
    assert rest[ValueEnd(rest)..] == body[valueEnd..];
  }

  lemma PrependNil(r: Result<seq<Entry>>)
    ensures Prepend([], r) == r
  {
    if r.Ok? {
      assert [] + r.value == r.value;
    }
  }

  lemma PrependPrepend(es: seq<Entry>, e: Entry, r: Result<seq<Entry>>)
    ensures Prepend(es, Prepend([e], r)) == Prepend(es + [e], r)
  {
    if r.Ok? {
      assert es + ([e] + r.value) == (es + [e]) + r.value;
    }
  }

  // ---------------------------------------------------------------------
  // Round trip

  lemma {:induction false} RecordsBytesCons(e: Entry, es: seq<Entry>)
    requires Fits(e) && AllFit(es)
    ensures AllFit([e] + es)
    ensures RecordsBytes([e] + es) == RecordBytes(e) + RecordsBytes(es)
    decreases |es|
  {
    var all := [e] + es;
    assert AllFit(all) by {
      forall i | 0 <= i < |all| ensures Fits(all[i]) {
        if i > 0 { assert all[i] == es[i - 1]; }
      }
    }
    if es == [] {
      assert all == [e];
    } else {
      var init, last := es[..|es| - 1], es[|es| - 1];
      assert all[..|all| - 1] == [e] + init;
      assert all[|all| - 1] == last;
      RecordsBytesCons(e, init);
      assert RecordsBytes(all) == RecordsBytes([e] + init) + RecordBytes(last);
      assert RecordsBytes(es) == RecordsBytes(init) + RecordBytes(last);
    }
  }

  /** A record followed by anything decodes to that record first. */
  lemma ParseFirstRecord(e: Entry, rest: bytes)
    requires Fits(e)
    ensures ParseRecords(RecordBytes(e) + rest) == Prepend([e], ParseRecords(rest))
  {
    var body := RecordBytes(e) + rest;
    FieldLimitIsU32Max();
    assert body[4..8] == U32(|e.key|);
    assert body[8..12] == U32(|e.value|);
    BeRoundTrip(|e.key|, 4);
    BeRoundTrip(|e.value|, 4);
    assert KeyEnd(body) == RecordOverhead + |e.key|;
    assert ValueEnd(body) == RecordSize(e);
    assert body[RecordOverhead..KeyEnd(body)] == e.key;
    assert body[KeyEnd(body)..ValueEnd(body)] == e.value;
    assert body[ValueEnd(body)..] == rest;
  }

  lemma {:induction false} ParseRecordsOfEncoding(es: seq<Entry>)
    requires AllFit(es)
    ensures ParseRecords(RecordsBytes(es)) == Ok(es)
    decreases |es|
  {
    if es != [] {
      var e, tail := es[0], es[1..];
      assert es == [e] + tail;
      RecordsBytesCons(e, tail);
      ParseFirstRecord(e, RecordsBytes(tail));
      ParseRecordsOfEncoding(tail);
    }
  }

  /** Decoding what `close` produced gives back exactly the added entries,
      in order. */
  lemma BlockRoundTrip(es: seq<Entry>)
    requires AllFit(es)
    ensures ParseRecords(ExclTrailer(EncodeBlock(es))) == Ok(es)
  {
    var enc := EncodeBlock(es);
    assert ExclTrailer(enc) == RecordsBytes(es);
    ParseRecordsOfEncoding(es);
  }

  // ---------------------------------------------------------------------
  // Queries on a decoded block

  /** The value of the first entry whose key is `key`: `entries.find`. */
  function Find(es: seq<Entry>, key: bytes): (r: Option<bytes>)
    ensures r.None? <==> forall i :: 0 <= i < |es| ==> es[i].key != key
    ensures r.Some? ==> exists i :: 0 <= i < |es| && es[i] == Entry(key, r.value)
                                    && forall j :: 0 <= j < i ==> es[j].key != key
  {
    if es == [] then None
    else if es[0].key == key then Some(es[0].value)
    else
      var r := Find(es[1..], key);
      assert forall i :: 1 <= i < |es| ==> es[i] == es[1..][i - 1];
      if r.Some? then
        var k :| 0 <= k < |es[1..]| && es[1..][k] == Entry(key, r.value)
                 && forall j :: 0 <= j < k ==> es[1..][j].key != key;
        assert es[k + 1] == Entry(key, r.value);
        r
      else r
  }

  /** The first entry whose key is `key`, or -1: `findIndex` on the key, and
      where a map keyed by `key` holds it. */
  function FirstWithKey(es: seq<Entry>, key: bytes): (r: int)
    ensures -1 <= r < |es|
    ensures r == -1 <==> forall i :: 0 <= i < |es| ==> es[i].key != key
    ensures r >= 0 ==> es[r].key == key && forall i :: 0 <= i < r ==> es[i].key != key
  {
    if es == [] then -1
    else if es[0].key == key then 0
    else
      var r := FirstWithKey(es[1..], key);
      assert forall i :: 1 <= i < |es| ==> es[i] == es[1..][i - 1];
      if r == -1 then -1 else r + 1
  }
}

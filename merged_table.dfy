/** `MergedTable`: one view over several tables. `get` asks every table and
    takes the first answer in list order; the merge cursor repeatedly peeks
    at every source cursor and advances the one holding the smallest key. */
module MergedTable {
  import opened Bytes
  import opened Results
  import opened Block
  import opened TableCursor

  // ---------------------------------------------------------------------
  // `get`

  /** The first failure among the answers, in list order. */
  function FirstError<T>(rs: seq<Result<T>>): (r: Option<Error>)
    ensures r.None? <==> forall i :: 0 <= i < |rs| ==> rs[i].Ok?
    ensures r.Some? ==> exists i :: 0 <= i < |rs| && rs[i] == Err(r.value) && forall j :: 0 <= j < i ==> rs[j].Ok?
  {
    if rs == [] then None
    else if rs[0].Err? then Some(rs[0].error)
    else
      var r := FirstError(rs[1..]);
      assert forall i :: 1 <= i < |rs| ==> rs[i] == rs[1..][i - 1];
      if r.Some? then
        var k :| 0 <= k < |rs[1..]| && rs[1..][k] == Err(r.value) && forall j :: 0 <= j < k ==> rs[1..][j].Ok?;
        assert rs[k + 1] == Err(r.value);
        r
      else r
  }

  /** `results.find((r) => r !== undefined)` over answers that all arrived. */
  function FirstFound(rs: seq<Result<Option<bytes>>>): (r: Option<bytes>)
    requires forall i :: 0 <= i < |rs| ==> rs[i].Ok?
    ensures r.None? <==> forall i :: 0 <= i < |rs| ==> rs[i] == Ok(None)
    ensures r.Some? ==> exists i :: 0 <= i < |rs| && rs[i] == Ok(r) && forall j :: 0 <= j < i ==> rs[j] == Ok(None)
  {
    if rs == [] then None
    else if rs[0].value.Some? then rs[0].value
    else
      var r := FirstFound(rs[1..]);
      assert forall i :: 1 <= i < |rs| ==> rs[i] == rs[1..][i - 1];
      if r.Some? then
        var k :| 0 <= k < |rs[1..]| && rs[1..][k] == Ok(r) && forall j :: 0 <= j < k ==> rs[1..][j] == Ok(None);
        assert rs[k + 1] == Ok(r);
        r
      else r
  }

  /** `get`, given what each table's `get` answered: a failing table makes
      the whole call fail (`Promise.all` rejects); otherwise the first
      table, in list order, that holds the key gives the value. */
  function MergedGet(rs: seq<Result<Option<bytes>>>): Result<Option<bytes>>
  {
    var e := FirstError(rs);
    if e.Some? then Err(e.value) else Ok(FirstFound(rs))
  }

  /** The earliest table holding the key wins, even when later tables hold
      other values for it; no table holding the key means no value. */
  lemma MergedGetPriority(rs: seq<Result<Option<bytes>>>, i: nat, v: bytes)
    requires forall j :: 0 <= j < |rs| ==> rs[j].Ok?
    requires i < |rs| && rs[i] == Ok(Some(v)) && forall j :: 0 <= j < i ==> rs[j] == Ok(None)
    ensures MergedGet(rs) == Ok(Some(v))
  {
    var r := FirstFound(rs);
    var k :| 0 <= k < |rs| && rs[k] == Ok(r) && forall j :: 0 <= j < k ==> rs[j] == Ok(None);
    assert k == i;
  }

  // ---------------------------------------------------------------------
  // `nextCursorIndex`

  /** `peeks.filter((val) => val !== undefined)`. */
  function Present(peeks: seq<Option<Entry>>): (r: seq<Entry>)
    ensures |r| <= |peeks|
  {
    if peeks == [] then []
    else (if peeks[0].Some? then [peeks[0].value] else []) + Present(peeks[1..])
  }

  lemma {:induction false} PresentEmpty(peeks: seq<Option<Entry>>)
    ensures Present(peeks) == [] <==> forall i :: 0 <= i < |peeks| ==> peeks[i].None?
  {
    if peeks != [] {
      PresentEmpty(peeks[1..]);
      assert forall i :: 1 <= i < |peeks| ==> peeks[i] == peeks[1..][i - 1];
    }
  }

  /** With every source pending nothing is filtered out. */
  lemma {:induction false} PresentAll(peeks: seq<Option<Entry>>)
    requires forall i :: 0 <= i < |peeks| ==> peeks[i].Some?
    ensures |Present(peeks)| == |peeks| && forall i :: 0 <= i < |peeks| ==> Present(peeks)[i] == peeks[i].value
  {
    if peeks != [] {
      assert forall i :: 1 <= i < |peeks| ==> peeks[i] == peeks[1..][i - 1];
      PresentAll(peeks[1..]);
    }
  }

  /** `sortedKeys[0]`: the first of the keys sorted by `Buffer.compare`,
      which is the smallest. */
  function MinKey(keys: seq<bytes>): bytes
    requires keys != []
  {
    if |keys| == 1 then keys[0]
    else
      var m := MinKey(keys[1..]);
      if Compare(keys[0], m) <= 0 then keys[0] else m
  }

  lemma {:induction false} MinKeyIsMin(keys: seq<bytes>)
    requires keys != []
    ensures MinKey(keys) in keys
    ensures forall k :: k in keys ==> LessEq(MinKey(keys), k)
  {
    if |keys| > 1 {
      var tail := keys[1..];
      MinKeyIsMin(tail);
      var m := MinKey(tail);
      assert forall k :: k in keys ==> k == keys[0] || k in tail;
      if Compare(keys[0], m) <= 0 {
        forall k | k in tail ensures LessEq(keys[0], k) {
          LessEqTransitive(keys[0], m, k);
        }
      } else {
        LessTotal(keys[0], m);
      }
    }
  }

  /** `nextCursorIndex` over the peeked values: -1 when nothing is pending,
      otherwise an index into the FILTERED list (not the list of sources)
      at the first entry holding the smallest key. */
  function MinIndex(peeks: seq<Option<Entry>>): (r: int)
    ensures -1 <= r < |Present(peeks)| <= |peeks|
  {
    var present := Present(peeks);
    if present == [] then -1 else FirstWithKey(present, MinKey(KeysOf(present)))
  }

  /** -1 exactly when nothing is pending; otherwise the first pending entry
      holding the smallest key, counted among the pending ones only (so the
      source assertion `minIndex !== -1` never fires). */
  lemma MinIndexSpec(peeks: seq<Option<Entry>>)
    ensures -1 <= MinIndex(peeks) < |Present(peeks)|
    ensures MinIndex(peeks) == -1 <==> forall i :: 0 <= i < |peeks| ==> peeks[i].None?
    ensures MinIndex(peeks) >= 0 ==>
              var p, r := Present(peeks), MinIndex(peeks);
              && (forall j :: 0 <= j < |p| ==> LessEq(p[r].key, p[j].key))
              && (forall j :: 0 <= j < r ==> p[j].key != p[r].key)
  {
    PresentEmpty(peeks);
    var p := Present(peeks);
    if p != [] {
      var keys := KeysOf(p);
      MinKeyIsMin(keys);
      var m := MinKey(keys);
      assert exists i :: 0 <= i < |p| && p[i].key == m;
      forall j | 0 <= j < |p| ensures LessEq(m, p[j].key) {
        assert keys[j] in keys;
      }
    }
  }

  // ---------------------------------------------------------------------
  // The merge cursor as a function of its sources

  /** `Promise.all(this._cursors.map((c) => c.peek()))`: every source is
      peeked (which can move it on to its next block). */
  function PeekAll(sources: seq<Cursor>): (r: (seq<Result<Option<Entry>>>, seq<Cursor>))
    ensures |r.0| == |sources| && |r.1| == |sources|
  {
    (seq(|sources|, i requires 0 <= i < |sources| => PeekStep(sources[i]).0),
     seq(|sources|, i requires 0 <= i < |sources| => PeekStep(sources[i]).1))
  }

  function Values(rs: seq<Result<Option<Entry>>>): (r: seq<Option<Entry>>)
    requires forall i :: 0 <= i < |rs| ==> rs[i].Ok?
    ensures |r| == |rs|
  {
    seq(|rs|, i requires 0 <= i < |rs| => rs[i].value)
  }

  /** `nextCursorIndex`: a failing peek makes it fail; the sources are left
      as the peeks left them. */
  function NextIndexStep(sources: seq<Cursor>): (r: (Result<int>, seq<Cursor>))
    ensures |r.1| == |sources|
    ensures r.0.Ok? ==> -1 <= r.0.value < |sources|
  {
    var (peeks, after) := PeekAll(sources);
    var e := FirstError(peeks);
    if e.Some? then (Err(e.value), after) else (Ok(MinIndex(Values(peeks))), after)
  }

  /** `next`, and equally `peek`: the source AT THE FILTERED INDEX is
      advanced with its own `next`. */
  function AdvanceStep(sources: seq<Cursor>): (Result<Option<Entry>>, seq<Cursor>)
  {
    var (idx, after) := NextIndexStep(sources);
    if idx.Err? then (Err(idx.error), after)
    else if idx.value == -1 then (Ok(None), after)
    else
      var (r, c) := NextStep(after[idx.value]);
      (r, after[idx.value := c])
  }

  /** `seek`: every source seeks the key. */
  function SeekAll(sources: seq<Cursor>, key: bytes): (r: seq<Cursor>)
    ensures |r| == |sources|
  {
    seq(|sources|, i requires 0 <= i < |sources| => SeekStep(sources[i], key))
  }

  // ---------------------------------------------------------------------
  // The merge cursor object

  class MergedCursor {
    var cursors: seq<Cursor>

    constructor (sources: seq<Cursor>)
      ensures cursors == sources
    {
      cursors := sources;
    }

    method NextCursorIndex() returns (r: Result<int>)
      modifies this
      ensures (r, cursors) == NextIndexStep(old(cursors))
    {
      var sources := cursors;
      var peeks: seq<Result<Option<Entry>>> := [];
      var after: seq<Cursor> := [];
      for i := 0 to |sources|
        invariant |peeks| == i && |after| == i
        invariant forall j :: 0 <= j < i ==> peeks[j] == PeekStep(sources[j]).0 && after[j] == PeekStep(sources[j]).1
      {
        var (p, c) := PeekStep(sources[i]);
        peeks, after := peeks + [p], after + [c];
      }
      assert peeks == PeekAll(sources).0 && after == PeekAll(sources).1;
      cursors := after;
      var e := FirstError(peeks);
      if e.Some? {
        return Err(e.value);
      }
      return Ok(MinIndex(Values(peeks)));
    }

    method Peek() returns (r: Result<Option<Entry>>)
      modifies this
      ensures (r, cursors) == AdvanceStep(old(cursors))
    {
      r := Advance();
    }

    method Next() returns (r: Result<Option<Entry>>)
      modifies this
      ensures (r, cursors) == AdvanceStep(old(cursors))
    {
      r := Advance();
    }

    /** The body `peek` and `next` share. */
    method Advance() returns (r: Result<Option<Entry>>)
      modifies this
      ensures (r, cursors) == AdvanceStep(old(cursors))
    {
      var nextIndex := NextCursorIndex();
      if nextIndex.Err? {
        return Err(nextIndex.error);
      }
      if nextIndex.value == -1 {
        return Ok(None);
      }
      var (out, c) := NextStep(cursors[nextIndex.value]);
      cursors := cursors[nextIndex.value := c];
      return out;
    }

    method Seek(key: bytes)
      modifies this
      ensures cursors == SeekAll(old(cursors), key)
    {
      cursors := SeekAll(cursors, key);
    }
  }

  // ---------------------------------------------------------------------
  // What the merge cursor does

  /** A source whose peek is an entry. */
  predicate Pending(c: Cursor)
  {
    PeekStep(c).0.Ok? && PeekStep(c).0.value.Some?
  }

  /** The entry each pending source's peek shows. */
  function Heads(sources: seq<Cursor>): (r: seq<Entry>)
    requires forall i :: 0 <= i < |sources| ==> Pending(sources[i])
    ensures |r| == |sources|
  {
    seq(|sources|, i requires 0 <= i < |sources| => assert Pending(sources[i]); PeekStep(sources[i]).0.value.value)
  }

  function Somes(h: seq<Entry>): (r: seq<Option<Entry>>)
    ensures |r| == |h|
  {
    seq(|h|, i requires 0 <= i < |h| => Some(h[i]))
  }

  lemma PresentSomes(h: seq<Entry>)
    ensures Present(Somes(h)) == h
  {
    PresentAll(Somes(h));
  }

  /** With every source pending, the index is computed over all the heads. */
  lemma NextIndexAllPending(sources: seq<Cursor>)
    requires forall i :: 0 <= i < |sources| ==> Pending(sources[i])
    ensures NextIndexStep(sources) == (Ok(MinIndex(Somes(Heads(sources)))), PeekAll(sources).1)
  {
    var rs := PeekAll(sources).0;
    var h := Heads(sources);
    assert forall i :: 0 <= i < |rs| ==> rs[i] == Ok(Some(h[i]));
    assert Values(rs) == Somes(h);
  }

  /** `r` holds the smallest key of `h`, and no earlier entry holds it. */
  predicate PicksMin(h: seq<Entry>, r: nat)
    requires r < |h|
  {
    && (forall j :: 0 <= j < |h| ==> LessEq(h[r].key, h[j].key))
    && (forall j :: 0 <= j < r ==> h[j].key != h[r].key)
  }

  /** When no source is exhausted, `next` returns the smallest pending key,
      the lowest source winning ties, and advances exactly that source. */
  lemma AdvanceAllPending(sources: seq<Cursor>)
    requires forall i :: 0 <= i < |sources| ==> Pending(sources[i])
    requires sources != []
    ensures var r := MinIndex(Somes(Heads(sources)));
            && 0 <= r < |sources|
            && PicksMin(Heads(sources), r)
            && AdvanceStep(sources)
               == (Ok(Some(Heads(sources)[r])),
                   PeekAll(sources).1[r := PeekAll(sources).1[r].(offset := PeekAll(sources).1[r].offset + 1)])
  {
    WinnerMin(sources);
    AdvanceWinner(sources);
  }

  /** With every source pending, the index is a real source holding the
      smallest key. */
  lemma WinnerMin(sources: seq<Cursor>)
    requires forall i :: 0 <= i < |sources| ==> Pending(sources[i])
    requires sources != []
    ensures var r := MinIndex(Somes(Heads(sources)));
            0 <= r < |sources| && PicksMin(Heads(sources), r)
  {
    var h := Heads(sources);
    PresentSomes(h);
    MinIndexSpec(Somes(h));
    var r := MinIndex(Somes(h));
    assert PicksMin(h, r);
  }

  /** ... and `next` returns its head and advances it. */
  lemma AdvanceWinner(sources: seq<Cursor>)
    requires forall i :: 0 <= i < |sources| ==> Pending(sources[i])
    requires sources != []
    ensures var r := MinIndex(Somes(Heads(sources)));
            && 0 <= r < |sources|
            && AdvanceStep(sources)
               == (Ok(Some(Heads(sources)[r])),
                   PeekAll(sources).1[r := PeekAll(sources).1[r].(offset := PeekAll(sources).1[r].offset + 1)])
  {
    var h := Heads(sources);
    var r := MinIndex(Somes(h));
    WinnerPending(sources);
    var p := PeekAll(sources).1;
    AdvancePendingAt(sources, r, h[r]);
    assert AdvanceStep(sources) == (Ok(Some(h[r])), p[r := p[r].(offset := p[r].offset + 1)]);
  }

  /** The index `nextCursorIndex` computes over pending sources. */
  lemma WinnerPending(sources: seq<Cursor>)
    requires forall i :: 0 <= i < |sources| ==> Pending(sources[i])
    requires sources != []
    ensures var h, r := Heads(sources), MinIndex(Somes(Heads(sources)));
            && 0 <= r < |sources|
            && PicksMin(h, r)
            && NextIndexStep(sources).0 == Ok(r)
            && PeekStep(sources[r]).0 == Ok(Some(h[r]))
  {
    NextIndexAllPending(sources);
    WinnerMin(sources);
  }

  /** `next` when the index names a source whose peek is `e`. */
  lemma AdvancePendingAt(sources: seq<Cursor>, r: nat, e: Entry)
    requires r < |sources| && NextIndexStep(sources).0 == Ok(r) && PeekStep(sources[r]).0 == Ok(Some(e))
    ensures AdvanceStep(sources)
            == (Ok(Some(e)), PeekAll(sources).1[r := PeekAll(sources).1[r].(offset := PeekAll(sources).1[r].offset + 1)])
  {
    AdvanceAt(sources, r);
    PeekThenNext(sources[r], e);
    assert PeekAll(sources).1[r] == PeekStep(sources[r]).1;
  }

  /** `next` once the index is known. */
  lemma AdvanceAt(sources: seq<Cursor>, r: nat)
    requires r < |sources| && NextIndexStep(sources).0 == Ok(r)
    ensures AdvanceStep(sources) == (NextStep(PeekAll(sources).1[r]).0, PeekAll(sources).1[r := NextStep(PeekAll(sources).1[r]).1])
  {
  }

  /** With nothing pending anywhere (and no failing peek) `next` returns
      nothing. */
  lemma AdvanceNonePending(sources: seq<Cursor>)
    requires forall i :: 0 <= i < |sources| ==> PeekStep(sources[i]).0 == Ok(None)
    ensures AdvanceStep(sources) == (Ok(None), PeekAll(sources).1)
  {
    var peeks := Values(PeekAll(sources).0);
    assert forall i :: 0 <= i < |peeks| ==> peeks[i] == None;
    MinIndexSpec(peeks);
  }

  /** A failing peek makes `next` fail. */
  lemma AdvanceFails(sources: seq<Cursor>, i: nat)
    requires i < |sources| && PeekStep(sources[i]).0.Err?
    ensures AdvanceStep(sources).0.Err?
  {
    assert PeekAll(sources).0[i].Err?;
  }

  /** The filtered index picks the wrong source: with the first source
      exhausted and the second holding an entry, `next` advances the first
      and returns nothing, although an entry is pending. */
  lemma FilteredIndexQuirk()
    ensures var e := Entry([2], [20]);
            var done := Cursor([BlockRef([1], [Entry([1], [10])])], 1, Some([Entry([1], [10])]), 0);
            var sources := [done, Start([BlockRef([2], [e])])];
            && PeekStep(sources[1]).0 == Ok(Some(e))
            && AdvanceStep(sources).0 == Ok(None)
  {
    var e := Entry([2], [20]);
    var done := Cursor([BlockRef([1], [Entry([1], [10])])], 1, Some([Entry([1], [10])]), 0);
    var sources := [done, Start([BlockRef([2], [e])])];
    var peeks := Values(PeekAll(sources).0);
    assert peeks == [None, Some(e)];
    assert Present(peeks) == [e] by {
      assert Present(peeks[1..]) == [e] + Present(peeks[2..]);
    }
    assert KeysOf([e]) == [[2]];
  }

  /** A fresh cursor over one non-empty block peeks at its first entry and
      loads the block. */
  lemma PeekSingleBlock(k: bytes, es: seq<Entry>)
    requires es != []
    ensures PeekStep(Start([BlockRef(k, es)])) == (Ok(Some(es[0])), Cursor([BlockRef(k, es)], 0, Some(es), 0))
  {
  }

  /** Duplicate keys are not merged away: two sources holding the same key
      both deliver it, the first source first ... */
  lemma DuplicatesFirst()
    ensures var a, b, z := Entry([1], [10]), Entry([1], [20]), Entry([2], [11]);
            AdvanceStep([Start([BlockRef([1], [a, z])]), Start([BlockRef([1], [b])])])
            == (Ok(Some(a)), [Cursor([BlockRef([1], [a, z])], 0, Some([a, z]), 1), Cursor([BlockRef([1], [b])], 0, Some([b]), 0)])
  {
    var a, b, z := Entry([1], [10]), Entry([1], [20]), Entry([2], [11]);
    var s0 := [Start([BlockRef([1], [a, z])]), Start([BlockRef([1], [b])])];
    PeekSingleBlock([1], [a, z]);
    PeekSingleBlock([1], [b]);
    WinnerPending(s0);
    var h := Heads(s0);
    assert h == [a, b];
    var r := MinIndex(Somes(h));
    assert PicksMin(h, r);
    assert r == 0;
    AdvancePendingAt(s0, 0, a);
    var after := PeekAll(s0).1;
    assert after == [Cursor([BlockRef([1], [a, z])], 0, Some([a, z]), 0), Cursor([BlockRef([1], [b])], 0, Some([b]), 0)];
    assert after[0 := after[0].(offset := after[0].offset + 1)]
           == [Cursor([BlockRef([1], [a, z])], 0, Some([a, z]), 1), Cursor([BlockRef([1], [b])], 0, Some([b]), 0)];
  }

  /** ... and then the second. */
  lemma DuplicatesSecond()
    ensures var a, b, z := Entry([1], [10]), Entry([1], [20]), Entry([2], [11]);
            AdvanceStep([Cursor([BlockRef([1], [a, z])], 0, Some([a, z]), 1), Cursor([BlockRef([1], [b])], 0, Some([b]), 0)]).0
            == Ok(Some(b))
  {
    var a, b, z := Entry([1], [10]), Entry([1], [20]), Entry([2], [11]);
    var t := [Cursor([BlockRef([1], [a, z])], 0, Some([a, z]), 1), Cursor([BlockRef([1], [b])], 0, Some([b]), 0)];
    assert PeekStep(t[0]) == (Ok(Some(z)), t[0]);
    assert PeekStep(t[1]) == (Ok(Some(b)), t[1]);
    WinnerPending(t);
    var h := Heads(t);
    assert h == [z, b];
    var r := MinIndex(Somes(h));
    assert PicksMin(h, r);
    assert !LessEq(h[0].key, h[1].key);
    assert !PicksMin(h, 0);
    AdvancePendingAt(t, 1, b);
  }
}

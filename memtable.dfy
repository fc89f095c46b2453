/** `Memtable`: the in-memory write buffer. It maps each key to the value
    last put for it (a JavaScript `Map`, which keeps keys in first-insertion
    order), keeps a running count of key and value bytes, and saves itself
    as a table with the entries sorted by key. */
module Memtable {
  import opened Bytes
  import opened Results
  import opened Block
  import opened TableFormat
  import opened TableBuilder
  import opened Seqs

  // ---------------------------------------------------------------------
  // The map as a sequence of entries in insertion order

  /** No key occurs twice. */
  predicate DistinctKeys(es: seq<Entry>)
  {
    forall i, j :: 0 <= i < j < |es| ==> es[i].key != es[j].key
  }

  /** The keys the map holds. */
  function KeySet(es: seq<Entry>): set<bytes>
  {
    set i | 0 <= i < |es| :: es[i].key
  }

  /** Bytes of one entry as `byteLength` counts them. */
  function EntryBytes(e: Entry): nat
  {
    |e.key| + |e.value|
  }

  /** All key and value bytes held. */
  function Total(es: seq<Entry>): nat
  {
    if es == [] then 0 else Total(es[..|es| - 1]) + EntryBytes(es[|es| - 1])
  }

  /** `Map.set`: a key already held keeps its place and takes the new
      value; a new key goes at the end. */
  function Upsert(es: seq<Entry>, key: bytes, value: bytes): seq<Entry>
  {
    var p := FirstWithKey(es, key);
    if p == -1 then es + [Entry(key, value)] else es[p := Entry(key, value)]
  }

  lemma {:induction false} FindAppend(es: seq<Entry>, e: Entry, k: bytes)
    requires e.key != k
    ensures Find(es + [e], k) == Find(es, k)
  {
    if es != [] {
      assert (es + [e])[1..] == es[1..] + [e];
      FindAppend(es[1..], e, k);
    }
  }

  lemma {:induction false} FindUpdate(es: seq<Entry>, p: nat, e: Entry, k: bytes)
    requires p < |es| && es[p].key != k && e.key != k
    ensures Find(es[p := e], k) == Find(es, k)
  {
    if p == 0 {
      assert es[p := e][1..] == es[1..];
    } else {
      assert es[p := e][1..] == es[1..][p - 1 := e];
      FindUpdate(es[1..], p - 1, e, k);
    }
  }

  lemma {:induction false} FindFirst(es: seq<Entry>, p: nat, e: Entry)
    requires p < |es| && es[p] == e && forall i :: 0 <= i < p ==> es[i].key != e.key
    ensures Find(es, e.key) == Some(e.value)
  {
    if p > 0 {
      assert forall i :: 0 <= i < p - 1 ==> es[1..][i] == es[i + 1];
      FindFirst(es[1..], p - 1, e);
    }
  }

  /** After `put(key, value)`, `get(key)` is `value`. */
  lemma UpsertGetSame(es: seq<Entry>, key: bytes, value: bytes)
    ensures Find(Upsert(es, key, value), key) == Some(value)
  {
    var p := FirstWithKey(es, key);
    var r := Upsert(es, key, value);
    if p == -1 {
      FindFirst(r, |es|, Entry(key, value));
    } else {
      FindFirst(r, p, Entry(key, value));
    }
  }

  /** `put(key, value)` leaves every other key's value as it was. */
  lemma UpsertGetOther(es: seq<Entry>, key: bytes, value: bytes, k: bytes)
    requires k != key
    ensures Find(Upsert(es, key, value), k) == Find(es, k)
  {
    var p := FirstWithKey(es, key);
    if p == -1 {
      FindAppend(es, Entry(key, value), k);
    } else {
      FindUpdate(es, p, Entry(key, value), k);
    }
  }

  /** The keys held after `put` are the old ones and `key`; the count goes
      up by one exactly when the key is new. */
  lemma UpsertKeys(es: seq<Entry>, key: bytes, value: bytes)
    requires DistinctKeys(es)
    ensures DistinctKeys(Upsert(es, key, value))
    ensures KeySet(Upsert(es, key, value)) == KeySet(es) + {key}
    ensures |Upsert(es, key, value)| == |es| + (if key in KeySet(es) then 0 else 1)
  {
    var p := FirstWithKey(es, key);
    var r := Upsert(es, key, value);
    if p == -1 {
      assert forall i :: 0 <= i < |es| ==> r[i] == es[i];
      assert r[|es|].key == key;
    } else {
      assert forall i :: 0 <= i < |es| && i != p ==> r[i] == es[i];
      assert r[p].key == key;
    }
  }

  lemma {:induction false} TotalUpdate(es: seq<Entry>, p: nat, e: Entry)
    requires p < |es|
    ensures Total(es[p := e]) + EntryBytes(es[p]) == Total(es) + EntryBytes(e)
  {
    var r := es[p := e];
    if p == |es| - 1 {
      assert r[..|r| - 1] == es[..|es| - 1];
    } else {
      assert r[..|r| - 1] == es[..|es| - 1][p := e];
      TotalUpdate(es[..|es| - 1], p, e);
    }
  }

  /** The count `put` keeps: the old entry's bytes out, the new one's in. */
  lemma UpsertTotal(es: seq<Entry>, key: bytes, value: bytes)
    ensures Total(Upsert(es, key, value))
            == Total(es) - (if Find(es, key).Some? then |key| + |Find(es, key).value| else 0) + |key| + |value|
  {
    var p := FirstWithKey(es, key);
    if p == -1 {
      assert (es + [Entry(key, value)])[..|es|] == es;
    } else {
      FindFirst(es, p, es[p]);
      TotalUpdate(es, p, Entry(key, value));
    }
  }

  /** With distinct keys there are as many keys as entries. */
  lemma {:induction false} DistinctCount(es: seq<Entry>)
    requires DistinctKeys(es)
    ensures |KeySet(es)| == |es|
  {
    if es != [] {
      var init := es[..|es| - 1];
      DistinctCount(init);
      assert KeySet(es) == KeySet(init) + {es[|es| - 1].key};
      assert es[|es| - 1].key !in KeySet(init);
    }
  }

  // ---------------------------------------------------------------------
  // Sorting for `save`

  /** `a` before `b` in the order `save` sorts by. */
  predicate Ascending(es: seq<Entry>)
  {
    forall i, j :: 0 <= i < j < |es| ==> Less(es[i].key, es[j].key)
  }

  function Insert(e: Entry, s: seq<Entry>): seq<Entry>
  {
    if s == [] || Less(e.key, s[0].key) then [e] + s else [s[0]] + Insert(e, s[1..])
  }

  /** `entries.sort((a, b) => (a[0] < b[0] ? -1 : 1))`. The comparator never
      answers "equal", which is harmless because the keys are distinct; any
      sorting algorithm then yields the same sequence. */
  function SortByKey(es: seq<Entry>): seq<Entry>
  {
    if es == [] then [] else Insert(es[0], SortByKey(es[1..]))
  }

  /** Every entry after the first of an ascending sequence has a larger key. */
  lemma HeadBelow(s: seq<Entry>)
    requires Ascending(s) && s != []
    ensures forall y :: y in s[1..] ==> Less(s[0].key, y.key)
  {
    forall y | y in s[1..] ensures Less(s[0].key, y.key) {
      var k :| 0 <= k < |s[1..]| && s[1..][k] == y;
      assert s[k + 1] == y;
    }
  }

  /** An entry below everything in an ascending sequence can go in front. */
  lemma ConsAscending(x: Entry, s: seq<Entry>)
    requires Ascending(s) && forall y :: y in s ==> Less(x.key, y.key)
    ensures Ascending([x] + s)
  {
    var r := [x] + s;
    forall i, j | 0 <= i < j < |r| ensures Less(r[i].key, r[j].key) {
      if i == 0 {
        assert r[j] == s[j - 1] && s[j - 1] in s;
      } else {
        assert r[i] == s[i - 1] && r[j] == s[j - 1];
      }
    }
  }

  lemma {:induction false} InsertSorted(e: Entry, s: seq<Entry>)
    requires Ascending(s) && forall x :: x in s ==> x.key != e.key
    ensures multiset(Insert(e, s)) == multiset(s) + multiset{e}
    ensures Ascending(Insert(e, s))
    decreases |s|, 1
  {
    if s == [] {
    } else if Less(e.key, s[0].key) {
      HeadBelow(s);
      assert s == [s[0]] + s[1..];
      forall y | y in s ensures Less(e.key, y.key) {
        if y != s[0] {
          LessTransitive(e.key, s[0].key, y.key);
        }
      }
      ConsAscending(e, s);
    } else {
      var t := s[1..];
      assert s == [s[0]] + t;
      HeadBelow(s);
      InsertAfterHead(e, s);
    }
  }

  /** The second case of `Insert`: the head stays in front. */
  lemma {:induction false} InsertAfterHead(e: Entry, s: seq<Entry>)
    requires Ascending(s) && s != [] && forall x :: x in s ==> x.key != e.key
    requires !Less(e.key, s[0].key)
    requires s == [s[0]] + s[1..] && forall y :: y in s[1..] ==> Less(s[0].key, y.key)
    ensures multiset(Insert(e, s)) == multiset(s) + multiset{e}
    ensures Ascending(Insert(e, s))
    decreases |s|, 0
  {
    var t := s[1..];
    assert Ascending(t) by {
      forall i, j | 0 <= i < j < |t| ensures Less(t[i].key, t[j].key) {
        assert t[i] == s[i + 1] && t[j] == s[j + 1];
      }
    }
    assert forall x :: x in t ==> x in s;
    assert s[0] in s;
    InsertSorted(e, t);
    LessTotal(e.key, s[0].key);
    var it := Insert(e, t);
    forall y | y in it ensures Less(s[0].key, y.key) {
      assert y in multiset(it);
    }
    ConsAscending(s[0], it);
  }

  /** The keys after the first of a sequence with distinct keys are distinct
      and differ from the first. */
  lemma DistinctTail(es: seq<Entry>)
    requires DistinctKeys(es) && es != []
    ensures DistinctKeys(es[1..])
    ensures forall x :: x in multiset(es[1..]) ==> x.key != es[0].key
  {
    var t := es[1..];
    assert forall i :: 0 <= i < |t| ==> t[i] == es[i + 1];
    forall x | x in multiset(t) ensures x.key != es[0].key {
      var k :| 0 <= k < |t| && t[k] == x;
    }
  }

  /** The sort is a permutation, and with distinct keys its result is in
      strictly ascending key order. */
  lemma {:induction false} SortByKeySorted(es: seq<Entry>)
    requires DistinctKeys(es)
    ensures multiset(SortByKey(es)) == multiset(es)
    ensures Ascending(SortByKey(es))
  {
    if es != [] {
      DistinctTail(es);
      SortByKeySorted(es[1..]);
      InsertIntoSorted(es[0], es[1..], SortByKey(es[1..]));
      assert es == [es[0]] + es[1..];
    }
  }

  /** Inserting an entry into a sorted permutation of `t` whose keys all differ
      from the entry's gives a sorted permutation of `[e] + t`. */
  lemma InsertIntoSorted(e: Entry, t: seq<Entry>, st: seq<Entry>)
    requires multiset(st) == multiset(t) && Ascending(st)
    requires forall x :: x in multiset(t) ==> x.key != e.key
    ensures multiset(Insert(e, st)) == multiset([e] + t)
    ensures Ascending(Insert(e, st))
  {
    forall x | x in st ensures x.key != e.key {
      assert x in multiset(st);
    }
    InsertSorted(e, st);
    assert multiset([e] + t) == multiset{e} + multiset(t);
  }

  lemma AscendingKeys(es: seq<Entry>)
    requires Ascending(es)
    ensures StrictlyIncreasing(KeysOf(es)) && NonDecreasing(KeysOf(es))
  {
  }

  lemma PermutationFits(a: seq<Entry>, b: seq<Entry>)
    requires multiset(a) == multiset(b) && AllFit(b)
    ensures AllFit(a)
  {
    forall i | 0 <= i < |a| ensures Fits(a[i]) {
      assert a[i] in multiset(b);
      var k :| 0 <= k < |b| && b[k] == a[i];
    }
  }

  // ---------------------------------------------------------------------
  // What `save` writes

  /** `save`: the sorted entries added to a fresh table builder one by one,
      stopping at the first error, then `close`. */
  function SaveFile(es: seq<Entry>): Result<bytes>
  {
    FreshCoherent();
    var run := Run(Fresh, SortByKey(es));
    if run.0.Err? then Err(run.0.error) else CloseFile(run.1)
  }

  lemma {:induction false} AddStepOkFits(w: Writer, key: bytes, value: bytes)
    requires Writable(w)
    ensures AddStep(w, key, value).0.Ok? ==> Fits(Entry(key, value))
  {
  }

  /** A run of adds that succeeds has added only entries that fit. */
  lemma {:induction false} RunOkFitsAt(w: Writer, es: seq<Entry>, i: nat)
    requires Writable(w) && i < |es| && Run(w, es).0.Ok?
    ensures Fits(es[i])
    decreases |es|, 1
  {
    if i < |es| - 1 {
      RunOkFitsInit(w, es, i);
    } else {
      RunOkFitsLast(w, es);
    }
  }

  /** An entry before the last of a run that succeeds fits. */
  lemma {:induction false} RunOkFitsInit(w: Writer, es: seq<Entry>, i: nat)
    requires Writable(w) && i < |es| - 1 && Run(w, es).0.Ok?
    ensures Fits(es[i])
    decreases |es|, 0
  {
    var init := es[..|es| - 1];
    RunOkLast(w, es);
    RunOkFitsAt(w, init, i);
    assert es[i] == init[i];
  }

  /** The last add of a run that succeeds added an entry that fits. */
  lemma {:induction false} RunOkFitsLast(w: Writer, es: seq<Entry>)
    requires Writable(w) && es != [] && Run(w, es).0.Ok?
    ensures Fits(es[|es| - 1])
  {
    var e := es[|es| - 1];
    RunOkLast(w, es);
    AddStepOkFits(Run(w, es[..|es| - 1]).1, e.key, e.value);
  }

  /** A run that succeeds succeeded up to its last add, and that add
      succeeded. */
  lemma {:induction false} RunOkLast(w: Writer, es: seq<Entry>)
    requires Writable(w) && es != [] && Run(w, es).0.Ok?
    ensures var prior := Run(w, es[..|es| - 1]);
            prior.0.Ok? && AddStep(prior.1, es[|es| - 1].key, es[|es| - 1].value).0.Ok?
  {
    RunErrFails(w, es);
    RunLast(w, es);
  }

  /** A run whose prefix failed has failed. */
  lemma {:induction false} RunErrFails(w: Writer, es: seq<Entry>)
    requires Writable(w) && es != []
    ensures Run(w, es[..|es| - 1]).0.Err? ==> Run(w, es).0.Err?
  {
  }

  lemma {:induction false} RunOkFits(w: Writer, es: seq<Entry>)
    requires Writable(w)
    ensures Run(w, es).0.Ok? ==> AllFit(es)
  {
    if Run(w, es).0.Ok? {
      forall i | 0 <= i < |es| ensures Fits(es[i]) {
        RunOkFitsAt(w, es, i);
      }
    }
  }

  /** Once a run of adds has failed, later adds are not attempted. */
  lemma {:induction false} RunStops(w: Writer, es: seq<Entry>, k: nat)
    requires Writable(w) && k <= |es| && Run(w, es[..k]).0.Err?
    ensures Run(w, es) == Run(w, es[..k])
    decreases |es| - k
  {
    if k < |es| {
      PrefixInit(es, k);
      RunStops(w, es, k + 1);
    } else {
      PrefixAll(es);
    }
  }

  /** Saving a memtable whose entries fit writes the table of the packed,
      sorted entries: every entry exactly once, in strictly ascending key
      order. */
  lemma SaveWritesTable(es: seq<Entry>)
    requires DistinctKeys(es) && AllFit(es) && es != []
    ensures var sorted := SortByKey(es);
            && multiset(sorted) == multiset(es)
            && StrictlyIncreasing(KeysOf(sorted))
            && Flatten(Emitted(Pack(sorted))) == sorted
            && BlocksFit(Emitted(Pack(sorted)))
            && (forall i :: 0 <= i < |Emitted(Pack(sorted))| ==> Emitted(Pack(sorted))[i] != [])
            && SaveFile(es) == TableFile(Emitted(Pack(sorted)))
  {
    var sorted := SortByKey(es);
    SortByKeySorted(es);
    AscendingKeys(sorted);
    PermutationFits(sorted, es);
    assert sorted != [] by {
      assert es[0] in multiset(es);
    }
    FreshCoherent();
    RunLayout(sorted);
    RunFile(sorted);
    PackProperties(sorted);
    EmittedFlatten(Pack(sorted));
  }

  /** Saving an empty memtable fails: the builder never opened its file. */
  lemma SaveEmpty()
    ensures SaveFile([]) == Err(NoHandle)
  {
    FreshCoherent();
  }

  /** A save that succeeds held only entries that fit the length fields. */
  lemma SaveNeedsFit(es: seq<Entry>)
    requires DistinctKeys(es)
    ensures SaveFile(es).Ok? ==> AllFit(es)
  {
    SortByKeySorted(es);
    FreshCoherent();
    RunOkFits(Fresh, SortByKey(es));
    if AllFit(SortByKey(es)) {
      PermutationFits(es, SortByKey(es));
    }
  }

  // ---------------------------------------------------------------------
  // The memtable object

  class Memtable {
    /** The map's entries in insertion order. */
    var entries: seq<Entry>
    var byteLength: int

    ghost predicate Valid()
      reads this
    {
      DistinctKeys(entries) && byteLength == Total(entries)
    }

    constructor ()
      ensures Valid() && entries == []
    {
      entries, byteLength := [], 0;
    }

    /** `byteLength`: the key and value bytes held. */
    function ByteLength(): (r: nat)
      reads this
      requires Valid()
      ensures r == Total(entries)
    {
      byteLength
    }

    /** `size`: the number of keys held. */
    function Size(): (r: nat)
      reads this
      requires Valid()
      ensures r == |KeySet(entries)|
    {
      DistinctCount(entries);
      |entries|
    }

    /** `get`. */
    function Get(key: bytes): (r: Option<bytes>)
      reads this
      ensures r.None? <==> key !in KeySet(entries)
      ensures r.Some? ==> Entry(key, r.value) in entries
    {
      var r := Find(entries, key);
      assert r.None? ==> key !in KeySet(entries);
      r
    }

    /** `put`: the old entry's bytes, if the key was held, come off the
        count, the map is set, and the new key and value bytes are added. */
    method Put(key: bytes, value: bytes)
      requires Valid()
      modifies this
      ensures Valid()
      ensures entries == Upsert(old(entries), key, value)
    {
      var held := Find(entries, key);
      if held.Some? {
        byteLength := byteLength - (|key| + |held.value|);
      }
      UpsertTotal(entries, key, value);
      UpsertKeys(entries, key, value);
      entries := Upsert(entries, key, value);
      byteLength := byteLength + |key| + |value|;
    }

    /** `save`: the file's bytes (the path is not modelled), or the first
        error a builder call reports. */
    method Save() returns (r: Result<bytes>)
      requires Valid()
      ensures r == SaveFile(entries)
    {
      var sorted := SortByKey(entries);
      var tb := new TableBuilder();
      FreshCoherent();
      var added := AddAll(tb, sorted);
      if added.Err? {
        return Err(added.error);
      }
      var closed := tb.Close();
      if closed.Err? {
        return Err(closed.error);
      }
      return Ok(tb.file);
    }
  }

  /** One more add after a successful run of adds. */
  lemma {:induction false} RunAppend(w: Writer, init: seq<Entry>, e: Entry)
    requires Writable(w) && Run(w, init).0.Ok?
    ensures Run(w, init + [e]) == AddStep(Run(w, init).1, e.key, e.value)
  {
    SnocInit(init, e);
    RunLast(w, init + [e]);
  }

  lemma {:induction false} RunLast(w: Writer, es: seq<Entry>)
    requires Writable(w) && es != [] && Run(w, es[..|es| - 1]).0.Ok?
    ensures Run(w, es) == AddStep(Run(w, es[..|es| - 1]).1, es[|es| - 1].key, es[|es| - 1].value)
  {
  }

  /** One pass of the loop of `save`: the run grows by the add just made. */
  lemma {:induction false} RunStep(w: Writer, init: seq<Entry>, e: Entry, v: Writer, r: Result<()>, v': Writer)
    requires Writable(w) && Run(w, init) == (Ok(()), v)
    requires Writable(v) && (r, v') == AddStep(v, e.key, e.value)
    ensures Run(w, init + [e]) == (r, v')
  {
    RunAppend(w, init, e);
  }

  /** The loop of `save`: `add` for every entry in order, stopping at the
      first error. */
  method AddAll(tb: TableBuilder, es: seq<Entry>) returns (r: Result<()>)
    requires tb.Valid()
    modifies tb, tb.blockBuilder
    ensures tb.Valid()
    ensures (r, tb.Snapshot()) == Run(old(tb.Snapshot()), es)
    ensures tb.blockBuilder != null && tb.blockBuilder != old(tb.blockBuilder) ==> fresh(tb.blockBuilder)
  {
    ghost var w := tb.Snapshot();
    ghost var b := tb.blockBuilder;
    for i := 0 to |es|
      invariant tb.Valid()
      invariant tb.blockBuilder != null && tb.blockBuilder != b ==> fresh(tb.blockBuilder)
      invariant Run(w, es[..i]) == (Ok(()), tb.Snapshot())
    {
      ghost var v := tb.Snapshot();
      r := tb.Add(es[i].key, es[i].value);
      RunStep(w, es[..i], es[i], v, r, tb.Snapshot());
      PrefixSnoc(es, i);
      if r.Err? {
        RunStops(w, es, i + 1);
        return;
      }
    }
    PrefixAll(es);
    return Ok(());
  }
}

/** Bytes, fixed-width big-endian numbers and the byte-wise order that
    `Buffer.compare` implements. */
module Bytes {

  type byte = b: int | 0 <= b < 0x100

  type bytes = seq<byte>

  /** 256 to the power `width`: one more than the largest `width`-byte number. */
  function Pow256(width: nat): (r: nat)
    ensures r > 0
  {
    if width == 0 then 1 else 256 * Pow256(width - 1)
  }

  /** `n` written as `width` big-endian bytes (`writeUIntBE(n, _, width)`). */
  function BeBytes(n: nat, width: nat): (r: bytes)
    requires n < Pow256(width)
    ensures |r| == width
  {
    if width == 0 then [] else BeBytes(n / 256, width - 1) + [n % 256]
  }

  /** The number that the big-endian bytes `s` denote (`readUIntBE(_, |s|)`). */
  function BeValue(s: bytes): nat
  {
    if s == [] then 0 else BeValue(s[..|s| - 1]) * 256 + s[|s| - 1]
  }

  function U32(n: nat): (r: bytes)
    requires n < Pow256(4)
    ensures |r| == 4
  {
    BeBytes(n, 4)
  }

  function U48(n: nat): (r: bytes)
    requires n < Pow256(6)
    ensures |r| == 6
  {
    BeBytes(n, 6)
  }

  lemma {:induction false} BeValueBound(s: bytes)
    ensures BeValue(s) < Pow256(|s|)
  {
    if s != [] {
      BeValueBound(s[..|s| - 1]);
    }
  }

  /** Decoding what was encoded gives the number back. */
  lemma {:induction false} BeRoundTrip(n: nat, width: nat)
    requires n < Pow256(width)
    ensures BeValue(BeBytes(n, width)) == n
  {
    if width > 0 {
      var s := BeBytes(n, width);
      assert s[..width - 1] == BeBytes(n / 256, width - 1);
      BeRoundTrip(n / 256, width - 1);
    }
  }

  /** Encoding what was decoded gives the bytes back. */
  lemma {:induction false} BeBytesOfValue(s: bytes)
    ensures BeValue(s) < Pow256(|s|) && BeBytes(BeValue(s), |s|) == s
  {
    BeValueBound(s);
    if s != [] {
      var init := s[..|s| - 1];
      BeBytesOfValue(init);
      assert (BeValue(init) * 256 + s[|s| - 1]) / 256 == BeValue(init);
      assert s == init + [s[|s| - 1]];
    }
  }

  lemma DivUnique(n: nat, d: nat, q: nat, r: nat)
    requires d > 0 && n == d * q + r && r < d
    ensures n / d == q && n % d == r
  {
    var q0, r0 := n / d, n % d;
    if q0 < q {
      MulLeBound(d, q0, q);
      assert false;
    } else if q < q0 {
      MulLeBound(d, q, q0);
      assert false;
    }
  }

  lemma MulAssoc(a: nat, b: nat, c: nat)
    ensures a * (b * c) == (a * b) * c
  {
  }

  lemma MulLeBound(a: nat, r: nat, b: nat)
    requires r < b
    ensures a * r + a <= a * b
  {
    assert a * r + a == a * (r + 1);
  }

  lemma DivDiv(n: nat, a: nat, b: nat)
    requires a > 0 && b > 0
    ensures n / a / b == n / (a * b)
  {
    var q, r := n / a, n % a;
    var q2, r2 := q / b, q % b;
    assert n == a * q + r;
    assert q == b * q2 + r2;
    MulAssoc(a, b, q2);
    assert a * q == a * (b * q2) + a * r2;
    MulLeBound(a, r2, b);
    DivUnique(n, a * b, q2, a * r2 + r);
  }

  lemma Pow256Add(a: nat, b: nat)
    ensures Pow256(a + b) == Pow256(a) * Pow256(b)
  {
    if a > 0 {
      Pow256Add(a - 1, b);
    }
  }

  lemma DivBound(n: nat, p: nat, m: nat)
    requires p > 0 && n < m * p
    ensures n / p < m
  {
    var q := n / p;
    if q >= m {
      MulMono(p, m, q);
      assert false;
    }
  }

  lemma MulMono(p: nat, m: nat, q: nat)
    requires m <= q
    ensures m * p <= q * p
  {
  }

  /** The first `k` of `width` big-endian bytes are the big-endian bytes of
      the number with its low `width - k` bytes dropped. */
  lemma {:induction false} BeBytesPrefix(n: nat, width: nat, k: nat)
    requires n < Pow256(width) && k <= width
    ensures n / Pow256(width - k) < Pow256(k)
    ensures BeBytes(n, width)[..k] == BeBytes(n / Pow256(width - k), k)
  {
    Pow256Add(k, width - k);
    DivBound(n, Pow256(width - k), Pow256(k));
    if k < width {
      var p := Pow256(width - 1 - k);
      BeBytesPrefix(n / 256, width - 1, k);
      DivDiv(n, 256, p);
      assert 256 * p == Pow256(width - k);
      assert BeBytes(n, width)[..k] == BeBytes(n / 256, width - 1)[..k];
    }
  }

  /** Leading zero bytes do not change a big-endian value. */
  lemma {:induction false} BeValueLeadingZeros(z: bytes, s: bytes)
    requires forall i :: 0 <= i < |z| ==> z[i] == 0
    ensures BeValue(z + s) == BeValue(s)
  {
    if s == [] {
      BeValueZeros(z);
      assert z + s == z;
    } else {
      var init := s[..|s| - 1];
      assert (z + s)[..|z + s| - 1] == z + init;
      BeValueLeadingZeros(z, init);
    }
  }

  lemma {:induction false} BeValueZeros(z: bytes)
    requires forall i :: 0 <= i < |z| ==> z[i] == 0
    ensures BeValue(z) == 0
  {
    if z != [] {
      BeValueZeros(z[..|z| - 1]);
    }
  }

  // ---------------------------------------------------------------------
  // Byte-wise lexicographic order, the order of `Buffer.compare`.

  /** `a` sorts strictly before `b`: at the first difference `a` holds the
      smaller byte, or `a` is a proper prefix of `b`. */
  predicate Less(a: bytes, b: bytes)
  {
    LessFrom(a, b, 0)
  }

  /** `Less` for the parts of `a` and `b` from index `i` on (the two agree
      below `i`). */
  predicate LessFrom(a: bytes, b: bytes, i: nat)
    decreases |a| - i
  {
    if i >= |a| then i < |b|
    else if i >= |b| then false
    else if a[i] != b[i] then a[i] < b[i]
    else LessFrom(a, b, i + 1)
  }

  predicate LessEq(a: bytes, b: bytes)
  {
    a == b || Less(a, b)
  }

  /** `Buffer.compare`: negative, zero or positive. */
  function Compare(a: bytes, b: bytes): (r: int)
    ensures r < 0 <==> Less(a, b)
    ensures r == 0 <==> a == b
    ensures r > 0 <==> Less(b, a)
  {
    LessIrreflexive(a);
    LessAsymmetric(a, b);
    LessTotal(a, b);
    if Less(a, b) then -1 else if a == b then 0 else 1
  }

  lemma {:induction false} LessFromIrreflexive(a: bytes, i: nat)
    ensures !LessFrom(a, a, i)
    decreases |a| - i
  {
    if i < |a| {
      LessFromIrreflexive(a, i + 1);
    }
  }

  lemma LessIrreflexive(a: bytes)
    ensures !Less(a, a)
  {
    LessFromIrreflexive(a, 0);
  }

  lemma {:induction false} LessFromAsymmetric(a: bytes, b: bytes, i: nat)
    ensures LessFrom(a, b, i) ==> !LessFrom(b, a, i)
    decreases |a| - i
  {
    if i < |a| && i < |b| && a[i] == b[i] {
      LessFromAsymmetric(a, b, i + 1);
    }
  }

  lemma LessAsymmetric(a: bytes, b: bytes)
    ensures Less(a, b) ==> !Less(b, a)
  {
    LessFromAsymmetric(a, b, 0);
  }

  /** Two sequences that agree below `i` and where neither sorts before the
      other from `i` on are equal. */
  lemma {:induction false} LessFromTotal(a: bytes, b: bytes, i: nat)
    requires i <= |a| && i <= |b| && a[..i] == b[..i]
    ensures a == b || LessFrom(a, b, i) || LessFrom(b, a, i)
    decreases |a| - i
  {
    if i < |a| && i < |b| && a[i] == b[i] {
      assert a[..i + 1] == a[..i] + [a[i]] && b[..i + 1] == b[..i] + [b[i]];
      LessFromTotal(a, b, i + 1);
    } else if i == |a| && i == |b| {
      assert a == a[..i] && b == b[..i];
    }
  }

  lemma LessEqAntisymmetric(a: bytes, b: bytes)
    requires LessEq(a, b) && LessEq(b, a)
    ensures a == b
  {
    LessAsymmetric(a, b);
  }

  /** A key below another is not at or above it. */
  lemma LessNotAtLeast(a: bytes, b: bytes)
    ensures Less(a, b) ==> !LessEq(b, a)
  {
    LessAsymmetric(a, b);
    LessIrreflexive(a);
  }

  lemma LessTotal(a: bytes, b: bytes)
    ensures a == b || Less(a, b) || Less(b, a)
  {
    LessFromTotal(a, b, 0);
  }

  lemma {:induction false} LessFromTransitive(a: bytes, b: bytes, c: bytes, i: nat)
    requires LessFrom(a, b, i) && LessFrom(b, c, i)
    ensures LessFrom(a, c, i)
    decreases |a| - i
  {
    if i < |a| && a[i] == b[i] && b[i] == c[i] {
      LessFromTransitive(a, b, c, i + 1);
    }
  }

  lemma LessTransitive(a: bytes, b: bytes, c: bytes)
    requires Less(a, b) && Less(b, c)
    ensures Less(a, c)
  {
    LessFromTransitive(a, b, c, 0);
  }

  lemma LessEqTransitive(a: bytes, b: bytes, c: bytes)
    requires LessEq(a, b) && LessEq(b, c)
    ensures LessEq(a, c)
  {
    if a != b && b != c {
      LessTransitive(a, b, c);
    }
  }

  /** A sequence of keys is sorted: each key is at most the next one. */
  predicate NonDecreasing(keys: seq<bytes>)
  {
    forall i, j :: 0 <= i < j < |keys| ==> LessEq(keys[i], keys[j])
  }

  predicate StrictlyIncreasing(keys: seq<bytes>)
  {
    forall i, j :: 0 <= i < j < |keys| ==> Less(keys[i], keys[j])
  }
}

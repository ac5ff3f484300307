/** Bit planes. A plane is a sequence of bits, least significant first: byte `k` of the stored
    form is bits `8k..8k+8` and 64-bit word `k` is bits `64k..64k+64`. */
module Bits {
  import opened Order

  // ---- values ----

  function Bit(b: bool): nat {
    if b then 1 else 0
  }

  /** The number a run of bits spells. */
  function BitsValue(s: seq<bool>): nat {
    if s == [] then 0 else Bit(s[0]) + 2 * BitsValue(s[1..])
  }

  /** Bit `b` of a number: Rust's `(v >> b) & 1 != 0`. */
  predicate BitOf(v: nat, b: nat) {
    v / Pow2(b) % 2 == 1
  }

  lemma {:induction false} ValueConcat(a: seq<bool>, b: seq<bool>)
    ensures BitsValue(a + b) == BitsValue(a) + Pow2(|a|) * BitsValue(b)
  {
    hide Pow2;
    if a == [] {
      assert a + b == b;
      PowZero();
    } else {
      assert (a + b)[1..] == a[1..] + b && (a + b)[0] == a[0];
      ValueConcat(a[1..], b);
      DoublePow(|a|, BitsValue(b));
    }
  }

  lemma PowZero()
    ensures Pow2(0) == 1
  {
  }

  lemma DoublePow(n: nat, v: nat)
    requires n > 0
    ensures 2 * (Pow2(n - 1) * v) == Pow2(n) * v
  {
  }

  lemma {:induction false} ValueBound(s: seq<bool>)
    ensures BitsValue(s) < Pow2(|s|)
  {
    if s != [] {
      ValueBound(s[1..]);
    }
  }

  /** Shifting right drops low bits and masking keeps them. */
  lemma ValueSplit(s: seq<bool>, k: nat)
    requires k <= |s|
    ensures BitsValue(s) / Pow2(k) == BitsValue(s[k..])
    ensures BitsValue(s) % Pow2(k) == BitsValue(s[..k])
  {
    assert s == s[..k] + s[k..];
    ValueConcat(s[..k], s[k..]);
    ValueBound(s[..k]);
    DivModUnique(BitsValue(s), Pow2(k), BitsValue(s[k..]), BitsValue(s[..k]));
  }

  lemma SmallMultiple(p: nat, d: int)
    requires 0 - p < p * d < p
    ensures d == 0
  {
  }

  lemma DivModUnique(x: nat, p: nat, q: nat, r: nat)
    requires p > 0 && r < p && x == r + p * q
    ensures x / p == q && x % p == r
  {
    var d := x / p - q;
    assert p * d == r - x % p by {
      assert x == p * (x / p) + x % p;
      assert p * d == p * (x / p) - p * q;
    }
    SmallMultiple(p, d);
  }

  lemma HalvePow(v: nat, b: nat)
    ensures v / 2 / Pow2(b) == v / Pow2(b + 1)
  {
    var p := Pow2(b);
    var h, q := v / 2, v / 2 / p;
    assert h == q * p + h % p;
    assert v == 2 * h + v % 2;
    assert v == 2 * p * q + (2 * (h % p) + v % 2);
    DivModUnique(v, 2 * p, q, 2 * (h % p) + v % 2);
  }

  lemma ModHalves(v: nat, p: nat)
    requires p > 0
    ensures v % (2 * p) == v % 2 + 2 * (v / 2 % p)
  {
    var h := v / 2;
    var q, r := h / p, h % p;
    assert h == q * p + r;
    assert v == 2 * p * q + (2 * r + v % 2);
    DivModUnique(v, 2 * p, q, 2 * r + v % 2);
  }

  /** The bits of a number spell it back, cut to the width written. */
  lemma {:induction false} ValueOfBits(s: seq<bool>, v: nat)
    requires forall b :: 0 <= b < |s| ==> s[b] == BitOf(v, b)
    ensures BitsValue(s) == v % Pow2(|s|)
  {
    hide BitOf;
    if s != [] {
      TailBits(s, v);
      ValueOfBits(s[1..], v / 2);
      LowBit(s, v);
      ModHalves(v, Pow2(|s| - 1));
    }
  }

  lemma LowBit(s: seq<bool>, v: nat)
    requires s != [] && s[0] == BitOf(v, 0)
    ensures Bit(s[0]) == v % 2
  {
    assert Pow2(0) == 1;
  }

  lemma TailBits(s: seq<bool>, v: nat)
    requires s != [] && forall b :: 0 <= b < |s| ==> s[b] == BitOf(v, b)
    ensures forall b :: 0 <= b < |s| - 1 ==> s[1..][b] == BitOf(v / 2, b)
  {
    hide Pow2;
    forall b | 0 <= b < |s| - 1 ensures s[1..][b] == BitOf(v / 2, b) {
      HalvePow(v, b);
      assert s[b + 1] == BitOf(v, b + 1);
    }
  }

  // ---- bytes ----

  function ByteBits(b: byte): (s: seq<bool>)
    ensures |s| == 8
  {
    seq(8, k requires 0 <= k < 8 => BitOf(b, k))
  }

  lemma ByteOfBits(s: seq<bool>)
    requires |s| == 8
    ensures BitsValue(s) < 256
  {
    ValueBound(s);
    assert Pow2(4) == 16;
    Pow2Add(4, 4);
  }

  /** The bytes of a plane whose length is a whole number of bytes. */
  function ToBytes(s: seq<bool>): (b: seq<byte>)
    requires |s| % 8 == 0
    ensures |b| == |s| / 8
  {
    if s == [] then []
    else
      ByteOfBits(s[..8]);
      [BitsValue(s[..8])] + ToBytes(s[8..])
  }

  function FromBytes(b: seq<byte>): (s: seq<bool>)
    ensures |s| == 8 * |b|
  {
    if b == [] then [] else ByteBits(b[0]) + FromBytes(b[1..])
  }

  lemma {:induction false} BitOfValue(s: seq<bool>, k: nat)
    requires k < |s|
    ensures BitOf(BitsValue(s), k) == s[k]
  {
    ValueSplit(s, k);
    assert s[k..][0] == s[k];
  }

  lemma {:induction false} ToFromBytes(s: seq<bool>)
    requires |s| % 8 == 0
    ensures FromBytes(ToBytes(s)) == s
  {
    if s != [] {
      ToFromBytes(s[8..]);
      ByteOfBits(s[..8]);
      assert ToBytes(s)[1..] == ToBytes(s[8..]);
      forall k | 0 <= k < 8 ensures ByteBits(BitsValue(s[..8]))[k] == s[k] {
        BitOfValue(s[..8], k);
      }
      assert ByteBits(BitsValue(s[..8])) == s[..8];
      assert s == s[..8] + s[8..];
    }
  }

  lemma {:induction false} FromToBytes(b: seq<byte>)
    ensures ToBytes(FromBytes(b)) == b
  {
    if b != [] {
      FromToBytes(b[1..]);
      ValueOfBits(ByteBits(b[0]), b[0]);
      assert Pow2(4) == 16;
      Pow2Add(4, 4);
      var s := FromBytes(b);
      assert s[..8] == ByteBits(b[0]) && s[8..] == FromBytes(b[1..]);
    }
  }

  // ---- rank and select ----

  /** How many one-bits sit before position `p`. */
  function OnesBefore(s: seq<bool>, p: nat): (r: nat)
    requires p <= |s|
    ensures r <= p
  {
    if p == 0 then 0 else OnesBefore(s, p - 1) + Bit(s[p - 1])
  }

  function Ones(s: seq<bool>): nat {
    OnesBefore(s, |s|)
  }

  /** `p` is the position of the `i`-th one-bit, counting from zero. */
  predicate IsSelect(s: seq<bool>, i: nat, p: nat) {
    p < |s| && s[p] && OnesBefore(s, p) == i
  }

  lemma {:induction false} OnesMonotone(s: seq<bool>, p: nat, q: nat)
    requires p <= q <= |s|
    ensures OnesBefore(s, p) <= OnesBefore(s, q) <= OnesBefore(s, p) + (q - p)
  {
    if p < q {
      OnesMonotone(s, p, q - 1);
    }
  }

  lemma SelectUnique(s: seq<bool>, i: nat, p: nat, q: nat)
    requires IsSelect(s, i, p) && IsSelect(s, i, q)
    ensures p == q
  {
    if p < q {
      OnesMonotone(s, p + 1, q);
    } else if q < p {
      OnesMonotone(s, q + 1, p);
    }
  }

  /** The position of the `i`-th one-bit. */
  function Select(s: seq<bool>, i: nat): (p: nat)
    requires i < Ones(s)
    ensures IsSelect(s, i, p)
  {
    SelectBelow(s, i, |s|)
  }

  function SelectBelow(s: seq<bool>, i: nat, n: nat): (p: nat)
    requires n <= |s| && i < OnesBefore(s, n)
    ensures IsSelect(s, i, p)
  {
    if s[n - 1] && OnesBefore(s, n - 1) == i then n - 1 else SelectBelow(s, i, n - 1)
  }

  /** No ones between two positions: the counts agree. */
  lemma {:induction false} OnesGap(s: seq<bool>, p: nat, q: nat)
    requires p <= q <= |s|
    requires forall k :: p <= k < q ==> !s[k]
    ensures OnesBefore(s, q) == OnesBefore(s, p)
  {
    if p < q {
      OnesGap(s, p, q - 1);
    }
  }

  /** The plane with everything below bit `b` cleared: `w & (!0 << b)`. */
  function MaskFrom(s: seq<bool>, b: nat): (t: seq<bool>)
    ensures |t| == |s|
  {
    seq(|s|, p requires 0 <= p < |s| => p >= b && s[p])
  }

  lemma {:induction false} MaskOnes(s: seq<bool>, b: nat, p: nat)
    requires b <= p <= |s|
    ensures OnesBefore(MaskFrom(s, b), p) == OnesBefore(s, p) - OnesBefore(s, b)
    decreases p
  {
    if p == b {
      OnesGap(MaskFrom(s, b), 0, b);
    } else {
      MaskOnes(s, b, p - 1);
    }
  }

  /** Word `k` of a plane. */
  function Word(s: seq<bool>, k: nat): (w: seq<bool>)
    requires 64 * k + 64 <= |s|
    ensures |w| == 64
  {
    s[64 * k..64 * k + 64]
  }

  lemma {:induction false} WordOnes(s: seq<bool>, k: nat, t: nat)
    requires 64 * k + 64 <= |s| && t <= 64
    ensures OnesBefore(Word(s, k), t) == OnesBefore(s, 64 * k + t) - OnesBefore(s, 64 * k)
  {
    if t > 0 {
      WordOnes(s, k, t - 1);
      assert Word(s, k)[t - 1] == s[64 * k + t - 1];
    }
  }

  /** `u64::trailing_zeros`: the first one-bit, or the width when there is none. */
  function TrailingZeros(w: seq<bool>): (t: nat)
    ensures t <= |w|
    ensures forall q :: 0 <= q < t ==> !w[q]
    ensures t < |w| ==> w[t]
  {
    if w == [] || w[0] then 0
    else
      var r := TrailingZeros(w[1..]);
      assert forall q :: 0 < q < 1 + r ==> !w[q] by {
        forall q | 0 < q < 1 + r ensures !w[q] { assert w[q] == w[1..][q - 1]; }
      }
      1 + r
  }

  /** A plane whose one-bits are exactly the listed ascending positions has the `j`-th of them
      as its `j`-th one-bit. */
  lemma {:induction false} OnesAt(s: seq<bool>, pos: seq<nat>, p: nat, k: nat)
    requires p <= |s| && k <= |pos|
    requires forall q :: 0 <= q < |s| ==> (s[q] <==> q in pos)
    requires forall i, j :: 0 <= i < j < |pos| ==> pos[i] < pos[j]
    requires forall j :: 0 <= j < k ==> pos[j] < p
    requires forall j :: k <= j < |pos| ==> pos[j] >= p
    ensures OnesBefore(s, p) == k
  {
    if p > 0 {
      if s[p - 1] {
        var j :| 0 <= j < |pos| && pos[j] == p - 1;
        assert j < k && pos[k - 1] < p;
        assert j == k - 1;
        OnesAt(s, pos, p - 1, k - 1);
      } else {
        OnesAt(s, pos, p - 1, k);
      }
    }
  }
}

/** Elias-Fano planes (crates/graph-format/src/plane.rs): an ascending sequence stored as `l` packed
    low bits per element and one unary bitmap of the high parts, read by a sampled select. */
module EliasFano {
  import opened Collections
  import opened Order
  import opened Wire
  import opened Bits

  const SELECT_SAMPLE: nat := 64
  const MAX_LOW_BITS: nat := 63

  datatype Ef = Ef(m: nat, l: nat, lows: seq<bool>, highs: seq<bool>, sample: seq<nat>)

  function Min(a: nat, b: nat): nat {
    if a < b then a else b
  }

  /** Whole groups of `k` needed for `x` things: Rust's `div_ceil`. */
  function DivCeil(x: nat, k: nat): (r: nat)
    requires k > 0
    ensures (r > 0 ==> (r - 1) * k < x) && x <= r * k
  {
    if x == 0 then 0
    else
      var r := (x - 1) / k;
      assert x - 1 == r * k + (x - 1) % k;
      r + 1
  }

  function LowBits(universe: nat, m: nat): nat {
    if universe < m || m == 0 then 0 else Ilog2(universe / m)
  }

  /** The width the encoder picks leaves fewer than `2m` distinct high parts. */
  lemma HighPartIsSmall(universe: nat, m: nat)
    requires m > 0
    ensures universe / Pow2(LowBits(universe, m)) < 2 * m
  {
    if universe >= m {
      var p := Pow2(Ilog2(universe / m));
      hide Pow2, Ilog2;
      BelowNextPower(universe, m, p);
      DivBelow(universe, p, 2 * m);
    } else {
      assert Pow2(0) == 1;
    }
  }

  lemma BelowNextPower(u: nat, m: nat, p: nat)
    requires m > 0 && u / m < 2 * p
    ensures u < p * (2 * m)
  {
    var q := u / m;
    assert u == m * q + u % m;
    MulMonotone(q + 1, 2 * p, m);
    assert (q + 1) * m == m * q + m && 2 * p * m == p * (2 * m);
  }

  lemma DivBelow(x: nat, p: nat, k: nat)
    requires p > 0 && x < p * k
    ensures x / p < k
  {
    var q := x / p;
    assert x == p * q + x % p;
    if q >= k {
      MulMonotone(k, q, p);
      assert false;
    }
  }

  lemma LowBitsFit(universe: nat, m: nat)
    requires universe < U64
    ensures LowBits(universe, m) <= MAX_LOW_BITS
  {
    if universe >= m && m > 0 {
      var q := universe / m;
      assert q <= universe by { assert universe == m * q + universe % m; MulMonotone(1, m, q); }
      if Ilog2(q) >= 64 {
        if Ilog2(q) > 64 { Pow2Monotone(64, Ilog2(q)); }
        Pow64();
        assert false;
      }
    }
  }

  // ---- packed low bits ----

  function BitsOf(v: nat, l: nat): (s: seq<bool>)
    ensures |s| == l
  {
    seq(l, b requires 0 <= b < l => BitOf(v, b))
  }

  /** Packed element `i`: `l` bits starting at bit `i * l`. */
  function Field(lows: seq<bool>, l: nat, i: nat): (s: seq<bool>)
    requires i * l + l <= |lows|
    ensures |s| == l
  {
    lows[i * l..i * l + l]
  }

  method WriteLow(lows: array<bool>, bitoff: nat, v: nat, l: nat)
    requires bitoff + l <= lows.Length
    modifies lows
    ensures forall p :: 0 <= p < lows.Length ==>
      lows[p] == (old(lows[p]) || (bitoff <= p < bitoff + l && BitOf(v, p - bitoff)))
  {
    hide BitOf;
    for b := 0 to l
      invariant forall p :: 0 <= p < lows.Length ==>
        lows[p] == (old(lows[p]) || (bitoff <= p < bitoff + b && BitOf(v, p - bitoff)))
    {
      if BitOf(v, b) {
        lows[bitoff + b] := true;
      }
    }
  }

  function ReadLow(lows: seq<bool>, l: nat, i: nat): nat
    requires i * l <= |lows|
  {
    if l == 0 then 0
    else
      var bit := i * l;
      var start, shift := bit - bit % 8, bit % 8;
      BitsValue(lows[start..Min(start + 64, |lows|)]) / Pow2(shift) % Pow2(l)
  }

  /** How many of an element's bits the eight bytes at its start hold. */
  function Readable(l: nat, i: nat): nat {
    Min(l, 64 - i * l % 8)
  }

  lemma ReadLowIs(lows: seq<bool>, l: nat, i: nat, v: nat)
    requires 0 < l && i * l + l <= |lows|
    requires Field(lows, l, i) == BitsOf(v, l)
    ensures ReadLow(lows, l, i) == v % Pow2(Readable(l, i))
  {
    hide BitOf, BitsValue, Pow2, BitsOf;
    WindowValue(lows, i * l, l, v);
  }

  /** The eight-byte window at bit `bit`, shifted and masked, for a field that spells `v`. */
  lemma WindowValue(lows: seq<bool>, bit: nat, l: nat, v: nat)
    requires 0 < l && bit + l <= |lows| && lows[bit..bit + l] == BitsOf(v, l)
    ensures BitsValue(lows[bit - bit % 8..Min(bit - bit % 8 + 64, |lows|)]) / Pow2(bit % 8) % Pow2(l) ==
      v % Pow2(Min(l, 64 - bit % 8))
  {
    hide BitOf, BitsValue, Pow2, BitsOf;
    var start := bit - bit % 8;
    var end := Min(start + 64, |lows|);
    WindowShift(lows, start, bit, end);
    var x, width := lows[bit..end], Min(l, 64 - bit % 8);
    assert x[..width] == lows[bit..bit + l][..width];
    MaskedValue(x, width, l, v);
  }

  lemma WindowShift(lows: seq<bool>, start: nat, bit: nat, end: nat)
    requires start <= bit <= end <= |lows|
    ensures BitsValue(lows[start..end]) / Pow2(bit - start) == BitsValue(lows[bit..end])
  {
    hide BitsValue, Pow2;
    ValueSplit(lows[start..end], bit - start);
    assert lows[start..end][bit - start..] == lows[bit..end];
  }

  lemma MaskedValue(x: seq<bool>, width: nat, l: nat, v: nat)
    requires width <= |x| && x[..width] <= BitsOf(v, l)
    requires width == l || (width < l && |x| == width)
    ensures BitsValue(x) % Pow2(l) == v % Pow2(width)
  {
    hide BitOf, BitsValue, Pow2, BitsOf;
    PrefixValue(x[..width], v, l);
    if width == l {
      ValueSplit(x, l);
    } else {
      assert x[..width] == x;
      ValueBound(x);
      Pow2Monotone(width, l);
      ModIff(BitsValue(x), Pow2(l));
    }
  }

  lemma PrefixValue(s: seq<bool>, v: nat, l: nat)
    requires s <= BitsOf(v, l)
    ensures BitsValue(s) == v % Pow2(|s|)
  {
    hide BitOf, BitsValue, Pow2;
    assert forall b :: 0 <= b < |s| ==> s[b] == BitsOf(v, l)[b];
    ValueOfBits(s, v);
  }

  /** Reading an element back: it survives exactly when its value fits in the bits the eight-byte
      window reaches. */
  lemma LowReadIff(lows: seq<bool>, l: nat, i: nat, v: nat)
    requires i * l + l <= |lows| && v < Pow2(l)
    requires Field(lows, l, i) == BitsOf(v, l)
    ensures ReadLow(lows, l, i) == v <==> v < Pow2(Readable(l, i))
  {
    hide BitOf, BitsValue, BitsOf, Readable;
    if l > 0 {
      ReadLowIs(lows, l, i, v);
      ModIff(v, Pow2(Readable(l, i)));
    } else {
      ReadableZero(i);
      assert Pow2(0) == 1;
    }
  }

  lemma ReadableZero(i: nat)
    ensures Readable(0, i) == 0
  {
  }

  lemma ModIff(v: nat, p: nat)
    requires p > 0
    ensures v % p == v <==> v < p
  {
  }

  /** The widths at which every element of every plane reads back whole. */
  lemma WideFieldsIff(l: nat)
    requires l <= MAX_LOW_BITS
    ensures (forall i: nat :: Readable(l, i) == l) <==> l <= 58 || l == 60
  {
    if l == 59 {
      assert Readable(59, 5) == 57;
    } else if l > 60 {
      assert Readable(l, 1) < l;
    } else {
      forall i: nat ensures Readable(l, i) == l {
        NarrowField(l, i);
      }
    }
  }

  lemma NarrowField(l: nat, i: nat)
    requires l <= 58 || l == 60
    ensures Readable(l, i) == l
  {
    if l == 58 {
      Shift58(i);
    } else if l == 60 {
      Shift60(i);
    }
  }

  lemma Shift58(i: nat)
    ensures i * 58 % 8 <= 6
  {
    assert i * 58 % 2 == 0;
  }

  lemma Shift60(i: nat)
    ensures i * 60 % 8 <= 4
  {
    assert i * 60 % 4 == 0;
  }

  // ---- select ----

  /** Position of the `k`-th one-bit of a word, by clearing the lowest one `k` times. */
  method SelectInWord(word: seq<bool>, rank: nat) returns (t: nat)
    requires rank < Ones(word)
    ensures IsSelect(word, rank, t)
  {
    var w, k := word, rank;
    ghost var cut := 0;
    assert w == MaskFrom(word, 0);
    t := TrailingZeros(w);
    while k != 0
      invariant cut <= |word| && w == MaskFrom(word, cut) && t == TrailingZeros(w)
      invariant 0 <= k <= rank && OnesBefore(word, cut) == rank - k
      decreases k
    {
      FirstMasked(word, cut, rank);
      w, cut := w[t := false], t + 1;
      k := k - 1;
      t := TrailingZeros(w);
    }
    FirstMasked(word, cut, rank);
  }

  /** The lowest one of a masked plane is the next one of the plane, and clearing it masks further. */
  lemma FirstMasked(s: seq<bool>, cut: nat, rank: nat)
    requires cut <= |s| && OnesBefore(s, cut) <= rank < Ones(s)
    ensures var t := TrailingZeros(MaskFrom(s, cut));
            cut <= t < |s| && IsSelect(s, OnesBefore(s, cut), t) && MaskFrom(s, cut)[t := false] == MaskFrom(s, t + 1)
  {
    var t := TrailingZeros(MaskFrom(s, cut));
    if forall q :: cut <= q < |s| ==> !s[q] {
      OnesGap(s, cut, |s|);
      assert false;
    }
    var q :| cut <= q < |s| && s[q];
    assert MaskFrom(s, cut)[q];
    assert forall k :: cut <= k < t ==> !s[k] by {
      forall k | cut <= k < t ensures !s[k] { assert !MaskFrom(s, cut)[k]; }
    }
    OnesGap(s, cut, t);
  }

  /** The select samples: every 64th of the first `ones` one-bits, each cut to 32 bits. */
  function Samples(highs: seq<bool>, ones: nat): (r: seq<nat>)
    requires ones <= Ones(highs)
    ensures |r| == DivCeil(ones, SELECT_SAMPLE)
  {
    seq(DivCeil(ones, SELECT_SAMPLE),
        s requires 0 <= s < DivCeil(ones, SELECT_SAMPLE) => Select(highs, SELECT_SAMPLE * s) % U32)
  }

  lemma SamplesStep(highs: seq<bool>, ones: nat, p: nat)
    requires IsSelect(highs, ones, p) && ones < Ones(highs)
    ensures Samples(highs, ones + 1) == Samples(highs, ones) + if ones % SELECT_SAMPLE == 0 then [p % U32] else []
  {
    if ones % SELECT_SAMPLE == 0 {
      SelectUnique(highs, ones, p, Select(highs, ones));
    }
  }

  /** The ones counted before the samples stop. */
  function Counted(highs: seq<bool>, m: nat): nat {
    if 0 < m <= Ones(highs) then m else Ones(highs)
  }

  method BuildSample(highs: seq<bool>, m: nat) returns (sample: seq<nat>)
    requires |highs| % 64 == 0
    ensures sample == Samples(highs, Counted(highs, m))
  {
    sample := [];
    var ones, wi, done := 0, 0, false;
    while wi < |highs| / 64 && !done
      invariant 0 <= wi <= |highs| / 64
      invariant 0 <= ones <= Ones(highs) && sample == Samples(highs, ones)
      invariant if done then 0 < m == ones else ones == OnesBefore(highs, 64 * wi) && (m == 0 || ones < m)
    {
      hide Samples;
      sample, ones, done := SampleWord(highs, m, wi, sample, ones);
      wi := wi + 1;
    }
  }

  /** One word of the sampling loop; `done` when the `m`-th one has been counted. */
  method SampleWord(highs: seq<bool>, m: nat, wi: nat, before: seq<nat>, counted: nat)
    returns (sample: seq<nat>, ones: nat, done: bool)
    requires 64 * wi + 64 <= |highs| && counted == OnesBefore(highs, 64 * wi) <= Ones(highs)
    requires before == Samples(highs, counted) && (m == 0 || counted < m)
    ensures ones <= Ones(highs) && sample == Samples(highs, ones)
    ensures if done then 0 < m == ones else ones == OnesBefore(highs, 64 * (wi + 1)) && (m == 0 || ones < m)
  {
    hide IsSelect, Samples, OnesBefore;
    sample, ones := before, counted;
    var ww, cut := Word(highs, wi), 0;
    assert ww == MaskFrom(Word(highs, wi), 0);
    while TrailingZeros(ww) < 64
      invariant cut <= 64 && ww == MaskFrom(Word(highs, wi), cut)
      invariant ones == OnesBefore(highs, 64 * wi + cut) <= Ones(highs)
      invariant sample == Samples(highs, ones) && (m == 0 || ones < m)
      decreases 64 - cut
    {
      var t := TrailingZeros(ww);
      NextInWord(highs, wi, cut);
      SamplesStep(highs, ones, 64 * wi + t);
      if ones % SELECT_SAMPLE == 0 {
        sample := sample + [(64 * wi + t) % U32];
      }
      ones := ones + 1;
      ww, cut := ww[t := false], t + 1;
      if ones == m {
        return sample, ones, true;
      }
    }
    WordDone(highs, wi, cut);
    done := false;
  }

  /** A one left in the masked word is the next one of the plane. */
  lemma NextInWord(highs: seq<bool>, wi: nat, cut: nat)
    requires 64 * wi + 64 <= |highs| && cut <= 64
    requires TrailingZeros(MaskFrom(Word(highs, wi), cut)) < 64
    ensures var t := TrailingZeros(MaskFrom(Word(highs, wi), cut));
            && cut <= t
            && IsSelect(highs, OnesBefore(highs, 64 * wi + cut), 64 * wi + t)
            && OnesBefore(highs, 64 * wi + t + 1) == OnesBefore(highs, 64 * wi + cut) + 1 <= Ones(highs)
            && MaskFrom(Word(highs, wi), cut)[t := false] == MaskFrom(Word(highs, wi), t + 1)
  {
    var w := Word(highs, wi);
    var t := TrailingZeros(MaskFrom(w, cut));
    assert MaskFrom(w, cut)[t] && highs[64 * wi + t];
    forall k | 64 * wi + cut <= k < 64 * wi + t ensures !highs[k] {
      assert !MaskFrom(w, cut)[k - 64 * wi];
    }
    OnesGap(highs, 64 * wi + cut, 64 * wi + t);
    OnesMonotone(highs, 64 * wi + t + 1, |highs|);
  }

  lemma WordDone(highs: seq<bool>, wi: nat, cut: nat)
    requires 64 * wi + 64 <= |highs| && cut <= 64
    requires TrailingZeros(MaskFrom(Word(highs, wi), cut)) == 64
    ensures OnesBefore(highs, 64 * (wi + 1)) == OnesBefore(highs, 64 * wi + cut)
  {
    var w := Word(highs, wi);
    forall k | 64 * wi + cut <= k < 64 * wi + 64 ensures !highs[k] {
      assert !MaskFrom(w, cut)[k - 64 * wi];
    }
    OnesGap(highs, 64 * wi + cut, 64 * wi + 64);
  }

  /** Where the walk from bit `start` ends: there, or at the `k`-th one-bit after it. */
  function Walk(highs: seq<bool>, start: nat, k: nat): nat
    requires start < |highs| && OnesBefore(highs, start + 1) + k <= Ones(highs)
  {
    if k == 0 then start else Select(highs, OnesBefore(highs, start + 1) + k - 1)
  }

  /** The sample at or below element `i`, then a walk of the words. With an exact sample this is
      the `i`-th one-bit; with any other it still stays inside the bitmap. */
  method Select1(highs: seq<bool>, sample: seq<nat>, i: nat) returns (p: nat)
    requires |highs| % 64 == 0 && i / SELECT_SAMPLE < |sample| && sample[i / SELECT_SAMPLE] < |highs|
    requires OnesBefore(highs, sample[i / SELECT_SAMPLE] + 1) + i % SELECT_SAMPLE <= Ones(highs)
    ensures p == Walk(highs, sample[i / SELECT_SAMPLE], i % SELECT_SAMPLE)
  {
    var start, k := sample[i / SELECT_SAMPLE], i % SELECT_SAMPLE;
    if k == 0 {
      return start;
    }
    p := WalkFrom(highs, start, k);
    ghost var goal := OnesBefore(highs, start + 1) + k - 1;
    SelectUnique(highs, goal, p, Select(highs, goal));
  }

  /** The `k`-th one-bit after `start`, word by word. */
  method WalkFrom(highs: seq<bool>, start: nat, k: nat) returns (p: nat)
    requires |highs| % 64 == 0 && start < |highs| && 0 < k && OnesBefore(highs, start + 1) + k <= Ones(highs)
    ensures IsSelect(highs, OnesBefore(highs, start + 1) + k - 1, p)
  {
    hide IsSelect, OnesBefore;
    var remaining := k;
    ghost var goal := OnesBefore(highs, start + 1) + k - 1;
    var wi := (start + 1) / 64;
    ghost var base := start + 1;
    WalkStarts(highs, start, goal);
    var w := MaskFrom(Word(highs, wi), (start + 1) % 64);
    while Ones(w) < remaining
      invariant 64 * wi <= base <= 64 * wi + 64 <= |highs|
      invariant w == MaskFrom(Word(highs, wi), base - 64 * wi)
      invariant 0 < remaining && OnesBefore(highs, base) + remaining == goal + 1
      decreases |highs| - 64 * wi
    {
      RestOfWord(highs, wi, base, remaining, goal);
      remaining := remaining - Ones(w);
      wi := wi + 1;
      base := 64 * wi;
      w := Word(highs, wi);
      assert w == MaskFrom(w, 0);
    }
    var t := SelectInWord(w, remaining - 1);
    SelectLifts(highs, wi, base, t, remaining, goal);
    p := 64 * wi + t;
  }

  lemma WalkStarts(highs: seq<bool>, start: nat, goal: nat)
    requires |highs| % 64 == 0 && start < |highs| && OnesBefore(highs, start + 1) <= goal < Ones(highs)
    ensures 64 * ((start + 1) / 64) + 64 <= |highs|
  {
  }

  lemma RestOfWord(highs: seq<bool>, wi: nat, base: nat, remaining: nat, i: nat)
    requires |highs| % 64 == 0 && i < Ones(highs)
    requires 64 * wi <= base <= 64 * wi + 64 <= |highs|
    requires OnesBefore(highs, base) + remaining == i + 1
    requires Ones(MaskFrom(Word(highs, wi), base - 64 * wi)) < remaining
    ensures OnesBefore(highs, 64 * wi + 64) == OnesBefore(highs, base) + Ones(MaskFrom(Word(highs, wi), base - 64 * wi))
    ensures 64 * wi + 128 <= |highs|
  {
    hide OnesBefore, MaskFrom;
    var w := Word(highs, wi);
    MaskOnes(w, base - 64 * wi, 64);
    WordOnes(highs, wi, 64);
    WordOnes(highs, wi, base - 64 * wi);
  }

  lemma SelectLifts(highs: seq<bool>, wi: nat, base: nat, t: nat, remaining: nat, i: nat)
    requires 64 * wi <= base <= 64 * wi + 64 <= |highs| && 0 < remaining
    requires OnesBefore(highs, base) + remaining == i + 1
    requires IsSelect(MaskFrom(Word(highs, wi), base - 64 * wi), remaining - 1, t)
    ensures IsSelect(highs, i, 64 * wi + t)
  {
    hide OnesBefore;
    var w, b := Word(highs, wi), base - 64 * wi;
    assert b <= t;
    MaskOnes(w, b, t);
    WordOnes(highs, wi, t);
    WordOnes(highs, wi, b);
  }

  // ---- encoding ----

  function Quotient(v: nat, p: nat): nat
    requires p > 0
  {
    v / p
  }

  function HighPosition(v: nat, l: nat, i: nat): nat {
    Quotient(v, Pow2(l)) + i
  }

  /** Where the one-bit of each element goes: its high part plus its index. */
  function Positions(c: seq<nat>, l: nat): (p: seq<nat>)
    ensures |p| == |c|
  {
    seq(|c|, i requires 0 <= i < |c| => HighPosition(c[i], l, i))
  }

  /** Everything the plane must hold for the first `k` elements of `c`. */
  ghost predicate Filled(highs: seq<bool>, lows: seq<bool>, c: seq<nat>, l: nat, k: nat)
    requires k <= |c|
  {
    && (forall q :: 0 <= q < |highs| ==> (highs[q] <==> q in Positions(c, l)[..k]))
    && |lows| >= |c| * l
    && (forall i :: 0 <= i < k ==> HoldsLow(lows, c, l, i))
    && (forall q :: k * l <= q < |lows| ==> !lows[q])
  }

  ghost predicate HoldsLow(lows: seq<bool>, c: seq<nat>, l: nat, i: nat)
    requires i < |c|
  {
    i * l + l <= |lows| && Field(lows, l, i) == BitsOf(c[i] % Pow2(l), l)
  }

  ghost predicate Represents(e: Ef, c: seq<nat>) {
    && e.m == |c| && e.l <= MAX_LOW_BITS
    && |e.highs| % 64 == 0 && 0 < |e.highs|
    && (forall i :: 0 <= i < |c| ==> Positions(c, e.l)[i] < |e.highs|)
    && |e.lows| == 8 * DivCeil(|c| * e.l, 8)
    && Filled(e.highs, e.lows, c, e.l, |c|)
    && e.sample == Samples(e.highs, Counted(e.highs, |c|))
  }

  lemma PositionsAscend(c: seq<nat>, l: nat)
    requires Ascending(c)
    ensures forall i, j :: 0 <= i < j < |c| ==> Positions(c, l)[i] < Positions(c, l)[j]
  {
    forall i, j | 0 <= i < j < |c| ensures Positions(c, l)[i] < Positions(c, l)[j] {
      DivMonotone(c[i], c[j], Pow2(l));
    }
  }

  /** The `i`-th one-bit of an encoded bitmap is the `i`-th element's, and there are no others. */
  lemma SelectIsPosition(e: Ef, c: seq<nat>, i: nat)
    requires Represents(e, c) && Ascending(c) && i <= |c|
    ensures i < |c| ==> IsSelect(e.highs, i, Positions(c, e.l)[i])
    ensures Ones(e.highs) == |c|
  {
    hide DivCeil, HoldsLow;
    var pos := Positions(c, e.l);
    PositionsAscend(c, e.l);
    assert pos[..|c|] == pos;
    OnesAt(e.highs, pos, |e.highs|, |c|);
    if i < |c| {
      OnesAt(e.highs, pos, pos[i], i);
    }
  }

  /** Room for the bitmap and the low plane, as the encoder sizes them. */
  ghost predicate HasRoom(highs: nat, lows: nat, c: seq<nat>, l: nat) {
    && (forall i :: 0 <= i < |c| ==> Positions(c, l)[i] < highs)
    && |c| * l <= lows
  }

  /** One element: set its bit in the bitmap and pack its low part. */
  method Place(highs: array<bool>, lows: array<bool>, ghost c: seq<nat>, l: nat, i: nat, v: nat)
    requires highs != lows && i < |c| && v == c[i] && HasRoom(highs.Length, lows.Length, c, l)
    requires Filled(highs[..], lows[..], c, l, i)
    modifies highs, lows
    ensures Filled(highs[..], lows[..], c, l, i + 1)
  {
    hide BitOf, Filled;
    var pos := HighPosition(v, l, i);
    assert pos == Positions(c, l)[i];
    ghost var h, w := highs[..], lows[..];
    highs[pos] := true;
    assert highs[..] == h[pos := true];
    FieldEnds(|c|, l, i);
    WriteLow(lows, i * l, v % Pow2(l), l);
    PlaceFills(h, w, highs[..], lows[..], c, l, i);
  }

  lemma FieldEnds(m: nat, l: nat, i: nat)
    requires i < m
    ensures i * l + l <= m * l && (i + 1) * l == i * l + l
  {
    MulMonotone(i + 1, m, l);
  }

  lemma PlaceFills(h: seq<bool>, w: seq<bool>, h': seq<bool>, w': seq<bool>, c: seq<nat>, l: nat, i: nat)
    requires i < |c| && Positions(c, l)[i] < |h| && |w'| == |w| && Filled(h, w, c, l, i)
    requires h' == h[Positions(c, l)[i] := true]
    requires forall p :: 0 <= p < |w| ==>
      w'[p] == (w[p] || (i * l <= p < i * l + l && BitOf(c[i] % Pow2(l), p - i * l)))
    ensures Filled(h', w', c, l, i + 1)
  {
    hide BitOf, Pow2, HoldsLow;
    var pos := Positions(c, l);
    assert pos[..i + 1] == pos[..i] + [pos[i]];
    FieldEnds(|c|, l, i);
    PlacedField(w, w', c, l, i);
    forall j | 0 <= j < i ensures HoldsLow(w', c, l, j) {
      assert HoldsLow(w, c, l, j);
      OtherField(w, w', c, l, i, j);
    }
  }

  /** Writing element `i` fills its field, which was blank, */
  lemma PlacedField(w: seq<bool>, w': seq<bool>, c: seq<nat>, l: nat, i: nat)
    requires i < |c| && |w'| == |w| && i * l + l <= |w| && forall p :: i * l <= p < |w| ==> !w[p]
    requires forall p :: 0 <= p < |w| ==>
      w'[p] == (w[p] || (i * l <= p < i * l + l && BitOf(c[i] % Pow2(l), p - i * l)))
    ensures HoldsLow(w', c, l, i)
  {
    hide BitOf, Pow2;
    assert Field(w', l, i) == BitsOf(c[i] % Pow2(l), l);
  }

  /** and leaves the fields before it alone. */
  lemma OtherField(w: seq<bool>, w': seq<bool>, c: seq<nat>, l: nat, i: nat, j: nat)
    requires j < i < |c| && |w'| == |w| && HoldsLow(w, c, l, j)
    requires forall p :: 0 <= p < |w| && p < i * l ==> w'[p] == w[p]
    ensures HoldsLow(w', c, l, j)
  {
    hide BitOf, Pow2;
    FieldEnds(i, l, j);
    assert Field(w', l, j) == Field(w, l, j);
  }

  /** Blank planes for `c` at width `l`: the bitmap spans the high parts and the element count. */
  method Allocate(ghost c: seq<nat>, m: nat, l: nat, universe: nat) returns (highs: array<bool>, lows: array<bool>)
    requires m == |c| && Ascending(c) && (c != [] ==> c[|c| - 1] <= universe)
    ensures fresh(highs) && fresh(lows) && highs != lows
    ensures highs.Length == 64 * BitmapWords(universe, l, |c|) && lows.Length == 8 * DivCeil(|c| * l, 8)
    ensures HasRoom(highs.Length, lows.Length, c, l) && Filled(highs[..], lows[..], c, l, 0)
  {
    highs := new bool[64 * BitmapWords(universe, l, m)](_ => false);
    lows := new bool[8 * DivCeil(m * l, 8)](_ => false);
    SizedFor(c, l, universe, highs.Length, lows.Length);
    Nothing(highs[..], lows[..], c, l);
  }

  function BitmapWords(universe: nat, l: nat, m: nat): (words: nat)
    ensures words > 0 && HighPosition(universe, l, m) <= 64 * words
  {
    var words := DivCeil(HighPosition(universe, l, m), 64);
    if words == 0 then 1 else words
  }

  /** `EfMono::encode`. */
  method Encode(values: seq<nat>) returns (e: Ef)
    requires Ascending(values) && forall v :: v in values ==> v < U64
    ensures Represents(e, values)
    ensures e.l == LowBits(Universe(values), |values|) && |e.highs| <= 3 * |values| + 64
  {
    hide Filled, HasRoom, LowBits, Samples, Counted;
    var m, universe := |values|, Universe(values);
    var l := LowBits(universe, m);
    assert values != [] ==> universe in values;
    LowBitsFit(universe, m);
    var highs, lows := Allocate(values, m, l, universe);
    for i := 0 to m
      invariant Filled(highs[..], lows[..], values, l, i)
    {
      Place(highs, lows, values, l, i, values[i]);
    }
    var sample := BuildSample(highs[..], m);
    e := Ef(m, l, lows[..], highs[..], sample);
    SizedPositions(values, l, highs.Length, lows.Length);
    BitmapSmall(universe, m);
  }

  function Universe(values: seq<nat>): nat {
    if values == [] then 0 else values[|values| - 1]
  }

  lemma SizedPositions(c: seq<nat>, l: nat, highs: nat, lows: nat)
    requires HasRoom(highs, lows, c, l)
    ensures forall i :: 0 <= i < |c| ==> Positions(c, l)[i] < highs
  {
  }

  lemma SizedFor(c: seq<nat>, l: nat, universe: nat, highs: nat, lows: nat)
    requires Ascending(c) && (c != [] ==> c[|c| - 1] <= universe)
    requires HighPosition(universe, l, |c|) <= highs && |c| * l <= lows
    ensures HasRoom(highs, lows, c, l)
  {
    forall i | 0 <= i < |c| ensures Positions(c, l)[i] < highs {
      DivMonotone(c[i], universe, Pow2(l));
    }
  }

  lemma Nothing(h: seq<bool>, w: seq<bool>, c: seq<nat>, l: nat)
    requires |w| >= |c| * l
    requires forall q :: 0 <= q < |h| ==> !h[q]
    requires forall q :: 0 <= q < |w| ==> !w[q]
    ensures Filled(h, w, c, l, 0)
  {
  }

  // ---- reading ----

  /** What decoding checks and rebuilds; nothing more is known of a plane off disk. */
  ghost predicate Loaded(e: Ef) {
    && e.l <= MAX_LOW_BITS && |e.highs| % 64 == 0
    && Ones(e.highs) == e.m && |e.lows| == 8 * DivCeil(e.m * e.l, 8)
    && e.sample == Samples(e.highs, e.m)
  }

  /** Every sampled one-bit lies below bit 2^32, so its sample is not cut. */
  ghost predicate SamplesFit(highs: seq<bool>, m: nat)
    requires m <= Ones(highs)
  {
    forall i :: 0 <= i < m && i % SELECT_SAMPLE == 0 ==> Select(highs, i) < U32
  }

  ghost predicate Usable(e: Ef) {
    Loaded(e) && SamplesFit(e.highs, e.m)
  }

  /** A sample is the one-bit it stands for if and only if that bit lies below 2^32. */
  lemma SampleExactIff(highs: seq<bool>, m: nat, s: nat)
    requires m <= Ones(highs) && s < DivCeil(m, SELECT_SAMPLE)
    ensures IsSelect(highs, SELECT_SAMPLE * s, Samples(highs, m)[s]) <==> Select(highs, SELECT_SAMPLE * s) < U32
  {
    hide Ones;
    var p := Select(highs, SELECT_SAMPLE * s);
    if IsSelect(highs, SELECT_SAMPLE * s, p % U32) {
      SelectUnique(highs, SELECT_SAMPLE * s, p, p % U32);
    }
  }

  /** A walk starts at or before the one-bit its sample stands for, so it cannot run off the end. */
  lemma WalkStays(e: Ef, i: nat)
    requires Loaded(e) && i < e.m
    ensures i / SELECT_SAMPLE < |e.sample| && e.sample[i / SELECT_SAMPLE] < |e.highs|
    ensures OnesBefore(e.highs, e.sample[i / SELECT_SAMPLE] + 1) + i % SELECT_SAMPLE <= i + 1 <= Ones(e.highs)
  {
    SampleBelow(e.highs, e.m, i);
  }

  lemma SampleBelow(highs: seq<bool>, m: nat, i: nat)
    requires m <= Ones(highs) && i < m
    ensures var s := i / SELECT_SAMPLE;
            && s < |Samples(highs, m)| && Samples(highs, m)[s] < |highs|
            && OnesBefore(highs, Samples(highs, m)[s] + 1) + i % SELECT_SAMPLE <= i + 1
  {
    hide Ones, Select;
    var s := i / SELECT_SAMPLE;
    assert SELECT_SAMPLE * s == i - i % SELECT_SAMPLE;
    var p := Select(highs, SELECT_SAMPLE * s);
    assert IsSelect(highs, SELECT_SAMPLE * s, p);
    OnesMonotone(highs, p % U32 + 1, p + 1);
  }

  /** The bit the reader finds for element `i`. */
  ghost function Found(e: Ef, i: nat): (p: nat)
    requires Loaded(e) && i < e.m
    ensures p < |e.highs|
  {
    WalkStays(e, i);
    Walk(e.highs, e.sample[i / SELECT_SAMPLE], i % SELECT_SAMPLE)
  }

  lemma FoundIsSelect(e: Ef, i: nat)
    requires Loaded(e) && i < e.m && Select(e.highs, i - i % SELECT_SAMPLE) < U32
    ensures Found(e, i) == Select(e.highs, i)
  {
    hide Ones, OnesBefore, Select, Walk, Loaded;
    WalkStays(e, i);
    LoadedOnes(e);
    SampleIs(e, i);
    WalkFromSelect(e.highs, i - i % SELECT_SAMPLE, i % SELECT_SAMPLE);
  }

  lemma SampleIs(e: Ef, i: nat)
    requires Loaded(e) && i < e.m
    ensures i / SELECT_SAMPLE < |e.sample| && i - i % SELECT_SAMPLE < Ones(e.highs)
    ensures e.sample[i / SELECT_SAMPLE] == Select(e.highs, i - i % SELECT_SAMPLE) % U32
  {
    hide Ones, Select, DivCeil;
    WalkStays(e, i);
    assert SELECT_SAMPLE * (i / SELECT_SAMPLE) == i - i % SELECT_SAMPLE;
  }

  /** From the `j`-th one-bit the walk of `k` ones ends at the one `k` further on. */
  lemma WalkFromSelect(highs: seq<bool>, j: nat, k: nat)
    requires j + k < Ones(highs)
    ensures Select(highs, j) < |highs| && OnesBefore(highs, Select(highs, j) + 1) == j + 1
    ensures Walk(highs, Select(highs, j), k) == Select(highs, j + k)
  {
    hide Ones;
    assert IsSelect(highs, j, Select(highs, j));
  }

  /** The reader finds every element's own one-bit if and only if every sampled one lies below 2^32. */
  lemma FoundIff(e: Ef)
    requires Loaded(e)
    ensures (forall i :: 0 <= i < e.m ==> Found(e, i) == Select(e.highs, i)) <==> SamplesFit(e.highs, e.m)
  {
    hide Ones, Loaded, Select, Found;
    LoadedOnes(e);
    if SamplesFit(e.highs, e.m) {
      forall i | 0 <= i < e.m ensures Found(e, i) == Select(e.highs, i) {
        var j := i - i % SELECT_SAMPLE;
        assert j % SELECT_SAMPLE == 0 && Select(e.highs, j) < U32;
        FoundIsSelect(e, i);
      }
    } else {
      var i :| 0 <= i < e.m && i % SELECT_SAMPLE == 0 && Select(e.highs, i) >= U32;
      FoundIsCut(e, i);
    }
  }

  lemma LoadedOnes(e: Ef)
    requires Loaded(e)
    ensures Ones(e.highs) == e.m
  {
  }

  /** At a sampled element the reader returns the sample as it is, cut. */
  lemma FoundIsCut(e: Ef, i: nat)
    requires Loaded(e) && i < e.m && i % SELECT_SAMPLE == 0
    ensures Found(e, i) == Select(e.highs, i) % U32
  {
    hide Ones, Select, DivCeil;
    WalkStays(e, i);
    assert SELECT_SAMPLE * (i / SELECT_SAMPLE) == i;
  }

  /** Element `i` read off bit `p`: the high part, shifted, over the packed low bits, in 64 bits. */
  ghost function At(e: Ef, p: nat, i: nat): nat
    requires Loaded(e) && i < e.m
  {
    LowInside(e, i);
    (p - i) % U64 * Pow2(e.l) % U64 + ReadLow(e.lows, e.l, i)
  }

  /** What the reader returns for element `i` of any plane that decodes. */
  ghost function ValueOf(e: Ef, i: nat): nat
    requires Loaded(e) && i < e.m
  {
    At(e, Found(e, i), i)
  }

  lemma LowInside(e: Ef, i: nat)
    requires |e.lows| == 8 * DivCeil(e.m * e.l, 8) && i < e.m
    ensures i * e.l + e.l <= |e.lows|
  {
    FieldEnds(e.m, e.l, i);
  }

  method SelectElement(e: Ef, i: nat) returns (p: nat)
    requires Loaded(e) && i < e.m
    ensures p == Found(e, i)
  {
    WalkStays(e, i);
    p := Select1(e.highs, e.sample, i);
  }

  /** Join a high part and a low part, as the source does in 64-bit arithmetic. */
  method ReadAt(e: Ef, p: nat, i: nat) returns (v: nat)
    requires Loaded(e) && i < e.m
    ensures v == At(e, p, i)
  {
    hide ReadLow, DivCeil, Samples, Ones;
    LowInside(e, i);
    v := (p - i) % U64 * Pow2(e.l) % U64 + ReadLow(e.lows, e.l, i);
  }

  method ValueAt(e: Ef, i: nat) returns (v: nat)
    requires Loaded(e) && i < e.m
    ensures v == ValueOf(e, i)
  {
    hide Loaded, At, Found;
    var p := SelectElement(e, i);
    v := ReadAt(e, p, i);
  }

  lemma RepresentsLoaded(e: Ef, c: seq<nat>)
    requires Represents(e, c) && Ascending(c)
    ensures Loaded(e) && e.m == |c|
  {
    hide Filled, Samples, DivCeil;
    SelectIsPosition(e, c, |c|);
  }

  /** The sampled positions of `c` at width `l` lie below 2^32: what a caller can check. */
  ghost predicate PositionsFit(c: seq<nat>, l: nat) {
    forall i :: 0 <= i < |c| && i % SELECT_SAMPLE == 0 ==> Positions(c, l)[i] < U32
  }

  /** On an encoded plane the samples are exact if and only if those positions fit. */
  lemma RepresentsUsableIff(e: Ef, c: seq<nat>)
    requires Represents(e, c) && Ascending(c)
    ensures Loaded(e) && e.m == |c|
    ensures Usable(e) <==> PositionsFit(c, e.l)
  {
    hide Represents, Loaded, Select, Ones, Positions;
    RepresentsLoaded(e, c);
    LoadedOnes(e);
    forall i | 0 <= i < |c| ensures Select(e.highs, i) == Positions(c, e.l)[i] {
      SelectIsPosition(e, c, i);
      SelectUnique(e.highs, i, Select(e.highs, i), Positions(c, e.l)[i]);
    }
  }

  /** A plane with a bitmap of at most 2^32 bits always qualifies. */
  lemma ShortPlanesFit(e: Ef, c: seq<nat>)
    requires Represents(e, c) && |e.highs| <= U32
    ensures PositionsFit(c, e.l)
  {
    hide Filled, Samples, DivCeil;
  }

  /** The encoder's bitmap has fewer than three bits an element, so its positions fit a sample. */
  lemma BitmapSmall(universe: nat, m: nat)
    ensures 64 * BitmapWords(universe, LowBits(universe, m), m) <= 3 * m + 64 + (if m == 0 then universe else 0)
  {
    hide LowBits;
    if m > 0 {
      HighPartIsSmall(universe, m);
    } else {
      NoLowBits(universe);
      assert Pow2(0) == 1;
    }
  }

  lemma NoLowBits(universe: nat)
    ensures LowBits(universe, 0) == 0
  {
  }

  lemma FoundAll(e: Ef, i: nat)
    requires Usable(e) && i < e.m
    ensures i < Ones(e.highs) && Found(e, i) == Select(e.highs, i)
  {
    hide Found, Select, SamplesFit;
    FoundIff(e);
  }

  lemma SelectsHighPart(e: Ef, c: seq<nat>, i: nat)
    requires Represents(e, c) && Ascending(c) && i < |c|
    ensures i < Ones(e.highs) && Select(e.highs, i) - i == Quotient(c[i], Pow2(e.l))
  {
    hide Represents, Pow2, Select, Quotient;
    SelectIsPosition(e, c, i);
    SelectUnique(e.highs, i, Select(e.highs, i), Positions(c, e.l)[i]);
  }

  // ---- what shifting a found position keeps ----

  lemma MulAtLeast(d: int, n: nat)
    ensures d >= 1 ==> d * n >= n
    ensures d <= -1 ==> d * n <= 0 - n
  {
    if d >= 1 {
      MulMonotone(1, d, n);
    } else if d <= -1 {
      MulMonotone(1, 0 - d, n);
    }
  }

  lemma ModIs(a: int, n: nat, k: int, r: int)
    requires n > 0 && a == k * n + r && 0 <= r < n
    ensures a % n == r
  {
    var d := k - a / n;
    assert d * n == a % n - r;
    MulAtLeast(d, n);
  }

  lemma ShiftMod(x: int, m: nat, p: nat)
    requires m > 0 && p > 0
    ensures x * p % (m * p) == x % m * p
  {
    var q, r := x / m, x % m;
    assert x * p == q * (m * p) + r * p;
    assert r * p <= (m - 1) * p;
    ModIs(x * p, m * p, q, r * p);
  }

  lemma ModOfMod(x: int, m: nat, p: nat)
    requires m > 0 && p > 0
    ensures x % (m * p) % m == x % m
  {
    var k := x / (m * p);
    assert x % (m * p) == (x / m - k * p) * m + x % m;
    ModIs(x % (m * p), m, x / m - k * p, x % m);
  }

  /** `x` and `q` have the same remainder exactly when their difference has none. */
  lemma SameRemainder(x: int, q: nat, m: nat)
    requires m > 0 && q < m
    ensures x % m == q <==> (x - q) % m == 0
  {
    if x % m == q {
      ModIs(x - q, m, x / m, 0);
    }
    if (x - q) % m == 0 {
      ModIs(x, m, (x - q) / m, q);
    }
  }

  lemma PartsIff(h: nat, q: nat, p: nat, low: nat, r: nat)
    requires low < p && r < p
    ensures h * p + low == q * p + r <==> h == q && low == r
  {
    assert (h - q) * p == h * p - q * p;
    MulAtLeast(h - q, p);
  }

  /** A position found for the element with high part `q` and low part `r`, read with low part `low`. */
  lemma ReadIff(found: int, i: nat, v: nat, low: nat, m: nat, p: nat)
    requires m > 0 && p > 0 && m * p == U64 && v < U64 && low < p
    ensures (found - i) % U64 * p % U64 + low == v <==> (found - i - v / p) % m == 0 && low == v % p
  {
    QuotientFits(v, m, p);
    ShiftWord(found - i, m, p);
    PartsIff((found - i) % m, v / p, p, low, v % p);
    SameRemainder(found - i, v / p, m);
  }

  lemma QuotientFits(v: nat, m: nat, p: nat)
    requires p > 0 && v < m * p
    ensures v / p < m && v == v / p * p + v % p
  {
    if v / p >= m {
      MulMonotone(m, v / p, p);
    }
  }

  lemma ShiftWord(x: int, m: nat, p: nat)
    requires m > 0 && p > 0 && m * p == U64
    ensures x % U64 * p % U64 == x % m * p
  {
    ShiftMod(x % U64, m, p);
    ModOfMod(x, m, p);
  }

  lemma ReadLowBound(lows: seq<bool>, l: nat, i: nat)
    requires i * l <= |lows|
    ensures ReadLow(lows, l, i) < Pow2(l)
  {
    hide BitsValue;
  }

  /** The walk for element `i` ends where the shift can make up for it: at the element's own one-bit,
      or a multiple of 2^(64 - width) bits away. */
  ghost predicate Lands(e: Ef, i: nat)
    requires Loaded(e) && i < e.m
  {
    LoadedOnes(e);
    (Found(e, i) - Select(e.highs, i)) % Pow2(64 - e.l) == 0
  }

  lemma SplitWord(l: nat)
    requires l <= 64
    ensures Pow2(64 - l) * Pow2(l) == U64
  {
    Pow2Add(64 - l, l);
    Pow63();
  }

  /** What reading an encoded element gives, for every width and however long the bitmap: the element
      itself if and only if its low part fits the bits the eight-byte window reaches and the walk
      lands. It does when the sampled positions fit. */
  lemma ValueIff(e: Ef, c: seq<nat>, i: nat)
    requires Represents(e, c) && Ascending(c) && i < |c| && c[i] < U64
    ensures Loaded(e) && e.m == |c|
    ensures ValueOf(e, i) == c[i] <==> c[i] % Pow2(e.l) < Pow2(Readable(e.l, i)) && Lands(e, i)
    ensures PositionsFit(c, e.l) ==> Usable(e) && Lands(e, i)
  {
    hide Represents, Loaded, Select, Found, Ones, PositionsFit, SamplesFit, ReadLow, Readable, Pow2, Quotient, HoldsLow;
    RepresentsUsableIff(e, c);
    SelectsHighPart(e, c, i);
    LoadedOnes(e);
    ValueReads(e, c[i], i);
    FilledAt(e, c, i);
    LowReads(e, c, i);
    if PositionsFit(c, e.l) {
      FoundAll(e, i);
    }
  }

  lemma ValueReads(e: Ef, v: nat, i: nat)
    requires Loaded(e) && i < e.m && i < Ones(e.highs) && v < U64 && Select(e.highs, i) - i == Quotient(v, Pow2(e.l))
    ensures i * e.l + e.l <= |e.lows|
    ensures ValueOf(e, i) == v <==> Lands(e, i) && ReadLow(e.lows, e.l, i) == v % Pow2(e.l)
  {
    hide Loaded, ReadLow, Pow2, Select, Found, Ones, ValueOf;
    LoadedWidth(e);
    LoadedLow(e, i);
    ReadLowBound(e.lows, e.l, i);
    SplitWord(e.l);
    ValueAsRead(e, i);
    ReadIff(Found(e, i), i, v, ReadLow(e.lows, e.l, i), Pow2(64 - e.l), Pow2(e.l));
  }

  lemma ValueAsRead(e: Ef, i: nat)
    requires Loaded(e) && i < e.m
    ensures i * e.l <= |e.lows|
    ensures ValueOf(e, i) == (Found(e, i) - i) % U64 * Pow2(e.l) % U64 + ReadLow(e.lows, e.l, i)
  {
    hide ReadLow, Pow2, Found, Ones, Samples, DivCeil;
    LowInside(e, i);
  }

  lemma LoadedWidth(e: Ef)
    requires Loaded(e)
    ensures e.l <= MAX_LOW_BITS
  {
  }

  lemma LoadedLow(e: Ef, i: nat)
    requires Loaded(e) && i < e.m
    ensures i * e.l + e.l <= |e.lows|
  {
    LowInside(e, i);
  }

  lemma LowReads(e: Ef, c: seq<nat>, i: nat)
    requires i < |c| && i * e.l + e.l <= |e.lows| && HoldsLow(e.lows, c, e.l, i)
    ensures ReadLow(e.lows, e.l, i) == c[i] % Pow2(e.l) <==> c[i] % Pow2(e.l) < Pow2(Readable(e.l, i))
  {
    hide Readable, ReadLow;
    LowReadIff(e.lows, e.l, i, c[i] % Pow2(e.l));
  }

  lemma FilledAt(e: Ef, c: seq<nat>, i: nat)
    requires Represents(e, c) && i < |c|
    ensures HoldsLow(e.lows, c, e.l, i)
  {
  }

  /** Low parts that every element of `c` gets back. */
  ghost predicate LowsReach(c: seq<nat>, l: nat) {
    forall i :: 0 <= i < |c| ==> c[i] % Pow2(l) < Pow2(Readable(l, i))
  }

  lemma NarrowLowsReach(c: seq<nat>, l: nat)
    requires l <= 58 || l == 60
    ensures LowsReach(c, l)
  {
    hide Readable;
    WideFieldsIff(l);
    forall i | 0 <= i < |c| ensures c[i] % Pow2(l) < Pow2(Readable(l, i)) {
      assert Readable(l, i) == l;
    }
  }

  ghost predicate AllLand(e: Ef)
    requires Loaded(e)
  {
    forall i :: 0 <= i < e.m ==> Lands(e, i)
  }

  /** A plane reads back whole if and only if every low part is reached and every walk lands, as all do
      when the sampled positions fit. */
  lemma PlaneRoundTripIff(e: Ef, c: seq<nat>)
    requires Represents(e, c) && Ascending(c)
    requires forall i :: 0 <= i < |c| ==> c[i] < U64
    ensures Loaded(e) && e.m == |c|
    ensures (forall i :: 0 <= i < |c| ==> ValueOf(e, i) == c[i]) <==> LowsReach(c, e.l) && AllLand(e)
    ensures PositionsFit(c, e.l) ==> Usable(e) && AllLand(e)
  {
    hide Readable, Represents, Loaded, SamplesFit, ValueOf, PositionsFit, Lands;
    RepresentsUsableIff(e, c);
    forall i | 0 <= i < |c|
      ensures ValueOf(e, i) == c[i] <==> c[i] % Pow2(e.l) < Pow2(Readable(e.l, i)) && Lands(e, i)
      ensures PositionsFit(c, e.l) ==> Lands(e, i)
    {
      ValueIff(e, c, i);
    }
  }

  lemma RepresentsLength(e: Ef, c: seq<nat>)
    requires Represents(e, c)
    ensures e.m == |c|
  {
  }

  const WIDE: nat := 0x7fff_ffff_ffff_ffff

  lemma WideWidth()
    ensures LowBits(WIDE, 2) == 61 && Readable(61, 1) == 59 && WIDE % Pow2(61) >= Pow2(59)
  {
    Pow63();
    assert Pow2(63) == 2 * Pow2(62) && Pow2(62) == 2 * Pow2(61) && Pow2(61) == 2 * Pow2(60) && Pow2(60) == 2 * Pow2(59);
    Ilog2Unique(WIDE / 2, 61);
  }

  lemma WidePositionsFit()
    ensures PositionsFit([0, WIDE], LowBits(WIDE, 2))
  {
    hide LowBits, Pow2;
  }

  /** A two-element plane the encoder builds and its reader gets wrong. */
  lemma WidePlaneLosesBits(e: Ef)
    requires Represents(e, [0, WIDE]) && e.l == LowBits(WIDE, 2)
    ensures Usable(e) && e.m == 2 && ValueOf(e, 1) != WIDE
  {
    hide Represents, Usable, LowBits, Readable, ValueOf, Pow2, Lands, PositionsFit;
    WideWidth();
    WidePositionsFit();
    ValueIff(e, [0, WIDE], 1);
  }

  /** First index whose value is at least `x`, by binary search over the reads. */
  method Successor(e: Ef, x: nat, ghost c: seq<nat>) returns (k: nat)
    requires Loaded(e) && e.m == |c| && Ascending(c)
    requires forall i :: 0 <= i < |c| ==> ValueOf(e, i) == c[i]
    ensures k <= |c| && (forall j :: 0 <= j < k ==> c[j] < x) && (forall j :: k <= j < |c| ==> c[j] >= x)
  {
    hide Loaded, ValueOf;
    var lo, hi := 0, e.m;
    while lo < hi
      invariant 0 <= lo <= hi <= |c|
      invariant forall j :: 0 <= j < lo ==> c[j] < x
      invariant forall j :: hi <= j < |c| ==> c[j] >= x
    {
      var mid := lo + (hi - lo) / 2;
      var v := ValueAt(e, mid);
      if v < x {
        lo := mid + 1;
      } else {
        hi := mid;
      }
    }
    k := lo;
  }
}

/** One Elias-Fano degree chunk (crates/graph-format/src/degree_ef.rs:126-336): the chunk's running
    degree totals as an Elias-Fano plane, so that a degree is the difference of two neighbours. */
module DegreeEf {
  import opened Collections
  import opened Order
  import opened Wire
  import opened Bits
  import opened EliasFano

  /** More degrees than any record under 4 GiB can hold. */
  const MAX_DEGREES: nat := 0x4000_0000

  predicate IsDegrees(d: seq<nat>) {
    |d| <= MAX_DEGREES && forall i :: 0 <= i < |d| ==> d[i] < U32
  }

  function Total(d: seq<nat>, i: nat): nat
    requires i <= |d|
  {
    Sum(d[..i])
  }

  /** The running totals `0, d0, d0 + d1, ...`: one more than there are degrees. */
  function Totals(d: seq<nat>): (c: seq<nat>)
    ensures |c| == |d| + 1
  {
    seq(|d| + 1, i requires 0 <= i <= |d| => Total(d, i))
  }

  lemma TotalsAscend(d: seq<nat>)
    ensures Ascending(Totals(d))
  {
    forall i, j | 0 <= i < j <= |d| ensures Totals(d)[i] <= Totals(d)[j] {
      SumMonotone(d, i, j);
    }
  }

  lemma {:induction false} TotalBound(d: seq<nat>, i: nat)
    requires IsDegrees(d) && i <= |d|
    ensures Total(d, i) <= i * (U32 - 1)
  {
    if i == 0 {
      assert d[..0] == [];
    } else {
      TotalBound(d, i - 1);
      SumPrefix(d, i - 1);
    }
  }

  lemma TotalsFit(d: seq<nat>)
    requires IsDegrees(d)
    ensures forall i :: 0 <= i <= |d| ==> Totals(d)[i] <= |d| * (U32 - 1) < U64
  {
    forall i | 0 <= i <= |d| ensures Totals(d)[i] <= |d| * (U32 - 1) {
      TotalBound(d, i);
      MulMonotone(i, |d|, U32 - 1);
    }
    MulMonotone(|d|, MAX_DEGREES, U32 - 1);
  }

  /** A chunk's low width never passes 31 bits. */
  lemma ChunkWidth(d: seq<nat>)
    requires IsDegrees(d)
    ensures LowBits(Total(d, |d|), |d| + 1) <= 31
  {
    var u, m := Total(d, |d|), |d| + 1;
    TotalBound(d, |d|);
    if u >= m {
      var q := u / m;
      DivBelow(u, m, U32);
      if Ilog2(q) >= 32 {
        if Ilog2(q) > 32 { Pow2Monotone(32, Ilog2(q)); }
        Pow32();
        assert false;
      }
    }
  }

  lemma Pow32()
    ensures Pow2(32) == U32
  {
    assert Pow2(8) == 256 by { assert Pow2(4) == 16; }
    Pow2Add(8, 8);
    Pow2Add(16, 16);
  }

  /** Encode a chunk at the width the encoder picks. */
  method Encode(d: seq<nat>) returns (e: Ef)
    requires IsDegrees(d)
    ensures Represents(e, Totals(d))
    ensures e.l == LowBits(Total(d, |d|), |d| + 1) <= 31
    ensures |e.highs| == 64 * BitmapWords(Total(d, |d|), e.l, |d| + 1) <= 3 * (|d| + 1) + 64
  {
    hide Represents, LowBits, IsDegrees, BitmapWords;
    ChunkWidth(d);
    e := EncodeAt(d, LowBits(Total(d, |d|), |d| + 1));
    BitmapSmall(Total(d, |d|), |d| + 1);
  }

  /** Encode a chunk at any given width: the totals' one-bits and low parts, nothing else. */
  method EncodeAt(d: seq<nat>, l: nat) returns (e: Ef)
    requires l <= MAX_LOW_BITS
    ensures Represents(e, Totals(d)) && e.l == l && |e.highs| == 64 * BitmapWords(Total(d, |d|), l, |d| + 1)
  {
    hide Filled, HasRoom, Samples, Counted, Ascending, BitmapWords, DivCeil;
    var m, total := |d| + 1, Total(d, |d|);
    ghost var c := Totals(d);
    TotalsAscend(d);
    var highs, lows := Allocate(c, m, l, total);
    Fill(d, l, highs, lows);
    var sample := BuildSample(highs[..], m);
    e := Ef(m, l, lows[..], highs[..], sample);
    SizedPositions(c, l, highs.Length, lows.Length);
  }

  /** The encoder's loop: place every running total while adding up the degrees. */
  method Fill(d: seq<nat>, l: nat, highs: array<bool>, lows: array<bool>)
    requires highs != lows && HasRoom(highs.Length, lows.Length, Totals(d), l)
    requires Filled(highs[..], lows[..], Totals(d), l, 0)
    modifies highs, lows
    ensures Filled(highs[..], lows[..], Totals(d), l, |d| + 1)
  {
    hide Filled, HasRoom;
    ghost var c := Totals(d);
    var run := 0;
    assert d[..0] == [];
    for i := 0 to |d| + 1
      invariant Filled(highs[..], lows[..], c, l, i)
      invariant run == Total(d, Min(i, |d|))
    {
      Place(highs, lows, c, l, i, run);
      if i < |d| {
        SumPrefix(d, i);
        run := run + d[i];
      }
    }
  }

  // ---- reading a degree ----

  /** The first one-bit strictly after `p`. */
  method NextOneAfter(highs: seq<bool>, p: nat) returns (q: nat)
    requires |highs| % 64 == 0 && p < |highs| && OnesBefore(highs, p + 1) < Ones(highs)
    ensures p < q < |highs| && highs[q] && forall k :: p < k < q ==> !highs[k]
  {
    hide OnesBefore;
    var wi := (p + 1) / 64;
    OneLater(highs, p, p + 1);
    var w := MaskFrom(Word(highs, wi), (p + 1) % 64);
    ghost var base := p + 1;
    while TrailingZeros(w) == 64
      invariant 64 * wi <= base <= 64 * wi + 64 <= |highs| && p < base
      invariant w == MaskFrom(Word(highs, wi), base - 64 * wi)
      invariant forall k :: p < k < base ==> !highs[k]
      decreases |highs| - 64 * wi
    {
      NoneInWord(highs, wi, base);
      OneLater(highs, p, 64 * wi + 64);
      wi := wi + 1;
      w := Word(highs, wi);
      base := 64 * wi;
      assert w == MaskFrom(w, 0);
    }
    q := 64 * wi + TrailingZeros(w);
    FirstInWord(highs, wi, base);
  }

  lemma NoneInWord(highs: seq<bool>, wi: nat, base: nat)
    requires 64 * wi <= base <= 64 * wi + 64 <= |highs|
    requires TrailingZeros(MaskFrom(Word(highs, wi), base - 64 * wi)) == 64
    ensures forall k :: base <= k < 64 * wi + 64 ==> !highs[k]
  {
    forall k | base <= k < 64 * wi + 64 ensures !highs[k] {
      assert !MaskFrom(Word(highs, wi), base - 64 * wi)[k - 64 * wi];
    }
  }

  lemma FirstInWord(highs: seq<bool>, wi: nat, base: nat)
    requires 64 * wi <= base <= 64 * wi + 64 <= |highs|
    requires TrailingZeros(MaskFrom(Word(highs, wi), base - 64 * wi)) < 64
    ensures var q := 64 * wi + TrailingZeros(MaskFrom(Word(highs, wi), base - 64 * wi));
            base <= q && highs[q] && forall k :: base <= k < q ==> !highs[k]
  {
    var w := MaskFrom(Word(highs, wi), base - 64 * wi);
    var t := TrailingZeros(w);
    assert w[t];
    forall k | base <= k < 64 * wi + t ensures !highs[k] {
      assert !w[k - 64 * wi];
    }
  }

  /** While a later one exists, a scan that has found none has not reached the end. */
  lemma OneLater(highs: seq<bool>, p: nat, base: nat)
    requires |highs| % 64 == 0 && p < base <= |highs| && OnesBefore(highs, p + 1) < Ones(highs)
    requires forall k :: p < k < base ==> !highs[k]
    ensures base < |highs| && 64 * (base / 64) + 64 <= |highs|
  {
    OnesGap(highs, p + 1, base);
  }

  /** The one-bit after `p`. */
  ghost function NextOne(highs: seq<bool>, p: nat): (q: nat)
    requires p < |highs| && OnesBefore(highs, p + 1) < Ones(highs)
    ensures q < |highs|
  {
    Select(highs, OnesBefore(highs, p + 1))
  }

  lemma NextOneIs(highs: seq<bool>, p: nat, q: nat)
    requires p < q < |highs| && highs[q] && (forall k :: p < k < q ==> !highs[k])
    ensures OnesBefore(highs, p + 1) < Ones(highs) && q == NextOne(highs, p)
  {
    OnesGap(highs, p + 1, q);
    OnesMonotone(highs, q + 1, |highs|);
    SelectUnique(highs, OnesBefore(highs, p + 1), q, Select(highs, OnesBefore(highs, p + 1)));
  }

  /** Past the bit found for a slot there is always another. */
  lemma NextExists(e: Ef, slot: nat)
    requires Loaded(e) && slot + 1 < e.m
    ensures |e.highs| % 64 == 0 && OnesBefore(e.highs, Found(e, slot) + 1) < Ones(e.highs)
  {
    hide Samples, DivCeil, Select;
    WalkStays(e, slot);
    var start, k := e.sample[slot / SELECT_SAMPLE], slot % SELECT_SAMPLE;
    if k > 0 {
      var goal := OnesBefore(e.highs, start + 1) + k - 1;
      assert IsSelect(e.highs, goal, Select(e.highs, goal));
    }
  }

  /** What a degree lookup returns: the difference of two neighbouring totals as read, the second
      off the next one-bit, clamped at zero and cut to 32 bits. */
  ghost function DegreeOf(e: Ef, slot: nat): nat
    requires Loaded(e) && slot + 1 < e.m
  {
    NextExists(e, slot);
    var p := Found(e, slot);
    var v0, v1 := At(e, p, slot), At(e, NextOne(e.highs, p), slot + 1);
    if v1 < v0 then 0 else (v1 - v0) % U32
  }

  method DegreeAt(e: Ef, slot: nat) returns (d: nat)
    requires Loaded(e) && slot + 1 < e.m
    ensures d == DegreeOf(e, slot)
  {
    hide Loaded, At, Found, NextOne, Ones, OnesBefore;
    var p0 := SelectElement(e, slot);
    NextExists(e, slot);
    var p1 := NextOneAfter(e.highs, p0);
    NextOneIs(e.highs, p0, p1);
    var v0 := ReadAt(e, p0, slot);
    var v1 := ReadAt(e, p1, slot + 1);
    d := if v1 < v0 then 0 else (v1 - v0) % U32;
  }

  /** With exact samples the next one-bit is the next element's, so a degree is the difference of
      two values. */
  lemma DegreeIsDifference(e: Ef, slot: nat)
    requires Usable(e) && slot + 1 < e.m
    ensures var v0, v1 := ValueOf(e, slot), ValueOf(e, slot + 1);
            DegreeOf(e, slot) == if v1 < v0 then 0 else (v1 - v0) % U32
  {
    hide Loaded, SamplesFit, At, Found, Select, Ones;
    FoundAll(e, slot);
    FoundAll(e, slot + 1);
    NextExists(e, slot);
    var p, q := Select(e.highs, slot), Select(e.highs, slot + 1);
    assert IsSelect(e.highs, slot, p) && OnesBefore(e.highs, p + 1) == slot + 1;
  }

  /** Every degree comes back from a plane of its totals, at every width whose low parts reach and
      whose sampled positions fit. */
  lemma DegreesReadBack(e: Ef, d: seq<nat>, slot: nat)
    requires IsDegrees(d) && Represents(e, Totals(d)) && PositionsFit(Totals(d), e.l) && slot < |d|
    requires LowsReach(Totals(d), e.l)
    ensures Usable(e) && e.m == |d| + 1 && DegreeOf(e, slot) == d[slot]
  {
    hide Represents, Loaded, SamplesFit, ValueOf, LowsReach, Sum, DegreeOf, PositionsFit;
    TotalsAscend(d);
    TotalsFit(d);
    PlaneRoundTripIff(e, Totals(d));
    DegreeIsDifference(e, slot);
    SumPrefix(d, slot);
    assert ValueOf(e, slot) == Totals(d)[slot] && ValueOf(e, slot + 1) == Totals(d)[slot + 1];
  }

  /** Totals below 2^57 reach at every width: the window loses at most seven bits. */
  lemma SmallTotalsReach(c: seq<nat>, l: nat)
    requires l <= MAX_LOW_BITS && forall i :: 0 <= i < |c| ==> c[i] < Pow2(57)
    ensures LowsReach(c, l)
  {
    hide Pow2;
    forall i | 0 <= i < |c| ensures c[i] % Pow2(l) < Pow2(Readable(l, i)) {
      var r := Readable(l, i);
      if r < l {
        if 57 < r { Pow2Monotone(57, r); }
        ModAtMost(c[i], Pow2(l));
      }
    }
  }

  /** So degrees read back at every width at which the sampled positions fit: at widths up to 58 and 60
      however many there are, and up to 2^25 of them at every width from 0 to 63. */
  lemma EveryWidthReadsBack(e: Ef, d: seq<nat>, slot: nat)
    requires IsDegrees(d) && Represents(e, Totals(d)) && slot < |d|
    requires |d| <= 0x200_0000 || e.l <= 58 || e.l == 60
    requires PositionsFit(Totals(d), e.l)
    ensures Usable(e) && e.m == |d| + 1 && DegreeOf(e, slot) == d[slot]
  {
    hide DegreeOf, Usable, Represents, LowsReach, Pow2, PositionsFit;
    if e.l <= 58 || e.l == 60 {
      NarrowLowsReach(Totals(d), e.l);
    } else {
      TotalsFit(d);
      MulMonotone(|d|, 0x200_0000, U32 - 1);
      Pow57();
      SmallTotalsReach(Totals(d), WidthOf(e, Totals(d)));
    }
    DegreesReadBack(e, d, slot);
  }

  /** Fewer than 64 degrees sample only bit 0, so they read back at every width without exception. */
  lemma FewDegreesReadBack(e: Ef, d: seq<nat>, slot: nat)
    requires IsDegrees(d) && |d| < SELECT_SAMPLE && Represents(e, Totals(d)) && slot < |d|
    ensures Usable(e) && e.m == |d| + 1 && DegreeOf(e, slot) == d[slot]
  {
    hide DegreeOf, Usable, Represents, LowsReach;
    assert d[..0] == [] && Totals(d)[0] == 0;
    EveryWidthReadsBack(e, d, slot);
  }

  lemma Pow57()
    ensures Pow2(57) == 0x200_0000 * U32
  {
    Pow32();
    Pow2Add(5, 5);
    Pow2Add(10, 5);
    Pow2Add(15, 10);
    Pow2Add(25, 32);
    assert Pow2(5) == 32;
  }

  ghost function WidthOf(e: Ef, c: seq<nat>): (l: nat)
    requires Represents(e, c)
    ensures l == e.l <= MAX_LOW_BITS
  {
    e.l
  }

  lemma ModAtMost(v: nat, p: nat)
    requires p > 0
    ensures v % p <= v
  {
  }

  // ---- the record body ----

  /** A chunk the decoder can have produced. */
  ghost predicate WellFormed(e: Ef) {
    && 0 < e.m <= U32 && e.l <= MAX_LOW_BITS
    && |e.lows| == 8 * DivCeil(e.m * e.l, 8)
    && |e.highs| % 64 == 0 && |e.highs| / 64 < U32
    && Ones(e.highs) == e.m
    && e.sample == Samples(e.highs, e.m)
  }

  function Serialize(e: Ef): (body: seq<byte>)
    requires 0 < e.m && e.l < 256 && |e.lows| % 8 == 0 && |e.highs| % 64 == 0
    ensures |body| == 9 + |e.lows| / 8 + |e.highs| / 8
  {
    LeBytes(e.m - 1, 4) + [e.l] + LeBytes(|e.highs| / 64, 4) + ToBytes(e.lows) + ToBytes(e.highs)
  }

  function Header(body: seq<byte>, lo: nat, hi: nat): nat
    requires lo <= hi <= |body|
  {
    LeValue(body[lo..hi])
  }

  lemma SerializedParts(e: Ef)
    requires WellFormed(e)
    ensures var body := Serialize(e); var low := |e.lows| / 8;
            && |body| == 9 + low + |e.highs| / 8
            && Header(body, 0, 4) == e.m - 1 && body[4] == e.l && Header(body, 5, 9) == |e.highs| / 64
            && FromBytes(body[9..9 + low]) == e.lows && FromBytes(body[9 + low..]) == e.highs
  {
    hide ToBytes, FromBytes, LeBytes, LeValue, Serialize, WellFormed;
    WellFormedSizes(e);
    Widths();
    LeRoundTrip(e.m - 1, 4);
    LeRoundTrip(|e.highs| / 64, 4);
    SerializedSlices(e);
    ToFromBytes(e.lows);
    ToFromBytes(e.highs);
  }

  lemma WellFormedSizes(e: Ef)
    requires WellFormed(e)
    ensures 0 < e.m <= U32 && e.l < 256 && |e.lows| % 8 == 0 && |e.highs| % 64 == 0 && |e.highs| / 64 < U32
  {
    hide Ones, Samples, DivCeil;
  }

  lemma SerializedSlices(e: Ef)
    requires 0 < e.m && e.l < 256 && |e.lows| % 8 == 0 && |e.highs| % 64 == 0
    ensures var body := Serialize(e); var low := |e.lows| / 8;
            && body[0..4] == LeBytes(e.m - 1, 4) && body[4] == e.l && body[5..9] == LeBytes(|e.highs| / 64, 4)
            && body[9..9 + low] == ToBytes(e.lows) && body[9 + low..] == ToBytes(e.highs)
  {
    hide ToBytes, LeBytes;
  }

  /** A body whose length matches its header is the serialisation of what it holds. */
  lemma PartsSerialize(e: Ef, body: seq<byte>)
    requires |body| >= 9 && e.m == Header(body, 0, 4) + 1 && e.l == body[4]
    requires |e.lows| % 8 == 0 && |body| == 9 + |e.lows| / 8 + |e.highs| / 8
    requires |e.highs| == 64 * Header(body, 5, 9)
    requires e.lows == FromBytes(body[9..9 + |e.lows| / 8]) && e.highs == FromBytes(body[9 + |e.lows| / 8..])
    ensures Serialize(e) == body
  {
    hide ToBytes, FromBytes, LeBytes, LeValue;
    var low := |e.lows| / 8;
    LeBytesOfValue(body[0..4]);
    LeBytesOfValue(body[5..9]);
    FromToBytes(body[9..9 + low]);
    FromToBytes(body[9 + low..]);
    assert body == body[0..4] + [body[4]] + body[5..9] + body[9..9 + low] + body[9 + low..];
  }

  ghost predicate Serializes(e: Ef, body: seq<byte>) {
    WellFormed(e) && Serialize(e) == body
  }

  /** What a body's header and planes say about the chunk it serialises. */
  ghost predicate Parsed(e: Ef, body: seq<byte>) {
    var low := DivCeil(e.m * e.l, 8);
    && |body| >= 9
    && e.m == Header(body, 0, 4) + 1 && e.l == body[4] <= MAX_LOW_BITS
    && |body| == 9 + low + Header(body, 5, 9) * 8
    && e.lows == FromBytes(body[9..9 + low]) && e.highs == FromBytes(body[9 + low..])
    && Ones(e.highs) == e.m && e.sample == Samples(e.highs, Counted(e.highs, e.m))
  }

  lemma ParsedIff(e: Ef, body: seq<byte>)
    ensures Parsed(e, body) <==> Serializes(e, body)
  {
    if Parsed(e, body) {
      Accepted(e, body);
    }
    if Serializes(e, body) {
      Reads(e);
    }
  }

  lemma Reads(e: Ef)
    requires WellFormed(e)
    ensures Parsed(e, Serialize(e))
  {
    hide OnesBefore, Samples, FromBytes, ToBytes, LeBytes, LeValue, Header;
    SerializedParts(e);
  }

  lemma Accepted(e: Ef, body: seq<byte>)
    requires |body| >= 9 && Parsed(e, body)
    ensures WellFormed(e) && Serialize(e) == body
  {
    hide Ones, Counted, Samples, FromBytes, Serialize, Header, DivCeil, Parsed, WellFormed;
    HeaderBounds(body);
    ParsedSizes(e, body);
    PartsSerialize(e, body);
  }

  lemma HeaderBounds(body: seq<byte>)
    requires |body| >= 9
    ensures Header(body, 0, 4) < U32 && Header(body, 5, 9) < U32
  {
    hide LeValue;
    Widths();
    LeValueBound(body[0..4]);
    LeValueBound(body[5..9]);
  }

  lemma ParsedSizes(e: Ef, body: seq<byte>)
    requires |body| >= 9 && Header(body, 0, 4) < U32 && Header(body, 5, 9) < U32 && Parsed(e, body)
    ensures WellFormed(e) && |body| == 9 + |e.lows| / 8 + |e.highs| / 8 && |e.highs| == 64 * Header(body, 5, 9)
    ensures e.m == Header(body, 0, 4) + 1 && e.l == body[4]
    ensures e.lows == FromBytes(body[9..9 + |e.lows| / 8]) && e.highs == FromBytes(body[9 + |e.lows| / 8..])
  {
    hide Ones, Samples, FromBytes, Header, DivCeil;
    var low := DivCeil(e.m * e.l, 8);
    assert |e.lows| == 8 * low;
    assert |e.highs| == 8 * |body[9 + low..]|;
  }

  /** Decoding accepts exactly the serialisations of well-formed chunks, and undoes them. */
  method Deserialize(body: seq<byte>) returns (r: Option<Ef>)
    ensures r.Some? ==> Serializes(r.value, body)
    ensures forall e :: Serializes(e, body) ==> r == Some(e)
  {
    forall e ensures Parsed(e, body) <==> Serializes(e, body) { ParsedIff(e, body); }
    r := Parse(body);
  }

  method Parse(body: seq<byte>) returns (r: Option<Ef>)
    ensures r.Some? ==> Parsed(r.value, body)
    ensures forall e :: Parsed(e, body) ==> r == Some(e)
  {
    hide Ones, OnesBefore, Samples, Header, FromBytes, Counted, DivCeil;
    if |body| < 9 {
      return None;
    }
    var m, l, words := Header(body, 0, 4) + 1, body[4], Header(body, 5, 9);
    if l > MAX_LOW_BITS {
      return None;
    }
    var low := DivCeil(m * l, 8);
    if |body| != 9 + low + words * 8 {
      return None;
    }
    var lows, highs := FromBytes(body[9..9 + low]), FromBytes(body[9 + low..]);
    if Ones(highs) != m {
      return None;
    }
    var sample := BuildSample(highs, m);
    r := Some(Ef(m, l, lows, highs, sample));
  }

  /** Whatever the decoder accepts can be read at every slot without leaving its planes. */
  lemma AcceptedIsLoaded(e: Ef)
    requires WellFormed(e)
    ensures Loaded(e)
  {
  }

  /** And the lookups find the right bits if and only if every sampled one lies below bit 2^32. */
  lemma AcceptedIsUsableIff(e: Ef)
    requires WellFormed(e)
    ensures Usable(e) <==> forall i :: 0 <= i < e.m ==> Found(e, i) == Select(e.highs, i)
  {
    hide Ones, Found, Select, SamplesFit;
    FoundIff(e);
  }

  /** An encoded chunk is well formed, so it survives the disk. */
  lemma EncodedIsWellFormed(e: Ef, d: seq<nat>)
    requires IsDegrees(d) && Represents(e, Totals(d)) && |e.highs| <= U32
    ensures WellFormed(e) && Usable(e)
  {
    hide Filled, Samples, OnesBefore, DivCeil, SamplesFit, PositionsFit;
    TotalsAscend(d);
    ShortPlanesFit(e, Totals(d));
    RepresentsUsableIff(e, Totals(d));
  }

  // ---- a bitmap too long for its samples ----

  /** A bitmap of 2^32 + 64 bits whose ones are bits 2^32 and 2^32 + 1. */
  ghost function LongBitmap(): (highs: seq<bool>)
    ensures |highs| == U32 + 64
  {
    seq(U32 + 64, i requires 0 <= i < U32 + 64 => U32 <= i < U32 + 2)
  }

  lemma LongBitmapOnes()
    ensures OnesBefore(LongBitmap(), U32) == 0 && Ones(LongBitmap()) == 2
    ensures Select(LongBitmap(), 0) == U32
  {
    var highs := LongBitmap();
    OnesGap(highs, 0, U32);
    assert OnesBefore(highs, U32 + 1) == 1 && OnesBefore(highs, U32 + 2) == 2;
    OnesGap(highs, U32 + 2, U32 + 64);
    SelectUnique(highs, 0, U32, Select(highs, 0));
  }

  /** A chunk the decoder accepts and whose lookups start at bit 0 instead of bit 2^32. */
  lemma LongBitmapMisreads() returns (e: Ef, body: seq<byte>)
    ensures Serializes(e, body) && |body| <= MAX_BLOCK_BYTES
    ensures Loaded(e) && e.m == 2 && Found(e, 0) == 0 && !e.highs[0] && !Usable(e)
  {
    hide Ones, OnesBefore, Select, Serialize, LongBitmap;
    LongBitmapOnes();
    var highs := LongBitmap();
    e := Ef(2, 0, [], highs, Samples(highs, 2));
    body := Serialize(e);
    NotFirst();
    FoundIsCut(e, 0);
  }

  lemma NotFirst()
    ensures !LongBitmap()[0]
  {
  }
}

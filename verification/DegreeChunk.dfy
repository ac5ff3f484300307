/** Degree chunk records (crates/graph-format/src/degree_ef.rs:488-687): the choice between the
    Elias-Fano, run-length, raw and zstd forms, and the resident form a record decodes to. */
module DegreeChunk {
  import opened Collections
  import opened Order
  import opened Wire
  import opened EliasFano
  import DegreeEf
  import DegreeRle

  const TAG_EF: byte := 1
  const TAG_RAW: byte := 2
  const TAG_ZSTD: byte := 3
  const TAG_RLE: byte := 4
  const MAX_CHUNK_DEGREES := DegreeRle.MAX_CHUNK_DEGREES

  /** zstd at the build's level, and its inverse bounded by the expected raw length. */
  type Compress = seq<byte> -> Option<seq<byte>>
  type Decompress = (seq<byte>, nat) -> Option<seq<byte>>

  // ---- the resident form ----

  datatype Chunk = EfChunk(ef: Ef) | RleChunk(rle: DegreeRle.Rle)

  /** What decoding guarantees of any chunk: it can be materialised. */
  ghost predicate Sound(c: Chunk) {
    match c
    case EfChunk(e) => Loaded(e) && 0 < e.m
    case RleChunk(r) => |r.values| == |r.starts|
  }

  /** A chunk whose lookups are defined at every offset: run starts must also be in order. */
  ghost predicate Fit(c: Chunk) {
    Sound(c) && (c.RleChunk? ==> DegreeRle.WellFormed(c.rle))
  }

  ghost function DegreesOf(c: Chunk): seq<nat>
    requires Sound(c)
  {
    match c
    case EfChunk(e) => seq(e.m - 1, i requires 0 <= i < e.m - 1 => DegreeEf.DegreeOf(e, i))
    case RleChunk(r) => DegreeRle.Resized(r, |r.values|)
  }

  ghost predicate Gives(c: Chunk, d: seq<nat>) {
    Fit(c) && DegreesOf(c) == d
  }

  function Len(c: Chunk): nat {
    match c
    case EfChunk(e) => if e.m == 0 then 0 else e.m - 1
    case RleChunk(r) => r.n
  }

  /** What a lookup comes to; a search that stops before the first run makes it panic. */
  datatype Lookup = Degree(d: nat) | PastEnd | Panics

  /** A lookup on any accepted chunk. On a well-formed one it gives what materialising puts at that
      offset; on a run-length one whose lengths wrapped, the value of some run or a panic. */
  method DegreeAt(find: Search, c: Chunk, off: nat) returns (o: Lookup)
    requires Sound(c)
    ensures o.PastEnd? <==> off >= Len(c)
    ensures Fit(c) && Searches(find) ==> o == if off < |DegreesOf(c)| then Degree(DegreesOf(c)[off]) else PastEnd
    ensures c.EfChunk? && off < Len(c) ==> o == Degree(DegreesOf(c)[off])
    ensures c.RleChunk? && o.Degree? ==> o.d in c.rle.values
  {
    hide Loaded, DegreeEf.DegreeOf, DegreeRle.Resized, DegreeRle.DegreeAt, Point, Searches;
    if off >= Len(c) {
      if Fit(c) && c.RleChunk? {
        DegreeRle.ResizedIsExpand(c.rle);
      }
      return PastEnd;
    }
    match c
    case EfChunk(e) =>
      var d := DegreeEf.DegreeAt(e, off);
      o := Degree(d);
    case RleChunk(r) =>
      var k := Point(find, r.starts, s => s <= off);
      o := if k == 0 then Panics else Degree(r.values[k - 1]);
      if Fit(c) && Searches(find) {
        DegreeRle.ResizedIsExpand(r);
        DegreeRle.SearchedDegree(find, r, off);
      }
  }

  method ToDegrees(c: Chunk) returns (d: seq<nat>)
    requires Sound(c)
    ensures d == DegreesOf(c)
  {
    hide Loaded, DegreeEf.DegreeOf;
    match c
    case EfChunk(e) =>
      d := [];
      for i := 0 to e.m - 1
        invariant |d| == i && forall j :: 0 <= j < i ==> d[j] == DegreesOf(c)[j]
      {
        var x := DegreeEf.DegreeAt(e, i);
        d := d + [x];
      }
    case RleChunk(r) =>
      d := DegreeRle.ToDegrees(r);
  }

  /** An encoded plane of running totals gives the degrees. */
  lemma EfGives(e: Ef, d: seq<nat>)
    requires DegreeEf.IsDegrees(d) && Represents(e, DegreeEf.Totals(d)) && |e.highs| <= U32 && e.l <= 31
    ensures Gives(EfChunk(e), d)
  {
    hide Loaded, SamplesFit, DegreeEf.DegreeOf, Represents, PositionsFit;
    DegreeEf.EncodedIsWellFormed(e, d);
    ShortPlanesFit(e, DegreeEf.Totals(d));
    RepresentsLength(e, DegreeEf.Totals(d));
    NarrowLowsReach(DegreeEf.Totals(d), e.l);
    forall i | 0 <= i < |d| ensures DegreeEf.DegreeOf(e, i) == d[i] {
      DegreeEf.DegreesReadBack(e, d, i);
    }
  }

  lemma RleGives(d: seq<nat>)
    requires DegreeEf.IsDegrees(d)
    ensures Gives(RleChunk(DegreeRle.RunList(d)), d)
  {
    DegreeRle.RunListIs(d);
    DegreeRle.ResizedIsExpand(DegreeRle.RunList(d));
  }

  /** The compact form of a list: one run when uniform or empty, Elias-Fano otherwise. */
  method Resident(d: seq<nat>) returns (c: Chunk)
    requires DegreeEf.IsDegrees(d)
    ensures Gives(c, d)
    ensures c.RleChunk? <==> forall i :: 0 <= i < |d| ==> d[i] == d[0]
  {
    hide Gives;
    if forall i :: 0 <= i < |d| ==> d[i] == d[0] {
      var r := DegreeRle.FromDegrees(d);
      RleGives(d);
      c := RleChunk(r);
    } else {
      var e := DegreeEf.Encode(d);
      EfGives(e, d);
      c := EfChunk(e);
    }
  }

  // ---- the raw form ----

  /** Degrees as little-endian words. */
  function Dense(d: seq<nat>): (b: seq<byte>)
    ensures |b| == 4 * |d|
  {
    WordBytes(d)
  }

  function FromDense(b: seq<byte>): (d: seq<nat>)
    requires |b| % 4 == 0
    ensures |d| == |b| / 4
  {
    ReadWords(b, |b| / 4)
  }

  lemma DenseRoundTrip(d: seq<nat>)
    requires forall i :: 0 <= i < |d| ==> d[i] < U32
    ensures FromDense(Dense(d)) == d
  {
    hide WordBytes, ReadWords;
    WordsRoundTrip(d, []);
    assert WordBytes(d) + [] == WordBytes(d);
  }

  // ---- choosing a codec ----

  function EfLen(d: seq<nat>): nat {
    var total, m := DegreeEf.Total(d, |d|), |d| + 1;
    var l := LowBits(total, m);
    1 + 9 + DivCeil(m * l, 8) + 8 * BitmapWords(total, l, m)
  }

  ghost function RleLen(d: seq<nat>): nat
    requires DegreeEf.IsDegrees(d)
  {
    DegreeRle.RunListIs(d);
    1 + |DegreeRle.Serialize(DegreeRle.RunList(d))|
  }

  function RawLen(d: seq<nat>): nat {
    1 + 4 * |d|
  }

  /** The smallest form that needs no decompression. */
  ghost function FreeLen(d: seq<nat>): nat
    requires DegreeEf.IsDegrees(d)
  {
    Min(Min(EfLen(d), RleLen(d)), RawLen(d))
  }

  /** All the selector asks of the zstd margin: whether it is above 0, whether it is at least 1, and
      whether a zstd size is at most the margin times a free size. Each is one comparison of 64-bit
      floats, rounding and NaN included. */
  datatype Margin = Margin(on: bool, eager: bool, within: (nat, nat) -> bool)

  /** zstd is priced at all, given the margin and the best free size. */
  predicate Priced(margin: Margin, free: nat, raw: nat) {
    margin.on && (margin.eager || free * 4 > raw)
  }

  ghost predicate ZstdWins(d: seq<nat>, margin: Margin, compress: Compress)
    requires DegreeEf.IsDegrees(d)
  {
    && Priced(margin, FreeLen(d), RawLen(d))
    && compress(Dense(d)).Some?
    && margin.within(1 + 4 + |compress(Dense(d)).value|, FreeLen(d))
  }

  /** `bytes` is a record of `d` in one of the four forms. */
  ghost predicate Stores(bytes: seq<byte>, d: seq<nat>, compress: Compress) {
    && DegreeEf.IsDegrees(d) && |d| <= MAX_CHUNK_DEGREES && bytes != []
    && var body := bytes[1..];
       || (bytes[0] == TAG_EF && StoresEf(body, d))
       || (bytes[0] == TAG_RLE && StoresRle(body, d))
       || (bytes[0] == TAG_RAW && body == Dense(d))
       || (bytes[0] == TAG_ZSTD && StoresZstd(body, d, compress))
  }

  ghost predicate StoresEf(body: seq<byte>, d: seq<nat>)
    requires DegreeEf.IsDegrees(d)
  {
    exists e :: Represents(e, DegreeEf.Totals(d)) && |e.highs| <= U32 && e.l <= 31 && DegreeEf.Serializes(e, body)
  }

  ghost predicate StoresRle(body: seq<byte>, d: seq<nat>)
    requires DegreeEf.IsDegrees(d)
  {
    DegreeRle.RunListIs(d);
    body == DegreeRle.Serialize(DegreeRle.RunList(d))
  }

  ghost predicate StoresZstd(body: seq<byte>, d: seq<nat>, compress: Compress) {
    compress(Dense(d)).Some? && body == LeBytes(|d|, 4) + compress(Dense(d)).value
  }

  /** Encode a chunk: refused above the ceiling, otherwise stored, in the shortest form that needs
      no decompression unless zstd earns its margin. */
  method EncodeChunk(d: seq<nat>, margin: Margin, compress: Compress) returns (r: Option<seq<byte>>)
    requires forall i :: 0 <= i < |d| ==> d[i] < U32
    ensures r.None? <==>
      |d| > MAX_CHUNK_DEGREES || (d != [] && Priced(margin, FreeLen(d), RawLen(d)) && compress(Dense(d)).None?)
    ensures r.Some? ==> Stores(r.value, d, compress)
    ensures r.Some? ==> (r.value[0] == TAG_ZSTD <==> d != [] && ZstdWins(d, margin, compress))
    ensures r.Some? && r.value[0] != TAG_ZSTD && d != [] ==> |r.value| == FreeLen(d)
  {
    hide Stores, Dense, LeBytes, RleLen, EfLen, DegreeRle.RunList, DegreeRle.Serialize, DegreeRle.WellFormed;
    if |d| > MAX_CHUNK_DEGREES {
      return None;
    }
    assert DegreeEf.IsDegrees(d);
    var rle := DegreeRle.FromDegrees(d);
    DegreeRle.RunListIs(d);
    var rleRecord := DegreeRle.SerializeInto(rle, [TAG_RLE]);
    RleStored(d, rleRecord, compress);
    if d == [] {
      return Some(rleRecord);
    }
    var efRecord := EfRecord(d, compress);
    var free := Min(Min(|efRecord|, |rleRecord|), RawLen(d));
    assert free == FreeLen(d);
    if Priced(margin, free, RawLen(d)) {
      var z := compress(Dense(d));
      if z.None? {
        return None;
      }
      if margin.within(1 + 4 + |z.value|, free) {
        r := Some([TAG_ZSTD] + LeBytes(|d|, 4) + z.value);
        ZstdStored(d, r.value, compress);
        return;
      }
    }
    if |rleRecord| <= |efRecord| && |rleRecord| <= RawLen(d) {
      r := Some(rleRecord);
    } else if |efRecord| <= RawLen(d) {
      r := Some(efRecord);
    } else {
      r := Some([TAG_RAW] + Dense(d));
      RawStored(d, r.value, compress);
    }
  }

  lemma RleStored(d: seq<nat>, bytes: seq<byte>, compress: Compress)
    requires DegreeEf.IsDegrees(d) && |d| <= MAX_CHUNK_DEGREES && DegreeRle.WellFormed(DegreeRle.RunList(d))
    requires bytes == [TAG_RLE] + DegreeRle.Serialize(DegreeRle.RunList(d))
    ensures Stores(bytes, d, compress) && |bytes| == RleLen(d) && bytes[0] == TAG_RLE
  {
    hide Dense, StoresEf, DegreeEf.IsDegrees, DegreeRle.RunList, DegreeRle.Serialize, DegreeRle.WellFormed;
    assert bytes[1..] == DegreeRle.Serialize(DegreeRle.RunList(d));
  }

  lemma ZstdStored(d: seq<nat>, bytes: seq<byte>, compress: Compress)
    requires DegreeEf.IsDegrees(d) && |d| <= MAX_CHUNK_DEGREES && compress(Dense(d)).Some?
    requires bytes == [TAG_ZSTD] + LeBytes(|d|, 4) + compress(Dense(d)).value
    ensures Stores(bytes, d, compress) && bytes[0] == TAG_ZSTD
  {
    hide LeBytes, Dense, StoresEf, StoresRle, DegreeEf.IsDegrees;
    assert bytes[1..] == LeBytes(|d|, 4) + compress(Dense(d)).value;
  }

  lemma RawStored(d: seq<nat>, bytes: seq<byte>, compress: Compress)
    requires DegreeEf.IsDegrees(d) && |d| <= MAX_CHUNK_DEGREES && bytes == [TAG_RAW] + Dense(d)
    ensures Stores(bytes, d, compress) && bytes[0] == TAG_RAW
  {
    hide Dense, StoresEf, StoresRle, DegreeEf.IsDegrees;
    assert bytes[1..] == Dense(d);
  }

  lemma EfStored(e: Ef, d: seq<nat>, bytes: seq<byte>, compress: Compress)
    requires DegreeEf.IsDegrees(d) && |d| <= MAX_CHUNK_DEGREES && Represents(e, DegreeEf.Totals(d)) && |e.highs| <= U32
    requires e.l <= 31
    requires bytes != [] && bytes[0] == TAG_EF && DegreeEf.Serializes(e, bytes[1..])
    ensures Stores(bytes, d, compress)
  {
    hide Dense, StoresRle, DegreeEf.IsDegrees, DegreeEf.Totals, DegreeEf.Serializes, Represents;
    assert StoresEf(bytes[1..], d);
  }

  method EfRecord(d: seq<nat>, ghost compress: Compress) returns (bytes: seq<byte>)
    requires DegreeEf.IsDegrees(d) && |d| <= MAX_CHUNK_DEGREES
    ensures Stores(bytes, d, compress) && |bytes| == EfLen(d) && bytes[0] == TAG_EF
  {
    hide Represents, DegreeEf.WellFormed, Stores, DegreeEf.Total, DegreeEf.Totals, LowBits, BitmapWords, DivCeil,
         Usable, DegreeEf.IsDegrees;
    var e := DegreeEf.Encode(d);
    FitsBitmap(d);
    DegreeEf.EncodedIsWellFormed(e, d);
    RepresentsSizes(e, DegreeEf.Totals(d));
    var body := DegreeEf.Serialize(e);
    bytes := [TAG_EF] + body;
    assert bytes[1..] == body;
    EfStored(e, d, bytes, compress);
  }

  lemma FitsBitmap(d: seq<nat>)
    requires DegreeEf.IsDegrees(d)
    ensures 3 * (|d| + 1) + 64 <= U32
  {
  }

  ghost predicate Sized(e: Ef, m: nat) {
    e.m == m && e.l <= MAX_LOW_BITS && |e.highs| % 64 == 0 && |e.lows| == 8 * DivCeil(m * e.l, 8)
  }

  lemma RepresentsSizes(e: Ef, c: seq<nat>)
    requires Represents(e, c)
    ensures Sized(e, |c|)
  {
  }

  // ---- decoding ----

  ghost predicate Inverts(decompress: Decompress, compress: Compress) {
    forall x: seq<byte> :: compress(x).Some? ==> decompress(compress(x).value, |x|) == Some(x)
  }

  /** Decode a record to its resident form. A record of `d` gives `d`, whatever form it is in. */
  method DecodeChunk(bytes: seq<byte>, decompress: Decompress, ghost d: seq<nat>, ghost compress: Compress)
    returns (r: Option<Chunk>)
    requires bytes != [] && bytes[0] == TAG_RAW ==> |bytes| < U32
    ensures Stores(bytes, d, compress) && Inverts(decompress, compress) ==> r.Some? && Gives(r.value, d)
    ensures r.Some? ==> bytes != [] && TAG_EF <= bytes[0] <= TAG_RLE
    ensures r.Some? ==> Sound(r.value)
    ensures r.Some? && !Wrapped(bytes) ==> Fit(r.value)
    ensures r.Some? && bytes[0] == TAG_RLE ==>
      r.value.RleChunk? && (Fit(r.value) && Lists(r.value.rle, bytes[1..]) <==> !Wrapped(bytes))
    ensures bytes != [] && bytes[0] == TAG_RAW ==>
      && (r.Some? <==> |bytes[1..]| % 4 == 0)
      && (r.Some? ==> Gives(r.value, FromDense(bytes[1..])))
  {
    hide Gives, Fit, Sound, Lists, DegreeEf.Serializes, Represents, Inverts, DegreeRle.Wraps, DegreeRle.Decode;
    if bytes == [] {
      return None;
    }
    var tag, body := bytes[0], bytes[1..];
    if tag == TAG_EF {
      var e := DegreeEf.Deserialize(body);
      if Stores(bytes, d, compress) {
        var e' :|
          Represents(e', DegreeEf.Totals(d)) && |e'.highs| <= U32 && e'.l <= 31 && DegreeEf.Serializes(e', body);
        EfGives(e', d);
      }
      if e.Some? {
        EfSound(e.value, body);
      }
      r := if e.Some? then Some(EfChunk(e.value)) else None;
    } else if tag == TAG_RLE {
      var q := DegreeRle.Deserialize(body);
      if Stores(bytes, d, compress) {
        RleReadsBack(body, d);
      }
      if q.Some? {
        RleSound(body);
      }
      r := if q.Some? then Some(RleChunk(q.value)) else None;
    } else if tag == TAG_RAW {
      r := DecodeRaw(body, d);
    } else if tag == TAG_ZSTD {
      r := DecodeZstd(body, decompress, d, compress);
    } else {
      r := None;
    }
  }

  /** A run-length record whose lengths add up past 64 bits. */
  predicate Wrapped(bytes: seq<byte>) {
    bytes != [] && bytes[0] == TAG_RLE && DegreeRle.Wraps(bytes[1..])
  }

  /** A run-length chunk of the very runs its body lists. */
  ghost predicate Lists(r: DegreeRle.Rle, body: seq<byte>) {
    && DegreeRle.WellFormed(r) && DegreeRle.BodyRuns(body).Some?
    && DegreeRle.RunsOf(r) == DegreeRle.BodyRuns(body).value.1
  }

  lemma EfSound(e: Ef, body: seq<byte>)
    requires DegreeEf.Serializes(e, body)
    ensures Sound(EfChunk(e)) && Fit(EfChunk(e))
  {
    hide Samples, DivCeil;
    DegreeEf.AcceptedIsLoaded(e);
  }

  lemma RleSound(body: seq<byte>)
    requires DegreeRle.Decode(body).Some?
    ensures var c := RleChunk(DegreeRle.Decode(body).value);
            Sound(c) && (Fit(c) && Lists(c.rle, body) <==> !DegreeRle.Wraps(body))
  {
    DegreeRle.DecodedRunsIff(body);
  }

  lemma RleReadsBack(body: seq<byte>, d: seq<nat>)
    requires DegreeEf.IsDegrees(d) && |d| <= MAX_CHUNK_DEGREES && StoresRle(body, d)
    ensures DegreeRle.Decode(body) == Some(DegreeRle.RunList(d)) && Gives(RleChunk(DegreeRle.RunList(d)), d)
  {
    hide DegreeRle.Serialize, DegreeRle.RunList, DegreeRle.Decode, DegreeRle.WellFormed, Gives;
    DegreeRle.RunListIs(d);
    DegreeRle.RoundTrip(DegreeRle.RunList(d), []);
    assert body + [] == body;
    RleGives(d);
  }

  lemma GivesFits(c: Chunk, d: seq<nat>)
    requires Gives(c, d)
    ensures Sound(c) && Fit(c) && DegreesOf(c) == d
  {
  }

  method DecodeRaw(body: seq<byte>, ghost d: seq<nat>) returns (r: Option<Chunk>)
    requires |body| < U32
    ensures r.Some? <==> |body| % 4 == 0
    ensures r.Some? ==> Sound(r.value) && Fit(r.value) && Gives(r.value, FromDense(body))
    ensures DegreeEf.IsDegrees(d) && body == Dense(d) ==> r.Some? && Gives(r.value, d)
  {
    hide Gives, WordBytes, ReadWords;
    if |body| % 4 != 0 {
      return None;
    }
    WordsFit(body, |body| / 4);
    var c := Resident(FromDense(body));
    GivesFits(c, FromDense(body));
    if DegreeEf.IsDegrees(d) {
      DenseRoundTrip(d);
    }
    r := Some(c);
  }

  method DecodeZstd(body: seq<byte>, decompress: Decompress, ghost d: seq<nat>, ghost compress: Compress)
    returns (r: Option<Chunk>)
    ensures r.Some? ==> Sound(r.value) && Fit(r.value)
    ensures DegreeEf.IsDegrees(d) && |d| <= MAX_CHUNK_DEGREES ==>
      StoresZstd(body, d, compress) && Inverts(decompress, compress) ==>
      r.Some? && Gives(r.value, d)
  {
    hide Gives, Dense, FromDense, LeBytes, LeValue;
    if DegreeEf.IsDegrees(d) && StoresZstd(body, d, compress) && Inverts(decompress, compress) {
      ZstdReadsBack(body, decompress, d, compress);
    }
    if |body| < 4 {
      return None;
    }
    var n := LeValue(body[..4]);
    var dense := if n * 4 > MAX_BLOCK_BYTES then None else decompress(body[4..], n * 4);
    if dense.None? || |dense.value| != n * 4 {
      return None;
    }
    r := DecodeRaw(dense.value, d);
  }

  lemma ZstdReadsBack(body: seq<byte>, decompress: Decompress, d: seq<nat>, compress: Compress)
    requires DegreeEf.IsDegrees(d) && StoresZstd(body, d, compress) && Inverts(decompress, compress)
    ensures |body| >= 4 && LeValue(body[..4]) == |d| && decompress(body[4..], 4 * |d|) == Some(Dense(d))
  {
    hide Dense, LeBytes, LeValue;
    Widths();
    LeRoundTrip(|d|, 4);
    assert body[..4] == LeBytes(|d|, 4);
    assert body[4..] == compress(Dense(d)).value;
  }
}

/** Byte codecs: little-endian words, LEB128 varints and the self-delimiting value encoding
    (crates/graph-format/src/wire.rs). A reader returns what it decoded and the bytes left. */
module Wire {
  import opened Collections
  import opened Order

  const U64: nat := 0x1_0000_0000_0000_0000
  const U32: nat := 0x1_0000_0000
  const MAX_VALUE_DEPTH: nat := 256
  /** The codec's ceiling on a block, stored or raw. */
  const MAX_BLOCK_BYTES: nat := 0x8000_0000

  // ---- fixed-width words ----

  function LeBytes(x: nat, n: nat): (b: seq<byte>)
    ensures |b| == n
  {
    if n == 0 then [] else [x % 256] + LeBytes(x / 256, n - 1)
  }

  function LeValue(b: seq<byte>): nat {
    if b == [] then 0 else b[0] + 256 * LeValue(b[1..])
  }

  function Pow256(n: nat): nat {
    if n == 0 then 1 else 256 * Pow256(n - 1)
  }

  lemma {:induction false} LeRoundTrip(x: nat, n: nat)
    requires x < Pow256(n)
    ensures LeValue(LeBytes(x, n)) == x
  {
    if n > 0 {
      LeRoundTrip(x / 256, n - 1);
      assert LeBytes(x, n)[1..] == LeBytes(x / 256, n - 1);
    }
  }

  lemma {:induction false} LeValueBound(b: seq<byte>)
    ensures LeValue(b) < Pow256(|b|)
  {
    if b != [] {
      LeValueBound(b[1..]);
    }
  }

  lemma {:induction false} LeBytesOfValue(b: seq<byte>)
    ensures LeBytes(LeValue(b), |b|) == b
  {
    if b != [] {
      LeBytesOfValue(b[1..]);
      assert LeValue(b) % 256 == b[0] && LeValue(b) / 256 == LeValue(b[1..]);
    }
  }

  lemma Widths()
    ensures Pow256(4) == U32 && Pow256(8) == U64
  {
    assert Pow256(2) == 65536;
  }

  /** Each number as a little-endian u32; a larger one keeps its low 32 bits. */
  function WordBytes(words: seq<nat>): (b: seq<byte>)
    ensures |b| == 4 * |words|
  {
    if words == [] then [] else LeBytes(words[0], 4) + WordBytes(words[1..])
  }

  function ReadWords(r: seq<byte>, n: nat): (o: seq<nat>)
    requires 4 * n <= |r|
    ensures |o| == n
  {
    if n == 0 then [] else [LeValue(r[..4])] + ReadWords(r[4..], n - 1)
  }

  lemma {:induction false} WordsFit(r: seq<byte>, n: nat)
    requires 4 * n <= |r|
    ensures forall i :: 0 <= i < n ==> ReadWords(r, n)[i] < U32
  {
    if n > 0 {
      WordsFit(r[4..], n - 1);
      Widths();
      LeValueBound(r[..4]);
      var o := ReadWords(r, n);
      forall i | 0 < i < n ensures o[i] < U32 { assert o[i] == ReadWords(r[4..], n - 1)[i - 1]; }
    }
  }

  lemma {:induction false} WordBytesAt(words: seq<nat>, i: nat)
    requires i < |words|
    ensures WordBytes(words)[4 * i..4 * i + 4] == LeBytes(words[i], 4)
  {
    if i > 0 {
      WordBytesAt(words[1..], i - 1);
      assert WordBytes(words)[4..] == WordBytes(words[1..]);
      assert WordBytes(words)[4 * i..4 * i + 4] == WordBytes(words)[4..][4 * (i - 1)..4 * (i - 1) + 4];
    }
  }

  lemma {:induction false} ReadWordsAt(r: seq<byte>, n: nat, i: nat)
    requires 4 * n <= |r| && i < n
    ensures ReadWords(r, n)[i] == LeValue(r[4 * i..4 * i + 4])
  {
    if i > 0 {
      ReadWordsAt(r[4..], n - 1, i - 1);
      SliceOfDrop(r, 4, 4 * (i - 1), 4 * (i - 1) + 4);
    }
  }

  lemma WordReadsBack(words: seq<nat>, tail: seq<byte>, i: nat)
    requires i < |words|
    ensures ReadWords(WordBytes(words) + tail, |words|)[i] == LeValue(LeBytes(words[i], 4))
  {
    var r := WordBytes(words) + tail;
    ReadWordsAt(r, |words|, i);
    WordBytesAt(words, i);
    assert r[4 * i..4 * i + 4] == WordBytes(words)[4 * i..4 * i + 4];
  }

  /** 32-bit words come back whole, whatever follows them. */
  lemma WordsRoundTrip(words: seq<nat>, tail: seq<byte>)
    requires forall i :: 0 <= i < |words| ==> words[i] < U32
    ensures ReadWords(WordBytes(words) + tail, |words|) == words
  {
    hide WordBytes, ReadWords, LeBytes, LeValue;
    Widths();
    forall i | 0 <= i < |words| ensures ReadWords(WordBytes(words) + tail, |words|)[i] == words[i] {
      WordReadsBack(words, tail, i);
      LeRoundTrip(words[i], 4);
    }
  }

  // ---- varints ----

  function WriteUvarint(v: nat): (b: seq<byte>)
    ensures |b| >= 1
  {
    if v < 128 then [v] else [v % 128 + 128] + WriteUvarint(v / 128)
  }

  /** The seven payload bits of a varint byte, in place. */
  function Septet(b: byte, shift: nat): nat {
    b % 128 * Pow2(shift)
  }

  /** Continue a varint at bit `shift`; bits beyond 64 are shifted out, as in the source. */
  function ReadUvarintAt(r: seq<byte>, shift: nat, acc: nat): (o: Option<(nat, seq<byte>)>)
    ensures o.Some? ==> o.value.0 < U64 && |o.value.1| < |r|
  {
    if r == [] then None
    else
      var acc' := (acc + Septet(r[0], shift)) % U64;
      if r[0] < 128 then Some((acc', r[1..]))
      else if shift + 7 >= 64 then None
      else ReadUvarintAt(r[1..], shift + 7, acc')
  }

  function ReadUvarint(r: seq<byte>): (o: Option<(nat, seq<byte>)>)
    ensures o.Some? ==> o.value.0 < U64 && |o.value.1| < |r|
  {
    ReadUvarintAt(r, 0, 0)
  }

  lemma Pow64()
    ensures Pow2(64) == U64
  {
    Pow63();
    assert Pow2(64) == 2 * Pow2(63);
  }

  lemma SplitSeven(v: nat, p: nat)
    ensures v * p == (v / 128) * (128 * p) + (v % 128) * p
  {
    var q, lo := v / 128, v % 128;
    assert (128 * q + lo) * p == q * (128 * p) + lo * p;
  }

  /** A number with more than one septet left leaves room for the next one. */
  lemma RoomForSeven(v: nat, shift: nat)
    requires v >= 128 && v * Pow2(shift) < U64
    ensures shift + 7 < 64 && Pow2(shift + 7) == 128 * Pow2(shift)
  {
    Pow2Add(7, shift);
    assert Pow2(7) == 128 by { assert Pow2(4) == 16; }
    MulMonotone(128, v, Pow2(shift));
    Pow64();
    if shift + 7 > 64 {
      Pow2Monotone(64, shift + 7);
    }
  }

  lemma {:induction false} UvarintAt(v: nat, rest: seq<byte>, shift: nat, acc: nat)
    requires acc + v * Pow2(shift) < U64
    ensures ReadUvarintAt(WriteUvarint(v) + rest, shift, acc) == Some((acc + v * Pow2(shift), rest))
    decreases v
  {
    hide Pow2, ReadUvarintAt;
    var bytes := WriteUvarint(v) + rest;
    if v < 128 {
      ReadLast(v, rest, shift, acc);
      assert bytes == [v] + rest;
    } else {
      var lo := v % 128;
      assert bytes == [lo + 128] + (WriteUvarint(v / 128) + rest);
      RoomForSeven(v, shift);
      SplitSeven(v, Pow2(shift));
      ReadMore(lo, WriteUvarint(v / 128) + rest, shift, acc);
      UvarintAt(v / 128, rest, shift + 7, acc + lo * Pow2(shift));
    }
  }

  lemma ReadLast(lo: byte, rest: seq<byte>, shift: nat, acc: nat)
    requires lo < 128 && acc + lo * Pow2(shift) < U64
    ensures ReadUvarintAt([lo] + rest, shift, acc) == Some((acc + lo * Pow2(shift), rest))
  {
    hide Pow2;
    assert ([lo] + rest)[1..] == rest;
  }

  lemma ReadMore(lo: byte, rest: seq<byte>, shift: nat, acc: nat)
    requires lo < 128 && acc + lo * Pow2(shift) < U64 && shift + 7 < 64
    ensures ReadUvarintAt([lo + 128] + rest, shift, acc) == ReadUvarintAt(rest, shift + 7, acc + lo * Pow2(shift))
  {
    hide Pow2, Septet;
    SeptetOf(lo, shift);
    assert ([lo + 128] + rest)[1..] == rest;
  }

  lemma SeptetOf(lo: byte, shift: nat)
    requires lo < 128
    ensures Septet(lo + 128, shift) == lo * Pow2(shift)
  {
    hide Pow2;
  }

  /** Reading a varint undoes writing it, for every 64-bit number and whatever follows. */
  lemma UvarintRoundTrip(v: nat, rest: seq<byte>)
    requires v < U64
    ensures ReadUvarint(WriteUvarint(v) + rest) == Some((v, rest))
  {
    UvarintAt(v, rest, 0, 0);
  }

  // ---- values ----

  function ZigZag(i: int): nat {
    if i >= 0 then 2 * i else -2 * i - 1
  }

  function UnZigZag(u: nat): int {
    if u % 2 == 0 then u / 2 else -(u / 2) - 1
  }

  /** Bit pattern of the float with this `total_cmp` key, for a `half`-wide magnitude. */
  function FloatBits(key: int, half: int): nat
    requires -half <= key < half
  {
    if key >= 0 then key else half + (-1 - key)
  }

  function FloatKey(bits: nat, half: nat): int {
    if bits < half then bits else -1 - (bits - half)
  }

  function WriteValue(v: Value): (b: seq<byte>)
    ensures |b| >= 1
    decreases v, 1
  {
    match v
    case Null => [0]
    case Bool(b) => [1, if b then 1 else 0]
    case Int(i) => [2] + WriteUvarint(ZigZag(i))
    case Float(f) => [3] + LeBytes(FloatBits(f, U64 / 2), 8)
    case Str(s) => [4] + WriteUvarint(|s|) + s
    case List(items) => [5] + WriteUvarint(|items|) + WriteItems(items)
    case Vector(xs) => [6] + WriteUvarint(|xs|) + WriteF32s(xs)
  }

  function WriteItems(items: seq<Value>): seq<byte>
    decreases items, 0
  {
    if items == [] then [] else WriteValue(items[0]) + WriteItems(items[1..])
  }

  function WriteF32s(xs: seq<i32>): seq<byte> {
    if xs == [] then [] else LeBytes(FloatBits(xs[0], U32 / 2), 4) + WriteF32s(xs[1..])
  }

  type Decoded<T> = Option<(T, seq<byte>)>

  function ReadValueAt(r: seq<byte>, depth: nat): Decoded<Value>
    decreases MAX_VALUE_DEPTH + 1 - depth, 0, 0
  {
    if depth > MAX_VALUE_DEPTH || r == [] then None
    else
      var rest := r[1..];
      if r[0] == 0 then Some((Null, rest))
      else if r[0] == 1 then
        if rest == [] then None else Some((Bool(rest[0] != 0), rest[1..]))
      else if r[0] == 2 then ReadInt(rest)
      else if r[0] == 3 then ReadF64(rest)
      else if r[0] == 4 then ReadStr(rest)
      else if r[0] == 5 then ReadList(rest, depth)
      else if r[0] == 6 then ReadVector(rest)
      else None
  }

  function ReadList(r: seq<byte>, depth: nat): Decoded<Value>
    requires depth <= MAX_VALUE_DEPTH
    decreases MAX_VALUE_DEPTH - depth, 2, 0
  {
    match ReadUvarint(r)
    case None => None
    case Some((n, rest)) =>
      (match ReadItems(rest, n, depth + 1)
       case None => None
       case Some((items, rest')) => Some((List(items), rest')))
  }

  function ReadVector(r: seq<byte>): Decoded<Value> {
    match ReadUvarint(r)
    case None => None
    case Some((n, rest)) =>
      (match ReadF32s(rest, n)
       case None => None
       case Some((xs, rest')) => Some((Vector(xs), rest')))
  }

  function ReadItems(r: seq<byte>, n: nat, depth: nat): Decoded<seq<Value>>
    decreases MAX_VALUE_DEPTH + 1 - depth, 1, n
  {
    if n == 0 then Some(([], r))
    else
      match ReadValueAt(r, depth)
      case None => None
      case Some((v, rest)) =>
        (match ReadItems(rest, n - 1, depth)
         case None => None
         case Some((vs, rest')) => Some(([v] + vs, rest')))
  }

  function ReadInt(r: seq<byte>): Decoded<Value> {
    match ReadUvarint(r)
    case None => None
    case Some((u, rest)) => Some((Int(UnZigZag(u)), rest))
  }

  function ReadF64(r: seq<byte>): Decoded<Value> {
    if |r| < 8 then None
    else
      LeValueBound(r[..8]); Widths();
      Some((Float(FloatKey(LeValue(r[..8]), U64 / 2)), r[8..]))
  }

  function ReadStr(r: seq<byte>): Decoded<Value> {
    match ReadUvarint(r)
    case None => None
    case Some((n, rest)) => if |rest| < n then None else Some((Str(rest[..n]), rest[n..]))
  }

  function ReadF32s(r: seq<byte>, n: nat): Decoded<seq<i32>> {
    if n == 0 then Some(([], r))
    else if |r| < 4 then None
    else
      LeValueBound(r[..4]); Widths();
      match ReadF32s(r[4..], n - 1)
      case None => None
      case Some((xs, rest)) => Some(([FloatKey(LeValue(r[..4]), U32 / 2)] + xs, rest))
  }

  function ReadValue(r: seq<byte>): Decoded<Value> {
    ReadValueAt(r, 1)
  }

  /** Nesting level, counting the value itself. */
  ghost function Depth(v: Value): nat
    decreases v, 1
  {
    match v
    case List(items) => 1 + DepthOf(items)
    case _ => 1
  }

  ghost function DepthOf(items: seq<Value>): nat
    decreases items, 0
  {
    if items == [] then 0
    else
      var a, b := Depth(items[0]), DepthOf(items[1..]);
      if a > b then a else b
  }

  /** Lengths fit a 64-bit `usize`, as every Rust value's do. */
  ghost predicate Sized(v: Value) {
    match v
    case Str(s) => |s| < U64
    case List(items) => |items| < U64 && forall w :: w in items ==> Sized(w)
    case Vector(xs) => |xs| < U64
    case _ => true
  }

  lemma {:induction false} F32sRoundTrip(xs: seq<i32>, rest: seq<byte>)
    ensures ReadF32s(WriteF32s(xs) + rest, |xs|) == Some((xs, rest))
  {
    hide LeBytes, LeValue;
    if xs == [] {
      assert WriteF32s(xs) + rest == rest;
    } else {
      var head, r := LeBytes(FloatBits(xs[0], U32 / 2), 4), WriteF32s(xs) + rest;
      assert r[..4] == head && r[4..] == WriteF32s(xs[1..]) + rest;
      Widths();
      LeRoundTrip(FloatBits(xs[0], U32 / 2), 4);
      F32sRoundTrip(xs[1..], rest);
      assert [xs[0]] + xs[1..] == xs;
    }
  }

  lemma F64RoundTrip(f: i64, rest: seq<byte>)
    ensures ReadF64(LeBytes(FloatBits(f, U64 / 2), 8) + rest) == Some((Float(f), rest))
  {
    var r := LeBytes(FloatBits(f, U64 / 2), 8) + rest;
    assert r[..8] == LeBytes(FloatBits(f, U64 / 2), 8) && r[8..] == rest;
    Widths();
    LeRoundTrip(FloatBits(f, U64 / 2), 8);
  }

  lemma IntRoundTrip(i: i64, rest: seq<byte>)
    ensures ReadInt(WriteUvarint(ZigZag(i)) + rest) == Some((Int(i), rest))
  {
    UvarintRoundTrip(ZigZag(i), rest);
  }

  lemma VectorRoundTrip(xs: seq<i32>, rest: seq<byte>)
    requires |xs| < U64
    ensures ReadVector(WriteUvarint(|xs|) + (WriteF32s(xs) + rest)) == Some((Vector(xs), rest))
  {
    UvarintRoundTrip(|xs|, WriteF32s(xs) + rest);
    F32sRoundTrip(xs, rest);
  }

  lemma StrRoundTrip(s: seq<byte>, rest: seq<byte>)
    requires |s| < U64
    ensures ReadStr(WriteUvarint(|s|) + s + rest) == Some((Str(s), rest))
  {
    UvarintRoundTrip(|s|, s + rest);
    assert WriteUvarint(|s|) + s + rest == WriteUvarint(|s|) + (s + rest);
    assert (s + rest)[..|s|] == s && (s + rest)[|s|..] == rest;
  }

  /** What the reader makes of an encoded value met at nesting level `depth`. */
  ghost function Expected(v: Value, rest: seq<byte>, depth: nat): Decoded<Value> {
    if depth + Depth(v) <= MAX_VALUE_DEPTH + 1 then Some((v, rest)) else None
  }

  /** The encoding is a prefix code, and it is readable exactly down to the depth limit. */
  lemma {:induction false} ValueAt(v: Value, rest: seq<byte>, depth: nat)
    requires Sized(v)
    ensures ReadValueAt(WriteValue(v) + rest, depth) == Expected(v, rest, depth)
    decreases v, 2
  {
    hide ReadInt, ReadF64, ReadStr, ReadList, ReadVector, WriteUvarint, WriteItems, WriteF32s, LeBytes, FloatBits,
         ZigZag;
    var r := WriteValue(v) + rest;
    match v
    case Null => assert r[1..] == rest;
    case Bool(b) => assert r[1..] == [if b then 1 else 0] + rest;
    case Int(i) =>
      IntRoundTrip(i, rest);
      assert r[1..] == WriteUvarint(ZigZag(i)) + rest;
    case Float(f) =>
      F64RoundTrip(f, rest);
      assert r[1..] == LeBytes(FloatBits(f, U64 / 2), 8) + rest;
    case Str(s) =>
      StrRoundTrip(s, rest);
      assert r[1..] == WriteUvarint(|s|) + s + rest;
    case List(items) =>
      ListAt(items, rest, depth);
      assert r[1..] == WriteUvarint(|items|) + (WriteItems(items) + rest);
    case Vector(xs) =>
      VectorRoundTrip(xs, rest);
      assert r[1..] == WriteUvarint(|xs|) + (WriteF32s(xs) + rest);
  }

  lemma {:induction false} ListAt(items: seq<Value>, rest: seq<byte>, depth: nat)
    requires |items| < U64 && forall w :: w in items ==> Sized(w)
    ensures depth <= MAX_VALUE_DEPTH ==>
      ReadList(WriteUvarint(|items|) + (WriteItems(items) + rest), depth) == Expected(List(items), rest, depth)
    decreases items, 1
  {
    if depth <= MAX_VALUE_DEPTH {
      UvarintRoundTrip(|items|, WriteItems(items) + rest);
      ItemsAt(items, rest, depth + 1);
    }
  }

  lemma {:induction false} ItemsAt(items: seq<Value>, rest: seq<byte>, depth: nat)
    requires forall w :: w in items ==> Sized(w)
    ensures ReadItems(WriteItems(items) + rest, |items|, depth)
         == if items == [] || depth + DepthOf(items) <= MAX_VALUE_DEPTH + 1 then Some((items, rest)) else None
    decreases items, 0
  {
    hide WriteValue, ReadValueAt, Depth, Sized;
    if items == [] {
      assert WriteItems(items) + rest == rest;
    } else {
      var tail := WriteItems(items[1..]) + rest;
      assert WriteItems(items) + rest == WriteValue(items[0]) + tail;
      ValueAt(items[0], tail, depth);
      ItemsAt(items[1..], rest, depth);
      DepthPositive(items[0]);
      assert [items[0]] + items[1..] == items;
    }
  }

  lemma DepthPositive(v: Value)
    ensures Depth(v) >= 1
  {
  }

  /** Reading undoes writing exactly when the value nests at most 256 deep; a deeper value is
      written without complaint and then refused. */
  lemma ValueRoundTripIff(v: Value, rest: seq<byte>)
    requires Sized(v)
    ensures ReadValue(WriteValue(v) + rest) == Some((v, rest)) <==> Depth(v) <= MAX_VALUE_DEPTH
    ensures Depth(v) > MAX_VALUE_DEPTH ==> ReadValue(WriteValue(v) + rest) == None
  {
    ValueAt(v, rest, 1);
  }

  /** Null inside `n` lists. */
  function Nested(n: nat): Value {
    if n == 0 then Null else List([Nested(n - 1)])
  }

  lemma {:induction false} NestedDepth(n: nat)
    ensures Depth(Nested(n)) == n + 1 && Sized(Nested(n))
  {
    if n > 0 {
      NestedDepth(n - 1);
      assert DepthOf([Nested(n - 1)]) == Depth(Nested(n - 1));
    }
  }

  /** A null inside 256 lists is one level too deep. */
  lemma DeepListIsRefused(rest: seq<byte>)
    ensures ReadValue(WriteValue(Nested(MAX_VALUE_DEPTH)) + rest) == None
  {
    hide WriteValue, ReadValue, Depth, Sized, Nested;
    NestedDepth(MAX_VALUE_DEPTH);
    ValueRoundTripIff(Nested(MAX_VALUE_DEPTH), rest);
  }
}

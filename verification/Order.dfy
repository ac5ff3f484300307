/** Property values and the ordering key every sorted structure uses
    (crates/graph-format/src/ids.rs). A float is represented by its `total_cmp` key: the
    signed integer whose order is IEEE 754 totalOrder on the bit patterns. */
module Order {

  type i64 = x: int | -0x8000_0000_0000_0000 <= x < 0x8000_0000_0000_0000
  type i32 = x: int | -0x8000_0000 <= x < 0x8000_0000
  type byte = x: int | 0 <= x < 256

  datatype Ordering = Less | Equal | Greater

  datatype Value =
    | Null
    | Bool(b: bool)
    | Int(i: i64)
    | Float(f: i64)
    | Str(s: seq<byte>)
    | List(items: seq<Value>)
    | Vector(xs: seq<i32>)

  function Cmp(a: int, b: int): Ordering {
    if a < b then Less else if a == b then Equal else Greater
  }

  function Flip(o: Ordering): Ordering {
    match o case Less => Greater case Equal => Equal case Greater => Less
  }

  // ---- i64 as f64 ----

  function Pow2(n: nat): (p: nat)
    ensures p >= 1
  {
    if n == 0 then 1 else 2 * Pow2(n - 1)
  }

  /** Position of the highest set bit. */
  function Ilog2(a: nat): (e: nat)
    requires a > 0
    ensures Pow2(e) <= a < 2 * Pow2(e)
  {
    if a == 1 then 0 else 1 + Ilog2(a / 2)
  }

  const HIDDEN: nat := 0x10_0000_0000_0000    // 2^52

  /** `a / 2^k`, rounded to nearest with ties to even. */
  function RoundHalfEven(a: nat, k: nat): nat
    requires k > 0
  {
    var q, r := a / Pow2(k), a % Pow2(k);
    if 2 * r > Pow2(k) || (2 * r == Pow2(k) && q % 2 == 1) then q + 1 else q
  }

  function Significand(a: nat): nat
    requires a > 0
  {
    var e := Ilog2(a);
    if e <= 52 then a * Pow2(52 - e) else RoundHalfEven(a, e - 52)
  }

  /** Bit pattern of the double nearest to a positive integer: exponent field, then fraction. A
      significand that rounds up to 2^53 carries into the exponent by itself. */
  function PositiveBits(a: nat): (bits: nat)
    requires a > 0
    ensures bits > 0
  {
    (Ilog2(a) + 1022) * HIDDEN + Significand(a)
  }

  /** `total_cmp` key of `i as f64`. */
  function AsF64(i: int): int {
    if i == 0 then 0 else if i > 0 then PositiveBits(i) else -1 - PositiveBits(-i)
  }

  // ---- the ordering key ----

  function Rank(v: Value): int {
    match v
    case Null => 0
    case Bool(_) => 1
    case Int(_) => 2
    case Float(_) => 2
    case Str(_) => 3
    case List(_) => 4
    case Vector(_) => 5
  }

  /** First difference of two integer sequences, else the lengths. */
  function CmpSeq(a: seq<int>, b: seq<int>): Ordering {
    if a == [] || b == [] then Cmp(|a|, |b|)
    else if a[0] != b[0] then Cmp(a[0], b[0])
    else CmpSeq(a[1..], b[1..])
  }

  function CmpKey(x: Value, y: Value): Ordering
    decreases x, 1
  {
    match (x, y)
    case (Null, Null) => Equal
    case (Bool(a), Bool(b)) => Cmp(if a then 1 else 0, if b then 1 else 0)
    case (Int(a), Int(b)) => Cmp(a, b)
    case (Float(a), Float(b)) => Cmp(a, b)
    case (Int(a), Float(b)) => Cmp(AsF64(a), b)
    case (Float(a), Int(b)) => Cmp(a, AsF64(b))
    case (Str(a), Str(b)) => CmpSeq(a, b)
    case (List(a), List(b)) => CmpItems(a, b)
    case (Vector(a), Vector(b)) => CmpSeq(a, b)
    case (_, _) => Cmp(Rank(x), Rank(y))
  }

  function CmpItems(a: seq<Value>, b: seq<Value>): Ordering
    decreases a, 0
  {
    if a == [] || b == [] then Cmp(|a|, |b|)
    else
      var o := CmpKey(a[0], b[0]);
      if o != Equal then o else CmpItems(a[1..], b[1..])
  }

  predicate Le(x: Value, y: Value) {
    CmpKey(x, y) != Greater
  }

  // ---- rounding is monotone, and exact up to 2^53 ----

  lemma {:induction false} Pow2Add(a: nat, b: nat)
    ensures Pow2(a + b) == Pow2(a) * Pow2(b)
  {
    if a > 0 {
      Pow2Add(a - 1, b);
      assert Pow2(a + b) == 2 * Pow2(a + b - 1);
    }
  }

  lemma {:induction false} Pow2Monotone(a: nat, b: nat)
    requires a < b
    ensures 2 * Pow2(a) <= Pow2(b)
  {
    if a + 1 < b {
      Pow2Monotone(a, b - 1);
    }
  }

  lemma Ilog2Monotone(a: nat, b: nat)
    requires 0 < a <= b
    ensures Ilog2(a) <= Ilog2(b)
  {
    if Ilog2(b) < Ilog2(a) {
      Pow2Monotone(Ilog2(b), Ilog2(a));
    }
  }

  lemma Pow52()
    ensures Pow2(52) == HIDDEN
  {
    Pow2Add(26, 26);
    assert Pow2(26) == 0x400_0000 by {
      Pow2Add(13, 13);
      assert Pow2(13) == 0x2000 by { assert Pow2(4) == 16; assert Pow2(8) == 256; }
    }
  }

  lemma RoundMonotone(a: nat, b: nat, k: nat)
    requires a <= b && k > 0
    ensures RoundHalfEven(a, k) <= RoundHalfEven(b, k)
  {
    var p := Pow2(k);
    if a / p == b / p {
      assert a % p <= b % p by {
        assert a == p * (a / p) + a % p;
        assert b == p * (b / p) + b % p;
      }
    } else {
      DivMonotone(a, b, p);
    }
  }

  lemma DivMonotone(a: nat, b: nat, p: nat)
    requires a <= b && p > 0
    ensures a / p <= b / p
  {
    if a / p > b / p {
      MulMonotone(b / p + 1, a / p, p);
    }
  }

  /** The significand of any positive integer, rounded, lies in [2^52, 2^53]. */
  lemma SignificandRange(a: nat)
    requires a > 0
    ensures HIDDEN <= Significand(a) <= 2 * HIDDEN
    ensures Ilog2(a) <= 52 ==> Significand(a) < 2 * HIDDEN
  {
    var e := Ilog2(a);
    Pow52();
    if e <= 52 {
      Pow2Add(e, 52 - e);
      ScaledRange(a, Pow2(e), Pow2(52 - e));
    } else {
      Pow2Add(52, e - 52);
      QuotientRange(a, HIDDEN, Pow2(e - 52));
    }
  }

  lemma ScaledRange(a: nat, h: nat, p: nat)
    requires h <= a < 2 * h && p > 0
    ensures h * p <= a * p < 2 * (h * p)
  {
    MulMonotone(h, a, p);
    MulMonotone(a + 1, 2 * h, p);
  }

  lemma MulMonotone(a: nat, b: nat, p: nat)
    requires a <= b
    ensures a * p <= b * p
  {
  }

  lemma QuotientRange(a: nat, h: nat, p: nat)
    requires p > 0 && h * p <= a < 2 * (h * p)
    ensures h <= a / p < 2 * h
  {
    assert a == p * (a / p) + a % p;
    if a / p < h {
      MulMonotone(a / p + 1, h, p);
    }
    if a / p >= 2 * h {
      MulMonotone(2 * h, a / p, p);
    }
  }

  lemma BitsMonotone(a: nat, b: nat)
    requires 0 < a <= b
    ensures PositiveBits(a) <= PositiveBits(b)
  {
    Ilog2Monotone(a, b);
    SignificandRange(a);
    SignificandRange(b);
    var e, f := Ilog2(a), Ilog2(b);
    if e == f {
      if e <= 52 {
        MulMonotone(a, b, Pow2(52 - e));
      } else {
        RoundMonotone(a, b, e - 52);
      }
    }
  }

  /** Converting to a double never reverses the order of two integers. */
  lemma AsF64Monotone(i: int, j: int)
    requires i <= j
    ensures AsF64(i) <= AsF64(j)
  {
    hide PositiveBits;
    if i > 0 {
      BitsMonotone(i, j);
    } else if j < 0 {
      BitsMonotone(-j, -i);
    }
  }

  const EXACT: int := 0x20_0000_0000_0000    // 2^53

  lemma ExactBits(a: nat, b: nat)
    requires 0 < a < b <= EXACT
    ensures PositiveBits(a) < PositiveBits(b)
  {
    Ilog2Monotone(a, b);
    SignificandRange(a);
    SignificandRange(b);
    Pow52();
    var e := Ilog2(a);
    if e > 52 {
      Pow2Monotone(52, e);
      assert false;
    }
    if e == Ilog2(b) {
      MulMonotone(a + 1, b, Pow2(52 - e));
      assert (a + 1) * Pow2(52 - e) == a * Pow2(52 - e) + Pow2(52 - e);
    }
  }

  /** Integers of magnitude at most 2^53 keep their strict order. */
  lemma AsF64Exact(i: int, j: int)
    requires -EXACT <= i < j <= EXACT
    ensures AsF64(i) < AsF64(j)
  {
    hide PositiveBits;
    if i > 0 {
      ExactBits(i, j);
    } else if j < 0 {
      ExactBits(-j, -i);
    }
  }

  lemma {:induction false} Ilog2Unique(a: nat, e: nat)
    requires Pow2(e) <= a < 2 * Pow2(e)
    ensures a > 0 && Ilog2(a) == e
  {
    if Ilog2(a) < e {
      Pow2Monotone(Ilog2(a), e);
    } else if e < Ilog2(a) {
      Pow2Monotone(e, Ilog2(a));
    }
  }

  /** 2^53 and 2^53 + 1 become the same double. */
  lemma Collision()
    ensures AsF64(EXACT) == AsF64(EXACT + 1)
  {
    Pow52();
    assert Pow2(53) == EXACT;
    Ilog2Unique(EXACT, 53);
    Ilog2Unique(EXACT + 1, 53);
    assert Pow2(1) == 2;
  }

  // ---- laws of the ordering key ----

  lemma {:induction false} CmpSeqFlip(a: seq<int>, b: seq<int>)
    ensures CmpSeq(b, a) == Flip(CmpSeq(a, b))
  {
    if a != [] && b != [] && a[0] == b[0] {
      CmpSeqFlip(a[1..], b[1..]);
    }
  }

  /** Swapping the operands flips the result: the comparison is total and antisymmetric up to
      `Equal`, for all values. */
  lemma {:induction false} CmpKeyFlip(x: Value, y: Value)
    ensures CmpKey(y, x) == Flip(CmpKey(x, y))
    decreases x, 1
  {
    match (x, y)
    case (Str(a), Str(b)) => CmpSeqFlip(a, b);
    case (Vector(a), Vector(b)) => CmpSeqFlip(a, b);
    case (List(a), List(b)) => CmpItemsFlip(a, b);
    case (_, _) =>
  }

  lemma {:induction false} CmpItemsFlip(a: seq<Value>, b: seq<Value>)
    ensures CmpItems(b, a) == Flip(CmpItems(a, b))
    decreases a, 0
  {
    if a != [] && b != [] {
      CmpKeyFlip(a[0], b[0]);
      CmpItemsFlip(a[1..], b[1..]);
    }
  }

  /** How two comparisons in a row determine the third. */
  ghost predicate Chains(xy: Ordering, yz: Ordering, xz: Ordering) {
    && (xy == Equal ==> xz == yz)
    && (yz == Equal ==> xz == xy)
    && (xy == yz ==> xz == xy)
  }

  lemma {:induction false} CmpSeqChains(a: seq<int>, b: seq<int>, c: seq<int>)
    ensures Chains(CmpSeq(a, b), CmpSeq(b, c), CmpSeq(a, c))
  {
    if a != [] && b != [] && c != [] && a[0] == b[0] && b[0] == c[0] {
      CmpSeqChains(a[1..], b[1..], c[1..]);
    }
  }

  /** The integers and floats a family of values may contain, at any depth. */
  datatype Atoms = Atoms(ints: iset<int>, floats: iset<int>)

  ghost predicate Over(v: Value, atoms: Atoms) {
    match v
    case Int(i) => i in atoms.ints
    case Float(f) => f in atoms.floats
    case List(items) => forall w :: w in items ==> Over(w, atoms)
    case _ => true
  }

  /** No two distinct integers convert to one and the same float of the family. */
  ghost predicate NoClash(atoms: Atoms) {
    forall a, b :: a in atoms.ints && b in atoms.ints && AsF64(a) == AsF64(b) && AsF64(a) in atoms.floats ==> a == b
  }

  lemma NumbersChain(x: Value, y: Value, z: Value, atoms: Atoms)
    requires NoClash(atoms) && Over(x, atoms) && Over(y, atoms) && Over(z, atoms)
    requires Rank(x) == Rank(y) == Rank(z) == 2
    ensures Chains(CmpKey(x, y), CmpKey(y, z), CmpKey(x, z))
  {
    if x.Int? && z.Int? {
      if x.i <= z.i { AsF64Monotone(x.i, z.i); } else { AsF64Monotone(z.i, x.i); }
    }
    if x.Int? && y.Int? {
      if x.i <= y.i { AsF64Monotone(x.i, y.i); } else { AsF64Monotone(y.i, x.i); }
    }
    if y.Int? && z.Int? {
      if y.i <= z.i { AsF64Monotone(y.i, z.i); } else { AsF64Monotone(z.i, y.i); }
    }
  }

  /** Over a clash-free family the key is a total preorder on arbitrarily nested values. */
  lemma {:induction false} CmpKeyChains(x: Value, y: Value, z: Value, atoms: Atoms)
    requires NoClash(atoms) && Over(x, atoms) && Over(y, atoms) && Over(z, atoms)
    ensures Chains(CmpKey(x, y), CmpKey(y, z), CmpKey(x, z))
    decreases x, 1
  {
    if Rank(x) == Rank(y) == Rank(z) {
      match x
      case Int(_) => NumbersChain(x, y, z, atoms);
      case Float(_) => NumbersChain(x, y, z, atoms);
      case Str(a) => CmpSeqChains(a, y.s, z.s);
      case Vector(a) => CmpSeqChains(a, y.xs, z.xs);
      case List(a) => CmpItemsChain(a, y.items, z.items, atoms);
      case _ =>
    }
  }

  lemma {:induction false} CmpItemsChain(a: seq<Value>, b: seq<Value>, c: seq<Value>, atoms: Atoms)
    requires NoClash(atoms)
    requires forall w :: w in a || w in b || w in c ==> Over(w, atoms)
    ensures Chains(CmpItems(a, b), CmpItems(b, c), CmpItems(a, c))
    decreases a, 0
  {
    if a != [] && b != [] && c != [] {
      CmpKeyChains(a[0], b[0], c[0], atoms);
      CmpItemsChain(a[1..], b[1..], c[1..], atoms);
    }
  }

  ghost predicate Transitive(atoms: Atoms) {
    forall x, y, z :: Over(x, atoms) && Over(y, atoms) && Over(z, atoms) && Le(x, y) && Le(y, z) ==> Le(x, z)
  }

  /** The key orders a family of values transitively exactly when the family is clash-free. */
  lemma TransitiveIffNoClash(atoms: Atoms)
    requires forall a :: a in atoms.ints ==> -0x8000_0000_0000_0000 <= a < 0x8000_0000_0000_0000
    ensures Transitive(atoms) <==> NoClash(atoms)
  {
    if NoClash(atoms) {
      forall x, y, z | Over(x, atoms) && Over(y, atoms) && Over(z, atoms) && Le(x, y) && Le(y, z) ensures Le(x, z) {
        CmpKeyChains(x, y, z, atoms);
      }
    } else {
      var a, b :| a in atoms.ints && b in atoms.ints && AsF64(a) == AsF64(b) && AsF64(a) in atoms.floats && a < b by {
        var p, q :| p in atoms.ints && q in atoms.ints && AsF64(p) == AsF64(q) && AsF64(p) in atoms.floats && p != q;
        assert p < q || q < p;
      }
      AsF64Range(a);
      assert Le(Int(b), Float(AsF64(a))) && Le(Float(AsF64(a)), Int(a)) && !Le(Int(b), Int(a));
    }
  }

  lemma AsF64Range(i: int)
    requires -0x8000_0000_0000_0000 <= i < 0x8000_0000_0000_0000
    ensures -0x8000_0000_0000_0000 <= AsF64(i) < 0x8000_0000_0000_0000
  {
    Pow63();
    if i != 0 {
      var a := if i > 0 then i else -i;
      SignificandRange(a);
      if Ilog2(a) > 63 {
        Pow2Monotone(63, Ilog2(a));
      }
    }
  }

  lemma Pow63()
    ensures Pow2(63) == 0x8000_0000_0000_0000
  {
    Pow52();
    Pow2Add(52, 11);
    assert Pow2(11) == 2048 by { assert Pow2(5) == 32; }
  }

  /** Integers of magnitude at most 2^53 never clash, whatever floats sit beside them. */
  lemma ExactIntegersNeverClash(atoms: Atoms)
    requires forall a :: a in atoms.ints ==> -EXACT <= a <= EXACT
    ensures NoClash(atoms)
  {
    forall a, b | a in atoms.ints && b in atoms.ints && AsF64(a) == AsF64(b) ensures a == b {
      if a < b { AsF64Exact(a, b); }
      if b < a { AsF64Exact(b, a); }
    }
  }

  /** Two integers just past 2^53 and the float between them form a cycle of ties and a strict step. */
  lemma CycleBeyond2To53(f: i64)
    requires f == AsF64(EXACT)
    ensures CmpKey(Int(EXACT), Float(f)) == Equal
    ensures CmpKey(Float(f), Int(EXACT + 1)) == Equal
    ensures CmpKey(Int(EXACT), Int(EXACT + 1)) == Less
  {
    Collision();
  }
}

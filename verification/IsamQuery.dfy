/** What the index queries mean on the plain row list, and the facts that make a sparse
    top level sufficient to answer them. */
module IsamQuery {
  import opened Collections
  import opened Order
  import opened IsamFormat

  /** Ids of the rows that pass a test, in row order: a linear scan. */
  function Ids(rows: seq<Row>, test: Row -> bool): seq<nat> {
    if rows == [] then []
    else (if test(rows[0]) then [rows[0].id] else []) + Ids(rows[1..], test)
  }

  function Equals(key: Value): Row -> bool {
    (r: Row) => CmpKey(r.key, key) == Equal
  }

  function EqIds(rows: seq<Row>, key: Value): seq<nat> {
    Ids(rows, Equals(key))
  }

  datatype Range = Range(lo: Option<Value>, loInclusive: bool, hi: Option<Value>, hiInclusive: bool)

  predicate BelowLo(q: Range, k: Value) {
    q.lo.Some? && (CmpKey(k, q.lo.value) == Less || (CmpKey(k, q.lo.value) == Equal && !q.loInclusive))
  }

  predicate PastHi(q: Range, k: Value) {
    q.hi.Some? && (CmpKey(k, q.hi.value) == Greater || (CmpKey(k, q.hi.value) == Equal && !q.hiInclusive))
  }

  function Within(q: Range): Row -> bool {
    (r: Row) => !BelowLo(q, r.key) && !PastHi(q, r.key)
  }

  function RangeIds(rows: seq<Row>, q: Range): seq<nat> {
    Ids(rows, Within(q))
  }

  lemma {:induction false} IdsConcat(a: seq<Row>, b: seq<Row>, test: Row -> bool)
    ensures Ids(a + b, test) == Ids(a, test) + Ids(b, test)
  {
    if a == [] {
      assert a + b == b;
    } else {
      var head: seq<nat> := if test(a[0]) then [a[0].id] else [];
      assert (a + b)[1..] == a[1..] + b && (a + b)[0] == a[0];
      IdsConcat(a[1..], b, test);
      assert head + (Ids(a[1..], test) + Ids(b, test)) == (head + Ids(a[1..], test)) + Ids(b, test);
    }
  }

  lemma {:induction false} IdsNone(rows: seq<Row>, test: Row -> bool)
    requires forall r :: r in rows ==> !test(r)
    ensures Ids(rows, test) == []
  {
    if rows != [] {
      IdsNone(rows[1..], test);
    }
  }

  lemma IdsSnoc(rows: seq<Row>, r: Row, test: Row -> bool)
    ensures Ids(rows + [r], test) == Ids(rows, test) + (if test(r) then [r.id] else [])
  {
    IdsConcat(rows, [r], test);
    assert Ids([r], test) == (if test(r) then [r.id] else []) + Ids([], test);
  }

  // ---- how a sorted row list looks from one key ----

  function Side(k: Value, key: Value): int {
    match CmpKey(k, key) case Less => -1 case Equal => 0 case Greater => 1
  }

  /** Below, then equal, then above: the rows never turn back past `key`. */
  ghost predicate Profile(rows: seq<Row>, key: Value) {
    forall i, j :: 0 <= i < j < |rows| ==> Side(rows[i].key, key) <= Side(rows[j].key, key)
  }

  ghost predicate SortedRows(rows: seq<Row>) {
    forall i, j :: 0 <= i < j < |rows| ==> Le(rows[i].key, rows[j].key)
  }

  ghost predicate RowsOver(rows: seq<Row>, atoms: Atoms) {
    forall r :: r in rows ==> Over(r.key, atoms)
  }

  /** Sorted rows of a clash-free family have this shape from every key of the family. */
  lemma SortedHasProfile(rows: seq<Row>, key: Value, atoms: Atoms)
    requires SortedRows(rows) && RowsOver(rows, atoms) && Over(key, atoms) && NoClash(atoms)
    ensures Profile(rows, key)
  {
    forall i, j | 0 <= i < j < |rows| ensures Side(rows[i].key, key) <= Side(rows[j].key, key) {
      assert Over(rows[i].key, atoms) && Over(rows[j].key, atoms);
      CmpKeyChains(rows[i].key, rows[j].key, key, atoms);
      CmpKeyChains(key, rows[i].key, rows[j].key, atoms);
      CmpKeyFlip(key, rows[i].key);
      CmpKeyFlip(key, rows[j].key);
    }
  }

  ghost predicate Blocked(blocks: seq<seq<Row>>) {
    forall b :: 0 <= b < |blocks| ==> blocks[b] != []
  }

  lemma SplitAt(blocks: seq<seq<Row>>, b: nat)
    requires b < |blocks|
    ensures Flatten(blocks) == Flatten(blocks[..b]) + Flatten(blocks[b..])
    ensures Flatten(blocks[b..]) == blocks[b] + Flatten(blocks[b + 1..])
  {
    assert blocks == blocks[..b] + blocks[b..];
    FlattenConcat(blocks[..b], blocks[b..]);
    assert blocks[b..][1..] == blocks[b + 1..];
  }

  lemma ProfileSplit(before: seq<Row>, after: seq<Row>, key: Value)
    requires Profile(before + after, key) && after != []
    ensures forall r :: r in before ==> Side(r.key, key) <= Side(after[0].key, key)
    ensures forall r :: r in after ==> Side(after[0].key, key) <= Side(r.key, key)
    ensures Profile(after, key)
  {
    hide Side;
    var rows, n := before + after, |before|;
    assert rows[n] == after[0];
    forall r | r in before ensures Side(r.key, key) <= Side(after[0].key, key) {
      var i :| 0 <= i < n && before[i] == r;
      assert rows[i] == r;
    }
    forall i, j | 0 <= i < j < |after| ensures Side(after[i].key, key) <= Side(after[j].key, key) {
      assert rows[n + i] == after[i] && rows[n + j] == after[j];
    }
  }

  lemma ProfilePrefix(a: seq<Row>, b: seq<Row>, key: Value)
    requires Profile(a + b, key)
    ensures Profile(a, key)
  {
    hide Side;
    forall i, j | 0 <= i < j < |a| ensures Side(a[i].key, key) <= Side(a[j].key, key) {
      assert (a + b)[i] == a[i] && (a + b)[j] == a[j];
    }
  }

  /** Rows before a block lie on no higher side than its first row, rows from it on no lower. */
  lemma AroundBlock(blocks: seq<seq<Row>>, b: nat, key: Value)
    requires b < |blocks| && Blocked(blocks) && Profile(Flatten(blocks), key)
    ensures forall r :: r in Flatten(blocks[..b]) ==> Side(r.key, key) <= Side(blocks[b][0].key, key)
    ensures forall r :: r in Flatten(blocks[b..]) ==> Side(blocks[b][0].key, key) <= Side(r.key, key)
    ensures Profile(blocks[b], key)
  {
    SplitAt(blocks, b);
    ProfileSplit(Flatten(blocks[..b]), Flatten(blocks[b..]), key);
    ProfilePrefix(blocks[b], Flatten(blocks[b + 1..]), key);
  }

  /** A block that starts above `key` and everything after it holds no match. */
  lemma NothingAbove(blocks: seq<seq<Row>>, b: nat, key: Value)
    requires b < |blocks| && Blocked(blocks) && Profile(Flatten(blocks), key)
    requires CmpKey(blocks[b][0].key, key) == Greater
    ensures EqIds(Flatten(blocks[b..]), key) == []
  {
    AroundBlock(blocks, b, key);
    forall r | r in Flatten(blocks[b..]) ensures !Equals(key)(r) {
      assert Side(blocks[b][0].key, key) <= Side(r.key, key);
    }
    IdsNone(Flatten(blocks[b..]), Equals(key));
  }

  /** If a block starts below `key`, no match lies before it. */
  lemma NothingBefore(blocks: seq<seq<Row>>, b: nat, key: Value)
    requires b < |blocks| && Blocked(blocks) && Profile(Flatten(blocks), key)
    requires CmpKey(blocks[b][0].key, key) == Less
    ensures EqIds(Flatten(blocks), key) == EqIds(Flatten(blocks[b..]), key)
  {
    AroundBlock(blocks, b, key);
    SplitAt(blocks, b);
    forall r | r in Flatten(blocks[..b]) ensures !Equals(key)(r) {
      assert Side(r.key, key) <= Side(blocks[b][0].key, key);
    }
    IdsNone(Flatten(blocks[..b]), Equals(key));
    IdsConcat(Flatten(blocks[..b]), Flatten(blocks[b..]), Equals(key));
  }

  lemma EqSplit(blocks: seq<seq<Row>>, b: nat, key: Value)
    requires b < |blocks|
    ensures EqIds(Flatten(blocks[b..]), key) == EqIds(blocks[b], key) + EqIds(Flatten(blocks[b + 1..]), key)
  {
    SplitAt(blocks, b);
    IdsConcat(blocks[b], Flatten(blocks[b + 1..]), Equals(key));
  }

  // ---- one leaf ----

  /** The ids of the rows from `i` on, up to the first whose key is not equal. */
  function RunFrom(rows: seq<Row>, key: Value, i: nat): seq<nat>
    requires i <= |rows|
    decreases |rows| - i
  {
    if i < |rows| && CmpKey(rows[i].key, key) == Equal then [rows[i].id] + RunFrom(rows, key, i + 1) else []
  }

  /** What one leaf contributes: the equal run behind the rows below `key`. */
  function LeafEqual(find: Search, rows: seq<Row>, key: Value): seq<nat> {
    RunFrom(rows, key, Point(find, rows, (r: Row) => CmpKey(r.key, key) == Less))
  }

  /** Binary-search the first row not below `key`, then collect the equal run. */
  method EqualRun(find: Search, rows: seq<Row>, key: Value) returns (ids: seq<nat>)
    ensures ids == LeafEqual(find, rows, key)
  {
    hide CmpKey;
    var start := Point(find, rows, (r: Row) => CmpKey(r.key, key) == Less);
    ids := [];
    var i := start;
    while i < |rows| && CmpKey(rows[i].key, key) == Equal
      invariant start <= i <= |rows|
      invariant ids + RunFrom(rows, key, i) == RunFrom(rows, key, start)
    {
      ids := ids + [rows[i].id];
      i := i + 1;
    }
  }

  /** The run ends at the end of the leaf or before a row that is not equal. */
  lemma {:induction false} RunFromIs(rows: seq<Row>, key: Value, i: nat) returns (end: nat)
    requires i <= |rows|
    ensures i <= end <= |rows| && RunFrom(rows, key, i) == EqIds(rows[i..end], key)
    ensures end < |rows| ==> CmpKey(rows[end].key, key) != Equal
    decreases |rows| - i
  {
    hide CmpKey;
    if i < |rows| && CmpKey(rows[i].key, key) == Equal {
      end := RunFromIs(rows, key, i + 1);
      assert rows[i..end] == [rows[i]] + rows[i + 1..end];
    } else {
      end := i;
    }
  }

  /** On rows in shape that is exactly the ids of the rows equal to the key. */
  lemma LeafEqualIs(find: Search, rows: seq<Row>, key: Value)
    requires Searches(find) && Profile(rows, key)
    ensures LeafEqual(find, rows, key) == EqIds(rows, key)
  {
    hide CmpKey, RunFrom, EqIds, Profile, Point, Searches;
    BelowFirst(rows, key);
    PointStops(find, rows, (r: Row) => CmpKey(r.key, key) == Less);
    var start := Point(find, rows, (r: Row) => CmpKey(r.key, key) == Less);
    var end := RunFromIs(rows, key, start);
    EqualRunIs(rows, key, start, end);
  }

  /** Behind the rows below the key, everything equal to it comes before the first row that is not. */
  lemma EqualRunIs(rows: seq<Row>, key: Value, start: nat, end: nat)
    requires Profile(rows, key) && start <= end <= |rows|
    requires forall i :: 0 <= i < start ==> CmpKey(rows[i].key, key) == Less
    requires start < |rows| ==> CmpKey(rows[start].key, key) != Less
    requires end < |rows| ==> CmpKey(rows[end].key, key) != Equal
    ensures EqIds(rows, key) == EqIds(rows[start..end], key)
  {
    hide CmpKey, Ids, Profile;
    NoneBelow(rows[..start], key);
    assert rows[..end] == rows[..start] + rows[start..end];
    IdsConcat(rows[..start], rows[start..end], Equals(key));
    if end < |rows| {
      NotBelowAfter(rows, start, end, key);
      TailAbove(rows, end, key);
    } else {
      assert rows[..end] == rows;
    }
  }

  lemma BelowFirst(rows: seq<Row>, key: Value)
    requires Profile(rows, key)
    ensures forall i, j :: 0 <= i < j < |rows| && CmpKey(rows[j].key, key) == Less ==> CmpKey(rows[i].key, key) == Less
  {
    hide CmpKey;
    forall i, j | 0 <= i < j < |rows| && CmpKey(rows[j].key, key) == Less ensures CmpKey(rows[i].key, key) == Less {
      assert Side(rows[i].key, key) <= Side(rows[j].key, key);
    }
  }

  lemma NoneBelow(rows: seq<Row>, key: Value)
    requires forall i :: 0 <= i < |rows| ==> CmpKey(rows[i].key, key) == Less
    ensures EqIds(rows, key) == []
  {
    hide CmpKey;
    forall r | r in rows ensures !Equals(key)(r) {
      var i :| 0 <= i < |rows| && rows[i] == r;
    }
    IdsNone(rows, Equals(key));
  }

  lemma NotBelowAfter(rows: seq<Row>, start: nat, end: nat, key: Value)
    requires Profile(rows, key) && start <= end < |rows|
    requires CmpKey(rows[start].key, key) != Less && CmpKey(rows[end].key, key) != Equal
    ensures CmpKey(rows[end].key, key) == Greater
  {
    if start < end {
      assert Side(rows[start].key, key) <= Side(rows[end].key, key);
    }
  }

  lemma TailAbove(rows: seq<Row>, i: nat, key: Value)
    requires Profile(rows, key) && i < |rows| && CmpKey(rows[i].key, key) == Greater
    ensures EqIds(rows, key) == EqIds(rows[..i], key)
  {
    assert rows == rows[..i] + rows[i..];
    ProfileSplit(rows[..i], rows[i..], key);
    forall r | r in rows[i..] ensures !Equals(key)(r) {
      assert Side(rows[i].key, key) <= Side(r.key, key);
    }
    IdsNone(rows[i..], Equals(key));
    IdsConcat(rows[..i], rows[i..], Equals(key));
  }

  // ---- ranges ----

  /** From a range query's point of view: below, then inside, then past. */
  ghost predicate Shape(rows: seq<Row>, q: Range) {
    forall i, j :: 0 <= i < j < |rows| ==>
      (PastHi(q, rows[i].key) ==> PastHi(q, rows[j].key)) && (BelowLo(q, rows[j].key) ==> BelowLo(q, rows[i].key))
  }

  ghost predicate RangeProfile(rows: seq<Row>, q: Range) {
    (q.lo.Some? ==> Profile(rows, q.lo.value)) && (q.hi.Some? ==> Profile(rows, q.hi.value))
  }

  /** What a range lookup needs: the rows in shape, and the lower bound searchable in the top level. */
  ghost predicate Scannable(rows: seq<Row>, q: Range) {
    Shape(rows, q) && (q.lo.Some? ==> Profile(rows, q.lo.value))
  }

  lemma ProfileGivesShape(rows: seq<Row>, q: Range)
    requires RangeProfile(rows, q)
    ensures Scannable(rows, q)
  {
    forall i, j | 0 <= i < j < |rows|
      ensures PastHi(q, rows[i].key) ==> PastHi(q, rows[j].key)
      ensures BelowLo(q, rows[j].key) ==> BelowLo(q, rows[i].key)
    {
      if q.lo.Some? { assert Side(rows[i].key, q.lo.value) <= Side(rows[j].key, q.lo.value); }
      if q.hi.Some? { assert Side(rows[i].key, q.hi.value) <= Side(rows[j].key, q.hi.value); }
    }
  }

  lemma ShapeSplit(before: seq<Row>, after: seq<Row>, q: Range)
    requires Shape(before + after, q)
    ensures Shape(before, q) && Shape(after, q)
    ensures forall r, t :: r in before && t in after ==>
      (PastHi(q, r.key) ==> PastHi(q, t.key)) && (BelowLo(q, t.key) ==> BelowLo(q, r.key))
  {
    hide PastHi, BelowLo;
    var rows, n := before + after, |before|;
    assert forall i :: 0 <= i < n ==> rows[i] == before[i];
    assert forall i :: 0 <= i < |after| ==> rows[n + i] == after[i];
    forall r, t | r in before && t in after
      ensures (PastHi(q, r.key) ==> PastHi(q, t.key)) && (BelowLo(q, t.key) ==> BelowLo(q, r.key))
    {
      var i :| 0 <= i < n && before[i] == r;
      var j :| 0 <= j < |after| && after[j] == t;
      assert rows[i] == r && rows[n + j] == t;
    }
  }

  /** Once a row is past the upper bound, nothing after it counts. */
  lemma NothingPast(before: seq<Row>, after: seq<Row>, q: Range, r: Row)
    requires Shape(before + after, q) && r in before && PastHi(q, r.key)
    ensures RangeIds(before + after, q) == RangeIds(before, q)
  {
    ShapeSplit(before, after, q);
    IdsNone(after, Within(q));
    IdsConcat(before, after, Within(q));
  }

  /** While a later row is still below the lower bound, nothing before it counts. */
  lemma NothingBelow(before: seq<Row>, after: seq<Row>, q: Range)
    requires Shape(before + after, q) && after != [] && BelowLo(q, after[0].key)
    ensures RangeIds(before, q) == []
  {
    ShapeSplit(before, after, q);
    forall r | r in before ensures !Within(q)(r) {
      assert after[0] in after;
    }
    IdsNone(before, Within(q));
  }

  lemma AllPast(rows: seq<Row>, q: Range)
    requires Shape(rows, q) && rows != [] && PastHi(q, rows[0].key)
    ensures RangeIds(rows, q) == []
  {
    forall r | r in rows ensures !Within(q)(r) {
      var i :| 0 <= i < |rows| && rows[i] == r;
    }
    IdsNone(rows, Within(q));
  }

  /** The ids from row `i` up to the first row past the range, and whether there is one. */
  function TakeFrom(rows: seq<Row>, q: Range, i: nat): (seq<nat>, bool)
    requires i <= |rows|
    decreases |rows| - i
  {
    if i == |rows| then ([], false)
    else if PastHi(q, rows[i].key) then ([], true)
    else
      var rest := TakeFrom(rows, q, i + 1);
      ([rows[i].id] + rest.0, rest.1)
  }

  /** What one leaf contributes to a range: rows behind those below it, until one is past it. */
  function LeafRange(find: Search, rows: seq<Row>, q: Range): (seq<nat>, bool) {
    TakeFrom(rows, q, Point(find, rows, (r: Row) => BelowLo(q, r.key)))
  }

  method RangeRun(find: Search, rows: seq<Row>, q: Range) returns (ids: seq<nat>, stopped: bool)
    ensures (ids, stopped) == LeafRange(find, rows, q)
  {
    hide PastHi, BelowLo;
    var begin := Point(find, rows, (r: Row) => BelowLo(q, r.key));
    ids := [];
    var i := begin;
    assert [] + TakeFrom(rows, q, begin).0 == TakeFrom(rows, q, begin).0;
    while i < |rows|
      invariant begin <= i <= |rows|
      invariant TakeFrom(rows, q, begin) == (ids + TakeFrom(rows, q, i).0, TakeFrom(rows, q, i).1)
    {
      if PastHi(q, rows[i].key) {
        assert ids + [] == ids;
        return ids, true;
      }
      assert ids + ([rows[i].id] + TakeFrom(rows, q, i + 1).0) == ids + [rows[i].id] + TakeFrom(rows, q, i + 1).0;
      ids := ids + [rows[i].id];
      i := i + 1;
    }
    assert ids + [] == ids;
    stopped := false;
  }

  lemma {:induction false} TakeFromIs(rows: seq<Row>, q: Range, i: nat)
    requires Shape(rows, q) && i <= |rows| && (i < |rows| ==> !BelowLo(q, rows[i].key))
    ensures TakeFrom(rows, q, i).0 == RangeIds(rows[i..], q)
    ensures TakeFrom(rows, q, i).1 ==> exists r :: r in rows && PastHi(q, r.key)
    decreases |rows| - i
  {
    hide PastHi, BelowLo;
    if i < |rows| {
      assert rows == rows[..i] + rows[i..];
      ShapeSplit(rows[..i], rows[i..], q);
      if PastHi(q, rows[i].key) {
        AllPast(rows[i..], q);
        assert rows[i] in rows;
      } else {
        if i + 1 < |rows| {
          assert !BelowLo(q, rows[i + 1].key);
        }
        TakeFromIs(rows, q, i + 1);
        assert rows[i..] == [rows[i]] + rows[i + 1..];
      }
    }
  }

  /** On rows in shape that is exactly the ids inside the range, stopping only past its end. */
  lemma LeafRangeIs(find: Search, rows: seq<Row>, q: Range)
    requires Searches(find) && Shape(rows, q)
    ensures LeafRange(find, rows, q).0 == RangeIds(rows, q)
    ensures LeafRange(find, rows, q).1 ==> exists r :: r in rows && PastHi(q, r.key)
  {
    hide PastHi, BelowLo, Point;
    PointStops(find, rows, (r: Row) => BelowLo(q, r.key));
    var begin := Point(find, rows, (r: Row) => BelowLo(q, r.key));
    TakeFromIs(rows, q, begin);
    AllBelow(rows[..begin], q);
    assert rows == rows[..begin] + rows[begin..];
    IdsConcat(rows[..begin], rows[begin..], Within(q));
  }

  lemma AllBelow(rows: seq<Row>, q: Range)
    requires forall i :: 0 <= i < |rows| ==> BelowLo(q, rows[i].key)
    ensures RangeIds(rows, q) == []
  {
    hide PastHi, BelowLo;
    IdsNone(rows, Within(q));
  }

  // ---- run lengths ----

  /** Count one more row: extend the open run or start a new one. */
  function Counted(out: seq<(Value, nat)>, k: Value): seq<(Value, nat)> {
    if out != [] && CmpKey(out[|out| - 1].0, k) == Equal
    then out[|out| - 1 := (out[|out| - 1].0, out[|out| - 1].1 + 1)]
    else out + [(k, 1)]
  }

  /** The run-length count of a row list, left to right. */
  function RunLengths(rows: seq<Row>): seq<(Value, nat)> {
    if rows == [] then [] else Counted(RunLengths(rows[..|rows| - 1]), rows[|rows| - 1].key)
  }

  lemma RunLengthsSnoc(rows: seq<Row>, r: Row)
    ensures RunLengths(rows + [r]) == Counted(RunLengths(rows), r.key)
  {
    assert (rows + [r])[..|rows|] == rows;
  }

  lemma {:induction false} RunLengthsGrow(rows: seq<Row>, more: seq<Row>)
    ensures |RunLengths(rows)| <= |RunLengths(rows + more)|
    decreases |more|
  {
    if more == [] {
      assert rows + more == rows;
    } else {
      var n := |more| - 1;
      RunLengthsGrow(rows, more[..n]);
      assert rows + more == (rows + more[..n]) + [more[n]];
      RunLengthsSnoc(rows + more[..n], more[n]);
    }
  }

  /** The counts are right: keys strictly ascend, each count is the number of rows with an
      equal key, and no row is left out. */
  ghost predicate Tally(rows: seq<Row>, out: seq<(Value, nat)>) {
    && (forall i, j :: 0 <= i < j < |out| ==> CmpKey(out[i].0, out[j].0) == Less)
    && (forall i :: 0 <= i < |out| ==> out[i].1 == |EqIds(rows, out[i].0)|)
    && (forall r :: r in rows ==> Has(out, r.key))
  }

  ghost predicate Has(out: seq<(Value, nat)>, k: Value) {
    exists i :: 0 <= i < |out| && CmpKey(k, out[i].0) == Equal
  }

  ghost predicate OutOver(out: seq<(Value, nat)>, atoms: Atoms) {
    forall i :: 0 <= i < |out| ==> Over(out[i].0, atoms)
  }

  lemma TallyExtends(rows: seq<Row>, r: Row, out: seq<(Value, nat)>, atoms: Atoms)
    requires NoClash(atoms) && OutOver(out, atoms) && Over(r.key, atoms)
    requires Tally(rows, out) && out != [] && CmpKey(out[|out| - 1].0, r.key) == Equal
    ensures Tally(rows + [r], Counted(out, r.key))
  {
    hide CmpKey, Over, NoClash, Ids;
    var out', n := Counted(out, r.key), |out| - 1;
    CmpKeyFlip(out[n].0, r.key);
    forall i | 0 <= i < |out'| ensures out'[i].1 == |EqIds(rows + [r], out'[i].0)| {
      IdsSnoc(rows, r, Equals(out[i].0));
      if i < n {
        assert CmpKey(out[i].0, out[n].0) == Less;
        CmpKeyChains(out[i].0, out[n].0, r.key, atoms);
        CmpKeyFlip(out[i].0, r.key);
      }
    }
    forall t | t in rows + [r] ensures Has(out', t.key) {
      if t in rows {
        assert Has(out, t.key);
        var i :| 0 <= i < |out| && CmpKey(t.key, out[i].0) == Equal;
        assert out'[i].0 == out[i].0;
      } else {
        assert out'[n].0 == out[n].0;
      }
    }
  }

  lemma TallyOpens(rows: seq<Row>, r: Row, out: seq<(Value, nat)>, atoms: Atoms)
    requires NoClash(atoms) && OutOver(out, atoms) && Over(r.key, atoms) && RowsOver(rows, atoms)
    requires Tally(rows, out)
    requires out != [] ==> CmpKey(out[|out| - 1].0, r.key) == Less
    ensures Tally(rows + [r], out + [(r.key, 1)])
  {
    hide CmpKey, Over, NoClash, Ids;
    var out', n := out + [(r.key, 1)], |out|;
    CmpKeyReflexive(r.key);
    forall i | 0 <= i < n ensures CmpKey(out[i].0, r.key) == Less && CmpKey(r.key, out[i].0) == Greater {
      if i < n - 1 {
        assert CmpKey(out[i].0, out[n - 1].0) == Less;
        CmpKeyChains(out[i].0, out[n - 1].0, r.key, atoms);
      }
      CmpKeyFlip(out[i].0, r.key);
    }
    forall i | 0 <= i < |out'| ensures out'[i].1 == |EqIds(rows + [r], out'[i].0)| {
      IdsSnoc(rows, r, Equals(out'[i].0));
      if i == n {
        forall t | t in rows ensures !Equals(r.key)(t) {
          assert Has(out, t.key) && Over(t.key, atoms);
          var k :| 0 <= k < |out| && CmpKey(t.key, out[k].0) == Equal;
          CmpKeyChains(t.key, out[k].0, r.key, atoms);
        }
        IdsNone(rows, Equals(r.key));
      }
    }
    forall t | t in rows + [r] ensures Has(out', t.key) {
      if t in rows {
        assert Has(out, t.key);
        var i :| 0 <= i < |out| && CmpKey(t.key, out[i].0) == Equal;
        assert out'[i].0 == out[i].0;
      } else {
        assert out'[n].0 == r.key;
      }
    }
  }

  lemma CmpKeyReflexive(x: Value)
    ensures CmpKey(x, x) == Equal
  {
    CmpKeyFlip(x, x);
  }

  /** A tally whose last run is open at the last row. */
  ghost predicate OpenTally(rows: seq<Row>, out: seq<(Value, nat)>, atoms: Atoms) {
    && Tally(rows, out) && OutOver(out, atoms)
    && (rows == [] ==> out == [])
    && (rows != [] ==> (out != [] && CmpKey(out[|out| - 1].0, rows[|rows| - 1].key) == Equal))
  }

  lemma TallyStep(rows: seq<Row>, r: Row, out: seq<(Value, nat)>, atoms: Atoms)
    requires NoClash(atoms) && RowsOver(rows, atoms) && Over(r.key, atoms)
    requires OpenTally(rows, out, atoms)
    requires rows != [] ==> Le(rows[|rows| - 1].key, r.key)
    ensures OpenTally(rows + [r], Counted(out, r.key), atoms)
  {
    hide CmpKey, Over, NoClash, Ids, Tally;
    CmpKeyReflexive(r.key);
    if rows != [] {
      assert rows[|rows| - 1] in rows;
      CmpKeyChains(out[|out| - 1].0, rows[|rows| - 1].key, r.key, atoms);
    }
    if out != [] && CmpKey(out[|out| - 1].0, r.key) == Equal {
      TallyExtends(rows, r, out, atoms);
    } else {
      TallyOpens(rows, r, out, atoms);
    }
  }

  /** On sorted rows of a clash-free family the run-length count is the true tally. */
  lemma {:induction false} RunLengthsTally(rows: seq<Row>, atoms: Atoms)
    requires SortedRows(rows) && RowsOver(rows, atoms) && NoClash(atoms)
    ensures OpenTally(rows, RunLengths(rows), atoms)
  {
    if rows != [] {
      hide CmpKey, Over, NoClash, OpenTally;
      var n := |rows| - 1;
      assert rows == rows[..n] + [rows[n]];
      RunLengthsTally(rows[..n], atoms);
      assert rows[n] in rows;
      TallyStep(rows[..n], rows[n], RunLengths(rows[..n]), atoms);
    }
  }
}

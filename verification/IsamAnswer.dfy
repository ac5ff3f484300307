/** What an index answers, as a function of its top level, its leaves and the query alone: no cache,
    no memo (crates/graph-format/src/isam.rs:803-1010). A leaf that does not decode makes an answer
    fail exactly when the walk reaches it. */
module IsamAnswer {
  import opened Collections
  import opened Sorting
  import opened Order
  import opened IsamFormat
  import opened IsamQuery

  /** The index holds these blocks. */
  ghost predicate Holds(tops: seq<Value>, leaves: seq<seq<byte>>, blocks: seq<seq<Row>>) {
    && |tops| == |leaves| == |blocks|
    && (forall b :: 0 <= b < |blocks| ==>
          blocks[b] != [] && tops[b] == blocks[b][0].key && DecodeLeaf(leaves[b]) == Some(blocks[b]))
  }

  function Join(ids: seq<nat>, more: Option<seq<nat>>): Option<seq<nat>> {
    if more.None? then None else Some(ids + more.value)
  }

  // ---- equality ----

  /** Walk back from leaf `b` while the leaf starts with the key. */
  function EqWalk(find: Search, leaves: seq<seq<byte>>, key: Value, b: nat): Option<seq<nat>>
    requires b < |leaves|
  {
    match DecodeLeaf(leaves[b])
    case None => None
    case Some(rows) =>
      if StartsWith(rows, key) && b > 0 then Join(LeafEqual(find, rows, key), EqWalk(find, leaves, key, b - 1))
      else Some(LeafEqual(find, rows, key))
  }

  predicate StartsWith(rows: seq<Row>, key: Value) {
    rows != [] && CmpKey(rows[0].key, key) == Equal
  }

  /** How many leaves do not start above the key. */
  function Anchor(find: Search, tops: seq<Value>, key: Value): (le: nat)
    ensures le <= |tops|
  {
    Point(find, tops, (t: Value) => CmpKey(t, key) != Greater)
  }

  function EqAnswer(find: Search, tops: seq<Value>, leaves: seq<seq<byte>>, key: Value): Option<seq<nat>>
    requires |tops| == |leaves|
  {
    var le := Anchor(find, tops, key);
    if le == 0 then Some([])
    else
      match EqWalk(find, leaves, key, le - 1)
      case None => None
      case Some(ids) => Some(SortIds(ids))
  }

  /** One answer per key, failing with the first that fails. */
  function BatchAnswer(find: Search, tops: seq<Value>, leaves: seq<seq<byte>>, keys: seq<Value>): Option<seq<seq<nat>>>
    requires |tops| == |leaves|
  {
    if keys == [] then Some([])
    else
      var n := |keys| - 1;
      var init, last := BatchAnswer(find, tops, leaves, keys[..n]), EqAnswer(find, tops, leaves, keys[n]);
      if init.None? || last.None? then None else Some(init.value + [last.value])
  }

  lemma BatchSnoc(find: Search, tops: seq<Value>, leaves: seq<seq<byte>>, keys: seq<Value>, i: nat)
    requires |tops| == |leaves| && i < |keys|
    ensures BatchAnswer(find, tops, leaves, keys[..i + 1]) ==
      var init, last := BatchAnswer(find, tops, leaves, keys[..i]), EqAnswer(find, tops, leaves, keys[i]);
      if init.None? || last.None? then None else Some(init.value + [last.value])
  {
    assert keys[..i + 1][..i] == keys[..i];
  }

  /** The batch succeeds exactly when every lookup does, and slot `i` is then the `i`-th lookup. */
  lemma {:induction false} BatchIsLookups(find: Search, tops: seq<Value>, leaves: seq<seq<byte>>, keys: seq<Value>)
    requires |tops| == |leaves|
    ensures BatchAnswer(find, tops, leaves, keys).Some? <==>
      forall k :: k in keys ==> EqAnswer(find, tops, leaves, k).Some?
    ensures BatchAnswer(find, tops, leaves, keys).Some? ==>
      && |BatchAnswer(find, tops, leaves, keys).value| == |keys|
      && forall i :: 0 <= i < |keys| ==>
        EqAnswer(find, tops, leaves, keys[i]) == Some(BatchAnswer(find, tops, leaves, keys).value[i])
  {
    hide EqAnswer;
    if keys != [] {
      var n := |keys| - 1;
      BatchIsLookups(find, tops, leaves, keys[..n]);
      assert keys == keys[..n] + [keys[n]];
      assert forall k :: k in keys <==> k in keys[..n] || k == keys[n];
    }
  }

  /** On leaves that decode, the walk back collects every match up to its first leaf. */
  lemma {:induction false} EqWalkIs(find: Search, tops: seq<Value>, leaves: seq<seq<byte>>, blocks: seq<seq<Row>>,
                                    key: Value, b: nat)
    requires Searches(find) && Holds(tops, leaves, blocks) && Profile(Flatten(blocks), key) && b < |blocks|
    requires CmpKey(blocks[b][0].key, key) != Greater
    ensures EqWalk(find, leaves, key, b).Some?
    ensures multiset(EqWalk(find, leaves, key, b).value) + multiset(EqIds(Flatten(blocks[b + 1..]), key))
         == multiset(EqIds(Flatten(blocks), key))
  {
    hide CmpKey, DecodeLeaf, Flatten, Ids, Profile, LeafEqual;
    AroundBlock(blocks, b, key);
    LeafEqualIs(find, blocks[b], key);
    EqSplit(blocks, b, key);
    var firstIsKey := StartsWith(blocks[b], key);
    if firstIsKey && b > 0 {
      EarlierNotAbove(blocks, b, key);
      EqWalkIs(find, tops, leaves, blocks, key, b - 1);
    } else {
      AllCollected(blocks, b, key, firstIsKey);
    }
  }

  /** A leaf before one that starts with the key does not start above it. */
  lemma EarlierNotAbove(blocks: seq<seq<Row>>, b: nat, key: Value)
    requires 0 < b < |blocks| && Blocked(blocks) && Profile(Flatten(blocks), key) && StartsWith(blocks[b], key)
    ensures CmpKey(blocks[b - 1][0].key, key) != Greater
  {
    AroundBlock(blocks, b, key);
    FlattenPrefix(blocks, b - 1);
    assert blocks[b - 1][0] in Flatten(blocks[..b]);
  }

  /** The top level of an index in shape is in shape: a search in it finds the change-over. */
  lemma TopsProfile(tops: seq<Value>, leaves: seq<seq<byte>>, blocks: seq<seq<Row>>, key: Value)
    requires Holds(tops, leaves, blocks) && Profile(Flatten(blocks), key)
    ensures forall i, j :: 0 <= i < j < |tops| ==> Side(tops[i], key) <= Side(tops[j], key)
    ensures forall i, j :: 0 <= i < j < |tops| && CmpKey(tops[j], key) != Greater ==> CmpKey(tops[i], key) != Greater
    ensures forall i, j :: 0 <= i < j < |tops| && CmpKey(tops[j], key) == Less ==> CmpKey(tops[i], key) == Less
  {
    hide CmpKey, DecodeLeaf, Flatten;
    forall i, j | 0 <= i < j < |tops| ensures Side(tops[i], key) <= Side(tops[j], key) {
      ElementAt(blocks, i, 0);
      ElementAt(blocks, j, 0);
      Further(blocks, i, j);
    }
  }

  lemma {:induction false} Further(blocks: seq<seq<Row>>, i: nat, j: nat)
    requires i < j < |blocks| && Blocked(blocks)
    ensures |Flatten(blocks[..i])| < |Flatten(blocks[..j])|
  {
    FlattenPrefix(blocks, j - 1);
    if i < j - 1 {
      Further(blocks, i, j - 1);
    }
  }

  /** The equality answer of an index in shape is the sorted ids of a linear filter. */
  lemma EqAnswerIs(find: Search, tops: seq<Value>, leaves: seq<seq<byte>>, blocks: seq<seq<Row>>, key: Value)
    requires Searches(find) && Holds(tops, leaves, blocks) && Profile(Flatten(blocks), key)
    ensures EqAnswer(find, tops, leaves, key) == Some(SortIds(EqIds(Flatten(blocks), key)))
  {
    hide CmpKey, DecodeLeaf, Flatten, Ids, Profile, EqWalk;
    TopsProfile(tops, leaves, blocks, key);
    PointStops(find, tops, (t: Value) => CmpKey(t, key) != Greater);
    var le := Anchor(find, tops, key);
    AnchorBlock(blocks, key, tops, le);
    if le > 0 {
      EqWalkIs(find, tops, leaves, blocks, key, le - 1);
      NoMatchFrom(blocks, key, le);
      SortIdsStable(EqWalk(find, leaves, key, le - 1).value, EqIds(Flatten(blocks), key));
    }
  }

  // ---- ranges ----

  /** The leaf before the first that does not start below the lower bound. */
  function RangeStart(find: Search, tops: seq<Value>, q: Range): nat {
    if q.lo.None? then 0
    else
      var ip := Point(find, tops, (t: Value) => CmpKey(t, q.lo.value) == Less);
      if ip == 0 then 0 else ip - 1
  }

  /** Scan from leaf `b` until a leaf starts past the range or a row is. */
  function RangeFrom(find: Search, tops: seq<Value>, leaves: seq<seq<byte>>, q: Range, b: nat): Option<seq<nat>>
    requires |tops| == |leaves|
    decreases |tops| - b
  {
    if b >= |tops| || PastHi(q, tops[b]) then Some([])
    else
      match DecodeLeaf(leaves[b])
      case None => None
      case Some(rows) =>
        var (ids, stopped) := LeafRange(find, rows, q);
        if stopped then Some(ids) else Join(ids, RangeFrom(find, tops, leaves, q, b + 1))
  }

  function RangeAnswer(find: Search, tops: seq<Value>, leaves: seq<seq<byte>>, q: Range): Option<seq<nat>>
    requires |tops| == |leaves|
  {
    match RangeFrom(find, tops, leaves, q, RangeStart(find, tops, q))
    case None => None
    case Some(ids) => Some(Dedup(SortIds(ids)))
  }

  lemma {:induction false} RangeFromIs(find: Search, tops: seq<Value>, leaves: seq<seq<byte>>, blocks: seq<seq<Row>>,
                                       q: Range,
                                       b: nat)
    requires Searches(find) && Holds(tops, leaves, blocks) && Shape(Flatten(blocks), q) && b <= |blocks|
    ensures RangeFrom(find, tops, leaves, q, b).Some?
    ensures RangeIds(Flatten(blocks[..b]), q) + RangeFrom(find, tops, leaves, q, b).value ==
      RangeIds(Flatten(blocks), q)
    decreases |blocks| - b
  {
    hide CmpKey, DecodeLeaf, Flatten, Ids, Shape, PastHi, LeafRange;
    if b == |blocks| {
      assert blocks[..b] == blocks;
    } else if PastHi(q, tops[b]) {
      PastFrom(blocks, b, q);
    } else {
      NextBlock(blocks, b, q);
      LeafRangeIs(find, blocks[b], q);
      if LeafRange(find, blocks[b], q).1 {
        StoppedAfter(blocks, b, q);
      } else {
        RangeFromIs(find, tops, leaves, blocks, q, b + 1);
      }
    }
  }

  /** The range answer of an index in shape is the strictly ascending ids of a linear filter. */
  lemma RangeAnswerIs(find: Search, tops: seq<Value>, leaves: seq<seq<byte>>, blocks: seq<seq<Row>>, q: Range)
    requires Searches(find) && Holds(tops, leaves, blocks) && Scannable(Flatten(blocks), q)
    ensures RangeAnswer(find, tops, leaves, q) == Some(Dedup(SortIds(RangeIds(Flatten(blocks), q))))
  {
    hide DecodeLeaf, Flatten, Ids, Shape, SortIds, RangeFrom;
    if q.lo.Some? {
      TopsProfile(tops, leaves, blocks, q.lo.value);
      PointStops(find, tops, (t: Value) => CmpKey(t, q.lo.value) == Less);
    }
    var b := RangeStart(find, tops, q);
    RangeFromIs(find, tops, leaves, blocks, q, b);
    if b > 0 {
      NothingBeforeRange(blocks, b, q);
    } else {
      NothingYet(blocks, q);
    }
    var ids := RangeFrom(find, tops, leaves, q, b).value;
    assert [] + ids == ids;
  }

  lemma NothingYet(blocks: seq<seq<Row>>, q: Range)
    ensures RangeIds(Flatten(blocks[..0]), q) == []
  {
    assert blocks[..0] == [];
  }

  // ---- counts ----

  /** A bounded count: a leaf did not decode, the bound was passed first, or the list. */
  datatype Counts = Unreadable | TooMany | Listed(counts: seq<(Value, nat)>)

  /** Go on counting at leaf `b` behind the rows already seen. */
  function CountsFrom(leaves: seq<seq<byte>>, max: nat, b: nat, seen: seq<Row>): Counts
    requires b <= |leaves|
    decreases |leaves| - b
  {
    if b == |leaves| then Listed(RunLengths(seen))
    else
      match DecodeLeaf(leaves[b])
      case None => Unreadable
      case Some(rows) =>
        if |RunLengths(seen + rows)| > max then TooMany else CountsFrom(leaves, max, b + 1, seen + rows)
  }

  lemma {:induction false} CountsFromIs(tops: seq<Value>, leaves: seq<seq<byte>>, blocks: seq<seq<Row>>, max: nat,
                                        b: nat)
    requires Holds(tops, leaves, blocks) && b <= |blocks| && |RunLengths(Flatten(blocks[..b]))| <= max
    ensures var full := RunLengths(Flatten(blocks));
      CountsFrom(leaves, max, b, Flatten(blocks[..b])) == if |full| <= max then Listed(full) else TooMany
    decreases |blocks| - b
  {
    hide DecodeLeaf, Flatten, RunLengths;
    if b == |blocks| {
      assert blocks[..b] == blocks;
    } else {
      FlattenPrefix(blocks, b);
      MorePrefix(blocks, b);
      if |RunLengths(Flatten(blocks[..b + 1]))| <= max {
        CountsFromIs(tops, leaves, blocks, max, b + 1);
      }
    }
  }

  lemma EmptyRuns(blocks: seq<seq<Row>>)
    ensures Flatten(blocks[..0]) == [] && RunLengths([]) == []
  {
    assert blocks[..0] == [];
  }

  lemma MorePrefix(blocks: seq<seq<Row>>, b: nat)
    requires b < |blocks|
    ensures |RunLengths(Flatten(blocks[..b + 1]))| <= |RunLengths(Flatten(blocks))|
  {
    assert blocks == blocks[..b + 1] + blocks[b + 1..];
    FlattenConcat(blocks[..b + 1], blocks[b + 1..]);
    RunLengthsGrow(Flatten(blocks[..b + 1]), Flatten(blocks[b + 1..]));
  }

  lemma NothingBeforeRange(blocks: seq<seq<Row>>, b: nat, q: Range)
    requires b < |blocks| && Blocked(blocks) && Shape(Flatten(blocks), q)
    requires BelowLo(q, blocks[b][0].key)
    ensures RangeIds(Flatten(blocks[..b]), q) == []
  {
    SplitAt(blocks, b);
    NothingBelow(Flatten(blocks[..b]), Flatten(blocks[b..]), q);
  }

  lemma PastFrom(blocks: seq<seq<Row>>, b: nat, q: Range)
    requires b < |blocks| && Blocked(blocks) && Shape(Flatten(blocks), q)
    requires PastHi(q, blocks[b][0].key)
    ensures RangeIds(Flatten(blocks), q) == RangeIds(Flatten(blocks[..b]), q)
  {
    SplitAt(blocks, b);
    ShapeSplit(Flatten(blocks[..b]), Flatten(blocks[b..]), q);
    AllPast(Flatten(blocks[b..]), q);
    IdsConcat(Flatten(blocks[..b]), Flatten(blocks[b..]), Within(q));
  }

  lemma NextBlock(blocks: seq<seq<Row>>, b: nat, q: Range)
    requires b < |blocks| && Shape(Flatten(blocks), q)
    ensures Shape(blocks[b], q)
    ensures RangeIds(Flatten(blocks[..b + 1]), q) == RangeIds(Flatten(blocks[..b]), q) + RangeIds(blocks[b], q)
  {
    SplitAt(blocks, b);
    ShapeSplit(Flatten(blocks[..b]), Flatten(blocks[b..]), q);
    ShapeSplit(blocks[b], Flatten(blocks[b + 1..]), q);
    FlattenPrefix(blocks, b);
    IdsConcat(Flatten(blocks[..b]), blocks[b], Within(q));
  }

  lemma StoppedAfter(blocks: seq<seq<Row>>, b: nat, q: Range)
    requires b < |blocks| && Shape(Flatten(blocks), q)
    requires exists r :: r in blocks[b] && PastHi(q, r.key)
    ensures RangeIds(Flatten(blocks), q) == RangeIds(Flatten(blocks[..b + 1]), q)
  {
    hide Flatten, Ids, Shape, PastHi, Within;
    var r :| r in blocks[b] && PastHi(q, r.key);
    FlattenPrefix(blocks, b);
    var before, after := Flatten(blocks[..b + 1]), Flatten(blocks[b + 1..]);
    assert r in before;
    assert blocks == blocks[..b + 1] + blocks[b + 1..];
    FlattenConcat(blocks[..b + 1], blocks[b + 1..]);
    NothingPast(before, after, q, r);
  }

  /** `le` is the count of leading blocks that do not start above `key`. */
  ghost predicate LastNotAbove(blocks: seq<seq<Row>>, key: Value, le: nat) {
    && le <= |blocks| && Blocked(blocks)
    && (forall b :: 0 <= b < le ==> CmpKey(blocks[b][0].key, key) != Greater)
    && (le < |blocks| ==> CmpKey(blocks[le][0].key, key) == Greater)
  }

  lemma NoMatchFrom(blocks: seq<seq<Row>>, key: Value, le: nat)
    requires LastNotAbove(blocks, key, le) && Profile(Flatten(blocks), key)
    ensures EqIds(Flatten(blocks[le..]), key) == []
  {
    if le < |blocks| {
      NothingAbove(blocks, le, key);
    } else {
      assert blocks[le..] == [];
    }
  }

  lemma AllCollected(blocks: seq<seq<Row>>, b: nat, key: Value, firstIsKey: bool)
    requires b < |blocks| && Blocked(blocks) && Profile(Flatten(blocks), key)
    requires firstIsKey == (CmpKey(blocks[b][0].key, key) == Equal)
    requires CmpKey(blocks[b][0].key, key) != Greater && !(firstIsKey && b > 0)
    ensures EqIds(Flatten(blocks), key) == EqIds(Flatten(blocks[b..]), key)
  {
    if b == 0 {
      assert blocks[0..] == blocks;
    } else {
      NothingBefore(blocks, b, key);
    }
  }

  lemma AnchorBlock(blocks: seq<seq<Row>>, key: Value, tops: seq<Value>, le: nat)
    requires |tops| == |blocks| && Blocked(blocks) && Profile(Flatten(blocks), key)
    requires forall b :: 0 <= b < |blocks| ==> tops[b] == blocks[b][0].key
    requires le <= |tops| && (forall j :: 0 <= j < le ==> CmpKey(tops[j], key) != Greater)
    requires le < |tops| ==> CmpKey(tops[le], key) == Greater
    ensures LastNotAbove(blocks, key, le)
    ensures le == 0 ==> EqIds(Flatten(blocks), key) == []
  {
    NoMatchFrom(blocks, key, le);
    assert blocks[0..] == blocks;
  }
}

/** From pushed rows to answers: external sort on its spill pool, merge, streamed leaves, cached
    lookups. */
module IsamPipeline {
  import opened Collections
  import opened Sorting
  import opened Order
  import opened Wire
  import opened IsamFormat
  import opened IsamQuery
  import opened IsamAnswer
  import opened IsamReader
  import opened BlockFile
  import opened BlockReader
  import opened RunFile
  import opened SpillPool
  import ClockShard
  import ExtSort

  /** Ascending by key, then by id. */
  function RowOrder(): (Row, Row) -> bool {
    (a: Row, b: Row) => CmpKey(a.key, b.key) == Less || (CmpKey(a.key, b.key) == Equal && a.id <= b.id)
  }

  lemma RowsAreOrdered(rows: seq<Row>, atoms: Atoms)
    requires RowsOver(rows, atoms) && NoClash(atoms)
    ensures ExtSort.Orders(RowOrder(), rows)
  {
    hide CmpKey, NoClash, Over;
    forall x, y | x in rows && y in rows ensures RowOrder()(x, y) || RowOrder()(y, x) {
      CmpKeyFlip(x.key, y.key);
    }
    forall x, y, z | x in rows && y in rows && z in rows && RowOrder()(x, y) && RowOrder()(y, z)
      ensures RowOrder()(x, z)
    {
      CmpKeyChains(x.key, y.key, z.key, atoms);
    }
  }

  function Kept(r: Row, test: Row -> bool): multiset<nat> {
    if test(r) then multiset{r.id} else multiset{}
  }

  /** Taking one row out takes its id out. */
  lemma IdsWithout(rows: seq<Row>, k: nat, test: Row -> bool)
    requires k < |rows|
    ensures var rest := rows[..k] + rows[k + 1..];
            && multiset(rows) == multiset{rows[k]} + multiset(rest)
            && multiset(Ids(rows, test)) == multiset(Ids(rest, test)) + Kept(rows[k], test)
  {
    var before, after := rows[..k], rows[k + 1..];
    assert rows == before + [rows[k]] + after;
    IdsConcat(before, after, test);
    IdsConcat(before + [rows[k]], after, test);
    IdsSnoc(before, rows[k], test);
  }

  /** Filtering a permutation permutes the ids. */
  lemma {:induction false} IdsPermute(a: seq<Row>, b: seq<Row>, test: Row -> bool)
    requires multiset(a) == multiset(b)
    ensures multiset(Ids(a, test)) == multiset(Ids(b, test))
  {
    hide Ids, Kept;
    assert |multiset(a)| == |a| && |multiset(b)| == |b|;
    if a != [] {
      assert a[0] in multiset(b);
      var k := MultisetIndex(b, a[0]);
      var front, rest := a[1..], b[..k] + b[k + 1..];
      IdsWithout(a, 0, test);
      IdsWithout(b, k, test);
      assert a[..0] + a[1..] == front;
      Cancel(multiset(front), multiset(rest), a[0]);
      IdsPermute(front, rest, test);
    }
  }

  lemma SortedIdsPermute(a: seq<Row>, b: seq<Row>, test: Row -> bool)
    requires multiset(a) == multiset(b)
    ensures SortIds(Ids(a, test)) == SortIds(Ids(b, test))
  {
    IdsPermute(a, b, test);
    SortIdsStable(Ids(a, test), Ids(b, test));
  }

  /** Every row of a block is a row of the index. */
  lemma {:induction false} RowOfBlock(blocks: seq<seq<Row>>, b: nat, e: Row)
    requires b < |blocks| && e in blocks[b]
    ensures e in Flatten(blocks) && |blocks[b]| <= |Flatten(blocks)|
  {
    assert blocks == blocks[..b] + [blocks[b]] + blocks[b + 1..];
    FlattenConcat(blocks[..b] + [blocks[b]], blocks[b + 1..]);
    FlattenSnoc(blocks[..b], blocks[b]);
  }

  /** What the format can carry: fields within 64 bits and keys within the nesting limit. */
  ghost predicate Carried(rows: seq<Row>) {
    |rows| < U64 && Shallow(rows) && forall e :: e in rows ==> RowOk(e)
  }

  lemma LeavesDecode(blocks: seq<seq<Row>>, tops: seq<Value>, leaves: seq<seq<byte>>)
    requires Indexes(blocks, tops, leaves) && Carried(Flatten(blocks))
    ensures forall b :: 0 <= b < |blocks| ==> DecodeLeaf(leaves[b]) == Some(blocks[b])
  {
    hide DecodeLeaf, EncodeLeaf, Flatten, Depth, RowOk;
    forall b | 0 <= b < |blocks| ensures DecodeLeaf(leaves[b]) == Some(blocks[b]) {
      forall e | e in blocks[b] ensures e in Flatten(blocks) && |blocks[b]| <= |Flatten(blocks)| {
        RowOfBlock(blocks, b, e);
      }
      assert blocks[b][0] in blocks[b];
      LeafRoundTripIff(blocks[b]);
    }
  }

  /** An index of the pushed rows: sorted, nothing lost or added. */
  ghost predicate IndexesRows(pushed: seq<Row>, blocks: seq<seq<Row>>, tops: seq<Value>, leaves: seq<seq<byte>>) {
    && IsamAnswer.Holds(tops, leaves, blocks)
    && SortedRows(Flatten(blocks)) && multiset(Flatten(blocks)) == multiset(pushed)
  }

  /** How the rows came to be spilled: the run of the sorter, its final state, and a family of atoms
      that covers the keys. */
  datatype History = History(sealer: Sealer, states: seq<Sorter<Row>>, steps: seq<SpillPool.Step<Row>>,
                             s: Sorter<Row>, atoms: Atoms)

  /** A sorter by key and id that became ready without an error, over rows the formats can carry. */
  ghost predicate Pushed(c: Config<Row>, files: seq<File>, open: Opener, h: History) {
    && Spilled(c, h.states, h.steps, h.s, h.sealer, files) && Undoes(open, h.sealer) && c.le == RowOrder()
    && Faithful(c.codec, h.s.input) && Audible(c.codec, h.s.input) && !h.s.reported
    && Carried(h.s.input) && RowsOver(h.s.input, h.atoms) && NoClash(h.atoms)
  }

  /** Merge the runs a sorter formed and stream them into leaves. */
  method BuildIndex(c: Config<Row>, files: seq<File>, open: Opener, target: nat, ghost h: History)
    returns (tops: seq<Value>, leaves: seq<seq<byte>>, ghost blocks: seq<seq<Row>>)
    requires Pushed(c, files, open, h)
    ensures IndexesRows(h.s.input, blocks, tops, leaves)
    ensures exists b: seq<seq<Row>> :: IndexesRows(h.s.input, b, tops, leaves)
  {
    hide Flatten, NoClash, Over, CmpKey, DecodeLeaf, Depth, RowOk, EncodeLeaf, ExtSort.Orders, RowOrder, Spilled,
         Undoes,
         Faithful, Audible, AllSpelled;
    RowsAreOrdered(h.s.input, h.atoms);
    var sorted := SortSpilled(c, files, open, h.sealer, h.states, h.steps, h.s);
    tops, leaves, blocks := WriteIsamSorted(sorted.value, target);
    SameRows(h.s.input, sorted.value);
    LeavesDecode(blocks, tops, leaves);
    OrderedRowsAreSorted(sorted.value);
  }

  lemma OrderedRowsAreSorted(rows: seq<Row>)
    requires SortedBy(RowOrder(), rows)
    ensures SortedRows(rows)
  {
    hide CmpKey;
    forall i, j | 0 <= i < j < |rows| ensures Le(rows[i].key, rows[j].key) {
      assert RowOrder()(rows[i], rows[j]);
    }
  }

  lemma SameRows(a: seq<Row>, b: seq<Row>)
    requires multiset(a) == multiset(b)
    ensures |a| == |b| && (forall e :: e in b ==> e in a)
    ensures Carried(a) ==> Carried(b)
  {
    hide Depth, RowOk;
    assert |multiset(a)| == |a| && |multiset(b)| == |b|;
    forall e | e in b ensures e in a { assert e in multiset(b); }
  }

  /** Whatever order the rows were pushed in, however the sorter cut, scheduled and merged its runs,
      wherever the leaves were cut, and whatever the cache's size: an equality lookup answers with the
      sorted ids of the pushed rows whose key compares equal. */
  method EqualsAfterBuild(c: Config<Row>, files: seq<File>, open: Opener, target: nat, find: Search, key: Value,
                          budget: nat, shards: nat, sub: nat, ghost h: History)
    returns (out: Option<seq<nat>>)
    requires Pushed(c, files, open, h) && Searches(find) && Over(key, h.atoms)
    ensures out == Some(SortIds(EqIds(h.s.input, key)))
  {
    hide Flatten, NoClash, Over, CmpKey, DecodeLeaf, Carried, RowOrder, SortIds, Ids, Profile, Searches, Spilled;
    var tops, leaves, blocks := BuildIndex(c, files, open, target, h);
    var reader, load, per := OpenReader(find, tops, leaves, budget, shards, sub);
    EqualRows(h.s.input, blocks, key, h.atoms);
    out := reader.LookupEq(key, blocks, load, per);
  }

  /** The same for a batch: one answer per key. */
  method BatchAfterBuild(c: Config<Row>, files: seq<File>, open: Opener, target: nat, find: Search, keys: seq<Value>,
                         budget: nat, shards: nat, sub: nat, ghost h: History)
    returns (out: Option<seq<seq<nat>>>)
    requires Pushed(c, files, open, h) && Searches(find) && forall k :: k in keys ==> Over(k, h.atoms)
    ensures out.Some? && |out.value| == |keys|
    ensures forall i :: 0 <= i < |keys| ==> out.value[i] == SortIds(EqIds(h.s.input, keys[i]))
  {
    hide Flatten, NoClash, Over, CmpKey, DecodeLeaf, Carried, RowOrder, SortIds, Ids, Profile, Searches, Spilled,
         EqAnswer,
         BatchAnswer;
    var tops, leaves, blocks := BuildIndex(c, files, open, target, h);
    var reader, load, per := OpenReader(find, tops, leaves, budget, shards, sub);
    forall k | k in keys ensures EqAnswer(find, tops, leaves, k) == Some(SortIds(EqIds(h.s.input, k))) {
      EqualRows(h.s.input, blocks, k, h.atoms);
      EqAnswerIs(find, tops, leaves, blocks, k);
    }
    out := reader.LookupEqSorted(keys, load, per);
  }

  /** The same for the bounded count: a true tally of the pushed rows, or the news that it is longer
      than allowed. */
  method CountsAfterBuild(c: Config<Row>, files: seq<File>, open: Opener, target: nat, find: Search, max: nat,
                          budget: nat, shards: nat, sub: nat, ghost h: History)
    returns (out: Counts, ghost full: seq<(Value, nat)>)
    requires Pushed(c, files, open, h)
    ensures IsamQuery.Tally(h.s.input, full) && out == if |full| <= max then Listed(full) else TooMany
    ensures !out.Unreadable? && (out.Listed? ==> IsamQuery.Tally(h.s.input, out.counts) && |out.counts| <= max)
  {
    hide Flatten, NoClash, Over, CmpKey, DecodeLeaf, Carried, RowOrder, Spilled, RunLengths, IsamQuery.Tally,
         CountsFrom;
    var tops, leaves, blocks := BuildIndex(c, files, open, target, h);
    var reader, load, per := OpenReader(find, tops, leaves, budget, shards, sub);
    SameRows(h.s.input, Flatten(blocks));
    RunLengthsTally(Flatten(blocks), h.atoms);
    full := RunLengths(Flatten(blocks));
    TallyPermutes(Flatten(blocks), h.s.input, full);
    out := reader.DistinctKeyCountsBounded(max, blocks, load, per);
  }

  lemma TallyPermutes(a: seq<Row>, b: seq<Row>, out: seq<(Value, nat)>)
    requires multiset(a) == multiset(b) && IsamQuery.Tally(a, out)
    ensures IsamQuery.Tally(b, out)
  {
    hide CmpKey, Has, Ids;
    forall i | 0 <= i < |out| ensures out[i].1 == |EqIds(b, out[i].0)| {
      IdsPermute(a, b, Equals(out[i].0));
      assert |multiset(EqIds(a, out[i].0))| == |EqIds(a, out[i].0)|;
      assert |multiset(EqIds(b, out[i].0))| == |EqIds(b, out[i].0)|;
    }
    forall r | r in b ensures Has(out, r.key) {
      assert r in multiset(b);
      assert r in a;
    }
  }

  lemma EqualRows(pushed: seq<Row>, blocks: seq<seq<Row>>, key: Value, atoms: Atoms)
    requires SortedRows(Flatten(blocks)) && multiset(Flatten(blocks)) == multiset(pushed)
    requires RowsOver(pushed, atoms) && NoClash(atoms) && Over(key, atoms)
    ensures Profile(Flatten(blocks), key)
    ensures SortIds(EqIds(Flatten(blocks), key)) == SortIds(EqIds(pushed, key))
  {
    hide Flatten, NoClash, Over, CmpKey, SortIds, Ids, SortedRows;
    SameRows(pushed, Flatten(blocks));
    SortedHasProfile(Flatten(blocks), key, atoms);
    SortedIdsPermute(Flatten(blocks), pushed, Equals(key));
  }

  /** The same for a range: the strictly ascending ids of the pushed rows inside it. */
  method RangeAfterBuild(c: Config<Row>, files: seq<File>, open: Opener, target: nat, find: Search, q: Range,
                         budget: nat, shards: nat, sub: nat, ghost h: History)
    returns (out: Option<seq<nat>>)
    requires Pushed(c, files, open, h) && Searches(find)
    requires (q.lo.Some? ==> Over(q.lo.value, h.atoms)) && (q.hi.Some? ==> Over(q.hi.value, h.atoms))
    ensures out == Some(Dedup(SortIds(RangeIds(h.s.input, q))))
  {
    hide Flatten, NoClash, Over, CmpKey, DecodeLeaf, Carried, RowOrder, SortIds, Ids, Scannable, Searches, Spilled;
    var tops, leaves, blocks := BuildIndex(c, files, open, target, h);
    var reader, load, per := OpenReader(find, tops, leaves, budget, shards, sub);
    RangeRows(h.s.input, blocks, q, h.atoms);
    out := reader.LookupRange(q, blocks, load, per);
  }

  lemma RangeRows(pushed: seq<Row>, blocks: seq<seq<Row>>, q: Range, atoms: Atoms)
    requires SortedRows(Flatten(blocks)) && multiset(Flatten(blocks)) == multiset(pushed)
    requires RowsOver(pushed, atoms) && NoClash(atoms)
    requires (q.lo.Some? ==> Over(q.lo.value, atoms)) && (q.hi.Some? ==> Over(q.hi.value, atoms))
    ensures Scannable(Flatten(blocks), q)
    ensures SortIds(RangeIds(Flatten(blocks), q)) == SortIds(RangeIds(pushed, q))
  {
    hide Flatten, NoClash, Over, CmpKey, SortIds, Ids, SortedRows, Profile, Scannable;
    var rows := Flatten(blocks);
    SameRows(pushed, rows);
    if q.lo.Some? { SortedHasProfile(rows, q.lo.value, atoms); }
    if q.hi.Some? { SortedHasProfile(rows, q.hi.value, atoms); }
    ProfileGivesShape(rows, q);
    SortedIdsPermute(rows, pushed, Within(q));
  }

  /** A reader with a new shared cache of the given budget and shard count. */
  method OpenReader(find: Search, tops: seq<Value>, leaves: seq<seq<byte>>, budget: nat, shards: nat, sub: nat)
    returns (reader: Reader, ghost load: ((nat, nat)) -> Option<Leaf>, ghost per: nat)
    requires |tops| == |leaves|
    ensures reader.find == find && reader.tops == tops && reader.leaves == leaves && reader.Attached(load, per)
    ensures forall o :: o in reader.Footprint() ==> fresh(o)
  {
    hide DecodeLeaf;
    var hash := (k: (nat, nat)) => k.0 + k.1;
    var size := (rows: Leaf) => |rows|;
    var cache := new ClockShard.ShardedCache<(nat, nat), Leaf>(hash, size, budget, shards);
    load := (k: (nat, nat)) => if k.0 == sub && k.1 < |leaves| then DecodeLeaf(leaves[k.1]) else None;
    per := cache.shards[0].budget;
    assert cache.Ok(load, per);
    reader := new Reader(find, tops, leaves, cache, sub);
  }
}

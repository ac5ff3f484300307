/** The index reader: a resident sparse top level over leaves that may be served from the
    shared decoded-block cache (crates/graph-format/src/isam.rs). */
module IsamReader {
  import opened Collections
  import opened Sorting
  import opened Order
  import opened IsamFormat
  import opened IsamQuery
  import opened IsamAnswer
  import opened ClockShard

  type Leaf = seq<Row>

  class Reader {
    const find: Search
    const tops: seq<Value>
    const leaves: seq<seq<byte>>
    const cache: ShardedCache?<(nat, nat), Leaf>
    const sub: nat

    constructor (find: Search, tops: seq<Value>, leaves: seq<seq<byte>>, cache: ShardedCache?<(nat, nat), Leaf>,
                 sub: nat)
      requires |tops| == |leaves|
      ensures this.find == find && this.tops == tops && this.leaves == leaves && this.cache == cache && this.sub == sub
    {
      this.find, this.tops, this.leaves, this.cache, this.sub := find, tops, leaves, cache, sub;
    }

    ghost function Footprint(): set<object> {
      if cache == null then {} else set s | s in cache.shards
    }

    /** The attached cache, if any, is coherent with some loader that agrees with this
        reader's leaves; other readers' leaves may be resident too. */
    ghost predicate Attached(load: ((nat, nat)) -> Option<Leaf>, per: nat)
      reads Footprint()
    {
      && |tops| == |leaves|
      && (cache != null ==> cache.Ok(load, per))
      && (forall b :: 0 <= b < |leaves| ==> load((sub, b)) == DecodeLeaf(leaves[b]))
    }

    /** The index holds these blocks. */
    ghost predicate Holds(blocks: seq<seq<Row>>) {
      IsamAnswer.Holds(tops, leaves, blocks)
    }

    /** A leaf's rows, through the cache when there is one. */
    method Block(b: nat, ghost load: ((nat, nat)) -> Option<Leaf>, ghost per: nat) returns (r: Option<Leaf>)
      requires Attached(load, per) && b < |leaves|
      modifies Footprint()
      ensures Attached(load, per) && r == DecodeLeaf(leaves[b])
    {
      if cache == null {
        r := DecodeLeaf(leaves[b]);
      } else {
        r := cache.GetOrLoad((sub, b), () => DecodeLeaf(leaves[b]), load, per, 0, 0);
      }
    }

    /** The memo brought to block `b`; none if the leaf does not decode. */
    method Recall(b: nat, memo0: Option<(nat, Leaf)>, ghost load: ((nat, nat)) -> Option<Leaf>, ghost per: nat)
      returns (memo: Option<(nat, Leaf)>)
      requires Attached(load, per) && b < |leaves| && Remembers(memo0)
      modifies Footprint()
      ensures Attached(load, per) && Remembers(memo)
      ensures memo.Some? ==> memo.value.0 == b
      ensures memo.None? <==> DecodeLeaf(leaves[b]).None?
    {
      memo := memo0;
      if memo.None? || memo.value.0 != b {
        var loaded := Block(b, load, per);
        memo := if loaded.Some? then Some((b, loaded.value)) else None;
      }
    }

    ghost predicate Remembers(memo: Option<(nat, Leaf)>) {
      memo.Some? ==> memo.value.0 < |leaves| && DecodeLeaf(leaves[memo.value.0]) == Some(memo.value.1)
    }

    /** Walk back from leaf `from` while the equal run may continue, reusing the last decoded leaf. */
    method CollectEqual(key: Value, from: nat, memo0: Option<(nat, Leaf)>, ghost load: ((nat, nat)) -> Option<Leaf>,
                        ghost per: nat)
      returns (out: Option<seq<nat>>, memo: Option<(nat, Leaf)>)
      requires Attached(load, per) && from < |leaves| && Remembers(memo0)
      modifies Footprint()
      ensures Attached(load, per) && Remembers(memo)
      ensures out == EqWalk(find, leaves, key, from)
    {
      hide CmpKey, DecodeLeaf, LeafEqual;
      memo := memo0;
      var b: nat := from;
      var found: seq<nat> := [];
      JoinNothing(EqWalk(find, leaves, key, from));
      while true
        invariant b <= from && Attached(load, per) && Remembers(memo)
        invariant EqWalk(find, leaves, key, from) == Join(found, EqWalk(find, leaves, key, b))
        decreases b
      {
        memo := Recall(b, memo, load, per);
        if memo.None? {
          return None, memo;
        }
        var rows := memo.value.1;
        var run := EqualRun(find, rows, key);
        if b > 0 {
          JoinJoin(found, run, EqWalk(find, leaves, key, b - 1));
        }
        found := found + run;
        if StartsWith(rows, key) && b > 0 {
          b := b - 1;
        } else {
          break;
        }
      }
      out := Some(found);
    }

    /** All ids whose key equals `key`, sorted: the cache-free answer, whatever the cache has seen.
        On an index in shape that is exactly what a linear filter of the rows gives. */
    method LookupEq(key: Value, ghost blocks: seq<seq<Row>>, ghost load: ((nat, nat)) -> Option<Leaf>, ghost per: nat)
      returns (out: Option<seq<nat>>)
      requires Attached(load, per)
      modifies Footprint()
      ensures Attached(load, per) && out == EqAnswer(find, tops, leaves, key)
      ensures Searches(find) && Holds(blocks) && Profile(Flatten(blocks), key) ==>
        out == Some(SortIds(EqIds(Flatten(blocks), key)))
    {
      hide EqWalk, SortIds, Profile, Flatten, Ids, IsamAnswer.Holds, Searches;
      if Searches(find) && Holds(blocks) && Profile(Flatten(blocks), key) {
        EqAnswerIs(find, tops, leaves, blocks, key);
      }
      var le := Anchor(find, tops, key);
      if le == 0 {
        return Some([]);
      }
      var found, _ := CollectEqual(key, le - 1, None, load, per);
      out := if found.None? then None else Some(SortIds(found.value));
    }

    /** Batch equality: fails exactly when one of the lookups does, and otherwise slot `i` is what
        `LookupEq(keys[i])` returns. */
    method LookupEqSorted(keys: seq<Value>, ghost load: ((nat, nat)) -> Option<Leaf>, ghost per: nat)
      returns (out: Option<seq<seq<nat>>>)
      requires Attached(load, per)
      modifies Footprint()
      ensures Attached(load, per) && out == BatchAnswer(find, tops, leaves, keys)
      ensures out.Some? <==> forall k :: k in keys ==> EqAnswer(find, tops, leaves, k).Some?
      ensures out.Some? ==>
        |out.value| == |keys| && forall i :: 0 <= i < |keys| ==>
          EqAnswer(find, tops, leaves, keys[i]) == Some(out.value[i])
    {
      hide EqAnswer, BatchAnswer;
      var slots: seq<seq<nat>> := [];
      var memo: Option<(nat, Leaf)> := None;
      BatchIsLookups(find, tops, leaves, keys);
      EmptyBatch(find, tops, leaves, keys);
      for i := 0 to |keys|
        invariant Attached(load, per) && Remembers(memo)
        invariant BatchAnswer(find, tops, leaves, keys[..i]) == Some(slots)
      {
        BatchSnoc(find, tops, leaves, keys, i);
        var slot;
        slot, memo := LookupSlot(keys[i], memo, load, per);
        if slot.None? {
          return None;
        }
        slots := slots + [slot.value];
      }
      assert keys[..|keys|] == keys;
      out := Some(slots);
    }

    /** One slot of the batch, carrying the decoded-leaf memo forward. */
    method LookupSlot(key: Value, memo0: Option<(nat, Leaf)>, ghost load: ((nat, nat)) -> Option<Leaf>, ghost per: nat)
      returns (slot: Option<seq<nat>>, memo: Option<(nat, Leaf)>)
      requires Attached(load, per) && Remembers(memo0)
      modifies Footprint()
      ensures Attached(load, per) && Remembers(memo) && slot == EqAnswer(find, tops, leaves, key)
    {
      hide EqWalk, SortIds;
      memo := memo0;
      var le := Anchor(find, tops, key);
      if le == 0 {
        return Some([]), memo;
      }
      var found;
      found, memo := CollectEqual(key, le - 1, memo, load, per);
      slot := if found.None? then None else Some(SortIds(found.value));
    }

    /** Range lookup: the cache-free answer; on an index in shape the strictly ascending list of the
        ids a linear filter keeps. */
    method LookupRange(q: Range, ghost blocks: seq<seq<Row>>, ghost load: ((nat, nat)) -> Option<Leaf>, ghost per: nat)
      returns (out: Option<seq<nat>>)
      requires Attached(load, per)
      modifies Footprint()
      ensures Attached(load, per) && out == RangeAnswer(find, tops, leaves, q)
      ensures Searches(find) && Holds(blocks) && Scannable(Flatten(blocks), q) ==>
        out == Some(Dedup(SortIds(RangeIds(Flatten(blocks), q))))
    {
      hide RangeFrom, SortIds, Scannable, Flatten, Ids, IsamAnswer.Holds, Searches;
      if Searches(find) && Holds(blocks) && Scannable(Flatten(blocks), q) {
        RangeAnswerIs(find, tops, leaves, blocks, q);
      }
      var found := ScanRange(q, RangeStart(find, tops, q), load, per);
      out := if found.None? then None else Some(Dedup(SortIds(found.value)));
    }

    method ScanRange(q: Range, start: nat, ghost load: ((nat, nat)) -> Option<Leaf>, ghost per: nat)
      returns (out: Option<seq<nat>>)
      requires Attached(load, per)
      modifies Footprint()
      ensures Attached(load, per) && out == RangeFrom(find, tops, leaves, q, start)
    {
      hide CmpKey, DecodeLeaf, PastHi, LeafRange;
      var found: seq<nat> := [];
      JoinNothing(RangeFrom(find, tops, leaves, q, start));
      var b := start;
      while b < |tops|
        invariant start <= b && Attached(load, per)
        invariant RangeFrom(find, tops, leaves, q, start) == Join(found, RangeFrom(find, tops, leaves, q, b))
      {
        if PastHi(q, tops[b]) {
          break;
        }
        var rows := Block(b, load, per);
        if rows.None? {
          return None;
        }
        var ids, stopped := RangeRun(find, rows.value, q);
        if stopped {
          return Some(found + ids);
        }
        JoinJoin(found, ids, RangeFrom(find, tops, leaves, q, b + 1));
        found := found + ids;
        b := b + 1;
      }
      assert found + [] == found;
      out := Some(found);
    }

    /** Distinct keys with their counts, or nothing once more than `maxDistinct` were met. */
    method DistinctKeyCountsBounded(maxDistinct: nat, ghost blocks: seq<seq<Row>>,
                                    ghost load: ((nat, nat)) -> Option<Leaf>, ghost per: nat)
      returns (out: Counts)
      requires Attached(load, per)
      modifies Footprint()
      ensures Attached(load, per) && out == CountsFrom(leaves, maxDistinct, 0, [])
      ensures Holds(blocks) ==>
        var full := RunLengths(Flatten(blocks));
        out == if |full| <= maxDistinct then Listed(full) else TooMany
    {
      hide DecodeLeaf, Flatten, RunLengths, IsamAnswer.Holds, Searches;
      EmptyRuns(blocks);
      if Holds(blocks) {
        CountsFromIs(tops, leaves, blocks, maxDistinct, 0);
      }
      var counts: seq<(Value, nat)> := [];
      ghost var seen: seq<Row> := [];
      for b := 0 to |tops|
        invariant Attached(load, per) && counts == RunLengths(seen) && |counts| <= maxDistinct
        invariant CountsFrom(leaves, maxDistinct, 0, []) == CountsFrom(leaves, maxDistinct, b, seen)
      {
        var rows := Block(b, load, per);
        if rows.None? {
          return Unreadable;
        }
        var over;
        counts, over := CountRows(counts, rows.value, maxDistinct, seen);
        if over {
          return TooMany;
        }
        seen := seen + rows.value;
      }
      out := Listed(counts);
    }
  }

  lemma JoinNothing(more: Option<seq<nat>>)
    ensures Join([], more) == more
  {
    if more.Some? {
      assert [] + more.value == more.value;
    }
  }

  lemma JoinJoin(a: seq<nat>, b: seq<nat>, more: Option<seq<nat>>)
    ensures Join(a, Join(b, more)) == Join(a + b, more)
  {
    if more.Some? {
      assert a + (b + more.value) == a + b + more.value;
    }
  }

  lemma EmptyBatch(find: Search, tops: seq<Value>, leaves: seq<seq<byte>>, keys: seq<Value>)
    requires |tops| == |leaves|
    ensures BatchAnswer(find, tops, leaves, keys[..0]) == Some([])
  {
  }

  /** Count one leaf's rows behind those already seen, giving up past the bound. */
  method CountRows(counts0: seq<(Value, nat)>, rows: seq<Row>, maxDistinct: nat, ghost seen: seq<Row>)
    returns (counts: seq<(Value, nat)>, over: bool)
    requires |counts0| <= maxDistinct && counts0 == RunLengths(seen)
    ensures over <==> |RunLengths(seen + rows)| > maxDistinct
    ensures !over ==> counts == RunLengths(seen + rows)
  {
    hide CmpKey, RunLengths;
    counts, over := counts0, false;
    assert seen + rows[..0] == seen;
    for i := 0 to |rows|
      invariant counts == RunLengths(seen + rows[..i]) && |counts| <= maxDistinct
    {
      var k := rows[i].key;
      assert seen + rows[..i + 1] == (seen + rows[..i]) + [rows[i]];
      RunLengthsSnoc(seen + rows[..i], rows[i]);
      var n := |counts|;
      if n > 0 && CmpKey(counts[n - 1].0, k) == Equal {
        counts := counts[n - 1 := (counts[n - 1].0, counts[n - 1].1 + 1)];
      } else {
        if n >= maxDistinct {
          RunLengthsGrow(seen + rows[..i + 1], rows[i + 1..]);
          assert seen + rows[..i + 1] + rows[i + 1..] == seen + rows;
          over := true;
          return;
        }
        counts := counts + [(k, 1)];
      }
    }
    assert rows[..|rows|] == rows;
  }
}

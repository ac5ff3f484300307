/** How often a single thread misses when it reads records in ascending order. */
module CacheScan {
  import opened Collections
  import opened Clock
  import opened CacheRuns

  ghost predicate ShardsOk<K(!new), V(!new)>(cfg: Config<K, V>, n: nat, per: nat, shards: seq<Shard<K, V>>) {
    |shards| == n > 0 && forall i :: 0 <= i < n ==> ShardOk(cfg, n, per, i, shards[i])
  }

  ghost predicate Resident<K(!new), V(!new)>(cfg: Config<K, V>, shards: seq<Shard<K, V>>, key: K)
    requires |shards| > 0
  {
    key in shards[ShardOf(cfg, |shards|, key)].entries
  }

  /** Probe; on a miss load and publish, with nothing in between. */
  ghost function Fetch<K(!new), V(!new)>(cfg: Config<K, V>, n: nat, per: nat, shards: seq<Shard<K, V>>, key: K,
                                         now: nat): seq<Shard<K, V>>
    requires ShardsOk(cfg, n, per, shards) && cfg.load(key).Some?
  {
    var i := ShardOf(cfg, n, key);
    assert ShardOk(cfg, n, per, i, shards[i]);
    if key in shards[i].entries then shards[i := Touch(shards[i], key, now)]
    else shards[i := Insert(shards[i], key, cfg.load(key).value, cfg.size(cfg.load(key).value), now).0]
  }

  /** A fetch makes its key resident and brings in no other key. */
  lemma FetchResident<K(!new), V(!new)>(cfg: Config<K, V>, n: nat, per: nat, shards: seq<Shard<K, V>>, key: K, now: nat)
    requires ShardsOk(cfg, n, per, shards) && cfg.load(key).Some?
    ensures ShardsOk(cfg, n, per, Fetch(cfg, n, per, shards, key, now))
    ensures Resident(cfg, Fetch(cfg, n, per, shards, key, now), key)
    ensures forall k :: Resident(cfg, Fetch(cfg, n, per, shards, key, now), k) ==> k == key || Resident(cfg, shards, k)
  {
    var i := ShardOf(cfg, n, key);
    assert ShardOk(cfg, n, per, i, shards[i]);
    if key in shards[i].entries {
      TouchOk(cfg, n, per, i, shards[i], key, now);
    } else {
      InsertOk(cfg, n, per, i, shards[i], key, cfg.load(key).value, now);
      InsertKeeps(shards[i], key, cfg.load(key).value, cfg.size(cfg.load(key).value), now);
    }
  }

  /** Misses taken by fetching `keys` in order, at any times. */
  ghost function Misses<K(!new), V(!new)>(cfg: Config<K, V>, n: nat, per: nat, shards: seq<Shard<K, V>>, keys: seq<K>,
                                          times: seq<nat>): nat
    requires ShardsOk(cfg, n, per, shards) && |times| == |keys|
    requires forall k :: k in keys ==> cfg.load(k).Some?
    decreases |keys|
  {
    if keys == [] then 0
    else
      FetchResident(cfg, n, per, shards, keys[0], times[0]);
      (if Resident(cfg, shards, keys[0]) then 0 else 1)
      + Misses(cfg, n, per, Fetch(cfg, n, per, shards, keys[0], times[0]), keys[1..], times[1..])
  }

  /** `counts[b]` consecutive reads of block `b`'s key, block after block. */
  function Reads<K>(keys: seq<K>, counts: seq<nat>): seq<K>
    requires |keys| == |counts|
  {
    if keys == [] then [] else seq(counts[0], _ => keys[0]) + Reads(keys[1..], counts[1..])
  }

  lemma {:induction false} ReadsMembers<K>(keys: seq<K>, counts: seq<nat>)
    requires |keys| == |counts|
    ensures forall k :: k in Reads(keys, counts) ==> k in keys
  {
    if keys != [] {
      ReadsMembers(keys[1..], counts[1..]);
    }
  }

  lemma ReadsTail<K>(keys: seq<K>, counts: seq<nat>)
    requires |keys| == |counts| > 0 && counts[0] > 0
    ensures Reads(keys, counts)[0] == keys[0]
    ensures Reads(keys, counts)[1..] == Reads(keys, counts[0 := counts[0] - 1])
  {
    var c := counts[0];
    assert counts[0 := c - 1][1..] == counts[1..];
    assert seq(c, _ => keys[0])[1..] == seq(c - 1, _ => keys[0]);
  }

  /** Reading a file's records in ascending order through the cache misses once per block,
      however small the budget and whatever else is resident. */
  lemma {:induction false} AscendingScanMissesOncePerBlock<K(!new), V(!new)>(
      cfg: Config<K, V>, n: nat, per: nat, shards: seq<Shard<K, V>>, keys: seq<K>, counts: seq<nat>, times: seq<nat>)
    requires ShardsOk(cfg, n, per, shards)
    requires |keys| == |counts| && |times| == |Reads(keys, counts)|
    requires Distinct(keys) && (forall k :: k in keys ==> cfg.load(k).Some?)
    requires forall b :: 0 <= b < |counts| ==> counts[b] > 0
    requires forall k :: k in keys ==> !Resident(cfg, shards, k)
    ensures forall k :: k in Reads(keys, counts) ==> cfg.load(k).Some?
    ensures Misses(cfg, n, per, shards, Reads(keys, counts), times) == |keys|
    decreases |keys|, 1
  {
    ReadsMembers(keys, counts);
    if keys != [] {
      ReadsTail(keys, counts);
      FetchResident(cfg, n, per, shards, keys[0], times[0]);
      ScanWithinBlock(cfg, n, per, Fetch(cfg, n, per, shards, keys[0], times[0]), keys, counts[0 := counts[0] - 1],
                      times[1..]);
    }
  }

  /** While the block being read is resident its remaining reads all hit. */
  lemma {:induction false} ScanWithinBlock<K(!new), V(!new)>(
      cfg: Config<K, V>, n: nat, per: nat, shards: seq<Shard<K, V>>, keys: seq<K>, counts: seq<nat>, times: seq<nat>)
    requires ShardsOk(cfg, n, per, shards)
    requires |keys| == |counts| > 0 && |times| == |Reads(keys, counts)|
    requires Distinct(keys) && (forall k :: k in keys ==> cfg.load(k).Some?)
    requires forall b :: 1 <= b < |counts| ==> counts[b] > 0
    requires Resident(cfg, shards, keys[0])
    requires forall k :: k in keys[1..] ==> !Resident(cfg, shards, k)
    ensures forall k :: k in Reads(keys, counts) ==> cfg.load(k).Some?
    ensures Misses(cfg, n, per, shards, Reads(keys, counts), times) == |keys| - 1
    decreases |keys|, 0, counts[0]
  {
    ReadsMembers(keys, counts);
    if counts[0] == 0 {
      assert Reads(keys, counts) == Reads(keys[1..], counts[1..]);
      AscendingScanMissesOncePerBlock(cfg, n, per, shards, keys[1..], counts[1..], times);
    } else {
      ReadsTail(keys, counts);
      FetchResident(cfg, n, per, shards, keys[0], times[0]);
      ScanWithinBlock(cfg, n, per, Fetch(cfg, n, per, shards, keys[0], times[0]), keys, counts[0 := counts[0] - 1],
                      times[1..]);
    }
  }
}

/** Records of a block file read in order through the block cache. */
module CachedScan {
  import opened Clock
  import opened CacheRuns
  import opened CacheScan
  import opened BlockFile
  import opened BlockReader

  datatype BlockKey = BlockKey(scope: nat, sub: nat, block: nat)

  function KeysOf(dir: seq<DirEntry>, scope: nat, sub: nat): seq<BlockKey> {
    seq(|dir|, b requires 0 <= b => BlockKey(scope, sub, b))
  }

  function CountsOf(dir: seq<DirEntry>): seq<nat> {
    seq(|dir|, b requires 0 <= b < |dir| => dir[b].recCount)
  }

  /** The key fetched for each record of an ascending scan: that of the block holding it. */
  ghost predicate ScanKeys(dir: seq<DirEntry>, scope: nat, sub: nat, keys: seq<BlockKey>) {
    && |keys| == TotalRecords(dir)
    && (forall g :: 0 <= g < |keys| ==> exists b: nat :: Covers(dir, b, g) && keys[g] == BlockKey(scope, sub, b))
  }

  /** Reads of blocks `i` onward. */
  lemma {:induction false} ReadsAt(dir: seq<DirEntry>, scope: nat, sub: nat, i: nat)
    requires i <= |dir|
    ensures var r := Reads(KeysOf(dir, scope, sub)[i..], CountsOf(dir)[i..]);
      && |r| == TotalRecords(dir) - StartAt(dir, i)
      && (forall b: nat, g: nat :: i <= b && Covers(dir, b, g) && StartAt(dir, i) <= g ==>
            g - StartAt(dir, i) < |r| && r[g - StartAt(dir, i)] == BlockKey(scope, sub, b))
    decreases |dir| - i
  {
    var keys, counts := KeysOf(dir, scope, sub), CountsOf(dir);
    if i < |dir| {
      ReadsAt(dir, scope, sub, i + 1);
      assert keys[i..][1..] == keys[i + 1..] && counts[i..][1..] == counts[i + 1..];
      var r, tail := Reads(keys[i..], counts[i..]), Reads(keys[i + 1..], counts[i + 1..]);
      assert r == seq(counts[i], _ => keys[i]) + tail;
      forall b: nat, g: nat | i <= b && Covers(dir, b, g) && StartAt(dir, i) <= g
        ensures g - StartAt(dir, i) < |r| && r[g - StartAt(dir, i)] == BlockKey(scope, sub, b)
      {
        if b > i {
          StartsMonotone(dir, i + 1, b);
        }
      }
    }
  }

  /** Reading a block file's records in ascending order through the cache takes exactly one miss
      per block, for every positive budget, shard count, clock and prior cache contents that do
      not already hold the file's blocks. */
  lemma AscendingFileScan<V(!new)>(cfg: Config<BlockKey, V>, n: nat, per: nat, shards: seq<Shard<BlockKey, V>>,
                                   dir: seq<DirEntry>, scope: nat, sub: nat, keys: seq<BlockKey>, times: seq<nat>)
    requires ShardsOk(cfg, n, per, shards)
    requires NoEmptyBlock(dir) && ScanKeys(dir, scope, sub, keys) && |times| == |keys|
    requires forall b :: 0 <= b < |dir| ==>
      cfg.load(BlockKey(scope, sub, b)).Some? && !Resident(cfg, shards, BlockKey(scope, sub, b))
    ensures forall k :: k in keys ==> cfg.load(k).Some?
    ensures Misses(cfg, n, per, shards, keys, times) == |dir|
  {
    hide ShardsOk, Misses, Reads, ScanKeys, Resident, StartAt;
    var ks, counts := KeysOf(dir, scope, sub), CountsOf(dir);
    KeysAreReads(dir, scope, sub, keys);
    AscendingScanMissesOncePerBlock(cfg, n, per, shards, ks, counts, times);
  }

  /** Reading record after record asks for each block as often as it holds records. */
  lemma KeysAreReads(dir: seq<DirEntry>, scope: nat, sub: nat, keys: seq<BlockKey>)
    requires ScanKeys(dir, scope, sub, keys)
    ensures keys == Reads(KeysOf(dir, scope, sub), CountsOf(dir))
  {
    hide Reads;
    var ks, counts := KeysOf(dir, scope, sub), CountsOf(dir);
    ReadsAt(dir, scope, sub, 0);
    assert ks[0..] == ks && counts[0..] == counts;
    forall g | 0 <= g < |keys| ensures keys[g] == Reads(ks, counts)[g] {
      var key := keys[g];
      var b: nat :| Covers(dir, b, g) && key == BlockKey(scope, sub, b);
    }
  }
}

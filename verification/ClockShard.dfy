/** The mutable cache objects: one shard (`ShardInner`) and the sharded cache over it. */
module ClockShard {
  import opened Collections
  import opened Clock
  import CacheRuns

  class ShardInner<K(==,!new), V> {
    var entries: map<K, Entry<V>>
    var ring: seq<K>
    var hand: nat
    var bytes: nat
    const budget: nat

    ghost function View(): Shard<K, V>
      reads this
    {
      Shard(entries, ring, hand, bytes, budget)
    }

    ghost predicate Ok()
      reads this
    {
      Valid(View())
    }

    constructor (budget: nat)
      ensures View() == Shard(map[], [], 0, 0, budget)
      ensures Ok() && Fits(View())
    {
      this.budget := budget;
      entries, ring, hand, bytes := map[], [], 0, 0;
    }

    /** One step of the hand. */
    method TurnHand(protect: K) returns (evicts: bool)
      requires Ok() && Over(View())
      modifies this
      ensures View() == Turn(old(View()), protect)
      ensures evicts == old(Evicts(View(), protect))
    {
      if hand >= |ring| {
        hand := 0;
      }
      var key := ring[hand];
      evicts := false;
      if key == protect {
        hand := hand + 1;
      } else if entries[key].referenced {
        entries := entries[key := entries[key].(referenced := false)];
        hand := hand + 1;
      } else {
        RingBytesRemove(entries, ring, hand);
        ring := ring[..hand] + ring[hand + 1..];
        bytes := bytes - entries[key].bytes;
        entries := entries - {key};
        evicts := true;
      }
    }

    /** Sweep the hand until the shard is back within budget, never evicting `protect`. */
    method EvictToBudget(protect: K) returns (evicted: nat)
      requires Ok()
      modifies this
      ensures View() == Sweep(old(View()), protect).shard
      ensures evicted == |Sweep(old(View()), protect).victims|
    {
      evicted := 0;
      ghost var goal := Sweep(View(), protect);
      while bytes > budget && |ring| > 1
        invariant Ok()
        invariant goal.shard == Sweep(View(), protect).shard
        invariant |goal.victims| == evicted + |Sweep(View(), protect).victims|
        decreases |ring|, |Marked(entries)|, OnProtected(View(), protect)
      {
        TurnValid(View(), protect);
        TurnDecreases(View(), protect);
        var evicts := TurnHand(protect);
        if evicts {
          evicted := evicted + 1;
        }
      }
    }

    /** Insert unless a concurrent load got there first, then sweep back within budget. */
    method Insert(key: K, value: V, size: nat, now: nat) returns (canonical: V, evicted: nat)
      requires Ok()
      modifies this
      ensures (View(), canonical) == Clock.Insert(old(View()), key, value, size, now)
      ensures evicted == Evicted(old(View()), key, value, size, now)
    {
      if key in entries {
        entries := entries[key := Touched(entries[key], now)];
        canonical, evicted := entries[key].value, 0;
        return;
      }
      canonical := value;
      Place(key, value, size, now);
      evicted := EvictToBudget(key);
    }

    /** Link a new entry in just behind the hand. */
    method Place(key: K, value: V, size: nat, now: nat)
      requires Ok() && key !in entries
      modifies this
      ensures View() == Placed(old(View()), key, value, size, now) && Ok()
    {
      PlacedBehindHand(View(), key, value, size, now);
      var at := if hand < |ring| then hand else |ring|;
      ring := ring[..at] + [key] + ring[at..];
      hand := at + 1;
      entries := entries[key := Entry(value, size, false, now)];
      bytes := bytes + size;
    }

    /** The hit path: under the read lock only the entry's own bit and stamp move. */
    method Probe(key: K, now: nat) returns (hit: Option<V>)
      requires Ok()
      modifies this
      ensures hit == if key in old(entries) then Some(old(entries)[key].value) else None
      ensures View() == if hit.Some? then Touch(old(View()), key, now) else old(View())
    {
      hit := None;
      if key in entries {
        entries := entries[key := Touched(entries[key], now)];
        hit := Some(entries[key].value);
      }
    }

    /** Drop every entry idle for longer than `ttl`, with no keep-one floor. */
    method EvictExpired(now: nat, ttl: nat) returns (evicted: nat)
      requires Ok()
      modifies this
      ensures View() == Expire(old(View()), now, ttl)
      ensures evicted == |old(ring)| - |ring|
    {
      KeepBytes(entries, ring, now, ttl);
      var kept, left := Retain(entries, ring, bytes, now, ttl);
      evicted := |ring| - |kept|;
      if evicted > 0 && hand >= |kept| {
        hand := 0;
      }
      entries := map k | k in entries && now <= entries[k].lastUsed + ttl :: entries[k];
      ring := kept;
      bytes := left;
    }
  }

  /** As many new, empty shards of one budget. */
  method MakeShards<K(!new, ==), V(!new)>(n: nat, per: nat) returns (made: seq<ShardInner<K, V>>)
    ensures |made| == n
    ensures forall i :: 0 <= i < n ==> fresh(made[i]) && made[i].View() == Shard(map[], [], 0, 0, per)
    ensures forall i, j :: 0 <= i < j < n ==> made[i] != made[j]
  {
    made := [];
    while |made| < n
      invariant |made| <= n
      invariant forall i :: 0 <= i < |made| ==> fresh(made[i]) && made[i].View() == Shard(map[], [], 0, 0, per)
      invariant forall i, j :: 0 <= i < j < |made| ==> made[i] != made[j]
    {
      var shard := new ShardInner<K, V>(per);
      made := made + [shard];
    }
  }

  /** A sharded cache object; `hash % shards` picks the lock domain, which is what masking with
      a power of two minus one computes. */
  class ShardedCache<K(==,!new), V(!new)> {
    const hash: K -> nat
    const size: V -> nat
    const shards: seq<ShardInner<K, V>>

    /** Distinct shards, each holding only its own keys with what `load` returns for them. */
    ghost predicate Ok(load: K -> Option<V>, per: nat)
      reads shards
    {
      && |shards| > 0
      && (forall i, j :: 0 <= i < j < |shards| ==> shards[i] != shards[j])
      && (forall i :: 0 <= i < |shards| ==>
            CacheRuns.ShardOk(CacheRuns.Config(hash, load, size), |shards|, per, i, shards[i].View()))
    }

    /** An empty cache: its sub-budgets add up to at most the byte budget. */
    constructor (hash: K -> nat, size: V -> nat, budgetBytes: nat, wanted: nat)
      ensures this.hash == hash && this.size == size
      ensures |shards| > 0 && shards[0].budget >= 1
      ensures |shards| * shards[0].budget <= if budgetBytes == 0 then 1 else budgetBytes
      ensures forall load: K -> Option<V> :: Ok(load, shards[0].budget)
      ensures forall i :: 0 <= i < |shards| ==> fresh(shards[i])
    {
      var n, per := CacheRuns.ShardSizing(budgetBytes, wanted);
      var made := MakeShards<K, V>(n, per);
      this.hash, this.size, this.shards := hash, size, made;
      new;
    }

    /** Fetch through the cache: the answer is what the loader gives, whatever is resident. */
    method GetOrLoad(key: K, fetch: () -> Option<V>, ghost load: K -> Option<V>, ghost per: nat, now: nat, later: nat)
      returns (r: Option<V>)
      requires Ok(load, per) && fetch() == load(key)
      modifies shards
      ensures Ok(load, per)
      ensures r == load(key)
    {
      ghost var cfg := CacheRuns.Config(hash, load, size);
      var i := hash(key) % |shards|;
      assert CacheRuns.ShardOk(cfg, |shards|, per, i, shards[i].View());
      ghost var before := shards[i].View();
      if key in before.entries {
        CacheRuns.TouchOk(cfg, |shards|, per, i, before, key, now);
        assert CacheRuns.Loads(cfg, key, before.entries[key]);
      }
      r := shards[i].Probe(key, now);
      if r.None? {
        r := fetch();
        if r.Some? {
          CacheRuns.InsertOk(cfg, |shards|, per, i, before, key, r.value, later);
          var canonical, _ := shards[i].Insert(key, r.value, size(r.value), later);
          r := Some(canonical);
        }
      }
      assert CacheRuns.ShardOk(cfg, |shards|, per, i, shards[i].View());
    }
  }

  /** The ring and byte count left once the entries idle for longer than `ttl` are dropped. */
  method Retain<K(==), V>(entries: map<K, Entry<V>>, ring: seq<K>, bytes: nat, now: nat, ttl: nat)
    returns (kept: seq<K>, left: nat)
    requires forall k :: k in ring ==> k in entries
    requires bytes == RingBytes(entries, ring)
    ensures kept == Keep(entries, ring, now, ttl)
    ensures (forall k :: k in kept ==> k in entries) && left == RingBytes(entries, kept)
  {
    kept, left := [], bytes;
    var i := 0;
    assert ring[0..] == ring;
    while i < |ring|
      invariant 0 <= i <= |ring|
      invariant forall k :: k in kept ==> k in entries
      invariant kept == Keep(entries, ring[..i], now, ttl)
      invariant left == RingBytes(entries, kept) + RingBytes(entries, ring[i..])
    {
      assert ring[i..][1..] == ring[i + 1..];
      assert ring[..i + 1] == ring[..i] + [ring[i]];
      KeepSnoc(entries, ring[..i], ring[i], now, ttl);
      if now <= entries[ring[i]].lastUsed + ttl {
        RingBytesSnoc(entries, kept, ring[i]);
        kept := kept + [ring[i]];
      } else {
        left := left - entries[ring[i]].bytes;
      }
      i := i + 1;
    }
    assert ring[..i] == ring;
    assert ring[i..] == [];
  }
}

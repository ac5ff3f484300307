/** One shard of the byte-budgeted CLOCK caches: the value-level transition functions and
    what they guarantee. `BlockCache` (crates/graph-format/src/blockcache.rs) and
    `DecodedBlockCache` (crates/graph-format/src/isam.rs) run the same algorithm, so both
    are instances of this module; `ClockShard` holds the mutable object. */
module Clock {
  import opened Collections

  const LAST_USED_GRANULARITY_MS: nat := 10

  datatype Entry<V> = Entry(value: V, bytes: nat, referenced: bool, lastUsed: nat)

  datatype Shard<K, V> = Shard(entries: map<K, Entry<V>>, ring: seq<K>, hand: nat, bytes: nat, budget: nat)

  /** Bytes of the entries a ring names, each key once. */
  function RingBytes<K(==), V>(entries: map<K, Entry<V>>, ring: seq<K>): nat
    requires forall k :: k in ring ==> k in entries
  {
    if ring == [] then 0 else entries[ring[0]].bytes + RingBytes(entries, ring[1..])
  }

  /** The ring lists every live key exactly once and the byte counter is exact. */
  ghost predicate Valid<K(!new), V>(s: Shard<K, V>) {
    && Distinct(s.ring)
    && (forall k :: k in s.ring <==> k in s.entries)
    && s.bytes == RingBytes(s.entries, s.ring)
  }

  ghost predicate Fits<K(!new), V>(s: Shard<K, V>) {
    s.bytes <= s.budget || |s.ring| <= 1
  }

  // ---- the sweep ----

  predicate Over<K, V>(s: Shard<K, V>) {
    s.bytes > s.budget && |s.ring| > 1
  }

  /** The hand, normalised as at the top of every sweep step. */
  function Hand<K, V>(s: Shard<K, V>): nat {
    NormalHand(s.hand, |s.ring|)
  }

  function Without<K>(ring: seq<K>, h: nat): seq<K>
    requires h < |ring|
  {
    ring[..h] + ring[h + 1..]
  }

  /** One iteration of the eviction loop: skip the protected key, reprieve a set bit, or evict. */
  function Turn<K(!new), V>(s: Shard<K, V>, protect: K): Shard<K, V>
    requires Valid(s) && Over(s)
  {
    var h := Hand(s);
    var key := s.ring[h];
    if key == protect then
      s.(hand := h + 1)
    else if s.entries[key].referenced then
      s.(hand := h + 1, entries := s.entries[key := s.entries[key].(referenced := false)])
    else
      RingBytesRemove(s.entries, s.ring, h);
      s.(hand := h, ring := Without(s.ring, h), entries := s.entries - {key}, bytes := s.bytes - s.entries[key].bytes)
  }

  ghost predicate Evicts<K(!new), V>(s: Shard<K, V>, protect: K)
    requires Valid(s) && Over(s)
  {
    var key := s.ring[Hand(s)];
    key != protect && !s.entries[key].referenced
  }

  ghost function Marked<K(!new), V>(entries: map<K, Entry<V>>): set<K> {
    set k | k in entries && entries[k].referenced
  }

  ghost function OnProtected<K, V>(s: Shard<K, V>, protect: K): nat {
    if s.ring != [] && s.ring[Hand(s)] == protect then 1 else 0
  }

  datatype Swept<K, V> = Swept(shard: Shard<K, V>, victims: seq<K>)

  /** The whole sweep. Each turn shrinks the ring, or clears a bit, or steps off the
      protected key, in that order of precedence, so the loop stops. */
  ghost function Sweep<K(!new), V>(s: Shard<K, V>, protect: K): Swept<K, V>
    requires Valid(s)
    decreases |s.ring|, |Marked(s.entries)|, OnProtected(s, protect)
  {
    if !Over(s) then Swept(s, [])
    else
      TurnValid(s, protect);
      TurnDecreases(s, protect);
      var rest := Sweep(Turn(s, protect), protect);
      if Evicts(s, protect) then Swept(rest.shard, [s.ring[Hand(s)]] + rest.victims) else rest
  }

  // ---- bookkeeping of bytes ----

  lemma {:induction false} RingBytesFrame<K, V>(a: map<K, Entry<V>>, b: map<K, Entry<V>>, ring: seq<K>)
    requires forall k :: k in ring ==> k in a && k in b && a[k].bytes == b[k].bytes
    ensures RingBytes(a, ring) == RingBytes(b, ring)
  {
    if ring != [] {
      RingBytesFrame(a, b, ring[1..]);
    }
  }

  lemma {:induction false} RingBytesConcat<K, V>(e: map<K, Entry<V>>, a: seq<K>, b: seq<K>)
    requires forall k :: k in a || k in b ==> k in e
    ensures RingBytes(e, a + b) == RingBytes(e, a) + RingBytes(e, b)
  {
    if a == [] {
      assert a + b == b;
    } else {
      assert (a + b)[1..] == a[1..] + b;
      RingBytesConcat(e, a[1..], b);
    }
  }

  lemma RingBytesSnoc<K, V>(e: map<K, Entry<V>>, ring: seq<K>, k: K)
    requires k in e && forall j :: j in ring ==> j in e
    ensures RingBytes(e, ring + [k]) == RingBytes(e, ring) + e[k].bytes
  {
    RingBytesConcat(e, ring, [k]);
    assert RingBytes(e, [k]) == e[k].bytes + RingBytes(e, []);
  }

  lemma RingBytesRemove<K, V>(e: map<K, Entry<V>>, ring: seq<K>, h: nat)
    requires h < |ring|
    requires forall k :: k in ring ==> k in e
    ensures forall k :: k in Without(ring, h) ==> k in ring
    ensures RingBytes(e, ring) == RingBytes(e, Without(ring, h)) + e[ring[h]].bytes
  {
    assert ring == ring[..h] + [ring[h]] + ring[h + 1..];
    RingBytesConcat(e, ring[..h] + [ring[h]], ring[h + 1..]);
    RingBytesConcat(e, ring[..h], [ring[h]]);
    RingBytesConcat(e, ring[..h], ring[h + 1..]);
    assert RingBytes(e, [ring[h]]) == e[ring[h]].bytes + RingBytes(e, []);
  }

  lemma WithoutDistinct<K>(ring: seq<K>, h: nat)
    requires h < |ring| && Distinct(ring)
    ensures Distinct(Without(ring, h))
    ensures forall k :: k in Without(ring, h) <==> k in ring && k != ring[h]
  {
    forall k | k in ring && k != ring[h] ensures k in Without(ring, h) {
      var i :| 0 <= i < |ring| && ring[i] == k;
      assert Without(ring, h)[if i < h then i else i - 1] == k;
    }
  }

  lemma EvictTurnValid<K(!new), V>(s: Shard<K, V>, protect: K)
    requires Valid(s) && Over(s) && Evicts(s, protect)
    ensures Valid(Turn(s, protect))
  {
    var t := Turn(s, protect);
    RingBytesRemove(s.entries, s.ring, Hand(s));
    WithoutDistinct(s.ring, Hand(s));
    RingBytesFrame(s.entries, t.entries, t.ring);
  }

  lemma TurnValid<K(!new), V>(s: Shard<K, V>, protect: K)
    requires Valid(s) && Over(s)
    ensures Valid(Turn(s, protect))
  {
    if Evicts(s, protect) {
      EvictTurnValid(s, protect);
    } else {
      RingBytesFrame(s.entries, Turn(s, protect).entries, s.ring);
    }
  }

  lemma TurnDecreases<K(!new), V>(s: Shard<K, V>, protect: K)
    requires Valid(s) && Over(s)
    ensures var t := Turn(s, protect);
      || |t.ring| < |s.ring|
      || (|t.ring| == |s.ring| && |Marked(t.entries)| < |Marked(s.entries)|)
      || (|t.ring| == |s.ring| && Marked(t.entries) == Marked(s.entries)
          && OnProtected(t, protect) < OnProtected(s, protect))
  {
    var t := Turn(s, protect);
    var key := s.ring[Hand(s)];
    if key != protect && s.entries[key].referenced {
      assert Marked(t.entries) == Marked(s.entries) - {key};
    }
  }

  // ---- the eviction queue ----

  /** Keys of `ks` other than the protected one whose bit equals `bit`, in order. */
  function Pick<K(==), V>(entries: map<K, Entry<V>>, ks: seq<K>, protect: K, bit: bool): seq<K>
    requires forall k :: k in ks ==> k in entries
  {
    if ks == [] then []
    else (if ks[0] != protect && entries[ks[0]].referenced == bit then [ks[0]] else [])
         + Pick(entries, ks[1..], protect, bit)
  }

  /** The ring as the hand will meet it. */
  function Rotation<K, V>(s: Shard<K, V>): seq<K> {
    s.ring[Hand(s)..] + s.ring[..Hand(s)]
  }

  /** Reference policy: unprotected keys with a clear bit in hand order, then those with a
      set bit in hand order. */
  function QueueOver<K(==), V>(entries: map<K, Entry<V>>, rotation: seq<K>, protect: K): seq<K>
    requires forall k :: k in rotation ==> k in entries
  {
    Pick(entries, rotation, protect, false) + Pick(entries, rotation, protect, true)
  }

  ghost function Queue<K(!new), V>(s: Shard<K, V>, protect: K): seq<K>
    requires Valid(s)
  {
    QueueOver(s.entries, Rotation(s), protect)
  }

  /** Pop a queue while over budget and more than one entry is live. */
  function Victims<K, V>(q: seq<K>, entries: map<K, Entry<V>>, bytes: int, budget: nat, live: int): seq<K>
    requires forall k :: k in q ==> k in entries
  {
    if bytes <= budget || live <= 1 || q == [] then []
    else [q[0]] + Victims(q[1..], entries, bytes - entries[q[0]].bytes, budget, live - 1)
  }

  lemma {:induction false} PickConcat<K, V>(e: map<K, Entry<V>>, a: seq<K>, b: seq<K>, p: K, bit: bool)
    requires forall k :: k in a || k in b ==> k in e
    ensures Pick(e, a + b, p, bit) == Pick(e, a, p, bit) + Pick(e, b, p, bit)
  {
    if a == [] {
      assert a + b == b;
    } else {
      var head := if a[0] != p && e[a[0]].referenced == bit then [a[0]] else [];
      assert (a + b)[1..] == a[1..] + b && (a + b)[0] == a[0];
      PickConcat(e, a[1..], b, p, bit);
      var x, y := Pick(e, a[1..], p, bit), Pick(e, b, p, bit);
      assert head + (x + y) == (head + x) + y;
    }
  }

  lemma {:induction false} PickFrame<K, V>(a: map<K, Entry<V>>, b: map<K, Entry<V>>, ks: seq<K>, p: K, bit: bool)
    requires forall k :: k in ks ==> k in a && k in b && a[k].referenced == b[k].referenced
    ensures Pick(a, ks, p, bit) == Pick(b, ks, p, bit)
  {
    if ks != [] {
      PickFrame(a, b, ks[1..], p, bit);
    }
  }

  lemma {:induction false} PickMember<K, V>(e: map<K, Entry<V>>, ks: seq<K>, p: K, bit: bool, k: K)
    requires forall j :: j in ks ==> j in e
    ensures k in Pick(e, ks, p, bit) <==> k in ks && k != p && e[k].referenced == bit
  {
    if ks != [] {
      PickMember(e, ks[1..], p, bit, k);
    }
  }

  lemma QueueReprieve<K, V>(a: map<K, Entry<V>>, b: map<K, Entry<V>>, key: K, rest: seq<K>, p: K)
    requires forall k :: k in rest ==> k in a && k in b && a[k].referenced == b[k].referenced
    requires key in a && key in b && (key == p || (a[key].referenced && !b[key].referenced))
    ensures QueueOver(b, rest + [key], p) == QueueOver(a, [key] + rest, p)
  {
    assert ([key] + rest)[1..] == rest;
    PickConcat(b, rest, [key], p, false);
    PickConcat(b, rest, [key], p, true);
    PickFrame(a, b, rest, p, false);
    PickFrame(a, b, rest, p, true);
    assert Pick(b, [key], p, false) == (if key == p then [] else [key]) + Pick(b, [], p, false);
    assert Pick(b, [key], p, true) == [] + Pick(b, [], p, true);
  }

  lemma QueueEvict<K, V>(a: map<K, Entry<V>>, b: map<K, Entry<V>>, key: K, rest: seq<K>, p: K)
    requires forall k :: k in rest ==> k in a && k in b && a[k].referenced == b[k].referenced
    requires key in a && key != p && !a[key].referenced
    ensures QueueOver(a, [key] + rest, p) == [key] + QueueOver(b, rest, p)
  {
    assert ([key] + rest)[1..] == rest;
    PickFrame(a, b, rest, p, false);
    PickFrame(a, b, rest, p, true);
  }

  /** The rest of the ring behind the key under the hand, as a sweep meets it. */
  function Behind<K>(ring: seq<K>, h: nat): seq<K>
    requires h < |ring|
  {
    ring[h + 1..] + ring[..h]
  }

  lemma BehindKey<K>(ring: seq<K>, h: nat)
    requires h < |ring| && Distinct(ring)
    ensures ring[h..] + ring[..h] == [ring[h]] + Behind(ring, h)
    ensures forall k :: k in Behind(ring, h) ==> k in ring && k != ring[h]
  {
  }

  function NormalHand(h: nat, n: nat): nat {
    if h >= n then 0 else h
  }

  lemma RotateNext<K>(ring: seq<K>, h: nat)
    requires h < |ring|
    ensures var h' := NormalHand(h + 1, |ring|); ring[h'..] + ring[..h'] == Behind(ring, h) + [ring[h]]
  {
  }

  /** A step that evicts nothing rotates the ring by one and leaves the queue as it was. */
  lemma ReprieveKeepsQueue<K(!new), V>(s: Shard<K, V>, p: K)
    requires Valid(s) && Over(s) && !Evicts(s, p)
    ensures Valid(Turn(s, p)) && Queue(Turn(s, p), p) == Queue(s, p)
  {
    TurnValid(s, p);
    var t, h := Turn(s, p), Hand(s);
    BehindKey(s.ring, h);
    RotateNext(s.ring, h);
    QueueReprieve(s.entries, t.entries, s.ring[h], Behind(s.ring, h), p);
  }

  /** A step that evicts takes the front of the queue. */
  lemma EvictPopsQueue<K(!new), V>(s: Shard<K, V>, p: K)
    requires Valid(s) && Over(s) && Evicts(s, p)
    ensures Valid(Turn(s, p))
    ensures Queue(s, p) == [s.ring[Hand(s)]] + Queue(Turn(s, p), p)
  {
    TurnValid(s, p);
    var t, h := Turn(s, p), Hand(s);
    BehindKey(s.ring, h);
    assert Rotation(t) == Behind(s.ring, h);
    QueueEvict(s.entries, t.entries, s.ring[h], Behind(s.ring, h), p);
  }

  lemma {:induction false} VictimsFrame<K, V>(q: seq<K>, a: map<K, Entry<V>>, b: map<K, Entry<V>>, bytes: int,
                                              budget: nat, live: int)
    requires forall k :: k in q ==> k in a && k in b && a[k].bytes == b[k].bytes
    ensures Victims(q, a, bytes, budget, live) == Victims(q, b, bytes, budget, live)
  {
    if !(bytes <= budget || live <= 1 || q == []) {
      VictimsFrame(q[1..], a, b, bytes - a[q[0]].bytes, budget, live - 1);
    }
  }

  lemma QueueMembers<K(!new), V>(s: Shard<K, V>, p: K)
    requires Valid(s)
    ensures forall k :: k in Queue(s, p) <==> k in s.entries && k != p
  {
    forall k ensures k in Queue(s, p) <==> k in s.entries && k != p {
      PickMember(s.entries, Rotation(s), p, false, k);
      PickMember(s.entries, Rotation(s), p, true, k);
      assert k in Rotation(s) <==> k in s.ring by {
        assert s.ring == s.ring[..Hand(s)] + s.ring[Hand(s)..];
      }
    }
  }

  /** What popping the reference queue evicts. */
  ghost function QueueVictims<K(!new), V>(s: Shard<K, V>, p: K): seq<K>
    requires Valid(s)
  {
    QueueMembers(s, p);
    Victims(Queue(s, p), s.entries, s.bytes, s.budget, |s.ring|)
  }

  lemma EvictQueueVictims<K(!new), V>(s: Shard<K, V>, p: K)
    requires Valid(s) && Over(s) && Evicts(s, p)
    ensures Valid(Turn(s, p))
    ensures QueueVictims(s, p) == [s.ring[Hand(s)]] + QueueVictims(Turn(s, p), p)
  {
    hide Queue, Valid, Victims;
    var t := Turn(s, p);
    EvictPopsQueue(s, p);
    QueueMembers(s, p);
    QueueMembers(t, p);
    EvictTakes(s, p);
    PoppedVictims(Queue(s, p), Queue(t, p), s.entries, t.entries, s.bytes, s.budget, |s.ring|);
  }

  /** Evicting takes the entry under the hand out of the map, the bytes and the ring. */
  lemma EvictTakes<K(!new), V>(s: Shard<K, V>, p: K)
    requires Valid(s) && Over(s) && Evicts(s, p)
    ensures s.ring != [] && var t, k := Turn(s, p), s.ring[Hand(s)];
      && k in s.entries && t.bytes == s.bytes - s.entries[k].bytes && t.budget == s.budget && |t.ring| == |s.ring| - 1
      && forall j :: j in t.entries ==> j in s.entries && s.entries[j].bytes == t.entries[j].bytes
  {
  }

  lemma ReprieveQueueVictims<K(!new), V>(s: Shard<K, V>, p: K)
    requires Valid(s) && Over(s) && !Evicts(s, p)
    ensures Valid(Turn(s, p)) && QueueVictims(s, p) == QueueVictims(Turn(s, p), p)
  {
    var t := Turn(s, p);
    ReprieveKeepsQueue(s, p);
    QueueMembers(s, p);
    VictimsFrame(Queue(s, p), t.entries, s.entries, s.bytes, s.budget, |s.ring|);
  }

  lemma PoppedVictims<K, V>(q: seq<K>, q': seq<K>, a: map<K, Entry<V>>, b: map<K, Entry<V>>, bytes: int, budget: nat,
                            live: int)
    requires q != [] && q == [q[0]] + q'
    requires forall k :: k in q ==> k in a
    requires forall k :: k in q' ==> k in b && a[k].bytes == b[k].bytes
    requires bytes > budget && live > 1
    ensures Victims(q, a, bytes, budget, live) == [q[0]] + Victims(q', b, bytes - a[q[0]].bytes, budget, live - 1)
  {
    assert q[1..] == q';
    VictimsFrame(q', a, b, bytes - a[q[0]].bytes, budget, live - 1);
  }

  /** The sweep evicts exactly what popping the reference queue evicts, in that order. */
  lemma {:induction false} SweepPopsQueue<K(!new), V>(s: Shard<K, V>, p: K)
    requires Valid(s)
    ensures Sweep(s, p).victims == QueueVictims(s, p)
    decreases |s.ring|, |Marked(s.entries)|, OnProtected(s, p)
  {
    if Over(s) {
      TurnValid(s, p);
      TurnDecreases(s, p);
      if Evicts(s, p) {
        EvictQueueVictims(s, p);
      } else {
        ReprieveQueueVictims(s, p);
      }
      SweepPopsQueue(Turn(s, p), p);
    }
  }

  ghost predicate Kept<V>(before: Entry<V>, after: Entry<V>) {
    after == before || after == before.(referenced := false)
  }

  /** What a sweep keeps. */
  ghost predicate Survives<K(!new), V>(s: Shard<K, V>, t: Shard<K, V>) {
    && t.budget == s.budget
    && (forall k :: k in t.entries ==> k in s.entries && Kept(s.entries[k], t.entries[k]))
  }

  /** The sweep keeps the shard valid, ends within budget or at one entry, loses exactly the
      victims, and leaves the protected key untouched. */
  lemma {:induction false} SweepKeeps<K(!new), V>(s: Shard<K, V>, p: K)
    requires Valid(s)
    ensures var r := Sweep(s, p); Valid(r.shard) && Fits(r.shard) && Survives(s, r.shard)
    ensures forall k :: k in s.entries <==> k in Sweep(s, p).shard.entries || k in Sweep(s, p).victims
    ensures forall k :: k in Sweep(s, p).victims ==> k !in Sweep(s, p).shard.entries && k != p
    ensures p in s.entries ==> p in Sweep(s, p).shard.entries && Sweep(s, p).shard.entries[p] == s.entries[p]
    ensures |Sweep(s, p).shard.ring| + |Sweep(s, p).victims| == |s.ring|
    decreases |s.ring|, |Marked(s.entries)|, OnProtected(s, p)
  {
    if Over(s) {
      TurnValid(s, p);
      TurnDecreases(s, p);
      SweepKeeps(Turn(s, p), p);
    }
  }

  /** The victims are a prefix of the queue, and the shortest one that reaches the budget. */
  lemma {:induction false} VictimsShortestPrefix<K, V>(q: seq<K>, e: map<K, Entry<V>>, bytes: int, budget: nat,
                                                       live: int)
    requires forall k :: k in q ==> k in e
    ensures Victims(q, e, bytes, budget, live) <= q
    ensures forall n :: 0 <= n < |Victims(q, e, bytes, budget, live)| ==>
      bytes - RingBytes(e, q[..n]) > budget && live - n > 1
    ensures var n := |Victims(q, e, bytes, budget, live)|;
      n == |q| || live - n <= 1 || bytes - RingBytes(e, q[..n]) <= budget
  {
    assert q[..0] == [];
    if !(bytes <= budget || live <= 1 || q == []) {
      var bytes' := bytes - e[q[0]].bytes;
      VictimsShortestPrefix(q[1..], e, bytes', budget, live - 1);
      var vs := Victims(q[1..], e, bytes', budget, live - 1);
      assert Victims(q, e, bytes, budget, live) == [q[0]] + vs;
      forall n | 0 < n <= |vs| + 1
        ensures RingBytes(e, q[..n]) == e[q[0]].bytes + RingBytes(e, q[1..][..n - 1])
      {
        assert q[..n][1..] == q[1..][..n - 1];
      }
    }
  }

  /** Second chance: evicting a key that was referenced means every unreferenced,
      unprotected key was evicted by the same sweep. */
  lemma SecondChance<K(!new), V>(s: Shard<K, V>, p: K, hot: K, cold: K)
    requires Valid(s)
    requires hot in Sweep(s, p).victims && hot in s.entries && s.entries[hot].referenced
    requires cold in s.entries && cold != p && !s.entries[cold].referenced
    ensures cold in Sweep(s, p).victims
  {
    hide Sweep, Victims, Queue, Valid, RingBytes;
    SweepPopsQueue(s, p);
    QueueMembers(s, p);
    VictimsShortestPrefix(Queue(s, p), s.entries, s.bytes, s.budget, |s.ring|);
    var victims := Sweep(s, p).victims;
    var i :| 0 <= i < |victims| && victims[i] == hot;
    var j := ColdComesFirst(s, p, hot, cold, i);
    assert victims[j] == cold;
  }

  /** In the queue, an unreferenced key comes before any referenced one. */
  lemma ColdComesFirst<K(!new), V>(s: Shard<K, V>, p: K, hot: K, cold: K, i: nat) returns (j: nat)
    requires Valid(s) && i < |Queue(s, p)| && Queue(s, p)[i] == hot && hot in s.entries && s.entries[hot].referenced
    requires cold in s.entries && cold != p && !s.entries[cold].referenced
    ensures j < i && Queue(s, p)[j] == cold
  {
    hide Pick, RingBytes;
    var clear := Pick(s.entries, Rotation(s), p, false);
    assert s.ring == s.ring[..Hand(s)] + s.ring[Hand(s)..];
    PickMember(s.entries, Rotation(s), p, false, cold);
    PickMember(s.entries, Rotation(s), p, false, hot);
    j :| 0 <= j < |clear| && clear[j] == cold;
  }

  // ---- insert, hit and idle expiry ----

  /** Record an access; the stamp moves only in steps of the granularity. */
  function Touched<V>(e: Entry<V>, now: nat): Entry<V> {
    e.(referenced := true, lastUsed := if now >= e.lastUsed + LAST_USED_GRANULARITY_MS then now else e.lastUsed)
  }

  function Touch<K(!new), V>(s: Shard<K, V>, key: K, now: nat): Shard<K, V>
    requires key in s.entries
  {
    s.(entries := s.entries[key := Touched(s.entries[key], now)])
  }

  lemma TouchKeeps<K(!new), V>(s: Shard<K, V>, key: K, now: nat)
    requires Valid(s) && key in s.entries
    ensures Valid(Touch(s, key, now)) && (Fits(s) ==> Fits(Touch(s, key, now)))
  {
    RingBytesFrame(s.entries, Touch(s, key, now).entries, s.ring);
  }

  /** Place a new entry just behind the hand. */
  function Placed<K, V>(s: Shard<K, V>, key: K, value: V, bytes: nat, now: nat): Shard<K, V> {
    var at := if s.hand < |s.ring| then s.hand else |s.ring|;
    s.(ring := s.ring[..at] + [key] + s.ring[at..],
       hand := at + 1,
       entries := s.entries[key := Entry(value, bytes, false, now)],
       bytes := s.bytes + bytes)
  }

  lemma PlacedRing<K>(ring: seq<K>, at: nat, key: K)
    requires at <= |ring| && Distinct(ring) && key !in ring
    ensures Distinct(ring[..at] + [key] + ring[at..])
    ensures forall k :: k in ring[..at] + [key] + ring[at..] <==> k in ring || k == key
  {
    assert ring == ring[..at] + ring[at..];
  }

  lemma PlacedRotation<K>(ring: seq<K>, hand: nat, key: K)
    ensures
      var at := if hand < |ring| then hand else |ring|;
      var h, h' := NormalHand(hand, |ring|), NormalHand(at + 1, |ring| + 1);
      var ring' := ring[..at] + [key] + ring[at..];
      ring'[h'..] + ring'[..h'] == ring[h..] + ring[..h] + [key]
  {
  }

  lemma PlacedBytes<K, V>(e: map<K, Entry<V>>, ring: seq<K>, at: nat, key: K)
    requires at <= |ring| && key in e && forall k :: k in ring ==> k in e
    ensures RingBytes(e, ring[..at] + [key] + ring[at..]) == RingBytes(e, ring) + e[key].bytes
  {
    assert ring == ring[..at] + ring[at..];
    RingBytesConcat(e, ring[..at] + [key], ring[at..]);
    RingBytesConcat(e, ring[..at], [key]);
    RingBytesConcat(e, ring[..at], ring[at..]);
    assert RingBytes(e, [key]) == e[key].bytes + RingBytes(e, []);
  }

  /** The hand meets a fresh entry last of all: it has a full revolution ahead of it. */
  lemma PlacedBehindHand<K(!new), V>(s: Shard<K, V>, key: K, value: V, bytes: nat, now: nat)
    requires Valid(s) && key !in s.entries
    ensures Valid(Placed(s, key, value, bytes, now))
    ensures Rotation(Placed(s, key, value, bytes, now)) == Rotation(s) + [key]
  {
    var at := if s.hand < |s.ring| then s.hand else |s.ring|;
    var t := Placed(s, key, value, bytes, now);
    PlacedRing(s.ring, at, key);
    RingBytesFrame(s.entries, t.entries, s.ring);
    PlacedBytes(t.entries, s.ring, at, key);
    PlacedRotation(s.ring, s.hand, key);
  }

  /** Insert under the write lock: an existing entry wins; otherwise place and sweep. */
  ghost function Insert<K(!new), V>(s: Shard<K, V>, key: K, value: V, bytes: nat, now: nat): (r: (Shard<K, V>, V))
    requires Valid(s)
  {
    if key in s.entries then (Touch(s, key, now), s.entries[key].value)
    else
      PlacedBehindHand(s, key, value, bytes, now);
      (Sweep(Placed(s, key, value, bytes, now), key).shard, value)
  }

  /** How many entries an insert evicts. */
  ghost function Evicted<K(!new), V>(s: Shard<K, V>, key: K, value: V, bytes: nat, now: nat): nat
    requires Valid(s)
  {
    if key in s.entries then 0
    else
      PlacedBehindHand(s, key, value, bytes, now);
      |Sweep(Placed(s, key, value, bytes, now), key).victims|
  }

  /** An insert accounts for every entry: what was there, the new one if it is new, less the evicted. */
  lemma InsertCounts<K(!new), V>(s: Shard<K, V>, key: K, value: V, bytes: nat, now: nat)
    requires Valid(s)
    ensures |Insert(s, key, value, bytes, now).0.ring| + Evicted(s, key, value, bytes, now)
         == |s.ring| + if key in s.entries then 0 else 1
  {
    if key !in s.entries {
      PlacedBehindHand(s, key, value, bytes, now);
      SweepKeeps(Placed(s, key, value, bytes, now), key);
    }
  }

  /** After an insert the key is resident with the returned value, the shard is valid and fits,
      and every other resident entry was there before with the same value and size. */
  lemma InsertKeeps<K(!new), V>(s: Shard<K, V>, key: K, value: V, bytes: nat, now: nat)
    requires Valid(s) && Fits(s)
    ensures var (t, v) := Insert(s, key, value, bytes, now);
      && Valid(t) && Fits(t) && t.budget == s.budget
      && key in t.entries && t.entries[key].value == v
      && v == (if key in s.entries then s.entries[key].value else value)
      && t.entries[key].bytes == (if key in s.entries then s.entries[key].bytes else bytes)
      && (forall k :: k in t.entries && k != key ==> k in s.entries && Kept(s.entries[k], t.entries[k]))
  {
    if key in s.entries {
      TouchKeeps(s, key, now);
    } else {
      PlacedBehindHand(s, key, value, bytes, now);
      SweepKeeps(Placed(s, key, value, bytes, now), key);
    }
  }

  function Keep<K(==), V>(entries: map<K, Entry<V>>, ring: seq<K>, now: nat, ttl: nat): seq<K>
    requires forall k :: k in ring ==> k in entries
  {
    if ring == [] then []
    else (if now <= entries[ring[0]].lastUsed + ttl then [ring[0]] else []) + Keep(entries, ring[1..], now, ttl)
  }

  /** Drop every entry idle for longer than `ttl`. The hand is only reset when it falls off. */
  function Expire<K(!new), V>(s: Shard<K, V>, now: nat, ttl: nat): Shard<K, V>
    requires Valid(s)
  {
    var ring := Keep(s.entries, s.ring, now, ttl);
    var entries := map k | k in s.entries && now <= s.entries[k].lastUsed + ttl :: s.entries[k];
    KeepBytes(s.entries, s.ring, now, ttl);
    Shard(entries, ring, if |ring| < |s.ring| && s.hand >= |ring| then 0 else s.hand, RingBytes(s.entries, ring),
          s.budget)
  }

  lemma {:induction false} KeepSnoc<K, V>(e: map<K, Entry<V>>, ring: seq<K>, k: K, now: nat, ttl: nat)
    requires k in e && forall j :: j in ring ==> j in e
    ensures Keep(e, ring + [k], now, ttl) == Keep(e, ring, now, ttl) + (if now <= e[k].lastUsed + ttl then [k] else [])
  {
    if ring == [] {
      assert ring + [k] == [k];
      assert Keep(e, [k], now, ttl) == (if now <= e[k].lastUsed + ttl then [k] else []) + Keep(e, [], now, ttl);
    } else {
      var head, last := if now <= e[ring[0]].lastUsed + ttl then [ring[0]] else [],
                        if now <= e[k].lastUsed + ttl then [k] else [];
      assert (ring + [k])[1..] == ring[1..] + [k] && (ring + [k])[0] == ring[0];
      KeepSnoc(e, ring[1..], k, now, ttl);
      var rest := Keep(e, ring[1..], now, ttl);
      assert head + (rest + last) == (head + rest) + last;
    }
  }

  lemma {:induction false} KeepMembers<K, V>(e: map<K, Entry<V>>, ring: seq<K>, now: nat, ttl: nat)
    requires forall k :: k in ring ==> k in e
    ensures forall k :: k in Keep(e, ring, now, ttl) <==> k in ring && now <= e[k].lastUsed + ttl
  {
    if ring != [] {
      KeepMembers(e, ring[1..], now, ttl);
      assert ring == [ring[0]] + ring[1..];
    }
  }

  lemma {:induction false} KeepBytes<K, V>(e: map<K, Entry<V>>, ring: seq<K>, now: nat, ttl: nat)
    requires forall k :: k in ring ==> k in e
    ensures forall k :: k in Keep(e, ring, now, ttl) ==> k in e
    ensures RingBytes(e, Keep(e, ring, now, ttl)) <= RingBytes(e, ring)
    ensures |Keep(e, ring, now, ttl)| <= |ring|
  {
    KeepMembers(e, ring, now, ttl);
    if ring != [] {
      KeepBytes(e, ring[1..], now, ttl);
      var rest := Keep(e, ring[1..], now, ttl);
      assert ([ring[0]] + rest)[1..] == rest;
      assert [] + rest == rest;
    }
  }

  lemma {:induction false} KeepDistinct<K, V>(e: map<K, Entry<V>>, ring: seq<K>, now: nat, ttl: nat)
    requires forall k :: k in ring ==> k in e
    requires Distinct(ring)
    ensures Distinct(Keep(e, ring, now, ttl))
  {
    if ring != [] {
      KeepDistinct(e, ring[1..], now, ttl);
      KeepMembers(e, ring[1..], now, ttl);
    }
  }

  /** Expiry keeps the invariant and removes exactly the entries idle for longer than `ttl`. */
  lemma ExpireKeeps<K(!new), V>(s: Shard<K, V>, now: nat, ttl: nat)
    requires Valid(s)
    ensures Valid(Expire(s, now, ttl)) && (Fits(s) ==> Fits(Expire(s, now, ttl)))
    ensures forall k :: k in Expire(s, now, ttl).entries <==> k in s.entries && now <= s.entries[k].lastUsed + ttl
    ensures Survives(s, Expire(s, now, ttl))
  {
    KeepMembers(s.entries, s.ring, now, ttl);
    KeepBytes(s.entries, s.ring, now, ttl);
    KeepDistinct(s.entries, s.ring, now, ttl);
    var t := Expire(s, now, ttl);
    RingBytesFrame(s.entries, t.entries, t.ring);
  }
}

/** The sharded cache under any number of threads. A fetch is three lock sections with an
    unlocked load in between: probe under the read lock, load, publish under the write lock.
    Each section is one step; a run is any interleaving of steps. */
module CacheRuns {
  import opened Collections
  import opened Clock

  /** What a cache is built over: the shard hash, the loader and the size of a value. */
  datatype Config<!K, !V> = Config(hash: K -> nat, load: K -> Option<V>, size: V -> nat)

  /** Where one thread stands. */
  datatype Pc<K, V> =
    | Idle
    | Missed(key: K)                    // probe missed, nothing held
    | Loaded(key: K, value: V)          // loaded outside every lock
    | Returned(key: K, value: V)        // the fetch returned this value
    | Failed(key: K)                    // the load failed
    | Summing(next: nat, acc: nat)      // part way through `bytes()`
    | Summed(total: nat)

  datatype State<K, V> = State(shards: seq<Shard<K, V>>, threads: map<nat, Pc<K, V>>)

  datatype Step<K> =
    | Probe(t: nat, key: K, now: nat)
    | Load(t: nat)
    | LoadFails(t: nat)
    | Publish(t: nat, now: nat)
    | ExpireShard(i: nat, now: nat, ttl: nat)
    | StartSum(t: nat)
    | AddShard(t: nat)

  function PcOf<K, V>(s: State<K, V>, t: nat): Pc<K, V> {
    if t in s.threads then s.threads[t] else Idle
  }

  predicate Ready<K, V>(pc: Pc<K, V>) {
    pc.Idle? || pc.Returned? || pc.Failed? || pc.Summed?
  }

  function ShardOf<K, V>(cfg: Config<K, V>, n: nat, key: K): nat
    requires n > 0
  {
    cfg.hash(key) % n
  }

  ghost predicate Next<K(!new), V(!new)>(cfg: Config<K, V>, s: State<K, V>, step: Step<K>, s': State<K, V>)
    requires |s.shards| > 0 && forall i :: 0 <= i < |s.shards| ==> Valid(s.shards[i])
  {
    match step
    case Probe(t, key, now) =>
      var i := ShardOf(cfg, |s.shards|, key);
      && Ready(PcOf(s, t))
      && s' == if key in s.shards[i].entries
               then State(s.shards[i := Touch(s.shards[i], key, now)],
                          s.threads[t := Returned(key, s.shards[i].entries[key].value)])
               else s.(threads := s.threads[t := Missed(key)])
    case Load(t) =>
      && PcOf(s, t).Missed? && cfg.load(PcOf(s, t).key).Some?
      && s' == s.(threads := s.threads[t := Loaded(PcOf(s, t).key, cfg.load(PcOf(s, t).key).value)])
    case LoadFails(t) =>
      && PcOf(s, t).Missed?
      && s' == s.(threads := s.threads[t := Failed(PcOf(s, t).key)])
    case Publish(t, now) =>
      && PcOf(s, t).Loaded?
      && var Loaded(key, value) := PcOf(s, t);
         var i := ShardOf(cfg, |s.shards|, key);
         var (shard, canonical) := Insert(s.shards[i], key, value, cfg.size(value), now);
         s' == State(s.shards[i := shard], s.threads[t := Returned(key, canonical)])
    case ExpireShard(i, now, ttl) =>
      i < |s.shards| && s' == s.(shards := s.shards[i := Expire(s.shards[i], now, ttl)])
    case StartSum(t) =>
      Ready(PcOf(s, t)) && s' == s.(threads := s.threads[t := Summing(0, 0)])
    case AddShard(t) =>
      && PcOf(s, t).Summing?
      && var Summing(i, acc) := PcOf(s, t);
         var next := if i < |s.shards| then Summing(i + 1, acc + s.shards[i].bytes) else Summed(acc);
         s' == s.(threads := s.threads[t := next])
  }

  // ---- the invariant ----

  /** Every value the loader can return fits one shard's sub-budget. */
  ghost predicate AllFit<K(!new), V(!new)>(cfg: Config<K, V>, per: nat) {
    forall k :: cfg.load(k).Some? ==> cfg.size(cfg.load(k).value) <= per
  }

  ghost predicate Loads<K(!new), V(!new)>(cfg: Config<K, V>, k: K, e: Entry<V>) {
    cfg.load(k) == Some(e.value) && e.bytes == cfg.size(e.value)
  }

  /** A shard at rest: consistent, within its sub-budget or down to one entry, and holding only
      its own keys with exactly what the loader returns for them. */
  ghost predicate ShardOk<K(!new), V(!new)>(cfg: Config<K, V>, n: nat, per: nat, i: nat, s: Shard<K, V>)
    requires n > 0
  {
    && Valid(s) && Fits(s) && s.budget == per
    && (forall k :: k in s.entries ==> ShardOf(cfg, n, k) == i && Loads(cfg, k, s.entries[k]))
  }

  ghost predicate PcOk<K(!new), V(!new)>(cfg: Config<K, V>, n: nat, per: nat, pc: Pc<K, V>) {
    match pc
    case Loaded(k, v) => cfg.load(k) == Some(v)
    case Returned(k, v) => cfg.load(k) == Some(v)
    case Summing(i, acc) => i <= n && (AllFit(cfg, per) ==> acc <= i * per)
    case Summed(total) => AllFit(cfg, per) ==> total <= n * per
    case _ => true
  }

  ghost predicate Inv<K(!new), V(!new)>(cfg: Config<K, V>, n: nat, per: nat, s: State<K, V>) {
    && |s.shards| == n > 0
    && (forall i :: 0 <= i < n ==> ShardOk(cfg, n, per, i, s.shards[i]))
    && (forall t :: t in s.threads ==> PcOk(cfg, n, per, s.threads[t]))
  }

  lemma TouchOk<K(!new), V(!new)>(cfg: Config<K, V>, n: nat, per: nat, i: nat, s: Shard<K, V>, key: K, now: nat)
    requires n > 0 && ShardOk(cfg, n, per, i, s) && key in s.entries
    ensures ShardOk(cfg, n, per, i, Touch(s, key, now))
  {
    TouchKeeps(s, key, now);
  }

  lemma InsertOk<K(!new), V(!new)>(cfg: Config<K, V>, n: nat, per: nat, i: nat, s: Shard<K, V>, key: K, value: V,
                                   now: nat)
    requires n > 0 && ShardOk(cfg, n, per, i, s) && ShardOf(cfg, n, key) == i
    requires cfg.load(key) == Some(value)
    ensures var (t, v) := Insert(s, key, value, cfg.size(value), now);
      ShardOk(cfg, n, per, i, t) && v == value && key in t.entries
  {
    InsertKeeps(s, key, value, cfg.size(value), now);
    var t := Insert(s, key, value, cfg.size(value), now).0;
    forall k | k in t.entries ensures ShardOf(cfg, n, k) == i && Loads(cfg, k, t.entries[k]) {
      if k != key {
        assert Kept(s.entries[k], t.entries[k]);
      } else if key in s.entries {
        assert Loads(cfg, key, s.entries[key]);
      }
    }
  }

  lemma ExpireOk<K(!new), V(!new)>(cfg: Config<K, V>, n: nat, per: nat, i: nat, s: Shard<K, V>, now: nat, ttl: nat)
    requires n > 0 && ShardOk(cfg, n, per, i, s)
    ensures ShardOk(cfg, n, per, i, Expire(s, now, ttl))
  {
    ExpireKeeps(s, now, ttl);
    var t := Expire(s, now, ttl);
    forall k | k in t.entries ensures ShardOf(cfg, n, k) == i && Loads(cfg, k, t.entries[k]) {
      assert Kept(s.entries[k], t.entries[k]);
    }
  }

  /** A shard at rest never holds more than its sub-budget when every value fits one. */
  lemma ShardBound<K(!new), V(!new)>(cfg: Config<K, V>, n: nat, per: nat, i: nat, s: Shard<K, V>)
    requires n > 0 && ShardOk(cfg, n, per, i, s) && AllFit(cfg, per)
    ensures s.bytes <= per
  {
    if |s.ring| == 1 {
      assert s.ring[0] in s.entries && s.ring[1..] == [];
      assert RingBytes(s.entries, s.ring) == s.entries[s.ring[0]].bytes + RingBytes(s.entries, s.ring[1..]);
      assert Loads(cfg, s.ring[0], s.entries[s.ring[0]]);
    } else if s.ring == [] {
      assert s.bytes == 0;
    }
  }

  lemma SetThread<K(!new), V(!new)>(cfg: Config<K, V>, n: nat, per: nat, s: State<K, V>, t: nat, pc: Pc<K, V>)
    requires Inv(cfg, n, per, s) && PcOk(cfg, n, per, pc)
    ensures Inv(cfg, n, per, s.(threads := s.threads[t := pc]))
  {
  }

  lemma SetShard<K(!new), V(!new)>(cfg: Config<K, V>, n: nat, per: nat, s: State<K, V>, i: nat, shard: Shard<K, V>)
    requires Inv(cfg, n, per, s) && i < n && ShardOk(cfg, n, per, i, shard)
    ensures Inv(cfg, n, per, s.(shards := s.shards[i := shard]))
  {
  }

  lemma StepKeeps<K(!new), V(!new)>(cfg: Config<K, V>, n: nat, per: nat, s: State<K, V>, step: Step<K>, s': State<K, V>)
    requires Inv(cfg, n, per, s)
    requires Next(cfg, s, step, s')
    ensures Inv(cfg, n, per, s')
  {
    match step
    case Probe(t, key, now) =>
      var i := ShardOf(cfg, n, key);
      if key in s.shards[i].entries {
        assert Loads(cfg, key, s.shards[i].entries[key]);
        TouchOk(cfg, n, per, i, s.shards[i], key, now);
        SetShard(cfg, n, per, s, i, s'.shards[i]);
        SetThread(cfg, n, per, s.(shards := s'.shards), t, s'.threads[t]);
      } else {
        SetThread(cfg, n, per, s, t, s'.threads[t]);
      }
    case Load(t) => SetThread(cfg, n, per, s, t, s'.threads[t]);
    case LoadFails(t) => SetThread(cfg, n, per, s, t, s'.threads[t]);
    case Publish(t, now) => PublishKeeps(cfg, n, per, s, t, now, s');
    case ExpireShard(i, now, ttl) =>
      ExpireOk(cfg, n, per, i, s.shards[i], now, ttl);
      SetShard(cfg, n, per, s, i, s'.shards[i]);
    case StartSum(t) => SetThread(cfg, n, per, s, t, s'.threads[t]);
    case AddShard(t) =>
      var Summing(i, acc) := PcOf(s, t);
      if i < n && AllFit(cfg, per) {
        ShardBound(cfg, n, per, i, s.shards[i]);
        assert (i + 1) * per == i * per + per;
      }
      SetThread(cfg, n, per, s, t, s'.threads[t]);
  }

  lemma PublishKeeps<K(!new), V(!new)>(cfg: Config<K, V>, n: nat, per: nat, s: State<K, V>, t: nat, now: nat,
                                       s': State<K, V>)
    requires Inv(cfg, n, per, s)
    requires Next(cfg, s, Publish(t, now), s')
    ensures Inv(cfg, n, per, s')
  {
    var Loaded(key, value) := PcOf(s, t);
    var i := ShardOf(cfg, n, key);
    InsertOk(cfg, n, per, i, s.shards[i], key, value, now);
    SetShard(cfg, n, per, s, i, s'.shards[i]);
    SetThread(cfg, n, per, s.(shards := s'.shards), t, s'.threads[t]);
  }

  // ---- whole runs ----

  ghost function Fresh<K(!new), V>(n: nat, per: nat): State<K, V> {
    State(seq(n, _ => Shard(map[], [], 0, 0, per)), map[])
  }

  /** A run: states joined by steps. */
  ghost predicate Run<K(!new), V(!new)>(cfg: Config<K, V>, states: seq<State<K, V>>, steps: seq<Step<K>>) {
    && |states| == |steps| + 1
    && (forall j :: 0 <= j < |steps| ==> Joined(cfg, states[j], steps[j], states[j + 1]))
  }

  /** The invariant is not part of a run: from an inconsistent shard anything may follow. */
  ghost predicate Joined<K(!new), V(!new)>(cfg: Config<K, V>, s: State<K, V>, step: Step<K>, s': State<K, V>) {
    (|s.shards| > 0 && forall i :: 0 <= i < |s.shards| ==> Valid(s.shards[i])) ==> Next(cfg, s, step, s')
  }

  lemma {:induction false} RunKeeps<K(!new), V(!new)>(cfg: Config<K, V>, n: nat, per: nat, states: seq<State<K, V>>,
                                                      steps: seq<Step<K>>, j: nat)
    requires n > 0 && Run(cfg, states, steps) && states[0] == Fresh(n, per) && j < |states|
    ensures Inv(cfg, n, per, states[j])
  {
    if j > 0 {
      RunKeeps(cfg, n, per, states, steps, j - 1);
      assert Joined(cfg, states[j - 1], steps[j - 1], states[j]);
      var prev := states[j - 1];
      forall i | 0 <= i < n ensures Valid(prev.shards[i]) {
        assert ShardOk(cfg, n, per, i, prev.shards[i]);
      }
      StepKeeps(cfg, n, per, states[j - 1], steps[j - 1], states[j]);
    }
  }

  /** In every interleaving, a fetch returns exactly what the loader returns for its key, no
      shard is ever over its sub-budget with two entries, and a `bytes()` total assembled shard
      by shard while others keep writing stays within `n * per` if every value fits `per`. */
  lemma EveryRunIsTransparent<K(!new), V(!new)>(cfg: Config<K, V>, n: nat, per: nat, states: seq<State<K, V>>,
                                                steps: seq<Step<K>>, j: nat)
    requires n > 0 && Run(cfg, states, steps) && states[0] == Fresh(n, per) && j < |states|
    ensures forall t :: PcOf(states[j], t).Returned? ==>
      cfg.load(PcOf(states[j], t).key) == Some(PcOf(states[j], t).value)
    ensures forall i :: 0 <= i < |states[j].shards| ==> Valid(states[j].shards[i]) && Fits(states[j].shards[i])
    ensures AllFit(cfg, per) ==> forall t :: PcOf(states[j], t).Summed? ==> PcOf(states[j], t).total <= n * per
  {
    RunKeeps(cfg, n, per, states, steps, j);
    forall i | 0 <= i < |states[j].shards| ensures Valid(states[j].shards[i]) && Fits(states[j].shards[i]) {
      assert ShardOk(cfg, n, per, i, states[j].shards[i]);
    }
    forall t | PcOf(states[j], t).Returned?
      ensures cfg.load(PcOf(states[j], t).key) == Some(PcOf(states[j], t).value)
    {
      assert PcOk(cfg, n, per, states[j].threads[t]);
    }
    if AllFit(cfg, per) {
      forall t | PcOf(states[j], t).Summed? ensures PcOf(states[j], t).total <= n * per {
        assert PcOk(cfg, n, per, states[j].threads[t]);
      }
    }
  }

  // ---- sizing ----

  predicate PowerOfTwo(n: nat) {
    n == 1 || n == 2 || n == 4 || n == 8 || n == 16 || n == 32
  }

  const MAX_SHARDS: nat := 32

  function NextPowerOfTwo(n: nat, p: nat): nat
    requires PowerOfTwo(p)
    decreases 64 - p
  {
    if p >= n || p == MAX_SHARDS then p else NextPowerOfTwo(n, 2 * p)
  }

  /** Halve the shard count while a shard would own no byte. */
  function Halved(budget: nat, n: nat): (r: nat)
    requires PowerOfTwo(n)
    ensures PowerOfTwo(r) && (r == 1 || budget / r > 0)
    decreases n
  {
    if n > 1 && budget / n == 0 then Halved(budget, n / 2) else n
  }

  /** Shard count and sub-budget for a byte budget. */
  function Sizing(budgetBytes: nat, wanted: nat): (nat, nat) {
    PowerBounds(wanted, 1);
    var budget := if budgetBytes == 0 then 1 else budgetBytes;
    var n := Halved(budget, NextPowerOfTwo(wanted, 1));
    (n, budget / n)
  }

  /** The sub-budgets never add up to more than the budget, and each shard owns at least one byte. */
  lemma SizingFits(budgetBytes: nat, wanted: nat)
    ensures var (n, per) := Sizing(budgetBytes, wanted);
      && n > 0 && per >= 1 && n * per <= (if budgetBytes == 0 then 1 else budgetBytes) < n * (per + 1)
  {
    hide Halved, NextPowerOfTwo;
    PowerBounds(wanted, 1);
    var budget := if budgetBytes == 0 then 1 else budgetBytes;
    DivFits(budget, Halved(budget, NextPowerOfTwo(wanted, 1)));
  }

  lemma DivFits(b: nat, n: nat)
    requires n > 0
    ensures n * (b / n) <= b < n * (b / n + 1)
  {
  }

  method ShardSizing(budgetBytes: nat, wanted: nat) returns (n: nat, per: nat)
    ensures (n, per) == Sizing(budgetBytes, wanted)
    ensures PowerOfTwo(n) && per >= 1
    ensures n * per <= (if budgetBytes == 0 then 1 else budgetBytes) < n * (per + 1)
    ensures n == 1 || n == NextPowerOfTwo(wanted, 1) || 2 * n > budgetBytes
  {
    var budget := if budgetBytes == 0 then 1 else budgetBytes;
    PowerBounds(wanted, 1);
    n := NextPowerOfTwo(wanted, 1);
    while n > 1 && budget / n == 0
      invariant PowerOfTwo(n) && Halved(budget, n) == Halved(budget, NextPowerOfTwo(wanted, 1))
      invariant n == NextPowerOfTwo(wanted, 1) || 2 * n > budgetBytes
      decreases n
    {
      n := n / 2;
    }
    per := budget / n;
    SizingFits(budgetBytes, wanted);
  }

  /** So, with the shards sized for a byte budget and every value fitting a sub-budget, a byte total
      gathered in any interleaving is at most that budget. */
  lemma EveryRunStaysWithinTheBudget<K(!new), V(!new)>(
      cfg: Config<K, V>, budgetBytes: nat, wanted: nat, states: seq<State<K, V>>, steps: seq<Step<K>>, j: nat)
    requires var (n, per) := Sizing(budgetBytes, wanted);
      AllFit(cfg, per) && n > 0 && Run(cfg, states, steps) && states[0] == Fresh(n, per) && j < |states|
    ensures forall t :: PcOf(states[j], t).Summed? ==>
      PcOf(states[j], t).total <= if budgetBytes == 0 then 1 else budgetBytes
  {
    hide Sizing, Run;
    var (n, per) := Sizing(budgetBytes, wanted);
    SizingFits(budgetBytes, wanted);
    EveryRunIsTransparent(cfg, n, per, states, steps, j);
  }

  lemma {:induction false} PowerBounds(n: nat, p: nat)
    requires PowerOfTwo(p)
    ensures PowerOfTwo(NextPowerOfTwo(n, p)) && NextPowerOfTwo(n, p) >= (if n < MAX_SHARDS then n else p)
    decreases 64 - p
  {
    if p < n && p != MAX_SHARDS {
      PowerBounds(n, 2 * p);
    }
  }
}

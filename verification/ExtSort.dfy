/** External sort: the k-way merge of sorted runs, and the sort of one buffer
    (crates/graph-format/src/extsort.rs). */
module ExtSort {
  import opened Collections
  import opened Sorting

  /** The caller's comparator orders these records totally and transitively. */
  ghost predicate Orders<R(!new)>(le: (R, R) -> bool, s: seq<R>) {
    && (forall x, y :: x in s && y in s ==> le(x, y) || le(y, x))
    && (forall x, y, z :: x in s && y in s && z in s && le(x, y) && le(y, z) ==> le(x, z))
  }

  // ---- run cursors ----

  /** A block of a run as its reader finds it: none if it does not open or parse, and none in a slot
      that does not decode. */
  type Block<R> = Option<seq<Option<R>>>

  /** What a reader gets out of a run: records, and then its end or an error. */
  datatype Tail<R> = Tail(records: seq<R>, broken: bool)

  function Then<R>(a: Tail<R>, b: Tail<R>): Tail<R> {
    if a.broken then a else Tail(a.records + b.records, b.broken)
  }

  /** The slots up to the first that does not decode. */
  function OfSlots<R>(slots: seq<Option<R>>): Tail<R> {
    if slots == [] then Tail([], false)
    else if slots[0].None? then Tail([], true)
    else Then(Tail([slots[0].value], false), OfSlots(slots[1..]))
  }

  /** The records of a run up to the first thing that cannot be read. */
  function Stream<R>(blocks: seq<Block<R>>): Tail<R> {
    if blocks == [] then Tail([], false)
    else if blocks[0].None? then Tail([], true)
    else Then(OfSlots(blocks[0].value), Stream(blocks[1..]))
  }

  /** A read cursor over one run file: the current block and the next slot in it. */
  datatype Cursor<R> = Cursor(blocks: seq<Block<R>>, block: nat, slot: nat, cur: seq<Option<R>>)

  ghost predicate CursorOk<R(!new)>(c: Cursor<R>) {
    c.slot <= |c.cur|
  }

  ghost function Rest<R(!new)>(c: Cursor<R>): Tail<R>
    requires CursorOk(c)
  {
    Then(OfSlots(c.cur[c.slot..]),
         if c.block + 1 <= |c.blocks| then Stream(c.blocks[c.block + 1..]) else Tail([], false))
  }

  /** What the cursor has still to yield. */
  ghost function Remaining<R(!new)>(c: Cursor<R>): seq<R>
    requires CursorOk(c)
  {
    Rest(c).records
  }

  lemma NextBlock<R(!new)>(blocks: seq<Block<R>>, b: nat)
    requires b < |blocks|
    ensures Stream(blocks[b..]) ==
      if blocks[b].None? then Tail([], true) else Then(OfSlots(blocks[b].value), Stream(blocks[b + 1..]))
  {
    assert blocks[b..][1..] == blocks[b + 1..];
  }

  lemma NothingThen<R(!new)>(t: Tail<R>)
    ensures Then(Tail([], false), t) == t
  {
    assert [] + t.records == t.records;
  }

  datatype Loading = Loaded | AtEnd | Unreadable

  /** Load the next block that holds a record, skipping empty ones. */
  method LoadBlock<R(!new)>(c: Cursor<R>) returns (c': Cursor<R>, how: Loading)
    requires CursorOk(c) && c.slot == |c.cur|
    ensures CursorOk(c') && c'.blocks == c.blocks
    ensures var rest := if c.block <= |c.blocks| then Stream(c.blocks[c.block..]) else Tail([], false);
      match how
      case Loaded => c'.slot == 0 && c'.cur != [] && Rest(c') == rest
      case AtEnd => c'.slot == |c'.cur| && c'.block >= |c'.blocks| && rest == Tail([], false) == Rest(c')
      case Unreadable => rest == Tail([], true)
  {
    var b := c.block;
    while b < |c.blocks|
      invariant c.block <= b && (c.block <= |c.blocks| ==> b <= |c.blocks|)
      invariant c.block <= |c.blocks| ==> Stream(c.blocks[c.block..]) == Stream(c.blocks[b..])
    {
      NextBlock(c.blocks, b);
      if c.blocks[b].None? {
        return c.(block := b), Unreadable;
      } else if c.blocks[b].value == [] {
        NothingThen(Stream(c.blocks[b + 1..]));
        b := b + 1;
      } else {
        c' := c.(block := b, slot := 0, cur := c.blocks[b].value);
        return c', Loaded;
      }
    }
    c' := c.(block := b);
    how := AtEnd;
  }

  /** What one call of a reader yields. */
  datatype Yield<R> = End | Item(rec: R) | ReadError

  /** What the reader of `t` yields next. */
  ghost predicate Yields<R(!new)>(t: Tail<R>, y: Yield<R>, rest: Tail<R>) {
    match y
    case End => t == Tail([], false) == rest
    case ReadError => t == Tail([], true)
    case Item(r) => t == Tail([r] + rest.records, rest.broken)
  }

  /** The next record of the run, block by block. */
  method NextRecord<R(!new)>(c: Cursor<R>) returns (c': Cursor<R>, y: Yield<R>)
    requires CursorOk(c)
    ensures CursorOk(c') && c'.blocks == c.blocks && Yields(Rest(c), y, Rest(c'))
  {
    hide Stream;
    c' := c;
    if c'.slot >= |c'.cur| {
      NothingThen(if c.block + 1 <= |c.blocks| then Stream(c.blocks[c.block + 1..]) else Tail([], false));
      var how;
      c', how := LoadBlock(c'.(block := c'.block + 1));
      if how.AtEnd? {
        return c', End;
      } else if how.Unreadable? {
        return c', ReadError;
      }
    }
    if c'.cur[c'.slot].None? {
      return c', ReadError;
    }
    SlotThen(c');
    y := Item(c'.cur[c'.slot].value);
    c' := c'.(slot := c'.slot + 1);
  }

  lemma SlotThen<R(!new)>(c: Cursor<R>)
    requires c.slot < |c.cur| && c.cur[c.slot].Some?
    ensures Yields(Rest(c), Item(c.cur[c.slot].value), Rest(c.(slot := c.slot + 1)))
  {
    hide Stream;
    assert c.cur[c.slot..][1..] == c.cur[c.slot + 1..];
    var after := if c.block + 1 <= |c.blocks| then Stream(c.blocks[c.block + 1..]) else Tail([], false);
    var head, rest := [c.cur[c.slot].value], OfSlots(c.cur[c.slot + 1..]);
    assert head + (rest.records + after.records) == (head + rest.records) + after.records;
  }

  // ---- the merge ----

  datatype HeapItem<R> = HeapItem(rec: R, run: nat)

  /** No heap item compares below item `h`; ties are broken arbitrarily. */
  predicate Minimal<R>(le: (R, R) -> bool, heap: seq<HeapItem<R>>, h: nat) {
    h < |heap| && forall k :: 0 <= k < |heap| ==> le(heap[h].rec, heap[k].rec)
  }

  lemma {:induction false} MinimalExists<R(!new)>(le: (R, R) -> bool, heap: seq<HeapItem<R>>, s: seq<R>)
    requires heap != [] && Orders(le, s) && forall h :: 0 <= h < |heap| ==> heap[h].rec in s
    ensures exists h: nat :: Minimal(le, heap, h)
  {
    var n := |heap| - 1;
    if n == 0 {
      assert Minimal(le, heap, 0);
    } else {
      MinimalExists(le, heap[..n], s);
      var h: nat :| Minimal(le, heap[..n], h);
      var best := if le(heap[h].rec, heap[n].rec) then h else n;
      forall k | 0 <= k < |heap| ensures le(heap[best].rec, heap[k].rec) {
        if k < n {
          assert heap[..n][k] == heap[k];
          assert heap[k].rec in s;
        }
      }
      assert Minimal(le, heap, best);
    }
  }

  /** One heap item per unfinished run, holding that run's next record. */
  ghost predicate HeapOk<R(!new)>(cursors: seq<Cursor<R>>, heap: seq<HeapItem<R>>, pending: seq<seq<R>>) {
    && |pending| == |cursors|
    && (forall i :: 0 <= i < |cursors| ==> CursorOk(cursors[i]))
    && (forall h, k :: 0 <= h < k < |heap| ==> heap[h].run != heap[k].run)
    && (forall h :: 0 <= h < |heap| ==> Feeds(cursors, pending, heap[h]))
    && (forall i :: 0 <= i < |cursors| && pending[i] != [] ==> exists h :: 0 <= h < |heap| && heap[h].run == i)
  }

  ghost predicate Feeds<R(!new)>(cursors: seq<Cursor<R>>, pending: seq<seq<R>>, item: HeapItem<R>) {
    && item.run < |cursors| == |pending| && CursorOk(cursors[item.run])
    && pending[item.run] == [item.rec] + Remaining(cursors[item.run])
  }

  /** Every run is sorted and the comparator orders everything still to come. */
  ghost predicate RunsOk<R(!new)>(le: (R, R) -> bool, pending: seq<seq<R>>) {
    Orders(le, Flatten(pending)) && forall i :: 0 <= i < |pending| ==> SortedBy(le, pending[i])
  }

  lemma {:induction false} FlattenMember<R>(lists: seq<seq<R>>, i: nat, x: R)
    requires i < |lists| && x in lists[i]
    ensures x in Flatten(lists)
  {
    if i > 0 {
      FlattenMember(lists[1..], i - 1, x);
    }
  }

  lemma {:induction false} FlattenSource<R>(lists: seq<seq<R>>, x: R) returns (i: nat)
    requires x in Flatten(lists)
    ensures i < |lists| && x in lists[i]
  {
    if x in lists[0] {
      i := 0;
    } else {
      i := FlattenSource(lists[1..], x);
      i := i + 1;
    }
  }

  /** Taking the head of one list takes one occurrence out of the whole. */
  lemma {:induction false} FlattenPop<R>(lists: seq<seq<R>>, i: nat)
    requires i < |lists| && lists[i] != []
    ensures multiset(Flatten(lists)) == multiset{lists[i][0]} + multiset(Flatten(lists[i := lists[i][1..]]))
  {
    var lists' := lists[i := lists[i][1..]];
    if i == 0 {
      assert lists'[1..] == lists[1..];
      MultisetHead(lists[0]);
    } else {
      FlattenPop(lists[1..], i - 1);
      assert lists'[1..] == lists[1..][i - 1 := lists[i][1..]];
    }
  }

  /** The minimal heap record is minimal among all records still to come. */
  lemma HeapMinIsGlobalMin<R(!new)>(le: (R, R) -> bool, cursors: seq<Cursor<R>>, heap: seq<HeapItem<R>>,
                                    pending: seq<seq<R>>, h: nat, y: R)
    requires HeapOk(cursors, heap, pending) && RunsOk(le, pending) && Minimal(le, heap, h)
    requires y in Flatten(pending)
    ensures le(heap[h].rec, y)
  {
    var i := FlattenSource(pending, y);
    var k :| 0 <= k < |heap| && heap[k].run == i;
    assert Feeds(cursors, pending, heap[k]) && Feeds(cursors, pending, heap[h]);
    assert heap[k].rec == pending[i][0] && heap[h].rec == pending[heap[h].run][0];
    FlattenMember(pending, i, pending[i][0]);
    FlattenMember(pending, heap[h].run, heap[h].rec);
    var j :| 0 <= j < |pending[i]| && pending[i][j] == y;
    if j > 0 {
      assert le(pending[i][0], pending[i][j]);
    }
  }

  lemma RunsTail<R(!new)>(le: (R, R) -> bool, pending: seq<seq<R>>, i: nat, k: nat)
    requires RunsOk(le, pending) && i < |pending| && k <= |pending[i]|
    ensures RunsOk(le, pending[i := pending[i][k..]])
  {
    hide Flatten;
    var p := pending[i := pending[i][k..]];
    forall x | x in Flatten(p) ensures x in Flatten(pending) {
      var j := FlattenSource(p, x);
      FlattenMember(pending, j, x);
    }
  }

  /** Pop item `h`, then put the run's next record back, if there is one. */
  ghost function Refilled<R(!new)>(heap: seq<HeapItem<R>>, h: nat, next: Option<R>): seq<HeapItem<R>>
    requires h < |heap|
  {
    heap[..h] + heap[h + 1..] + (if next.Some? then [HeapItem(next.value, heap[h].run)] else [])
  }

  lemma RefillRuns<R(!new)>(heap: seq<HeapItem<R>>, h: nat, next: Option<R>)
    requires h < |heap| && forall a, b :: 0 <= a < b < |heap| ==> heap[a].run != heap[b].run
    ensures var q := Refilled(heap, h, next);
      && (forall a, b :: 0 <= a < b < |q| ==> q[a].run != q[b].run)
      && (forall a :: 0 <= a < |q| && q[a].run != heap[h].run ==> q[a] in heap)
      && (forall a :: 0 <= a < |q| && q[a].run == heap[h].run ==>
           next.Some? && q[a] == HeapItem(next.value, heap[h].run))
      && (forall k :: 0 <= k < |heap| && k != h ==> heap[k] in q)
      && (next.Some? ==> HeapItem(next.value, heap[h].run) in q)
  {
    var q, rest := Refilled(heap, h, next), heap[..h] + heap[h + 1..];
    assert forall a :: 0 <= a < |rest| ==> rest[a] == heap[if a < h then a else a + 1];
    forall k | 0 <= k < |heap| && k != h ensures heap[k] in q {
      assert q[if k < h then k else k - 1] == heap[k];
    }
    if next.Some? {
      assert q[|rest|] == HeapItem(next.value, heap[h].run);
    }
  }

  /** Advancing run `heap[h].run` to cursor `c` with next record `next`. */
  ghost predicate Advances<R(!new)>(cursors: seq<Cursor<R>>, run: nat, c: Cursor<R>, next: Option<R>) {
    && run < |cursors| && CursorOk(cursors[run]) && CursorOk(c)
    && (next.Some? ==> Remaining(cursors[run]) == [next.value] + Remaining(c))
    && (next.None? ==> Remaining(cursors[run]) == [] && Remaining(c) == [])
  }

  lemma RefillFeeds<R(!new)>(cursors: seq<Cursor<R>>, heap: seq<HeapItem<R>>, pending: seq<seq<R>>, h: nat,
                             c: Cursor<R>, next: Option<R>, item: HeapItem<R>)
    requires HeapOk(cursors, heap, pending) && h < |heap| && Advances(cursors, heap[h].run, c, next)
    requires item in Refilled(heap, h, next)
    ensures |pending| == |cursors| && pending[heap[h].run] != []
    ensures Feeds(cursors[heap[h].run := c], pending[heap[h].run := pending[heap[h].run][1..]], item)
  {
    hide Remaining;
    var run := heap[h].run;
    assert Feeds(cursors, pending, heap[h]);
    RefillRuns(heap, h, next);
    var q := Refilled(heap, h, next);
    var a :| 0 <= a < |q| && q[a] == item;
    if item.run != run {
      var k :| 0 <= k < |heap| && heap[k] == item;
      assert Feeds(cursors, pending, heap[k]);
    }
  }

  lemma RefillOk<R(!new)>(cursors: seq<Cursor<R>>, heap: seq<HeapItem<R>>, pending: seq<seq<R>>, h: nat, c: Cursor<R>,
                          next: Option<R>)
    requires HeapOk(cursors, heap, pending) && h < |heap| && Advances(cursors, heap[h].run, c, next)
    ensures |pending| == |cursors| && pending[heap[h].run] != []
    ensures HeapOk(cursors[heap[h].run := c], Refilled(heap, h, next),
                   pending[heap[h].run := pending[heap[h].run][1..]])
  {
    hide Remaining, Refilled;
    var run, q := heap[h].run, Refilled(heap, h, next);
    assert Feeds(cursors, pending, heap[h]);
    var cs, ps := cursors[run := c], pending[run := pending[run][1..]];
    RefillRuns(heap, h, next);
    assert ps[run] == Remaining(cursors[run]);
    forall a | 0 <= a < |q| ensures Feeds(cs, ps, q[a]) {
      RefillFeeds(cursors, heap, pending, h, c, next, q[a]);
    }
    forall i | 0 <= i < |cs| && ps[i] != [] ensures exists a :: 0 <= a < |q| && q[a].run == i {
      if i == run {
        assert HeapItem(next.value, run) in q;
      } else {
        var k :| 0 <= k < |heap| && heap[k].run == i;
        assert heap[k] in q;
      }
    }
  }

  /** A run that cannot be read on is given up: nothing feeds the heap from it any more. */
  lemma AbandonOk<R(!new)>(cursors: seq<Cursor<R>>, heap: seq<HeapItem<R>>, pending: seq<seq<R>>, h: nat)
    requires HeapOk(cursors, heap, pending) && h < |heap|
    ensures |pending| == |cursors| && heap[h].run < |pending|
    ensures HeapOk(cursors, Refilled(heap, h, None), pending[heap[h].run := []])
  {
    hide Remaining, Refilled;
    var run, q := heap[h].run, Refilled(heap, h, None);
    assert Feeds(cursors, pending, heap[h]);
    var ps := pending[run := []];
    RefillRuns(heap, h, None);
    forall a | 0 <= a < |q| ensures Feeds(cursors, ps, q[a]) {
      var k :| 0 <= k < |heap| && heap[k] == q[a];
      assert Feeds(cursors, pending, heap[k]);
    }
    forall i | 0 <= i < |cursors| && ps[i] != [] ensures exists a :: 0 <= a < |q| && q[a].run == i {
      var k :| 0 <= k < |heap| && heap[k].run == i;
      assert heap[k] in q;
    }
  }

  /** A run still to end in an error has a record to come, and its cursor knows. */
  ghost predicate FaultsOk<R(!new)>(cursors: seq<Cursor<R>>, heap: seq<HeapItem<R>>, pending: seq<seq<R>>,
                                    broken: seq<bool>) {
    && |broken| == |cursors| == |pending|
    && (forall h :: 0 <= h < |heap| ==> EndsAs(cursors, broken, heap[h].run))
    && (forall i :: 0 <= i < |broken| && broken[i] ==> pending[i] != [])
  }

  ghost predicate EndsAs<R(!new)>(cursors: seq<Cursor<R>>, broken: seq<bool>, run: nat) {
    run < |cursors| == |broken| && CursorOk(cursors[run]) && Rest(cursors[run]).broken == broken[run]
  }

  ghost function Refill<R>(y: Yield<R>): Option<R> {
    if y.Item? then Some(y.rec) else None
  }

  lemma RefillFaults<R(!new)>(cursors: seq<Cursor<R>>, heap: seq<HeapItem<R>>, pending: seq<seq<R>>, broken: seq<bool>,
                              h: nat, c: Cursor<R>, y: Yield<R>)
    requires HeapOk(cursors, heap, pending) && FaultsOk(cursors, heap, pending, broken) && h < |heap|
    requires heap[h].run < |cursors| && CursorOk(c) && CursorOk(cursors[heap[h].run])
    requires Yields(Rest(cursors[heap[h].run]), y, Rest(c)) && !y.ReadError?
    ensures |pending| == |cursors| && pending[heap[h].run] != []
    ensures FaultsOk(cursors[heap[h].run := c], Refilled(heap, h, Refill(y)),
                     pending[heap[h].run := pending[heap[h].run][1..]], broken)
  {
    hide Rest, Refilled;
    var run, q := heap[h].run, Refilled(heap, h, Refill(y));
    RefillRuns(heap, h, Refill(y));
    assert Feeds(cursors, pending, heap[h]) && EndsAs(cursors, broken, run);
    forall a | 0 <= a < |q| ensures EndsAs(cursors[run := c], broken, q[a].run) {
      if q[a].run != run {
        var k :| 0 <= k < |heap| && heap[k] == q[a];
        assert EndsAs(cursors, broken, heap[k].run);
      }
    }
  }

  lemma AbandonFaults<R(!new)>(cursors: seq<Cursor<R>>, heap: seq<HeapItem<R>>, pending: seq<seq<R>>,
                               broken: seq<bool>, h: nat)
    requires HeapOk(cursors, heap, pending) && FaultsOk(cursors, heap, pending, broken) && h < |heap|
    ensures heap[h].run < |broken| == |pending|
    ensures FaultsOk(cursors, Refilled(heap, h, None), pending[heap[h].run := []], broken[heap[h].run := false])
  {
    hide Rest, Refilled;
    var run, q := heap[h].run, Refilled(heap, h, None);
    assert EndsAs(cursors, broken, run);
    RefillRuns(heap, h, None);
    forall a | 0 <= a < |q| ensures EndsAs(cursors, broken[run := false], q[a].run) {
      var k :| 0 <= k < |heap| && heap[k] == q[a];
      assert EndsAs(cursors, broken, heap[k].run);
    }
  }

  class SortedIter<R(!new)> {
    const le: (R, R) -> bool
    var cursors: seq<Cursor<R>>
    var heap: seq<HeapItem<R>>
    ghost var pending: seq<seq<R>>    // per run, what is still to come, the heap's record first
    ghost var broken: seq<bool>       // per run, whether an error is still to come behind it

    ghost predicate Ok()
      reads this
    {
      HeapOk(cursors, heap, pending) && FaultsOk(cursors, heap, pending, broken) && RunsOk(le, pending)
    }

    constructor (le: (R, R) -> bool, cursors: seq<Cursor<R>>, heap: seq<HeapItem<R>>,
                 ghost pending: seq<seq<R>>, ghost broken: seq<bool>)
      requires HeapOk(cursors, heap, pending) && FaultsOk(cursors, heap, pending, broken) && RunsOk(le, pending)
      ensures Ok() && this.le == le && this.pending == pending && this.broken == broken
    {
      this.le, this.cursors, this.heap, this.pending, this.broken := le, cursors, heap, pending, broken;
    }

    /** The next record in key order: none is smaller among all that remain. A run that cannot be read
        on behind its last readable record costs that record, and an error is returned instead. */
    method Next() returns (r: Yield<R>)
      requires Ok()
      modifies this
      ensures Ok()
      ensures r.End? <==> old(Flatten(pending)) == []
      ensures r.End? ==> pending == old(pending)
      ensures r.Item? ==> multiset(old(Flatten(pending))) == multiset{r.rec} + multiset(Flatten(pending))
      ensures r.Item? ==> forall y :: y in old(Flatten(pending)) ==> le(r.rec, y)
      ensures !r.ReadError? ==> broken == old(broken)
      ensures r.ReadError? ==>
        exists i :: 0 <= i < |old(pending)| == |old(broken)| && Abandons(le, old(pending), i, pending)
          && old(broken)[i] && broken == old(broken)[i := false]
    {
      hide HeapOk, FaultsOk, RunsOk, Flatten, Rest, CursorOk, Minimal;
      if heap == [] {
        NothingLeft(cursors, heap, pending);
        return End;
      }
      HeapHasMinimal(le, cursors, heap, pending);
      var h: nat :| h < |heap| && Minimal(le, heap, h);
      MinimalFacts(le, cursors, heap, pending, broken, h);
      var item := heap[h];
      forall y | y in Flatten(pending) ensures le(item.rec, y) {
        HeapMinIsGlobalMin(le, cursors, heap, pending, h, y);
      }
      var c, y := NextRecord(cursors[item.run]);
      if y.ReadError? {
        AbandonOk(cursors, heap, pending, h);
        AbandonFaults(cursors, heap, pending, broken, h);
        RunsTail(le, pending, item.run, |pending[item.run]|);
        assert Abandons(le, pending, item.run, pending[item.run := []]);
        assert pending[item.run][|pending[item.run]|..] == [];
        assert heap[..h] + heap[h + 1..] + [] == heap[..h] + heap[h + 1..];
        heap := heap[..h] + heap[h + 1..];
        pending, broken := pending[item.run := []], broken[item.run := false];
        return ReadError;
      }
      RefillOk(cursors, heap, pending, h, c, Refill(y));
      RefillFaults(cursors, heap, pending, broken, h, c, y);
      FlattenPop(pending, item.run);
      RunsTail(le, pending, item.run, 1);
      heap := heap[..h] + heap[h + 1..] + (if y.Item? then [HeapItem(y.rec, item.run)] else []);
      cursors := cursors[item.run := c];
      pending := pending[item.run := pending[item.run][1..]];
      r := Item(item.rec);
    }
  }

  /** Run `i`, whose next record was a smallest one, is given up. */
  ghost predicate Abandons<R(!new)>(le: (R, R) -> bool, before: seq<seq<R>>, i: nat, after: seq<seq<R>>)
    requires i < |before|
  {
    before[i] != [] && after == before[i := []] && forall y :: y in Flatten(before) ==> le(before[i][0], y)
  }

  lemma NothingLeft<R(!new)>(cursors: seq<Cursor<R>>, heap: seq<HeapItem<R>>, pending: seq<seq<R>>)
    requires HeapOk(cursors, heap, pending) && heap == []
    ensures Flatten(pending) == []
  {
    if Flatten(pending) != [] {
      var i := FlattenSource(pending, Flatten(pending)[0]);
    }
  }

  lemma HeapHasMinimal<R(!new)>(le: (R, R) -> bool, cursors: seq<Cursor<R>>, heap: seq<HeapItem<R>>,
                                pending: seq<seq<R>>)
    requires HeapOk(cursors, heap, pending) && RunsOk(le, pending) && heap != []
    ensures exists h: nat :: h < |heap| && Minimal(le, heap, h)
  {
    forall h | 0 <= h < |heap| ensures heap[h].rec in Flatten(pending) {
      assert Feeds(cursors, pending, heap[h]);
      FlattenMember(pending, heap[h].run, heap[h].rec);
    }
    MinimalExists(le, heap, Flatten(pending));
  }

  lemma MinimalFacts<R(!new)>(le: (R, R) -> bool, cursors: seq<Cursor<R>>, heap: seq<HeapItem<R>>,
                              pending: seq<seq<R>>, broken: seq<bool>, h: nat)
    requires HeapOk(cursors, heap, pending) && FaultsOk(cursors, heap, pending, broken) && Minimal(le, heap, h)
    ensures h < |heap| && heap[h].run < |cursors| == |pending| == |broken| && CursorOk(cursors[heap[h].run])
    ensures pending[heap[h].run] == [heap[h].rec] + Remaining(cursors[heap[h].run])
    ensures Rest(cursors[heap[h].run]).broken == broken[heap[h].run]
    ensures heap[h].rec in Flatten(pending) && Flatten(pending) != []
  {
    assert Feeds(cursors, pending, heap[h]) && EndsAs(cursors, broken, heap[h].run);
    FlattenMember(pending, heap[h].run, heap[h].rec);
  }

  /** Each run's readable records. */
  ghost function Lists<R>(runs: seq<seq<Block<R>>>): (f: seq<seq<R>>)
    ensures |f| == |runs|
  {
    seq(|runs|, i requires 0 <= i < |runs| => Stream(runs[i]).records)
  }

  ghost function Faults<R>(runs: seq<seq<Block<R>>>): (f: seq<bool>)
    ensures |f| == |runs|
  {
    seq(|runs|, i requires 0 <= i < |runs| => Stream(runs[i]).broken)
  }

  method OpenRun<R(!new)>(run: seq<Block<R>>) returns (c: Cursor<R>, first: Yield<R>)
    ensures CursorOk(c) && Yields(Stream(run), first, Rest(c))
  {
    c := Cursor(run, 0, 0, []);
    var how;
    c, how := LoadBlock(c);
    assert run[0..] == run;
    if how.Unreadable? {
      return c, ReadError;
    }
    c, first := NextRecord(c);
  }

  /** Open every run and prime the heap with its first record; a run whose first record cannot be
      read fails the whole. */
  method OpenRuns<R(!new)>(runs: seq<seq<Block<R>>>) returns (cs: seq<Cursor<R>>, hp: seq<HeapItem<R>>, ok: bool)
    ensures ok <==> forall i :: 0 <= i < |runs| ==> Stream(runs[i]) != Tail([], true)
    ensures ok ==> HeapOk(cs, hp, Lists(runs)) && FaultsOk(cs, hp, Lists(runs), Faults(runs))
  {
    hide HeapOk, FaultsOk, Stream, Rest, CursorOk;
    cs, hp := [], [];
    NothingOpen<R>(runs);
    for i := 0 to |runs|
      invariant |cs| == i && forall h :: 0 <= h < |hp| ==> hp[h].run < i
      invariant forall k :: 0 <= k < i ==> Stream(runs[k]) != Tail([], true)
      invariant HeapOk(cs, hp, Lists(runs[..i])) && FaultsOk(cs, hp, Lists(runs[..i]), Faults(runs[..i]))
    {
      var c, first := OpenRun(runs[i]);
      if first.ReadError? {
        return cs, hp, false;
      }
      PrimeOk(cs, hp, runs, i, c, first);
      if first.Item? {
        hp := hp + [HeapItem(first.rec, i)];
      }
      cs := cs + [c];
    }
    assert runs[..|runs|] == runs;
    ok := true;
  }

  lemma NothingOpen<R(!new)>(runs: seq<seq<Block<R>>>)
    ensures HeapOk<R>([], [], Lists(runs[..0])) && FaultsOk<R>([], [], Lists(runs[..0]), Faults(runs[..0]))
  {
  }

  lemma PrimeOk<R(!new)>(cs: seq<Cursor<R>>, hp: seq<HeapItem<R>>, runs: seq<seq<Block<R>>>, i: nat, c: Cursor<R>,
                         first: Yield<R>)
    requires i < |runs| && HeapOk(cs, hp, Lists(runs[..i])) && forall h :: 0 <= h < |hp| ==> hp[h].run < i
    requires FaultsOk(cs, hp, Lists(runs[..i]), Faults(runs[..i]))
    requires CursorOk(c) && !first.ReadError? && Yields(Stream(runs[i]), first, Rest(c))
    ensures var hp' := if first.Item? then hp + [HeapItem(first.rec, i)] else hp;
      && HeapOk(cs + [c], hp', Lists(runs[..i + 1]))
      && FaultsOk(cs + [c], hp', Lists(runs[..i + 1]), Faults(runs[..i + 1]))
  {
    hide Rest, Stream;
    var ps, bs := Lists(runs[..i]), Faults(runs[..i]);
    assert Lists(runs[..i + 1]) == ps + [Stream(runs[i]).records];
    assert Faults(runs[..i + 1]) == bs + [Stream(runs[i]).broken];
    if first.Item? {
      PrimeRun(cs, hp, ps, c, first.rec);
    } else {
      PrimeEmpty(cs, hp, ps, c);
    }
    PrimeFaults(cs, hp, ps, bs, c, first, Stream(runs[i]));
  }

  lemma PrimeFaults<R(!new)>(cs: seq<Cursor<R>>, hp: seq<HeapItem<R>>, ps: seq<seq<R>>, bs: seq<bool>, c: Cursor<R>,
                             first: Yield<R>, t: Tail<R>)
    requires FaultsOk(cs, hp, ps, bs) && CursorOk(c) && !first.ReadError? && Yields(t, first, Rest(c))
    ensures FaultsOk(cs + [c], if first.Item? then hp + [HeapItem(first.rec, |cs|)] else hp,
                     ps + [t.records], bs + [t.broken])
  {
    hide Rest;
    var hp' := if first.Item? then hp + [HeapItem(first.rec, |cs|)] else hp;
    forall h | 0 <= h < |hp'| ensures EndsAs(cs + [c], bs + [t.broken], hp'[h].run) {
      if h < |hp| {
        assert EndsAs(cs, bs, hp[h].run);
      }
    }
  }

  lemma FeedsMore<R(!new)>(cs: seq<Cursor<R>>, ps: seq<seq<R>>, item: HeapItem<R>, c: Cursor<R>, p: seq<R>)
    requires Feeds(cs, ps, item)
    ensures Feeds(cs + [c], ps + [p], item)
  {
    hide Remaining;
  }

  lemma PrimeEmpty<R(!new)>(cs: seq<Cursor<R>>, hp: seq<HeapItem<R>>, ps: seq<seq<R>>, c: Cursor<R>)
    requires HeapOk(cs, hp, ps) && CursorOk(c) && Remaining(c) == []
    ensures HeapOk(cs + [c], hp, ps + [[]])
  {
    hide Remaining, Feeds;
    forall h | 0 <= h < |hp| ensures Feeds(cs + [c], ps + [[]], hp[h]) {
      FeedsMore(cs, ps, hp[h], c, []);
    }
  }

  lemma PrimeRun<R(!new)>(cs: seq<Cursor<R>>, hp: seq<HeapItem<R>>, ps: seq<seq<R>>, c: Cursor<R>, first: R)
    requires HeapOk(cs, hp, ps) && CursorOk(c) && |ps| == |cs| && forall h :: 0 <= h < |hp| ==> hp[h].run < |cs|
    ensures HeapOk(cs + [c], hp + [HeapItem(first, |cs|)], ps + [[first] + Remaining(c)])
  {
    hide Remaining;
    var i := |cs|;
    var cs', ps', hp' := cs + [c], ps + [[first] + Remaining(c)], hp + [HeapItem(first, i)];
    assert cs'[i] == c && ps'[i] == [first] + Remaining(c);
    forall h | 0 <= h < |hp'| ensures Feeds(cs', ps', hp'[h]) {
      if h < |hp| {
        FeedsMore(cs, ps, hp[h], c, [first] + Remaining(c));
      }
    }
    forall j | 0 <= j < |cs'| && ps'[j] != [] ensures exists h :: 0 <= h < |hp'| && hp'[h].run == j {
      if j < i {
        assert ps[j] != [];
        var h :| 0 <= h < |hp| && hp[h].run == j;
        assert hp'[h].run == j;
      } else {
        assert hp'[|hp|].run == i;
      }
    }
  }

  /** Drain the merge: it succeeds exactly when every run reads to its end, and then gives a sorted
      permutation of the records of all runs, for any runs, any cut of a run into blocks and any way
      of breaking ties. */
  method Merge<R(!new)>(le: (R, R) -> bool, runs: seq<seq<Block<R>>>) returns (merged: Option<seq<R>>)
    requires Orders(le, Flatten(Lists(runs))) && forall i :: 0 <= i < |runs| ==> SortedBy(le, Stream(runs[i]).records)
    ensures merged.Some? <==> forall i :: 0 <= i < |runs| ==> !Stream(runs[i]).broken
    ensures merged.Some? ==> SortedBy(le, merged.value) && multiset(merged.value) == multiset(Flatten(Lists(runs)))
  {
    hide Flatten, HeapOk, RunsOk, FaultsOk, Stream;
    var cs, hp, ok := OpenRuns(runs);
    if !ok {
      ghost var i :| 0 <= i < |runs| && Stream(runs[i]) == Tail([], true);
      return None;
    }
    assert RunsOk(le, Lists(runs)) by { ListsOk(le, runs); }
    var it := new SortedIter<R>(le, cs, hp, Lists(runs), Faults(runs));
    var out: seq<R> := [];
    while true
      invariant it.Ok() && it.le == le && fresh(it) && it.broken == Faults(runs)
      invariant multiset(out) + multiset(Flatten(it.pending)) == multiset(Flatten(Lists(runs)))
      invariant Below(le, out, Flatten(it.pending))
      decreases |Flatten(it.pending)|
    {
      ghost var before, faults := Flatten(it.pending), it.broken;
      var r := it.Next();
      if r.End? {
        break;
      }
      if r.ReadError? {
        ghost var i :| 0 <= i < |faults| && faults[i];
        assert Stream(runs[i]).broken;
        return None;
      }
      Emitted(le, out, r.rec, before, Flatten(it.pending));
      out := out + [r.rec];
    }
    NoneBroken(it.cursors, it.heap, it.pending, it.broken);
    forall i | 0 <= i < |runs| ensures !Stream(runs[i]).broken {
      assert !it.broken[i];
    }
    merged := Some(out);
  }

  /** In key order, and nothing still to come is smaller. */
  ghost predicate Below<R(!new)>(le: (R, R) -> bool, out: seq<R>, rest: seq<R>) {
    SortedBy(le, out) && forall x, y :: x in out && y in rest ==> le(x, y)
  }

  lemma Emitted<R(!new)>(le: (R, R) -> bool, out: seq<R>, r: R, before: seq<R>, after: seq<R>)
    requires Below(le, out, before) && multiset(before) == multiset{r} + multiset(after)
    requires forall y :: y in before ==> le(r, y)
    ensures Below(le, out + [r], after) && |after| < |before|
  {
    assert |multiset(before)| == |before| && |multiset(after)| == |after|;
    assert r in multiset(before);
    forall y | y in after ensures y in before {
      assert y in multiset(after);
      assert y in multiset(before);
    }
  }

  lemma ListsOk<R(!new)>(le: (R, R) -> bool, runs: seq<seq<Block<R>>>)
    requires Orders(le, Flatten(Lists(runs))) && forall i :: 0 <= i < |runs| ==> SortedBy(le, Stream(runs[i]).records)
    ensures RunsOk(le, Lists(runs))
  {
  }

  /** Once all is drained no error is still to come. */
  lemma NoneBroken<R(!new)>(cursors: seq<Cursor<R>>, heap: seq<HeapItem<R>>, pending: seq<seq<R>>, broken: seq<bool>)
    requires FaultsOk(cursors, heap, pending, broken) && Flatten(pending) == []
    ensures forall i :: 0 <= i < |broken| ==> !broken[i]
  {
    hide Flatten, Rest;
    forall i | 0 <= i < |broken| ensures !broken[i] {
      AllEmpty(pending, i);
    }
  }

  lemma {:induction false} AllEmpty<R>(lists: seq<seq<R>>, i: nat)
    requires Flatten(lists) == [] && i < |lists|
    ensures lists[i] == []
  {
    assert Flatten(lists) == lists[0] + Flatten(lists[1..]);
    if i > 0 {
      AllEmpty(lists[1..], i - 1);
    }
  }

  // ---- sorting a buffer ----

  /** Insert behind everything that does not come after `x`. */
  function Insert<R>(le: (R, R) -> bool, s: seq<R>, x: R): seq<R> {
    if s == [] then [x]
    else
      var n := |s| - 1;
      if le(s[n], x) then s + [x] else Insert(le, s[..n], x) + [s[n]]
  }

  /** The buffer in key order, ties in the order they were pushed. */
  function Sorted<R>(le: (R, R) -> bool, buf: seq<R>): seq<R> {
    if buf == [] then [] else Insert(le, Sorted(le, buf[..|buf| - 1]), buf[|buf| - 1])
  }

  method InsertSorted<R(!new)>(le: (R, R) -> bool, s: seq<R>, x: R) returns (t: seq<R>)
    ensures t == Insert(le, s, x)
  {
    var k := |s|;
    assert s[..k] == s && s[k..] == [];
    while k > 0 && !le(s[k - 1], x)
      invariant 0 <= k <= |s|
      invariant Insert(le, s, x) == Insert(le, s[..k], x) + s[k..]
    {
      assert s[..k][..k - 1] == s[..k - 1] && [s[k - 1]] + s[k..] == s[k - 1..];
      k := k - 1;
    }
    t := s[..k] + [x] + s[k..];
  }

  /** Sort a full buffer. */
  method SortBuffer<R(!new)>(le: (R, R) -> bool, buf: seq<R>) returns (sorted: seq<R>)
    ensures sorted == Sorted(le, buf)
  {
    hide Insert;
    sorted := [];
    for i := 0 to |buf|
      invariant sorted == Sorted(le, buf[..i])
    {
      assert buf[..i + 1][..i] == buf[..i];
      sorted := InsertSorted(le, sorted, buf[i]);
    }
    assert buf[..|buf|] == buf;
  }

  /** The comparator orders fewer records too. */
  lemma OrdersSome<R(!new)>(le: (R, R) -> bool, s: seq<R>, t: seq<R>)
    requires Orders(le, s) && forall x :: x in t ==> x in s
    ensures Orders(le, t)
  {
  }

  lemma SameMembers<R(!new)>(s: seq<R>, t: seq<R>)
    requires multiset(t) <= multiset(s)
    ensures forall x :: x in t ==> x in s
  {
    forall x | x in t ensures x in s {
      assert x in multiset(t);
      assert x in multiset(s);
    }
  }

  lemma SortedSnoc<R(!new)>(le: (R, R) -> bool, s: seq<R>, x: R)
    requires SortedBy(le, s) && forall y :: y in s ==> le(y, x)
    ensures SortedBy(le, s + [x])
  {
  }

  lemma {:induction false} InsertSorts<R(!new)>(le: (R, R) -> bool, s: seq<R>, x: R)
    requires SortedBy(le, s) && Orders(le, s + [x])
    ensures SortedBy(le, Insert(le, s, x)) && multiset(Insert(le, s, x)) == multiset(s + [x])
  {
    if s != [] {
      var n := |s| - 1;
      assert s == s[..n] + [s[n]];
      if le(s[n], x) {
        AllBelow(le, s, x);
        SortedSnoc(le, s, x);
      } else {
        OrdersSome(le, s + [x], s[..n] + [x]);
        InsertSorts(le, s[..n], x);
        SameMembers(s[..n] + [x], Insert(le, s[..n], x));
        LastAbove(le, s, x, Insert(le, s[..n], x));
        SortedSnoc(le, Insert(le, s[..n], x), s[n]);
      }
    }
  }

  lemma AllBelow<R(!new)>(le: (R, R) -> bool, s: seq<R>, x: R)
    requires SortedBy(le, s) && Orders(le, s + [x]) && s != [] && le(s[|s| - 1], x)
    ensures forall y :: y in s ==> le(y, x)
  {
    var last := s[|s| - 1];
    assert last in s + [x] && x in s + [x];
    forall y | y in s ensures le(y, x) {
      var i :| 0 <= i < |s| && s[i] == y;
      assert y in s + [x] && (i < |s| - 1 ==> le(s[i], last));
    }
  }

  lemma LastAbove<R(!new)>(le: (R, R) -> bool, s: seq<R>, x: R, t: seq<R>)
    requires SortedBy(le, s) && Orders(le, s + [x]) && s != [] && !le(s[|s| - 1], x)
    requires forall y :: y in t ==> y in s[..|s| - 1] + [x]
    ensures forall y :: y in t ==> le(y, s[|s| - 1])
  {
    var n := |s| - 1;
    assert s[n] in s + [x] && x in s + [x];
    forall y | y in t ensures le(y, s[n]) {
      if y in s[..n] {
        var i :| 0 <= i < n && s[i] == y;
      }
    }
  }

  /** Sorting a buffer gives a sorted permutation of it, */
  lemma {:induction false} SortedSorts<R(!new)>(le: (R, R) -> bool, buf: seq<R>)
    requires Orders(le, buf)
    ensures SortedBy(le, Sorted(le, buf)) && multiset(Sorted(le, buf)) == multiset(buf)
  {
    if buf != [] {
      var n := |buf| - 1;
      assert buf == buf[..n] + [buf[n]];
      OrdersSome(le, buf, buf[..n]);
      SortedSorts(le, buf[..n]);
      SameMembers(buf[..n], Sorted(le, buf[..n]));
      OrdersSome(le, buf, Sorted(le, buf[..n]) + [buf[n]]);
      InsertSorts(le, Sorted(le, buf[..n]), buf[n]);
    }
  }

  /** The records that tie with `x`, in order. */
  function Tied<R>(le: (R, R) -> bool, s: seq<R>, x: R): seq<R> {
    if s == [] then []
    else
      var n := |s| - 1;
      Tied(le, s[..n], x) + (if le(x, s[n]) && le(s[n], x) then [s[n]] else [])
  }

  lemma TiedSnoc<R(!new)>(le: (R, R) -> bool, s: seq<R>, y: R, x: R)
    ensures Tied(le, s + [y], x) == Tied(le, s, x) + (if le(x, y) && le(y, x) then [y] else [])
  {
    assert (s + [y])[..|s|] == s;
  }

  lemma {:induction false} InsertStable<R(!new)>(le: (R, R) -> bool, s: seq<R>, y: R, x: R)
    requires Orders(le, s + [y, x])
    ensures Tied(le, Insert(le, s, y), x) == Tied(le, s + [y], x)
  {
    hide Tied, Orders;
    if s == [] {
      assert s + [y] == [y];
    } else if !le(s[|s| - 1], y) {
      var n := |s| - 1;
      assert s[..n] + [s[n]] == s;
      OrdersSome(le, s + [y, x], s[..n] + [y, x]);
      InsertStable(le, s[..n], y, x);
      NotBothTied(le, s, y, x);
      TiedSnoc(le, Insert(le, s[..n], y), s[n], x);
      TiedSnoc(le, s[..n], y, x);
      TiedSnoc(le, s[..n], s[n], x);
      TiedSnoc(le, s, y, x);
    }
  }

  lemma NotBothTied<R(!new)>(le: (R, R) -> bool, s: seq<R>, y: R, x: R)
    requires Orders(le, s + [y, x]) && s != [] && !le(s[|s| - 1], y)
    ensures !(le(x, y) && le(y, x) && le(x, s[|s| - 1]) && le(s[|s| - 1], x))
  {
    var last, all := s[|s| - 1], s + [y, x];
    assert last in all && y in all && x in all;
  }

  /** and keeps ties in the order they were pushed. */
  lemma {:induction false} SortedStable<R(!new)>(le: (R, R) -> bool, buf: seq<R>, x: R)
    requires Orders(le, buf + [x])
    ensures Tied(le, Sorted(le, buf), x) == Tied(le, buf, x)
  {
    if buf != [] {
      var n := |buf| - 1;
      var front := Sorted(le, buf[..n]);
      assert buf == buf[..n] + [buf[n]];
      OrdersSome(le, buf + [x], buf[..n] + [x]);
      OrdersSome(le, buf + [x], buf[..n]);
      SortedStable(le, buf[..n], x);
      SortedSorts(le, buf[..n]);
      SameMembers(buf[..n], front);
      OrdersSome(le, buf + [x], front + [buf[n], x]);
      InsertStable(le, front, buf[n], x);
      TiedSnoc(le, front, buf[n], x);
      TiedSnoc(le, buf[..n], buf[n], x);
    }
  }

  /** With a key that never ties two different records the output is a function of what was
      pushed: two sorts of the same records agree, however each was buffered and scheduled. */
  lemma OutputIsUnique<R(!new)>(le: (R, R) -> bool, input: seq<R>, input': seq<R>, out: seq<R>, out': seq<R>)
    requires multiset(input) == multiset(input')
    requires SortedBy(le, out) && multiset(out) == multiset(input)
    requires SortedBy(le, out') && multiset(out') == multiset(input')
    requires forall x, y :: x in input && y in input && le(x, y) && le(y, x) ==> x == y
    ensures out == out'
  {
    forall x | x in out ensures x in input {
      assert x in multiset(out);
    }
    SortedUnique(le, out, out');
  }
}

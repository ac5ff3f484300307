/** Sequence helpers shared by every module: concatenation of blocks, prefix sums,
    sortedness, and the position where a partitioned sequence changes over. */
module Collections {

  datatype Option<+T> = None | Some(value: T)

  /** The elements of a sequence of blocks, in order. */
  function Flatten<T>(blocks: seq<seq<T>>): seq<T> {
    if blocks == [] then [] else blocks[0] + Flatten(blocks[1..])
  }

  lemma {:induction false} FlattenConcat<T>(a: seq<seq<T>>, b: seq<seq<T>>)
    ensures Flatten(a + b) == Flatten(a) + Flatten(b)
  {
    if a == [] {
      assert a + b == b;
    } else {
      assert (a + b)[1..] == a[1..] + b;
      FlattenConcat(a[1..], b);
    }
  }

  lemma FlattenSnoc<T>(a: seq<seq<T>>, x: seq<T>)
    ensures Flatten(a + [x]) == Flatten(a) + x
  {
    FlattenConcat(a, [x]);
    assert Flatten([x]) == x + Flatten<T>([]);
  }

  lemma FlattenPrefix<T>(a: seq<seq<T>>, i: nat)
    requires i < |a|
    ensures Flatten(a[..i + 1]) == Flatten(a[..i]) + a[i]
  {
    assert a[..i + 1] == a[..i] + [a[i]];
    FlattenSnoc(a[..i], a[i]);
  }

  lemma SliceOfDrop<T>(s: seq<T>, a: nat, lo: nat, hi: nat)
    requires lo <= hi && a + hi <= |s|
    ensures s[a..][lo..hi] == s[a + lo..a + hi]
  {
  }

  function Sum(s: seq<nat>): nat {
    if s == [] then 0 else s[0] + Sum(s[1..])
  }

  lemma {:induction false} SumConcat(a: seq<nat>, b: seq<nat>)
    ensures Sum(a + b) == Sum(a) + Sum(b)
  {
    if a == [] {
      assert a + b == b;
    } else {
      assert (a + b)[1..] == a[1..] + b;
      SumConcat(a[1..], b);
    }
  }

  lemma SumSnoc(a: seq<nat>, x: nat)
    ensures Sum(a + [x]) == Sum(a) + x
  {
    SumConcat(a, [x]);
    assert Sum([x]) == x + Sum([]);
  }

  /** Prefix sums grow by one element at a time, and never decrease. */
  lemma SumPrefix(s: seq<nat>, i: nat)
    requires i < |s|
    ensures Sum(s[..i + 1]) == Sum(s[..i]) + s[i]
  {
    assert s[..i + 1] == s[..i] + [s[i]];
    SumSnoc(s[..i], s[i]);
  }

  lemma SumMonotone(s: seq<nat>, i: nat, j: nat)
    requires i <= j <= |s|
    ensures Sum(s[..i]) <= Sum(s[..j])
  {
    assert s[..j] == s[..i] + s[i..j];
    SumConcat(s[..i], s[i..j]);
  }

  lemma {:induction false} FlattenLength<T>(blocks: seq<seq<T>>, lens: seq<nat>)
    requires |lens| == |blocks|
    requires forall i :: 0 <= i < |blocks| ==> lens[i] == |blocks[i]|
    ensures |Flatten(blocks)| == Sum(lens)
  {
    if blocks != [] {
      FlattenLength(blocks[1..], lens[1..]);
    }
  }

  /** Rust's `partition_point`: the number of leading elements that satisfy `p`. */
  function PartitionPoint<T>(s: seq<T>, p: T -> bool): (i: nat)
    ensures i <= |s|
    ensures forall j :: 0 <= j < i ==> p(s[j])
    ensures i < |s| ==> !p(s[i])
  {
    if s == [] || !p(s[0]) then 0
    else
      var r := PartitionPoint(s[1..], p);
      assert forall j :: 0 < j < 1 + r ==> p(s[j]) by {
        forall j | 0 < j < 1 + r ensures p(s[j]) { assert s[j] == s[1..][j - 1]; }
      }
      1 + r
  }

  /** Where a binary search stops, from the outcomes of its test at every index. */
  type Search = seq<bool> -> nat

  /** Where the outcomes turn from true to false just once, a search stops there. Elsewhere it may
      stop anywhere. */
  ghost predicate Searches(find: Search) {
    forall flags: seq<bool> :: Partitioned(flags) ==> Stops(flags, find(flags))
  }

  ghost predicate Partitioned(flags: seq<bool>) {
    forall i, j :: 0 <= i < j < |flags| && flags[j] ==> flags[i]
  }

  ghost predicate Stops(flags: seq<bool>, n: nat) {
    n <= |flags| && (forall i :: 0 <= i < n ==> flags[i]) && (n < |flags| ==> !flags[n])
  }

  function Point<T>(find: Search, s: seq<T>, p: T -> bool): (n: nat)
    ensures n <= |s|
  {
    var n := find(seq(|s|, i requires 0 <= i < |s| => p(s[i])));
    if n <= |s| then n else |s|
  }

  /** On a sequence the test partitions, the search finds the change-over. */
  lemma PointStops<T>(find: Search, s: seq<T>, p: T -> bool)
    requires Searches(find) && forall i, j :: 0 <= i < j < |s| && p(s[j]) ==> p(s[i])
    ensures forall i :: 0 <= i < Point(find, s, p) ==> p(s[i])
    ensures Point(find, s, p) < |s| ==> !p(s[Point(find, s, p)])
  {
    var flags := seq(|s|, i requires 0 <= i < |s| => p(s[i]));
    assert Partitioned(flags);
    assert Stops(flags, find(flags));
    forall i | 0 <= i < Point(find, s, p) ensures p(s[i]) {
      assert flags[i];
    }
  }

  /** Counting the leading elements is such a search. */
  lemma CountingSearches()
    ensures Searches((flags: seq<bool>) => PartitionPoint(flags, b => b))
  {
  }

  /** The elements of block `b` sit behind those of the blocks before it. */
  lemma ElementAt<T>(blocks: seq<seq<T>>, b: nat, slot: nat)
    requires b < |blocks| && slot < |blocks[b]|
    ensures |Flatten(blocks[..b])| + slot < |Flatten(blocks)|
    ensures Flatten(blocks)[|Flatten(blocks[..b])| + slot] == blocks[b][slot]
  {
    assert blocks == blocks[..b] + [blocks[b]] + blocks[b + 1..];
    FlattenConcat(blocks[..b] + [blocks[b]], blocks[b + 1..]);
    FlattenSnoc(blocks[..b], blocks[b]);
  }

  predicate Distinct<T(==)>(s: seq<T>) {
    forall i, j :: 0 <= i < j < |s| ==> s[i] != s[j]
  }

  predicate Ascending(s: seq<nat>) {
    forall i, j :: 0 <= i < j < |s| ==> s[i] <= s[j]
  }

  predicate StrictlyAscending(s: seq<nat>) {
    forall i, j :: 0 <= i < j < |s| ==> s[i] < s[j]
  }

  /** The sum of `f` over a sequence. */
  function Tally<T>(s: seq<T>, f: T -> int): int {
    if s == [] then 0 else Tally(s[..|s| - 1], f) + f(s[|s| - 1])
  }

  lemma TallySnoc<T>(s: seq<T>, x: T, f: T -> int)
    ensures Tally(s + [x], f) == Tally(s, f) + f(x)
  {
    assert (s + [x])[..|s|] == s;
  }

  lemma {:induction false} TallySet<T>(s: seq<T>, i: nat, x: T, f: T -> int)
    requires i < |s|
    ensures Tally(s[i := x], f) == Tally(s, f) - f(s[i]) + f(x)
  {
    var n := |s| - 1;
    if i < n {
      TallySet(s[..n], i, x, f);
      assert s[i := x][..n] == s[..n][i := x];
    } else {
      assert s[i := x][..n] == s[..n];
    }
  }

  lemma {:induction false} TallyZero<T>(s: seq<T>, f: T -> int)
    requires forall i :: 0 <= i < |s| ==> f(s[i]) == 0
    ensures Tally(s, f) == 0
  {
    if s != [] {
      TallyZero(s[..|s| - 1], f);
    }
  }

  lemma {:induction false} TallyBelow<T>(s: seq<T>, f: T -> int, g: T -> int)
    requires forall i :: 0 <= i < |s| ==> f(s[i]) <= g(s[i])
    ensures Tally(s, f) <= Tally(s, g)
  {
    if s != [] {
      TallyBelow(s[..|s| - 1], f, g);
    }
  }

  lemma {:induction false} TallyPlus<T>(s: seq<T>, f: T -> int, g: T -> int, h: T -> int)
    requires forall i :: 0 <= i < |s| ==> f(s[i]) == g(s[i]) + h(s[i])
    ensures Tally(s, f) == Tally(s, g) + Tally(s, h)
  {
    if s != [] {
      TallyPlus(s[..|s| - 1], f, g, h);
    }
  }

  lemma {:induction false} TallySame<T>(s: seq<T>, t: seq<T>, f: T -> int)
    requires |s| == |t| && forall i :: 0 <= i < |s| ==> f(s[i]) == f(t[i])
    ensures Tally(s, f) == Tally(t, f)
  {
    if s != [] {
      TallySame(s[..|s| - 1], t[..|t| - 1], f);
    }
  }

  lemma {:induction false} TallyAtMostLength<T>(s: seq<T>, f: T -> int)
    requires forall i :: 0 <= i < |s| ==> 0 <= f(s[i]) <= 1
    ensures 0 <= Tally(s, f) <= |s|
  {
    if s != [] {
      TallyAtMostLength(s[..|s| - 1], f);
    }
  }
}

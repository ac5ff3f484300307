/** Sorted sequences over a caller's comparator, and sorted id lists. */
module Sorting {
  import opened Collections

  ghost predicate SortedBy<T(!new)>(le: (T, T) -> bool, s: seq<T>) {
    forall i, j :: 0 <= i < j < |s| ==> le(s[i], s[j])
  }

  lemma MultisetHead<T>(s: seq<T>)
    requires s != []
    ensures multiset(s) == multiset{s[0]} + multiset(s[1..])
  {
    assert s == [s[0]] + s[1..];
  }

  lemma MultisetIndex<T>(s: seq<T>, x: T) returns (i: nat)
    requires x in multiset(s)
    ensures i < |s| && s[i] == x
  {
    assert x in s;
    i :| 0 <= i < |s| && s[i] == x;
  }

  /** Under a comparator that never ties two different elements, a multiset has one sorted
      arrangement. */
  lemma {:induction false} SortedUnique<T(!new)>(le: (T, T) -> bool, a: seq<T>, b: seq<T>)
    requires SortedBy(le, a) && SortedBy(le, b) && multiset(a) == multiset(b)
    requires forall x, y :: x in a && y in a && le(x, y) && le(y, x) ==> x == y
    ensures a == b
  {
    assert |a| == |multiset(a)| == |multiset(b)| == |b|;
    if a != [] {
      SameHead(le, a, b);
      MultisetHead(a);
      MultisetHead(b);
      Cancel(multiset(a[1..]), multiset(b[1..]), a[0]);
      SortedUnique(le, a[1..], b[1..]);
      assert a == [a[0]] + a[1..];
    }
  }

  lemma SameHead<T(!new)>(le: (T, T) -> bool, a: seq<T>, b: seq<T>)
    requires SortedBy(le, a) && SortedBy(le, b) && multiset(a) == multiset(b) && a != [] && b != []
    requires forall x, y :: x in a && y in a && le(x, y) && le(y, x) ==> x == y
    ensures a[0] == b[0]
  {
    assert a[0] in multiset(b) && b[0] in multiset(a);
    var j := MultisetIndex(b, a[0]);
    var i := MultisetIndex(a, b[0]);
  }

  lemma Cancel<T>(a: multiset<T>, b: multiset<T>, x: T)
    requires multiset{x} + a == multiset{x} + b
    ensures a == b
  {
    forall y ensures a[y] == b[y] {
      assert (multiset{x} + a)[y] == (multiset{x} + b)[y];
    }
  }

  function NatLe(): (nat, nat) -> bool {
    (x: nat, y: nat) => x <= y
  }

  function InsertId(x: nat, s: seq<nat>): seq<nat> {
    if s == [] || x <= s[0] then [x] + s else [s[0]] + InsertId(x, s[1..])
  }

  /** `sort_unstable` on ids. */
  function SortIds(s: seq<nat>): seq<nat> {
    if s == [] then [] else InsertId(s[0], SortIds(s[1..]))
  }

  lemma ConsAscending(x: nat, s: seq<nat>)
    requires Ascending(s) && forall y :: y in s ==> x <= y
    ensures Ascending([x] + s)
  {
    var r := [x] + s;
    forall i, j | 0 <= i < j < |r| ensures r[i] <= r[j] {
      assert r[j] == s[j - 1] && s[j - 1] in s;
    }
  }

  lemma ConsStrict(x: nat, s: seq<nat>)
    requires StrictlyAscending(s) && forall y :: y in s ==> x < y
    ensures StrictlyAscending([x] + s)
  {
    var r := [x] + s;
    forall i, j | 0 <= i < j < |r| ensures r[i] < r[j] {
      assert r[j] == s[j - 1] && s[j - 1] in s;
    }
  }

  lemma {:induction false} InsertIdSorts(x: nat, s: seq<nat>)
    requires Ascending(s)
    ensures Ascending(InsertId(x, s)) && multiset(InsertId(x, s)) == multiset{x} + multiset(s)
  {
    if s == [] || x <= s[0] {
      ConsAscending(x, s);
    } else {
      InsertIdSorts(x, s[1..]);
      MultisetHead(s);
      var r := InsertId(x, s[1..]);
      InsertedAbove(s[0], x, s[1..], r);
      ConsAscending(s[0], r);
      assert multiset([s[0]] + r) == multiset{s[0]} + multiset(r);
    }
  }

  lemma InsertedAbove(low: nat, x: nat, s: seq<nat>, r: seq<nat>)
    requires multiset(r) == multiset{x} + multiset(s) && low <= x && forall y :: y in s ==> low <= y
    ensures forall y :: y in r ==> low <= y
  {
    forall y | y in r ensures low <= y {
      assert y in multiset(r);
      if y != x {
        assert y in multiset(s);
        assert y in s;
      }
    }
  }

  lemma {:induction false} SortIdsSorts(s: seq<nat>)
    ensures Ascending(SortIds(s)) && multiset(SortIds(s)) == multiset(s)
  {
    if s != [] {
      SortIdsSorts(s[1..]);
      InsertIdSorts(s[0], SortIds(s[1..]));
      MultisetHead(s);
    }
  }

  /** The sorted id list depends only on which ids were collected, not in what order. */
  lemma SortIdsStable(a: seq<nat>, b: seq<nat>)
    requires multiset(a) == multiset(b)
    ensures SortIds(a) == SortIds(b)
  {
    SortIdsSorts(a);
    SortIdsSorts(b);
    SortedUnique(NatLe(), SortIds(a), SortIds(b));
  }

  /** `dedup` on a sorted list. */
  function Dedup(s: seq<nat>): seq<nat> {
    if |s| <= 1 then s
    else if s[0] == s[1] then Dedup(s[1..])
    else [s[0]] + Dedup(s[1..])
  }

  lemma {:induction false} DedupStrict(s: seq<nat>)
    requires Ascending(s)
    ensures StrictlyAscending(Dedup(s))
    ensures forall x :: x in Dedup(s) <==> x in s
  {
    if |s| > 1 {
      DedupStrict(s[1..]);
      assert s == [s[0]] + s[1..];
      if s[0] != s[1] {
        var d := Dedup(s[1..]);
        forall y | y in d ensures s[0] < y {
          assert y in s[1..];
        }
        ConsStrict(s[0], d);
      }
    }
  }

  /** Sorted and deduplicated: strictly ascending with the same members. */
  lemma SortDedup(s: seq<nat>)
    ensures StrictlyAscending(Dedup(SortIds(s)))
    ensures forall x :: x in Dedup(SortIds(s)) <==> x in s
  {
    SortIdsSorts(s);
    DedupStrict(SortIds(s));
    forall x ensures x in SortIds(s) <==> x in s {
      assert x in SortIds(s) <==> x in multiset(SortIds(s));
    }
  }
}

/** Id-band routing (crates/graph-format/src/extents.rs): which member of a generation set owns an id. */
module Extents {
  import opened Collections
  import opened Wire

  datatype SegmentOrd = Base | Upper(i: nat)

  /** `Base < Upper(0) < Upper(1) < ...` */
  predicate Before(a: SegmentOrd, b: SegmentOrd) {
    match (a, b)
    case (_, Base) => false
    case (Base, Upper(_)) => true
    case (Upper(i), Upper(j)) => i < j
  }

  datatype Extent = Extent(base: nat, end: nat, owner: SegmentOrd)

  datatype Table = Table(bands: seq<Extent>, total: nat)

  /** The bands cover `[0, total)` in order without gap or overlap, owners strictly increasing. */
  ghost predicate Tiles(t: Table) {
    && (t.bands == [] ==> t.total == 0)
    && (t.bands != [] ==> t.bands[0].base == 0 && t.bands[|t.bands| - 1].end == t.total)
    && (forall i :: 0 <= i < |t.bands| ==> t.bands[i].base <= t.bands[i].end)
    && (forall i :: 0 < i < |t.bands| ==>
         t.bands[i].base == t.bands[i - 1].end && Before(t.bands[i - 1].owner, t.bands[i].owner))
  }

  method Validate(t: Table) returns (ok: bool)
    ensures ok <==> Tiles(t)
  {
    var cursor, i := 0, 0;
    while i < |t.bands|
      invariant 0 <= i <= |t.bands|
      invariant cursor == if i == 0 then 0 else t.bands[i - 1].end
      invariant i > 0 ==> t.bands[0].base == 0
      invariant forall k :: 0 <= k < i ==> t.bands[k].base <= t.bands[k].end
      invariant forall k :: 0 < k < i ==>
        t.bands[k].base == t.bands[k - 1].end && Before(t.bands[k - 1].owner, t.bands[k].owner)
    {
      var e := t.bands[i];
      if e.base != cursor || e.end < e.base {
        return false;
      }
      if i > 0 && !Before(t.bands[i - 1].owner, e.owner) {
        return false;
      }
      cursor, i := e.end, i + 1;
    }
    ok := cursor == t.total;
  }

  method FromBands(bands: seq<Extent>, total: nat) returns (r: Option<Table>)
    ensures r.Some? <==> Tiles(Table(bands, total))
    ensures r.Some? ==> r.value == Table(bands, total)
  {
    var ok := Validate(Table(bands, total));
    r := if ok then Some(Table(bands, total)) else None;
  }

  datatype Piece = Piece(len: nat, owner: SegmentOrd)

  function Lengths(pieces: seq<Piece>): (s: seq<nat>)
    ensures |s| == |pieces|
  {
    seq(|pieces|, i requires 0 <= i < |pieces| => pieces[i].len)
  }

  /** Owners strictly increase and the lengths add up within 64 bits. */
  ghost predicate Acceptable(pieces: seq<Piece>) {
    && Sum(Lengths(pieces)) < U64
    && forall i :: 0 < i < |pieces| ==> Before(pieces[i - 1].owner, pieces[i].owner)
  }

  /** Where piece `i` starts: after the lengths before it. */
  function StartOf(pieces: seq<Piece>, i: nat): nat
    requires i <= |pieces|
  {
    Sum(Lengths(pieces)[..i])
  }

  function BandAt(pieces: seq<Piece>, i: nat): Extent
    requires i < |pieces|
  {
    Extent(StartOf(pieces, i), StartOf(pieces, i) + pieces[i].len, pieces[i].owner)
  }

  lemma NextStart(pieces: seq<Piece>, i: nat)
    requires i < |pieces|
    ensures StartOf(pieces, i + 1) == StartOf(pieces, i) + pieces[i].len <= Sum(Lengths(pieces))
  {
    var lens := Lengths(pieces);
    SumPrefix(lens, i);
    SumMonotone(lens, i + 1, |lens|);
    assert lens[..|lens|] == lens;
  }

  lemma LaidOutTiles(pieces: seq<Piece>, bands: seq<Extent>)
    requires |bands| == |pieces| && forall i :: 0 <= i < |pieces| ==> bands[i] == BandAt(pieces, i)
    requires forall i :: 0 < i < |pieces| ==> Before(pieces[i - 1].owner, pieces[i].owner)
    ensures Tiles(Table(bands, StartOf(pieces, |pieces|)))
  {
    hide StartOf;
    StartOfFirst(pieces);
    forall i | 0 <= i < |pieces| ensures bands[i].base <= bands[i].end == StartOf(pieces, i + 1) {
      NextStart(pieces, i);
    }
  }

  lemma StartOfFirst(pieces: seq<Piece>)
    ensures StartOf(pieces, 0) == 0
  {
    NoLength(Lengths(pieces));
  }

  /** Lay bands end to end. Accepted exactly when the owners increase and no end passes 64 bits;
      band `i` then starts where the lengths before it add up to. */
  method FromLengths(pieces: seq<Piece>) returns (r: Option<Table>)
    ensures r.Some? <==> Acceptable(pieces)
    ensures r.Some? ==> Tiles(r.value) && |r.value.bands| == |pieces| && r.value.total == Sum(Lengths(pieces))
    ensures r.Some? ==> forall i :: 0 <= i < |pieces| ==> r.value.bands[i] == BandAt(pieces, i)
  {
    hide StartOf, Sum, Tiles;
    var bands: seq<Extent>, cursor: nat, i := [], 0, 0;
    StartOfFirst(pieces);
    while i < |pieces|
      invariant 0 <= i <= |pieces| && |bands| == i
      invariant cursor == StartOf(pieces, i) < U64
      invariant forall k :: 0 <= k < i ==> bands[k] == BandAt(pieces, k)
      invariant forall k :: 0 < k < i ==> Before(pieces[k - 1].owner, pieces[k].owner)
    {
      if i > 0 && !Before(pieces[i - 1].owner, pieces[i].owner) {
        return None;
      }
      NextStart(pieces, i);
      if cursor + pieces[i].len >= U64 {
        return None;
      }
      bands := bands + [Extent(cursor, cursor + pieces[i].len, pieces[i].owner)];
      cursor := cursor + pieces[i].len;
      i := i + 1;
    }
    LaidOutTiles(pieces, bands);
    StartOfAll(pieces);
    r := FromBands(bands, cursor);
  }

  lemma StartOfAll(pieces: seq<Piece>)
    ensures StartOf(pieces, |pieces|) == Sum(Lengths(pieces))
  {
    assert Lengths(pieces)[..|pieces|] == Lengths(pieces);
  }

  lemma NoLength(lens: seq<nat>)
    ensures Sum(lens[..0]) == 0
  {
  }

  // ---- routing ----

  function Route(t: Table, id: nat): Option<SegmentOrd>
    requires Tiles(t)
  {
    if id >= t.total then None
    else
      Monotone(t, 0, |t.bands| - 1);
      Some(t.bands[PartitionPoint(t.bands, (e: Extent) => e.base <= id) - 1].owner)
  }

  ghost predicate Contains(e: Extent, id: nat) {
    e.base <= id < e.end
  }

  lemma {:induction false} Monotone(t: Table, i: int, j: int)
    requires Tiles(t) && 0 <= i <= j < |t.bands|
    ensures t.bands[i].base <= t.bands[j].base && t.bands[i].end <= t.bands[j].end
    ensures i < j ==> t.bands[i].end <= t.bands[j].base && Before(t.bands[i].owner, t.bands[j].owner)
    decreases j - i
  {
    if i < j {
      Monotone(t, i, j - 1);
    }
  }

  /** Every id below the total goes to the owner of the one band that contains it, which is
      therefore not empty; every other id goes nowhere. */
  lemma RoutesToContainer(t: Table, id: nat)
    requires Tiles(t)
    ensures Route(t, id).None? <==> id >= t.total
    ensures id < t.total ==>
      exists i :: 0 <= i < |t.bands| && Contains(t.bands[i], id) && Route(t, id) == Some(t.bands[i].owner)
    ensures forall i, j :: 0 <= i < |t.bands| && 0 <= j < |t.bands| ==>
      Contains(t.bands[i], id) && Contains(t.bands[j], id) ==> i == j
  {
    forall i, j | 0 <= i < j < |t.bands| ensures !(Contains(t.bands[i], id) && Contains(t.bands[j], id)) {
      Monotone(t, i, j);
    }
    if id < t.total {
      var k := PartitionPoint(t.bands, (e: Extent) => e.base <= id);
      assert k > 0;
      assert Contains(t.bands[k - 1], id);
    }
  }

  /** The owner of a band owns exactly the ids inside it. */
  lemma OwnerIff(t: Table, i: nat, id: nat)
    requires Tiles(t) && i < |t.bands|
    ensures Route(t, id) == Some(t.bands[i].owner) <==> Contains(t.bands[i], id)
  {
    RoutesToContainer(t, id);
    Monotone(t, i, |t.bands| - 1);
    if id < t.total {
      var k :| 0 <= k < |t.bands| && Contains(t.bands[k], id) && Route(t, id) == Some(t.bands[k].owner);
      if k < i { Monotone(t, k, i); }
      if i < k { Monotone(t, i, k); }
    }
  }

  lemma RoutingIsMonotone(t: Table, a: nat, b: nat)
    requires Tiles(t) && a <= b < t.total
    ensures !Before(Route(t, b).value, Route(t, a).value)
  {
    RoutesToContainer(t, a);
    RoutesToContainer(t, b);
    var i :| 0 <= i < |t.bands| && Contains(t.bands[i], a) && Route(t, a) == Some(t.bands[i].owner);
    var j :| 0 <= j < |t.bands| && Contains(t.bands[j], b) && Route(t, b) == Some(t.bands[j].owner);
    if j < i {
      Monotone(t, j, i);
    } else {
      Monotone(t, i, j);
    }
  }

  /** Appending a segment gives it its own ids and leaves every other owner as it was. */
  lemma AppendKeepsOwners(t: Table, e: Extent, id: nat)
    requires Tiles(t) && Tiles(Table(t.bands + [e], e.end))
    ensures Route(Table(t.bands + [e], e.end), id) ==
      if id < t.total then Route(t, id) else if id < e.end then Some(e.owner) else None
  {
    var longer := Table(t.bands + [e], e.end);
    if id < t.total {
      RoutesToContainer(t, id);
      var i :| 0 <= i < |t.bands| && Contains(t.bands[i], id) && Route(t, id) == Some(t.bands[i].owner);
      assert longer.bands[i] == t.bands[i];
      OwnerIff(longer, i, id);
    } else {
      RoutesToContainer(longer, id);
      OwnerIff(longer, |t.bands|, id);
      assert longer.bands[|t.bands|] == e;
      assert t.bands != [] ==> longer.bands[|t.bands|].base == longer.bands[|t.bands| - 1].end;
    }
  }

  /** The band an owner has, if it is a member. */
  method BandOf(t: Table, owner: SegmentOrd) returns (r: Option<(nat, nat)>)
    requires Tiles(t)
    ensures r.Some? <==> exists i :: 0 <= i < |t.bands| && t.bands[i].owner == owner
    ensures r.Some? ==> forall id: nat :: Route(t, id) == Some(owner) <==> r.value.0 <= id < r.value.1
  {
    for i := 0 to |t.bands|
      invariant forall k :: 0 <= k < i ==> t.bands[k].owner != owner
    {
      if t.bands[i].owner == owner {
        forall id: nat ensures Route(t, id) == Some(owner) <==> Contains(t.bands[i], id) { OwnerIff(t, i, id); }
        return Some((t.bands[i].base, t.bands[i].end));
      }
    }
    r := None;
  }

  // ---- a whole set ----

  datatype Segment = Segment(nodeBase: nat, nodeEnd: nat, edgeBase: nat, edgeEnd: nat)

  datatype Tables = Tables(nodes: Table, edges: Table)

  /** The table whose base owns `[0, count)` and whose upper bands are the declared ones. */
  function SetTable(count: nat, bands: seq<(nat, nat)>): Table {
    Table([Extent(0, count, Base)]
          + seq(|bands|, i requires 0 <= i < |bands| => Extent(bands[i].0, bands[i].1, Upper(i))),
          if bands == [] then count else bands[|bands| - 1].1)
  }

  predicate Joined(count: nat, bands: seq<(nat, nat)>, i: nat)
    requires i < |bands|
  {
    bands[i].0 == (if i == 0 then count else bands[i - 1].1) && bands[i].0 <= bands[i].1
  }

  /** Each segment's declared band starts where the one before it ended. */
  predicate Contiguous(count: nat, bands: seq<(nat, nat)>) {
    forall i :: 0 <= i < |bands| ==> Joined(count, bands, i)
  }

  lemma SetTilesIff(count: nat, bands: seq<(nat, nat)>)
    ensures Tiles(SetTable(count, bands)) <==> Contiguous(count, bands)
  {
    var t := SetTable(count, bands);
    if Tiles(t) {
      forall i | 0 <= i < |bands| ensures Joined(count, bands, i) {
        assert t.bands[i + 1].base == t.bands[i + 1 - 1].end && t.bands[i + 1].base <= t.bands[i + 1].end;
      }
    }
    if Contiguous(count, bands) {
      forall i | 0 < i < |t.bands| ensures t.bands[i].base == t.bands[i - 1].end && t.bands[i].base <= t.bands[i].end {
        assert Joined(count, bands, i - 1);
      }
    }
  }

  function NodeBands(segs: seq<Segment>): seq<(nat, nat)> {
    seq(|segs|, i requires 0 <= i < |segs| => (segs[i].nodeBase, segs[i].nodeEnd))
  }

  function EdgeBands(segs: seq<Segment>): seq<(nat, nat)> {
    seq(|segs|, i requires 0 <= i < |segs| => (segs[i].edgeBase, segs[i].edgeEnd))
  }

  /** Accepted exactly when both the node bands and the edge bands append to the base without gap. */
  method FromSet(segments: seq<Segment>, nodes: nat, edges: nat) returns (r: Option<Tables>)
    ensures r.Some? <==> Contiguous(nodes, NodeBands(segments)) && Contiguous(edges, EdgeBands(segments))
    ensures r.Some? ==> r.value == Tables(SetTable(nodes, NodeBands(segments)), SetTable(edges, EdgeBands(segments)))
    ensures r.Some? ==> Tiles(r.value.nodes) && Tiles(r.value.edges)
  {
    var nodeBands, edgeBands := [Extent(0, nodes, Base)], [Extent(0, edges, Base)];
    for i := 0 to |segments|
      invariant nodeBands == SetTable(nodes, NodeBands(segments)[..i]).bands
      invariant edgeBands == SetTable(edges, EdgeBands(segments)[..i]).bands
    {
      nodeBands := nodeBands + [Extent(segments[i].nodeBase, segments[i].nodeEnd, Upper(i))];
      edgeBands := edgeBands + [Extent(segments[i].edgeBase, segments[i].edgeEnd, Upper(i))];
    }
    assert NodeBands(segments)[..|segments|] == NodeBands(segments);
    assert EdgeBands(segments)[..|segments|] == EdgeBands(segments);
    SetTilesIff(nodes, NodeBands(segments));
    SetTilesIff(edges, EdgeBands(segments));
    var n := FromBands(nodeBands, nodeBands[|nodeBands| - 1].end);
    var e := FromBands(edgeBands, edgeBands[|edgeBands| - 1].end);
    if n.None? || e.None? {
      return None;
    }
    r := Some(Tables(n.value, e.value));
  }
}

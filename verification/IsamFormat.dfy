/** The ISAM leaf format and the streaming writer (crates/graph-format/src/isam.rs). */
module IsamFormat {
  import opened Collections
  import opened Order
  import opened Wire

  datatype Row = Row(key: Value, id: nat)

  ghost predicate RowOk(e: Row) {
    Sized(e.key) && e.id < U64
  }

  function EncodeRow(e: Row): (b: seq<byte>)
    ensures |b| >= 2
  {
    WriteValue(e.key) + WriteUvarint(e.id)
  }

  function EncodeRows(rows: seq<Row>): seq<byte> {
    if rows == [] then [] else EncodeRow(rows[0]) + EncodeRows(rows[1..])
  }

  /** A leaf: the row count, then the rows. */
  function EncodeLeaf(rows: seq<Row>): seq<byte> {
    WriteUvarint(|rows|) + EncodeRows(rows)
  }

  function DecodeRows(r: seq<byte>, count: nat): Option<seq<Row>>
    decreases count
  {
    if count == 0 then Some([])
    else
      match ReadValue(r)
      case None => None
      case Some((key, rest)) =>
        (match ReadUvarint(rest)
         case None => None
         case Some((id, rest')) =>
           (match DecodeRows(rest', count - 1)
            case None => None
            case Some(rows) => Some([Row(key, id)] + rows)))
  }

  function DecodeLeaf(raw: seq<byte>): Option<seq<Row>> {
    match ReadUvarint(raw)
    case None => None
    case Some((count, rest)) => DecodeRows(rest, count)
  }

  lemma {:induction false} EncodeRowsConcat(a: seq<Row>, b: seq<Row>)
    ensures EncodeRows(a + b) == EncodeRows(a) + EncodeRows(b)
  {
    if a == [] {
      assert a + b == b;
    } else {
      assert (a + b)[1..] == a[1..] + b;
      EncodeRowsConcat(a[1..], b);
    }
  }

  lemma DecodeRowStep(e: Row, tail: seq<byte>, count: nat)
    requires RowOk(e) && count > 0
    ensures DecodeRows(EncodeRow(e) + tail, count) ==
      if Depth(e.key) > MAX_VALUE_DEPTH then None
      else match DecodeRows(tail, count - 1) case None => None case Some(rows) => Some([e] + rows)
  {
    hide ReadValue, ReadUvarint, WriteValue, WriteUvarint;
    assert EncodeRow(e) + tail == WriteValue(e.key) + (WriteUvarint(e.id) + tail);
    ValueRoundTripIff(e.key, WriteUvarint(e.id) + tail);
    UvarintRoundTrip(e.id, tail);
  }

  ghost predicate Shallow(rows: seq<Row>) {
    forall e :: e in rows ==> Depth(e.key) <= MAX_VALUE_DEPTH
  }

  lemma {:induction false} RowsRoundTrip(rows: seq<Row>, tail: seq<byte>)
    requires forall e :: e in rows ==> RowOk(e)
    ensures DecodeRows(EncodeRows(rows) + tail, |rows|) == if Shallow(rows) then Some(rows) else None
  {
    hide EncodeRow, RowOk, Depth;
    if rows != [] {
      assert EncodeRows(rows) + tail == EncodeRow(rows[0]) + (EncodeRows(rows[1..]) + tail);
      DecodeRowStep(rows[0], EncodeRows(rows[1..]) + tail, |rows|);
      RowsRoundTrip(rows[1..], tail);
      assert [rows[0]] + rows[1..] == rows;
    }
  }

  /** A leaf decodes to the rows it was built from, if and only if no key nests too deep. */
  lemma LeafRoundTripIff(rows: seq<Row>)
    requires |rows| < U64 && forall e :: e in rows ==> RowOk(e)
    ensures DecodeLeaf(EncodeLeaf(rows)) == Some(rows) <==> Shallow(rows)
    ensures !Shallow(rows) ==> DecodeLeaf(EncodeLeaf(rows)) == None
  {
    UvarintRoundTrip(|rows|, EncodeRows(rows));
    RowsRoundTrip(rows, []);
    assert EncodeRows(rows) + [] == EncodeRows(rows);
  }

  /** A block closes with the row whose bytes reach the target, and not before. */
  ghost predicate Closed(block: seq<Row>, target: nat) {
    && block != [] && |EncodeRows(block)| >= target
    && (|block| == 1 || |EncodeRows(block[..|block| - 1])| < target)
  }

  ghost predicate Cut(rows: seq<Row>, target: nat, blocks: seq<seq<Row>>) {
    && Flatten(blocks) == rows
    && (forall b :: 0 <= b < |blocks| - 1 ==> Closed(blocks[b], target))
    && (blocks != [] ==>
         var last := blocks[|blocks| - 1]; Closed(last, target) || (last != [] && |EncodeRows(last)| < target))
  }

  /** The index of a row sequence: per block its first key and its encoded leaf. */
  ghost predicate Indexes(blocks: seq<seq<Row>>, tops: seq<Value>, leaves: seq<seq<byte>>) {
    && |tops| == |leaves| == |blocks|
    && (forall b :: 0 <= b < |blocks| ==>
         blocks[b] != [] && tops[b] == blocks[b][0].key && leaves[b] == EncodeLeaf(blocks[b]))
  }

  /** The top level and leaves of some cut of the rows. */
  ghost predicate Streams(rows: seq<Row>, target: nat, tops: seq<Value>, leaves: seq<seq<byte>>) {
    exists blocks :: Cut(rows, target, blocks) && Indexes(blocks, tops, leaves)
  }

  /** Write one leaf and record its first key. */
  method FlushIsamBlock(tops: seq<Value>, leaves: seq<seq<byte>>, ghost blocks: seq<seq<Row>>,
                        firstKey: Value, count: nat, body: seq<byte>, ghost cur: seq<Row>)
    returns (tops': seq<Value>, leaves': seq<seq<byte>>, ghost blocks': seq<seq<Row>>)
    requires Indexes(blocks, tops, leaves)
    requires cur != [] && firstKey == cur[0].key && count == |cur| && body == EncodeRows(cur)
    ensures Indexes(blocks', tops', leaves') && blocks' == blocks + [cur]
    ensures Flatten(blocks') == Flatten(blocks) + cur
    ensures tops' == tops + [firstKey] && leaves' == leaves + [EncodeLeaf(cur)]
  {
    tops' := tops + [firstKey];
    leaves' := leaves + [WriteUvarint(count) + body];
    blocks' := blocks + [cur];
    FlattenSnoc(blocks, cur);
  }

  /** `rows` so far: closed blocks, then an unfinished one still below the target. */
  ghost predicate Streamed(rows: seq<Row>, target: nat, blocks: seq<seq<Row>>, cur: seq<Row>) {
    && Flatten(blocks) + cur == rows
    && (forall b :: 0 <= b < |blocks| ==> Closed(blocks[b], target))
    && (cur == [] || |EncodeRows(cur)| < target)
  }

  lemma StreamStart(rows: seq<Row>, target: nat)
    ensures Streamed(rows[..0], target, [], []) && Indexes([], [], []) && EncodeRows([]) == []
  {
  }

  lemma StreamRow(rows: seq<Row>, e: Row, target: nat, blocks: seq<seq<Row>>, cur: seq<Row>)
    requires Streamed(rows, target, blocks, cur)
    ensures
      if |EncodeRows(cur + [e])| >= target
      then Streamed(rows + [e], target, blocks + [cur + [e]], [])
      else Streamed(rows + [e], target, blocks, cur + [e])
  {
    assert Flatten(blocks) + (cur + [e]) == rows + [e];
    if |EncodeRows(cur + [e])| >= target {
      FlattenSnoc(blocks, cur + [e]);
      assert (cur + [e])[..|cur|] == cur;
    }
  }

  lemma StreamEnd(rows: seq<Row>, target: nat, blocks: seq<seq<Row>>, cur: seq<Row>)
    requires Streamed(rows, target, blocks, cur)
    ensures Cut(rows, target, if cur == [] then blocks else blocks + [cur])
  {
    FlattenSnoc(blocks, cur);
  }

  /** Stream sorted rows into leaves, holding only the current one. */
  method WriteIsamSorted(rows: seq<Row>, target: nat)
    returns (tops: seq<Value>, leaves: seq<seq<byte>>, ghost blocks: seq<seq<Row>>)
    ensures Cut(rows, target, blocks) && Indexes(blocks, tops, leaves)
    ensures Streams(rows, target, tops, leaves)
  {
    hide Indexes, Streamed, Cut, EncodeRows, EncodeRow, WriteValue, WriteUvarint, Flatten;
    tops, leaves, blocks := [], [], [];
    var firstKey: Option<Value> := None;
    var count: nat, body: seq<byte> := 0, [];
    ghost var cur: seq<Row> := [];
    var i := 0;
    StreamStart(rows, target);
    while i < |rows|
      invariant 0 <= i <= |rows|
      invariant Streamed(rows[..i], target, blocks, cur) && Indexes(blocks, tops, leaves)
      invariant count == |cur| && body == EncodeRows(cur)
      invariant firstKey == if cur == [] then None else Some(cur[0].key)
    {
      var e := rows[i];
      if firstKey.None? {
        firstKey := Some(e.key);
      }
      AppendRow(cur, e);
      StreamRow(rows[..i], e, target, blocks, cur);
      body := body + WriteValue(e.key) + WriteUvarint(e.id);
      count := count + 1;
      cur := cur + [e];
      assert rows[..i + 1] == rows[..i] + [e];
      if |body| >= target {
        tops, leaves, blocks := FlushIsamBlock(tops, leaves, blocks, firstKey.value, count, body, cur);
        firstKey, count, body, cur := None, 0, [], [];
      }
      i := i + 1;
    }
    assert rows[..i] == rows;
    StreamEnd(rows, target, blocks, cur);
    if count > 0 {
      tops, leaves, blocks := FlushIsamBlock(tops, leaves, blocks, firstKey.value, count, body, cur);
    }
  }

  lemma AppendRow(rows: seq<Row>, e: Row)
    ensures EncodeRows(rows + [e]) == EncodeRows(rows) + WriteValue(e.key) + WriteUvarint(e.id)
  {
    EncodeRowsConcat(rows, [e]);
    assert EncodeRows([e]) == EncodeRow(e) + EncodeRows([]);
  }
}

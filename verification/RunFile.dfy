/** A run file: one buffer's records, sorted, encoded and packed into a block file, and read back
    block by block (crates/graph-format/src/extsort.rs:156-172, 466-515). */
module RunFile {
  import opened Collections
  import opened Sorting
  import opened BlockFormat
  import opened BlockFile
  import opened BlockWriter
  import opened BlockReader
  import opened ExtSort

  const RUN_BLOCK_BYTES: nat := 256 * 1024

  /** How a record is spelled in a run. */
  datatype Codec<!R> = Codec(encode: R -> Bytes, decode: Bytes -> Option<R>)

  /** Decoding undoes encoding on these records. */
  ghost predicate Faithful<R(!new)>(c: Codec<R>, s: seq<R>) {
    forall r :: r in s ==> c.decode(c.encode(r)) == Some(r)
  }

  function Encoded<R>(c: Codec<R>, s: seq<R>): (e: seq<Bytes>)
    ensures |e| == |s|
  {
    seq(|s|, i requires 0 <= i < |s| => c.encode(s[i]))
  }

  /** The blocks of the run file of a sorted buffer. */
  function Blocks<R>(c: Codec<R>, s: seq<R>): seq<seq<Bytes>> {
    StoredBlocks(Pack(Encoded(c, s), RUN_BLOCK_BYTES))
  }

  /** The blocks of a buffer's run file. */
  function RunOf<R>(le: (R, R) -> bool, c: Codec<R>, buf: seq<R>): seq<seq<Bytes>> {
    Blocks(c, Sorted(le, buf))
  }

  /** Sort a full buffer and write it as a run. */
  method WriteRun<R(!new)>(le: (R, R) -> bool, c: Codec<R>, sealer: Sealer, buf: seq<R>) returns (f: File)
    ensures f == FileOf(sealer, RunOf(le, c, buf))
  {
    hide FileOf, Pack, Sorted;
    var sorted := SortBuffer(le, buf);
    var w := new InlineWriter(RUN_BLOCK_BYTES, sealer);
    for i := 0 to |sorted|
      invariant w.Ok() && fresh(w) && w.sealer == sealer && w.target == RUN_BLOCK_BYTES
      invariant Pack(w.records, w.target) == Packed(w.written, w.cur)
      invariant w.records == Encoded(c, sorted)[..i]
    {
      var _, _ := w.AppendRecord(c.encode(sorted[i]));
    }
    assert Encoded(c, sorted)[..|sorted|] == Encoded(c, sorted);
    f := w.Finish();
  }

  // ---- reading ----

  ghost predicate Decodes<R(!new)>(c: Codec<R>, records: seq<Bytes>) {
    forall i :: 0 <= i < |records| ==> c.decode(records[i]).Some?
  }

  ghost function Decoded<R(!new)>(c: Codec<R>, records: seq<Bytes>): (s: seq<R>)
    requires Decodes(c, records)
    ensures |s| == |records|
  {
    seq(|records|, i requires 0 <= i < |records| => c.decode(records[i]).value)
  }

  ghost predicate Readable<R(!new)>(c: Codec<R>, blocks: seq<seq<Bytes>>) {
    forall b :: 0 <= b < |blocks| ==> Decodes(c, blocks[b])
  }

  /** The records of a run, block by block. */
  ghost function Records<R(!new)>(c: Codec<R>, blocks: seq<seq<Bytes>>): (run: seq<seq<R>>)
    requires Readable(c, blocks)
    ensures |run| == |blocks|
  {
    seq(|blocks|, b requires 0 <= b < |blocks| => Decoded(c, blocks[b]))
  }

  lemma {:induction false} RecordsFlatten<R(!new)>(c: Codec<R>, blocks: seq<seq<Bytes>>)
    requires Decodes(c, Flatten(blocks))
    ensures Readable(c, blocks) && Flatten(Records(c, blocks)) == Decoded(c, Flatten(blocks))
  {
    if blocks != [] {
      var head, rest := blocks[0], blocks[1..];
      assert Flatten(blocks) == head + Flatten(rest);
      assert Decodes(c, head) by {
        assert forall i :: 0 <= i < |head| ==> head[i] == Flatten(blocks)[i];
      }
      assert Decodes(c, Flatten(rest)) by {
        assert forall i :: 0 <= i < |Flatten(rest)| ==> Flatten(rest)[i] == Flatten(blocks)[|head| + i];
      }
      RecordsFlatten(c, rest);
      forall b | 0 <= b < |blocks| ensures Decodes(c, blocks[b]) {
        if b > 0 { assert blocks[b] == rest[b - 1]; }
      }
      assert Records(c, blocks)[0] == Decoded(c, head);
      assert Records(c, blocks)[1..] == Records(c, rest);
    }
  }

  /** Slot `i` of a parsed block, decoded. */
  function SlotRecord<R>(c: Codec<R>, p: Parsed, i: nat): Option<R> {
    match RecordFromBlock(p.offsets, p.data, i)
    case None => None
    case Some(bytes) => c.decode(bytes)
  }

  /** Block `b` of a run as a cursor finds it when it gets there. */
  function ReadRunBlock<R>(c: Codec<R>, f: File, open: Opener, b: nat): Block<R> {
    match ReadBlock(f, open, b)
    case None => None
    case Some(raw) =>
      match ParseBlock(raw)
      case None => None
      case Some(p) =>
        var slots := if p.offsets == [] then 0 else |p.offsets| - 1;
        Some(seq(slots, i requires 0 <= i < slots => SlotRecord(c, p, i)))
  }

  /** A run file as its cursor reads it, block by block. */
  function View<R>(c: Codec<R>, f: File, open: Opener): seq<Block<R>> {
    seq(|f.dir|, b requires 0 <= b < |f.dir| => ReadRunBlock(c, f, open, b))
  }

  lemma BlockIs<R(!new)>(c: Codec<R>, open: Opener, sealer: Sealer, blocks: seq<seq<Bytes>>, b: nat)
    requires Storable(sealer, blocks) && Undoes(open, sealer) && b < |blocks|
    ensures var read := ReadRunBlock(c, FileOf(sealer, blocks), open, b);
      && read.Some? && |read.value| == |blocks[b]|
      && forall i :: 0 <= i < |blocks[b]| ==> read.value[i] == c.decode(blocks[b][i])
  {
    hide FileOf, Storable, Undoes, SerializeBlock, ReadBlock, ParseBlock, Offsets, Flatten, RecordFromBlock;
    BlockReadsBack(sealer, open, blocks, b);
    SmallBlocks(sealer, blocks);
    BlockRoundTripIff(blocks[b]);
    var p := Parsed(Offsets(blocks[b]), Flatten(blocks[b]));
    forall i | 0 <= i < |blocks[b]| ensures SlotRecord(c, p, i) == c.decode(blocks[b][i]) {
      SlotIsRecord(blocks[b], i);
    }
  }

  lemma {:induction false} SlotsDecode<R(!new)>(c: Codec<R>, records: seq<Bytes>, slots: seq<Option<R>>)
    requires Decodes(c, records) && |slots| == |records|
    requires forall i :: 0 <= i < |records| ==> slots[i] == c.decode(records[i])
    ensures OfSlots(slots) == Tail(Decoded(c, records), false)
  {
    if records != [] {
      SlotsDecode(c, records[1..], slots[1..]);
      assert Decoded(c, records) == [slots[0].value] + Decoded(c, records[1..]);
    }
  }

  lemma {:induction false} BlocksDecode<R(!new)>(c: Codec<R>, blocks: seq<seq<Bytes>>, view: seq<Block<R>>)
    requires Readable(c, blocks) && |view| == |blocks|
    requires forall b :: 0 <= b < |blocks| ==> view[b].Some? && |view[b].value| == |blocks[b]|
    requires forall b, i :: 0 <= b < |blocks| && 0 <= i < |blocks[b]| ==> view[b].value[i] == c.decode(blocks[b][i])
    ensures Stream(view) == Tail(Flatten(Records(c, blocks)), false)
  {
    if blocks != [] {
      SlotsDecode(c, blocks[0], view[0].value);
      BlocksDecode(c, blocks[1..], view[1..]);
      assert Records(c, blocks)[1..] == Records(c, blocks[1..]);
    }
  }

  /** Reading the file of some blocks, one by one and slot by slot, gives their records and then the
      end, without an error. */
  lemma ViewStreams<R(!new)>(c: Codec<R>, open: Opener, sealer: Sealer, blocks: seq<seq<Bytes>>)
    requires Storable(sealer, blocks) && Undoes(open, sealer) && Readable(c, blocks)
    ensures Stream(View(c, FileOf(sealer, blocks), open)) == Tail(Flatten(Records(c, blocks)), false)
  {
    hide FileOf, Storable, Undoes, ReadRunBlock, Flatten, Stream;
    FileOfDir(sealer, blocks);
    var view := View(c, FileOf(sealer, blocks), open);
    forall b | 0 <= b < |blocks|
      ensures view[b].Some? && |view[b].value| == |blocks[b]|
      ensures forall i :: 0 <= i < |blocks[b]| ==> view[b].value[i] == c.decode(blocks[b][i])
    {
      BlockIs(c, open, sealer, blocks, b);
    }
    BlocksDecode(c, blocks, view);
  }

  // ---- what a run holds ----

  /** What a block file stores is a prefix of what was appended. */
  lemma StoredIsPrefix(records: seq<Bytes>, target: nat)
    requires target > 0
    ensures Flatten(StoredBlocks(Pack(records, target))) <= records
  {
    PackKeeps(records, target);
    var p := Pack(records, target);
    FlattenSnoc(p.blocks, p.cur);
  }

  /** The records behind the last full block, if any, spell at least one byte. */
  ghost predicate TailHasBytes<R(!new)>(c: Codec<R>, s: seq<R>) {
    var cur := Pack(Encoded(c, s), RUN_BLOCK_BYTES).cur;
    cur == [] || Flatten(cur) != []
  }

  lemma RunDecodes<R(!new)>(c: Codec<R>, s: seq<R>)
    requires Faithful(c, s)
    ensures var n := |Flatten(Blocks(c, s))|;
      n <= |s| && Readable(c, Blocks(c, s)) && Flatten(Records(c, Blocks(c, s))) == s[..n]
  {
    hide Pack, StoredBlocks, Flatten;
    StoredIsPrefix(Encoded(c, s), RUN_BLOCK_BYTES);
    var kept := Flatten(Blocks(c, s));
    forall i | 0 <= i < |kept| ensures c.decode(kept[i]) == Some(s[i]) {
      assert kept[i] == Encoded(c, s)[i] && s[i] in s;
    }
    RecordsFlatten(c, Blocks(c, s));
    assert Decoded(c, kept) == s[..|kept|];
  }

  /** A run reads back whole, in order, if and only if its tail spells a byte. */
  lemma RunRoundTripIff<R(!new)>(c: Codec<R>, s: seq<R>)
    requires Faithful(c, s)
    ensures Readable(c, Blocks(c, s))
    ensures Flatten(Records(c, Blocks(c, s))) == s <==> TailHasBytes(c, s)
    ensures |Flatten(Blocks(c, s))| == |s| <==> TailHasBytes(c, s)
  {
    hide Pack, Flatten;
    RunDecodes(c, s);
    StoredIsPrefix(Encoded(c, s), RUN_BLOCK_BYTES);
    StoresAllIff(Encoded(c, s), RUN_BLOCK_BYTES);
  }

  /** A record that spells nothing, alone in its buffer, is lost. */
  lemma SilentRecordIsLost<R(!new)>(c: Codec<R>, r: R)
    requires c.encode(r) == []
    ensures Blocks(c, [r]) == []
  {
    assert Encoded(c, [r]) == [[]];
    EmptyTailIsDropped(RUN_BLOCK_BYTES);
  }

  /** No record spells nothing. */
  ghost predicate Audible<R(!new)>(c: Codec<R>, s: seq<R>) {
    forall r :: r in s ==> c.encode(r) != []
  }

  /** A run holds records of its buffer in key order: all of them exactly when the tail of the sorted
      buffer spells a byte. */
  lemma RunHolds<R(!new)>(le: (R, R) -> bool, c: Codec<R>, buf: seq<R>)
    requires Faithful(c, buf) && Orders(le, buf)
    ensures Readable(c, RunOf(le, c, buf))
    ensures var run := Flatten(Records(c, RunOf(le, c, buf)));
      && SortedBy(le, run) && multiset(run) <= multiset(buf) && |run| <= |buf|
      && (|run| == |buf| <==> TailHasBytes(c, Sorted(le, buf)))
    ensures Audible(c, buf) ==> TailHasBytes(c, Sorted(le, buf))
  {
    hide Blocks, Flatten, Sorted, TailHasBytes, Readable, Orders;
    var s := Sorted(le, buf);
    SortedSorts(le, buf);
    SameMembers(buf, s);
    RunDecodes(c, s);
    RunRoundTripIff(c, s);
    PrefixHolds(le, buf, s, |Flatten(Blocks(c, s))|);
    if Audible(c, buf) {
      AudibleRunIsWhole(c, s);
    }
  }

  lemma PrefixHolds<R(!new)>(le: (R, R) -> bool, buf: seq<R>, s: seq<R>, n: nat)
    requires SortedBy(le, s) && multiset(s) == multiset(buf) && n <= |s|
    ensures SortedBy(le, s[..n]) && multiset(s[..n]) <= multiset(buf) && |s| == |buf|
  {
    assert s == s[..n] + s[n..];
    assert |multiset(s)| == |s| && |multiset(buf)| == |buf|;
  }

  lemma AudibleRunIsWhole<R(!new)>(c: Codec<R>, s: seq<R>)
    requires Audible(c, s)
    ensures |Flatten(Blocks(c, s))| == |s|
  {
    hide Pack, StoredBlocks, Flatten;
    forall e | e in Encoded(c, s) ensures e != [] {
      var i :| 0 <= i < |s| && e == Encoded(c, s)[i];
      assert s[i] in s;
    }
    NonEmptyRecordsStored(Encoded(c, s), RUN_BLOCK_BYTES);
  }
}

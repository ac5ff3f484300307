/** What a block file is: how records are grouped into blocks, and the file a block list becomes
    when its blocks are sealed and written in order. This is the serial reference. */
module BlockFile {
  import opened Collections
  import opened Wire
  import opened BlockFormat

  const MAGIC_LEN: nat := 8

  /** How a raw block becomes stored bytes: compress and, if there is a cipher, seal under the
      block's ordinal, first record, raw length and record count with the nonce drawn for it. */
  datatype Sealer = Sealer(stored: (nat, nat, Bytes, nat) -> Bytes, nonce: nat -> Option<Bytes>)

  datatype Sealed = Sealed(stored: Bytes, rawLen: nat, recCount: nat, nonce: Option<Bytes>)

  datatype DirEntry = DirEntry(offset: nat, compLen: nat, rawLen: nat, recCount: nat, nonce: Option<Bytes>)

  /** The block region (after the magic) and the directory. */
  datatype File = File(region: Bytes, dir: seq<DirEntry>)

  function SealBlock(sealer: Sealer, idx: nat, first: nat, records: seq<Bytes>): Sealed {
    var raw := SerializeBlock(records);
    Sealed(sealer.stored(idx, first, raw, |records| % U32), |raw| % U32, |records| % U32, sealer.nonce(idx))
  }

  function EntryAt(offset: nat, b: Sealed): DirEntry {
    DirEntry(offset, |b.stored| % U32, b.rawLen, b.recCount, b.nonce)
  }

  /** Write one sealed block at the end. */
  function Appended(f: File, b: Sealed): File {
    File(f.region + b.stored, f.dir + [EntryAt(MAGIC_LEN + |f.region|, b)])
  }

  /** Records in the blocks, as the directory counts them. */
  function FirstRecord(blocks: seq<seq<Bytes>>): nat {
    if blocks == [] then 0 else FirstRecord(blocks[..|blocks| - 1]) + |blocks[|blocks| - 1]| % U32
  }

  /** The file of a block list: blocks sealed and written in order. */
  function FileOf(sealer: Sealer, blocks: seq<seq<Bytes>>): File {
    if blocks == [] then File([], [])
    else
      var init := blocks[..|blocks| - 1];
      Appended(FileOf(sealer, init), SealBlock(sealer, |init|, FirstRecord(init), blocks[|init|]))
  }

  /** What block `b` of a list seals to. */
  function Due(sealer: Sealer, blocks: seq<seq<Bytes>>, b: nat): Sealed
    requires b < |blocks|
  {
    SealBlock(sealer, b, FirstRecord(blocks[..b]), blocks[b])
  }

  lemma FileOfSnoc(sealer: Sealer, blocks: seq<seq<Bytes>>, b: seq<Bytes>)
    ensures FileOf(sealer, blocks + [b]) ==
      Appended(FileOf(sealer, blocks), SealBlock(sealer, |blocks|, FirstRecord(blocks), b))
    ensures FirstRecord(blocks + [b]) == FirstRecord(blocks) + |b| % U32
  {
    assert (blocks + [b])[..|blocks|] == blocks;
  }

  lemma {:induction false} FileOfDir(sealer: Sealer, blocks: seq<seq<Bytes>>)
    ensures |FileOf(sealer, blocks).dir| == |blocks|
  {
    if blocks != [] {
      FileOfDir(sealer, blocks[..|blocks| - 1]);
    }
  }

  // ---- grouping ----

  datatype Packed = Packed(blocks: seq<seq<Bytes>>, cur: seq<Bytes>)

  /** Add a record to the open group; the group closes once its data reaches the target. */
  function PackOne(p: Packed, record: Bytes, target: nat): Packed {
    var cur := p.cur + [record];
    if |Flatten(cur)| >= target then Packed(p.blocks + [cur], []) else Packed(p.blocks, cur)
  }

  function Pack(records: seq<Bytes>, target: nat): Packed {
    if records == [] then Packed([], [])
    else PackOne(Pack(records[..|records| - 1], target), records[|records| - 1], target)
  }

  lemma PackSnoc(records: seq<Bytes>, r: Bytes, target: nat)
    ensures Pack(records + [r], target) == PackOne(Pack(records, target), r, target)
  {
    assert (records + [r])[..|records|] == records;
  }

  /** What `finish` leaves: the open group too, unless it holds no bytes at all. */
  function StoredBlocks(p: Packed): seq<seq<Bytes>> {
    if Flatten(p.cur) == [] then p.blocks else p.blocks + [p.cur]
  }

  /** Grouping loses nothing: closed groups have reached the target, the open one has not. */
  ghost predicate Grouped(p: Packed, records: seq<Bytes>, target: nat) {
    && Flatten(p.blocks) + p.cur == records
    && (forall b: seq<Bytes> :: b in p.blocks ==> |Flatten(b)| >= target)
    && |Flatten(p.cur)| < target
  }

  lemma PackOneKeeps(p: Packed, records: seq<Bytes>, r: Bytes, target: nat)
    requires target > 0 && Grouped(p, records, target)
    ensures Grouped(PackOne(p, r, target), records + [r], target)
  {
    FlattenSnoc(p.blocks, p.cur + [r]);
    assert Flatten(p.blocks) + (p.cur + [r]) == records + [r];
  }

  lemma {:induction false} PackKeeps(records: seq<Bytes>, target: nat)
    requires target > 0
    ensures Grouped(Pack(records, target), records, target)
  {
    if records != [] {
      var n := |records| - 1;
      PackKeeps(records[..n], target);
      assert records == records[..n] + [records[n]];
      PackOneKeeps(Pack(records[..n], target), records[..n], records[n], target);
    }
  }

  /** Every appended record is stored, in order, if and only if the last open group is absent or
      holds at least one byte. A tail of empty records is accepted and then dropped. */
  lemma StoresAllIff(records: seq<Bytes>, target: nat)
    requires target > 0
    ensures var p := Pack(records, target);
      Flatten(StoredBlocks(p)) == records <==> (p.cur == [] || Flatten(p.cur) != [])
  {
    PackKeeps(records, target);
    var p := Pack(records, target);
    FlattenSnoc(p.blocks, p.cur);
  }

  /** In particular all records survive when none is empty. */
  lemma NonEmptyRecordsStored(records: seq<Bytes>, target: nat)
    requires target > 0 && forall r :: r in records ==> r != []
    ensures Flatten(StoredBlocks(Pack(records, target))) == records
  {
    PackKeeps(records, target);
    StoresAllIff(records, target);
    var p := Pack(records, target);
    if p.cur != [] {
      var head := Flatten(p.blocks);
      assert (head + p.cur)[|head|] == p.cur[0];
      assert p.cur[0] in records;
      assert Flatten(p.cur) == p.cur[0] + Flatten(p.cur[1..]);
    }
  }

  /** One empty record is given a location and is not in the file. */
  lemma EmptyTailIsDropped(target: nat)
    requires target > 0
    ensures StoredBlocks(Pack([[]], target)) == []
  {
    var none: seq<Bytes>, empty: Bytes := [], [];
    PackSnoc(none, empty, target);
    assert none + [empty] == [empty];
    FlattenSnoc(none, empty);
  }

  /** Every stored block holds at least one record and at least one byte. */
  lemma StoredBlocksNonEmpty(records: seq<Bytes>, target: nat)
    requires target > 0
    ensures forall b: seq<Bytes> :: b in StoredBlocks(Pack(records, target)) ==> b != [] && Flatten(b) != []
  {
    PackKeeps(records, target);
  }
}

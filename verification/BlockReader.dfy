/** The block file reader: global record index to block and slot, block reads, and ranged
    scans (crates/graph-format/src/blockfile.rs). */
module BlockReader {
  import opened Collections
  import opened Wire
  import opened BlockFormat
  import opened BlockFile

  /** Open and decompress stored bytes as block `ordinal` whose first record is `first`. */
  type Opener = (nat, nat, DirEntry, Bytes) -> Option<Bytes>

  /** Global index of block `b`'s first record: records in the blocks before it. */
  function StartAt(dir: seq<DirEntry>, b: nat): nat
    requires b <= |dir|
  {
    if b == 0 then 0 else StartAt(dir, b - 1) + dir[b - 1].recCount
  }

  function TotalRecords(dir: seq<DirEntry>): nat {
    StartAt(dir, |dir|)
  }

  lemma {:induction false} StartsMonotone(dir: seq<DirEntry>, i: nat, j: nat)
    requires i <= j <= |dir|
    ensures StartAt(dir, i) <= StartAt(dir, j)
    decreases j - i
  {
    if i < j {
      StartsMonotone(dir, i, j - 1);
    }
  }

  lemma {:induction false} StartsPrefix(dir: seq<DirEntry>, e: DirEntry, b: nat)
    requires b <= |dir|
    ensures StartAt(dir + [e], b) == StartAt(dir, b)
  {
    if b > 0 {
      StartsPrefix(dir, e, b - 1);
    }
  }

  predicate NoEmptyBlock(dir: seq<DirEntry>) {
    forall b :: 0 <= b < |dir| ==> dir[b].recCount > 0
  }

  lemma StartsStrict(dir: seq<DirEntry>, i: nat, j: nat)
    requires NoEmptyBlock(dir) && i < j <= |dir|
    ensures StartAt(dir, i) < StartAt(dir, j)
  {
    StartsMonotone(dir, i + 1, j);
  }

  /** Block `b` holds record `g`. */
  ghost predicate Covers(dir: seq<DirEntry>, b: nat, g: nat) {
    b < |dir| && StartAt(dir, b) <= g < StartAt(dir, b + 1)
  }

  lemma CoversUnique(dir: seq<DirEntry>, b: nat, b': nat, g: nat)
    requires Covers(dir, b, g) && Covers(dir, b', g)
    ensures b == b'
  {
    if b < b' { StartsMonotone(dir, b + 1, b'); }
    if b' < b { StartsMonotone(dir, b' + 1, b); }
  }

  lemma CoversOrder(dir: seq<DirEntry>, b: nat, b': nat, g: nat, g': nat)
    requires Covers(dir, b, g) && Covers(dir, b', g') && g <= g'
    ensures b <= b'
  {
    if b' < b { StartsMonotone(dir, b' + 1, b); }
  }

  /** Map a global record index to its block and slot. A binary search may stop at any equal
      start; with no empty block there is only one. */
  method Locate(dir: seq<DirEntry>, global: nat) returns (r: Option<(nat, nat)>)
    ensures r.None? <==> global >= TotalRecords(dir)
    ensures r.Some? && NoEmptyBlock(dir) ==>
      Covers(dir, r.value.0, global) && r.value.1 == global - StartAt(dir, r.value.0)
  {
    var starts := seq(|dir| + 1, b requires 0 <= b <= |dir| => StartAt(dir, b));
    if global >= TotalRecords(dir) {
      return None;
    }
    var b: nat;
    if global in starts {
      b :| 0 <= b < |starts| && starts[b] == global;
      if NoEmptyBlock(dir) {
        StartsStrict(dir, b, b + 1);
      }
    } else {
      var at := PartitionPoint(starts, s => s < global);
      b := at - 1;
      assert starts[0] == 0 && starts[|dir|] == TotalRecords(dir);
      assert at <= |dir|;
      assert starts[at] >= global && starts[at] in starts;
    }
    r := Some((b, global - starts[b]));
  }

  /** Read a whole block: check the stored length, fetch the bytes, open them at the block's
      ordinal and first record. */
  function ReadBlock(f: File, open: Opener, b: nat): Option<Bytes> {
    if b >= |f.dir| then None
    else
      var e := f.dir[b];
      if e.compLen > MAX_BLOCK_BYTES || e.offset < MAGIC_LEN || e.offset - MAGIC_LEN + e.compLen > |f.region| then None
      else open(b, StartAt(f.dir, b), e, f.region[e.offset - MAGIC_LEN..e.offset - MAGIC_LEN + e.compLen])
  }

  function ReadRecord(f: File, open: Opener, b: nat, slot: nat): Option<Bytes> {
    match ReadBlock(f, open, b)
    case None => None
    case Some(raw) =>
      match ParseBlock(raw)
      case None => None
      case Some(p) => RecordFromBlock(p.offsets, p.data, slot)
  }

  // ---- reading back what was written ----

  /** The blocks are within the format's ceilings. */
  ghost predicate Storable(sealer: Sealer, blocks: seq<seq<Bytes>>) {
    forall b :: 0 <= b < |blocks| ==> BlockStorable(sealer, blocks, b)
  }

  ghost predicate BlockStorable(sealer: Sealer, blocks: seq<seq<Bytes>>, b: nat)
    requires b < |blocks|
  {
    && blocks[b] != []
    && |SerializeBlock(blocks[b])| <= MAX_BLOCK_BYTES
    && |Due(sealer, blocks, b).stored| <= MAX_BLOCK_BYTES
  }

  lemma DueFields(sealer: Sealer, blocks: seq<seq<Bytes>>, b: nat)
    requires b < |blocks|
    ensures Due(sealer, blocks, b) ==
      var raw := SerializeBlock(blocks[b]);
      Sealed(sealer.stored(b, FirstRecord(blocks[..b]), raw, |blocks[b]| % U32), |raw| % U32, |blocks[b]| % U32,
             sealer.nonce(b))
  {
    hide SerializeBlock;
  }

  /** The opener undoes the sealer, for every ordinal, first record and raw block. */
  ghost predicate Undoes(open: Opener, sealer: Sealer) {
    forall idx: nat, first: nat, raw: Bytes, count: nat, offset: nat :: |raw| <= MAX_BLOCK_BYTES ==>
      open(idx, first,
           EntryAt(offset, Sealed(sealer.stored(idx, first, raw, count), |raw| % U32, count, sealer.nonce(idx))),
           sealer.stored(idx, first, raw, count)) == Some(raw)
  }

  lemma SerializedSizes(records: seq<Bytes>)
    ensures |SerializeBlock(records)| == 8 + 4 * |records| + |Flatten(records)|
  {
  }

  /** Directory entry `i` describes the sealed block `d` and points at its bytes. */
  ghost predicate Stores(f: File, i: nat, d: Sealed) {
    && i < |f.dir|
    && var e := f.dir[i];
       && e == EntryAt(e.offset, d) && e.offset >= MAGIC_LEN
       && e.offset - MAGIC_LEN + |d.stored| <= |f.region|
       && f.region[e.offset - MAGIC_LEN..e.offset - MAGIC_LEN + |d.stored|] == d.stored
  }

  lemma AppendedStores(f: File, i: nat, d: Sealed, b: Sealed)
    requires Stores(f, i, d)
    ensures Stores(Appended(f, b), i, d)
  {
    var e, g := f.dir[i], Appended(f, b);
    assert g.region[e.offset - MAGIC_LEN..e.offset - MAGIC_LEN + |d.stored|]
        == f.region[e.offset - MAGIC_LEN..e.offset - MAGIC_LEN + |d.stored|];
  }

  lemma AppendedLast(f: File, b: Sealed)
    ensures Stores(Appended(f, b), |f.dir|, b)
  {
  }

  /** Directory entry and bytes of block `b` in the reference file. */
  lemma {:induction false} FileOfAt(sealer: Sealer, blocks: seq<seq<Bytes>>, b: nat)
    requires b < |blocks|
    ensures |FileOf(sealer, blocks).dir| == |blocks|
    ensures Stores(FileOf(sealer, blocks), b, Due(sealer, blocks, b))
  {
    FileOfDir(sealer, blocks);
    var n := |blocks| - 1;
    var init := blocks[..n];
    FileOfDir(sealer, init);
    assert blocks == init + [blocks[n]];
    FileOfSnoc(sealer, init, blocks[n]);
    hide FileOf, SealBlock, FirstRecord;
    var last := SealBlock(sealer, n, FirstRecord(init), blocks[n]);
    if b < n {
      FileOfAt(sealer, init, b);
      assert init[..b] == blocks[..b];
      AppendedStores(FileOf(sealer, init), b, Due(sealer, init, b), last);
    } else {
      AppendedLast(FileOf(sealer, init), last);
    }
  }

  lemma {:induction false} StartsOfFile(sealer: Sealer, blocks: seq<seq<Bytes>>, b: nat)
    requires b <= |blocks|
    ensures |FileOf(sealer, blocks).dir| == |blocks|
    ensures StartAt(FileOf(sealer, blocks).dir, b) == FirstRecord(blocks[..b])
  {
    hide FileOf, FirstRecord;
    FileOfDir(sealer, blocks);
    if b == 0 {
      NoneBefore(blocks);
    } else {
      StartsOfFile(sealer, blocks, b - 1);
      StartsStep(sealer, blocks, b - 1);
    }
  }

  lemma NoneBefore(blocks: seq<seq<Bytes>>)
    ensures FirstRecord(blocks[..0]) == 0
  {
  }

  /** Block `b`'s directory entry counts the records of block `b`. */
  lemma StartsStep(sealer: Sealer, blocks: seq<seq<Bytes>>, b: nat)
    requires b < |blocks|
    ensures |FileOf(sealer, blocks).dir| == |blocks|
    ensures FirstRecord(blocks[..b + 1]) == FirstRecord(blocks[..b]) + FileOf(sealer, blocks).dir[b].recCount
  {
    hide FileOf, FirstRecord, SerializeBlock, Due;
    FileOfDir(sealer, blocks);
    FileOfAt(sealer, blocks, b);
    DueFields(sealer, blocks, b);
    assert blocks[..b + 1] == blocks[..b] + [blocks[b]];
    FileOfSnoc(sealer, blocks[..b], blocks[b]);
  }

  /** Every block of a written file opens and is the block that was written there. */
  lemma BlockReadsBack(sealer: Sealer, open: Opener, blocks: seq<seq<Bytes>>, b: nat)
    requires Storable(sealer, blocks) && Undoes(open, sealer) && b < |blocks|
    ensures ReadBlock(FileOf(sealer, blocks), open, b) == Some(SerializeBlock(blocks[b]))
  {
    hide SerializeBlock, FileOf, StartAt, FirstRecord, Due, Undoes, ReadBlock;
    FileOfAt(sealer, blocks, b);
    StartsOfFile(sealer, blocks, b);
    assert BlockStorable(sealer, blocks, b);
    DueFields(sealer, blocks, b);
    var due := Due(sealer, blocks, b);
    OpensEntry(sealer, open, due, b, FirstRecord(blocks[..b]), SerializeBlock(blocks[b]), |blocks[b]| % U32,
               FileOf(sealer, blocks).dir[b]);
    ReadsStored(FileOf(sealer, blocks), open, b, due);
  }

  /** Reading a block hands its stored bytes to the opener at its ordinal and first record. */
  lemma ReadsStored(f: File, open: Opener, b: nat, d: Sealed)
    requires Stores(f, b, d) && |d.stored| <= MAX_BLOCK_BYTES
    ensures ReadBlock(f, open, b) == open(b, StartAt(f.dir, b), f.dir[b], d.stored)
  {
    hide StartAt;
  }

  lemma OpensEntry(sealer: Sealer, open: Opener, d: Sealed, b: nat, first: nat, raw: Bytes, count: nat, e: DirEntry)
    requires Undoes(open, sealer) && |raw| <= MAX_BLOCK_BYTES
    requires d == Sealed(sealer.stored(b, first, raw, count), |raw| % U32, count, sealer.nonce(b))
    requires e == EntryAt(e.offset, d)
    ensures open(b, first, e, d.stored) == Some(raw)
  {
  }

  lemma {:induction false} FirstRecordCounts(blocks: seq<seq<Bytes>>, b: nat)
    requires b <= |blocks| && forall i :: 0 <= i < |blocks| ==> |blocks[i]| < U32
    ensures FirstRecord(blocks[..b]) == |Flatten(blocks[..b])|
  {
    if b > 0 {
      FirstRecordCounts(blocks, b - 1);
      assert blocks[..b][..b - 1] == blocks[..b - 1];
      assert blocks[..b] == blocks[..b - 1] + [blocks[b - 1]];
      FlattenSnoc(blocks[..b - 1], blocks[b - 1]);
    }
  }

  lemma SmallBlocks(sealer: Sealer, blocks: seq<seq<Bytes>>)
    requires Storable(sealer, blocks)
    ensures forall b :: 0 <= b < |blocks| ==> blocks[b] != [] && |blocks[b]| < U32 && |Flatten(blocks[b])| < U32
  {
    forall b | 0 <= b < |blocks| ensures blocks[b] != [] && |blocks[b]| < U32 && |Flatten(blocks[b])| < U32 {
      assert BlockStorable(sealer, blocks, b);
      SerializedSizes(blocks[b]);
    }
  }

  lemma CoveredSlot(sealer: Sealer, blocks: seq<seq<Bytes>>, b: nat, g: nat)
    requires Storable(sealer, blocks) && Covers(FileOf(sealer, blocks).dir, b, g)
    ensures b < |blocks| && FirstRecord(blocks[..b]) <= g < FirstRecord(blocks[..b]) + |blocks[b]|
    ensures g < |Flatten(blocks)| && Flatten(blocks)[g] == blocks[b][g - FirstRecord(blocks[..b])]
  {
    hide FileOf, FirstRecord, StartAt, Flatten, Storable, Due, SealBlock;
    SmallBlocks(sealer, blocks);
    FileOfDir(sealer, blocks);
    StartsOfFile(sealer, blocks, b);
    StartsOfFile(sealer, blocks, b + 1);
    FirstRecordCounts(blocks, b);
    assert blocks[..b + 1] == blocks[..b] + [blocks[b]];
    FileOfSnoc(sealer, blocks[..b], blocks[b]);
    ElementAt(blocks, b, g - FirstRecord(blocks[..b]));
  }

  lemma NoEmptyStored(sealer: Sealer, blocks: seq<seq<Bytes>>)
    requires Storable(sealer, blocks)
    ensures NoEmptyBlock(FileOf(sealer, blocks).dir)
  {
    hide FileOf, Storable, Flatten, FirstRecord, Due, SerializeBlock;
    SmallBlocks(sealer, blocks);
    forall b | 0 <= b < |FileOf(sealer, blocks).dir| ensures FileOf(sealer, blocks).dir[b].recCount > 0 {
      FileOfDir(sealer, blocks);
      FileOfAt(sealer, blocks, b);
      DueFields(sealer, blocks, b);
    }
  }

  /** The read of record `g` through the index returns the g-th record in append order. */
  method ReadRecordGlobal(f: File, open: Opener, g: nat, ghost sealer: Sealer, ghost blocks: seq<seq<Bytes>>)
    returns (r: Option<Bytes>)
    ensures r.Some? ==> |r.value| < U32
    ensures f == FileOf(sealer, blocks) && Storable(sealer, blocks) && Undoes(open, sealer) ==>
      r == if g < |Flatten(blocks)| then Some(Flatten(blocks)[g]) else None
  {
    var loc := Locate(f.dir, g);
    if f == FileOf(sealer, blocks) && Storable(sealer, blocks) && Undoes(open, sealer) {
      TotalIsCount(sealer, blocks);
      NoEmptyStored(sealer, blocks);
      if loc.Some? {
        RecordReadsBack(sealer, open, blocks, loc.value.0, g);
      }
    }
    if loc.None? {
      return None;
    }
    r := ReadRecord(f, open, loc.value.0, loc.value.1);
    RecordIsShort(f, open, loc.value.0, loc.value.1);
  }

  lemma RecordIsShort(f: File, open: Opener, b: nat, slot: nat)
    ensures ReadRecord(f, open, b, slot).Some? ==> |ReadRecord(f, open, b, slot).value| < U32
  {
    hide ReadBlock, ParseBlock;
    var raw := ReadBlock(f, open, b);
    if raw.Some? {
      ParsedIsShort(raw.value);
    }
  }

  lemma TotalIsCount(sealer: Sealer, blocks: seq<seq<Bytes>>)
    requires Storable(sealer, blocks)
    ensures TotalRecords(FileOf(sealer, blocks).dir) == |Flatten(blocks)|
  {
    SmallBlocks(sealer, blocks);
    StartsOfFile(sealer, blocks, |blocks|);
    FirstRecordCounts(blocks, |blocks|);
    assert blocks[..|blocks|] == blocks;
  }

  lemma RecordReadsBack(sealer: Sealer, open: Opener, blocks: seq<seq<Bytes>>, b: nat, g: nat)
    requires Storable(sealer, blocks) && Undoes(open, sealer) && Covers(FileOf(sealer, blocks).dir, b, g)
    ensures g < |Flatten(blocks)|
    ensures ReadRecord(FileOf(sealer, blocks), open, b, g - StartAt(FileOf(sealer, blocks).dir, b)) ==
      Some(Flatten(blocks)[g])
  {
    hide FileOf, FirstRecord, Flatten, StartAt, Storable, Undoes, ParseBlock, RecordFromBlock, SerializeBlock, Offsets,
         ReadBlock;
    CoveredSlot(sealer, blocks, b, g);
    StartsOfFile(sealer, blocks, b);
    SmallBlocks(sealer, blocks);
    BlockReadsBack(sealer, open, blocks, b);
    BlockRoundTripIff(blocks[b]);
    SlotIsRecord(blocks[b], g - FirstRecord(blocks[..b]));
  }

  // ---- ranged scans ----

  const SCAN_READAHEAD: nat := 16

  /** Records `lo` up to `hi`, each with its index. */
  ghost function Visits(records: seq<Bytes>, lo: nat, hi: nat): seq<(nat, Bytes)>
    requires lo <= hi <= |records|
  {
    seq(hi - lo, i requires 0 <= i < hi - lo => (lo + i, records[lo + i]))
  }

  lemma VisitsSplit(records: seq<Bytes>, lo: nat, mid: nat, hi: nat)
    requires lo <= mid <= hi <= |records|
    ensures Visits(records, lo, mid) + Visits(records, mid, hi) == Visits(records, lo, hi)
  {
  }

  function Clip(x: nat, lo: nat, hi: nat): nat {
    if x < lo then lo else if x > hi then hi else x
  }

  /** The file is a written one that opens. */
  ghost predicate Written(f: File, open: Opener, sealer: Sealer, blocks: seq<seq<Bytes>>) {
    f == FileOf(sealer, blocks) && Storable(sealer, blocks) && Undoes(open, sealer)
  }

  lemma BlockParses(f: File, open: Opener, sealer: Sealer, blocks: seq<seq<Bytes>>, b: nat)
    requires Written(f, open, sealer, blocks) && b < |blocks|
    ensures ReadBlock(f, open, b) == Some(SerializeBlock(blocks[b]))
    ensures ParseBlock(SerializeBlock(blocks[b])) == Some(Parsed(Offsets(blocks[b]), Flatten(blocks[b])))
    ensures |f.dir| == |blocks| && f.dir[b].recCount == |blocks[b]|
    ensures StartAt(f.dir, b + 1) == StartAt(f.dir, b) + |blocks[b]| <= |Flatten(blocks)|
    ensures forall slot :: 0 <= slot < |blocks[b]| ==> Flatten(blocks)[StartAt(f.dir, b) + slot] == blocks[b][slot]
  {
    hide FileOf, Storable, Flatten, FirstRecord, Due, SerializeBlock, ParseBlock, ReadBlock, Undoes;
    SmallBlocks(sealer, blocks);
    BlockReadsBack(sealer, open, blocks, b);
    BlockRoundTripIff(blocks[b]);
    FileOfAt(sealer, blocks, b);
    DueFields(sealer, blocks, b);
    StartsOfFile(sealer, blocks, b);
    FirstRecordCounts(blocks, b);
    TotalIsCount(sealer, blocks);
    StartsMonotone(f.dir, b + 1, |f.dir|);
    forall slot | 0 <= slot < |blocks[b]| ensures Flatten(blocks)[StartAt(f.dir, b) + slot] == blocks[b][slot] {
      ElementAt(blocks, b, slot);
    }
  }

  /** Hand out the records of block `b` that lie in `[lo, hi)`. */
  method VisitBlock(f: File, open: Opener, b: nat, lo: nat, hi: nat, ghost sealer: Sealer,
                    ghost blocks: seq<seq<Bytes>>)
    returns (r: Option<seq<(nat, Bytes)>>)
    requires b < |f.dir|
    ensures Written(f, open, sealer, blocks) && lo <= hi <= |Flatten(blocks)| ==>
      && StartAt(f.dir, b) <= StartAt(f.dir, b + 1)
      && r == Some(Visits(Flatten(blocks), Clip(StartAt(f.dir, b), lo, hi), Clip(StartAt(f.dir, b + 1), lo, hi)))
  {
    hide FileOf, Storable, Flatten, SerializeBlock, ParseBlock, ReadBlock, Undoes;
    ghost var ok := Written(f, open, sealer, blocks) && lo <= hi <= |Flatten(blocks)|;
    if ok {
      FileOfDir(sealer, blocks);
      BlockParses(f, open, sealer, blocks, b);
    }
    var raw := ReadBlock(f, open, b);
    if raw.None? {
      return None;
    }
    var parsed := ParseBlock(raw.value);
    if parsed.None? {
      return None;
    }
    var start := StartAt(f.dir, b);
    var out: seq<(nat, Bytes)> := [];
    var slot := 0;
    while slot < f.dir[b].recCount
      invariant 0 <= slot <= f.dir[b].recCount
      invariant ok ==> out == Visits(Flatten(blocks), Clip(start, lo, hi), Clip(start + slot, lo, hi))
    {
      var global := start + slot;
      if global >= hi {
        break;
      }
      if global >= lo {
        var rec := RecordFromBlock(parsed.value.offsets, parsed.value.data, slot);
        if ok {
          SlotIsRecord(blocks[b], slot);
        }
        if rec.None? {
          return None;
        }
        out := out + [(global, rec.value)];
      }
      slot := slot + 1;
    }
    r := Some(out);
  }

  /** One readahead window: blocks `from` up to `stop`, appended to what came before. */
  method VisitWindow(f: File, open: Opener, from: nat, stop: nat, lo: nat, hi: nat, before: seq<(nat, Bytes)>,
                     ghost sealer: Sealer, ghost blocks: seq<seq<Bytes>>)
    returns (r: Option<seq<(nat, Bytes)>>)
    requires from <= stop <= |f.dir|
    ensures Written(f, open, sealer, blocks) && lo <= hi <= |Flatten(blocks)|
      && before == Visits(Flatten(blocks), lo, Clip(StartAt(f.dir, from), lo, hi))
      ==> r == Some(Visits(Flatten(blocks), lo, Clip(StartAt(f.dir, stop), lo, hi)))
  {
    hide Flatten, Written, Visits, StartAt;
    ghost var ok := Written(f, open, sealer, blocks) && lo <= hi <= |Flatten(blocks)|
      && before == Visits(Flatten(blocks), lo, Clip(StartAt(f.dir, from), lo, hi));
    var out := before;
    for bi := from to stop
      invariant ok ==> out == Visits(Flatten(blocks), lo, Clip(StartAt(f.dir, bi), lo, hi))
    {
      var part := VisitBlock(f, open, bi, lo, hi, sealer, blocks);
      if part.None? {
        return None;
      }
      if ok {
        VisitsSplit(Flatten(blocks), lo, Clip(StartAt(f.dir, bi), lo, hi), Clip(StartAt(f.dir, bi + 1), lo, hi));
      }
      out := out + part.value;
    }
    r := Some(out);
  }

  /** Visit the records in `[lo, hi)`, window by window, decoding only the blocks that hold them. */
  method ForEachRecordIn(f: File, open: Opener, lo0: nat, hi0: nat, ghost sealer: Sealer, ghost blocks: seq<seq<Bytes>>)
    returns (r: Option<seq<(nat, Bytes)>>)
    ensures Written(f, open, sealer, blocks) ==>
      var n := |Flatten(blocks)|;
      var lo, hi := Clip(lo0, 0, n), Clip(hi0, 0, n);
      r == Some(if lo < hi then Visits(Flatten(blocks), lo, hi) else [])
  {
    hide FileOf, Storable, Flatten, Undoes;
    ghost var ok := Written(f, open, sealer, blocks);
    if ok {
      TotalIsCount(sealer, blocks);
      NoEmptyStored(sealer, blocks);
    }
    var total := TotalRecords(f.dir);
    var lo, hi := Clip(lo0, 0, total), Clip(hi0, 0, total);
    if lo >= hi {
      return Some([]);
    }
    var first := Locate(f.dir, lo);
    var last := Locate(f.dir, hi - 1);
    var bi, n := first.value.0, last.value.0 + 1;
    n := if n < |f.dir| then n else |f.dir|;
    if ok {
      CoversOrder(f.dir, bi, last.value.0, lo, hi - 1);
    }
    var out: seq<(nat, Bytes)> := [];
    while bi < n
      invariant ok ==> bi <= n && out == Visits(Flatten(blocks), lo, Clip(StartAt(f.dir, bi), lo, hi))
    {
      var stop := if bi + SCAN_READAHEAD < n then bi + SCAN_READAHEAD else n;
      var more := VisitWindow(f, open, bi, stop, lo, hi, out, sealer, blocks);
      if more.None? {
        return None;
      }
      out, bi := more.value, stop;
    }
    r := Some(out);
  }

  predicate NonDecreasing(cut: seq<nat>) {
    forall i, j :: 0 <= i < j < |cut| ==> cut[i] <= cut[j]
  }

  /** However the record space is cut into ascending ranges, scanning each range on its own visits
      every record between the first and the last bound exactly once, in order, wherever the bounds
      fall inside blocks or past the end. */
  method ScanCut(f: File, open: Opener, cut: seq<nat>, ghost sealer: Sealer, ghost blocks: seq<seq<Bytes>>)
    returns (r: Option<seq<seq<(nat, Bytes)>>>)
    requires cut != [] && NonDecreasing(cut)
    ensures Written(f, open, sealer, blocks) ==>
      var records := Flatten(blocks);
      && r.Some? && |r.value| == |cut| - 1
      && Clip(cut[0], 0, |records|) <= Clip(cut[|cut| - 1], 0, |records|)
      && Flatten(r.value) == Visits(records, Clip(cut[0], 0, |records|), Clip(cut[|cut| - 1], 0, |records|))
  {
    hide Written, Flatten, Visits;
    ghost var ok := Written(f, open, sealer, blocks);
    ghost var n := |Flatten(blocks)|;
    var parts: seq<seq<(nat, Bytes)>> := [];
    NoVisits(Flatten(blocks), Clip(cut[0], 0, n));
    for i := 0 to |cut| - 1
      invariant |parts| == i
      invariant ok ==> Flatten(parts) == Visits(Flatten(blocks), Clip(cut[0], 0, n), Clip(cut[i], 0, n))
    {
      var part := ForEachRecordIn(f, open, cut[i], cut[i + 1], sealer, blocks);
      if part.None? {
        return None;
      }
      if ok {
        NoVisits(Flatten(blocks), Clip(cut[i], 0, n));
        VisitsSplit(Flatten(blocks), Clip(cut[0], 0, n), Clip(cut[i], 0, n), Clip(cut[i + 1], 0, n));
        FlattenSnoc(parts, part.value);
      }
      parts := parts + [part.value];
    }
    r := Some(parts);
  }

  lemma NoVisits(records: seq<Bytes>, lo: nat)
    requires lo <= |records|
    ensures Visits(records, lo, lo) == [] && Flatten<(nat, Bytes)>([]) == []
  {
  }
}

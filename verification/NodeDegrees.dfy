/** The degree column (crates/graph-format/src/nodedegree.rs): out-degrees then in-degrees, each a run
    of fixed-width chunks stored as records of one block file. */
module NodeDegrees {
  import opened Collections
  import opened Order
  import opened Wire
  import opened BlockFormat
  import opened BlockFile
  import opened BlockWriter
  import opened BlockReader
  import EliasFano
  import opened DegreeChunk

  const DEGREES_PER_RECORD: nat := 0x4_0000

  function RecordsPerHalf(nodes: nat): nat {
    EliasFano.DivCeil(nodes, DEGREES_PER_RECORD)
  }

  /** Where chunk `k` starts, clipped to the column. */
  function Edge(degs: seq<nat>, k: nat): nat {
    EliasFano.Min(k * DEGREES_PER_RECORD, |degs|)
  }

  /** Chunk `k` of a column: `slice::chunks`, so the last one may be short. */
  function ChunkOf(degs: seq<nat>, k: nat): (c: seq<nat>)
    ensures |c| <= DEGREES_PER_RECORD
  {
    degs[Edge(degs, k)..Edge(degs, k + 1)]
  }

  /** Node `id` sits in chunk `id / D` at offset `id % D`, and that chunk exists. */
  lemma ChunkAddress(degs: seq<nat>, id: nat)
    requires id < |degs|
    ensures var k, off := id / DEGREES_PER_RECORD, id % DEGREES_PER_RECORD;
            k < RecordsPerHalf(|degs|) && off < |ChunkOf(degs, k)| && ChunkOf(degs, k)[off] == degs[id]
  {
    var k := id / DEGREES_PER_RECORD;
    assert id == k * DEGREES_PER_RECORD + id % DEGREES_PER_RECORD;
  }

  // ---- writing ----

  ghost predicate Half(records: seq<Bytes>, degs: seq<nat>, first: nat, count: nat, compress: Compress) {
    && first + count <= |records|
    && forall k :: 0 <= k < count ==> DegreeChunk.Stores(records[first + k], ChunkOf(degs, k), compress)
  }

  /** Exactly one record per chunk: the out half, then the in half. */
  ghost predicate Column(records: seq<Bytes>, outs: seq<nat>, ins: seq<nat>, compress: Compress) {
    && |outs| == |ins|
    && var per := RecordsPerHalf(|outs|);
       && |records| == 2 * per
       && Half(records, outs, 0, per, compress)
       && Half(records, ins, per, per, compress)
  }

  ghost predicate Ready(w: InlineWriter)
    reads w
  {
    w.Ok() && Pack(w.records, w.target) == Packed(w.written, w.cur)
  }

  predicate Degrees(degs: seq<nat>) {
    forall i :: 0 <= i < |degs| ==> degs[i] < U32
  }

  /** A compressor that never fails. */
  ghost predicate Total(compress: Compress) {
    forall x: seq<byte> :: compress(x).Some?
  }

  /** Append one half of the column, chunk by chunk; stops where a chunk fails to encode. */
  method WriteHalf(w: InlineWriter, degs: seq<nat>, margin: Margin, compress: Compress) returns (ok: bool)
    requires Ready(w) && Degrees(degs)
    modifies w
    ensures Ready(w)
    ensures ok ==> |w.records| == old(|w.records|) + RecordsPerHalf(|degs|) && old(w.records) <= w.records
    ensures ok ==> Half(w.records, degs, old(|w.records|), RecordsPerHalf(|degs|), compress)
    ensures Total(compress) ==> ok
  {
    hide FileOf, Pack, FirstRecord, Flatten, Offsets, DegreeChunk.Stores, FreeLen, RawLen, ZstdWins, Dense;
    var per := RecordsPerHalf(|degs|);
    ghost var first := |w.records|;
    for k := 0 to per
      invariant Ready(w) && old(w.records) <= w.records && |w.records| == first + k
      invariant Half(w.records, degs, first, k, compress)
    {
      ghost var before := w.records;
      var rec := EncodeChunk(ChunkOf(degs, k), margin, compress);
      if rec.None? {
        return false;
      }
      var _, _ := w.AppendRecord(rec.value);
      HalfGrows(before, rec.value, degs, first, k, compress);
    }
    ok := true;
  }

  lemma HalfGrows(records: seq<Bytes>, rec: Bytes, degs: seq<nat>, first: nat, k: nat, compress: Compress)
    requires Half(records, degs, first, k, compress) && |records| == first + k
    requires DegreeChunk.Stores(rec, ChunkOf(degs, k), compress)
    ensures Half(records + [rec], degs, first, k + 1, compress)
  {
    hide DegreeChunk.Stores, ChunkOf;
    forall j | 0 <= j < k + 1 ensures DegreeChunk.Stores((records + [rec])[first + j], ChunkOf(degs, j), compress) {
      if j < k { assert (records + [rec])[first + j] == records[first + j]; }
    }
  }

  lemma HalfExtends(a: seq<Bytes>, b: seq<Bytes>, degs: seq<nat>, first: nat, count: nat, compress: Compress)
    requires Half(a, degs, first, count, compress) && a <= b
    ensures Half(b, degs, first, count, compress)
  {
    hide DegreeChunk.Stores, ChunkOf;
  }

  lemma ColumnNonEmpty(records: seq<Bytes>, outs: seq<nat>, ins: seq<nat>, compress: Compress)
    requires Column(records, outs, ins, compress)
    ensures forall r :: r in records ==> r != []
  {
    var per := RecordsPerHalf(|outs|);
    forall i | 0 <= i < |records| ensures records[i] != [] {
      StoredAt(records, outs, ins, compress, i);
    }
  }

  /** Record `i` of a column holds chunk `i` of the out half, or chunk `i - per` of the in half. */
  lemma StoredAt(records: seq<Bytes>, outs: seq<nat>, ins: seq<nat>, compress: Compress, i: nat)
    requires Column(records, outs, ins, compress) && i < |records|
    ensures DegreeChunk.Stores(records[i], DegreesAt(outs, ins, i), compress)
  {
    hide DegreeChunk.Stores, ChunkOf;
    var per := RecordsPerHalf(|outs|);
    if i < per {
      assert records[0 + i] == records[i];
    } else {
      assert records[per + (i - per)] == records[i];
    }
  }

  /** Write the column. Every record reaches the file, in order. */
  method WriteNodeDegrees(outs: seq<nat>, ins: seq<nat>, target: nat, sealer: Sealer, margin: Margin,
                          compress: Compress)
    returns (f: Option<File>, ghost blocks: seq<seq<Bytes>>)
    requires Degrees(outs) && Degrees(ins)
    ensures |outs| != |ins| ==> f.None?
    ensures |outs| == |ins| && Total(compress) ==> f.Some?
    ensures f.Some? ==> f.value == FileOf(sealer, blocks) && Column(Flatten(blocks), outs, ins, compress)
  {
    hide FileOf, Pack, FirstRecord, Flatten, DegreeChunk.Stores, StoredBlocks;
    blocks := [];
    if |outs| != |ins| {
      return None, blocks;
    }
    var w := new InlineWriter(target, sealer);
    var ok := WriteHalf(w, outs, margin, compress);
    if !ok {
      return None, blocks;
    }
    ghost var half := w.records;
    ok := WriteHalf(w, ins, margin, compress);
    if !ok {
      return None, blocks;
    }
    ghost var records := w.records;
    HalfExtends(half, records, outs, 0, RecordsPerHalf(|outs|), compress);
    ColumnNonEmpty(records, outs, ins, compress);
    NonEmptyRecordsStored(records, w.target);
    var file := w.Finish();
    blocks := StoredBlocks(Pack(records, w.target));
    f := Some(file);
  }

  // ---- reading ----

  /** A readable column: the file, what it holds, and codecs that undo each other. */
  ghost predicate Stored(f: File, open: Opener, sealer: Sealer, blocks: seq<seq<Bytes>>, outs: seq<nat>, ins: seq<nat>,
                         compress: Compress, decompress: Decompress)
  {
    && f == FileOf(sealer, blocks) && Storable(sealer, blocks) && Undoes(open, sealer)
    && Column(Flatten(blocks), outs, ins, compress) && DegreeChunk.Inverts(decompress, compress)
  }

  /** Fault one chunk of one half. */
  method ReadDegreeChunk(f: File, open: Opener, decompress: Decompress, perHalf: nat, outgoing: bool, chunk: nat,
                         ghost sealer: Sealer, ghost blocks: seq<seq<Bytes>>, ghost outs: seq<nat>, ghost ins: seq<nat>,
                         ghost compress: Compress)
    returns (r: Option<Chunk>)
    ensures chunk >= perHalf ==> r.None?
    ensures Stored(f, open, sealer, blocks, outs, ins, compress, decompress) ==>
      perHalf == RecordsPerHalf(|outs|) && chunk < perHalf ==>
      r.Some? && Gives(r.value, ChunkOf(if outgoing then outs else ins, chunk))
  {
    hide FileOf, Storable, Undoes, Flatten, DegreeChunk.Stores, DegreeChunk.Inverts, Gives, ChunkOf, Column, FromDense;
    if chunk >= perHalf {
      return None;
    }
    var global := if outgoing then chunk else perHalf + chunk;
    var bytes := ReadRecordGlobal(f, open, global, sealer, blocks);
    if Stored(f, open, sealer, blocks, outs, ins, compress, decompress) && perHalf == RecordsPerHalf(|outs|) {
      ColumnLength(Flatten(blocks), outs, ins, compress);
      StoredAt(Flatten(blocks), outs, ins, compress, global);
    }
    if bytes.None? {
      return None;
    }
    r := DecodeChunk(bytes.value, decompress, ChunkOf(if outgoing then outs else ins, chunk), compress);
  }

  lemma ColumnLength(records: seq<Bytes>, outs: seq<nat>, ins: seq<nat>, compress: Compress)
    requires Column(records, outs, ins, compress)
    ensures |records| == 2 * RecordsPerHalf(|outs|) && |outs| == |ins|
  {
  }

  method DegreeIn(find: Search, c: Chunk, off: nat, ghost d: seq<nat>) returns (r: Option<nat>)
    requires Searches(find) && Gives(c, d)
    ensures r == if off < |d| then Some(d[off]) else None
  {
    hide DegreesOf, Searches;
    var o := DegreeChunk.DegreeAt(find, c, off);
    r := if o.Degree? then Some(o.d) else None;
  }

  /** A lookup by node id, through one chunk: the right half, the right node. */
  method DegreeOfNode(find: Search, f: File, open: Opener, decompress: Decompress, outgoing: bool, id: nat,
                      ghost sealer: Sealer, ghost blocks: seq<seq<Bytes>>, ghost outs: seq<nat>, ghost ins: seq<nat>,
                      ghost compress: Compress, nodes: nat)
    returns (r: Option<nat>)
    requires Searches(find) && Stored(f, open, sealer, blocks, outs, ins, compress, decompress) && nodes == |outs|
    ensures r == if id < nodes then Some((if outgoing then outs else ins)[id]) else None
  {
    hide FileOf, Storable, Undoes, Flatten, DegreeChunk.Inverts, DegreesOf, Gives, ChunkOf, Searches;
    ColumnLength(Flatten(blocks), outs, ins, compress);
    var chunk := id / DEGREES_PER_RECORD;
    var c := ReadDegreeChunk(f, open, decompress, RecordsPerHalf(nodes), outgoing, chunk, sealer, blocks, outs, ins,
                             compress);
    if id < nodes {
      ChunkAddress(outs, id);
      ChunkAddress(ins, id);
    } else {
      PastTheEnd(outs, id);
      PastTheEnd(ins, id);
    }
    if c.None? {
      return None;
    }
    if chunk < RecordsPerHalf(nodes) {
      r := DegreeIn(find, c.value, id % DEGREES_PER_RECORD, ChunkOf(if outgoing then outs else ins, chunk));
    } else {
      r := None;
    }
  }

  lemma PastTheEnd(degs: seq<nat>, id: nat)
    requires id >= |degs|
    ensures id % DEGREES_PER_RECORD >= |ChunkOf(degs, id / DEGREES_PER_RECORD)|
  {
    assert id == id / DEGREES_PER_RECORD * DEGREES_PER_RECORD + id % DEGREES_PER_RECORD;
  }

  /** The eager read: every record decoded into its half, and both halves held to the node count. A
      file with the wrong number of records is refused, and whatever is returned has one degree per
      node in each half; a written column gives back both columns. */
  method ReadNodeDegrees(f: File, open: Opener, decompress: Decompress, nodes: nat,
                         ghost sealer: Sealer, ghost blocks: seq<seq<Bytes>>,
                         ghost outs: seq<nat>, ghost ins: seq<nat>, ghost compress: Compress)
    returns (r: Option<(seq<nat>, seq<nat>)>)
    ensures Stored(f, open, sealer, blocks, outs, ins, compress, decompress) && nodes == |outs| ==>
      r == Some((outs, ins))
    ensures TotalRecords(f.dir) != 2 * RecordsPerHalf(nodes) ==> r.None?
    ensures r.Some? ==> |r.value.0| == |r.value.1| == nodes
  {
    hide FileOf, Storable, Undoes, Flatten, DegreeChunk.Stores, DegreeChunk.Inverts, Gives, Fit, ChunkOf, Column,
         FromDense;
    hide DegreesOf, Lists, UpTo;
    ghost var ok := Stored(f, open, sealer, blocks, outs, ins, compress, decompress) && nodes == |outs|;
    var per := RecordsPerHalf(nodes);
    var total := TotalRecords(f.dir);
    if ok {
      TotalIsCount(sealer, blocks);
      ColumnLength(Flatten(blocks), outs, ins, compress);
    }
    if total != per * 2 {
      return None;
    }
    var out, inn := [], [];
    NoChunks(outs);
    NoChunks(ins);
    for i := 0 to total
      invariant ok ==> out == UpTo(outs, EliasFano.Min(i, per)) && inn == UpTo(ins, if i < per then 0 else i - per)
    {
      var degs := ReadRecordDegrees(f, open, decompress, i, sealer, blocks, outs, ins, compress);
      if degs.None? {
        return None;
      }
      if i < per {
        NextChunk(outs, i);
        out := out + degs.value;
      } else {
        NextChunk(ins, i - per);
        inn := inn + degs.value;
      }
    }
    if ok {
      AllChunks(outs, per);
      AllChunks(ins, per);
    }
    if |out| != nodes || |inn| != nodes {
      return None;
    }
    r := Some((out, inn));
  }

  /** Read one record and materialise it. */
  method ReadRecordDegrees(f: File, open: Opener, decompress: Decompress, i: nat,
                           ghost sealer: Sealer, ghost blocks: seq<seq<Bytes>>,
                           ghost outs: seq<nat>, ghost ins: seq<nat>, ghost compress: Compress)
    returns (r: Option<seq<nat>>)
    ensures Stored(f, open, sealer, blocks, outs, ins, compress, decompress) && i < |Flatten(blocks)| ==>
      r == Some(DegreesAt(outs, ins, i))
  {
    hide FileOf, Storable, Undoes, Flatten, DegreeChunk.Stores, DegreeChunk.Inverts, Gives, ChunkOf, Column, FromDense,
         Lists;
    var bytes := ReadRecordGlobal(f, open, i, sealer, blocks);
    ghost var ok := Stored(f, open, sealer, blocks, outs, ins, compress, decompress) && i < |Flatten(blocks)|;
    if ok {
      StoredAt(Flatten(blocks), outs, ins, compress, i);
    }
    if bytes.None? {
      return None;
    }
    var c := DecodeChunk(bytes.value, decompress, DegreesAt(outs, ins, i), compress);
    if c.None? {
      return None;
    }
    if ok {
      GivesFits(c.value, DegreesAt(outs, ins, i));
    }
    var d := DegreeChunk.ToDegrees(c.value);
    r := Some(d);
  }

  /** The degrees record `i` of a column holds. */
  ghost function DegreesAt(outs: seq<nat>, ins: seq<nat>, i: nat): seq<nat> {
    var per := RecordsPerHalf(|outs|);
    if i < per then ChunkOf(outs, i) else ChunkOf(ins, i - per)
  }

  /** The degrees of the first `k` chunks. */
  function UpTo(degs: seq<nat>, k: nat): seq<nat> {
    degs[..Edge(degs, k)]
  }

  lemma NoChunks(degs: seq<nat>)
    ensures UpTo(degs, 0) == []
  {
  }

  lemma NextChunk(degs: seq<nat>, k: nat)
    ensures UpTo(degs, k + 1) == UpTo(degs, k) + ChunkOf(degs, k)
  {
  }

  lemma AllChunks(degs: seq<nat>, per: nat)
    requires per == RecordsPerHalf(|degs|)
    ensures UpTo(degs, per) == degs
  {
  }
}

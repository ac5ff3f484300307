/** The streaming writer. `InlineWriter` seals on the appending thread. `Pool` is the same writer
    handing full blocks to seal workers that finish in any order: a state machine whose steps
    are the lock sections of the appending thread and of the workers. */
module BlockWriter {
  import opened Collections
  import opened Wire
  import opened BlockFormat
  import opened BlockFile

  class InlineWriter {
    const target: nat
    const sealer: Sealer
    var region: Bytes
    var dir: seq<DirEntry>
    var offset: nat
    var curOffsets: seq<nat>
    var curData: Bytes
    var nextBlock: nat
    var sealedRecords: nat
    ghost var records: seq<Bytes>      // everything appended
    ghost var written: seq<seq<Bytes>> // blocks written so far
    ghost var cur: seq<Bytes>          // records of the open group

    ghost predicate Ok()
      reads this
    {
      && target > 0
      && offset == MAGIC_LEN + |region|
      && File(region, dir) == FileOf(sealer, written)
      && nextBlock == |written| && sealedRecords == FirstRecord(written)
      && curOffsets == Offsets(cur) && curData == Flatten(cur)
    }

    constructor (targetBytes: nat, sealer: Sealer)
      ensures Ok() && records == [] && Pack(records, target) == Packed(written, cur)
      ensures target == (if targetBytes == 0 then 1 else targetBytes) && this.sealer == sealer
    {
      target := if targetBytes == 0 then 1 else targetBytes;
      this.sealer := sealer;
      region, dir, offset := [], [], MAGIC_LEN;
      curOffsets, curData := [0], [];
      nextBlock, sealedRecords := 0, 0;
      records, written, cur := [], [], [];
    }

    /** Append one record; the location returned is the open block and the next free slot. */
    method AppendRecord(record: Bytes) returns (block: nat, slot: nat)
      requires Ok() && Pack(records, target) == Packed(written, cur)
      modifies this
      ensures Ok() && Pack(records, target) == Packed(written, cur)
      ensures records == old(records) + [record]
      ensures block == old(|written|) && slot == old(|cur|)
    {
      hide FileOf, FirstRecord, Flatten, Offsets, Pack;
      block, slot := nextBlock, |curOffsets| - 1;
      curData := curData + record;
      curOffsets := curOffsets + [|curData|];
      PackSnoc(records, record, target);
      OffsetsSnoc(cur, record);
      cur := cur + [record];
      records := records + [record];
      if |curData| >= target {
        FlushBlock();
      }
    }

    /** Serialise, seal and write the open group; a group without bytes stays where it is. */
    method FlushBlock()
      requires Ok()
      modifies this
      ensures Ok() && records == old(records)
      ensures written == if old(curData) == [] then old(written) else old(written) + [old(cur)]
      ensures cur == if old(curData) == [] then old(cur) else []
    {
      if curData != [] {
        SealOpenGroup();
      }
    }

    method SealOpenGroup()
      requires Ok()
      modifies this
      ensures Ok() && records == old(records)
      ensures written == old(written) + [old(cur)] && cur == []
    {
      hide SerializeBlock, Offsets, FileOf, FirstRecord, Flatten;
      FileOfSnoc(sealer, written, cur);
      ghost var block := cur;
      var raw, count := TakeRawBlock();
      var stored := sealer.stored(nextBlock, sealedRecords, raw, count);
      WriteSealed(Sealed(stored, |raw| % U32, count, sealer.nonce(nextBlock)));
      assert File(region, dir) == FileOf(sealer, written + [block]);
      nextBlock := nextBlock + 1;
      sealedRecords := sealedRecords + count;
      written := written + [block];
    }

    /** Serialise the open group and reset the accumulators. */
    method TakeRawBlock() returns (raw: Bytes, count: nat)
      requires curOffsets == Offsets(cur) && curData == Flatten(cur)
      modifies this`curOffsets, this`curData, this`cur
      ensures raw == SerializeBlock(old(cur)) && count == old(|cur|) % U32
      ensures cur == [] && curOffsets == Offsets(cur) && curData == Flatten(cur)
    {
      count := (|curOffsets| - 1) % U32;
      raw := LeBytes(|curOffsets| - 1, 4) + WordBytes(curOffsets) + curData;
      curOffsets, curData, cur := [0], [], [];
    }

    /** Write one sealed block at the current offset and record its directory entry. */
    method WriteSealed(b: Sealed)
      requires offset == MAGIC_LEN + |region|
      modifies this`region, this`dir, this`offset
      ensures File(region, dir) == Appended(File(old(region), old(dir)), b)
      ensures offset == MAGIC_LEN + |region|
    {
      dir := dir + [DirEntry(offset, |b.stored| % U32, b.rawLen, b.recCount, b.nonce)];
      region := region + b.stored;
      offset := offset + |b.stored|;
    }

    /** The finished file is the reference file of the stored blocks. */
    method Finish() returns (f: File)
      requires Ok() && Pack(records, target) == Packed(written, cur)
      modifies this
      ensures f == FileOf(sealer, StoredBlocks(Pack(old(records), target)))
    {
      FlushBlock();
      f := File(region, dir);
    }
  }

  lemma OffsetsSnoc(records: seq<Bytes>, r: Bytes)
    ensures Offsets(records + [r]) == Offsets(records) + [|Flatten(records)| + |r|]
    ensures Flatten(records + [r]) == Flatten(records) + r
  {
    assert (records + [r])[..|records|] == records;
    FlattenSnoc(records, r);
  }

  // ---- locations handed out by append ----

  /** All groups, the open one last. */
  function Groups(p: Packed): seq<seq<Bytes>> {
    p.blocks + [p.cur]
  }

  /** The location handed out for record `g`. */
  function LocationOf(records: seq<Bytes>, target: nat, g: nat): (nat, nat)
    requires g <= |records|
  {
    var p := Pack(records[..g], target);
    (|p.blocks|, |p.cur|)
  }

  ghost predicate Sits(p: Packed, loc: (nat, nat), g: nat, record: Bytes) {
    var (b, slot) := loc;
    && b <= |p.blocks| && slot < |Groups(p)[b]| && Groups(p)[b][slot] == record
    && |Flatten(Groups(p)[..b])| + slot == g
  }

  lemma SitsAfter(p: Packed, loc: (nat, nat), g: nat, record: Bytes, r: Bytes, target: nat)
    requires Sits(p, loc, g, record)
    ensures Sits(PackOne(p, r, target), loc, g, record)
  {
    var q := PackOne(p, r, target);
    assert Groups(q)[..loc.0] == Groups(p)[..loc.0];
  }

  /** The location handed out for a record is where it sits among the groups, for good: `g`
      records precede it. */
  lemma {:induction false} LocationIsPosition(records: seq<Bytes>, target: nat, g: nat)
    requires g < |records| && target > 0
    ensures Sits(Pack(records, target), LocationOf(records, target, g), g, records[g])
    decreases |records|
  {
    var n := |records| - 1;
    assert records == records[..n] + [records[n]];
    var p := Pack(records[..n], target);
    if g < n {
      LocationIsPosition(records[..n], target, g);
      assert records[..n][..g] == records[..g];
      SitsAfter(p, LocationOf(records, target, g), g, records[g], records[n], target);
    } else {
      PackKeeps(records[..n], target);
      assert Groups(PackOne(p, records[n], target))[..|p.blocks|] == p.blocks;
    }
  }

  // ---- the shared pipeline ----

  datatype Job = Job(first: nat, block: seq<Bytes>)

  /** Submitted blocks on their way to the file. */
  datatype Pipe = Pipe(
    sent: seq<seq<Bytes>>,            // history: blocks submitted
    nextBlock: nat,
    sealedRecords: nat,
    running: map<nat, Job>,           // queued or being sealed
    releasing: set<nat>,              // sealed, permit not yet given back
    done: map<nat, Sealed>,           // sealed, waiting for their turn
    failed: set<nat>,                 // seal failed
    file: File)                       // `next_write` is the directory length

  function Submitted(p: Pipe, b: seq<Bytes>): Pipe {
    p.(sent := p.sent + [b], nextBlock := p.nextBlock + 1, sealedRecords := p.sealedRecords + |b| % U32,
       running := p.running[p.nextBlock := Job(p.sealedRecords, b)])
  }

  function SealedOk(sealer: Sealer, p: Pipe, i: nat): Pipe
    requires i in p.running
  {
    p.(running := p.running - {i}, releasing := p.releasing + {i},
       done := p.done[i := SealBlock(sealer, i, p.running[i].first, p.running[i].block)])
  }

  function SealedErr(p: Pipe, i: nat): Pipe
    requires i in p.running
  {
    p.(running := p.running - {i}, releasing := p.releasing + {i}, failed := p.failed + {i})
  }

  function NextWrite(p: Pipe): nat {
    |p.file.dir|
  }

  function Drained(p: Pipe): Pipe
    requires NextWrite(p) in p.done
  {
    p.(file := Appended(p.file, p.done[NextWrite(p)]), done := p.done - {NextWrite(p)})
  }

  /** Written, done, running and failed blocks partition the submitted ones, the written ones
      are a prefix, and every sealed block is what its submission is due. */
  ghost predicate Ordered(sealer: Sealer, p: Pipe) {
    && NextWrite(p) <= p.nextBlock == |p.sent| && p.sealedRecords == FirstRecord(p.sent)
    && p.file == FileOf(sealer, p.sent[..NextWrite(p)])
    && (forall i :: i in p.running ==> i < |p.sent| && p.running[i] == Job(FirstRecord(p.sent[..i]), p.sent[i]))
    && (forall i :: i in p.done ==> i < |p.sent| && p.done[i] == Due(sealer, p.sent, i))
    && Partition(p)
  }

  ghost predicate Partition(p: Pipe) {
    && (forall i :: NextWrite(p) <= i < p.nextBlock <==> i in p.running.Keys + p.done.Keys + p.failed)
    && p.running.Keys !! p.done.Keys && p.running.Keys !! p.failed && p.done.Keys !! p.failed
    && p.running.Keys !! p.releasing
  }

  lemma SubmitOrdered(sealer: Sealer, p: Pipe, b: seq<Bytes>)
    requires Ordered(sealer, p) && forall i :: i in p.releasing ==> i < p.nextBlock
    ensures Ordered(sealer, Submitted(p, b))
  {
    hide SealBlock, FileOf, FirstRecord;
    var q := Submitted(p, b);
    assert forall i :: 0 <= i <= |p.sent| ==> q.sent[..i] == p.sent[..i];
    assert q.sent[..p.nextBlock] == p.sent;
    FileOfSnoc(sealer, p.sent, b);
    assert p.nextBlock !in p.running.Keys + p.done.Keys + p.failed;
  }

  lemma SealOkOrdered(sealer: Sealer, p: Pipe, i: nat)
    requires Ordered(sealer, p) && i in p.running
    ensures Ordered(sealer, SealedOk(sealer, p, i))
  {
    hide SealBlock, FileOf, FirstRecord;
    var q := SealedOk(sealer, p, i);
    assert q.running.Keys + q.done.Keys + q.failed == p.running.Keys + p.done.Keys + p.failed;
  }

  lemma SealErrOrdered(sealer: Sealer, p: Pipe, i: nat)
    requires Ordered(sealer, p) && i in p.running
    ensures Ordered(sealer, SealedErr(p, i))
  {
    hide SealBlock, FileOf, FirstRecord;
    var q := SealedErr(p, i);
    assert q.running.Keys + q.done.Keys + q.failed == p.running.Keys + p.done.Keys + p.failed;
  }

  lemma DrainOrdered(sealer: Sealer, p: Pipe)
    requires Ordered(sealer, p) && NextWrite(p) in p.done
    ensures Ordered(sealer, Drained(p))
  {
    hide SealBlock, FileOf, FirstRecord;
    var n, q := NextWrite(p), Drained(p);
    assert n in p.running.Keys + p.done.Keys + p.failed;
    assert p.sent[..n + 1] == p.sent[..n] + [p.sent[n]];
    FileOfSnoc(sealer, p.sent[..n], p.sent[n]);
    assert q.running.Keys + q.done.Keys + q.failed == p.running.Keys + p.done.Keys + p.failed - {n};
  }

  // ---- the appending thread and its workers ----

  datatype Phase =
    | Filling
    | Submitting(finishing: bool, block: seq<Bytes>)  // waiting for a permit
    | Draining(finishing: bool)                       // writing the ready prefix
    | Waiting                                         // finish: all submitted, stragglers running
    | LastDrain
    | Finished                                        // finish returned the block count
    | Failed                                          // finish returned an error

  datatype Pool = Pool(
    appended: seq<Bytes>,             // history: records appended
    locs: seq<(nat, nat)>,            // history: locations returned
    cur: seq<Bytes>,
    phase: Phase,
    pipe: Pipe,
    err: bool,                        // a worker's error waits to be taken
    reported: bool,                   // history: some call returned an error
    others: nat)                      // permits held by other writers

  datatype Step =
    | Append(record: Bytes) | BeginFinish | Submit
    | SealOk(i: nat) | SealErr(i: nat) | Release(i: nat)
    | DrainOne | DrainEnd | Waited | OthersMove(k: nat)

  datatype Setup = Setup(target: nat, cap: nat, sealer: Sealer)

  function Start(others: nat): Pool {
    Pool([], [], [], Filling, Pipe([], 0, 0, map[], {}, map[], {}, File([], [])), false, false, others)
  }

  /** Permits taken: every block queued or being sealed, here or in another writer. */
  function Held(s: Pool): nat {
    s.others + |s.pipe.running| + |s.pipe.releasing|
  }

  ghost predicate Next(c: Setup, s: Pool, step: Step, t: Pool) {
    match step
    case Append(r) =>
      && s.phase == Filling
      && var cur := s.cur + [r];
         var u := s.(appended := s.appended + [r], locs := s.locs + [(s.pipe.nextBlock, |s.cur|)]);
         t == if |Flatten(cur)| >= c.target then u.(cur := [], phase := Submitting(false, cur)) else u.(cur := cur)
    case BeginFinish =>
      && s.phase == Filling
      && t == if Flatten(s.cur) == [] then s.(phase := Waiting) else s.(cur := [], phase := Submitting(true, s.cur))
    case Submit =>
      && s.phase.Submitting? && Held(s) < c.cap
      && t == s.(pipe := Submitted(s.pipe, s.phase.block), phase := Draining(s.phase.finishing))
    case SealOk(i) =>
      i in s.pipe.running && t == s.(pipe := SealedOk(c.sealer, s.pipe, i))
    case SealErr(i) =>
      i in s.pipe.running && t == s.(pipe := SealedErr(s.pipe, i), err := true)
    case Release(i) =>
      i in s.pipe.releasing && t == s.(pipe := s.pipe.(releasing := s.pipe.releasing - {i}))
    case DrainOne =>
      && (s.phase.Draining? || s.phase.LastDrain?) && NextWrite(s.pipe) in s.pipe.done
      && t == s.(pipe := Drained(s.pipe))
    case DrainEnd =>
      && (s.phase.Draining? || s.phase.LastDrain?) && NextWrite(s.pipe) !in s.pipe.done
      && var u := s.(err := false, reported := s.reported || s.err);
         t == if s.phase.LastDrain? then u.(phase := if s.err then Failed else Finished)
              else if s.phase.finishing then u.(phase := if s.err then Failed else Waiting)
              else u.(phase := Filling)
    case Waited =>
      && s.phase == Waiting && s.pipe.running == map[] && s.pipe.releasing == {}
      && t == if s.err then s.(phase := Failed, err := false, reported := true) else s.(phase := LastDrain)
    case OthersMove(k) =>
      k + |s.pipe.running| + |s.pipe.releasing| <= c.cap && t == s.(others := k)
  }

  // ---- the invariant ----

  ghost predicate Faults(s: Pool) {
    && (s.pipe.failed != {} <==> s.err || s.reported)
    && (s.phase.LastDrain? || s.phase.Finished? ==> s.pipe.running == map[] && !s.err)
    && (s.phase.Finished? ==> NextWrite(s.pipe) !in s.pipe.done)
  }

  ghost predicate Packing(c: Setup, s: Pool) {
    var p := Pack(s.appended, c.target);
    match s.phase
    case Filling => p == Packed(s.pipe.sent, s.cur)
    case Submitting(fin, b) =>
      if fin then p == Packed(s.pipe.sent, b) && Flatten(b) != [] else p == Packed(s.pipe.sent + [b], s.cur)
    case Draining(fin) => if fin then s.pipe.sent == StoredBlocks(p) else p == Packed(s.pipe.sent, s.cur)
    case Failed => true
    case _ => s.pipe.sent == StoredBlocks(p)
  }

  ghost predicate Located(c: Setup, s: Pool) {
    && |s.locs| == |s.appended|
    && (forall g :: 0 <= g < |s.locs| ==> s.locs[g] == LocationOf(s.appended, c.target, g))
  }

  ghost predicate Permits(c: Setup, s: Pool) {
    Held(s) <= c.cap && forall i :: i in s.pipe.releasing ==> i < s.pipe.nextBlock
  }

  ghost predicate Inv(c: Setup, s: Pool) {
    Ordered(c.sealer, s.pipe) && Faults(s) && Packing(c, s) && Located(c, s) && Permits(c, s)
  }

  lemma StepOrdered(c: Setup, s: Pool, step: Step, t: Pool)
    requires Ordered(c.sealer, s.pipe) && Permits(c, s) && Next(c, s, step, t)
    ensures Ordered(c.sealer, t.pipe)
  {
    match step
    case Submit => SubmitOrdered(c.sealer, s.pipe, s.phase.block);
    case SealOk(i) => SealOkOrdered(c.sealer, s.pipe, i);
    case SealErr(i) => SealErrOrdered(c.sealer, s.pipe, i);
    case DrainOne => DrainOrdered(c.sealer, s.pipe);
    case _ =>
  }

  lemma StepFaults(c: Setup, s: Pool, step: Step, t: Pool)
    requires Faults(s) && Next(c, s, step, t)
    ensures Faults(t)
  {
    hide Flatten, SealBlock;
  }

  lemma StepPacking(c: Setup, s: Pool, step: Step, t: Pool)
    requires Packing(c, s) && Next(c, s, step, t)
    ensures Packing(c, t)
  {
    hide Pack, Flatten, Appended, SealBlock;
    match step
    case Append(r) => PackSnoc(s.appended, r, c.target);
    case _ =>
  }

  lemma StepLocated(c: Setup, s: Pool, step: Step, t: Pool)
    requires s.pipe.nextBlock == |s.pipe.sent| && Packing(c, s) && Located(c, s) && Next(c, s, step, t)
    ensures Located(c, t)
  {
    hide Pack;
    if step.Append? {
      forall g | 0 <= g < |t.locs| ensures t.locs[g] == LocationOf(t.appended, c.target, g) {
        if g < |s.locs| {
          assert t.appended[..g] == s.appended[..g];
        } else {
          assert t.appended[..g] == s.appended;
        }
      }
    }
  }

  lemma StepPermits(c: Setup, s: Pool, step: Step, t: Pool)
    requires Partition(s.pipe) && Permits(c, s) && Next(c, s, step, t)
    ensures Permits(c, t)
  {
    hide Next, Permits, Partition;
    if step.Submit? || step.SealOk? || step.SealErr? {
      PipePermits(c, s, step, t);
    } else {
      QuietPermits(c, s, step, t);
    }
  }

  lemma PipePermits(c: Setup, s: Pool, step: Step, t: Pool)
    requires Partition(s.pipe) && Permits(c, s) && Next(c, s, step, t)
    requires step.Submit? || step.SealOk? || step.SealErr?
    ensures Permits(c, t)
  {
    hide SealBlock, Partition;
    match step
    case Submit => SubmitPermits(s.pipe, s.phase.block);
    case SealOk(i) => SealPermits(s.pipe, t.pipe, i);
    case SealErr(i) => SealPermits(s.pipe, t.pipe, i);
  }

  lemma QuietPermits(c: Setup, s: Pool, step: Step, t: Pool)
    requires Permits(c, s) && Next(c, s, step, t) && !step.Submit? && !step.SealOk? && !step.SealErr?
    ensures Permits(c, t)
  {
    hide Flatten, Appended, Permits;
    match step
    case Release(i) => FewerPermits(c, s, t);
    case DrainOne => FewerPermits(c, s, t);
    case Append(_) => FewerPermits(c, s, t);
    case BeginFinish => FewerPermits(c, s, t);
    case DrainEnd => FewerPermits(c, s, t);
    case Waited => FewerPermits(c, s, t);
    case OthersMove(_) => OthersPermits(c, s, t);
  }

  lemma FewerPermits(c: Setup, s: Pool, t: Pool)
    requires Permits(c, s) && t.others == s.others && t.pipe.nextBlock == s.pipe.nextBlock
    requires t.pipe.running == s.pipe.running && t.pipe.releasing <= s.pipe.releasing
    ensures Permits(c, t)
  {
    assert s.pipe.releasing == t.pipe.releasing + (s.pipe.releasing - t.pipe.releasing);
  }

  lemma OthersPermits(c: Setup, s: Pool, t: Pool)
    requires Permits(c, s) && t.pipe == s.pipe && Held(t) <= c.cap
    ensures Permits(c, t)
  {
  }

  lemma SubmitPermits(p: Pipe, b: seq<Bytes>)
    requires Partition(p)
    ensures |Submitted(p, b).running| == |p.running| + 1
  {
    hide Partition;
    NewIndex(p);
    assert Submitted(p, b).running.Keys == p.running.Keys + {p.nextBlock};
  }

  lemma NewIndex(p: Pipe)
    requires Partition(p)
    ensures p.nextBlock !in p.running
  {
    assert p.nextBlock !in p.running.Keys + p.done.Keys + p.failed;
  }

  lemma SealPermits(p: Pipe, q: Pipe, i: nat)
    requires Partition(p) && i in p.running && q.running == p.running - {i} && q.releasing == p.releasing + {i}
    ensures |q.running| + |q.releasing| == |p.running| + |p.releasing| && i < p.nextBlock
  {
    assert q.running.Keys == p.running.Keys - {i};
    assert i in p.running.Keys + p.done.Keys + p.failed;
  }

  lemma StepKeeps(c: Setup, s: Pool, step: Step, t: Pool)
    requires Inv(c, s) && Next(c, s, step, t)
    ensures Inv(c, t)
  {
    StepOrdered(c, s, step, t);
    hide FileOf, FirstRecord, SealBlock, Flatten, Pack;
    StepFaults(c, s, step, t);
    StepPacking(c, s, step, t);
    StepLocated(c, s, step, t);
    StepPermits(c, s, step, t);
  }

  // ---- whole runs ----

  ghost predicate Run(c: Setup, states: seq<Pool>, steps: seq<Step>) {
    && |states| == |steps| + 1
    && (exists k: nat :: k <= c.cap && states[0] == Start(k))
    && (forall j :: 0 <= j < |steps| ==> Next(c, states[j], steps[j], states[j + 1]))
  }

  lemma {:induction false} RunKeeps(c: Setup, states: seq<Pool>, steps: seq<Step>, j: nat)
    requires Run(c, states, steps) && j < |states|
    ensures Inv(c, states[j])
  {
    hide Inv, Next, Pack, FileOf;
    if j == 0 {
      var k: nat :| k <= c.cap && states[0] == Start(k);
      StartInv(c, k);
    } else {
      RunKeeps(c, states, steps, j - 1);
      assert Next(c, states[j - 1], steps[j - 1], states[j - 1 + 1]);
      StepKeeps(c, states[j - 1], steps[j - 1], states[j]);
    }
  }

  lemma StartInv(c: Setup, k: nat)
    requires k <= c.cap
    ensures Inv(c, Start(k))
  {
    assert Start(k).pipe.sent[..0] == [];
  }

  /** How far the file goes once nothing is running and the next block is not sealed: up to the
      first block whose seal failed. */
  ghost predicate Reaches(p: Pipe) {
    && (p.failed == {} ==> NextWrite(p) == |p.sent|)
    && (p.failed != {} ==> NextWrite(p) in p.failed && forall i :: i in p.failed ==> NextWrite(p) <= i)
  }

  lemma FinishedReaches(sealer: Sealer, p: Pipe)
    requires Ordered(sealer, p) && p.running == map[] && NextWrite(p) !in p.done
    ensures Reaches(p)
  {
    hide FileOf, FirstRecord, SealBlock;
    var n := NextWrite(p);
    assert n < p.nextBlock ==> n in p.running.Keys + p.done.Keys + p.failed;
    if p.failed != {} {
      var i :| i in p.failed;
      assert i in p.running.Keys + p.done.Keys + p.failed;
    }
    assert forall i :: i in p.failed ==> i in p.running.Keys + p.done.Keys + p.failed;
  }

  lemma ShorterFileDiffers(sealer: Sealer, blocks: seq<seq<Bytes>>, n: nat)
    requires n <= |blocks|
    ensures FileOf(sealer, blocks[..n]) == FileOf(sealer, blocks) <==> n == |blocks|
  {
    hide FileOf;
    FileOfDir(sealer, blocks[..n]);
    FileOfDir(sealer, blocks);
    if n == |blocks| {
      assert blocks[..n] == blocks;
    }
  }

  /** Whatever order the workers finish in, and whatever calls follow an error: what is on disk is
      always the reference file of a prefix of the submitted blocks, and the blocks queued or
      being sealed never exceed the permits. Once `finish` succeeds the file is the whole reference
      file, the one the inline writer writes, if and only if no call has returned an error;
      otherwise it stops at the first block whose seal failed. */
  lemma EveryRunWritesTheInlineFile(c: Setup, states: seq<Pool>, steps: seq<Step>, j: nat)
    requires Run(c, states, steps) && j < |states|
    ensures var s := states[j];
      && NextWrite(s.pipe) <= |s.pipe.sent|
      && s.pipe.file == FileOf(c.sealer, s.pipe.sent[..NextWrite(s.pipe)])
      && Partition(s.pipe)
      && Held(s) <= c.cap
    ensures states[j].phase.Finished? ==>
      var s := states[j];
      && s.pipe.sent == StoredBlocks(Pack(s.appended, c.target)) && Reaches(s.pipe)
      && (s.pipe.file == FileOf(c.sealer, StoredBlocks(Pack(s.appended, c.target))) <==> !s.reported)
    ensures |states[j].locs| == |states[j].appended|
    ensures forall g :: 0 <= g < |states[j].locs| ==> states[j].locs[g] == LocationOf(states[j].appended, c.target, g)
  {
    hide FileOf, Pack, Flatten;
    RunKeeps(c, states, steps, j);
    var p := states[j].pipe;
    if states[j].phase.Finished? {
      FinishedReaches(c.sealer, p);
      ShorterFileDiffers(c.sealer, p.sent, NextWrite(p));
      FailedIsUnwritten(p);
    }
  }

  lemma FailedIsUnwritten(p: Pipe)
    requires Partition(p)
    ensures p.failed != {} ==> NextWrite(p) < p.nextBlock
  {
    if p.failed != {} {
      var i :| i in p.failed;
      assert i in p.running.Keys + p.done.Keys + p.failed;
    }
  }

  // ---- progress ----

  predicate Caller(step: Step) {
    step.Append? || step.BeginFinish?
  }

  /** The caller holds the writer and no worker has anything left to do. */
  predicate Idle(s: Pool) {
    (s.phase.Filling? || s.phase.Finished? || s.phase.Failed?) && s.pipe.running == map[] && s.pipe.releasing == {}
  }

  /** A writer that is not idle can go on by itself, unless it waits for a permit and the other
      writers hold them all. */
  lemma NeverStuck(c: Setup, s: Pool)
    requires Inv(c, s) && !Idle(s) && (s.phase.Submitting? ==> s.others < c.cap)
    ensures exists step, t :: !Caller(step) && !step.OthersMove? && Next(c, s, step, t)
  {
    hide Inv, Next;
    if s.pipe.running != map[] || s.pipe.releasing != {} {
      WorkerMoves(c, s);
    } else {
      WriterMoves(c, s);
    }
  }

  lemma WorkerMoves(c: Setup, s: Pool)
    requires s.pipe.running != map[] || s.pipe.releasing != {}
    ensures exists step, t :: !Caller(step) && !step.OthersMove? && Next(c, s, step, t)
  {
    hide SealBlock, SealedOk;
    if s.pipe.running != map[] {
      var i :| i in s.pipe.running;
      Takes(c, s, SealOk(i), s.(pipe := SealedOk(c.sealer, s.pipe, i)));
    } else {
      var i :| i in s.pipe.releasing;
      Takes(c, s, Release(i), s.(pipe := s.pipe.(releasing := s.pipe.releasing - {i})));
    }
  }

  lemma WriterMoves(c: Setup, s: Pool)
    requires s.pipe.running == map[] && s.pipe.releasing == {} && (s.phase.Submitting? ==> s.others < c.cap)
    requires !s.phase.Filling? && !s.phase.Finished? && !s.phase.Failed?
    ensures exists step, t :: !Caller(step) && !step.OthersMove? && Next(c, s, step, t)
  {
    hide Submitted, Drained;
    if s.phase.Submitting? {
      Takes(c, s, Submit, s.(pipe := Submitted(s.pipe, s.phase.block), phase := Draining(s.phase.finishing)));
    } else if s.phase.Waiting? {
      Takes(c, s, Waited,
            if s.err then s.(phase := Failed, err := false, reported := true) else s.(phase := LastDrain));
    } else if NextWrite(s.pipe) in s.pipe.done {
      Takes(c, s, DrainOne, s.(pipe := Drained(s.pipe)));
    } else {
      var u := s.(err := false, reported := s.reported || s.err);
      Takes(c, s, DrainEnd,
            if s.phase.LastDrain? then u.(phase := if s.err then Failed else Finished)
            else if s.phase.finishing then u.(phase := if s.err then Failed else Waiting)
            else u.(phase := Filling));
    }
  }

  lemma Takes(c: Setup, s: Pool, step: Step, t: Pool)
    requires !Caller(step) && !step.OthersMove? && Next(c, s, step, t)
    ensures exists step, t :: !Caller(step) && !step.OthersMove? && Next(c, s, step, t)
  {
  }

  /** Work left in the pipe. */
  function PipeWork(p: Pipe): nat {
    3 * |p.running| + |p.releasing| + |p.done|
  }

  function PhaseWork(phase: Phase): nat {
    match phase
    case Submitting(fin, _) => if fin then 7 else 5
    case Draining(fin) => if fin then 3 else 1
    case Waiting => 2
    case LastDrain => 1
    case _ => 0
  }

  /** Work left between two calls of the caller. */
  function Work(s: Pool): nat {
    PipeWork(s.pipe) + PhaseWork(s.phase)
  }

  lemma SubmitWorks(p: Pipe, b: seq<Bytes>)
    requires Partition(p)
    ensures PipeWork(Submitted(p, b)) == PipeWork(p) + 3
  {
    SubmitPermits(p, b);
  }

  lemma SealWorks(sealer: Sealer, p: Pipe, i: nat)
    requires Partition(p) && i in p.running
    ensures PipeWork(SealedOk(sealer, p, i)) < PipeWork(p) && PipeWork(SealedErr(p, i)) < PipeWork(p)
  {
    hide SealBlock;
    assert (p.running - {i}).Keys == p.running.Keys - {i};
    assert i !in p.releasing && i !in p.done.Keys;
    assert SealedOk(sealer, p, i).done.Keys == p.done.Keys + {i};
  }

  lemma ReleaseWorks(p: Pipe, i: nat)
    requires i in p.releasing
    ensures PipeWork(p.(releasing := p.releasing - {i})) < PipeWork(p)
  {
  }

  lemma DrainWorks(p: Pipe)
    requires NextWrite(p) in p.done
    ensures PipeWork(Drained(p)) < PipeWork(p)
  {
    assert Drained(p).done.Keys == p.done.Keys - {NextWrite(p)};
  }

  lemma StepWorks(c: Setup, s: Pool, step: Step, t: Pool)
    requires Partition(s.pipe) && Next(c, s, step, t) && !Caller(step)
    ensures Work(t) + (if step.OthersMove? then 0 else 1) <= Work(s)
  {
    hide Flatten, Partition, PipeWork, Submitted, SealedOk, SealedErr, Drained, NextWrite;
    match step
    case Submit => SubmitWorks(s.pipe, s.phase.block);
    case SealOk(i) => SealWorks(c.sealer, s.pipe, i);
    case SealErr(i) => SealWorks(c.sealer, s.pipe, i);
    case Release(i) => ReleaseWorks(s.pipe, i);
    case DrainOne => DrainWorks(s.pipe);
    case _ =>
  }

  /** Steps of this writer and its workers among steps `i` to `j`. */
  function OwnSteps(steps: seq<Step>, i: nat, j: nat): nat
    requires j <= |steps|
  {
    if i >= j then 0 else OwnSteps(steps, i, j - 1) + (if steps[j - 1].OthersMove? then 0 else 1)
  }

  /** Between two calls of the caller the writer and its workers take at most as many steps as the
      work they start with, so each call returns once it gets its permit. */
  lemma {:induction false} EveryCallReturns(c: Setup, states: seq<Pool>, steps: seq<Step>, i: nat, j: nat)
    requires Run(c, states, steps) && i <= j <= |steps|
    requires forall k :: i <= k < j ==> !Caller(steps[k])
    ensures |states| == |steps| + 1 && Work(states[j]) + OwnSteps(steps, i, j) <= Work(states[i])
    decreases j - i
  {
    hide Run, Inv, Next, Work, Partition;
    RunLength(c, states, steps);
    if i < j {
      var k := j - 1;
      RunStep(c, states, steps, k);
      EveryCallReturns(c, states, steps, i, k);
      StepWorks(c, states[k], steps[k], states[j]);
    }
  }

  lemma RunLength(c: Setup, states: seq<Pool>, steps: seq<Step>)
    requires Run(c, states, steps)
    ensures |states| == |steps| + 1
  {
    hide Next;
  }

  lemma RunStep(c: Setup, states: seq<Pool>, steps: seq<Step>, k: nat)
    requires Run(c, states, steps) && k < |steps|
    ensures |states| == |steps| + 1 && Partition(states[k].pipe) && Next(c, states[k], steps[k], states[k + 1])
  {
    hide FileOf, FirstRecord, SealBlock, Pack, Partition, Next;
    RunKeeps(c, states, steps, k);
  }

  // ---- the permits do not bound the unwritten blocks ----

  ghost predicate Reachable(c: Setup, s: Pool) {
    exists states, steps :: Run(c, states, steps) && states[|states| - 1] == s
  }

  lemma ReachNext(c: Setup, s: Pool, step: Step, t: Pool)
    requires Reachable(c, s) && Next(c, s, step, t)
    ensures Reachable(c, t)
  {
    hide Next;
    var states, steps :| Run(c, states, steps) && states[|states| - 1] == s;
    var states', steps' := states + [t], steps + [step];
    forall j | 0 <= j < |steps'| ensures Next(c, states'[j], steps'[j], states'[j + 1]) {
      if j < |steps| {
        assert Next(c, states[j], steps[j], states[j + 1]);
      }
    }
    assert states'[0] == states[0];
    assert Run(c, states', steps');
  }

  /** A caller that goes on after an append returned an error can be told that the file is
      finished although its block is missing. */
  lemma ErrorThenOkIsShort(c: Setup) returns (s: Pool)
    requires c.target > 0 && c.cap > 0
    ensures Reachable(c, s) && s.phase.Finished? && s.reported
    ensures |s.pipe.sent| == 1 && s.pipe.file == File([], [])
  {
    hide Reachable;
    NothingYet(c);
    var a := FillOne(c, Start(0));
    var b := SubmitOne(c, a);
    var failed := b.(pipe := SealedErr(b.pipe, 0), err := true);
    ReachNext(c, b, SealErr(0), failed);
    var released := failed.(pipe := failed.pipe.(releasing := {}));
    assert failed.pipe.releasing - {0} == {};
    ReachNext(c, failed, Release(0), released);
    var told := released.(phase := Filling, err := false, reported := true);
    ReachNext(c, released, DrainEnd, told);
    ReachNext(c, told, BeginFinish, told.(phase := Waiting));
    assert told.pipe.running == map[];
    ReachNext(c, told.(phase := Waiting), Waited, told.(phase := LastDrain));
    s := told.(phase := Finished);
    ReachNext(c, told.(phase := LastDrain), DrainEnd, s);
  }

  lemma NothingYet(c: Setup)
    ensures Reachable(c, Start(0))
  {
    assert Run(c, [Start(0)], []);
  }

  /** Block 0 is stuck in its worker; everything after it is sealed and waits. */
  ghost predicate Stalled(s: Pool, n: nat) {
    && s.phase == Filling && s.cur == [] && !s.err && s.others == 0
    && s.pipe.nextBlock == n + 1 && s.pipe.running.Keys == {0} && s.pipe.releasing == {}
    && NextWrite(s.pipe) == 0 && 0 !in s.pipe.done
  }

  lemma FillOne(c: Setup, s: Pool) returns (t: Pool)
    requires c.target > 0 && Reachable(c, s)
    requires s.phase == Filling && s.cur == []
    ensures Reachable(c, t) && t.phase.Submitting? && !t.phase.finishing
    ensures t.cur == [] && t.pipe == s.pipe && t.err == s.err && t.others == s.others
  {
    var r: Bytes := seq(c.target, _ => 0);
    FlattenSnoc([], r);
    assert [] + [r] == [r] == s.cur + [r];
    t := s.(appended := s.appended + [r], locs := s.locs + [(s.pipe.nextBlock, |s.cur|)], cur := [],
            phase := Submitting(false, [r]));
    ReachNext(c, s, Append(r), t);
  }

  lemma SubmitOne(c: Setup, s: Pool) returns (t: Pool)
    requires Reachable(c, s) && s.phase.Submitting? && !s.phase.finishing && Held(s) < c.cap
    ensures Reachable(c, t) && t == s.(pipe := Submitted(s.pipe, s.phase.block), phase := Draining(false))
  {
    t := s.(pipe := Submitted(s.pipe, s.phase.block), phase := Draining(false));
    ReachNext(c, s, Submit, t);
  }

  lemma StallFirst(c: Setup) returns (s: Pool)
    requires c.target > 0 && c.cap >= 2
    ensures Reachable(c, s) && Stalled(s, 0)
  {
    NothingYet(c);
    var a := FillOne(c, Start(0));
    var b := SubmitOne(c, a);
    s := b.(phase := Filling);
    ReachNext(c, b, DrainEnd, s);
  }

  lemma StallMore(c: Setup, s: Pool, n: nat) returns (t: Pool)
    requires c.target > 0 && c.cap >= 2
    requires Reachable(c, s) && Stalled(s, n)
    ensures Reachable(c, t) && Stalled(t, n + 1)
  {
    hide Reachable, SealBlock;
    var a := FillOne(c, s);
    assert |a.pipe.running| == |a.pipe.running.Keys| == 1;
    var b := SubmitOne(c, a);
    var sealed := b.(pipe := SealedOk(c.sealer, b.pipe, n + 1));
    ReachNext(c, b, SealOk(n + 1), sealed);
    var released := sealed.(pipe := sealed.pipe.(releasing := sealed.pipe.releasing - {n + 1}));
    ReachNext(c, sealed, Release(n + 1), released);
    t := released.(phase := Filling);
    ReachNext(c, released, DrainEnd, t);
    assert t.pipe.running.Keys == {0};
    assert t.pipe.releasing == {};
  }

  /** One permit in use, yet any number of blocks sealed and not written: the cap bounds the
      seals in progress, not the blocks that are still to be written. */
  lemma {:induction false} UnwrittenBlocksUnbounded(c: Setup, n: nat) returns (s: Pool)
    requires c.target > 0 && c.cap >= 2
    ensures Reachable(c, s) && Stalled(s, n)
    ensures Held(s) == 1 && s.pipe.nextBlock - NextWrite(s.pipe) == n + 1
  {
    hide Reachable;
    if n == 0 {
      s := StallFirst(c);
    } else {
      var r := UnwrittenBlocksUnbounded(c, n - 1);
      s := StallMore(c, r, n - 1);
    }
    assert |s.pipe.running| == |s.pipe.running.Keys|;
  }
}

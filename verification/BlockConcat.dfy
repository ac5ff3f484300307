/** Splicing block files into one (crates/graph-format/src/blockfile.rs). Plaintext parts are
    copied verbatim and only their directory offsets move; sealed parts are opened at their
    part-local position and sealed again at their position in the output. */
module BlockConcat {
  import opened Collections
  import opened Wire
  import opened BlockFormat
  import opened BlockFile
  import opened BlockReader

  /** What a sealed block is bound to: its position and the directory row the reader trusts. */
  datatype Aad = Aad(ordinal: nat, firstRecord: nat, rawLen: nat, recCount: nat)

  datatype Cipher = Cipher(seal: (Aad, Bytes, Bytes) -> Bytes, open: (Aad, Bytes, Bytes) -> Option<Bytes>)

  const TAG_LEN: nat := 16

  /** Opening under the same associated data and nonce undoes sealing. Nothing is said about
      opening under any other: a result that holds for every such cipher cannot rely on it. */
  ghost predicate Sound(c: Cipher) {
    forall aad: Aad, nonce: Bytes, body: Bytes ::
      c.open(aad, nonce, c.seal(aad, nonce, body)) == Some(body) && |c.seal(aad, nonce, body)| == |body| + TAG_LEN
  }

  function PlainSealer(compress: Bytes -> Bytes): Sealer {
    Sealer((idx, first, raw, count) => compress(raw), idx => None)
  }

  function CipherSealer(c: Cipher, compress: Bytes -> Bytes, nonces: nat -> Bytes): Sealer {
    Sealer((idx: nat, first: nat, raw: Bytes, count: nat) =>
             c.seal(Aad(idx, first, |raw| % U32, count), nonces(idx), compress(raw)),
           (idx: nat) => Some(nonces(idx)))
  }

  // ---- plaintext ----

  function Shift(dir: seq<DirEntry>, delta: nat): (d: seq<DirEntry>)
    ensures |d| == |dir|
  {
    seq(|dir|, i requires 0 <= i < |dir| => dir[i].(offset := dir[i].offset + delta))
  }

  function Spliced(a: File, b: File): File {
    File(a.region + b.region, a.dir + Shift(b.dir, |a.region|))
  }

  lemma SplicedAppend(a: File, b: File, s: Sealed)
    ensures Spliced(a, Appended(b, s)) == Appended(Spliced(a, b), s)
  {
    var l, r := Spliced(a, Appended(b, s)), Appended(Spliced(a, b), s);
    assert l.region == r.region;
    assert l.dir == r.dir;
  }

  /** A verbatim copy with shifted offsets is the file of the concatenated block list. */
  lemma {:induction false} SplicedFiles(compress: Bytes -> Bytes, a: seq<seq<Bytes>>, b: seq<seq<Bytes>>)
    ensures Spliced(FileOf(PlainSealer(compress), a), FileOf(PlainSealer(compress), b)) ==
      FileOf(PlainSealer(compress), a + b)
  {
    hide Shift, SerializeBlock, FirstRecord;
    var s := PlainSealer(compress);
    if b == [] {
      assert a + b == a;
      SplicedEmpty(FileOf(s, a));
    } else {
      var n := |b| - 1;
      var init, last := b[..n], b[n];
      assert b == init + [last] && a + b == (a + init) + [last];
      SplicedFiles(compress, a, init);
      FileOfSnoc(s, init, last);
      FileOfSnoc(s, a + init, last);
      assert SealBlock(s, n, FirstRecord(init), last) == SealBlock(s, |a + init|, FirstRecord(a + init), last);
      SplicedAppend(FileOf(s, a), FileOf(s, init), SealBlock(s, n, FirstRecord(init), last));
    }
  }

  lemma SplicedEmpty(a: File)
    ensures Spliced(a, File([], [])) == a
  {
  }

  /** Copy one part's block region verbatim and rebase its directory. */
  method SpliceVerbatim(out: File, total: nat, part: File) returns (out': File, total': nat)
    requires forall i :: 0 <= i < |part.dir| ==> part.dir[i].offset >= MAGIC_LEN
    ensures out' == Spliced(out, part)
    ensures total' == total + TotalRecords(part.dir)
  {
    var base := MAGIC_LEN + |out.region|;
    var dir, count := [], total;
    var i := 0;
    while i < |part.dir|
      invariant 0 <= i <= |part.dir| && |dir| == i
      invariant forall j :: 0 <= j < i ==> dir[j] == part.dir[j].(offset := part.dir[j].offset + |out.region|)
      invariant count == total + StartAt(part.dir, i)
    {
      var e := part.dir[i];
      dir := dir + [e.(offset := base + (e.offset - MAGIC_LEN))];
      count := count + e.recCount;
      i := i + 1;
    }
    assert dir == Shift(part.dir, |out.region|);
    out', total' := File(out.region + part.region, out.dir + dir), count;
  }

  // ---- sealed ----

  /** Everything the writer binds into block `b` of a sealed file. */
  lemma DueSealed(c: Cipher, compress: Bytes -> Bytes, nonces: nat -> Bytes, blocks: seq<seq<Bytes>>, b: nat)
    requires b < |blocks| && Sound(c)
    ensures var raw := SerializeBlock(blocks[b]);
      var aad := Aad(b, FirstRecord(blocks[..b]), |raw| % U32, |blocks[b]| % U32);
      && Due(CipherSealer(c, compress, nonces), blocks, b)
         == Sealed(c.seal(aad, nonces(b), compress(raw)), |raw| % U32, |blocks[b]| % U32, Some(nonces(b)))
      && c.open(aad, nonces(b), c.seal(aad, nonces(b), compress(raw))) == Some(compress(raw))
      && |c.seal(aad, nonces(b), compress(raw))| == |compress(raw)| + TAG_LEN
  {
    hide SerializeBlock;
    DueFields(CipherSealer(c, compress, nonces), blocks, b);
  }

  /** Open block `local` of a part at its part-local position and seal it at the output's. */
  function Reseal(c: Cipher, part: File, local: nat, localFirst: nat, ordinal: nat, first: nat,
                  nonce: Bytes): Option<Sealed>
    requires local < |part.dir|
  {
    var e := part.dir[local];
    if e.compLen > MAX_BLOCK_BYTES || e.nonce.None? then None
    else if e.offset < MAGIC_LEN || e.offset - MAGIC_LEN + e.compLen > |part.region| then None
    else
      match c.open(Aad(local, localFirst, e.rawLen, e.recCount), e.nonce.value,
                   part.region[e.offset - MAGIC_LEN..e.offset - MAGIC_LEN + e.compLen])
      case None => None
      case Some(body) =>
        Some(Sealed(c.seal(Aad(ordinal, first, e.rawLen, e.recCount), nonce, body), e.rawLen, e.recCount, Some(nonce)))
  }

  /** The re-seal of a part's block is what the writer of the whole would have written there: the
      part opens it at its local position, and its lengths and counts carry over. */
  lemma ResealIsDue(c: Cipher, compress: Bytes -> Bytes, given: nat -> Bytes, drawn: nat -> Bytes,
                    part: seq<seq<Bytes>>, local: nat, before: seq<seq<Bytes>>)
    requires Sound(c) && local < |part|
    requires BlockStorable(CipherSealer(c, compress, given), part, local)
    ensures var f := FileOf(CipherSealer(c, compress, given), part);
      && |f.dir| == |part|
      && var due := SealBlock(CipherSealer(c, compress, drawn), |before|, FirstRecord(before), part[local]);
         && Reseal(c, f, local, FirstRecord(part[..local]), |before|, FirstRecord(before), drawn(|before|)) == Some(due)
         && f.dir[local].compLen == |due.stored| % U32
         && f.dir[local].rawLen == due.rawLen && f.dir[local].recCount == due.recCount == |part[local]| % U32
  {
    hide FileOf, SerializeBlock, FirstRecord, Sound;
    FileOfAt(CipherSealer(c, compress, given), part, local);
    DueSealed(c, compress, given, part, local);
    var body := compress(SerializeBlock(part[local]));
    forall aad: Aad, nonce: Bytes ensures |c.seal(aad, nonce, body)| == |body| + TAG_LEN {
      SealLength(c, aad, nonce, body);
    }
  }

  lemma SealLength(c: Cipher, aad: Aad, nonce: Bytes, body: Bytes)
    requires Sound(c)
    ensures |c.seal(aad, nonce, body)| == |body| + TAG_LEN
  {
  }

  /** A part is a file sealed by this cipher under the given nonces. */
  ghost predicate SealedPart(c: Cipher, compress: Bytes -> Bytes, given: nat -> Bytes, part: File,
                             blocks: seq<seq<Bytes>>) {
    part == FileOf(CipherSealer(c, compress, given), blocks) && Storable(CipherSealer(c, compress, given), blocks)
  }

  /** Re-seal one part block by block behind the output so far. */
  method SpliceResealed(c: Cipher, drawn: nat -> Bytes, out0: File, total0: nat, part: File,
                        ghost compress: Bytes -> Bytes, ghost given: nat -> Bytes, ghost before: seq<seq<Bytes>>,
                        ghost blocks: seq<seq<Bytes>>)
    returns (r: Option<(File, nat)>)
    ensures Sound(c) && SealedPart(c, compress, given, part, blocks)
      && out0 == FileOf(CipherSealer(c, compress, drawn), before) && total0 == FirstRecord(before)
      ==> r == Some((FileOf(CipherSealer(c, compress, drawn), before + blocks), FirstRecord(before + blocks)))
  {
    hide FileOf, FirstRecord, Sound, SerializeBlock, Reseal;
    ghost var ok := Sound(c) && SealedPart(c, compress, given, part, blocks)
      && out0 == FileOf(CipherSealer(c, compress, drawn), before) && total0 == FirstRecord(before);
    var out, total: nat, localFirst: nat, local: nat := out0, total0, 0, 0;
    if ok {
      FileOfDir(CipherSealer(c, compress, given), blocks);
      SpliceStart(c, compress, drawn, before, blocks);
    }
    while local < |part.dir|
      invariant 0 <= local <= |part.dir|
      invariant ok ==> |part.dir| == |blocks|
      invariant ok ==> localFirst == FirstRecord(blocks[..local])
      invariant ok ==> out == FileOf(CipherSealer(c, compress, drawn), before + blocks[..local])
      invariant ok ==> total == FirstRecord(before + blocks[..local])
    {
      ghost var sofar := if ok then before + blocks[..local] else [];
      if ok {
        FileOfDir(CipherSealer(c, compress, drawn), sofar);
        assert BlockStorable(CipherSealer(c, compress, given), blocks, local);
        ResealIsDue(c, compress, given, drawn, blocks, local, sofar);
        SpliceStep(c, compress, drawn, before, blocks, local);
      }
      var e := part.dir[local];
      var ordinal := |out.dir|;
      var b := Reseal(c, part, local, localFirst, ordinal, total, drawn(ordinal));
      if b.None? {
        return None;
      }
      out := File(out.region + b.value.stored,
                  out.dir + [DirEntry(MAGIC_LEN + |out.region|, e.compLen, e.rawLen, e.recCount, b.value.nonce)]);
      total := total + e.recCount;
      localFirst := localFirst + e.recCount;
      local := local + 1;
    }
    assert ok ==> blocks[..local] == blocks;
    r := Some((out, total));
  }

  lemma SpliceStart(c: Cipher, compress: Bytes -> Bytes, drawn: nat -> Bytes, before: seq<seq<Bytes>>,
                    blocks: seq<seq<Bytes>>)
    ensures before + blocks[..0] == before && FirstRecord(blocks[..0]) == 0
  {
    assert blocks[..0] == [];
  }

  lemma SpliceStep(c: Cipher, compress: Bytes -> Bytes, drawn: nat -> Bytes, before: seq<seq<Bytes>>,
                   blocks: seq<seq<Bytes>>, local: nat)
    requires local < |blocks|
    ensures var s := CipherSealer(c, compress, drawn); var sofar := before + blocks[..local];
      && FileOf(s, before + blocks[..local + 1]) ==
        Appended(FileOf(s, sofar), SealBlock(s, |sofar|, FirstRecord(sofar), blocks[local]))
      && FirstRecord(before + blocks[..local + 1]) == FirstRecord(sofar) + |blocks[local]| % U32
      && FirstRecord(blocks[..local + 1]) == FirstRecord(blocks[..local]) + |blocks[local]| % U32
  {
    hide FileOf, FirstRecord, SealBlock;
    var s := CipherSealer(c, compress, drawn);
    assert before + blocks[..local + 1] == (before + blocks[..local]) + [blocks[local]];
    FileOfSnoc(s, before + blocks[..local], blocks[local]);
    assert blocks[..local + 1] == blocks[..local] + [blocks[local]];
    FileOfSnoc(s, blocks[..local], blocks[local]);
  }

  /** What the parts are, and what their splice must be. */
  ghost predicate PlainParts(compress: Bytes -> Bytes, parts: seq<File>, lists: seq<seq<seq<Bytes>>>) {
    |parts| == |lists| && forall k :: 0 <= k < |parts| ==> parts[k] == FileOf(PlainSealer(compress), lists[k])
  }

  ghost predicate SealedParts(c: Cipher, compress: Bytes -> Bytes, given: nat -> nat -> Bytes, parts: seq<File>,
                              lists: seq<seq<seq<Bytes>>>) {
    |parts| == |lists| && forall k :: 0 <= k < |parts| ==> SealedPart(c, compress, given(k), parts[k], lists[k])
  }

  /** Splice plaintext parts: the output is the file of all their blocks, in order. */
  method ConcatPlain(parts: seq<File>, ghost compress: Bytes -> Bytes, ghost lists: seq<seq<seq<Bytes>>>)
    returns (r: Option<(File, nat)>)
    ensures parts == [] ==> r == None
    ensures parts != [] && PlainParts(compress, parts, lists) ==>
      r == Some((FileOf(PlainSealer(compress), Flatten(lists)), FirstRecord(Flatten(lists))))
  {
    hide FileOf, FirstRecord, Flatten, Shift;
    if parts == [] {
      return None;
    }
    var out, total: nat := File([], []), 0;
    ghost var ok := PlainParts(compress, parts, lists);
    PlainStart(compress, lists);
    var k := 0;
    while k < |parts|
      invariant 0 <= k <= |parts|
      invariant ok ==> out == FileOf(PlainSealer(compress), Flatten(lists[..k]))
      invariant ok ==> total == FirstRecord(Flatten(lists[..k]))
    {
      if exists i :: 0 <= i < |parts[k].dir| && parts[k].dir[i].offset < MAGIC_LEN {
        if ok {
          OffsetsPastMagic(PlainSealer(compress), lists[k]);
        }
        return None;
      }
      if ok {
        PlainStep(compress, lists, k);
      }
      out, total := SpliceVerbatim(out, total, parts[k]);
      k := k + 1;
    }
    assert ok ==> lists[..k] == lists;
    r := Some((out, total));
  }

  lemma OffsetsPastMagic(s: Sealer, blocks: seq<seq<Bytes>>)
    ensures forall i :: 0 <= i < |FileOf(s, blocks).dir| ==> FileOf(s, blocks).dir[i].offset >= MAGIC_LEN
  {
    hide FileOf;
    forall i | 0 <= i < |FileOf(s, blocks).dir| ensures FileOf(s, blocks).dir[i].offset >= MAGIC_LEN {
      FileOfDir(s, blocks);
      FileOfAt(s, blocks, i);
    }
  }

  lemma PlainStart(compress: Bytes -> Bytes, lists: seq<seq<seq<Bytes>>>)
    ensures FileOf(PlainSealer(compress), Flatten(lists[..0])) == File([], []) && FirstRecord(Flatten(lists[..0])) == 0
  {
    assert lists[..0] == [];
  }

  lemma PlainStep(compress: Bytes -> Bytes, lists: seq<seq<seq<Bytes>>>, k: nat)
    requires k < |lists|
    ensures var s := PlainSealer(compress);
      && Spliced(FileOf(s, Flatten(lists[..k])), FileOf(s, lists[k])) == FileOf(s, Flatten(lists[..k + 1]))
      && FirstRecord(Flatten(lists[..k + 1])) ==
        FirstRecord(Flatten(lists[..k])) + TotalRecords(FileOf(s, lists[k]).dir)
  {
    hide FileOf, FirstRecord, Flatten;
    var s := PlainSealer(compress);
    assert lists[..k + 1] == lists[..k] + [lists[k]];
    FlattenSnoc(lists[..k], lists[k]);
    SplicedFiles(compress, Flatten(lists[..k]), lists[k]);
    StartsOfFile(s, lists[k], |lists[k]|);
    assert lists[k][..|lists[k]|] == lists[k];
    FirstRecordConcat(Flatten(lists[..k]), lists[k]);
  }

  lemma {:induction false} FirstRecordConcat(a: seq<seq<Bytes>>, b: seq<seq<Bytes>>)
    ensures FirstRecord(a + b) == FirstRecord(a) + FirstRecord(b)
  {
    if b == [] {
      assert a + b == a;
    } else {
      var n := |b| - 1;
      FirstRecordConcat(a, b[..n]);
      assert (a + b)[..|a + b| - 1] == a + b[..n];
    }
  }

  /** Splice sealed parts: the output is the file a writer holding this cipher and the drawn
      nonces would have produced for all the blocks, so every block opens at its new position. */
  method ConcatSealed(c: Cipher, drawn: nat -> Bytes, parts: seq<File>,
                      ghost compress: Bytes -> Bytes, ghost given: nat -> nat -> Bytes,
                      ghost lists: seq<seq<seq<Bytes>>>)
    returns (r: Option<(File, nat)>)
    ensures parts == [] ==> r == None
    ensures parts != [] && Sound(c) && SealedParts(c, compress, given, parts, lists) ==>
      r == Some((FileOf(CipherSealer(c, compress, drawn), Flatten(lists)), FirstRecord(Flatten(lists))))
  {
    hide FileOf, FirstRecord, Flatten, Sound, SealedPart;
    if parts == [] {
      return None;
    }
    var out, total: nat := File([], []), 0;
    ghost var ok := Sound(c) && SealedParts(c, compress, given, parts, lists);
    SealedStart(CipherSealer(c, compress, drawn), lists);
    var k := 0;
    while k < |parts|
      invariant 0 <= k <= |parts|
      invariant ok ==> out == FileOf(CipherSealer(c, compress, drawn), Flatten(lists[..k]))
      invariant ok ==> total == FirstRecord(Flatten(lists[..k]))
    {
      ghost var before := if ok then Flatten(lists[..k]) else [];
      ghost var blocks := if ok then lists[k] else [];
      var next := SpliceResealed(c, drawn, out, total, parts[k], compress, given(k), before, blocks);
      if ok {
        assert lists[..k + 1] == lists[..k] + [lists[k]];
        FlattenSnoc(lists[..k], lists[k]);
      }
      if next.None? {
        return None;
      }
      out, total := next.value.0, next.value.1;
      k := k + 1;
    }
    assert ok ==> lists[..k] == lists;
    r := Some((out, total));
  }

  lemma SealedStart(s: Sealer, lists: seq<seq<seq<Bytes>>>)
    ensures FileOf(s, Flatten(lists[..0])) == File([], []) && FirstRecord(Flatten(lists[..0])) == 0
  {
    assert lists[..0] == [];
  }

  // ---- reading the splice back ----

  ghost predicate Inverse(compress: Bytes -> Bytes, decompress: (Bytes, nat) -> Option<Bytes>) {
    forall raw: Bytes :: |raw| <= MAX_BLOCK_BYTES ==> decompress(compress(raw), |raw|) == Some(raw)
  }

  function PlainOpener(decompress: (Bytes, nat) -> Option<Bytes>): Opener {
    (ordinal: nat, first: nat, e: DirEntry, stored: Bytes) => decompress(stored, e.rawLen)
  }

  /** Open at the block's ordinal and first record, under the directory row, then inflate. */
  function CipherOpener(c: Cipher, decompress: (Bytes, nat) -> Option<Bytes>): Opener {
    (ordinal: nat, first: nat, e: DirEntry, stored: Bytes) =>
      if e.nonce.None? then None
      else match c.open(Aad(ordinal, first, e.rawLen, e.recCount), e.nonce.value, stored)
           case None => None
           case Some(body) => decompress(body, e.rawLen)
  }

  lemma PlainUndoes(compress: Bytes -> Bytes, decompress: (Bytes, nat) -> Option<Bytes>)
    requires Inverse(compress, decompress)
    ensures Undoes(PlainOpener(decompress), PlainSealer(compress))
  {
    hide Inverse;
    var s, open := PlainSealer(compress), PlainOpener(decompress);
    forall idx: nat, first: nat, raw: Bytes, count: nat, offset: nat | |raw| <= MAX_BLOCK_BYTES
      ensures open(idx, first,
                   EntryAt(offset, Sealed(s.stored(idx, first, raw, count), |raw| % U32, count, s.nonce(idx))),
                   s.stored(idx, first, raw, count)) == Some(raw)
    {
      Inflates(compress, decompress, raw);
    }
  }

  lemma Inflates(compress: Bytes -> Bytes, decompress: (Bytes, nat) -> Option<Bytes>, raw: Bytes)
    requires Inverse(compress, decompress) && |raw| <= MAX_BLOCK_BYTES
    ensures decompress(compress(raw), |raw| % U32) == Some(raw)
  {
  }

  lemma OpensOwnSeal(c: Cipher, compress: Bytes -> Bytes, decompress: (Bytes, nat) -> Option<Bytes>,
                     aad: Aad, nonce: Bytes, raw: Bytes)
    requires Sound(c) && Inverse(compress, decompress) && |raw| <= MAX_BLOCK_BYTES
    ensures c.open(aad, nonce, c.seal(aad, nonce, compress(raw))) == Some(compress(raw))
    ensures decompress(compress(raw), |raw| % U32) == Some(raw)
  {
    hide Inverse;
    Inflates(compress, decompress, raw);
  }

  lemma CipherUndoes(c: Cipher, compress: Bytes -> Bytes, decompress: (Bytes, nat) -> Option<Bytes>,
                     nonces: nat -> Bytes)
    requires Sound(c) && Inverse(compress, decompress)
    ensures Undoes(CipherOpener(c, decompress), CipherSealer(c, compress, nonces))
  {
    hide Sound, Inverse;
    var s, open := CipherSealer(c, compress, nonces), CipherOpener(c, decompress);
    forall idx: nat, first: nat, raw: Bytes, count: nat, offset: nat | |raw| <= MAX_BLOCK_BYTES
      ensures open(idx, first,
                   EntryAt(offset, Sealed(s.stored(idx, first, raw, count), |raw| % U32, count, s.nonce(idx))),
                   s.stored(idx, first, raw, count)) == Some(raw)
    {
      OpensOwnSeal(c, compress, decompress, Aad(idx, first, |raw| % U32, count), nonces(idx), raw);
    }
  }

  /** A block's stored size does not depend on where it sits or which nonce it drew. */
  lemma StorableAnywhere(c: Cipher, compress: Bytes -> Bytes, given: nat -> Bytes, drawn: nat -> Bytes,
                         part: seq<seq<Bytes>>, i: nat, whole: seq<seq<Bytes>>, b: nat)
    requires Sound(c) && i < |part| && b < |whole| && whole[b] == part[i]
    requires BlockStorable(CipherSealer(c, compress, given), part, i)
    ensures BlockStorable(CipherSealer(c, compress, drawn), whole, b)
  {
    hide SerializeBlock, FirstRecord, Sound, SealBlock;
    DueSealed(c, compress, given, part, i);
    DueSealed(c, compress, drawn, whole, b);
  }

  lemma SplicedStorable(c: Cipher, compress: Bytes -> Bytes, given: nat -> nat -> Bytes, drawn: nat -> Bytes,
                        parts: seq<File>, lists: seq<seq<seq<Bytes>>>)
    requires Sound(c) && SealedParts(c, compress, given, parts, lists)
    ensures Storable(CipherSealer(c, compress, drawn), Flatten(lists))
  {
    hide FileOf, BlockStorable, Sound;
    var whole := Flatten(lists);
    forall b | 0 <= b < |whole| ensures BlockStorable(CipherSealer(c, compress, drawn), whole, b) {
      var k, i := FlattenFind(lists, b);
      assert SealedPart(c, compress, given(k), parts[k], lists[k]);
      StorableAnywhere(c, compress, given(k), drawn, lists[k], i, whole, b);
    }
  }

  lemma {:induction false} FlattenFind<T>(lists: seq<seq<T>>, b: nat) returns (k: nat, i: nat)
    requires b < |Flatten(lists)|
    ensures k < |lists| && i < |lists[k]| && Flatten(lists)[b] == lists[k][i]
  {
    if b < |lists[0]| {
      k, i := 0, b;
    } else {
      k, i := FlattenFind(lists[1..], b - |lists[0]|);
      k := k + 1;
    }
  }

  /** After a sealed splice every block opens at its new ordinal and first record, and holds
      exactly the records of the part it came from. */
  lemma EveryResealedBlockOpens(c: Cipher, compress: Bytes -> Bytes, decompress: (Bytes, nat) -> Option<Bytes>,
                                given: nat -> nat -> Bytes, drawn: nat -> Bytes,
                                parts: seq<File>, lists: seq<seq<seq<Bytes>>>, b: nat)
    requires Sound(c) && Inverse(compress, decompress) && SealedParts(c, compress, given, parts, lists)
    requires b < |Flatten(lists)|
    ensures ReadBlock(FileOf(CipherSealer(c, compress, drawn), Flatten(lists)), CipherOpener(c, decompress), b)
         == Some(SerializeBlock(Flatten(lists)[b]))
  {
    hide FileOf, SerializeBlock, ReadBlock, Sound, Inverse, Flatten, Storable, Undoes;
    SplicedStorable(c, compress, given, drawn, parts, lists);
    CipherUndoes(c, compress, decompress, drawn);
    BlockReadsBack(CipherSealer(c, compress, drawn), CipherOpener(c, decompress), Flatten(lists), b);
  }
}

/** The raw block layout: record count, slot offsets, record bytes
    (crates/graph-format/src/blockfile.rs). */
module BlockFormat {
  import opened Collections
  import opened Order
  import opened Wire

  type Bytes = seq<byte>

  /** Slot offsets of a record list: 0, then the running data length after each record. */
  function Offsets(records: seq<Bytes>): (o: seq<nat>)
    ensures |o| == |records| + 1
  {
    if records == [] then [0]
    else
      var init := records[..|records| - 1];
      Offsets(init) + [|Flatten(records)|]
  }

  function SerializeBlock(records: seq<Bytes>): Bytes {
    LeBytes(|records|, 4) + WordBytes(Offsets(records)) + Flatten(records)
  }

  /** The table the decoder accepts: starts at 0, never decreases, ends at the data length. */
  predicate Table(offsets: seq<nat>, dataLen: nat) {
    && offsets != [] && offsets[0] == 0
    && (forall i :: 0 <= i < |offsets| - 1 ==> offsets[i] <= offsets[i + 1])
    && offsets[|offsets| - 1] == dataLen
  }

  /** The check itself, slot by slot. */
  method CheckOffsetTable(offsets: seq<nat>, dataLen: nat) returns (ok: bool)
    ensures ok <==> Table(offsets, dataLen)
  {
    if offsets == [] || offsets[0] != 0 {
      return false;
    }
    var slot := 0;
    while slot + 1 < |offsets|
      invariant 0 <= slot < |offsets|
      invariant forall i :: 0 <= i < slot ==> offsets[i] <= offsets[i + 1]
    {
      if offsets[slot] > offsets[slot + 1] {
        return false;
      }
      slot := slot + 1;
    }
    ok := offsets[|offsets| - 1] == dataLen;
  }

  datatype Parsed = Parsed(offsets: seq<nat>, data: Bytes)

  function ParseBlock(raw: Bytes): Option<Parsed> {
    if |raw| < 4 then None
    else
      var count := LeValue(raw[..4]);
      var header := 4 + (count + 1) * 4;
      if |raw| < header then None
      else
        var offsets, data := ReadWords(raw[4..], count + 1), raw[header..];
        if Table(offsets, |data|) then Some(Parsed(offsets, data)) else None
  }

  /** The last offset is a 32-bit word and equals the data length, so an accepted block is short. */
  lemma ParsedIsShort(raw: Bytes)
    ensures ParseBlock(raw).Some? ==> |ParseBlock(raw).value.data| < U32
  {
    hide LeValue, ReadWords;
    if ParseBlock(raw).Some? {
      WordsFit(raw[4..], LeValue(raw[..4]) + 1);
    }
  }

  function RecordFromBlock(offsets: seq<nat>, data: Bytes, slot: nat): Option<Bytes> {
    if slot + 1 >= |offsets| then None
    else if offsets[slot] > offsets[slot + 1] || offsets[slot + 1] > |data| then None
    else Some(data[offsets[slot]..offsets[slot + 1]])
  }

  /** Byte range of a record inside the whole block, reading two offsets only. */
  function RecordRangeInBlock(raw: Bytes, slot: nat): Option<(nat, nat)> {
    if |raw| < 4 then None
    else
      var count := LeValue(raw[..4]);
      if slot + 1 > count then None
      else
        var header := 4 + (count + 1) * 4;
        if |raw| < header then None
        else
          var start := header + LeValue(raw[4 + slot * 4..8 + slot * 4]);
          var end := header + LeValue(raw[4 + (slot + 1) * 4..8 + (slot + 1) * 4]);
          if start > end || end > |raw| then None else Some((start, end))
  }

  // ---- the offset table ----

  lemma {:induction false} OffsetsAt(records: seq<Bytes>, i: nat)
    requires i <= |records|
    ensures Offsets(records)[i] == |Flatten(records[..i])|
  {
    if records == [] {
      assert records[..i] == [];
    } else if i == |records| {
      assert records[..i] == records;
    } else {
      var init := records[..|records| - 1];
      OffsetsAt(init, i);
      assert init[..i] == records[..i];
    }
  }

  lemma OffsetsTable(records: seq<Bytes>)
    ensures Table(Offsets(records), |Flatten(records)|)
  {
    hide Offsets, Flatten;
    var o := Offsets(records);
    OffsetsEnds(records);
    forall i | 0 <= i < |o| - 1 ensures o[i] <= o[i + 1] {
      OffsetsStep(records, i);
    }
  }

  lemma OffsetsEnds(records: seq<Bytes>)
    ensures Offsets(records)[0] == 0 && Offsets(records)[|records|] == |Flatten(records)|
  {
    OffsetsAt(records, 0);
    assert records[..0] == [];
    OffsetsAt(records, |records|);
    assert records[..|records|] == records;
  }

  lemma OffsetsStep(records: seq<Bytes>, i: nat)
    requires i < |records|
    ensures Offsets(records)[i + 1] == Offsets(records)[i] + |records[i]|
  {
    hide Offsets, Flatten;
    OffsetsAt(records, i);
    OffsetsAt(records, i + 1);
    FlattenPrefix(records, i);
  }

  /** The records a table cuts the data into. */
  function Slots(offsets: seq<nat>, data: Bytes): (r: seq<Bytes>)
    requires Table(offsets, |data|)
    ensures |r| == |offsets| - 1
  {
    seq(|offsets| - 1, i requires 0 <= i < |offsets| - 1 => SlotAt(offsets, data, i))
  }

  function SlotAt(offsets: seq<nat>, data: Bytes, i: nat): Bytes
    requires Table(offsets, |data|) && i < |offsets| - 1
  {
    TableBounds(offsets, |data|);
    assert offsets[i] <= offsets[i + 1];
    data[offsets[i]..offsets[i + 1]]
  }

  lemma {:induction false} TableBounds(offsets: seq<nat>, dataLen: nat)
    requires Table(offsets, dataLen)
    ensures forall i :: 0 <= i < |offsets| ==> offsets[i] <= dataLen
  {
    var n := |offsets| - 1;
    var k := n;
    while k > 0
      invariant 0 <= k <= n
      invariant forall i :: k <= i < |offsets| ==> offsets[i] <= dataLen
    {
      k := k - 1;
      assert offsets[k] <= offsets[k + 1];
    }
  }

  lemma {:induction false} SlotsFlatten(offsets: seq<nat>, data: Bytes, i: nat)
    requires Table(offsets, |data|) && i < |offsets|
    ensures offsets[i] <= |data| && Flatten(Slots(offsets, data)[..i]) == data[..offsets[i]]
  {
    TableBounds(offsets, |data|);
    var slots := Slots(offsets, data);
    if i == 0 {
      assert slots[..0] == [];
    } else {
      SlotsFlatten(offsets, data, i - 1);
      FlattenPrefix(slots, i - 1);
      assert offsets[i - 1] <= offsets[i - 1 + 1];
      assert data[..offsets[i - 1]] + data[offsets[i - 1]..offsets[i]] == data[..offsets[i]];
    }
  }

  /** A table is accepted for some data exactly when it is the table of a record list that
      concatenates to that data: the slots partition the data, nothing is lost or shared. */
  lemma AcceptedIffPartition(offsets: seq<nat>, data: Bytes)
    ensures Table(offsets, |data|) <==>
      exists records: seq<Bytes> :: Flatten(records) == data && Offsets(records) == offsets
  {
    if Table(offsets, |data|) {
      var slots := Slots(offsets, data);
      SlotsFlatten(offsets, data, |offsets| - 1);
      assert slots[..|offsets| - 1] == slots;
      assert data[..|data|] == data;
      assert Offsets(slots) == offsets by {
        forall i | 0 <= i < |offsets| ensures Offsets(slots)[i] == offsets[i] {
          OffsetsAt(slots, i);
          SlotsFlatten(offsets, data, i);
        }
      }
    }
    forall records: seq<Bytes> | Flatten(records) == data && Offsets(records) == offsets
      ensures Table(offsets, |data|)
    {
      OffsetsTable(records);
    }
  }

  // ---- round trip ----

  lemma BlockParts(records: seq<Bytes>)
    ensures var raw := SerializeBlock(records); var n := |records|;
      && |raw| >= 4 + (n + 1) * 4
      && raw[..4] == LeBytes(n, 4)
      && raw[4..] == WordBytes(Offsets(records)) + Flatten(records)
      && raw[4 + (n + 1) * 4..] == Flatten(records)
  {
    hide LeBytes, WordBytes, Offsets, Flatten;
    var raw, n, table := SerializeBlock(records), |records|, WordBytes(Offsets(records));
    assert raw == LeBytes(n, 4) + (table + Flatten(records));
    assert raw == (LeBytes(n, 4) + table) + Flatten(records);
  }

  /** A serialised block parses back to its own table and data exactly when the data is shorter
      than 4 GiB; past that the last offset wraps and the block is refused. */
  lemma BlockRoundTripIff(records: seq<Bytes>)
    requires |records| < U32
    ensures ParseBlock(SerializeBlock(records)) == Some(Parsed(Offsets(records), Flatten(records)))
      <==> |Flatten(records)| < U32
    ensures |Flatten(records)| >= U32 ==> ParseBlock(SerializeBlock(records)) == None
  {
    var raw, n, offsets, data := SerializeBlock(records), |records|, Offsets(records), Flatten(records);
    BlockParts(records);
    Widths();
    LeRoundTrip(n, 4);
    var read := ReadWords(raw[4..], n + 1);
    OffsetsTable(records);
    WordReadsBack(offsets, data, n);
    if |data| < U32 {
      forall i | 0 <= i < n + 1 ensures read[i] == offsets[i] {
        WordReadsBack(offsets, data, i);
        OffsetBound(offsets, |data|, i);
        LeRoundTrip(offsets[i], 4);
      }
      assert read == offsets;
    } else {
      LeValueBound(LeBytes(offsets[n], 4));
    }
  }

  /** One record of 2^32 bytes makes a block that is written and then refused. */
  lemma LongRecordIsRefused(record: Bytes)
    requires |record| == U32
    ensures ParseBlock(SerializeBlock([record])) == None
  {
    hide ParseBlock, SerializeBlock;
    assert Flatten([record]) == record + Flatten<byte>([]);
    BlockRoundTripIff([record]);
  }

  lemma OffsetBound(offsets: seq<nat>, dataLen: nat, i: nat)
    requires Table(offsets, dataLen) && i < |offsets|
    ensures offsets[i] <= dataLen
  {
    TableBounds(offsets, dataLen);
  }

  /** Slot `i` of a written block is the i-th record. */
  lemma SlotIsRecord(records: seq<Bytes>, i: nat)
    requires i < |records|
    ensures RecordFromBlock(Offsets(records), Flatten(records), i) == Some(records[i])
  {
    hide Offsets, Flatten;
    OffsetsAt(records, i);
    OffsetsAt(records, i + 1);
    FlattenPrefix(records, i);
    assert records == records[..i + 1] + records[i + 1..];
    FlattenConcat(records[..i + 1], records[i + 1..]);
  }

  lemma OffsetField(raw: Bytes, count: nat, i: nat)
    requires |raw| >= 4 + (count + 1) * 4 && i <= count
    ensures ReadWords(raw[4..], count + 1)[i] == LeValue(raw[4 + i * 4..8 + i * 4])
  {
    ReadWordsAt(raw[4..], count + 1, i);
    assert raw[4..][4 * i..4 * i + 4] == raw[4 + i * 4..8 + i * 4];
  }

  /** On any block the parser accepts, the two-offset range reader and the parsed table agree
      on every slot, in range or not. */
  lemma RangeAgreesWithTable(raw: Bytes, slot: nat)
    requires ParseBlock(raw).Some?
    ensures var Parsed(offsets, data) := ParseBlock(raw).value;
      match RecordRangeInBlock(raw, slot)
      case None => RecordFromBlock(offsets, data, slot) == None
      case Some((start, end)) =>
        start <= end <= |raw| && RecordFromBlock(offsets, data, slot) == Some(raw[start..end])
  {
    hide LeValue, ReadWords, Table;
    var Parsed(offsets, data) := ParseBlock(raw).value;
    var count := LeValue(raw[..4]);
    if slot + 1 <= count {
      OffsetField(raw, count, slot);
      OffsetField(raw, count, slot + 1);
      TableStep(offsets, |data|, slot);
      SliceOfDrop(raw, 4 + (count + 1) * 4, offsets[slot], offsets[slot + 1]);
    }
  }

  lemma TableStep(offsets: seq<nat>, dataLen: nat, slot: nat)
    requires Table(offsets, dataLen) && slot + 1 < |offsets|
    ensures offsets[slot] <= offsets[slot + 1] <= dataLen
  {
    TableBounds(offsets, dataLen);
  }
}

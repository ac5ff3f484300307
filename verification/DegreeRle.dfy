/** Run-length degree chunks (crates/graph-format/src/degree_ef.rs:338-486). */
module DegreeRle {
  import opened Collections
  import opened Order
  import opened Wire

  /** 2 GiB of raw degrees: the ceiling both the encoder and the decoder enforce. */
  const MAX_CHUNK_DEGREES: nat := MAX_BLOCK_BYTES / 4

  datatype Rle = Rle(n: nat, values: seq<nat>, starts: seq<nat>)

  ghost predicate WellFormed(r: Rle) {
    && |r.values| == |r.starts| && r.n < U32
    && (r.n == 0 <==> r.starts == [])
    && (r.starts != [] ==> r.starts[0] == 0)
    && StrictlyAscending(r.starts)
    && (forall k :: 0 <= k < |r.starts| ==> r.starts[k] < r.n && r.values[k] < U32)
  }

  /** Where run `k` ends: the next run's start, or the end of the chunk. */
  function End(r: Rle, k: nat): nat
    requires k < |r.starts|
  {
    if k + 1 < |r.starts| then r.starts[k + 1] else r.n
  }

  /** The degree of node `off`: the value of the last run that starts at or before it. */
  function DegreeAt(r: Rle, off: nat): nat
    requires |r.values| == |r.starts| && r.starts != [] && r.starts[0] == 0
  {
    var k := PartitionPoint(r.starts, s => s <= off) - 1;
    r.values[k]
  }

  /** On a well-formed chunk any binary search finds that run. */
  lemma SearchedDegree(find: Search, r: Rle, off: nat)
    requires Searches(find) && WellFormed(r) && off < r.n
    ensures var k := Point(find, r.starts, s => s <= off);
      k > 0 && DegreeAt(r, off) == r.values[k - 1]
  {
    hide Searches;
    PointStops(find, r.starts, s => s <= off);
    var k, p := Point(find, r.starts, s => s <= off), PartitionPoint(r.starts, s => s <= off);
    assert r.starts[0] <= off;
    assert k == p;
  }

  ghost function Expand(r: Rle): (d: seq<nat>)
    requires WellFormed(r)
    ensures |d| == r.n
  {
    seq(r.n, i requires 0 <= i < r.n => DegreeAt(r, i))
  }

  /** Inside a run, every node has the run's value. */
  lemma RunIsFlat(r: Rle, k: nat, off: nat)
    requires WellFormed(r) && k < |r.starts| && r.starts[k] <= off < End(r, k)
    ensures DegreeAt(r, off) == r.values[k]
  {
    var p := PartitionPoint(r.starts, s => s <= off);
    assert p > k;
    assert p <= k + 1;
  }

  /** The runs of a list: maximal stretches of equal degrees. */
  function RunList(d: seq<nat>): (r: Rle)
    ensures r.n == |d| && |r.values| == |r.starts| && (d != [] ==> r.values != [])
  {
    if d == [] then Rle(0, [], [])
    else
      var n := |d| - 1;
      var r := RunList(d[..n]);
      if n > 0 && d[n] == r.values[|r.values| - 1] then r.(n := |d|)
      else Rle(|d|, r.values + [d[n]], r.starts + [n])
  }

  lemma RunListSnoc(d: seq<nat>, i: nat)
    requires i < |d|
    ensures var r := RunList(d[..i]);
            RunList(d[..i + 1]) == if i > 0 && d[i] == r.values[|r.values| - 1] then r.(n := i + 1)
                                   else Rle(i + 1, r.values + [d[i]], r.starts + [i])
  {
    assert d[..i + 1][..i] == d[..i];
  }

  method FromDegrees(d: seq<nat>) returns (r: Rle)
    ensures r == RunList(d)
  {
    hide RunList;
    NoRuns();
    if d == [] {
      return Rle(0, [], []);
    }
    assert d[..0] == [];
    RunListSnoc(d, 0);
    var values: seq<nat>, starts: seq<nat>, prev := [d[0]], [0], d[0];
    for i := 1 to |d|
      invariant RunList(d[..i]) == Rle(i, values, starts)
      invariant values != [] && prev == values[|values| - 1]
    {
      RunListSnoc(d, i);
      if d[i] != prev {
        values, starts, prev := values + [d[i]], starts + [i], d[i];
      }
    }
    assert d[..|d|] == d;
    r := Rle(|d|, values, starts);
  }

  lemma NoRuns()
    ensures RunList([]) == Rle(0, [], [])
  {
  }

  /** The run list is a well-formed chunk that gives back every degree, with no two equal neighbours. */
  lemma {:induction false} RunListIs(d: seq<nat>)
    requires |d| < U32 && forall i :: 0 <= i < |d| ==> d[i] < U32
    ensures WellFormed(RunList(d)) && Expand(RunList(d)) == d
    ensures d != [] ==> Runs(RunList(d), d)
  {
    if d != [] {
      hide Runs, DegreeAt;
      RunListRuns(d, |d|);
      assert d[..|d|] == d;
      RunsWellFormed(RunList(d), d);
      Expands(RunList(d), d);
    }
  }

  lemma {:induction false} RunListRuns(d: seq<nat>, i: nat)
    requires 0 < i <= |d| < U32 && forall i :: 0 <= i < |d| ==> d[i] < U32
    ensures Runs(RunList(d[..i]), d[..i])
  {
    hide Runs;
    RunListSnoc(d, i - 1);
    if i == 1 {
      assert d[..0] == [] && RunList(d[..1]) == Rle(1, [d[0]], [0]);
      FirstRun(d);
    } else {
      RunListRuns(d, i - 1);
      var r := RunList(d[..i - 1]);
      RunsStep(r.values, r.starts, d, i - 1);
    }
  }

  lemma Expands(r: Rle, d: seq<nat>)
    requires Runs(r, d)
    ensures Expand(r) == d
  {
    forall off | 0 <= off < |d| ensures DegreeAt(r, off) == d[off] {
      RunHolds(r, d, off);
    }
  }

  lemma FirstRun(d: seq<nat>)
    requires d != [] && d[0] < U32
    ensures Runs(Rle(1, [d[0]], [0]), d[..1])
  {
    assert Flat(Rle(1, [d[0]], [0]), d[..1], 0);
  }

  lemma RunsWellFormed(r: Rle, d: seq<nat>)
    requires Runs(r, d)
    ensures WellFormed(r)
  {
  }

  ghost predicate Flat(r: Rle, d: seq<nat>, k: nat)
    requires WellFormed(r) && r.n == |d| && k < |r.starts|
  {
    forall i :: r.starts[k] <= i < End(r, k) ==> d[i] == r.values[k]
  }

  /** Every run is flat in `d`, and neighbours differ. */
  ghost predicate Runs(r: Rle, d: seq<nat>) {
    && WellFormed(r) && r.n == |d| && d != []
    && (forall k :: 0 <= k < |r.starts| ==> Flat(r, d, k))
    && (forall k :: 0 < k < |r.values| ==> r.values[k - 1] != r.values[k])
  }

  lemma RunsStep(values: seq<nat>, starts: seq<nat>, d: seq<nat>, i: nat)
    requires 1 <= i < |d| < U32 && d[i] < U32 && Runs(Rle(i, values, starts), d[..i])
    ensures values != []
    ensures d[i] == values[|values| - 1] ==> Runs(Rle(i + 1, values, starts), d[..i + 1])
    ensures d[i] != values[|values| - 1] ==> Runs(Rle(i + 1, values + [d[i]], starts + [i]), d[..i + 1])
  {
    assert values != [];
    if d[i] == values[|values| - 1] {
      LongerRun(values, starts, d, i);
    } else {
      NewRun(values, starts, d, i);
    }
  }

  lemma LongerRun(values: seq<nat>, starts: seq<nat>, d: seq<nat>, i: nat)
    requires 1 <= i < |d| < U32 && Runs(Rle(i, values, starts), d[..i])
    requires d[i] == values[|values| - 1]
    ensures Runs(Rle(i + 1, values, starts), d[..i + 1])
  {
    var r, t, longer := Rle(i, values, starts), Rle(i + 1, values, starts), d[..i + 1];
    assert WellFormed(t);
    forall k | 0 <= k < |starts| ensures Flat(t, longer, k) {
      assert Flat(r, d[..i], k);
      FlatOn(r, t, d, i, k);
    }
  }

  lemma NewRun(values: seq<nat>, starts: seq<nat>, d: seq<nat>, i: nat)
    requires 1 <= i < |d| < U32 && d[i] < U32 && Runs(Rle(i, values, starts), d[..i])
    requires d[i] != values[|values| - 1]
    ensures Runs(Rle(i + 1, values + [d[i]], starts + [i]), d[..i + 1])
  {
    var r, t, longer := Rle(i, values, starts), Rle(i + 1, values + [d[i]], starts + [i]), d[..i + 1];
    assert WellFormed(t);
    forall k | 0 <= k < |t.starts| ensures Flat(t, longer, k) {
      if k < |starts| {
        assert Flat(r, d[..i], k);
        FlatOn(r, t, d, i, k);
      }
    }
  }

  /** One more node leaves a run flat when the run ends where it did, or takes the node in. */
  lemma FlatOn(r: Rle, t: Rle, d: seq<nat>, i: nat, k: nat)
    requires WellFormed(r) && WellFormed(t) && i < |d| && r.n == i && t.n == i + 1
    requires k < |r.starts| && k < |t.starts| && t.starts[k] == r.starts[k] && t.values[k] == r.values[k]
    requires End(t, k) <= i || (End(r, k) == i && d[i] == t.values[k])
    requires End(t, k) <= i ==> End(t, k) == End(r, k)
    requires Flat(r, d[..i], k)
    ensures Flat(t, d[..i + 1], k)
  {
    var longer := d[..i + 1];
    forall j | t.starts[k] <= j < End(t, k) ensures longer[j] == t.values[k] {
      if j < i { assert d[..i][j] == r.values[k]; }
    }
  }

  lemma RunHolds(r: Rle, d: seq<nat>, off: nat)
    requires Runs(r, d) && off < |d|
    ensures DegreeAt(r, off) == d[off]
  {
    var k := PartitionPoint(r.starts, s => s <= off) - 1;
    assert r.starts[k] <= off < End(r, k) && Flat(r, d, k);
  }

  /** `Vec::resize`: cut to `end`, or grow to it with copies of `v`. */
  function Resize(d: seq<nat>, end: nat, v: nat): (r: seq<nat>)
    ensures |r| == end
  {
    if end <= |d| then d[..end] else d + seq(end - |d|, _ => v)
  }

  /** The first `k` runs laid out one after the other, whatever their starts say. */
  function Resized(r: Rle, k: nat): seq<nat>
    requires |r.values| == |r.starts| && k <= |r.values|
  {
    if k == 0 then [] else Resize(Resized(r, k - 1), End(r, k - 1), r.values[k - 1])
  }

  /** Materialise a chunk run by run; any decoded chunk will do. */
  method ToDegrees(r: Rle) returns (d: seq<nat>)
    requires |r.values| == |r.starts|
    ensures d == Resized(r, |r.values|)
  {
    d := [];
    for k := 0 to |r.values|
      invariant d == Resized(r, k)
    {
      d := Resize(d, End(r, k), r.values[k]);
    }
  }

  /** On a well-formed chunk that is the degree of every node in turn. */
  lemma ResizedIsExpand(r: Rle)
    requires WellFormed(r)
    ensures Resized(r, |r.values|) == Expand(r)
  {
    ResizedIs(r, |r.values|);
  }

  lemma {:induction false} ResizedIs(r: Rle, k: nat)
    requires WellFormed(r) && k <= |r.values|
    ensures |Resized(r, k)| == if k < |r.starts| then r.starts[k] else r.n
    ensures forall i :: 0 <= i < |Resized(r, k)| ==> Resized(r, k)[i] == DegreeAt(r, i)
  {
    if k > 0 {
      hide DegreeAt;
      ResizedIs(r, k - 1);
      var d, end := Resized(r, k - 1), End(r, k - 1);
      assert |d| < end;
      forall i | |d| <= i < end ensures DegreeAt(r, i) == r.values[k - 1] {
        RunIsFlat(r, k - 1, i);
      }
    }
  }

  // ---- the record body ----

  datatype Run = Run(value: nat, len: nat)

  function RunBytes(runs: seq<Run>): seq<byte> {
    if runs == [] then [] else WriteUvarint(runs[0].value) + WriteUvarint(runs[0].len) + RunBytes(runs[1..])
  }

  function RunsOf(r: Rle): (runs: seq<Run>)
    requires WellFormed(r)
    ensures |runs| == |r.values|
  {
    seq(|r.values|, k requires 0 <= k < |r.values| => RunAt(r, k))
  }

  function RunAt(r: Rle, k: nat): (run: Run)
    requires WellFormed(r) && k < |r.values|
    ensures 0 < run.len
  {
    Run(r.values[k], End(r, k) - r.starts[k])
  }

  function Serialize(r: Rle): seq<byte>
    requires WellFormed(r)
  {
    WriteUvarint(r.n) + WriteUvarint(|r.values|) + RunBytes(RunsOf(r))
  }

  /** Append the serialised body to a buffer. */
  method SerializeInto(r: Rle, buf: seq<byte>) returns (out: seq<byte>)
    requires WellFormed(r)
    ensures out == buf + Serialize(r)
  {
    hide WriteUvarint, RunBytes, WellFormed, RunAt;
    out := buf + WriteUvarint(r.n) + WriteUvarint(|r.values|);
    ghost var head, runs := out, RunsOf(r);
    NoRunBytes();
    assert runs[..0] == [];
    for k := 0 to |r.values|
      invariant out == head + RunBytes(runs[..k])
    {
      var run := RunAt(r, k);
      assert runs[..k + 1] == runs[..k] + [run];
      RunBytesSnoc(runs[..k], run);
      out := out + WriteUvarint(run.value) + WriteUvarint(run.len);
    }
    assert runs[..|r.values|] == runs;
  }

  lemma NoRunBytes()
    ensures RunBytes([]) == []
  {
  }

  lemma {:induction false} RunBytesSnoc(runs: seq<Run>, run: Run)
    ensures RunBytes(runs + [run]) == RunBytes(runs) + WriteUvarint(run.value) + WriteUvarint(run.len)
  {
    hide WriteUvarint;
    if runs == [] {
      assert runs + [run] == [run] && [run][1..] == [];
    } else {
      RunBytesSnoc(runs[1..], run);
      assert (runs + [run])[1..] == runs[1..] + [run];
    }
  }

  /** `count` runs off the front of a body, or nothing when it is cut short or has an empty run. */
  function ReadRuns(r: seq<byte>, count: nat): Option<seq<Run>>
    decreases count
  {
    if count == 0 then Some([])
    else
      match ReadRun(r)
      case None => None
      case Some((run, rest)) => Prepend([run], ReadRuns(rest, count - 1))
  }

  function ReadRun(r: seq<byte>): Option<(Run, seq<byte>)> {
    match ReadUvarint(r)
    case None => None
    case Some((value, r1)) =>
      match ReadUvarint(r1)
      case None => None
      case Some((len, r2)) => if len == 0 then None else Some((Run(value % U32, len), r2))
  }

  function Prepend(done: seq<Run>, rest: Option<seq<Run>>): Option<seq<Run>> {
    match rest
    case None => None
    case Some(runs) => Some(done + runs)
  }

  function Lengths(runs: seq<Run>): (s: seq<nat>)
    ensures |s| == |runs|
  {
    seq(|runs|, k requires 0 <= k < |runs| => runs[k].len)
  }

  function Before(runs: seq<Run>, k: nat): nat
    requires k <= |runs|
  {
    Sum(Lengths(runs)[..k])
  }

  /** The chunk a list of runs describes; starts are the 64-bit running length cut to 32 bits. */
  function FromRuns(n: nat, runs: seq<Run>): (r: Rle)
    ensures r.n == n && |r.values| == |r.starts| == |runs|
  {
    Rle(n, seq(|runs|, k requires 0 <= k < |runs| => runs[k].value),
        seq(|runs|, k requires 0 <= k < |runs| => Before(runs, k) % U64 % U32))
  }

  /** A body's node count and runs, as read. */
  function BodyRuns(body: seq<byte>): Option<(nat, seq<Run>)> {
    match ReadUvarint(body)
    case None => None
    case Some((n, r1)) =>
      match ReadUvarint(r1)
      case None => None
      case Some((count, r2)) =>
        match ReadRuns(r2, count)
        case None => None
        case Some(runs) => Some((n % U32, runs))
  }

  /** What a body decodes to: at most the ceiling's worth of nodes, and runs that add up to them. */
  function Decode(body: seq<byte>): Option<Rle> {
    match BodyRuns(body)
    case None => None
    case Some((n, runs)) =>
      if n > MAX_CHUNK_DEGREES || Before(runs, |runs|) % U64 != n then None else Some(FromRuns(n, runs))
  }

  method Deserialize(body: seq<byte>) returns (r: Option<Rle>)
    ensures r == Decode(body)
  {
    hide ReadUvarint, ReadRuns;
    var n := ReadUvarint(body);
    if n.None? || n.value.0 % U32 > MAX_CHUNK_DEGREES {
      return None;
    }
    var count := ReadUvarint(n.value.1);
    if count.None? {
      return None;
    }
    var ok, values, starts, total := DecodeRuns(count.value.1, count.value.0);
    if !ok || total != n.value.0 % U32 {
      return None;
    }
    r := Some(Rle(n.value.0 % U32, values, starts));
  }

  /** The decoder's loop. */
  method DecodeRuns(body: seq<byte>, count: nat) returns (ok: bool, values: seq<nat>, starts: seq<nat>, total: nat)
    ensures ok <==> ReadRuns(body, count).Some?
    ensures ok ==>
      var runs := ReadRuns(body, count).value;
      Rle(0, values, starts) == FromRuns(0, runs) && total == Before(runs, |runs|) % U64
  {
    values, starts, total := [], [], 0;
    var r := body;
    ghost var done: seq<Run> := [];
    assert Lengths(done)[..0] == [];
    PrependNothing(ReadRuns(body, count));
    for i := 0 to count
      invariant ReadRuns(body, count) == Prepend(done, ReadRuns(r, count - i))
      invariant Rle(0, values, starts) == FromRuns(0, done) && total == Before(done, |done|) % U64
    {
      hide FromRuns, Before, ReadRun;
      var run := ReadRun(r);
      if run.None? {
        return false, values, starts, total;
      }
      MoreRuns(done, run.value.0);
      AppendAssoc(done, run.value.0, ReadRuns(run.value.1, count - i - 1));
      values, starts := values + [run.value.0.value], starts + [total % U32];
      total := (total + run.value.0.len) % U64;
      done, r := done + [run.value.0], run.value.1;
    }
    ok := true;
    assert done + [] == done;
  }

  lemma PrependNothing(rest: Option<seq<Run>>)
    ensures Prepend([], rest) == rest
  {
    if rest.Some? {
      assert [] + rest.value == rest.value;
    }
  }

  lemma AppendAssoc(done: seq<Run>, run: Run, rest: Option<seq<Run>>)
    ensures Prepend(done, Prepend([run], rest)) == Prepend(done + [run], rest)
  {
    if rest.Some? {
      assert done + ([run] + rest.value) == done + [run] + rest.value;
    }
  }

  lemma MoreRuns(done: seq<Run>, run: Run)
    ensures var more := FromRuns(0, done + [run]); var r := FromRuns(0, done);
            more.values == r.values + [run.value] && more.starts == r.starts + [Before(done, |done|) % U64 % U32]
    ensures Before(done + [run], |done| + 1) % U64 == (Before(done, |done|) % U64 + run.len) % U64
  {
    hide Sum;
    var more := done + [run];
    forall k | 0 <= k <= |done| ensures Before(more, k) == Before(done, k) {
      assert Lengths(more)[..k] == Lengths(done)[..k];
    }
    SumPrefix(Lengths(more), |done|);
  }

  // ---- round trip ----

  lemma {:induction false} RunsReadBack(runs: seq<Run>, rest: seq<byte>)
    requires forall k :: 0 <= k < |runs| ==> runs[k].value < U32 && 0 < runs[k].len < U64
    ensures ReadRuns(RunBytes(runs) + rest, |runs|) == Some(runs)
  {
    hide WriteUvarint, ReadUvarint;
    if runs != [] {
      RunsReadBack(runs[1..], rest);
      var tail := RunBytes(runs[1..]) + rest;
      UvarintRoundTrip(runs[0].len, tail);
      UvarintRoundTrip(runs[0].value, WriteUvarint(runs[0].len) + tail);
      assert RunBytes(runs) + rest == WriteUvarint(runs[0].value) + (WriteUvarint(runs[0].len) + tail);
      assert [runs[0]] + runs[1..] == runs;
    }
  }

  lemma {:induction false} RunsAddUp(r: Rle, k: nat)
    requires WellFormed(r) && k <= |r.values|
    ensures Before(RunsOf(r), k) == if k < |r.starts| then r.starts[k] else r.n
  {
    hide Sum;
    if k == 0 {
      assert Lengths(RunsOf(r))[..0] == [] && Sum([]) == 0 by { SumNothing(); }
    } else {
      RunsAddUp(r, k - 1);
      SumPrefix(Lengths(RunsOf(r)), k - 1);
    }
  }

  lemma SumNothing()
    ensures Sum([]) == 0
  {
  }

  /** A chunk comes back from its body, whatever follows it. */
  lemma RoundTrip(r: Rle, rest: seq<byte>)
    requires WellFormed(r) && r.n <= MAX_CHUNK_DEGREES
    ensures Decode(Serialize(r) + rest) == Some(r)
  {
    hide WriteUvarint, ReadUvarint, ReadRuns, RunBytes, Before, FromRuns;
    var runs := RunsOf(r);
    StartsBound(r);
    RunsRebuild(r);
    RunsReadBack(runs, rest);
    UvarintRoundTrip(|r.values|, RunBytes(runs) + rest);
    UvarintRoundTrip(r.n, WriteUvarint(|r.values|) + (RunBytes(runs) + rest));
    assert Serialize(r) + rest == WriteUvarint(r.n) + (WriteUvarint(|r.values|) + (RunBytes(runs) + rest));
  }

  lemma RunsRebuild(r: Rle)
    requires WellFormed(r)
    ensures var runs := RunsOf(r); FromRuns(r.n, runs) == r && Before(runs, |runs|) == r.n
  {
    hide Before, WellFormed, RunsOf;
    var runs := RunsOf(r);
    SameLengths(r);
    RunsAddUp(r, |runs|);
    forall k | 0 <= k < |runs|
      ensures runs[k].value == r.values[k] && Before(runs, k) % U64 % U32 == r.starts[k]
    {
      RunRebuilds(r, k);
    }
    assert FromRuns(r.n, runs).values == r.values && FromRuns(r.n, runs).starts == r.starts;
  }

  lemma SameLengths(r: Rle)
    requires WellFormed(r)
    ensures |r.values| == |r.starts|
  {
  }

  lemma RunRebuilds(r: Rle, k: nat)
    requires WellFormed(r) && k < |r.values|
    ensures |r.values| == |r.starts| && RunsOf(r)[k].value == r.values[k]
    ensures Before(RunsOf(r), k) % U64 % U32 == r.starts[k]
  {
    hide Before;
    RunsAddUp(r, k);
  }

  lemma {:induction false} StartsBound(r: Rle)
    requires WellFormed(r)
    ensures |r.starts| <= r.n
  {
    if r.starts != [] {
      StartsAtLeast(r.starts, |r.starts| - 1);
    }
  }

  lemma {:induction false} StartsAtLeast(starts: seq<nat>, k: nat)
    requires StrictlyAscending(starts) && k < |starts|
    ensures starts[k] >= k
  {
    if k > 0 {
      StartsAtLeast(starts, k - 1);
    }
  }

  lemma BeforeAscends(runs: seq<Run>, j: nat, k: nat)
    requires j < k <= |runs| && forall i :: 0 <= i < |runs| ==> 0 < runs[i].len
    ensures Before(runs, j) < Before(runs, k) <= Before(runs, |runs|)
  {
    hide Sum;
    var lens := Lengths(runs);
    SumMonotone(lens, j + 1, k);
    SumMonotone(lens, k, |runs|);
    SumPrefix(lens, j);
  }

  lemma BeforeFirst(runs: seq<Run>)
    ensures Before(runs, 0) == 0
  {
    assert Lengths(runs)[..0] == [];
  }

  /** An accepted body whose run lengths add up without wrapping 64 bits is a well-formed chunk of
      exactly those runs. */
  lemma AcceptedIsWellFormed(n: nat, runs: seq<Run>)
    requires n <= MAX_CHUNK_DEGREES && Before(runs, |runs|) == n
    requires forall k :: 0 <= k < |runs| ==> runs[k].value < U32 && 0 < runs[k].len
    ensures WellFormed(FromRuns(n, runs)) && RunsOf(FromRuns(n, runs)) == runs
  {
    hide Before, FromRuns, WellFormed;
    var r := FromRuns(n, runs);
    RunsMakeChunk(n, runs);
    forall k | 0 <= k < |runs| ensures RunAt(r, k) == runs[k] {
      RunIs(n, runs, k);
    }
  }

  lemma RunsMakeChunk(n: nat, runs: seq<Run>)
    requires n <= MAX_CHUNK_DEGREES && Before(runs, |runs|) == n
    requires forall k :: 0 <= k < |runs| ==> runs[k].value < U32 && 0 < runs[k].len
    ensures WellFormed(FromRuns(n, runs))
  {
    hide Before, FromRuns;
    var r := FromRuns(n, runs);
    BeforeFirst(runs);
    forall k | 0 <= k < |runs| ensures r.starts[k] == Before(runs, k) < n && r.values[k] == runs[k].value {
      StartIs(n, runs, k);
    }
    assert StrictlyAscending(r.starts) by {
      forall j, k | 0 <= j < k < |runs| ensures r.starts[j] < r.starts[k] {
        BeforeAscends(runs, j, k);
      }
    }
  }

  lemma RunIs(n: nat, runs: seq<Run>, k: nat)
    requires n <= MAX_CHUNK_DEGREES && Before(runs, |runs|) == n && k < |runs|
    requires forall k :: 0 <= k < |runs| ==> runs[k].value < U32 && 0 < runs[k].len
    requires WellFormed(FromRuns(n, runs))
    ensures RunAt(FromRuns(n, runs), k) == runs[k]
  {
    hide Before, FromRuns, WellFormed;
    StartIs(n, runs, k);
    BeforeNext(runs, k);
    if k + 1 < |runs| {
      StartIs(n, runs, k + 1);
    }
  }

  lemma {:induction false} ReadRunsAre(r: seq<byte>, count: nat)
    ensures ReadRuns(r, count).Some? ==>
      forall k :: 0 <= k < |ReadRuns(r, count).value| ==>
        ReadRuns(r, count).value[k].value < U32 && 0 < ReadRuns(r, count).value[k].len
    decreases count
  {
    hide ReadUvarint;
    if count > 0 && ReadRun(r).Some? {
      ReadRunsAre(ReadRun(r).value.1, count - 1);
    }
  }

  /** The run lengths add up past 64 bits, so that their running sum has wrapped. */
  predicate Wraps(body: seq<byte>) {
    match BodyRuns(body)
    case None => false
    case Some((_, runs)) => Before(runs, |runs|) >= U64
  }

  /** An accepted body decodes to a well-formed chunk of the very runs it lists if and only if its
      run lengths do not wrap. */
  lemma DecodedRunsIff(body: seq<byte>)
    requires Decode(body).Some?
    ensures WellFormed(Decode(body).value) && RunsOf(Decode(body).value) == BodyRuns(body).value.1 <==> !Wraps(body)
  {
    hide ReadUvarint, ReadRuns, Before, FromRuns, WellFormed;
    var n := ReadUvarint(body).value;
    var count := ReadUvarint(n.1).value;
    ReadRunsAre(count.1, count.0);
    var runs := ReadRuns(count.1, count.0).value;
    var r := Decode(body).value;
    if !Wraps(body) {
      AcceptedIsWellFormed(n.0 % U32, runs);
    } else if WellFormed(r) && RunsOf(r) == runs {
      RunsRebuild(r);
      assert false;
    }
  }

  function BodyOf(n: nat, runs: seq<Run>): seq<byte> {
    WriteUvarint(n) + WriteUvarint(|runs|) + RunBytes(runs)
  }

  lemma BodyReads(n: nat, runs: seq<Run>)
    requires n < U32 && |runs| < U64
    requires forall k :: 0 <= k < |runs| ==> runs[k].value < U32 && 0 < runs[k].len < U64
    ensures BodyRuns(BodyOf(n, runs)) == Some((n, runs))
  {
    hide WriteUvarint, ReadUvarint, ReadRuns, RunBytes;
    RunsReadBack(runs, []);
    assert RunBytes(runs) + [] == RunBytes(runs);
    UvarintRoundTrip(|runs|, RunBytes(runs));
    UvarintRoundTrip(n, WriteUvarint(|runs|) + RunBytes(runs));
    assert BodyOf(n, runs) == WriteUvarint(n) + (WriteUvarint(|runs|) + RunBytes(runs));
  }

  lemma TwoRuns(a: Run, b: Run)
    ensures Before([a, b], 0) == 0 && Before([a, b], 1) == a.len && Before([a, b], 2) == a.len + b.len
  {
    BeforeFirst([a, b]);
    BeforeNext([a, b], 0);
    BeforeNext([a, b], 1);
  }

  /** One node, runs of 2^64 - 1 and 2: accepted, and the second run starts past the end. */
  lemma WrappedBodyMisdecodes() returns (body: seq<byte>)
    ensures Decode(body) == Some(Rle(1, [7, 9], [0, U32 - 1])) && Wraps(body)
    ensures !WellFormed(Decode(body).value)
  {
    hide Before, BodyRuns;
    var runs := [Run(7, U64 - 1), Run(9, 2)];
    body := BodyOf(1, runs);
    BodyReads(1, runs);
    TwoRuns(runs[0], runs[1]);
    assert Before(runs, |runs|) % U64 == 1;
    assert FromRuns(1, runs).values == [7, 9] && FromRuns(1, runs).starts == [0, U32 - 1];
    assert Decode(body).value.starts[1] >= Decode(body).value.n;
  }

  /** Wrapping does not always show: these runs decode to a well-formed chunk of other runs. */
  lemma WrappedBodyMayFit() returns (body: seq<byte>)
    ensures Decode(body) == Some(Rle(2, [7, 9], [0, 1])) && Wraps(body)
    ensures WellFormed(Decode(body).value)
  {
    hide Before, BodyRuns;
    var runs := [Run(7, U32 + 1), Run(9, U64 - U32 + 1)];
    body := BodyOf(2, runs);
    BodyReads(2, runs);
    TwoRuns(runs[0], runs[1]);
    assert Before(runs, |runs|) % U64 == 2;
    assert FromRuns(2, runs).values == [7, 9] && FromRuns(2, runs).starts == [0, 1];
  }

  lemma StartIs(n: nat, runs: seq<Run>, k: nat)
    requires n <= MAX_CHUNK_DEGREES && Before(runs, |runs|) == n && k < |runs|
    requires forall k :: 0 <= k < |runs| ==> 0 < runs[k].len
    ensures var r := FromRuns(n, runs); r.starts[k] == Before(runs, k) < n && r.values[k] == runs[k].value
  {
    hide Before;
    BeforeAscends(runs, k, |runs|);
  }

  lemma BeforeNext(runs: seq<Run>, k: nat)
    requires k < |runs|
    ensures Before(runs, k + 1) == Before(runs, k) + runs[k].len
  {
    SumPrefix(Lengths(runs), k);
  }
}

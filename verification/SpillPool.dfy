/** The external sorter's run formation: a pushing thread and a pool of spill workers as a state
    machine whose steps are their lock sections, and the sort from pushed records to the merged
    output (crates/graph-format/src/extsort.rs:120-154, 342-435). */
module SpillPool {
  import opened Collections
  import opened Sorting
  import opened BlockFormat
  import opened BlockFile
  import opened BlockReader
  import opened ExtSort
  import opened RunFile

  /** `inflight` is the cap on outstanding spills; 1 means spill inline. */
  datatype Config<!R> = Config(le: (R, R) -> bool, codec: Codec<R>, inflight: nat)

  datatype Phase =
    | Pushing
    | Spilling(last: bool)              // about to look for a worker's error
    | Enqueuing(last: bool)             // waiting for room
    | Draining
    | Ready                             // `sorted` returned the merge
    | Failed                            // `sorted` returned an error

  datatype Sorter<R> = Sorter(
    input: seq<R>,                      // history: records pushed
    sent: seq<seq<R>>,                  // history: buffers dispatched, in order
    buf: seq<R>,
    running: map<nat, seq<R>>,          // spills queued or running
    releasing: nat,                     // spills finished but still counted as outstanding
    done: map<nat, seq<seq<Bytes>>>,    // completed run files by dispatch index
    failed: set<nat>,                   // history: spills that failed
    err: bool,                          // a worker's error waits to be taken
    reported: bool,                     // history: some call returned an error
    phase: Phase)

  datatype Step<R> =
    | Push(rec: R, full: bool)          // `full`: the buffer's resident bytes reached the threshold
    | BeginSorted
    | TakeErr
    | Enqueue
    | SpillInline
    | InlineFails
    | RunDone(i: nat)
    | RunFails(i: nat)
    | Release
    | Drained

  function Empty<R>(): Sorter<R> {
    Sorter([], [], [], map[], 0, map[], {}, false, false, Pushing)
  }

  /** The phase a spill of the pushing thread leads to. */
  function After(last: bool, ok: bool): Phase {
    if last then (if ok then Draining else Failed) else Pushing
  }

  /** Give the buffer a dispatch index. */
  function Sent<R>(s: Sorter<R>, ok: bool): Sorter<R>
    requires s.phase.Enqueuing?
  {
    s.(sent := s.sent + [s.buf], buf := [], phase := After(s.phase.last, ok))
  }

  ghost predicate Next<R(!new)>(c: Config<R>, s: Sorter<R>, step: Step<R>, t: Sorter<R>) {
    match step
    case Push(rec, full) =>
      && s.phase.Pushing?
      && t == s.(input := s.input + [rec], buf := s.buf + [rec], phase := if full then Spilling(false) else Pushing)
    case BeginSorted =>
      s.phase.Pushing? && t == s.(phase := if s.buf == [] then Draining else Spilling(true))
    case TakeErr =>
      && s.phase.Spilling?
      && t == if s.err then s.(err := false, reported := true, phase := After(s.phase.last, false))
              else s.(phase := Enqueuing(s.phase.last))
    case Enqueue =>
      && s.phase.Enqueuing? && c.inflight > 1 && |s.running| + s.releasing < c.inflight
      && t == Sent(s, true).(running := s.running[|s.sent| := s.buf])
    case SpillInline =>
      && s.phase.Enqueuing? && c.inflight <= 1
      && t == Sent(s, true).(done := s.done[|s.sent| := RunOf(c.le, c.codec, s.buf)])
    case InlineFails =>
      && s.phase.Enqueuing? && c.inflight <= 1
      && t == Sent(s, false).(failed := s.failed + {|s.sent|}, reported := true)
    case RunDone(i) =>
      && i in s.running
      && t == s.(running := s.running - {i}, releasing := s.releasing + 1,
                 done := s.done[i := RunOf(c.le, c.codec, s.running[i])])
    case RunFails(i) =>
      && i in s.running
      && t == s.(running := s.running - {i}, releasing := s.releasing + 1, failed := s.failed + {i}, err := true)
    case Release =>
      s.releasing > 0 && t == s.(releasing := s.releasing - 1)
    case Drained =>
      && s.phase.Draining? && s.running == map[] && s.releasing == 0
      && t == if s.err then s.(err := false, reported := true, phase := Failed) else s.(phase := Ready)
  }

  // ---- what every step keeps ----

  /** Every dispatched buffer is being spilled, is a finished run of it, or failed: one of the three. */
  ghost predicate Accounted<R(!new)>(c: Config<R>, sent: seq<seq<R>>, running: map<nat, seq<R>>,
                                     done: map<nat, seq<seq<Bytes>>>, failed: set<nat>) {
    && (forall i :: i in running ==> i < |sent| && running[i] == sent[i] && i !in done && i !in failed)
    && (forall i :: i in done ==> i < |sent| && done[i] == RunOf(c.le, c.codec, sent[i]) && i !in failed)
    && (forall i :: i in failed ==> i < |sent|)
    && (forall i :: 0 <= i < |sent| ==> i in running || i in done || i in failed)
  }

  ghost predicate Inv<R(!new)>(c: Config<R>, s: Sorter<R>) {
    && Flatten(s.sent) + s.buf == s.input
    && Accounted(c, s.sent, s.running, s.done, s.failed)
    && (s.failed != {} <==> s.err || s.reported)
    && (forall i :: 0 <= i < |s.sent| ==> s.sent[i] != [])
    && (s.phase.Spilling? || s.phase.Enqueuing? ==> s.buf != [])
    && (s.phase.Draining? || s.phase.Ready? ==> s.buf == [])
    && (s.phase.Ready? ==> s.running == map[] && !s.err)
    && |s.running| + s.releasing <= c.inflight
  }

  lemma OneMore<V>(m: map<nat, V>, k: nat, v: V)
    requires k !in m
    ensures |m[k := v]| == |m| + 1
  {
    assert m[k := v].Keys == m.Keys + {k};
  }

  lemma OneLess<V>(m: map<nat, V>, k: nat)
    requires k in m
    ensures |m - {k}| == |m| - 1
  {
    assert (m - {k}).Keys == m.Keys - {k};
  }

  lemma RunningMore<R(!new)>(c: Config<R>, s: Sorter<R>)
    requires Accounted(c, s.sent, s.running, s.done, s.failed)
    ensures Accounted(c, s.sent + [s.buf], s.running[|s.sent| := s.buf], s.done, s.failed)
    ensures |s.running[|s.sent| := s.buf]| == |s.running| + 1
  {
    hide RunOf;
    assert |s.sent| !in s.running;
    OneMore(s.running, |s.sent|, s.buf);
  }

  lemma DoneMore<R(!new)>(c: Config<R>, s: Sorter<R>)
    requires Accounted(c, s.sent, s.running, s.done, s.failed)
    ensures Accounted(c, s.sent + [s.buf], s.running, s.done[|s.sent| := RunOf(c.le, c.codec, s.buf)], s.failed)
  {
    hide RunOf;
  }

  lemma FailedMore<R(!new)>(c: Config<R>, s: Sorter<R>)
    requires Accounted(c, s.sent, s.running, s.done, s.failed)
    ensures Accounted(c, s.sent + [s.buf], s.running, s.done, s.failed + {|s.sent|})
  {
    hide RunOf;
  }

  lemma AccountedLess<R(!new)>(c: Config<R>, s: Sorter<R>, i: nat)
    requires Accounted(c, s.sent, s.running, s.done, s.failed) && i in s.running
    ensures Accounted(c, s.sent, s.running - {i}, s.done[i := RunOf(c.le, c.codec, s.running[i])], s.failed)
    ensures Accounted(c, s.sent, s.running - {i}, s.done, s.failed + {i})
  {
    hide RunOf;
  }

  lemma SpillKeeps<R(!new)>(c: Config<R>, s: Sorter<R>, step: Step<R>, t: Sorter<R>)
    requires Inv(c, s) && Next(c, s, step, t) && (step.Enqueue? || step.SpillInline? || step.InlineFails?)
    ensures Inv(c, t)
  {
    hide RunOf, Flatten, Accounted;
    FlattenSnoc(s.sent, s.buf);
    match step
    case Enqueue => RunningMore(c, s);
    case SpillInline => DoneMore(c, s);
    case InlineFails => FailedMore(c, s);
  }

  lemma DoneKeeps<R(!new)>(c: Config<R>, s: Sorter<R>, i: nat, t: Sorter<R>)
    requires Inv(c, s) && Next(c, s, RunDone(i), t)
    ensures Inv(c, t)
  {
    hide RunOf, Flatten, Accounted;
    AccountedLess(c, s, i);
    OneLess(s.running, i);
  }

  lemma FailKeeps<R(!new)>(c: Config<R>, s: Sorter<R>, i: nat, t: Sorter<R>)
    requires Inv(c, s) && Next(c, s, RunFails(i), t)
    ensures Inv(c, t)
  {
    hide RunOf, Flatten, Accounted;
    AccountedLess(c, s, i);
    OneLess(s.running, i);
  }

  lemma StepKeeps<R(!new)>(c: Config<R>, s: Sorter<R>, step: Step<R>, t: Sorter<R>)
    requires Inv(c, s) && Next(c, s, step, t)
    ensures Inv(c, t)
  {
    hide Inv, Next;
    match step
    case Enqueue => SpillKeeps(c, s, step, t);
    case SpillInline => SpillKeeps(c, s, step, t);
    case InlineFails => SpillKeeps(c, s, step, t);
    case RunDone(i) => DoneKeeps(c, s, i, t);
    case RunFails(i) => FailKeeps(c, s, i, t);
    case Push(_, _) => PushKeeps(c, s, step, t);
    case BeginSorted => PushKeeps(c, s, step, t);
    case TakeErr => QuietKeeps(c, s, step, t);
    case Release => QuietKeeps(c, s, step, t);
    case Drained => QuietKeeps(c, s, step, t);
  }

  lemma PushKeeps<R(!new)>(c: Config<R>, s: Sorter<R>, step: Step<R>, t: Sorter<R>)
    requires Inv(c, s) && Next(c, s, step, t) && Caller(step)
    ensures Inv(c, t)
  {
    hide RunOf, Flatten, Accounted;
    if step.Push? {
      assert Flatten(s.sent) + (s.buf + [step.rec]) == t.input;
    }
  }

  lemma QuietKeeps<R(!new)>(c: Config<R>, s: Sorter<R>, step: Step<R>, t: Sorter<R>)
    requires Inv(c, s) && Next(c, s, step, t) && (step.TakeErr? || step.Release? || step.Drained?)
    ensures Inv(c, t)
  {
    hide RunOf, Flatten, Accounted;
  }

  ghost predicate Run<R(!new)>(c: Config<R>, states: seq<Sorter<R>>, steps: seq<Step<R>>) {
    && |states| == |steps| + 1 && states[0] == Empty()
    && (forall j :: 0 <= j < |steps| ==> Next(c, states[j], steps[j], states[j + 1]))
  }

  lemma {:induction false} RunKeeps<R(!new)>(c: Config<R>, states: seq<Sorter<R>>, steps: seq<Step<R>>, j: nat)
    requires Run(c, states, steps) && j < |states|
    ensures Inv(c, states[j])
  {
    hide Run, Inv, Next;
    if j == 0 {
      StartInv(c, states, steps);
    } else {
      RunStep(c, states, steps, j - 1);
      RunKeeps(c, states, steps, j - 1);
      StepKeeps(c, states[j - 1], steps[j - 1], states[j]);
    }
  }

  lemma StartInv<R(!new)>(c: Config<R>, states: seq<Sorter<R>>, steps: seq<Step<R>>)
    requires Run(c, states, steps)
    ensures states != [] && Inv(c, states[0])
  {
    hide Next;
  }

  lemma RunStep<R(!new)>(c: Config<R>, states: seq<Sorter<R>>, steps: seq<Step<R>>, k: nat)
    requires Run(c, states, steps) && k + 1 < |states|
    ensures |states| == |steps| + 1 && Next(c, states[k], steps[k], states[k + 1])
  {
    hide Next;
  }

  // ---- the run files ----

  /** The completed run files with an index below `n`, in dispatch order. */
  ghost function FilesUpTo(done: map<nat, seq<seq<Bytes>>>, n: nat): seq<seq<seq<Bytes>>> {
    if n == 0 then [] else FilesUpTo(done, n - 1) + (if n - 1 in done then [done[n - 1]] else [])
  }

  /** The run files handed to the merge, back in dispatch order. */
  ghost function RunFiles<R(!new)>(s: Sorter<R>): seq<seq<seq<Bytes>>> {
    FilesUpTo(s.done, |s.sent|)
  }

  ghost predicate AllReadable<R(!new)>(c: Codec<R>, files: seq<seq<seq<Bytes>>>) {
    forall i :: 0 <= i < |files| ==> Readable(c, files[i])
  }

  /** The records of each file. */
  ghost function Contents<R(!new)>(c: Codec<R>, files: seq<seq<seq<Bytes>>>): (f: seq<seq<R>>)
    requires AllReadable(c, files)
    ensures |f| == |files|
  {
    seq(|files|, i requires 0 <= i < |files| => Flatten(Records(c, files[i])))
  }

  /** The records behind the last full block of buffer `i`'s run spell a byte. */
  ghost predicate Spelled<R(!new)>(c: Config<R>, sent: seq<seq<R>>, i: nat)
    requires i < |sent|
  {
    TailHasBytes(c.codec, Sorted(c.le, sent[i]))
  }

  /** Readable files, each in key order, holding some of these records. */
  ghost predicate Holds<R(!new)>(c: Config<R>, files: seq<seq<seq<Bytes>>>, records: seq<R>) {
    && AllReadable(c.codec, files)
    && (forall i :: 0 <= i < |files| ==> SortedBy(c.le, Contents(c.codec, files)[i]))
    && multiset(Flatten(Contents(c.codec, files))) <= multiset(records)
  }

  lemma HoldsOneMore<R(!new)>(c: Config<R>, files: seq<seq<seq<Bytes>>>, records: seq<R>, f: seq<seq<Bytes>>,
                              buf: seq<R>)
    requires Holds(c, files, records) && Readable(c.codec, f)
    requires SortedBy(c.le, Flatten(Records(c.codec, f))) && multiset(Flatten(Records(c.codec, f))) <= multiset(buf)
    ensures Holds(c, files + [f], records + buf)
    ensures Flatten(Contents(c.codec, files + [f])) == Flatten(Contents(c.codec, files)) + Flatten(Records(c.codec, f))
  {
    hide Readable, Flatten, SortedBy;
    assert Contents(c.codec, files + [f]) == Contents(c.codec, files) + [Flatten(Records(c.codec, f))];
    FlattenSnoc(Contents(c.codec, files), Flatten(Records(c.codec, f)));
  }

  /** The first `n` buffers became runs, and none lost its tail. */
  ghost predicate WholeUpTo<R(!new)>(c: Config<R>, s: Sorter<R>, n: nat) {
    n <= |s.sent| && forall i :: 0 <= i < n ==> i in s.done && Spelled(c, s.sent, i)
  }

  lemma WholeOneMore<R(!new)>(c: Config<R>, s: Sorter<R>, n: nat)
    requires n < |s.sent|
    ensures WholeUpTo(c, s, n + 1) <==> WholeUpTo(c, s, n) && n in s.done && Spelled(c, s.sent, n)
  {
    hide Spelled;
  }

  /** What the theorems ask of the records: the codec spells them faithfully and the key orders them. */
  ghost predicate Proper<R(!new)>(c: Config<R>, s: seq<R>) {
    Faithful(c.codec, s) && Orders(c.le, s)
  }

  /** A dispatched buffer holds records, and its run, if there is one, is its run. */
  lemma DispatchedBuffer<R(!new)>(c: Config<R>, s: Sorter<R>, k: nat)
    requires Inv(c, s) && Proper(c, s.input) && k < |s.sent|
    ensures s.sent[k] != [] && Proper(c, s.sent[k])
    ensures Audible(c.codec, s.input) ==> Audible(c.codec, s.sent[k])
    ensures k in s.done ==> s.done[k] == RunOf(c.le, c.codec, s.sent[k])
  {
    hide RunOf, Flatten, Audible, Proper;
    ProperBuffer(c, s.sent, s.buf, s.input, k);
  }

  lemma {:induction false} FilesHold<R(!new)>(c: Config<R>, s: Sorter<R>, n: nat)
    requires Inv(c, s) && Proper(c, s.input) && n <= |s.sent|
    ensures Holds(c, FilesUpTo(s.done, n), Flatten(s.sent[..n]))
    ensures |Flatten(Contents(c.codec, FilesUpTo(s.done, n)))| <= |Flatten(s.sent[..n])|
    ensures |Flatten(Contents(c.codec, FilesUpTo(s.done, n)))| == |Flatten(s.sent[..n])| <==> WholeUpTo(c, s, n)
  {
    hide Flatten, RunOf, Readable, SortedBy, Inv, WholeUpTo, Contents, AllReadable, Faithful, Orders, TailHasBytes,
         Sorted;
    if n == 0 {
      NothingHeld(c, s);
    } else {
      var k := n - 1;
      FilesHold(c, s, k);
      FlattenPrefix(s.sent, k);
      WholeOneMore(c, s, k);
      DispatchedBuffer(c, s, k);
      if k in s.done {
        RunHolds(c.le, c.codec, s.sent[k]);
        HoldsOneMore(c, FilesUpTo(s.done, k), Flatten(s.sent[..k]), s.done[k], s.sent[k]);
      } else {
        assert FilesUpTo(s.done, n) == FilesUpTo(s.done, k);
        HoldsMore(c, FilesUpTo(s.done, k), Flatten(s.sent[..k]), s.sent[k]);
      }
    }
  }

  lemma NothingHeld<R(!new)>(c: Config<R>, s: Sorter<R>)
    ensures Holds(c, FilesUpTo(s.done, 0), Flatten(s.sent[..0]))
    ensures Flatten(Contents(c.codec, FilesUpTo(s.done, 0))) == [] && Flatten(s.sent[..0]) == [] && WholeUpTo(c, s, 0)
  {
    assert s.sent[..0] == [];
  }

  lemma HoldsMore<R(!new)>(c: Config<R>, files: seq<seq<seq<Bytes>>>, records: seq<R>, buf: seq<R>)
    requires Holds(c, files, records)
    ensures Holds(c, files, records + buf)
  {
  }

  lemma ProperBuffer<R(!new)>(c: Config<R>, sent: seq<seq<R>>, buf: seq<R>, input: seq<R>, i: nat)
    requires i < |sent| && Flatten(sent) + buf == input && Proper(c, input)
    ensures Proper(c, sent[i])
    ensures Audible(c.codec, input) ==> Audible(c.codec, sent[i])
  {
    hide Flatten, Orders;
    forall r | r in sent[i] ensures r in input {
      FlattenMember(sent, i, r);
    }
    OrdersSome(c.le, input, sent[i]);
  }

  /** The merge gets every pushed record. */
  ghost predicate Complete<R(!new)>(c: Config<R>, s: Sorter<R>)
    requires AllReadable(c.codec, RunFiles(s))
  {
    multiset(Flatten(Contents(c.codec, RunFiles(s)))) == multiset(s.input)
  }

  lemma SameSize<T>(a: multiset<T>, b: multiset<T>)
    requires a <= b
    ensures a == b <==> |a| == |b|
  {
    assert b == a + (b - a);
  }

  /** No dispatched buffer ends, in key order, in a block that spells nothing. */
  ghost predicate AllSpelled<R(!new)>(c: Config<R>, sent: seq<seq<R>>) {
    forall i :: 0 <= i < |sent| ==> Spelled(c, sent, i)
  }

  lemma ReadyHolds<R(!new)>(c: Config<R>, s: Sorter<R>)
    requires Inv(c, s) && s.phase.Ready? && Proper(c, s.input)
    ensures Holds(c, RunFiles(s), s.input)
    ensures Complete(c, s) <==> !s.reported && AllSpelled(c, s.sent)
    ensures Audible(c.codec, s.input) ==> AllSpelled(c, s.sent)
  {
    hide Flatten, RunOf, FilesUpTo, Contents, Readable, SortedBy, Proper, Spelled;
    NoneFailed(c, s);
    FilesHold(c, s, |s.sent|);
    assert s.sent[..|s.sent|] == s.sent && Flatten(s.sent) + [] == s.input;
    var all := Flatten(Contents(c.codec, RunFiles(s)));
    SameSize(multiset(all), multiset(s.input));
    assert |multiset(all)| == |all| && |multiset(s.input)| == |s.input|;
  }

  lemma NoneFailed<R(!new)>(c: Config<R>, s: Sorter<R>)
    requires Inv(c, s) && s.phase.Ready? && Proper(c, s.input)
    ensures WholeUpTo(c, s, |s.sent|) <==> !s.reported && AllSpelled(c, s.sent)
    ensures Audible(c.codec, s.input) ==> AllSpelled(c, s.sent)
  {
    hide Flatten, RunOf, Audible, Faithful, Orders, Readable, Sorted, TailHasBytes;
    if s.failed != {} {
      var i :| i in s.failed;
      assert i !in s.done;
    }
    if Audible(c.codec, s.input) {
      forall i | 0 <= i < |s.sent| ensures Spelled(c, s.sent, i) {
        DispatchedBuffer(c, s, i);
        RunHolds(c.le, c.codec, s.sent[i]);
      }
    }
  }

  /** Whatever the thresholds, the cut into buffers, the order the workers finish in and the calls
      a caller makes after an error: a sorter that becomes ready hands the merge sorted runs of
      pushed records. They are all of them if and only if no call has returned an error and no
      buffer ends in a block that spells nothing; when no record spells nothing, if and only if no
      call has returned an error. No more than `inflight` spills were ever outstanding. */
  lemma EveryRunFormsSortedRuns<R(!new)>(c: Config<R>, states: seq<Sorter<R>>, steps: seq<Step<R>>, j: nat)
    requires Run(c, states, steps) && j < |states| && Proper(c, states[j].input)
    ensures |states[j].running| + states[j].releasing <= c.inflight
    ensures states[j].phase.Ready? ==>
      var s := states[j];
      && Holds(c, RunFiles(s), s.input)
      && (Complete(c, s) <==> !s.reported && AllSpelled(c, s.sent))
      && (Audible(c.codec, s.input) ==> (Complete(c, s) <==> !s.reported))
  {
    hide Holds, Complete, Proper, AllSpelled;
    RunKeeps(c, states, steps, j);
    if states[j].phase.Ready? {
      ReadyHolds(c, states[j]);
    }
  }

  /** A caller that goes on after a push returned an error can be handed a merge without the
      records of the failed spill. */
  lemma ErrorThenOkLosesRecords<R(!new)>(c: Config<R>, r: R) returns (states: seq<Sorter<R>>, steps: seq<Step<R>>)
    requires c.inflight <= 1
    ensures Run(c, states, steps)
    ensures var s := states[|steps|]; s.phase.Ready? && s.reported && s.input == [r] && RunFiles(s) == []
  {
    var s0: Sorter<R> := Empty();
    var s1 := s0.(input := [r], buf := [r], phase := Spilling(false));
    var s2 := s1.(phase := Enqueuing(false));
    var s3 := s2.(sent := [[r]], buf := [], phase := Pushing, failed := {0}, reported := true);
    var s4 := s3.(phase := Draining);
    var s5 := s4.(phase := Ready);
    assert Next(c, s0, Push(r, true), s1) && Next(c, s1, TakeErr, s2);
    assert Next(c, s2, InlineFails, s3);
    assert Next(c, s3, BeginSorted, s4) && Next(c, s4, Drained, s5);
    assert FilesUpTo(map[], 1) == [];
    states := [s0, s1, s2, s3, s4, s5];
    steps := [Push(r, true), TakeErr, InlineFails, BeginSorted, Drained];
  }

  // ---- progress ----

  predicate Caller<R>(step: Step<R>) {
    step.Push? || step.BeginSorted?
  }

  /** The caller holds the sorter and no worker has anything left to do. */
  predicate Idle<R>(s: Sorter<R>) {
    (s.phase.Pushing? || s.phase.Ready? || s.phase.Failed?) && s.running == map[] && s.releasing == 0
  }

  /** A step that is neither the caller's nor a failure. */
  predicate Progress<R>(step: Step<R>) {
    !Caller(step) && !step.RunFails? && !step.InlineFails?
  }

  /** A sorter that is not idle can go on by itself without a failure. */
  lemma NeverStuck<R(!new)>(c: Config<R>, s: Sorter<R>)
    requires Inv(c, s) && !Idle(s)
    ensures exists step, t :: Progress(step) && Next(c, s, step, t)
  {
    hide Inv, Next;
    if s.running != map[] || s.releasing > 0 {
      WorkerMoves(c, s);
    } else {
      PusherMoves(c, s);
    }
  }

  lemma WorkerMoves<R(!new)>(c: Config<R>, s: Sorter<R>)
    requires s.running != map[] || s.releasing > 0
    ensures exists step, t :: Progress(step) && Next(c, s, step, t)
  {
    hide RunOf;
    if s.releasing > 0 {
      Takes(c, s, Release, s.(releasing := s.releasing - 1));
    } else {
      var i :| i in s.running;
      Takes(c, s, RunDone(i), s.(running := s.running - {i}, releasing := s.releasing + 1,
                                 done := s.done[i := RunOf(c.le, c.codec, s.running[i])]));
    }
  }

  lemma PusherMoves<R(!new)>(c: Config<R>, s: Sorter<R>)
    requires s.running == map[] && s.releasing == 0 && (s.phase.Spilling? || s.phase.Enqueuing? || s.phase.Draining?)
    ensures exists step, t :: Progress(step) && Next(c, s, step, t)
  {
    hide RunOf;
    match s.phase
    case Spilling(last) =>
      Takes(c, s, TakeErr, if s.err then s.(err := false, reported := true, phase := After(last, false))
                           else s.(phase := Enqueuing(last)));
    case Enqueuing(_) =>
      if c.inflight > 1 {
        Takes(c, s, Enqueue, Sent(s, true).(running := s.running[|s.sent| := s.buf]));
      } else {
        Takes(c, s, SpillInline, Sent(s, true).(done := s.done[|s.sent| := RunOf(c.le, c.codec, s.buf)]));
      }
    case Draining =>
      Takes(c, s, Drained, if s.err then s.(err := false, reported := true, phase := Failed) else s.(phase := Ready));
  }

  lemma Takes<R(!new)>(c: Config<R>, s: Sorter<R>, step: Step<R>, t: Sorter<R>)
    requires Progress(step) && Next(c, s, step, t)
    ensures exists step, t :: Progress(step) && Next(c, s, step, t)
  {
  }

  function PhaseWork(phase: Phase): nat {
    match phase
    case Spilling(last) => if last then 5 else 4
    case Enqueuing(last) => if last then 4 else 3
    case Draining => 1
    case _ => 0
  }

  /** Work left between two calls of the caller. */
  function Work<R>(s: Sorter<R>): nat {
    2 * |s.running| + s.releasing + PhaseWork(s.phase)
  }

  lemma IndexIsNew<R(!new)>(c: Config<R>, s: Sorter<R>)
    requires Inv(c, s)
    ensures |s.sent| !in s.running
  {
    hide RunOf, Flatten;
  }

  lemma WorkerWorks<R(!new)>(c: Config<R>, s: Sorter<R>, step: Step<R>, t: Sorter<R>)
    requires Next(c, s, step, t) && (step.RunDone? || step.RunFails?)
    ensures Work(t) < Work(s)
  {
    hide RunOf, PhaseWork;
    OneLess(s.running, step.i);
  }

  lemma EnqueueWorks<R(!new)>(c: Config<R>, s: Sorter<R>, t: Sorter<R>)
    requires Inv(c, s) && Next(c, s, Enqueue, t)
    ensures Work(t) < Work(s)
  {
    hide Inv;
    IndexIsNew(c, s);
    OneMore(s.running, |s.sent|, s.buf);
  }

  lemma StepWorks<R(!new)>(c: Config<R>, s: Sorter<R>, step: Step<R>, t: Sorter<R>)
    requires Inv(c, s) && Next(c, s, step, t) && !Caller(step)
    ensures Work(t) < Work(s)
  {
    hide RunOf, Inv;
    match step
    case Enqueue => EnqueueWorks(c, s, t);
    case RunDone(_) => WorkerWorks(c, s, step, t);
    case RunFails(_) => WorkerWorks(c, s, step, t);
    case _ =>
  }

  /** Between two calls of the caller every run is at most as long as the work it starts with, so
      each call returns and the workers come to rest, however they are scheduled. */
  lemma {:induction false} EveryCallReturns<R(!new)>(c: Config<R>, states: seq<Sorter<R>>, steps: seq<Step<R>>,
                                                     i: nat, j: nat)
    requires Run(c, states, steps) && i <= j < |states|
    requires forall k :: i <= k < j && k < |steps| ==> !Caller(steps[k])
    ensures Work(states[j]) + (j - i) <= Work(states[i])
    decreases j - i
  {
    hide Run, Inv, Next, Work;
    if i < j {
      var k := j - 1;
      RunStep(c, states, steps, k);
      EveryCallReturns(c, states, steps, i, k);
      RunKeeps(c, states, steps, k);
      StepWorks(c, states[k], steps[k], states[j]);
    }
  }

  // ---- from pushed records to the merged output ----

  /** The files of a sorter that became ready. */
  ghost predicate Spilled<R(!new)>(c: Config<R>, states: seq<Sorter<R>>, steps: seq<Step<R>>, s: Sorter<R>,
                                   sealer: Sealer, files: seq<File>) {
    && Run(c, states, steps) && states[|steps|] == s && s.phase.Ready?
    && |files| == |RunFiles(s)|
    && (forall i :: 0 <= i < |files| ==> files[i] == FileOf(sealer, RunFiles(s)[i]) && Storable(sealer, RunFiles(s)[i]))
  }

  /** No key ties two different records. */
  ghost predicate Tieless<R(!new)>(le: (R, R) -> bool, s: seq<R>) {
    forall x, y :: x in s && y in s && le(x, y) && le(y, x) ==> x == y
  }

  /** The run files as the merge's cursors read them. */
  function Views<R>(codec: Codec<R>, files: seq<File>, open: Opener): (views: seq<seq<Block<R>>>)
    ensures |views| == |files|
  {
    seq(|files|, i requires 0 <= i < |files| => View(codec, files[i], open))
  }

  lemma ViewsHold<R(!new)>(c: Config<R>, states: seq<Sorter<R>>, steps: seq<Step<R>>, s: Sorter<R>, sealer: Sealer,
                           files: seq<File>, open: Opener)
    requires Spilled(c, states, steps, s, sealer, files) && Undoes(open, sealer) && Proper(c, s.input)
    ensures var views := Views(c.codec, files, open);
      && AllReadable(c.codec, RunFiles(s)) && Lists(views) == Contents(c.codec, RunFiles(s))
      && (forall i :: 0 <= i < |views| ==> !Stream(views[i]).broken && SortedBy(c.le, Stream(views[i]).records))
  {
    hide FileOf, Storable, Undoes, Flatten, RunFiles, Proper, SortedBy, Next, AllSpelled, Readable, View, Stream,
         Complete;
    EveryRunFormsSortedRuns(c, states, steps, |steps|);
    var runs, views := RunFiles(s), Views(c.codec, files, open);
    forall i | 0 <= i < |files|
      ensures Stream(views[i]) == Tail(Contents(c.codec, runs)[i], false)
      ensures SortedBy(c.le, Stream(views[i]).records)
    {
      ViewStreams(c.codec, open, sealer, runs[i]);
    }
  }

  /** The whole sort. However the records were buffered, scheduled, spilled and merged, the output
      is in key order. It is the pushed records if and only if no call returned an error and no
      buffer ends in a block that spells nothing, and a key without ties then makes it the only such
      list. */
  method SortSpilled<R(!new)>(c: Config<R>, files: seq<File>, open: Opener, ghost sealer: Sealer,
                              ghost states: seq<Sorter<R>>, ghost steps: seq<Step<R>>, ghost s: Sorter<R>)
    returns (out: Option<seq<R>>)
    requires Spilled(c, states, steps, s, sealer, files) && Undoes(open, sealer) && Proper(c, s.input)
    ensures out.Some? && SortedBy(c.le, out.value) && multiset(out.value) <= multiset(s.input)
    ensures multiset(out.value) == multiset(s.input) <==> !s.reported && AllSpelled(c, s.sent)
    ensures Audible(c.codec, s.input) ==> AllSpelled(c, s.sent)
    ensures multiset(out.value) == multiset(s.input) && Tieless(c.le, s.input) ==>
      forall o :: SortedBy(c.le, o) && multiset(o) == multiset(s.input) ==> o == out.value
  {
    hide FileOf, Storable, Undoes, Flatten, RunFiles, Faithful, Orders, SortedBy, AllSpelled, Next, View, Stream;
    EveryRunFormsSortedRuns(c, states, steps, |steps|);
    AudibleSpelled(c, states, steps);
    var views := Views(c.codec, files, open);
    ViewsHold(c, states, steps, s, sealer, files, open);
    SameMembers(s.input, Flatten(Lists(views)));
    OrdersSome(c.le, s.input, Flatten(Lists(views)));
    out := Merge(c.le, views);
    if Tieless(c.le, s.input) && multiset(out.value) == multiset(s.input) {
      forall o | SortedBy(c.le, o) && multiset(o) == multiset(s.input) ensures o == out.value {
        OutputIsUnique(c.le, s.input, s.input, o, out.value);
      }
    }
  }

  lemma AudibleSpelled<R(!new)>(c: Config<R>, states: seq<Sorter<R>>, steps: seq<Step<R>>)
    requires Run(c, states, steps) && states[|steps|].phase.Ready? && Proper(c, states[|steps|].input)
    ensures Audible(c.codec, states[|steps|].input) ==> AllSpelled(c, states[|steps|].sent)
  {
    hide Run, Inv, Proper, Audible, AllSpelled;
    RunLength(c, states, steps);
    RunKeeps(c, states, steps, |steps|);
    ReadyHolds(c, states[|steps|]);
  }

  lemma RunLength<R(!new)>(c: Config<R>, states: seq<Sorter<R>>, steps: seq<Step<R>>)
    requires Run(c, states, steps)
    ensures |states| == |steps| + 1
  {
    hide Next;
  }
}

/** Workers that share one budget through the blocking `reserve`
    (crates/graph-format/src/membudget.rs:123-148, 176-208). Each worker takes one reservation per
    work item. A step is one lock section or one notification; a parked worker runs again only
    when it is notified, or spuriously. */
module WorkerPool {
  import opened Collections
  import MemBudget

  datatype Item = Item(want: nat, floor: nat)

  datatype Worker =
    | Idle(items: seq<Item>)
    | Awake(item: Item, items: seq<Item>)
    | Parked(item: Item, items: seq<Item>)
    | Holding(bytes: int, items: seq<Item>)
    | Notifying(items: seq<Item>)         // bytes given back, `notify_all` still to come

  datatype Pool = Pool(total: nat, used: int, workers: seq<Worker>)

  datatype Step = Begin(i: nat) | Park(i: nat) | Grant(i: nat) | Release(i: nat) | Notify(i: nat) | Spurious(i: nat)

  function WakeUp(w: Worker): Worker {
    if w.Parked? then Awake(w.item, w.items) else w
  }

  function WakeAll(ws: seq<Worker>): (t: seq<Worker>)
    ensures |t| == |ws|
  {
    seq(|ws|, i requires 0 <= i < |ws| => WakeUp(ws[i]))
  }

  function Free(s: Pool): int {
    s.total - s.used
  }

  ghost predicate Next(s: Pool, step: Step, t: Pool) {
    var i := step.i;
    && i < |s.workers|
    && var w := s.workers[i];
       match step
       case Begin(_) =>
         w.Idle? && w.items != [] && t == s.(workers := s.workers[i := Awake(w.items[0], w.items[1..])])
       case Park(_) =>
         w.Awake? && Free(s) < w.item.floor && t == s.(workers := s.workers[i := Parked(w.item, w.items)])
       case Grant(_) =>
         && w.Awake? && w.item.floor <= Free(s)
         && var grant := MemBudget.Clamp(w.item.want, w.item.floor, Free(s));
            t == Pool(s.total, s.used + grant, s.workers[i := Holding(grant, w.items)])
       case Release(_) =>
         w.Holding? && t == Pool(s.total, s.used - w.bytes, s.workers[i := Notifying(w.items)])
       case Notify(_) =>
         w.Notifying? && t == s.(workers := WakeAll(s.workers[i := Idle(w.items)]))
       case Spurious(_) =>
         w.Parked? && t == s.(workers := s.workers[i := WakeUp(w)])
  }

  // ---- the invariant ----

  function Bytes(): Worker -> int {
    (w: Worker) => if w.Holding? then w.bytes else 0
  }

  predicate Fits(total: nat, w: Worker) {
    && (forall k :: 0 <= k < |w.items| ==> w.items[k].floor <= total)
    && (w.Awake? || w.Parked? ==> w.item.floor <= total)
    && (w.Holding? ==> w.bytes >= 0)
  }

  ghost predicate Parks(s: Pool, i: nat) {
    i < |s.workers| && s.workers[i].Parked? && s.workers[i].item.floor <= Free(s)
  }

  ghost predicate Notifies(s: Pool) {
    exists k :: 0 <= k < |s.workers| && s.workers[k].Notifying?
  }

  ghost predicate Inv(s: Pool) {
    && s.used == Tally(s.workers, Bytes()) && 0 <= s.used <= s.total
    && (forall i :: 0 <= i < |s.workers| ==> Fits(s.total, s.workers[i]))
    && ((exists i: nat :: Parks(s, i)) ==> Notifies(s))   // no wake-up is lost
  }

  lemma StepCounts(s: Pool, step: Step, t: Pool)
    requires Inv(s) && Next(s, step, t)
    ensures t.used == Tally(t.workers, Bytes()) && 0 <= t.used <= t.total
  {
    hide Tally;
    var i := step.i;
    if step.Notify? {
      var mid := s.workers[i := Idle(s.workers[i].items)];
      TallySet(s.workers, i, mid[i], Bytes());
      TallySame(mid, t.workers, Bytes());
    } else {
      TallySet(s.workers, i, t.workers[i], Bytes());
      var zero := (w: Worker) => 0;
      TallyZero(t.workers, zero);
      assert forall k :: 0 <= k < |t.workers| ==> Bytes()(t.workers[k]) >= 0 by {
        forall k | 0 <= k < |t.workers| ensures Bytes()(t.workers[k]) >= 0 {
          assert Fits(s.total, s.workers[k]);
        }
      }
      TallyBelow(t.workers, zero, Bytes());
    }
  }

  lemma StepFits(s: Pool, step: Step, t: Pool)
    requires Inv(s) && Next(s, step, t)
    ensures forall i :: 0 <= i < |t.workers| ==> Fits(t.total, t.workers[i])
  {
    hide Tally;
    forall k | 0 <= k < |t.workers| ensures Fits(t.total, t.workers[k]) {
      assert Fits(s.total, s.workers[k]);
    }
  }

  lemma StepWakes(s: Pool, step: Step, t: Pool)
    requires Inv(s) && Next(s, step, t) && exists i: nat :: Parks(t, i)
    ensures Notifies(t)
  {
    hide Tally;
    var j: nat :| Parks(t, j);
    match step
    case Release(i) => assert t.workers[i].Notifying?;
    case Notify(i) => assert false;
    case _ =>
      assert j != step.i && s.workers[j] == t.workers[j];
      assert Parks(s, j);
      var k :| 0 <= k < |s.workers| && s.workers[k].Notifying?;
      assert t.workers[k].Notifying?;
  }

  lemma StepKeeps(s: Pool, step: Step, t: Pool)
    requires Inv(s) && Next(s, step, t)
    ensures Inv(t)
  {
    hide Tally, Next, Fits, Parks, Notifies;
    StepCounts(s, step, t);
    StepFits(s, step, t);
    if exists i: nat :: Parks(t, i) {
      StepWakes(s, step, t);
    }
  }

  // ---- never stuck ----

  predicate Done(s: Pool) {
    forall i :: 0 <= i < |s.workers| ==> s.workers[i] == Idle([])
  }

  ghost predicate Enabled(s: Pool, step: Step) {
    exists t :: Next(s, step, t)
  }

  /** With every floor within the cap, a pool with work left always has a step to take that is not
      a spurious wake-up: were all the workers parked, nothing would be held, so a floor would be
      free, so a notification would be on its way. */
  lemma NeverStuck(s: Pool) returns (step: Step)
    requires Inv(s) && !Done(s)
    ensures Enabled(s, step) && !step.Spurious?
  {
    hide Tally;
    if i :| 0 <= i < |s.workers| && s.workers[i].Notifying? {
      var w := s.workers[i];
      step := Notify(i);
      assert Next(s, step, s.(workers := WakeAll(s.workers[i := Idle(w.items)])));
    } else if i :| 0 <= i < |s.workers| && s.workers[i].Holding? {
      var w := s.workers[i];
      step := Release(i);
      assert Next(s, step, Pool(s.total, s.used - w.bytes, s.workers[i := Notifying(w.items)]));
    } else if i :| 0 <= i < |s.workers| && s.workers[i].Awake? {
      var w := s.workers[i];
      if w.item.floor <= Free(s) {
        step := Grant(i);
        var grant := MemBudget.Clamp(w.item.want, w.item.floor, Free(s));
        assert Next(s, step, Pool(s.total, s.used + grant, s.workers[i := Holding(grant, w.items)]));
      } else {
        step := Park(i);
        assert Next(s, step, s.(workers := s.workers[i := Parked(w.item, w.items)]));
      }
    } else if i :| 0 <= i < |s.workers| && s.workers[i].Idle? && s.workers[i].items != [] {
      var w := s.workers[i];
      step := Begin(i);
      assert Next(s, step, s.(workers := s.workers[i := Awake(w.items[0], w.items[1..])]));
    } else {
      var i :| 0 <= i < |s.workers| && s.workers[i] != Idle([]);
      NobodyHolds(s, i);
      assert false;
    }
  }

  lemma NobodyHolds(s: Pool, i: nat)
    requires Inv(s) && i < |s.workers| && s.workers[i].Parked?
    requires forall k :: 0 <= k < |s.workers| ==> !s.workers[k].Holding?
    ensures Notifies(s)
  {
    hide Tally;
    TallyZero(s.workers, Bytes());
    assert Fits(s.total, s.workers[i]);
    assert Parks(s, i);
  }

  // ---- every run ends ----

  function Weight(): Worker -> int {
    (w: Worker) => 4 * |w.items| + Stage(w)
  }

  function Stage(w: Worker): int {
    match w
    case Idle(_) => 0
    case Awake(_, _) => 3
    case Parked(_, _) => 3
    case Holding(_, _) => 2
    case Notifying(_) => 1
  }

  function Running(): Worker -> int {
    (w: Worker) => if w.Awake? then 1 else 0
  }

  /** Work left, in steps; a notification may wake everybody but uses up a stage. */
  function Measure(s: Pool): int {
    (|s.workers| + 1) * Tally(s.workers, Weight()) + Tally(s.workers, Running())
  }

  lemma StepMeasure(s: Pool, step: Step, t: Pool)
    requires Next(s, step, t)
    ensures Measure(t) <= Measure(s) + (if step.Spurious? then 1 else -1)
  {
    hide Tally;
    var i, n := step.i, |s.workers| + 1;
    if step.Notify? {
      var mid := s.workers[i := Idle(s.workers[i].items)];
      TallySet(s.workers, i, mid[i], Weight());
      TallySame(mid, t.workers, Weight());
      TallyAtMostLength(t.workers, Running());
      TallyAtMostLength(s.workers, Running());
      Scaled(n, Tally(t.workers, Weight()), Tally(s.workers, Weight()), 1);
    } else {
      TallySet(s.workers, i, t.workers[i], Weight());
      TallySet(s.workers, i, t.workers[i], Running());
      Scaled(n, Tally(t.workers, Weight()), Tally(s.workers, Weight()),
             Tally(s.workers, Weight()) - Tally(t.workers, Weight()));
    }
  }

  lemma Scaled(n: int, x: int, y: int, d: int)
    requires y == x + d
    ensures n * y == n * x + n * d
  {
  }

  /** Every worker at the start of its queue, and no floor above the whole cap. */
  predicate Fresh(s: Pool) {
    && s.used == 0
    && forall i :: 0 <= i < |s.workers| ==> s.workers[i].Idle? && Fits(s.total, s.workers[i])
  }

  lemma FreshInv(s: Pool)
    requires Fresh(s)
    ensures Inv(s)
  {
    TallyZero(s.workers, Bytes());
  }

  ghost predicate Run(states: seq<Pool>, steps: seq<Step>) {
    && |states| == |steps| + 1 && Fresh(states[0])
    && (forall j :: 0 < j < |states| ==> var prev := states[j - 1]; Next(prev, steps[j - 1], states[j]))
  }

  function Spurious(steps: seq<Step>): nat {
    if steps == [] then 0 else Spurious(steps[..|steps| - 1]) + if steps[|steps| - 1].Spurious? then 1 else 0
  }

  lemma {:induction false} RunKeeps(states: seq<Pool>, steps: seq<Step>, j: nat)
    requires Run(states, steps) && j < |states|
    ensures Inv(states[j]) && Measure(states[j]) + j <= Measure(states[0]) + 2 * Spurious(steps[..j])
  {
    hide Inv, Next, Measure;
    if j == 0 {
      FreshInv(states[0]);
    } else {
      RunKeeps(states, steps, j - 1);
      var prev := states[j - 1];
      assert Next(prev, steps[j - 1], states[j]);
      StepKeeps(prev, steps[j - 1], states[j]);
      StepMeasure(prev, steps[j - 1], states[j]);
      assert steps[..j][..j - 1] == steps[..j - 1];
    }
  }

  lemma {:induction false} WeightIsNatural(ws: seq<Worker>)
    ensures Tally(ws, Weight()) >= 0
  {
    if ws != [] {
      WeightIsNatural(ws[..|ws| - 1]);
    }
  }

  /** Every run is finite: it takes at most as many steps as the work it began with, and two more
      for each spurious wake-up. A run that cannot go on has finished every item and holds nothing. */
  lemma EveryRunFinishes(states: seq<Pool>, steps: seq<Step>)
    requires Run(states, steps)
    ensures |steps| <= Measure(states[0]) + 2 * Spurious(steps)
    ensures (forall step: Step :: Enabled(states[|steps|], step) ==> step.Spurious?) ==>
      Done(states[|steps|]) && states[|steps|].used == 0
  {
    hide Tally, Next;
    var last := states[|steps|];
    RunKeeps(states, steps, |steps|);
    assert steps[..|steps|] == steps;
    WeightIsNatural(last.workers);
    TallyAtMostLength(last.workers, Running());
    assert (|last.workers| + 1) * Tally(last.workers, Weight()) >= 0;
    if forall step: Step :: Enabled(last, step) ==> step.Spurious? {
      if !Done(last) {
        var step := NeverStuck(last);
        assert false;
      }
      TallyZero(last.workers, Bytes());
    }
  }
}

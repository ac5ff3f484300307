/** The builder's memory accountant (crates/graph-format/src/membudget.rs): a tree of counted budgets that
    lend reservations, which split, become budgets of their own and are dropped. A step of the
    machine is one lock section or one update of the process-wide counter, so the reachable states
    are those of every interleaving. */
module MemBudget {
  import opened Collections

  /** A grant is first taken from its budget and only then counted; a drop is first uncounted
      and only then given back. */
  datatype Phase = Granted | Held | Lent(sub: nat) | Dropping | Gone

  datatype Res = Res(budget: nat, bytes: nat, phase: Phase)

  /** `live` while a handle or a reservation keeps it in memory; `handle` while a caller can reach it. */
  datatype Budget = Budget(total: nat, used: int, parent: Option<nat>, live: bool, handle: bool)

  /** Budget 0 is the root; identifiers are never reused. */
  datatype Ledger = Ledger(budgets: seq<Budget>, res: seq<Res>, global: int)

  datatype Step =
    | Reserve(b: nat, want: nat, floor: nat)
    | Count(r: nat)
    | SplitOff(r: nat, bytes: nat)
    | IntoSubBudget(r: nat)
    | BeginDrop(r: nat)
    | DropHandle(b: nat)
    | DropSubBudget(b: nat)
    | Release(r: nat)

  function Start(cap: nat): Ledger {
    Ledger([Budget(if cap == 0 then 1 else cap, 0, None, true, true)], [], 0)
  }

  function Clamp(want: int, floor: int, free: int): int {
    if want < floor then floor else if want > free then free else want
  }

  predicate LiveBudget(s: Ledger, b: nat) {
    b < |s.budgets| && s.budgets[b].live
  }

  /** Live, and a caller holds it: only then can it be asked for bytes. */
  predicate Reachable(s: Ledger, b: nat) {
    LiveBudget(s, b) && s.budgets[b].handle
  }

  predicate InPhase(s: Ledger, r: nat, p: Phase) {
    r < |s.res| && s.res[r].phase == p
  }

  function SetUsed(s: Ledger, b: nat, used: int): seq<Budget>
    requires b < |s.budgets|
  {
    s.budgets[b := s.budgets[b].(used := used)]
  }

  /** What `split_off` carves out: never the last byte. */
  function Taken(held: nat, bytes: nat): nat {
    if held == 0 then 0 else if bytes < held - 1 then bytes else held - 1
  }

  ghost predicate Next(s: Ledger, step: Step, t: Ledger) {
    match step
    case Reserve(b, want, floor) =>
      && Reachable(s, b)
      && var free := s.budgets[b].total - s.budgets[b].used;
         && floor <= free
         && var grant := Clamp(want, floor, free);
            && grant >= 0
            && t == Ledger(SetUsed(s, b, s.budgets[b].used + grant), s.res + [Res(b, grant, Granted)], s.global)
    case Count(r) =>
      InPhase(s, r, Granted) && t == Ledger(s.budgets, s.res[r := s.res[r].(phase := Held)], s.global + s.res[r].bytes)
    case SplitOff(r, bytes) =>
      && InPhase(s, r, Held)
      && var q, taken := s.res[r], Taken(s.res[r].bytes, bytes);
         t == Ledger(s.budgets, s.res[r := q.(bytes := q.bytes - taken)] + [Res(q.budget, taken, Held)], s.global)
    case IntoSubBudget(r) =>
      && InPhase(s, r, Held)
      && var q, sub := s.res[r], |s.budgets|;
         t == Ledger(s.budgets + [Budget(if q.bytes == 0 then 1 else q.bytes, 0, Some(r), true, true)],
                     s.res[r := q.(phase := Lent(sub))], s.global - q.bytes)
    case BeginDrop(r) =>
      InPhase(s, r, Held) && t == Ledger(s.budgets, s.res[r := s.res[r].(phase := Dropping)], s.global - s.res[r].bytes)
    case DropHandle(b) =>
      Reachable(s, b) && t == Ledger(s.budgets[b := s.budgets[b].(handle := false)], s.res, s.global)
    case DropSubBudget(b) =>
      && LiveBudget(s, b) && !s.budgets[b].handle && s.budgets[b].parent.Some?
      && s.budgets[b].parent.value < |s.res|
      && (forall r :: 0 <= r < |s.res| && s.res[r].budget == b ==> s.res[r].phase == Gone)
      && var p := s.budgets[b].parent.value;
         t == Ledger(s.budgets[b := s.budgets[b].(live := false)], s.res[p := s.res[p].(phase := Dropping)], s.global)
    case Release(r) =>
      && InPhase(s, r, Dropping) && s.res[r].budget < |s.budgets|
      && var q := s.res[r];
         t == Ledger(SetUsed(s, q.budget, s.budgets[q.budget].used - q.bytes), s.res[r := q.(phase := Gone)], s.global)
  }

  // ---- sums ----

  /** Bytes of live reservations on budget `b`. */
  function On(b: nat): Res -> int {
    (r: Res) => if r.phase != Gone && r.budget == b then r.bytes else 0
  }

  function Live(): Res -> int {
    (r: Res) => if r.phase != Gone then r.bytes else 0
  }

  function Counted(): Res -> int {
    (r: Res) => if r.phase == Held then r.bytes else 0
  }

  function Relent(): Res -> int {
    (r: Res) => if r.phase.Lent? then r.bytes else 0
  }

  /** Sub-budgets made of an empty reservation have a one-byte cap of their own. */
  function Spare(): Res -> int {
    (r: Res) => if r.phase.Lent? && r.bytes == 0 then 1 else 0
  }

  function Used(): Budget -> int {
    (b: Budget) => if b.live then b.used else 0
  }

  function SubTotal(): Budget -> int {
    (b: Budget) => if b.live && b.parent.Some? then b.total else 0
  }

  // ---- the invariant ----

  /** Reservations point at live budgets, and sub-budgets and lent reservations at each other. */
  ghost predicate Linked(s: Ledger) {
    && s.budgets != [] && s.budgets[0].live && s.budgets[0].parent.None?
    && (forall r :: 0 <= r < |s.res| && s.res[r].phase != Gone ==> LiveBudget(s, s.res[r].budget))
    && (forall r :: 0 <= r < |s.res| && s.res[r].phase.Lent? ==> LentTo(s, r, s.res[r].phase.sub))
    && (forall b :: 0 < b < |s.budgets| && s.budgets[b].live ==>
          s.budgets[b].parent.Some? && InPhase(s, s.budgets[b].parent.value, Lent(b)))
  }

  ghost predicate LentTo(s: Ledger, r: nat, b: nat)
    requires r < |s.res|
  {
    && LiveBudget(s, b) && s.budgets[b].parent == Some(r) && s.res[r].budget < b
    && s.budgets[b].total == if s.res[r].bytes == 0 then 1 else s.res[r].bytes
  }

  /** Each live budget's counter is the sum of what it lends, and within its cap. */
  ghost predicate Balanced(s: Ledger) {
    forall b :: 0 <= b < |s.budgets| && s.budgets[b].live ==>
      s.budgets[b].used == Tally(s.res, On(b)) <= s.budgets[b].total
  }

  ghost predicate Sums(s: Ledger) {
    && s.global == Tally(s.res, Counted())
    && Tally(s.budgets, Used()) == Tally(s.res, Live())
    && Tally(s.budgets, SubTotal()) == Tally(s.res, Relent()) + Tally(s.res, Spare())
  }

  ghost predicate Inv(s: Ledger) {
    Linked(s) && Balanced(s) && Sums(s)
  }

  // ---- every step keeps it ----

  lemma DropSubLinked(s: Ledger, step: Step, t: Ledger)
    requires Linked(s) && Next(s, step, t) && step.DropSubBudget?
    ensures Linked(t)
  {
    var p := s.budgets[step.b].parent.value;
    assert step.b > 0 && InPhase(s, p, Lent(step.b));
    forall r | 0 <= r < |t.res| && t.res[r].phase.Lent? ensures LentTo(t, r, t.res[r].phase.sub) {
      assert LentTo(s, r, s.res[r].phase.sub);
    }
  }

  lemma IntoSubLinked(s: Ledger, step: Step, t: Ledger)
    requires Linked(s) && Next(s, step, t) && step.IntoSubBudget?
    ensures Linked(t)
  {
    forall r | 0 <= r < |t.res| && t.res[r].phase.Lent? ensures LentTo(t, r, t.res[r].phase.sub) {
      if r != step.r { assert LentTo(s, r, s.res[r].phase.sub); }
    }
  }

  /** A new reservation, on a live budget, that is not lent on. */
  lemma NewLinked(s: Ledger, step: Step, t: Ledger)
    requires Linked(s) && Next(s, step, t) && (step.Reserve? || step.SplitOff?)
    ensures Linked(t)
  {
    forall r | 0 <= r < |t.res| && t.res[r].phase.Lent? ensures LentTo(t, r, t.res[r].phase.sub) {
      assert r < |s.res| && LentTo(s, r, s.res[r].phase.sub);
    }
  }

  lemma PhaseLinked(s: Ledger, step: Step, t: Ledger)
    requires Linked(s) && Next(s, step, t) && (step.Count? || step.BeginDrop? || step.Release?)
    ensures Linked(t)
  {
    forall r | 0 <= r < |t.res| && t.res[r].phase.Lent? ensures LentTo(t, r, t.res[r].phase.sub) {
      assert LentTo(s, r, s.res[r].phase.sub);
    }
  }

  lemma HandleLinked(s: Ledger, step: Step, t: Ledger)
    requires Linked(s) && Next(s, step, t) && step.DropHandle?
    ensures Linked(t)
  {
    forall r | 0 <= r < |t.res| && t.res[r].phase.Lent? ensures LentTo(t, r, t.res[r].phase.sub) {
      assert LentTo(s, r, s.res[r].phase.sub);
    }
  }

  lemma StepLinked(s: Ledger, step: Step, t: Ledger)
    requires Linked(s) && Next(s, step, t)
    ensures Linked(t)
  {
    hide Linked, Next;
    match step
    case Reserve(_, _, _) => NewLinked(s, step, t);
    case SplitOff(_, _) => NewLinked(s, step, t);
    case IntoSubBudget(_) => IntoSubLinked(s, step, t);
    case DropHandle(_) => HandleLinked(s, step, t);
    case DropSubBudget(_) => DropSubLinked(s, step, t);
    case _ => PhaseLinked(s, step, t);
  }

  /** What one changed reservation does to every budget's sum. */
  lemma OneChanged(res: seq<Res>, r: nat, q: Res, b: nat)
    requires r < |res|
    ensures Tally(res[r := q], On(b)) == Tally(res, On(b)) - On(b)(res[r]) + On(b)(q)
  {
    TallySet(res, r, q, On(b));
  }

  lemma ReserveBalanced(s: Ledger, step: Step, t: Ledger)
    requires Balanced(s) && Next(s, step, t) && step.Reserve?
    ensures Balanced(t)
  {
    hide Tally;
    var q := t.res[|s.res|];
    forall b | 0 <= b < |t.budgets| && t.budgets[b].live
      ensures t.budgets[b].used == Tally(t.res, On(b)) <= t.budgets[b].total
    {
      TallySnoc(s.res, q, On(b));
      assert s.budgets[b].live;
    }
  }

  lemma SplitBalanced(s: Ledger, step: Step, t: Ledger)
    requires Balanced(s) && Next(s, step, t) && step.SplitOff?
    ensures Balanced(t)
  {
    hide Tally;
    var r := step.r;
    var q, q' := s.res[r], t.res[|s.res|];
    var mid := s.res[r := q.(bytes := q.bytes - q'.bytes)];
    forall b | 0 <= b < |t.budgets| && t.budgets[b].live
      ensures t.budgets[b].used == Tally(t.res, On(b)) <= t.budgets[b].total
    {
      OneChanged(s.res, r, mid[r], b);
      TallySnoc(mid, q', On(b));
    }
  }

  /** Count, lend, begin a drop, give back: one reservation changes phase. */
  lemma PhaseBalanced(s: Ledger, step: Step, t: Ledger)
    requires Linked(s) && Balanced(s) && Next(s, step, t)
    requires step.Count? || step.IntoSubBudget? || step.BeginDrop? || step.Release?
    ensures Balanced(t)
  {
    hide Tally;
    forall b | 0 <= b < |t.budgets| && t.budgets[b].live
      ensures t.budgets[b].used == Tally(t.res, On(b)) <= t.budgets[b].total
    {
      OneChanged(s.res, step.r, t.res[step.r], b);
      if b == |s.budgets| {
        TallyZero(s.res, On(b));
      } else {
        assert s.budgets[b].live;
      }
    }
  }

  lemma DropSubBalanced(s: Ledger, step: Step, t: Ledger)
    requires Linked(s) && Balanced(s) && Next(s, step, t) && step.DropSubBudget?
    ensures Balanced(t) && s.budgets[step.b].used == 0
  {
    hide Tally;
    var p := s.budgets[step.b].parent.value;
    TallyZero(s.res, On(step.b));
    assert InPhase(s, p, Lent(step.b));
    forall b | 0 <= b < |t.budgets| && t.budgets[b].live
      ensures t.budgets[b].used == Tally(t.res, On(b)) <= t.budgets[b].total
    {
      OneChanged(s.res, p, t.res[p], b);
      assert s.budgets[b].live;
    }
  }

  lemma HandleBalanced(s: Ledger, step: Step, t: Ledger)
    requires Balanced(s) && Next(s, step, t) && step.DropHandle?
    ensures Balanced(t)
  {
    hide Tally, On;
  }

  lemma StepBalanced(s: Ledger, step: Step, t: Ledger)
    requires Linked(s) && Balanced(s) && Next(s, step, t)
    ensures Balanced(t)
  {
    hide Balanced, Next, Linked;
    match step
    case Reserve(_, _, _) => ReserveBalanced(s, step, t);
    case SplitOff(_, _) => SplitBalanced(s, step, t);
    case DropHandle(_) => HandleBalanced(s, step, t);
    case DropSubBudget(_) => DropSubBalanced(s, step, t);
    case _ => PhaseBalanced(s, step, t);
  }

  /** Sums over reservations when one is appended or replaced. */
  lemma ResSums(res: seq<Res>, r: nat, q: Res)
    ensures Tally(res + [q], Counted()) == Tally(res, Counted()) + Counted()(q)
    ensures Tally(res + [q], Live()) == Tally(res, Live()) + Live()(q)
    ensures Tally(res + [q], Relent()) == Tally(res, Relent()) + Relent()(q)
    ensures Tally(res + [q], Spare()) == Tally(res, Spare()) + Spare()(q)
    ensures r < |res| ==>
      && Tally(res[r := q], Counted()) == Tally(res, Counted()) - Counted()(res[r]) + Counted()(q)
      && Tally(res[r := q], Live()) == Tally(res, Live()) - Live()(res[r]) + Live()(q)
      && Tally(res[r := q], Relent()) == Tally(res, Relent()) - Relent()(res[r]) + Relent()(q)
      && Tally(res[r := q], Spare()) == Tally(res, Spare()) - Spare()(res[r]) + Spare()(q)
  {
    hide Tally, Counted, Live, Relent, Spare;
    TallySnoc(res, q, Counted());
    TallySnoc(res, q, Live());
    TallySnoc(res, q, Relent());
    TallySnoc(res, q, Spare());
    if r < |res| {
      TallySet(res, r, q, Counted());
      TallySet(res, r, q, Live());
      TallySet(res, r, q, Relent());
      TallySet(res, r, q, Spare());
    }
  }

  lemma BudgetSums(budgets: seq<Budget>, b: nat, x: Budget)
    ensures Tally(budgets + [x], Used()) == Tally(budgets, Used()) + Used()(x)
    ensures Tally(budgets + [x], SubTotal()) == Tally(budgets, SubTotal()) + SubTotal()(x)
    ensures b < |budgets| ==>
      && Tally(budgets[b := x], Used()) == Tally(budgets, Used()) - Used()(budgets[b]) + Used()(x)
      && Tally(budgets[b := x], SubTotal()) == Tally(budgets, SubTotal()) - SubTotal()(budgets[b]) + SubTotal()(x)
  {
    hide Tally, Used, SubTotal;
    TallySnoc(budgets, x, Used());
    TallySnoc(budgets, x, SubTotal());
    if b < |budgets| {
      TallySet(budgets, b, x, Used());
      TallySet(budgets, b, x, SubTotal());
    }
  }

  /** Reserve, lend on, give back: a budget changes with a reservation. */
  lemma BudgetStepSums(s: Ledger, step: Step, t: Ledger)
    requires Inv(s) && Next(s, step, t)
    requires step.Reserve? || step.IntoSubBudget? || step.DropHandle? || step.Release?
    ensures Sums(t)
  {
    hide Tally, Balanced;
    match step
    case Reserve(b, _, _) =>
      ResSums(s.res, 0, t.res[|s.res|]);
      BudgetSums(s.budgets, b, t.budgets[b]);
    case IntoSubBudget(r) =>
      ResSums(s.res, r, t.res[r]);
      BudgetSums(s.budgets, 0, t.budgets[|s.budgets|]);
    case DropHandle(b) => BudgetSums(s.budgets, b, t.budgets[b]);
    case Release(r) =>
      var b := s.res[r].budget;
      ResSums(s.res, r, t.res[r]);
      BudgetSums(s.budgets, b, t.budgets[b]);
  }

  lemma DropSubSums(s: Ledger, step: Step, t: Ledger)
    requires Inv(s) && Next(s, step, t) && step.DropSubBudget?
    ensures Sums(t)
  {
    hide Tally, Balanced;
    var b, p := step.b, s.budgets[step.b].parent.value;
    DropSubBalanced(s, step, t);
    assert InPhase(s, p, Lent(b)) && LentTo(s, p, b);
    ResSums(s.res, p, t.res[p]);
    BudgetSums(s.budgets, b, t.budgets[b]);
  }

  lemma ResStepSums(s: Ledger, step: Step, t: Ledger)
    requires Sums(s) && Next(s, step, t) && (step.Count? || step.BeginDrop? || step.SplitOff?)
    ensures Sums(t)
  {
    hide Tally;
    ResSums(s.res, step.r, t.res[step.r]);
    if step.SplitOff? {
      ResSums(s.res[step.r := t.res[step.r]], step.r, t.res[|s.res|]);
    }
  }

  lemma StepSums(s: Ledger, step: Step, t: Ledger)
    requires Inv(s) && Next(s, step, t)
    ensures Sums(t)
  {
    hide Next, Linked, Balanced, Sums;
    match step
    case DropSubBudget(_) => DropSubSums(s, step, t);
    case Reserve(_, _, _) => BudgetStepSums(s, step, t);
    case IntoSubBudget(_) => BudgetStepSums(s, step, t);
    case DropHandle(_) => BudgetStepSums(s, step, t);
    case Release(_) => BudgetStepSums(s, step, t);
    case _ => ResStepSums(s, step, t);
  }

  lemma StepKeeps(s: Ledger, step: Step, t: Ledger)
    requires Inv(s) && Next(s, step, t)
    ensures Inv(t)
  {
    hide Linked, Balanced, Sums, Next;
    StepLinked(s, step, t);
    StepBalanced(s, step, t);
    StepSums(s, step, t);
  }

  ghost predicate Run(cap: nat, states: seq<Ledger>, steps: seq<Step>) {
    && |states| == |steps| + 1 && states[0] == Start(cap)
    && (forall j :: 0 < j < |states| ==> var prev := states[j - 1]; Next(prev, steps[j - 1], states[j]))
  }

  lemma {:induction false} RunKeeps(cap: nat, states: seq<Ledger>, steps: seq<Step>, j: nat)
    requires Run(cap, states, steps) && j < |states|
    ensures Inv(states[j]) && states[j].budgets[0].total == if cap == 0 then 1 else cap
  {
    if j > 0 {
      RunKeeps(cap, states, steps, j - 1);
      var prev := states[j - 1];
      assert Next(prev, steps[j - 1], states[j]);
      RootKeepsTotal(prev, steps[j - 1], states[j]);
      StepKeeps(prev, steps[j - 1], states[j]);
    }
  }

  lemma RootKeepsTotal(s: Ledger, step: Step, t: Ledger)
    requires Next(s, step, t) && s.budgets != []
    ensures t.budgets != [] && t.budgets[0].total == s.budgets[0].total
  {
  }

  // ---- what it means ----

  /** The live sub-budgets whose reservation was empty. */
  function Spares(s: Ledger): int {
    Tally(s.res, Spare())
  }

  /** All that is lent and not lent on again fits in what the root lends. */
  lemma LeavesFit(s: Ledger)
    requires Inv(s)
    ensures s.global <= s.budgets[0].used + Spares(s)
  {
    hide Tally;
    var atRest := (r: Res) => Live()(r) - Relent()(r);
    TallyPlus(s.res, Live(), Relent(), atRest);
    TallyBelow(s.res, Counted(), atRest);
    RootAndSubs(s, |s.budgets|);
    assert s.budgets[..|s.budgets|] == s.budgets;
  }

  lemma {:induction false} RootAndSubs(s: Ledger, k: nat)
    requires Inv(s) && 0 < k <= |s.budgets|
    ensures Tally(s.budgets[..k], Used()) <= s.budgets[0].used + Tally(s.budgets[..k], SubTotal())
  {
    var x := s.budgets[k - 1];
    assert s.budgets[..k] == s.budgets[..k - 1] + [x];
    TallySnoc(s.budgets[..k - 1], x, Used());
    TallySnoc(s.budgets[..k - 1], x, SubTotal());
    if k > 1 {
      RootAndSubs(s, k - 1);
      if x.live {
        assert x.used <= x.total && x.parent.Some?;
      }
    } else {
      assert s.budgets[..0] == [];
    }
  }

  /** Over every run: each budget's counter is the sum of its live reservations and within its cap,
      the process-wide counter is the sum of the counted ones, and that sum fits in the root's cap
      plus one byte for each live sub-budget that was made of an empty reservation. */
  lemma EveryRunStaysWithinTheCap(cap: nat, states: seq<Ledger>, steps: seq<Step>, j: nat)
    requires Run(cap, states, steps) && j < |states|
    ensures var s := states[j];
      && Balanced(s)
      && s.global == Tally(s.res, Counted())
      && 0 <= s.global <= (if cap == 0 then 1 else cap) + Spares(s)
  {
    hide Tally;
    RunKeeps(cap, states, steps, j);
    LeavesFit(states[j]);
    var zero := (r: Res) => 0;
    TallyZero(states[j].res, zero);
    TallyBelow(states[j].res, zero, Counted());
  }

  ghost predicate NoEmptyLent(s: Ledger) {
    forall r :: 0 <= r < |s.res| && s.res[r].phase.Lent? ==> s.res[r].bytes > 0
  }

  lemma {:induction false} StaysNonEmpty(cap: nat, states: seq<Ledger>, steps: seq<Step>, j: nat)
    requires Run(cap, states, steps) && j < |states|
    requires forall k :: 0 <= k < |steps| && steps[k].IntoSubBudget? ==>
      steps[k].r < |states[k].res| && states[k].res[steps[k].r].bytes > 0
    ensures NoEmptyLent(states[j])
  {
    if j > 0 {
      StaysNonEmpty(cap, states, steps, j - 1);
      var prev, step := states[j - 1], steps[j - 1];
      assert Next(prev, step, states[j]);
      assert step.IntoSubBudget? ==> prev.res[step.r].bytes > 0;
    }
  }

  /** When no empty reservation is lent on as a budget, the counted bytes never pass the cap. */
  lemma NonEmptySubBudgetsKeepTheCap(cap: nat, states: seq<Ledger>, steps: seq<Step>, j: nat)
    requires Run(cap, states, steps) && j < |states|
    requires forall k :: 0 <= k < |steps| && steps[k].IntoSubBudget? ==>
      steps[k].r < |states[k].res| && states[k].res[steps[k].r].bytes > 0
    ensures states[j].global <= if cap == 0 then 1 else cap
  {
    EveryRunStaysWithinTheCap(cap, states, steps, j);
    StaysNonEmpty(cap, states, steps, j);
    TallyZero(states[j].res, Spare());
  }

  /** Dropping everything restores zero: no sub-budget is left and the counters read nothing. */
  lemma AllDroppedIsZero(cap: nat, states: seq<Ledger>, steps: seq<Step>, j: nat)
    requires Run(cap, states, steps) && j < |states|
    requires forall r :: 0 <= r < |states[j].res| ==> states[j].res[r].phase == Gone
    ensures states[j].global == 0 && states[j].budgets != [] && states[j].budgets[0].used == 0
    ensures forall b :: 0 < b < |states[j].budgets| ==> !states[j].budgets[b].live
  {
    hide Tally;
    var s := states[j];
    RunKeeps(cap, states, steps, j);
    TallyZero(s.res, Counted());
    TallyZero(s.res, On(0));
  }

  lemma ExtendRun(cap: nat, states: seq<Ledger>, steps: seq<Step>, step: Step, t: Ledger)
    requires Run(cap, states, steps) && Next(states[|steps|], step, t)
    ensures Run(cap, states + [t], steps + [step])
  {
    hide Next;
    var states', steps' := states + [t], steps + [step];
    forall j | 0 < j < |states'| ensures var prev := states'[j - 1]; Next(prev, steps'[j - 1], states'[j]) {
      if j < |states| {
        var prev := states[j - 1];
        assert Next(prev, steps[j - 1], states[j]);
      }
    }
  }

  /** An empty reservation lent on as a budget lends a byte the root never had. */
  lemma EmptySubBudgetOverlends(cap: nat) returns (states: seq<Ledger>, steps: seq<Step>)
    requires cap > 0
    ensures Run(cap, states, steps) && states[|steps|].global == cap + 1
  {
    var root, all, sub := Budget(cap, cap, None, true, true), Res(0, cap, Held), Budget(1, 0, Some(1), true, true);
    states, steps := RunTo(cap, [Start(cap)], [], Reserve(0, cap, 0), Ledger([root], [all.(phase := Granted)], 0));
    states, steps := RunTo(cap, states, steps, Count(0), Ledger([root], [all], cap));
    states, steps := RunTo(cap, states, steps, Reserve(0, 0, 0), Ledger([root], [all, Res(0, 0, Granted)], cap));
    states, steps := RunTo(cap, states, steps, Count(1), Ledger([root], [all, Res(0, 0, Held)], cap));
    states, steps := RunTo(cap, states, steps, IntoSubBudget(1), Ledger([root, sub], [all, Res(0, 0, Lent(1))], cap));
    states, steps := RunTo(cap, states, steps, Reserve(1, 1, 1),
      Ledger([root, sub.(used := 1)], [all, Res(0, 0, Lent(1)), Res(1, 1, Granted)], cap));
    states, steps := RunTo(cap, states, steps, Count(2),
      Ledger([root, sub.(used := 1)], [all, Res(0, 0, Lent(1)), Res(1, 1, Held)], cap + 1));
  }

  lemma RunTo(cap: nat, states: seq<Ledger>, steps: seq<Step>, step: Step, t: Ledger)
    returns (states': seq<Ledger>, steps': seq<Step>)
    requires Run(cap, states, steps) && Next(states[|steps|], step, t)
    ensures Run(cap, states', steps') && states'[|steps'|] == t
  {
    ExtendRun(cap, states, steps, step, t);
    states', steps' := states + [t], steps + [step];
  }

  // ---- the calls ----

  /** Two steps in a row. */
  ghost predicate Both(s: Ledger, first: Step, second: Step, t: Ledger) {
    exists mid :: Next(s, first, mid) && Next(mid, second, t)
  }

  lemma BothKeep(s: Ledger, first: Step, mid: Ledger, second: Step, t: Ledger)
    requires Inv(s) && Next(s, first, mid) && Next(mid, second, t)
    ensures Inv(t) && Both(s, first, second, t)
  {
    hide Inv, Next;
    StepKeeps(s, first, mid);
    StepKeeps(mid, second, t);
  }

  datatype Outcome = Got(r: nat) | TooSmall | MustWait

  /** The process's budgets and reservations, by identifier. */
  class Accountant {
    var budgets: seq<Budget>
    var res: seq<Res>
    var global: int

    ghost function State(): Ledger
      reads this
    {
      Ledger(budgets, res, global)
    }

    constructor (cap: nat)
      ensures State() == Start(cap) && Inv(State())
    {
      budgets, res, global := [Budget(if cap == 0 then 1 else cap, 0, None, true, true)], [], 0;
    }

    /** Grant without blocking, or fail when less than the floor is free. */
    method ReserveNow(b: nat, want: nat, floor: nat) returns (r: Option<nat>)
      requires Inv(State()) && Reachable(State(), b)
      modifies this
      ensures Inv(State())
      ensures r.None? <==> old(budgets[b].total - budgets[b].used) < floor
      ensures r.None? ==> State() == old(State())
      ensures r.Some? ==>
        && r.value == old(|res|) && Both(old(State()), Reserve(b, want, floor), Count(r.value), State())
        && floor <= res[r.value].bytes && (floor <= want ==> res[r.value].bytes <= want)
    {
      hide Inv;
      var free := budgets[b].total - budgets[b].used;
      if free < floor {
        return None;
      }
      var r' := Grant(b, want, floor, free);
      r := Some(r');
    }

    /** The lock section that takes the grant, then the counter. */
    method Grant(b: nat, want: nat, floor: nat, free: int) returns (r: nat)
      requires Inv(State()) && Reachable(State(), b) && free == budgets[b].total - budgets[b].used && floor <= free
      modifies this
      ensures Inv(State()) && r == old(|res|) && Both(old(State()), Reserve(b, want, floor), Count(r), State())
      ensures r < |res| && res[r].bytes == Clamp(want, floor, free)
    {
      hide Inv;
      ghost var before := State();
      var grant := Clamp(want, floor, free);
      r := |res|;
      budgets := budgets[b := budgets[b].(used := budgets[b].used + grant)];
      res := res + [Res(b, grant, Granted)];
      ghost var mid := State();
      global := global + grant;
      res := res[r := res[r].(phase := Held)];
      BothKeep(before, Reserve(b, want, floor), mid, Count(r), State());
    }

    /** One attempt of the blocking grant: refused outright when the floor passes the whole cap. */
    method TryReserve(b: nat, want: nat, floor: nat) returns (o: Outcome)
      requires Inv(State()) && Reachable(State(), b)
      modifies this
      ensures Inv(State())
      ensures o.TooSmall? <==> floor > old(budgets[b].total)
      ensures o.MustWait? <==> floor <= old(budgets[b].total) && old(budgets[b].total - budgets[b].used) < floor
      ensures !o.Got? ==> State() == old(State())
      ensures o.Got? ==> o.r == old(|res|) && Both(old(State()), Reserve(b, want, floor), Count(o.r), State())
    {
      UsedIsNatural(State(), b);
      hide Inv;
      if floor > budgets[b].total {
        return TooSmall;
      }
      var free := budgets[b].total - budgets[b].used;
      if free < floor {
        return MustWait;
      }
      var r := Grant(b, want, floor, free);
      o := Got(r);
    }

    /** Carve a second reservation out of one; the budget is not touched. */
    method Split(r: nat, bytes: nat) returns (q: nat)
      requires Inv(State()) && InPhase(State(), r, Held)
      modifies this
      ensures Inv(State()) && Next(old(State()), SplitOff(r, bytes), State())
      ensures q == old(|res|) && budgets == old(budgets) && global == old(global)
      ensures r < |res| && q < |res| && res[r].bytes + res[q].bytes == old(res[r].bytes)
      ensures old(res[r].bytes) > 0 ==> res[r].bytes > 0
    {
      hide Inv;
      ghost var before := State();
      var taken := Taken(res[r].bytes, bytes);
      q := |res|;
      res := res[r := res[r].(bytes := res[r].bytes - taken)] + [Res(res[r].budget, taken, Held)];
      StepKeeps(before, SplitOff(r, bytes), State());
    }

    method MakeSubBudget(r: nat) returns (b: nat)
      requires Inv(State()) && InPhase(State(), r, Held)
      modifies this
      ensures Inv(State()) && Next(old(State()), IntoSubBudget(r), State())
      ensures b == old(|budgets|) && Reachable(State(), b) && budgets[b].used == 0
      ensures r < |res| && budgets[b].total == if res[r].bytes == 0 then 1 else res[r].bytes
    {
      hide Inv;
      ghost var before := State();
      b := |budgets|;
      global := global - res[r].bytes;
      budgets := budgets + [Budget(if res[r].bytes == 0 then 1 else res[r].bytes, 0, Some(r), true, true)];
      res := res[r := res[r].(phase := Lent(b))];
      StepKeeps(before, IntoSubBudget(r), State());
    }

    /** Drop a reservation: uncount it, then give its bytes back. */
    method Drop(r: nat)
      requires Inv(State()) && InPhase(State(), r, Held)
      modifies this
      ensures Inv(State()) && Both(old(State()), BeginDrop(r), Release(r), State())
    {
      HeldIsLent(State(), r);
      hide Inv;
      ghost var before := State();
      var q := res[r];
      global := global - q.bytes;
      res := res[r := q.(phase := Dropping)];
      ghost var mid := State();
      budgets := budgets[q.budget := budgets[q.budget].(used := budgets[q.budget].used - q.bytes)];
      res := res[r := q.(phase := Gone)];
      BothKeep(before, BeginDrop(r), mid, Release(r), State());
    }

    /** Let go of a budget's last handle; reservations on it keep it alive. */
    method Forget(b: nat)
      requires Inv(State()) && Reachable(State(), b)
      modifies this
      ensures Inv(State()) && Next(old(State()), DropHandle(b), State())
    {
      hide Inv;
      ghost var before := State();
      budgets := budgets[b := budgets[b].(handle := false)];
      StepKeeps(before, DropHandle(b), State());
    }

    /** A sub-budget without handle that lends nothing goes: its reservation is given back to the
        budget it came from. */
    method CloseSubBudget(b: nat)
      requires Inv(State()) && LiveBudget(State(), b) && !budgets[b].handle && b > 0
      requires forall r :: 0 <= r < |res| && res[r].budget == b ==> res[r].phase == Gone
      modifies this
      ensures Inv(State())
      ensures old(budgets[b].parent.Some?)
      ensures Both(old(State()), DropSubBudget(b), Release(old(budgets[b].parent.value)), State())
    {
      hide Inv;
      SubBudgetIsLent(State(), b);
      ghost var before := State();
      var p := budgets[b].parent.value;
      var q := res[p];
      budgets := budgets[b := budgets[b].(live := false)];
      res := res[p := q.(phase := Dropping)];
      ghost var mid := State();
      budgets := budgets[q.budget := budgets[q.budget].(used := budgets[q.budget].used - q.bytes)];
      res := res[p := q.(phase := Gone)];
      BothKeep(before, DropSubBudget(b), mid, Release(p), State());
    }
  }

  lemma SubBudgetIsLent(s: Ledger, b: nat)
    requires Inv(s) && LiveBudget(s, b) && b > 0
    ensures s.budgets[b].parent.Some? && InPhase(s, s.budgets[b].parent.value, Lent(b))
    ensures s.res[s.budgets[b].parent.value].budget < |s.budgets|
  {
  }

  lemma UsedIsNatural(s: Ledger, b: nat)
    requires Inv(s) && LiveBudget(s, b)
    ensures 0 <= s.budgets[b].used <= s.budgets[b].total
  {
    var zero := (r: Res) => 0;
    TallyZero(s.res, zero);
    TallyBelow(s.res, zero, On(b));
  }

  lemma HeldIsLent(s: Ledger, r: nat)
    requires Inv(s) && InPhase(s, r, Held)
    ensures s.res[r].budget < |s.budgets|
  {
  }
}

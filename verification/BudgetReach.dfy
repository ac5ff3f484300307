/** How far the counted bytes of the accountant can still go from a state, without lending anything
    further on as a budget (crates/graph-format/src/membudget.rs). Callers may reserve, count, split,
    drop and let go of handles in any order; sub-budgets they close give their bytes back. */
module BudgetReach {
  import opened Collections
  import opened MemBudget

  // ---- paths ----

  /** The steps lead from `s` to `t`. */
  ghost predicate Path(s: Ledger, steps: seq<Step>, t: Ledger)
    decreases |steps|
  {
    if steps == [] then s == t
    else
      var init, last := steps[..|steps| - 1], steps[|steps| - 1];
      exists mid :: Path(s, init, mid) && Next(mid, last, t)
  }

  /** No reservation is lent on as a budget along the way. */
  predicate NoLending(steps: seq<Step>) {
    forall k :: 0 <= k < |steps| ==> !steps[k].IntoSubBudget?
  }

  lemma PathMore(s: Ledger, steps: seq<Step>, mid: Ledger, step: Step, t: Ledger)
    requires Path(s, steps, mid) && Next(mid, step, t)
    ensures Path(s, steps + [step], t)
  {
    hide Next;
    assert (steps + [step])[..|steps|] == steps;
  }

  lemma {:induction false} PathConcat(s: Ledger, a: seq<Step>, m: Ledger, b: seq<Step>, t: Ledger)
    requires Path(s, a, m) && Path(m, b, t)
    ensures Path(s, a + b, t)
    decreases |b|
  {
    hide Next;
    if b == [] {
      assert a + b == a;
    } else {
      var n := |b| - 1;
      var mid :| Path(m, b[..n], mid) && Next(mid, b[n], t);
      PathConcat(s, a, m, b[..n], mid);
      PathMore(s, a + b[..n], mid, b[n], t);
      assert a + b[..n] + [b[n]] == a + b;
    }
  }

  // ---- what a choice of budgets to keep is worth ----

  /** Live budgets, the root among them, each with the budget its bytes came from. */
  ghost predicate Keepable(s: Ledger, keep: set<nat>) {
    && 0 in keep
    && (forall b :: b in keep ==> LiveBudget(s, b))
    && (forall r :: 0 <= r < |s.res| && s.res[r].phase.Lent? && s.res[r].phase.sub in keep ==> s.res[r].budget in keep)
  }

  /** The budgets a caller can still ask for bytes. */
  function Handles(s: Ledger): set<nat> {
    set b: nat | b < |s.budgets| && s.budgets[b].handle
  }

  function LiveSet(s: Ledger): set<nat> {
    set b: nat | b < |s.budgets| && s.budgets[b].live
  }

  /** The caps of the kept budgets that can be asked for bytes. */
  function OpenTotal(budgets: seq<Budget>, keep: set<nat>, n: nat): int
    requires n <= |budgets|
  {
    if n == 0 then 0
    else OpenTotal(budgets, keep, n - 1) + if n - 1 in keep && budgets[n - 1].handle then budgets[n - 1].total else 0
  }

  /** A kept budget without a handle lends no more than it does; one with a handle can lend its whole
      cap, except what a kept sub-budget holds. */
  function ValueOf(r: Res, keep: set<nat>, handles: set<nat>): int {
    if r.budget !in keep then 0
    else if r.budget in handles then (if r.phase.Lent? && r.phase.sub in keep then 0 - r.bytes else 0)
    else if r.phase == Held || r.phase == Granted then r.bytes else 0
  }

  function Value(keep: set<nat>, handles: set<nat>): Res -> int {
    (r: Res) => ValueOf(r, keep, handles)
  }

  /** The bytes that can be counted at once when exactly these budgets are kept. */
  function Worth(s: Ledger, keep: set<nat>): int {
    OpenTotal(s.budgets, keep, |s.budgets|) + Tally(s.res, Value(keep, Handles(s)))
  }

  // ---- no step raises it ----

  lemma {:induction false} OpenTotalSame(a: seq<Budget>, b: seq<Budget>, keep: set<nat>, n: nat)
    requires n <= |a| && n <= |b|
    requires forall i :: 0 <= i < n ==> a[i].total == b[i].total && a[i].handle == b[i].handle
    ensures OpenTotal(a, keep, n) == OpenTotal(b, keep, n)
  {
    if n > 0 {
      OpenTotalSame(a, b, keep, n - 1);
    }
  }

  lemma {:induction false} OpenTotalLess(a: seq<Budget>, b: nat, keep: set<nat>, n: nat)
    requires n <= |a| && b < |a| && a[b].handle
    ensures OpenTotal(a[b := a[b].(handle := false)], keep, n)
         == OpenTotal(a, keep, n) - if b < n && b in keep then a[b].total else 0
  {
    if n > 0 {
      OpenTotalLess(a, b, keep, n - 1);
    }
  }

  /** The step takes nothing away from a kept budget. */
  predicate LeavesKept(s: Ledger, step: Step, keep: set<nat>) {
    match step
    case BeginDrop(r) => r < |s.res| && s.res[r].budget !in keep
    case DropHandle(b) => b !in keep
    case _ => true
  }

  lemma KeepableBack(s: Ledger, step: Step, t: Ledger, keep: set<nat>)
    requires Linked(s) && Next(s, step, t) && !step.IntoSubBudget? && Keepable(t, keep)
    ensures Keepable(s, keep) && (step.DropSubBudget? ==> step.b !in keep)
  {
    forall b | b in keep ensures LiveBudget(s, b) {
      assert LiveBudget(t, b);
    }
    forall r | 0 <= r < |s.res| && s.res[r].phase.Lent? && s.res[r].phase.sub in keep ensures s.res[r].budget in keep {
      assert LentTo(s, r, s.res[r].phase.sub);
      assert t.res[r].phase == s.res[r].phase && t.res[r].budget == s.res[r].budget;
    }
  }

  lemma KeepableOn(s: Ledger, step: Step, t: Ledger, keep: set<nat>)
    requires Next(s, step, t) && !step.IntoSubBudget? && Keepable(s, keep)
    requires step.DropSubBudget? ==> step.b !in keep
    ensures Keepable(t, keep)
  {
    forall b | b in keep ensures LiveBudget(t, b) {
      assert LiveBudget(s, b);
    }
    forall r | 0 <= r < |t.res| && t.res[r].phase.Lent? && t.res[r].phase.sub in keep ensures t.res[r].budget in keep {
      assert r < |s.res| && s.res[r].phase == t.res[r].phase && s.res[r].budget == t.res[r].budget;
    }
  }

  lemma SameHandles(s: Ledger, step: Step, t: Ledger, keep: set<nat>)
    requires Next(s, step, t) && !step.IntoSubBudget? && !step.DropHandle?
    ensures Handles(t) == Handles(s) && |t.budgets| == |s.budgets|
    ensures OpenTotal(t.budgets, keep, |t.budgets|) == OpenTotal(s.budgets, keep, |s.budgets|)
  {
    OpenTotalSame(t.budgets, s.budgets, keep, |s.budgets|);
  }

  lemma NewRes(s: Ledger, step: Step, t: Ledger, keep: set<nat>)
    requires Next(s, step, t) && (step.Reserve? || step.SplitOff?)
    ensures Worth(t, keep) == Worth(s, keep)
  {
    hide Tally, OpenTotal;
    SameHandles(s, step, t, keep);
    var f := Value(keep, Handles(s));
    var last := t.res[|s.res|];
    if step.Reserve? {
      TallySnoc(s.res, last, f);
    } else {
      var r := step.r;
      TallySet(s.res, r, t.res[r], f);
      TallySnoc(s.res[r := t.res[r]], last, f);
      assert t.res == s.res[r := t.res[r]] + [last];
    }
  }

  lemma PhaseWorth(s: Ledger, step: Step, t: Ledger, keep: set<nat>)
    requires Next(s, step, t) && (step.Count? || step.BeginDrop? || step.Release?)
    ensures Worth(t, keep) <= Worth(s, keep)
    ensures LeavesKept(s, step, keep) ==> Worth(t, keep) == Worth(s, keep)
  {
    hide Tally, OpenTotal;
    SameHandles(s, step, t, keep);
    TallySet(s.res, step.r, t.res[step.r], Value(keep, Handles(s)));
  }

  lemma CloseWorth(s: Ledger, step: Step, t: Ledger, keep: set<nat>)
    requires Linked(s) && Next(s, step, t) && step.DropSubBudget? && step.b !in keep
    ensures Worth(t, keep) == Worth(s, keep)
  {
    hide Tally, OpenTotal;
    SameHandles(s, step, t, keep);
    var p := s.budgets[step.b].parent.value;
    assert step.b > 0 && InPhase(s, p, Lent(step.b));
    TallySet(s.res, p, t.res[p], Value(keep, Handles(s)));
  }

  /** Letting go of a handle gives up what the budget has not lent. */
  lemma HandleWorth(s: Ledger, step: Step, t: Ledger, keep: set<nat>)
    requires Inv(s) && Next(s, step, t) && step.DropHandle?
    ensures Worth(t, keep) <= Worth(s, keep)
    ensures step.b !in keep ==> Worth(t, keep) == Worth(s, keep)
  {
    hide Tally, OpenTotal, Linked, Sums;
    var b := step.b;
    OpenTotalLess(s.budgets, b, keep, |s.budgets|);
    assert Handles(t) == Handles(s) - {b};
    var f, g := Value(keep, Handles(t)), Value(keep, Handles(s));
    if b in keep {
      var h := (r: Res) => f(r) - g(r);
      TallyPlus(s.res, f, g, h);
      TallyBelow(s.res, h, On(b));
    } else {
      TallyBelow(s.res, f, g);
      TallyBelow(s.res, g, f);
    }
  }

  /** One step that lends nothing on: whatever is kept after it could be kept before it, and was
      worth as much. */
  lemma StepWorth(s: Ledger, step: Step, t: Ledger, keep: set<nat>)
    requires Inv(s) && Next(s, step, t) && !step.IntoSubBudget? && Keepable(t, keep)
    ensures Keepable(s, keep) && Worth(t, keep) <= Worth(s, keep)
    ensures LeavesKept(s, step, keep) ==> Worth(t, keep) == Worth(s, keep)
  {
    KeepableBack(s, step, t, keep);
    hide Next, Worth, Keepable, Linked, Balanced, Sums;
    match step
    case Reserve(_, _, _) => NewRes(s, step, t, keep);
    case SplitOff(_, _) => NewRes(s, step, t, keep);
    case DropHandle(_) => HandleWorth(s, step, t, keep);
    case DropSubBudget(_) => CloseWorth(s, step, t, keep);
    case Count(_) => PhaseWorth(s, step, t, keep);
    case BeginDrop(_) => PhaseWorth(s, step, t, keep);
    case Release(_) => PhaseWorth(s, step, t, keep);
  }

  lemma {:induction false} PathWorth(s: Ledger, steps: seq<Step>, t: Ledger, keep: set<nat>)
    requires Inv(s) && Path(s, steps, t) && NoLending(steps) && Keepable(t, keep)
    ensures Inv(t) && Keepable(s, keep) && Worth(t, keep) <= Worth(s, keep)
    ensures SameRoot(s, t)
    decreases |steps|
  {
    hide Inv, Next, Worth, Keepable;
    if steps == [] {
      RootExists(s);
    } else {
      var n := |steps| - 1;
      var mid :| Path(s, steps[..n], mid) && Next(mid, steps[n], t);
      PathKeeps(s, steps[..n], mid);
      StepWorth(mid, steps[n], t, keep);
      StepKeeps(mid, steps[n], t);
      PathWorth(s, steps[..n], mid, keep);
      RootKeepsTotal(mid, steps[n], t);
    }
  }

  ghost predicate SameRoot(s: Ledger, t: Ledger) {
    s.budgets != [] && t.budgets != [] && t.budgets[0].total == s.budgets[0].total
  }

  lemma {:induction false} PathKeeps(s: Ledger, steps: seq<Step>, t: Ledger)
    requires Inv(s) && Path(s, steps, t)
    ensures Inv(t)
    decreases |steps|
  {
    hide Inv, Next;
    if steps != [] {
      var n := |steps| - 1;
      var mid :| Path(s, steps[..n], mid) && Next(mid, steps[n], t);
      PathKeeps(s, steps[..n], mid);
      StepKeeps(mid, steps[n], t);
    }
  }

  lemma RootExists(s: Ledger)
    requires Inv(s)
    ensures s.budgets != [] && LiveBudget(s, 0)
  {
  }

  // ---- the counted bytes are within what the live budgets are worth ----

  /** Bytes that live reservations hold on the first `n` budgets with a handle. */
  function OnOpen(handles: set<nat>, n: nat): Res -> int {
    (r: Res) => if r.phase != Gone && r.budget < n && r.budget in handles then r.bytes else 0
  }

  /** Budgets with a handle lend all they have. */
  ghost predicate Full(s: Ledger, n: nat) {
    n <= |s.budgets| && forall b :: 0 <= b < n && Reachable(s, b) ==> s.budgets[b].used == s.budgets[b].total
  }

  lemma {:induction false} OpenCovers(s: Ledger, n: nat)
    requires Balanced(s) && n <= |s.budgets|
    requires forall r :: 0 <= r < |s.res| && s.res[r].phase != Gone ==> LiveBudget(s, s.res[r].budget)
    ensures Tally(s.res, OnOpen(Handles(s), n)) <= OpenTotal(s.budgets, LiveSet(s), n)
    ensures Full(s, n) ==> Tally(s.res, OnOpen(Handles(s), n)) == OpenTotal(s.budgets, LiveSet(s), n)
  {
    hide Tally;
    var f := OnOpen(Handles(s), n);
    if n == 0 {
      TallyZero(s.res, f);
    } else {
      OpenCovers(s, n - 1);
      var g := OnOpen(Handles(s), n - 1);
      if Reachable(s, n - 1) {
        TallyPlus(s.res, f, g, On(n - 1));
      } else {
        TallyBelow(s.res, f, g);
        TallyBelow(s.res, g, f);
      }
    }
  }

  /** No reservation up to `k` is between two steps of its life. */
  ghost predicate Settled(s: Ledger, k: nat) {
    k <= |s.res| && forall r :: 0 <= r < k ==> s.res[r].phase != Granted && s.res[r].phase != Dropping
  }

  lemma LiveKeepable(s: Ledger)
    requires Inv(s)
    ensures Keepable(s, LiveSet(s))
  {
    forall r | 0 <= r < |s.res| && s.res[r].phase.Lent? ensures s.res[r].budget in LiveSet(s) {
      assert LiveBudget(s, s.res[r].budget);
    }
  }

  lemma CountedWithinWorth(s: Ledger)
    requires Inv(s)
    ensures s.global <= Worth(s, LiveSet(s))
    ensures Settled(s, |s.res|) && Full(s, |s.budgets|) ==> s.global == Worth(s, LiveSet(s))
  {
    hide Tally, Balanced, OpenTotal;
    OpenCovers(s, |s.budgets|);
    var f, g := OnOpen(Handles(s), |s.budgets|), Value(LiveSet(s), Handles(s));
    var h := (r: Res) => f(r) + g(r);
    TallyPlus(s.res, h, f, g);
    forall r | 0 <= r < |s.res|
      ensures Counted()(s.res[r]) <= h(s.res[r])
      ensures Settled(s, |s.res|) ==> Counted()(s.res[r]) == h(s.res[r])
    {
      CountedIs(s, r);
    }
    TallyBelow(s.res, Counted(), h);
    if Settled(s, |s.res|) {
      TallyBelow(s.res, h, Counted());
    }
  }

  lemma CountedIs(s: Ledger, r: nat)
    requires Linked(s) && r < |s.res|
    ensures var x := OnOpen(Handles(s), |s.budgets|)(s.res[r]) + Value(LiveSet(s), Handles(s))(s.res[r]);
      && Counted()(s.res[r]) <= x
      && (s.res[r].phase != Granted && s.res[r].phase != Dropping ==> Counted()(s.res[r]) == x)
  {
    var q := s.res[r];
    if q.phase != Gone {
      assert LiveBudget(s, q.budget);
    }
    if q.phase.Lent? {
      assert LentTo(s, r, q.phase.sub);
    }
  }

  // ---- and can be brought there ----

  /** `t` was reached with nothing taken from the kept budgets, and nothing brought back to life. */
  ghost predicate Kept(s: Ledger, t: Ledger, keep: set<nat>) {
    && Inv(t) && Keepable(t, keep) && Worth(t, keep) == Worth(s, keep) && |t.budgets| == |s.budgets|
    && (forall b :: 0 <= b < |s.budgets| && t.budgets[b].live ==> s.budgets[b].live)
  }

  ghost predicate Reaches(s: Ledger, steps: seq<Step>, t: Ledger, keep: set<nat>) {
    Path(s, steps, t) && NoLending(steps) && Kept(s, t, keep)
  }

  lemma ReachSelf(s: Ledger, keep: set<nat>)
    requires Inv(s) && Keepable(s, keep)
    ensures Reaches(s, [], s, keep)
  {
    hide Inv, Worth, Keepable;
  }

  lemma ReachStep(s: Ledger, steps: seq<Step>, mid: Ledger, step: Step, t: Ledger, keep: set<nat>)
    requires Inv(s) && Reaches(s, steps, mid, keep) && Next(mid, step, t) && !step.IntoSubBudget?
    requires LeavesKept(mid, step, keep) && (step.DropSubBudget? ==> step.b !in keep)
    ensures Reaches(s, steps + [step], t, keep)
  {
    hide Next, Path, Inv, Worth, Keepable;
    KeepableOn(mid, step, t, keep);
    StepLives(mid, step, t);
    StepKeeps(mid, step, t);
    StepWorth(mid, step, t, keep);
    PathMore(s, steps, mid, step, t);
  }

  lemma StepLives(s: Ledger, step: Step, t: Ledger)
    requires Next(s, step, t) && !step.IntoSubBudget?
    ensures |t.budgets| == |s.budgets|
    ensures forall b :: 0 <= b < |s.budgets| && t.budgets[b].live ==> s.budgets[b].live
  {
  }

  lemma ReachTrans(s: Ledger, a: seq<Step>, m: Ledger, b: seq<Step>, t: Ledger, keep: set<nat>)
    requires Reaches(s, a, m, keep) && Reaches(m, b, t, keep)
    ensures Reaches(s, a + b, t, keep)
  {
    hide Path, Inv, Worth, Keepable;
    PathConcat(s, a, m, b, t);
  }

  function Rank(p: Phase): nat {
    match p
    case Granted => 3
    case Held => 2
    case Dropping => 1
    case _ => 0
  }

  /** The next step of a reservation on its way out. */
  function WayOut(r: nat, p: Phase): Step {
    if p == Granted then Count(r) else if p == Held then BeginDrop(r) else Release(r)
  }

  /** Only reservation `r` changed, and the budgets only in what they count. */
  ghost predicate OnlyRes(s: Ledger, r: nat, t: Ledger) {
    && |t.res| == |s.res| && |t.budgets| == |s.budgets|
    && (forall q :: 0 <= q < |s.res| && q != r ==> t.res[q] == s.res[q])
    && (forall b :: 0 <= b < |s.budgets| ==> t.budgets[b] == s.budgets[b].(used := t.budgets[b].used))
  }

  lemma StepOut(s: Ledger, r: nat) returns (t: Ledger)
    requires Linked(s) && r < |s.res| && Rank(s.res[r].phase) > 0
    ensures Next(s, WayOut(r, s.res[r].phase), t) && OnlyRes(s, r, t)
    ensures Rank(t.res[r].phase) == Rank(s.res[r].phase) - 1 && t.res[r].budget == s.res[r].budget
    ensures t.res[r].phase != Granted && !t.res[r].phase.Lent?
    ensures s.res[r].phase == Granted ==> t.budgets == s.budgets
  {
    var q := s.res[r];
    assert LiveBudget(s, q.budget);
    match q.phase
    case Granted => t := Ledger(s.budgets, s.res[r := q.(phase := Held)], s.global + q.bytes);
    case Held => t := Ledger(s.budgets, s.res[r := q.(phase := Dropping)], s.global - q.bytes);
    case Dropping =>
      t := Ledger(SetUsed(s, q.budget, s.budgets[q.budget].used - q.bytes), s.res[r := q.(phase := Gone)], s.global);
  }

  /** See a reservation on a budget that is not kept through to its end. */
  lemma {:induction false} SeeOut(s: Ledger, r: nat, keep: set<nat>) returns (steps: seq<Step>, t: Ledger)
    requires Inv(s) && Keepable(s, keep) && r < |s.res| && s.res[r].budget !in keep && !s.res[r].phase.Lent?
    ensures Reaches(s, steps, t, keep) && OnlyRes(s, r, t) && t.res[r].phase == Gone
    decreases Rank(s.res[r].phase)
  {
    hide Inv, Next, Keepable, Path, Worth;
    ReachSelf(s, keep);
    if s.res[r].phase == Gone {
      return [], s;
    }
    InvLinked(s);
    var m := StepOut(s, r);
    var step := WayOut(r, s.res[r].phase);
    ReachStep(s, [], s, step, m, keep);
    assert [] + [step] == [step];
    var rest, end := SeeOut(m, r, keep);
    ReachTrans(s, [step], m, rest, end, keep);
    steps, t := [step] + rest, end;
  }

  lemma InvLinked(s: Ledger)
    requires Inv(s)
    ensures Linked(s)
  {
  }

  /** The first `k` reservations on budget `b` are gone. */
  ghost predicate EmptyUpTo(s: Ledger, b: nat, k: nat) {
    k <= |s.res| && forall r :: 0 <= r < k && s.res[r].budget == b ==> s.res[r].phase == Gone
  }

  /** No reservation on `b` is lent on. */
  ghost predicate Childless(s: Ledger, b: nat) {
    forall r :: 0 <= r < |s.res| && s.res[r].budget == b ==> !s.res[r].phase.Lent?
  }

  ghost predicate SameBudgets(s: Ledger, t: Ledger) {
    && |t.budgets| == |s.budgets|
    && (forall b :: 0 <= b < |s.budgets| ==> t.budgets[b] == s.budgets[b].(used := t.budgets[b].used))
  }

  lemma {:induction false} EmptyOut(s: Ledger, b: nat, keep: set<nat>, k: nat) returns (steps: seq<Step>, t: Ledger)
    requires Inv(s) && Keepable(s, keep) && b !in keep && Childless(s, b) && k <= |s.res|
    ensures Reaches(s, steps, t, keep) && SameBudgets(s, t) && |t.res| == |s.res|
    ensures EmptyUpTo(t, b, k) && Childless(t, b)
    decreases k
  {
    hide Inv, Next, Keepable, Path, Worth;
    if k == 0 {
      ReachSelf(s, keep);
      return [], s;
    }
    var before, mid := EmptyOut(s, b, keep, k - 1);
    if mid.res[k - 1].budget != b {
      return before, mid;
    }
    var after, end := SeeOut(mid, k - 1, keep);
    ReachTrans(s, before, mid, after, end, keep);
    steps, t := before + after, end;
  }

  /** Every live budget above `n` is a kept one. */
  ghost predicate KeptAbove(s: Ledger, keep: set<nat>, n: nat) {
    forall b :: n <= b < |s.budgets| && s.budgets[b].live ==> b in keep
  }

  lemma LastHasNoChildren(s: Ledger, b: nat, keep: set<nat>)
    requires Linked(s) && Keepable(s, keep) && LiveBudget(s, b) && b !in keep && KeptAbove(s, keep, b + 1)
    ensures Childless(s, b)
  {
    forall r | 0 <= r < |s.res| && s.res[r].phase.Lent? ensures s.res[r].budget != b {
      assert LentTo(s, r, s.res[r].phase.sub);
      assert s.res[r].phase.sub > b ==> s.res[r].phase.sub in keep;
    }
  }

  /** Close a budget that is not kept and has no live budget below it that is not kept either. */
  lemma CloseOne(s: Ledger, b: nat, keep: set<nat>) returns (steps: seq<Step>, t: Ledger)
    requires Inv(s) && Keepable(s, keep) && LiveBudget(s, b) && b !in keep && KeptAbove(s, keep, b + 1)
    ensures Reaches(s, steps, t, keep) && KeptAbove(t, keep, b)
  {
    InvLinked(s);
    LastHasNoChildren(s, b, keep);
    hide Inv, Next, Keepable, Path, Worth;
    var a, m := EmptyOut(s, b, keep, |s.res|);
    var c, u := ForgetIt(m, b, keep);
    ReachTrans(s, a, m, c, u, keep);
    var d, end := ShutIt(u, b, keep);
    ReachTrans(s, a + c, u, d, end, keep);
    steps, t := a + c + d, end;
  }

  lemma ForgetIt(s: Ledger, b: nat, keep: set<nat>) returns (steps: seq<Step>, t: Ledger)
    requires Inv(s) && Keepable(s, keep) && LiveBudget(s, b) && b !in keep
    ensures Reaches(s, steps, t, keep) && t.res == s.res && LiveBudget(t, b) && !t.budgets[b].handle
  {
    ReachSelf(s, keep);
    if !s.budgets[b].handle {
      return [], s;
    }
    t := Ledger(s.budgets[b := s.budgets[b].(handle := false)], s.res, s.global);
    assert Next(s, DropHandle(b), t);
    hide Inv, Next, Keepable, Path, Worth;
    ReachStep(s, [], s, DropHandle(b), t, keep);
    steps := [] + [DropHandle(b)];
  }

  lemma ShutIt(s: Ledger, b: nat, keep: set<nat>) returns (steps: seq<Step>, t: Ledger)
    requires Inv(s) && Keepable(s, keep) && LiveBudget(s, b) && b !in keep && !s.budgets[b].handle
    requires EmptyUpTo(s, b, |s.res|)
    ensures Reaches(s, steps, t, keep) && !t.budgets[b].live
  {
    RootKept(s, b, keep);
    SubBudgetIsLent(s, b);
    var p := s.budgets[b].parent.value;
    t := Ledger(s.budgets[b := s.budgets[b].(live := false)], s.res[p := s.res[p].(phase := Dropping)], s.global);
    assert Next(s, DropSubBudget(b), t);
    hide Inv, Next, Keepable, Path, Worth;
    ReachSelf(s, keep);
    ReachStep(s, [], s, DropSubBudget(b), t, keep);
    steps := [] + [DropSubBudget(b)];
  }

  lemma RootKept(s: Ledger, b: nat, keep: set<nat>)
    requires Keepable(s, keep) && b !in keep
    ensures b > 0
  {
  }

  /** Close every budget that is not kept, the youngest first. */
  lemma {:induction false} CloseOthers(s: Ledger, keep: set<nat>, n: nat) returns (steps: seq<Step>, t: Ledger)
    requires Inv(s) && Keepable(s, keep) && n <= |s.budgets|
    ensures Reaches(s, steps, t, keep) && KeptAbove(t, keep, n)
    decreases |s.budgets| - n
  {
    hide Inv, Next, Keepable, Path, Worth;
    if n == |s.budgets| {
      ReachSelf(s, keep);
      return [], s;
    }
    var a, m := CloseOthers(s, keep, n + 1);
    if !m.budgets[n].live || n in keep {
      return a, m;
    }
    var b, end := CloseOne(m, n, keep);
    ReachTrans(s, a, m, b, end, keep);
    steps, t := a + b, end;
  }

  /** Finish the grants and the drops that are under way, one reservation at a time. */
  lemma {:induction false} Settle(s: Ledger, keep: set<nat>, k: nat) returns (steps: seq<Step>, t: Ledger)
    requires Inv(s) && Keepable(s, keep) && k <= |s.res|
    ensures Reaches(s, steps, t, keep) && SameBudgets(s, t) && |t.res| == |s.res| && Settled(t, k)
    decreases k
  {
    hide Inv, Next, Keepable, Path, Worth;
    if k == 0 {
      ReachSelf(s, keep);
      return [], s;
    }
    var before, mid := Settle(s, keep, k - 1);
    var r := k - 1;
    var phase := mid.res[r].phase;
    if phase != Granted && phase != Dropping {
      return before, mid;
    }
    InvLinked(mid);
    t := StepOut(mid, r);
    ReachStep(s, before, mid, WayOut(r, phase), t, keep);
    steps := before + [WayOut(r, phase)];
  }

  /** Reserve and count everything that can be asked for, one budget at a time. */
  lemma {:induction false} Exhaust(s: Ledger, keep: set<nat>, k: nat) returns (steps: seq<Step>, t: Ledger)
    requires Inv(s) && Keepable(s, keep) && Settled(s, |s.res|) && k <= |s.budgets|
    ensures Reaches(s, steps, t, keep) && SameBudgets(s, t) && Settled(t, |t.res|) && Full(t, k)
    decreases k
  {
    hide Inv, Next, Keepable, Path, Worth;
    if k == 0 {
      ReachSelf(s, keep);
      return [], s;
    }
    var before, mid := Exhaust(s, keep, k - 1);
    var b := k - 1;
    if !Reachable(mid, b) {
      return before, mid;
    }
    var free := FreeIn(mid, b);
    var m := TakeAll(mid, b, free);
    ReachStep(s, before, mid, Reserve(b, free, free), m, keep);
    InvLinked(m);
    t := StepOut(m, |mid.res|);
    ReachStep(s, before + [Reserve(b, free, free)], m, Count(|mid.res|), t, keep);
    steps := before + [Reserve(b, free, free)] + [Count(|mid.res|)];
  }

  ghost function FreeIn(s: Ledger, b: nat): nat
    requires Inv(s) && LiveBudget(s, b)
  {
    UsedIsNatural(s, b);
    s.budgets[b].total - s.budgets[b].used
  }

  lemma TakeAll(s: Ledger, b: nat, free: nat) returns (t: Ledger)
    requires Inv(s) && Reachable(s, b) && free == FreeIn(s, b)
    ensures Next(s, Reserve(b, free, free), t)
    ensures t.res == s.res + [Res(b, free, Granted)]
    ensures t.budgets == SetUsed(s, b, s.budgets[b].total)
  {
    hide Tally, Balanced, Sums, Linked;
    t := Ledger(SetUsed(s, b, s.budgets[b].total), s.res + [Res(b, free, Granted)], s.global);
  }

  /** From any state of any run, without lending anything further on, the counted bytes can be
      brought to exactly what any choice of budgets to keep is worth: close the others, finish what
      is under way, and reserve all that is left. */
  lemma ReachesTheWorth(s: Ledger, keep: set<nat>) returns (steps: seq<Step>, t: Ledger)
    requires Inv(s) && Keepable(s, keep)
    ensures Path(s, steps, t) && NoLending(steps) && Inv(t)
    ensures t.global == Worth(s, keep)
  {
    hide Inv, Next, Keepable, Path, Worth;
    var a, m := CloseOthers(s, keep, 0);
    var b, u := Settle(m, keep, |m.res|);
    ReachTrans(s, a, m, b, u, keep);
    var c, end := Exhaust(u, keep, |u.budgets|);
    ReachTrans(s, a + b, u, c, end, keep);
    OnlyKeptLive(end, keep);
    CountedWithinWorth(end);
    steps, t := a + b + c, end;
  }

  lemma OnlyKeptLive(s: Ledger, keep: set<nat>)
    requires Keepable(s, keep) && KeptAbove(s, keep, 0)
    ensures LiveSet(s) == keep
  {
  }

  /** and never further: the cap can be passed from a state, without lending anything further on, if
      and only if some choice of budgets to keep is worth more. */
  lemma CapPassedIffWorth(s: Ledger)
    requires Inv(s)
    ensures (exists steps, t :: Path(s, steps, t) && NoLending(steps) && t.global > s.budgets[0].total) <==>
      exists keep :: Keepable(s, keep) && Worth(s, keep) > s.budgets[0].total
  {
    RootExists(s);
    hide Inv, Path, Worth, Keepable;
    if keep :| Keepable(s, keep) && Worth(s, keep) > s.budgets[0].total {
      var steps, t := ReachesTheWorth(s, keep);
    }
    forall steps, t | Path(s, steps, t) && NoLending(steps) && t.global > s.budgets[0].total
      ensures exists keep :: Keepable(s, keep) && Worth(s, keep) > s.budgets[0].total
    {
      PathKeeps(s, steps, t);
      LiveKeepable(t);
      CountedWithinWorth(t);
      PathWorth(s, steps, t, LiveSet(t));
    }
  }

  // ---- when nobody has let go of a handle ----

  ghost predicate AllReachable(s: Ledger) {
    forall b :: 0 <= b < |s.budgets| && s.budgets[b].live ==> s.budgets[b].handle
  }

  lemma {:induction false} AllOpen(s: Ledger, n: nat)
    requires Linked(s) && AllReachable(s) && 0 < n <= |s.budgets|
    ensures OpenTotal(s.budgets, LiveSet(s), n) == s.budgets[0].total + Tally(s.budgets[..n], SubTotal())
  {
    var x := s.budgets[n - 1];
    assert s.budgets[..n] == s.budgets[..n - 1] + [x];
    TallySnoc(s.budgets[..n - 1], x, SubTotal());
    if n > 1 {
      AllOpen(s, n - 1);
    } else {
      assert s.budgets[..0] == [];
    }
  }

  /** With every handle held, the live budgets are worth the root's cap and one byte for each
      sub-budget that was made of an empty reservation. */
  lemma ReachableWorth(s: Ledger)
    requires Inv(s) && AllReachable(s)
    ensures Worth(s, LiveSet(s)) == s.budgets[0].total + Spares(s)
  {
    hide Tally, OpenTotal;
    AllOpen(s, |s.budgets|);
    assert s.budgets[..|s.budgets|] == s.budgets;
    var f := Value(LiveSet(s), Handles(s));
    var zero := (r: Res) => 0;
    forall r | 0 <= r < |s.res| ensures f(s.res[r]) == -Relent()(s.res[r]) {
      if s.res[r].phase.Lent? {
        assert LentTo(s, r, s.res[r].phase.sub);
      }
      if s.res[r].phase != Gone {
        assert LiveBudget(s, s.res[r].budget);
      }
    }
    TallyZero(s.res, zero);
    TallyPlus(s.res, zero, f, Relent());
  }

  /** Then the counted bytes can be brought to exactly the cap and the spare bytes, */
  lemma ReachesTheSpares(s: Ledger) returns (steps: seq<Step>, t: Ledger)
    requires Inv(s) && AllReachable(s)
    ensures Path(s, steps, t) && NoLending(steps) && Inv(t)
    ensures t.global == s.budgets[0].total + Spares(s)
  {
    hide Inv, Path, Worth, Keepable, Spares;
    LiveKeepable(s);
    ReachableWorth(s);
    steps, t := ReachesTheWorth(s, LiveSet(s));
  }

  /** One step that lends nothing on: no spare byte appears. */
  lemma StepSpares(s: Ledger, step: Step, t: Ledger)
    requires Next(s, step, t) && !step.IntoSubBudget?
    ensures Spares(t) <= Spares(s)
  {
    hide Tally;
    match step
    case Reserve(_, _, _) => ResSums(s.res, 0, t.res[|s.res|]);
    case DropHandle(_) =>
    case DropSubBudget(b) =>
      var p := s.budgets[b].parent.value;
      ResSums(s.res, p, t.res[p]);
    case SplitOff(r, _) =>
      ResSums(s.res, r, t.res[r]);
      ResSums(s.res[r := t.res[r]], r, t.res[|s.res|]);
    case Count(r) => ResSums(s.res, r, t.res[r]);
    case BeginDrop(r) => ResSums(s.res, r, t.res[r]);
    case Release(r) => ResSums(s.res, r, t.res[r]);
  }

  lemma {:induction false} PathSpares(s: Ledger, steps: seq<Step>, t: Ledger)
    requires Inv(s) && Path(s, steps, t) && NoLending(steps)
    ensures Inv(t) && Spares(t) <= Spares(s) && SameRoot(s, t)
    decreases |steps|
  {
    hide Inv, Next, Spares;
    if steps == [] {
      RootExists(s);
    } else {
      var n := |steps| - 1;
      var mid :| Path(s, steps[..n], mid) && Next(mid, steps[n], t);
      PathSpares(s, steps[..n], mid);
      StepKeeps(mid, steps[n], t);
      StepSpares(mid, steps[n], t);
      RootKeepsTotal(mid, steps[n], t);
    }
  }

  /** In any state the cap can be passed only over a spare byte; while every handle is held, it can
      exactly when there is one. */
  lemma CapPassedIffSpares(s: Ledger)
    requires Inv(s)
    ensures (exists steps, t :: Path(s, steps, t) && NoLending(steps) && t.global > s.budgets[0].total) ==>
      Spares(s) > 0
    ensures AllReachable(s) && Spares(s) > 0 ==>
      exists steps, t :: Path(s, steps, t) && NoLending(steps) && t.global > s.budgets[0].total
  {
    RootExists(s);
    hide Inv, Path, Spares, AllReachable;
    if AllReachable(s) && Spares(s) > 0 {
      var steps, t := ReachesTheSpares(s);
    }
    forall steps, t | Path(s, steps, t) && NoLending(steps) && t.global > s.budgets[0].total ensures Spares(s) > 0 {
      PathSpares(s, steps, t);
      RootExists(t);
      LeavesFit(t);
      UsedIsNatural(t, 0);
    }
  }

  /** Spare bytes are counted exactly by the live sub-budgets made of an empty reservation. */
  lemma SparesPositiveIff(s: Ledger)
    ensures Spares(s) > 0 <==> exists r :: 0 <= r < |s.res| && s.res[r].phase.Lent? && s.res[r].bytes == 0
  {
    hide Tally;
    var zero := (r: Res) => 0;
    TallyZero(s.res, zero);
    TallyBelow(s.res, zero, Spare());
    if r :| 0 <= r < |s.res| && s.res[r].phase.Lent? && s.res[r].bytes == 0 {
      var dropped := s.res[r].(phase := Gone);
      TallySet(s.res, r, dropped, Spare());
      TallyZero(s.res[r := dropped], zero);
      TallyBelow(s.res[r := dropped], zero, Spare());
    } else {
      TallyZero(s.res, Spare());
    }
  }

  /** An empty sub-budget with an empty reservation on it and no handle: a spare byte that nobody
      can ask for. */
  function Forgotten(cap: nat): Ledger {
    Ledger([Budget(cap, 0, None, true, true), Budget(1, 0, Some(0), true, false)],
           [Res(0, 0, Lent(1)), Res(1, 0, Held)], 0)
  }

  lemma ForgottenIsReached(cap: nat) returns (states: seq<Ledger>, steps: seq<Step>)
    requires cap > 0
    ensures Run(cap, states, steps) && states[|steps|] == Forgotten(cap)
  {
    var root, sub := Budget(cap, 0, None, true, true), Budget(1, 0, Some(0), true, true);
    states, steps := RunTo(cap, [Start(cap)], [], Reserve(0, 0, 0), Ledger([root], [Res(0, 0, Granted)], 0));
    states, steps := RunTo(cap, states, steps, Count(0), Ledger([root], [Res(0, 0, Held)], 0));
    states, steps := RunTo(cap, states, steps, IntoSubBudget(0), Ledger([root, sub], [Res(0, 0, Lent(1))], 0));
    states, steps := RunTo(cap, states, steps, Reserve(1, 0, 0),
      Ledger([root, sub], [Res(0, 0, Lent(1)), Res(1, 0, Granted)], 0));
    states, steps := RunTo(cap, states, steps, Count(1), Ledger([root, sub], [Res(0, 0, Lent(1)), Res(1, 0, Held)], 0));
    states, steps := RunTo(cap, states, steps, DropHandle(1), Forgotten(cap));
  }

  /** So a spare byte alone does not let the cap be passed. */
  lemma ForgottenByteIsLost(cap: nat)
    requires cap > 0
    ensures Spares(Forgotten(cap)) == 1
    ensures forall steps, t :: Path(Forgotten(cap), steps, t) && NoLending(steps) ==> t.global <= cap
  {
    var s := Forgotten(cap);
    var states, steps := ForgottenIsReached(cap);
    RunKeeps(cap, states, steps, |steps|);
    ForgottenSpares(cap);
    forall keep | Keepable(s, keep) ensures Worth(s, keep) <= cap {
      ForgottenWorth(cap, keep);
    }
    hide Path, Worth, Keepable, Inv;
    CapPassedIffWorth(s);
  }

  lemma ForgottenSpares(cap: nat)
    ensures Spares(Forgotten(cap)) == 1
  {
    hide Tally;
    var a, b := Res(0, 0, Lent(1)), Res(1, 0, Held);
    TallyZero([], Spare());
    TallySnoc([], a, Spare());
    TallySnoc([a], b, Spare());
    assert [] + [a] == [a] && [a] + [b] == Forgotten(cap).res;
  }

  lemma ForgottenWorth(cap: nat, keep: set<nat>)
    requires Keepable(Forgotten(cap), keep)
    ensures Worth(Forgotten(cap), keep) <= cap
  {
    var s := Forgotten(cap);
    var f := Value(keep, Handles(s));
    assert 0 in Handles(s) && 1 !in Handles(s);
    TallyZero(s.res, f);
    assert OpenTotal(s.budgets, keep, 1) == OpenTotal(s.budgets, keep, 0) + cap;
  }

  /** All of the root lent on to a sub-budget without a handle, and on it an empty sub-budget with one. */
  function Starved(cap: nat): Ledger {
    Ledger([Budget(cap, cap, None, true, true), Budget(cap, 0, Some(0), true, false),
            Budget(1, 0, Some(1), true, true)],
           [Res(0, cap, Lent(1)), Res(1, 0, Lent(2))], 0)
  }

  lemma StarvedIsReached(cap: nat) returns (states: seq<Ledger>, steps: seq<Step>)
    requires cap > 0
    ensures Run(cap, states, steps) && states[|steps|] == Starved(cap)
  {
    var root, all := Budget(cap, cap, None, true, true), Res(0, cap, Held);
    var sub, leaf := Budget(cap, 0, Some(0), true, true), Budget(1, 0, Some(1), true, true);
    var lent := all.(phase := Lent(1));
    states, steps := RunTo(cap, [Start(cap)], [], Reserve(0, cap, 0), Ledger([root], [all.(phase := Granted)], 0));
    states, steps := RunTo(cap, states, steps, Count(0), Ledger([root], [all], cap));
    states, steps := RunTo(cap, states, steps, IntoSubBudget(0), Ledger([root, sub], [lent], 0));
    states, steps := RunTo(cap, states, steps, Reserve(1, 0, 0), Ledger([root, sub], [lent, Res(1, 0, Granted)], 0));
    states, steps := RunTo(cap, states, steps, Count(1), Ledger([root, sub], [lent, Res(1, 0, Held)], 0));
    states, steps := RunTo(cap, states, steps, IntoSubBudget(1),
      Ledger([root, sub, leaf], [lent, Res(1, 0, Lent(2))], 0));
    states, steps := RunTo(cap, states, steps, DropHandle(1), Starved(cap));
  }

  /** A spare byte with a handle is no way past the cap either while the bytes above it lie idle. */
  lemma StarvedByteIsHarmless(cap: nat)
    requires cap > 0
    ensures Reachable(Starved(cap), 2) && Starved(cap).res[1].bytes == 0 && Starved(cap).res[1].phase == Lent(2)
    ensures forall steps, t :: Path(Starved(cap), steps, t) && NoLending(steps) ==> t.global <= cap
  {
    var s := Starved(cap);
    var states, steps := StarvedIsReached(cap);
    RunKeeps(cap, states, steps, |steps|);
    forall keep | Keepable(s, keep) ensures Worth(s, keep) <= cap {
      StarvedWorth(cap, keep);
    }
    hide Path, Worth, Keepable, Inv;
    CapPassedIffWorth(s);
  }

  lemma StarvedWorth(cap: nat, keep: set<nat>)
    requires cap > 0 && Keepable(Starved(cap), keep)
    ensures Worth(Starved(cap), keep) <= cap
  {
    hide Tally;
    var s := Starved(cap);
    var f := Value(keep, Handles(s));
    assert 0 in Handles(s) && 1 !in Handles(s) && 2 in Handles(s);
    TallyZero([], f);
    TallySnoc([], s.res[0], f);
    TallySnoc([s.res[0]], s.res[1], f);
    assert [] + [s.res[0]] == [s.res[0]] && [s.res[0]] + [s.res[1]] == s.res;
    assert OpenTotal(s.budgets, keep, 1) == OpenTotal(s.budgets, keep, 0) + cap;
    assert OpenTotal(s.budgets, keep, 2) == OpenTotal(s.budgets, keep, 1);
    assert 2 in keep ==> s.res[1].budget in keep;
  }
}

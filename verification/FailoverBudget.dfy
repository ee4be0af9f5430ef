/**
 What the budget of `2n` turns buys.

 While a call walks down the list, the background thread may climb and so make
 the call walk part of the way again. The interference a climb causes is its
 height, plus one if it lands inside a turn, between the index read and the
 switch check. A call whose interference stays within `n` plus its starting
 index still reaches the end; one climb, wherever it lands, always does.
 */
module FailoverBudget {
  import opened FailoverCore
  import opened FailoverRuns

  /** Every service from `start` down to just above the index was tried. */
  ghost predicate Covered(c: Call, start: nat, index: nat) {
    forall i :: start <= i < index ==> i in c.tried
  }

  /** The turns spent are paid for by the way made and the interference met. */
  ghost predicate Walk(cfg: Config, s: Shared, c: Call, cost: nat) {
    if c.asked == [] then c == NewCall(cfg)
    else
      var start, used := c.asked[0], 2 * cfg.n - c.turnsLeft;
      match c.phase
      case AtLoop => Covered(c, start, s.index) && used <= s.index - start + cost
      case Asking(i) => MidTurn(s, c, i, start, used, cost)
      case Checking(i) => MidTurn(s, c, i, start, used, cost)
      case Done(Handled(_)) => true
      case _ => cost <= cfg.n + start ==> forall i :: start <= i < cfg.n ==> i in c.refused
  }

  ghost predicate MidTurn(s: Shared, c: Call, i: nat, start: nat, used: int, cost: nat) {
    && s.index <= i && i in c.tried && Covered(c, start, s.index)
    && used <= s.index - start + cost + if s.index == i then 1 else 0
  }

  lemma WalkTurn(cfg: Config, s: Shared, c: Call, cost: nat)
    requires cfg.Valid() && s.Valid(cfg) && CallOk(cfg, c) && c.phase.AtLoop? && Walk(cfg, s, c, cost)
    ensures Walk(cfg, s, TakeTurn(cfg, s, c), cost)
  {
    var c' := TakeTurn(cfg, s, c);
    if c.asked != [] && c'.phase.Exhausted? && |c.tried| >= cfg.n {
      TriedAll(cfg, c);
    }
  }

  /** The indices below `n`. */
  ghost function Below(n: nat): (r: set<nat>)
    ensures |r| == n && forall i: nat :: i in r <==> i < n
  {
    if n == 0 then {} else Below(n - 1) + {n - 1}
  }

  /** A call that tried `n` services tried them all. */
  lemma TriedAll(cfg: Config, c: Call)
    requires CallOk(cfg, c) && |c.tried| >= cfg.n
    ensures forall i: nat :: i < cfg.n ==> i in c.tried
  {
    var all := Below(cfg.n);
    if i: nat :| i < cfg.n && i !in c.tried {
      SubsetCard(c.tried, all - {i});
    }
  }

  lemma {:induction false} SubsetCard(a: set<nat>, b: set<nat>)
    requires a <= b
    ensures |a| <= |b|
  {
    if a != {} {
      var x :| x in a;
      SubsetCard(a - {x}, b - {x});
    }
  }

  lemma WalkHear(cfg: Config, s: Shared, c: Call, ok: bool, cost: nat)
    requires CallOk(cfg, c) && c.phase.Asking? && Walk(cfg, s, c, cost)
    ensures Walk(cfg, s, Hear(c, ok), cost)
  {
  }

  lemma WalkCheck(cfg: Config, s: Shared, c: Call, cost: nat)
    requires s.Valid(cfg) && CallOk(cfg, c) && c.phase.Checking? && Walk(cfg, s, c, cost)
    ensures Walk(cfg, CheckSwitch(cfg, s, c).0, CheckSwitch(cfg, s, c).1, cost)
  {
  }

  /** What a climb from `s` to `s'` costs a call standing in `c`. */
  function ClimbCost(s: Shared, s': Shared, c: Call): int {
    s.index - s'.index + if c.phase.AtLoop? then 0 else 1
  }

  lemma WalkClimb(cfg: Config, s: Shared, s': Shared, c: Call, cost: nat)
    requires c.Running() && c.asked != [] && s'.index < s.index && Walk(cfg, s, c, cost)
    ensures Walk(cfg, s', c, cost + ClimbCost(s, s', c))
  {
  }

  /* -------------------- over a run -------------------- */

  /** Somebody else moves the index while the call is between its first read and its end. */
  predicate Interferes(states: seq<System>, steps: seq<Step>, id: nat, k: nat)
    requires |states| == |steps| + 1 && k < |steps|
  {
    && id in states[k].calls && states[k].calls[id].asked != [] && states[k].calls[id].Running()
    && !steps[k].TakenBy(id) && states[k + 1].shared.index != states[k].shared.index
  }

  /** All that happens to the call from outside is that the work climbs. */
  ghost predicate OnlyClimbs(states: seq<System>, steps: seq<Step>, id: nat)
    requires |states| == |steps| + 1
  {
    forall k: nat :: k < |steps| && Interferes(states, steps, id, k) ==>
      states[k + 1].shared.index < states[k].shared.index
  }

  /** The interference met in the first `k` steps. */
  ghost function Interference(states: seq<System>, steps: seq<Step>, id: nat, k: nat): nat
    requires |states| == |steps| + 1 && k <= |steps| && OnlyClimbs(states, steps, id)
  {
    if k == 0 then 0
    else
      var before := Interference(states, steps, id, k - 1);
      if Interferes(states, steps, id, k - 1) then
        before + ClimbCost(states[k - 1].shared, states[k].shared, states[k - 1].calls[id])
      else before
  }

  /** How many climbs the call met in the first `k` steps. */
  function ClimbsMet(states: seq<System>, steps: seq<Step>, id: nat, k: nat): nat
    requires |states| == |steps| + 1 && k <= |steps|
  {
    if k == 0 then 0
    else ClimbsMet(states, steps, id, k - 1) + (if Interferes(states, steps, id, k - 1) then 1 else 0)
  }

  lemma WalkStep(cfg: Config, s: System, step: Step, id: nat, cost: nat)
    requires cfg.Valid() && Inv(cfg, s) && Enabled(cfg, s, step) && id in s.calls
    requires Walk(cfg, s.shared, s.calls[id], cost)
    requires step.TakenBy(id)
    ensures Walk(cfg, Apply(cfg, s, step).shared, Apply(cfg, s, step).calls[id], cost)
  {
    match step
    case Turn(_) => WalkTurn(cfg, s.shared, s.calls[id], cost);
    case Answer(_, ok) => WalkHear(cfg, s.shared, s.calls[id], ok, cost);
    case Check(_) => WalkCheck(cfg, s.shared, s.calls[id], cost);
    case _ =>
  }

  lemma {:induction false} WalkAlways(cfg: Config, states: seq<System>, steps: seq<Step>, id: nat, k: nat)
    requires cfg.Valid() && ValidRun(cfg, states, steps) && Starts(cfg, states) && k <= |steps|
    requires OnlyClimbs(states, steps, id)
    ensures id in states[k].calls ==>
      Walk(cfg, states[k].shared, states[k].calls[id], Interference(states, steps, id, k))
  {
    if k > 0 {
      WalkAlways(cfg, states, steps, id, k - 1);
      InvAlways(cfg, states, steps, k - 1);
      var s, s', step := states[k - 1], states[k], steps[k - 1];
      assert Enabled(cfg, s, step) && s' == Apply(cfg, s, step);
      var cost := Interference(states, steps, id, k - 1);
      if id in s.calls {
        if step.TakenBy(id) {
          WalkStep(cfg, s, step, id, cost);
        } else {
          assert s'.calls[id] == s.calls[id];
          if Interferes(states, steps, id, k - 1) {
            WalkClimb(cfg, s.shared, s'.shared, s.calls[id], cost);
          }
        }
      }
    }
  }

  /**
   A call that met nothing but climbs, and no more interference than `n` plus
   the index it started on, comes back `ALL_SERVICES_FAILED` only if every
   service from that index to the end refused it.
   */
  lemma BudgetSuffices(cfg: Config, states: seq<System>, steps: seq<Step>, id: nat)
    requires cfg.Valid() && ValidRun(cfg, states, steps) && Starts(cfg, states) && OnlyClimbs(states, steps, id)
    requires var end := states[|steps|].calls;
      && id in end && end[id].Failed() && end[id].asked != []
      && Interference(states, steps, id, |steps|) <= cfg.n + end[id].asked[0]
    ensures var c := states[|steps|].calls[id];
      forall i :: c.asked[0] <= i < cfg.n ==> i in c.refused
  {
    WalkAlways(cfg, states, steps, id, |steps|);
  }

  /** One climb costs at most `n`: its height is below `n`, its landing one more. */
  lemma {:induction false} OneClimbCostsAtMostN(cfg: Config, states: seq<System>, steps: seq<Step>, id: nat, k: nat)
    requires cfg.Valid() && ValidRun(cfg, states, steps) && Starts(cfg, states) && k <= |steps|
    requires OnlyClimbs(states, steps, id) && ClimbsMet(states, steps, id, k) <= 1
    ensures Interference(states, steps, id, k) <= if ClimbsMet(states, steps, id, k) == 0 then 0 else cfg.n
  {
    if k > 0 {
      OneClimbCostsAtMostN(cfg, states, steps, id, k - 1);
      if Interferes(states, steps, id, k - 1) {
        InvAlways(cfg, states, steps, k - 1);
      }
    }
  }

  /** A failed call has asked somebody. */
  lemma FailedCallsAsked(cfg: Config, states: seq<System>, steps: seq<Step>, id: nat)
    requires cfg.Valid() && ValidRun(cfg, states, steps) && Starts(cfg, states) && OnlyClimbs(states, steps, id)
    requires id in states[|steps|].calls && states[|steps|].calls[id].Failed()
    ensures states[|steps|].calls[id].asked != []
  {
    WalkAlways(cfg, states, steps, id, |steps|);
  }

  /**
   The promise `execute` makes of its own loop: with at most one climb from
   outside, at any point whatever, a dropped call was refused by every service
   from the one it started on to the last.
   */
  lemma OneClimbIsTolerated(cfg: Config, states: seq<System>, steps: seq<Step>, id: nat)
    requires cfg.Valid() && ValidRun(cfg, states, steps) && Starts(cfg, states) && OnlyClimbs(states, steps, id)
    requires ClimbsMet(states, steps, id, |steps|) <= 1
    requires id in states[|steps|].calls && states[|steps|].calls[id].Failed()
    ensures var c := states[|steps|].calls[id];
      c.asked != [] && forall i :: c.asked[0] <= i < cfg.n ==> i in c.refused
  {
    FailedCallsAsked(cfg, states, steps, id);
    OneClimbCostsAtMostN(cfg, states, steps, id, |steps|);
    BudgetSuffices(cfg, states, steps, id);
  }

  /* -------------------- giving up -------------------- */

  /** The call has given up, counted or not. */
  predicate GaveUp(c: Call) {
    c.phase.Exhausted? || c.Failed()
  }

  /**
   A call gives up for one of two reasons only, in every run and whatever others do to
   the index: the last service refused it, or it has no turn left.
   */
  lemma {:induction false} NobodyGivesUpEarly(cfg: Config, states: seq<System>, steps: seq<Step>, id: nat, k: nat)
    requires cfg.Valid() && ValidRun(cfg, states, steps) && Starts(cfg, states) && k <= |steps|
    ensures id in states[k].calls && GaveUp(states[k].calls[id]) ==>
      cfg.n - 1 in states[k].calls[id].refused || states[k].calls[id].turnsLeft == 0
  {
    if k > 0 {
      NobodyGivesUpEarly(cfg, states, steps, id, k - 1);
      InvAlways(cfg, states, steps, k - 1);
      var s, step := states[k - 1], steps[k - 1];
      assert Enabled(cfg, s, step);
      if step == Turn(id) && |s.calls[id].tried| >= cfg.n {
        TriedAll(cfg, s.calls[id]);
      }
    }
  }

  /** While the call is under way, nobody else takes the work up. */
  ghost predicate NoClimbs(states: seq<System>, steps: seq<Step>, id: nat)
    requires |states| == |steps| + 1
  {
    forall k: nat :: k < |steps| && Interferes(states, steps, id, k) ==>
      states[k].shared.index < states[k + 1].shared.index
  }

  /** Every turn spent has brought the work at least one place down. */
  ghost predicate Hurries(cfg: Config, index: nat, c: Call) {
    var used := 2 * cfg.n - c.turnsLeft;
    match c.phase
    case AtLoop => used <= index
    case Asking(i) => used <= i + 1 && i <= index
    case Checking(i) => used <= i + 1 && i <= index
    case Done(Handled(_)) => true
    case _ => cfg.n - 1 in c.refused
  }

  lemma HurriesStep(cfg: Config, s: System, step: Step, id: nat)
    requires cfg.Valid() && Inv(cfg, s) && Enabled(cfg, s, step) && step.TakenBy(id)
    requires Hurries(cfg, s.shared.index, s.calls[id])
    ensures Hurries(cfg, Apply(cfg, s, step).shared.index, Apply(cfg, s, step).calls[id])
  {
    if step.Turn? && |s.calls[id].tried| >= cfg.n {
      TriedAll(cfg, s.calls[id]);
    }
  }

  lemma {:induction false} AlwaysHurries(cfg: Config, states: seq<System>, steps: seq<Step>, id: nat, k: nat)
    requires cfg.Valid() && ValidRun(cfg, states, steps) && Starts(cfg, states) && k <= |steps|
    requires NoClimbs(states, steps, id)
    ensures id in states[k].calls ==>
      (states[k].calls[id] == NewCall(cfg) || states[k].calls[id].asked != []) && Hurries(cfg, states[k].shared.index, states[k].calls[id])
  {
    if k > 0 {
      AlwaysHurries(cfg, states, steps, id, k - 1);
      InvAlways(cfg, states, steps, k - 1);
      var s, step := states[k - 1], steps[k - 1];
      assert Enabled(cfg, s, step) && states[k] == Apply(cfg, s, step);
      if id in s.calls {
        if step.TakenBy(id) {
          HurriesStep(cfg, s, step, id);
        } else {
          assert states[k].calls[id] == s.calls[id];
          assert Interferes(states, steps, id, k - 1) ==> s.shared.index < states[k].shared.index;
        }
      }
    }
  }

  /**
   Where others only ever take the work further down, no call runs out of turns: it
   retries on what is there now, and fails only when the last service has refused it.
   */
  lemma DescentsAreFollowed(cfg: Config, states: seq<System>, steps: seq<Step>, id: nat)
    requires cfg.Valid() && ValidRun(cfg, states, steps) && Starts(cfg, states) && NoClimbs(states, steps, id)
    requires id in states[|steps|].calls && states[|steps|].calls[id].Failed()
    ensures cfg.n - 1 in states[|steps|].calls[id].refused
  {
    AlwaysHurries(cfg, states, steps, id, |steps|);
  }
}

/** The budget buys no more than it is proved to: runs that overdraw it by one. */
module FailoverTight {
  import opened FailoverCore
  import opened FailoverRuns
  import opened FailoverBudget

  /** A run from the start of a chain, in which call 0 meets nothing but climbs. */
  datatype Trail = Trail(states: seq<System>, steps: seq<Step>) {
    ghost predicate Valid(cfg: Config) {
      ValidRun(cfg, states, steps) && Starts(cfg, states) && OnlyClimbs(states, steps, 0)
    }

    function End(): System
      requires |states| == |steps| + 1
    {
      states[|steps|]
    }

    ghost function Cost(): nat
      requires |states| == |steps| + 1 && OnlyClimbs(states, steps, 0)
    {
      Interference(states, steps, 0, |steps|)
    }
  }

  /** What a call met is settled once it has happened. */
  lemma {:induction false} InterferenceStays(r: Trail, more: Trail, k: nat)
    requires |r.states| == |r.steps| + 1 && |more.states| == |more.steps| + 1
    requires k <= |r.steps| && r.states <= more.states && r.steps <= more.steps
    requires OnlyClimbs(r.states, r.steps, 0) && OnlyClimbs(more.states, more.steps, 0)
    ensures Interference(more.states, more.steps, 0, k) == Interference(r.states, r.steps, 0, k)
  {
    if k > 0 {
      InterferenceStays(r, more, k - 1);
      assert Interferes(more.states, more.steps, 0, k - 1) <==> Interferes(r.states, r.steps, 0, k - 1);
    }
  }

  /** What one step of somebody else costs call 0. */
  function Met(s: System, step: Step, s': System): int {
    if && 0 in s.calls && s.calls[0].asked != [] && s.calls[0].Running()
       && !step.TakenBy(0) && s'.shared.index != s.shared.index
    then ClimbCost(s.shared, s'.shared, s.calls[0]) else 0
  }

  lemma Extend(cfg: Config, r: Trail, step: Step) returns (r': Trail)
    requires r.Valid(cfg) && Enabled(cfg, r.End(), step)
    requires step.TakenBy(0) || step.Begin? || step.BackUpgrade? || 0 !in r.End().calls
    ensures r'.Valid(cfg) && r'.End() == Apply(cfg, r.End(), step)
    ensures r'.Cost() == r.Cost() + Met(r.End(), step, r'.End())
  {
    r' := Trail(r.states + [Apply(cfg, r.End(), step)], r.steps + [step]);
    forall k: nat | k < |r'.steps| && Interferes(r'.states, r'.steps, 0, k)
      ensures r'.states[k + 1].shared.index < r'.states[k].shared.index
    {
      if k < |r.steps| {
        assert Interferes(r.states, r.steps, 0, k);
      }
    }
    InterferenceStays(r, r', |r.steps|);
  }

  /* -------------------- where call 0 stands -------------------- */

  /**
   Call 0 stands at the loop on service `i` with `left` turns, having been refused by
   everyone it asked and not having asked the last service. It started on `start`, or
   has not begun to ask and stands there.
   */
  ghost predicate Placed(cfg: Config, s: System, start: nat, begun: bool, i: nat, left: nat, climbs: nat) {
    && s.shared.index == i && |s.climbs| == climbs && s.shared.lastUpgrade == climbs as real * cfg.cooldown
    && 0 in s.calls && s.calls[0].phase.AtLoop? && s.calls[0].turnsLeft == left
    && s.calls[0].tried == s.calls[0].refused && cfg.n - 1 !in s.calls[0].tried
    && (if begun then s.calls[0].asked != [] && s.calls[0].asked[0] == start else s.calls[0].asked == [] && i == start)
  }

  ghost predicate Stands(cfg: Config, r: Trail, start: nat, begun: bool, i: nat, left: nat, climbs: nat, cost: nat) {
    r.Valid(cfg) && r.Cost() == cost && Placed(cfg, r.End(), start, begun, i, left, climbs)
  }

  /** One turn that ends one service further down. */
  lemma StepDown(cfg: Config, r: Trail, start: nat, begun: bool, i: nat, left: nat, climbs: nat, cost: nat) returns (r': Trail)
    requires Stands(cfg, r, start, begun, i, left, climbs, cost) && i + 1 < cfg.n && left > 0
    ensures Stands(cfg, r', start, true, i + 1, left - 1, climbs, cost)
  {
    var c := r.End().calls[0];
    InvAlways(cfg, r.states, r.steps, |r.steps|);
    assert CallOk(cfg, c);
    if |c.tried| >= cfg.n {
      TriedAll(cfg, c);
    }
    r' := Extend(cfg, r, Turn(0));
    if i !in c.tried {
      r' := Extend(cfg, r', Answer(0, false));
    }
    r' := Extend(cfg, r', Check(0));
  }

  lemma {:induction false} WalkDown(cfg: Config, r: Trail, start: nat, begun: bool, i: nat, left: nat, climbs: nat, cost: nat, goal: nat)
    returns (r': Trail)
    requires Stands(cfg, r, start, begun, i, left, climbs, cost) && i < goal < cfg.n && goal - i <= left
    ensures Stands(cfg, r', start, true, goal, left - (goal - i), climbs, cost)
    decreases goal - i
  {
    r' := StepDown(cfg, r, start, begun, i, left, climbs, cost);
    if i + 1 < goal {
      r' := WalkDown(cfg, r', start, true, i + 1, left - 1, climbs, cost, goal);
    }
  }

  /** A climb back to the first service, between two turns. */
  lemma ClimbToTop(cfg: Config, r: Trail, start: nat, i: nat, left: nat, climbs: nat, cost: nat) returns (r': Trail)
    requires Stands(cfg, r, start, true, i, left, climbs, cost) && 0 < i < cfg.n
    ensures Stands(cfg, r', start, true, 0, left, climbs + 1, cost + i)
  {
    var step := BackUpgrade(seq(cfg.n, _ => Yes), (climbs + 1) as real * cfg.cooldown);
    PlacedAtTop(cfg, r.End(), start, i, left, climbs, step);
    r' := Extend(cfg, r, step);
  }

  lemma PlacedAtTop(cfg: Config, s: System, start: nat, i: nat, left: nat, climbs: nat, step: Step)
    requires Placed(cfg, s, start, true, i, left, climbs) && 0 < i < cfg.n
    requires step == BackUpgrade(seq(cfg.n, _ => Yes), (climbs + 1) as real * cfg.cooldown)
    ensures Enabled(cfg, s, step) && Placed(cfg, Apply(cfg, s, step), start, true, 0, left, climbs + 1)
    ensures Met(s, step, Apply(cfg, s, step)) == i
  {
    ScaleSucc(climbs, cfg.cooldown);
    var top := FirstAnswering(cfg, step.probes, 0, i);
    assert top.Some? && top.value == 0;
  }

  /** Down from `i` to service `low`, and up to the first again. */
  lemma DownAndUp(cfg: Config, r: Trail, start: nat, begun: bool, i: nat, left: nat, climbs: nat, cost: nat, low: nat) returns (r': Trail)
    requires Stands(cfg, r, start, begun, i, left, climbs, cost) && i < low < cfg.n && low - i <= left
    ensures Stands(cfg, r', start, true, 0, left - (low - i), climbs + 1, cost + low)
  {
    r' := WalkDown(cfg, r, start, begun, i, left, climbs, cost, low);
    r' := ClimbToTop(cfg, r', start, low, left - (low - i), climbs, cost);
  }

  /* -------------------- the work is brought to the start -------------------- */

  /** Before call 0 begins, call 1 has been refused by everyone above service `i`. */
  ghost predicate OtherAt(cfg: Config, r: Trail, i: nat) {
    && r.Valid(cfg) && r.Cost() == 0
    && var s := r.End();
       && s.shared.index == i && s.climbs == [] && s.shared.lastUpgrade == 0.0
       && 0 !in s.calls && 1 in s.calls && s.calls[1].phase.AtLoop?
       && s.calls[1].tried == Below(i) && s.calls[1].turnsLeft == 2 * cfg.n - i
  }

  lemma {:induction false} BringTo(cfg: Config, i: nat) returns (r: Trail)
    requires i < cfg.n
    ensures OtherAt(cfg, r, i)
  {
    if i == 0 {
      r := Trail([System(Fresh, map[], [])], []);
      r := Extend(cfg, r, Begin(1));
    } else {
      r := BringTo(cfg, i - 1);
      r := Extend(cfg, r, Turn(1));
      r := Extend(cfg, r, Answer(1, false));
      r := Extend(cfg, r, Check(1));
    }
  }

  lemma BeginAt(cfg: Config, start: nat) returns (r: Trail)
    requires start < cfg.n
    ensures Stands(cfg, r, start, false, start, 2 * cfg.n, 0, 0)
  {
    r := BringTo(cfg, start);
    r := Extend(cfg, r, Begin(0));
  }

  /* -------------------- one more than the budget -------------------- */

  /** How many climbs it takes. */
  function ClimbsNeeded(cfg: Config, start: nat): nat {
    if start + 2 < cfg.n then 2 else 3
  }

  /** Down, up and down again until no turn is left, in front of the last service. */
  lemma SpendEveryTurn(cfg: Config, start: nat) returns (r: Trail)
    requires start + 1 < cfg.n
    ensures Stands(cfg, r, start, true, cfg.n - 1, 0, ClimbsNeeded(cfg, start), cfg.n + start + 1)
  {
    var n := cfg.n;
    r := BeginAt(cfg, start);
    r := DownAndUp(cfg, r, start, false, start, 2 * n, 0, 0, n - 1);
    if start + 2 < n {
      r := DownAndUp(cfg, r, start, true, 0, n + 1 + start, 1, n - 1, start + 2);
    } else {
      r := TwiceMore(cfg, r, start);
    }
    r := WalkDown(cfg, r, start, true, 0, n - 1, ClimbsNeeded(cfg, start), n + start + 1, n - 1);
  }

  /** From the last place but one a climb of `start + 2` is too high, so it is made in two. */
  lemma TwiceMore(cfg: Config, r: Trail, start: nat) returns (r': Trail)
    requires start + 2 == cfg.n && Stands(cfg, r, start, true, 0, 2 * cfg.n - 1, 1, cfg.n - 1)
    ensures Stands(cfg, r', start, true, 0, cfg.n - 1, 3, 2 * cfg.n - 1)
  {
    r' := DownAndUp(cfg, r, start, true, 0, 2 * cfg.n - 1, 1, cfg.n - 1, cfg.n - 1);
    r' := DownAndUp(cfg, r', start, true, 0, cfg.n, 2, 2 * cfg.n - 2, 1);
  }

  /**
   The budget is tight wherever a call starts above the last service: there is a run
   in which it meets nothing but climbs costing exactly `n + start + 1`, one more than
   the budget, and is dropped without the last service having been asked.
   */
  lemma BudgetIsTight(cfg: Config, start: nat) returns (r: Trail)
    requires start + 1 < cfg.n
    ensures r.Valid(cfg) && r.Cost() == cfg.n + start + 1 && |r.End().climbs| == ClimbsNeeded(cfg, start)
    ensures 0 in r.End().calls
    ensures var c := r.End().calls[0];
      c.Failed() && c.asked != [] && c.asked[0] == start && cfg.n - 1 !in c.asked && cfg.n - 1 !in c.refused
  {
    r := SpendEveryTurn(cfg, start);
    InvAlways(cfg, r.states, r.steps, |r.steps|);
    assert CallOk(cfg, r.End().calls[0]);
    r := Extend(cfg, r, Turn(0));
    r := Extend(cfg, r, Drop(0));
  }

  /**
   On the last service there is no such run: whatever it meets, a failed call that
   started there was refused by it, and that is everyone from its start to the end.
   */
  lemma NothingToMissOnTheLast(cfg: Config, states: seq<System>, steps: seq<Step>, id: nat)
    requires cfg.Valid() && ValidRun(cfg, states, steps) && Starts(cfg, states)
    requires var end := states[|steps|].calls; id in end && end[id].Failed() && end[id].asked != [] && end[id].asked[0] == cfg.n - 1
    ensures cfg.n - 1 in states[|steps|].calls[id].refused
  {
    EveryInterleavingIsSafe(cfg, states, steps, |steps|);
    assert id in FailedCalls(states[|steps|].calls);
  }

  /**
   So one climb is all the budget is for: on any three services or more two climbs
   can spend every turn, and the call is dropped with the last service unasked.
   */
  lemma TwoClimbsAreTooMany(cfg: Config) returns (r: Trail)
    requires cfg.n >= 3
    ensures r.Valid(cfg) && |r.End().climbs| == 2
    ensures 0 in r.End().calls && r.End().calls[0].Failed() && cfg.n - 1 !in r.End().calls[0].refused
  {
    r := BudgetIsTight(cfg, 0);
  }
}

/**
 Every call of every interleaving is a trace: what other threads do to it between two
 of its visits to the lock comes to one move of the index.
 */
module FailoverProjection {
  import opened Wrappers
  import opened Seqs
  import opened FailoverCore
  import opened FailoverRuns
  import opened FailoverBudget
  import opened FailoverTrace

  /** The services answer the call as `answers` says. */
  ghost predicate AnswersAs(states: seq<System>, steps: seq<Step>, id: nat, answers: seq<bool>)
    requires |states| == |steps| + 1
  {
    forall k :: 0 <= k < |steps| ==> AnswerAs(states[k], steps[k], id, answers)
  }

  predicate AnswerAs(s: System, step: Step, id: nat, answers: seq<bool>) {
    step.Answer? && step.id == id && id in s.calls && s.calls[id].phase.Asking? && s.calls[id].phase.service < |answers| ==>
      step.ok == answers[s.calls[id].phase.service]
  }

  function StartOf(visits: seq<Visit>): nat {
    if visits == [] then 0 else visits[0].before
  }

  function MovesOf(visits: seq<Visit>): seq<Option<nat>> {
    seq(|visits|, i requires 0 <= i < |visits| => Some(visits[i].after))
  }

  /** Whether this step is a visit of the call to the lock. */
  predicate IsVisit(cfg: Config, s: System, step: Step, id: nat) {
    id in s.calls && (step == Check(id) || (step == Turn(id) && MayTurn(cfg, s.calls[id])))
  }

  /** That visit: the index found, and where the call had left it. */
  function VisitAt(cfg: Config, answers: seq<bool>, s: System, id: nat, visits: seq<Visit>): Visit
    requires id in s.calls
  {
    Visit(if visits == [] then s.shared.index else IndexAfter(cfg, answers, StartOf(visits), visits),
          s.shared.index, s.calls[id])
  }

  /** The visits call `id` made in the first `k` steps. */
  function VisitsOf(cfg: Config, answers: seq<bool>, states: seq<System>, steps: seq<Step>, id: nat, k: nat): seq<Visit>
    requires |states| == |steps| + 1 && k <= |steps|
  {
    if k == 0 then []
    else
      var visits := VisitsOf(cfg, answers, states, steps, id, k - 1);
      if IsVisit(cfg, states[k - 1], steps[k - 1], id) then visits + [VisitAt(cfg, answers, states[k - 1], id, visits)]
      else visits
  }

  /* -------------------- the call is where its visits leave it -------------------- */

  ghost predicate IsTrace(cfg: Config, answers: seq<bool>, visits: seq<Visit>) {
    Traced(cfg, answers, MovesOf(visits), StartOf(visits), visits) && InRange(cfg, MovesOf(visits))
  }

  /** How the call of a run and the call of its trace correspond. */
  predicate Matches(cfg: Config, answers: seq<bool>, c: Call, traced: Call) {
    match c.phase
    case Asking(i) => i < |answers| && traced == Hear(c, answers[i])
    case Exhausted => RanOut(cfg, traced) && c == traced.(phase := Exhausted)
    case Done(AllServicesFailed) => RanOut(cfg, traced) && c == traced.(phase := Done(AllServicesFailed))
    case _ => traced == c
  }

  ghost predicate Follows(cfg: Config, answers: seq<bool>, s: System, id: nat, visits: seq<Visit>) {
    && IsTrace(cfg, answers, visits)
    && (id in s.calls ==> Matches(cfg, answers, s.calls[id], CallAfter(cfg, answers, visits)))
    && (id !in s.calls ==> visits == [])
    && (id in s.calls ==> (visits == [] <==> s.calls[id].asked == []))
  }

  lemma {:induction false} TracedUnderMore(
    cfg: Config, answers: seq<bool>, moves: seq<Option<nat>>, more: seq<Option<nat>>, start: nat, visits: seq<Visit>)
    requires Traced(cfg, answers, moves, start, visits) && |visits| <= |moves| && moves <= more
    ensures Traced(cfg, answers, more, start, visits)
  {
    if visits != [] {
      TracedUnderMore(cfg, answers, moves, more, start, Front(visits));
    }
  }

  lemma VisitExtends(cfg: Config, answers: seq<bool>, s: System, id: nat, visits: seq<Visit>)
    requires IsTrace(cfg, answers, visits) && id in s.calls && s.calls[id] == CallAfter(cfg, answers, visits)
    requires |answers| == cfg.n && s.shared.index < cfg.n
    requires var c := s.calls[id]; c.phase.Checking? || (c.phase.AtLoop? && MayTurn(cfg, c))
    ensures var v := VisitAt(cfg, answers, s, id, visits);
            && IsTrace(cfg, answers, visits + [v]) && VisitOk(cfg, answers, v)
            && IndexAfter(cfg, answers, StartOf(visits + [v]), visits + [v]) == Leaves(cfg, answers, v).0
            && CallAfter(cfg, answers, visits + [v]) == Leaves(cfg, answers, v).1
  {
    var v := VisitAt(cfg, answers, s, id, visits);
    var all := visits + [v];
    var start := StartOf(all);
    assert MovesOf(all) == MovesOf(visits) + [Some(v.after)];
    assert visits != [] ==> start == StartOf(visits);
    if visits != [] {
      TracedUnderMore(cfg, answers, MovesOf(visits), MovesOf(all), start, visits);
    }
    OneMoreVisit(cfg, answers, MovesOf(all), start, visits, v);
  }

  lemma FollowsStep(cfg: Config, answers: seq<bool>, s: System, step: Step, id: nat, visits: seq<Visit>)
    requires cfg.Valid() && |answers| == cfg.n && Inv(cfg, s) && Enabled(cfg, s, step)
    requires Follows(cfg, answers, s, id, visits) && AnswerAs(s, step, id, answers)
    ensures var more := if IsVisit(cfg, s, step, id) then visits + [VisitAt(cfg, answers, s, id, visits)] else visits;
            Follows(cfg, answers, Apply(cfg, s, step), id, more)
  {
    if IsVisit(cfg, s, step, id) {
      VisitExtends(cfg, answers, s, id, visits);
    }
  }

  /* -------------------- and met no more than the run says -------------------- */

  /** What lies between where the call left the index and where it is, if it climbed. */
  function Pending(left: nat, s: Shared, c: Call): nat {
    if s.index < left then ClimbCost(At(left), s, c) else 0
  }

  /** The trace accounts for no more interference and no more climbs than the call has met. */
  ghost predicate Paid(cfg: Config, answers: seq<bool>, s: System, id: nat, visits: seq<Visit>, cost: nat, climbs: nat) {
    && MetOnlyClimbs(visits) && Cost(visits) <= cost && ClimbsIn(visits) <= climbs
    && (id in s.calls && s.calls[id].Running() && s.calls[id].asked != [] ==>
          var left := IndexAfter(cfg, answers, StartOf(visits), visits);
          && s.shared.index <= left && Cost(visits) + Pending(left, s.shared, s.calls[id]) <= cost
          && ClimbsIn(visits) + (if s.shared.index < left then 1 else 0) <= climbs)
  }

  /** A visit takes over what was pending. */
  lemma VisitPays(cfg: Config, answers: seq<bool>, s: System, id: nat, visits: seq<Visit>, cost: nat, climbs: nat)
    requires id in s.calls && s.calls[id].Running() && (visits == [] <==> s.calls[id].asked == [])
    requires Paid(cfg, answers, s, id, visits, cost, climbs)
    ensures var all := visits + [VisitAt(cfg, answers, s, id, visits)];
            MetOnlyClimbs(all) && Cost(all) <= cost && ClimbsIn(all) <= climbs
  {
    var v := VisitAt(cfg, answers, s, id, visits);
    var all := visits + [v];
    assert Front(all) == visits && Last(all) == v;
    assert forall i :: 0 <= i < |visits| ==> all[i] == visits[i];
  }

  /** The run leaves the index where the visit does. */
  lemma VisitLeavesTheIndex(cfg: Config, answers: seq<bool>, s: System, step: Step, id: nat, visits: seq<Visit>)
    requires Enabled(cfg, s, step) && IsVisit(cfg, s, step, id)
    requires VisitOk(cfg, answers, VisitAt(cfg, answers, s, id, visits))
    ensures Apply(cfg, s, step).shared.index == Leaves(cfg, answers, VisitAt(cfg, answers, s, id, visits)).0
  {
  }

  lemma VisitStepPays(cfg: Config, answers: seq<bool>, s: System, step: Step, id: nat, visits: seq<Visit>, cost: nat, climbs: nat)
    requires cfg.Valid() && |answers| == cfg.n && Inv(cfg, s) && Enabled(cfg, s, step) && IsVisit(cfg, s, step, id)
    requires Follows(cfg, answers, s, id, visits) && Paid(cfg, answers, s, id, visits, cost, climbs)
    ensures Paid(cfg, answers, Apply(cfg, s, step), id, visits + [VisitAt(cfg, answers, s, id, visits)], cost, climbs)
  {
    VisitExtends(cfg, answers, s, id, visits);
    VisitPays(cfg, answers, s, id, visits, cost, climbs);
    VisitLeavesTheIndex(cfg, answers, s, step, id, visits);
  }

  /** Steps of the call away from the lock owe nothing. */
  lemma QuietStepPays(cfg: Config, answers: seq<bool>, s: System, step: Step, id: nat, visits: seq<Visit>, cost: nat, climbs: nat)
    requires Enabled(cfg, s, step) && step.TakenBy(id) && !IsVisit(cfg, s, step, id)
    requires Paid(cfg, answers, s, id, visits, cost, climbs)
    ensures Paid(cfg, answers, Apply(cfg, s, step), id, visits, cost, climbs)
  {
    var s' := Apply(cfg, s, step);
    assert s'.shared.index == s.shared.index;
    assert s'.calls[id].Running() ==> s.calls[id].phase.Asking? && s'.calls[id].asked == s.calls[id].asked;
  }

  lemma OtherStepPays(cfg: Config, answers: seq<bool>, s: System, step: Step, id: nat, visits: seq<Visit>, cost: nat, climbs: nat)
    requires Enabled(cfg, s, step) && !step.TakenBy(id) && id in s.calls && Paid(cfg, answers, s, id, visits, cost, climbs)
    requires var s' := Apply(cfg, s, step);
             s.calls[id].Running() && s.calls[id].asked != [] ==> s'.shared.index <= s.shared.index
    ensures var s' := Apply(cfg, s, step);
            var met := s.calls[id].asked != [] && s.calls[id].Running() && s'.shared.index != s.shared.index;
            Paid(cfg, answers, s', id, visits,
                 cost + (if met then ClimbCost(s.shared, s'.shared, s.calls[id]) else 0), climbs + (if met then 1 else 0))
  {
    assert Apply(cfg, s, step).calls[id] == s.calls[id];
  }

  lemma {:induction false} CallsFollowTheirVisits(
    cfg: Config, states: seq<System>, steps: seq<Step>, id: nat, answers: seq<bool>, k: nat)
    requires cfg.Valid() && |answers| == cfg.n && ValidRun(cfg, states, steps) && Starts(cfg, states) && k <= |steps|
    requires AnswersAs(states, steps, id, answers)
    ensures Follows(cfg, answers, states[k], id, VisitsOf(cfg, answers, states, steps, id, k))
  {
    if k > 0 {
      CallsFollowTheirVisits(cfg, states, steps, id, answers, k - 1);
      InvAlways(cfg, states, steps, k - 1);
      FollowsStep(cfg, answers, states[k - 1], steps[k - 1], id, VisitsOf(cfg, answers, states, steps, id, k - 1));
    }
  }

  lemma {:induction false} VisitsPay(
    cfg: Config, states: seq<System>, steps: seq<Step>, id: nat, answers: seq<bool>, k: nat)
    requires cfg.Valid() && |answers| == cfg.n && ValidRun(cfg, states, steps) && Starts(cfg, states) && k <= |steps|
    requires AnswersAs(states, steps, id, answers) && OnlyClimbs(states, steps, id)
    ensures Paid(cfg, answers, states[k], id, VisitsOf(cfg, answers, states, steps, id, k),
                 Interference(states, steps, id, k), ClimbsMet(states, steps, id, k))
  {
    if k > 0 {
      var s, step := states[k - 1], steps[k - 1];
      var visits := VisitsOf(cfg, answers, states, steps, id, k - 1);
      var cost, climbs := Interference(states, steps, id, k - 1), ClimbsMet(states, steps, id, k - 1);
      VisitsPay(cfg, states, steps, id, answers, k - 1);
      InvAlways(cfg, states, steps, k - 1);
      CallsFollowTheirVisits(cfg, states, steps, id, answers, k - 1);
      assert Enabled(cfg, s, step) && states[k] == Apply(cfg, s, step);
      if id in s.calls {
        if step.TakenBy(id) {
          if IsVisit(cfg, s, step, id) {
            VisitStepPays(cfg, answers, s, step, id, visits, cost, climbs);
          } else {
            QuietStepPays(cfg, answers, s, step, id, visits, cost, climbs);
          }
        } else {
          assert Interferes(states, steps, id, k - 1) ==> states[k].shared.index < s.shared.index;
          OtherStepPays(cfg, answers, s, step, id, visits, cost, climbs);
        }
      }
    }
  }

  /**
   Whatever the interleaving, a call does what its visits to the lock determine, so
   `execute` beside moves of the index is as general as the runs; and if the others
   only climbed, the trace shows nothing but climbs, no more of them and no more
   interference than the run.
   */
  lemma EveryCallIsATrace(cfg: Config, states: seq<System>, steps: seq<Step>, id: nat, answers: seq<bool>)
    requires cfg.Valid() && |answers| == cfg.n && ValidRun(cfg, states, steps) && Starts(cfg, states)
    requires AnswersAs(states, steps, id, answers) && id in states[|steps|].calls
    ensures var visits := VisitsOf(cfg, answers, states, steps, id, |steps|);
            && IsTrace(cfg, answers, visits)
            && Matches(cfg, answers, states[|steps|].calls[id], CallAfter(cfg, answers, visits))
            && (OnlyClimbs(states, steps, id) ==>
                  && MetOnlyClimbs(visits) && Cost(visits) <= Interference(states, steps, id, |steps|)
                  && ClimbsIn(visits) <= ClimbsMet(states, steps, id, |steps|))
  {
    CallsFollowTheirVisits(cfg, states, steps, id, answers, |steps|);
    if OnlyClimbs(states, steps, id) {
      VisitsPay(cfg, states, steps, id, answers, |steps|);
    }
  }
}

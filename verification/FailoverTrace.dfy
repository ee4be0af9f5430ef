/**
 One call of `execute` beside other threads, as the list of its visits to the lock.
 What the others do to it is where they have left the index each time it gets there.
 */
module FailoverTrace {
  import opened Wrappers
  import opened Seqs
  import opened FailoverCore
  import opened FailoverRuns
  import opened FailoverBudget

  /** The call left the index at `before`, found it at `after`, and stood in `call`. */
  datatype Visit = Visit(before: nat, after: nat, call: Call)

  /** The index other threads left behind by the p-th time the lock is taken, if they moved it. */
  function MoveAt(moves: seq<Option<nat>>, p: nat): Option<nat> {
    if p < |moves| then moves[p] else None
  }

  function Moved(moves: seq<Option<nat>>, p: nat, index: nat): nat {
    if MoveAt(moves, p).Some? then MoveAt(moves, p).value else index
  }

  predicate InRange(cfg: Config, moves: seq<Option<nat>>) {
    forall p :: 0 <= p < |moves| && moves[p].Some? ==> moves[p].value < cfg.n
  }

  function At(index: nat): Shared {
    Fresh.(index := index)
  }

  /** The loop guard. */
  predicate MayTurn(cfg: Config, c: Call) {
    |c.tried| < cfg.n && c.turnsLeft > 0
  }

  predicate VisitOk(cfg: Config, answers: seq<bool>, v: Visit) {
    && |answers| == cfg.n && v.after < cfg.n
    && (v.call.phase.Checking? || (v.call.phase.AtLoop? && MayTurn(cfg, v.call)))
  }

  /** Where a visit leaves the index and the call: the locked block, and the answer that follows it. */
  function Leaves(cfg: Config, answers: seq<bool>, v: Visit): (nat, Call)
    requires VisitOk(cfg, answers, v)
  {
    if v.call.phase.AtLoop? then
      var c := TakeTurn(cfg, At(v.after), v.call);
      (v.after, if c.phase.Asking? then Hear(c, answers[c.phase.service]) else c)
    else
      var (s, c) := CheckSwitch(cfg, At(v.after), v.call);
      (s.index, c)
  }

  /** Where the visits leave the index. */
  function IndexAfter(cfg: Config, answers: seq<bool>, start: nat, visits: seq<Visit>): nat {
    if visits == [] || !VisitOk(cfg, answers, Last(visits)) then start else Leaves(cfg, answers, Last(visits)).0
  }

  /** What they make of the call. */
  function CallAfter(cfg: Config, answers: seq<bool>, visits: seq<Visit>): Call {
    if visits == [] || !VisitOk(cfg, answers, Last(visits)) then NewCall(cfg) else Leaves(cfg, answers, Last(visits)).1
  }

  /** The visits of one call that starts on `start`: each begins where the one before ended. */
  predicate Traced(cfg: Config, answers: seq<bool>, moves: seq<Option<nat>>, start: nat, visits: seq<Visit>) {
    visits == [] ||
    (var front, v := Front(visits), Last(visits);
     && Traced(cfg, answers, moves, start, front) && VisitOk(cfg, answers, v)
     && v.before == IndexAfter(cfg, answers, start, front) && v.call == CallAfter(cfg, answers, front)
     && v.after == Moved(moves, |front|, v.before))
  }

  lemma OneMoreVisit(cfg: Config, answers: seq<bool>, moves: seq<Option<nat>>, start: nat, visits: seq<Visit>, v: Visit)
    requires Traced(cfg, answers, moves, start, visits) && VisitOk(cfg, answers, v)
    requires v.before == IndexAfter(cfg, answers, start, visits) && v.call == CallAfter(cfg, answers, visits)
    requires v.after == Moved(moves, |visits|, v.before)
    ensures Traced(cfg, answers, moves, start, visits + [v])
    ensures IndexAfter(cfg, answers, start, visits + [v]) == Leaves(cfg, answers, v).0
    ensures CallAfter(cfg, answers, visits + [v]) == Leaves(cfg, answers, v).1
  {
    assert Front(visits + [v]) == visits && Last(visits + [v]) == v;
  }

  /* -------------------- what the others did -------------------- */

  /** From its first read on, the call found the index moved by nobody else, or up. */
  predicate MetOnlyClimbs(visits: seq<Visit>) {
    forall i :: 0 <= i < |visits| && visits[i].call.asked != [] ==> visits[i].after <= visits[i].before
  }

  predicate Climbed(v: Visit) {
    v.call.asked != [] && v.after < v.before
  }

  /** The interference met: the heights of the climbs, and one more for each inside a turn. */
  function Cost(visits: seq<Visit>): nat {
    if visits == [] then 0
    else
      var v := Last(visits);
      Cost(Front(visits)) + if Climbed(v) then ClimbCost(At(v.before), At(v.after), v.call) else 0
  }

  function ClimbsIn(visits: seq<Visit>): nat {
    if visits == [] then 0 else ClimbsIn(Front(visits)) + if Climbed(Last(visits)) then 1 else 0
  }

  /* -------------------- what every visit keeps -------------------- */

  /** What is known of the call at any of its visits. */
  ghost predicate Sound(cfg: Config, answers: seq<bool>, start: nat, visits: seq<Visit>) {
    var index, c := IndexAfter(cfg, answers, start, visits), CallAfter(cfg, answers, visits);
    && index < cfg.n && CallOk(cfg, c) && |answers| == cfg.n
    && (forall i :: i in c.refused ==> !answers[i])
    && (c.phase.Done? ==> c.phase.outcome.Handled? && answers[c.phase.outcome.taker])
    && !c.phase.Asking?
    && (visits != [] ==> c.asked != [])
    && (MetOnlyClimbs(visits) ==> Walk(cfg, At(index), c, Cost(visits)))
  }

  lemma MoveKeepsWalk(cfg: Config, answers: seq<bool>, start: nat, visits: seq<Visit>, v: Visit)
    requires cfg.Valid() && Sound(cfg, answers, start, visits) && VisitOk(cfg, answers, v)
    requires v.before == IndexAfter(cfg, answers, start, visits) && v.call == CallAfter(cfg, answers, visits)
    ensures MetOnlyClimbs(visits + [v]) ==> Walk(cfg, At(v.after), v.call, Cost(visits + [v]))
  {
    var all := visits + [v];
    assert Front(all) == visits && Last(all) == v;
    if MetOnlyClimbs(all) {
      assert forall i :: 0 <= i < |visits| ==> all[i] == visits[i];
      assert all[|visits|] == v;
      if Climbed(v) {
        WalkClimb(cfg, At(v.before), At(v.after), v.call, Cost(visits));
      }
    }
  }

  lemma TurnIsSound(cfg: Config, answers: seq<bool>, start: nat, visits: seq<Visit>, v: Visit)
    requires cfg.Valid() && Sound(cfg, answers, start, visits) && VisitOk(cfg, answers, v) && v.call.phase.AtLoop?
    requires v.before == IndexAfter(cfg, answers, start, visits) && v.call == CallAfter(cfg, answers, visits)
    ensures Sound(cfg, answers, start, visits + [v])
  {
    var s, all := At(v.after), visits + [v];
    assert Last(all) == v;
    MoveKeepsWalk(cfg, answers, start, visits, v);
    TurnKeepsCallOk(cfg, s, v.call);
    if MetOnlyClimbs(all) {
      WalkTurn(cfg, s, v.call, Cost(all));
    }
    var c := TakeTurn(cfg, s, v.call);
    if c.phase.Asking? {
      var ok := answers[c.phase.service];
      HearKeepsCallOk(cfg, c, ok);
      if MetOnlyClimbs(all) {
        WalkHear(cfg, s, c, ok, Cost(all));
      }
    }
  }

  lemma CheckIsSound(cfg: Config, answers: seq<bool>, start: nat, visits: seq<Visit>, v: Visit)
    requires cfg.Valid() && Sound(cfg, answers, start, visits) && VisitOk(cfg, answers, v) && v.call.phase.Checking?
    requires v.before == IndexAfter(cfg, answers, start, visits) && v.call == CallAfter(cfg, answers, visits)
    ensures Sound(cfg, answers, start, visits + [v])
  {
    var all := visits + [v];
    assert Last(all) == v;
    MoveKeepsWalk(cfg, answers, start, visits, v);
    if MetOnlyClimbs(all) {
      WalkCheck(cfg, At(v.after), v.call, Cost(all));
    }
  }

  lemma {:induction false} TracesAreSound(cfg: Config, answers: seq<bool>, moves: seq<Option<nat>>, start: nat, visits: seq<Visit>)
    requires cfg.Valid() && |answers| == cfg.n && start < cfg.n && Traced(cfg, answers, moves, start, visits)
    ensures Sound(cfg, answers, start, visits)
  {
    if visits != [] {
      var front, v := Front(visits), Last(visits);
      TracesAreSound(cfg, answers, moves, start, front);
      assert front + [v] == visits;
      if v.call.phase.AtLoop? {
        TurnIsSound(cfg, answers, start, front, v);
      } else {
        CheckIsSound(cfg, answers, start, front, v);
      }
    }
  }

  /* -------------------- how a call ends -------------------- */

  /** The call has run out of services or of turns. */
  predicate RanOut(cfg: Config, c: Call) {
    c.phase.Exhausted? || (c.phase.AtLoop? && !MayTurn(cfg, c))
  }

  lemma {:induction false} OneClimbCosts(cfg: Config, answers: seq<bool>, moves: seq<Option<nat>>, start: nat, visits: seq<Visit>)
    requires cfg.Valid() && |answers| == cfg.n && start < cfg.n && Traced(cfg, answers, moves, start, visits)
    requires ClimbsIn(visits) <= 1
    ensures Cost(visits) <= if ClimbsIn(visits) == 0 then 0 else cfg.n
  {
    if visits != [] {
      OneClimbCosts(cfg, answers, moves, start, Front(visits));
      TracesAreSound(cfg, answers, moves, start, Front(visits));
    }
  }

  /**
   A call that ran out, having met nothing but climbs that cost at most `n` plus the
   index it started on, or no more than one climb, was refused by every service from
   there to the end.
   */
  lemma RanOutMeansRefused(cfg: Config, answers: seq<bool>, moves: seq<Option<nat>>, start: nat, visits: seq<Visit>)
    requires cfg.Valid() && |answers| == cfg.n && start < cfg.n && Traced(cfg, answers, moves, start, visits)
    requires var c := CallAfter(cfg, answers, visits);
             RanOut(cfg, c) && MetOnlyClimbs(visits)
    ensures var c := CallAfter(cfg, answers, visits);
            c.asked != [] &&
            (Cost(visits) <= cfg.n + c.asked[0] || ClimbsIn(visits) <= 1 ==>
              forall i :: c.asked[0] <= i < cfg.n ==> !answers[i])
  {
    var c, index := CallAfter(cfg, answers, visits), IndexAfter(cfg, answers, start, visits);
    TracesAreSound(cfg, answers, moves, start, visits);
    if c.phase.AtLoop? {
      WalkTurn(cfg, At(index), c, Cost(visits));
    }
    if ClimbsIn(visits) <= 1 {
      OneClimbCosts(cfg, answers, moves, start, visits);
    }
  }

  /** From its first read on, nobody else was found to have taken the work up. */
  predicate MetNoClimbs(visits: seq<Visit>) {
    forall i :: 0 <= i < |visits| && visits[i].call.asked != [] ==> visits[i].before <= visits[i].after
  }

  /** A call runs out only refused by the last service or without a turn left. */
  lemma RanOutForAReason(cfg: Config, answers: seq<bool>, moves: seq<Option<nat>>, start: nat, visits: seq<Visit>)
    requires cfg.Valid() && |answers| == cfg.n && start < cfg.n && Traced(cfg, answers, moves, start, visits)
    requires RanOut(cfg, CallAfter(cfg, answers, visits))
    ensures var c := CallAfter(cfg, answers, visits); cfg.n - 1 in c.refused || c.turnsLeft == 0
  {
    var c := CallAfter(cfg, answers, visits);
    TracesAreSound(cfg, answers, moves, start, visits);
    if c.phase.AtLoop? {
      if |c.tried| >= cfg.n {
        TriedAll(cfg, c);
      }
    } else {
      TracesAreSound(cfg, answers, moves, start, Front(visits));
      StuckOnTheLast(cfg, answers, Last(visits));
    }
  }

  /** A visit ends in giving up only on the last service. */
  lemma StuckOnTheLast(cfg: Config, answers: seq<bool>, v: Visit)
    requires VisitOk(cfg, answers, v) && CallOk(cfg, v.call) && Leaves(cfg, answers, v).1.phase.Exhausted?
    ensures cfg.n - 1 in Leaves(cfg, answers, v).1.refused
  {
  }

  /** One visit of a call that was not taken up keeps it in a hurry. */
  lemma VisitHurries(cfg: Config, answers: seq<bool>, v: Visit)
    requires cfg.Valid() && VisitOk(cfg, answers, v) && CallOk(cfg, v.call) && Hurries(cfg, v.after, v.call)
    ensures Hurries(cfg, Leaves(cfg, answers, v).0, Leaves(cfg, answers, v).1)
  {
    if Leaves(cfg, answers, v).1.phase.Exhausted? {
      StuckOnTheLast(cfg, answers, v);
    }
  }

  lemma {:induction false} TracesHurry(cfg: Config, answers: seq<bool>, moves: seq<Option<nat>>, start: nat, visits: seq<Visit>)
    requires cfg.Valid() && |answers| == cfg.n && start < cfg.n && Traced(cfg, answers, moves, start, visits)
    requires MetNoClimbs(visits)
    ensures Hurries(cfg, IndexAfter(cfg, answers, start, visits), CallAfter(cfg, answers, visits))
  {
    if visits == [] {
      assert CallAfter(cfg, answers, visits) == NewCall(cfg);
    } else {
      var front, v := Front(visits), Last(visits);
      assert MetNoClimbs(front) by {
        assert forall i :: 0 <= i < |front| ==> visits[i] == front[i];
      }
      TracesHurry(cfg, answers, moves, start, front);
      TracesAreSound(cfg, answers, moves, start, front);
      assert v == visits[|front|];
      if front == [] {
        assert v.call == NewCall(cfg);
      } else {
        assert v.before <= v.after;
      }
      VisitHurries(cfg, answers, v);
    }
  }

  /** Where others only took the work further down, it was refused by the last service. */
  lemma RanOutAtTheEnd(cfg: Config, answers: seq<bool>, moves: seq<Option<nat>>, start: nat, visits: seq<Visit>)
    requires cfg.Valid() && |answers| == cfg.n && start < cfg.n && Traced(cfg, answers, moves, start, visits)
    requires RanOut(cfg, CallAfter(cfg, answers, visits)) && MetNoClimbs(visits)
    ensures cfg.n - 1 in CallAfter(cfg, answers, visits).refused
  {
    TracesHurry(cfg, answers, moves, start, visits);
    TracesAreSound(cfg, answers, moves, start, visits);
    RanOutForAReason(cfg, answers, moves, start, visits);
  }

  /**
   What an answer of `execute` says. The call asked nobody twice and whoever it
   counts as refusing would not have taken it; handled, it is in the hands of a
   service that takes it; failed, everyone it asked refused, it was refused by the
   last service or had no turn left, by the last service if nobody climbed, and if all
   the others did was climb, once or within the budget, by everyone from the service
   it started on to the last.
   */
  ghost predicate Honest(cfg: Config, answers: seq<bool>, visits: seq<Visit>, outcome: Outcome) {
    var c := CallAfter(cfg, answers, visits);
    && |answers| == cfg.n && CallOk(cfg, c) && (forall i :: i in c.refused ==> !answers[i])
    && match outcome
       case Handled(i) => c.phase == Done(Handled(i)) && i < cfg.n && answers[i]
       case AllServicesFailed =>
         && RanOut(cfg, c) && c.asked != [] && (forall i :: i in c.asked ==> i in c.refused)
         && (cfg.n - 1 in c.refused || c.turnsLeft == 0) && (MetNoClimbs(visits) ==> cfg.n - 1 in c.refused)
         && (MetOnlyClimbs(visits) && (ClimbsIn(visits) <= 1 || Cost(visits) <= cfg.n + c.asked[0]) ==>
               forall i :: c.asked[0] <= i < cfg.n ==> !answers[i])
  }

  lemma OutcomeIsHonest(cfg: Config, answers: seq<bool>, moves: seq<Option<nat>>, start: nat, visits: seq<Visit>, outcome: Outcome)
    requires cfg.Valid() && |answers| == cfg.n && start < cfg.n && Traced(cfg, answers, moves, start, visits)
    requires var c := CallAfter(cfg, answers, visits);
             if outcome.Handled? then c.phase == Done(outcome) else RanOut(cfg, c)
    ensures Honest(cfg, answers, visits, outcome)
  {
    TracesAreSound(cfg, answers, moves, start, visits);
    if outcome.AllServicesFailed? {
      RanOutForAReason(cfg, answers, moves, start, visits);
      if MetNoClimbs(visits) {
        RanOutAtTheEnd(cfg, answers, moves, start, visits);
      }
      if MetOnlyClimbs(visits) {
        RanOutMeansRefused(cfg, answers, moves, start, visits);
      }
    }
  }

  /* -------------------- a call alone -------------------- */

  /** Everyone from `start` to just above `index` was tried and refused, at one turn each. */
  ghost predicate Descended(cfg: Config, answers: seq<bool>, start: nat, index: nat, c: Call)
    requires |answers| == cfg.n
  {
    && start <= index < cfg.n
    && match c.phase
       case AtLoop => Tried(c, start, index) && c.turnsLeft == 2 * cfg.n - (index - start) && Refuse(answers, start, index)
       case Checking(i) => i == index && Tried(c, start, index + 1) && c.turnsLeft == 2 * cfg.n - (index - start) - 1 && Refuse(answers, start, index + 1)
       case Exhausted => index == cfg.n - 1 && Refuse(answers, start, cfg.n)
       case Done(Handled(i)) => i == index && Refuse(answers, start, index)
       case _ => false
  }

  ghost predicate Tried(c: Call, start: nat, end: nat) {
    forall i :: i in c.tried <==> start <= i < end
  }

  predicate Refuse(answers: seq<bool>, start: nat, end: nat)
    requires end <= |answers|
  {
    forall i :: start <= i < end ==> !answers[i]
  }

  /** Such a call always has a service left to try and a turn to try it in. */
  lemma AloneNeverRunsOut(cfg: Config, start: nat, index: nat, c: Call)
    requires CallOk(cfg, c) && start <= index < cfg.n && Tried(c, start, index) && c.turnsLeft == 2 * cfg.n - (index - start)
    ensures MayTurn(cfg, c)
  {
    assert cfg.n - 1 !in c.tried;
    if |c.tried| >= cfg.n {
      TriedAll(cfg, c);
    }
  }

  lemma DescendTurn(cfg: Config, answers: seq<bool>, start: nat, v: Visit)
    requires VisitOk(cfg, answers, v) && v.call.phase.AtLoop? && Descended(cfg, answers, start, v.after, v.call)
    ensures Descended(cfg, answers, start, Leaves(cfg, answers, v).0, Leaves(cfg, answers, v).1)
  {
    assert v.after !in v.call.tried;
  }

  lemma DescendCheck(cfg: Config, answers: seq<bool>, start: nat, v: Visit)
    requires VisitOk(cfg, answers, v) && v.call.phase.Checking? && Descended(cfg, answers, start, v.after, v.call)
    ensures Descended(cfg, answers, start, Leaves(cfg, answers, v).0, Leaves(cfg, answers, v).1)
  {
  }

  /** With nobody else about, a call meets nothing. */
  lemma {:induction false} AloneItMeetsNothing(cfg: Config, answers: seq<bool>, start: nat, visits: seq<Visit>)
    requires Traced(cfg, answers, [], start, visits)
    ensures MetOnlyClimbs(visits) && Cost(visits) == 0
  {
    if visits != [] {
      var front := Front(visits);
      AloneItMeetsNothing(cfg, answers, start, front);
      assert forall i :: 0 <= i < |front| ==> visits[i] == front[i];
      assert Last(visits).after == Last(visits).before;
    }
  }

  /** And walks straight down. */
  lemma {:induction false} AloneItDescends(cfg: Config, answers: seq<bool>, start: nat, visits: seq<Visit>)
    requires cfg.Valid() && |answers| == cfg.n && start < cfg.n && Traced(cfg, answers, [], start, visits)
    ensures Descended(cfg, answers, start, IndexAfter(cfg, answers, start, visits), CallAfter(cfg, answers, visits))
  {
    if visits == [] {
      assert CallAfter(cfg, answers, visits) == NewCall(cfg);
    } else {
      var v := Last(visits);
      AloneItDescends(cfg, answers, start, Front(visits));
      assert v.after == v.before;
      if v.call.phase.AtLoop? {
        DescendTurn(cfg, answers, start, v);
      } else {
        DescendCheck(cfg, answers, start, v);
      }
    }
  }

  /** So it ends on the first taker from where it started, or refused by all from there on. */
  lemma AloneItEnds(cfg: Config, answers: seq<bool>, start: nat, visits: seq<Visit>)
    requires cfg.Valid() && |answers| == cfg.n && start < cfg.n && Traced(cfg, answers, [], start, visits)
    ensures MetOnlyClimbs(visits) && Cost(visits) == 0
    ensures var c, index := CallAfter(cfg, answers, visits), IndexAfter(cfg, answers, start, visits);
            && (c.phase.Done? ==> c.phase == Done(Handled(index)) && start <= index < cfg.n && Refuse(answers, start, index))
            && (RanOut(cfg, c) ==> index == cfg.n - 1 && Refuse(answers, start, cfg.n))
  {
    var c, index := CallAfter(cfg, answers, visits), IndexAfter(cfg, answers, start, visits);
    AloneItMeetsNothing(cfg, answers, start, visits);
    AloneItDescends(cfg, answers, start, visits);
    TracesAreSound(cfg, answers, [], start, visits);
    if c.phase.AtLoop? {
      AloneNeverRunsOut(cfg, start, index, c);
    }
  }
}

/** The failover chain as an object: a list of services and the index of the active one. */
module FailoverService {
  import opened Wrappers
  import opened Seqs
  import opened FailoverCore
  import opened FailoverTrace

  class FailoverService {
    const cfg: Config
    var currentIndex: nat
    var lastUpgradeAttempt: real
    var lastCheck: CheckOutcome
    var droppedCalls: nat

    ghost predicate Valid()
      reads this
    {
      cfg.Valid() && currentIndex < cfg.n
    }

    ghost function View(): Shared
      reads this
    {
      Shared(currentIndex, lastUpgradeAttempt, lastCheck, droppedCalls)
    }

    constructor (cfg: Config)
      requires cfg.Valid()
      ensures Valid() && this.cfg == cfg && View() == Fresh
    {
      this.cfg := cfg;
      currentIndex, lastUpgradeAttempt, lastCheck, droppedCalls := 0, 0.0, NotRun, 0;
    }

    /** An empty list of services is refused. */
    static method Build(cfg: Config) returns (r: Option<FailoverService>)
      ensures r.None? <==> cfg.n == 0
      ensures r.Some? ==> fresh(r.value) && r.value.Valid() && r.value.cfg == cfg && r.value.View() == Fresh
    {
      if cfg.n == 0 {
        return None;
      }
      var service := new FailoverService(cfg);
      return Some(service);
    }

    /** The half of a round that looks down the list, once the holder has said no. */
    method AttemptDemotion(probes: seq<Probe>) returns (moved: bool)
      requires Valid() && |probes| == cfg.n
      modifies this
      ensures Valid() && (View(), moved) == Demote(cfg, old(View()), probes)
    {
      if !cfg.hasChecker {
        return false;
      }
      match probes[currentIndex] {
        case Yes =>
          lastCheck := Healthy;
          return false;
        case Raised =>
          lastCheck := ProbeFailed;
          return false;
        case No =>
      }
      lastCheck := Unhealthy;
      for idx := currentIndex + 1 to cfg.n
        invariant View() == old(View()).(lastCheck := Unhealthy)
        invariant FirstAnswering(cfg, probes, currentIndex + 1, cfg.n) == FirstAnswering(cfg, probes, idx, cfg.n)
      {
        if probes[idx] == Yes {
          currentIndex := idx;
          lastCheck := Healthy;
          return true;
        }
      }
      return false;
    }

    /** Take the work back up, once per cooldown. */
    method AttemptUpgrade(probes: seq<Probe>, now: real)
      requires Valid() && |probes| == cfg.n
      modifies this
      ensures Valid() && View() == Upgrade(cfg, old(View()), probes, now)
    {
      if currentIndex == 0 {
        return;
      }
      if now - lastUpgradeAttempt < cfg.cooldown {
        return;
      }
      lastUpgradeAttempt := now;
      for idx := 0 to currentIndex
        invariant View() == old(View()).(lastUpgrade := now)
        invariant FirstAnswering(cfg, probes, 0, currentIndex) == FirstAnswering(cfg, probes, idx, currentIndex)
      {
        if !cfg.hasChecker || probes[idx] == Yes {
          currentIndex := idx;
          lastCheck := Healthy;
          return;
        }
      }
    }

    /** A whole round: down, or else perhaps up. */
    method RunCheck(probes: seq<Probe>, now: real)
      requires Valid() && |probes| == cfg.n
      modifies this
      ensures Valid() && View() == Round(cfg, old(View()), probes, now)
    {
      var moved := AttemptDemotion(probes);
      if !moved {
        AttemptUpgrade(probes, now);
      }
    }

    /** Move the work one place down the list, if there is one. */
    method SwitchToNextService() returns (moved: bool)
      requires Valid()
      modifies `currentIndex
      ensures Valid() && (View(), moved) == SwitchToNext(cfg, old(View()))
    {
      var nextIndex := currentIndex + 1;
      if nextIndex >= cfg.n {
        return false;
      }
      currentIndex := nextIndex;
      return true;
    }

    /** Takes the lock, and finds the index where the others have left it. */
    method TakeLock(answers: seq<bool>, moves: seq<Option<nat>>, p: nat, ghost start: nat, ghost visits: seq<Visit>)
      returns (ghost visited: seq<Visit>)
      requires Valid() && |answers| == cfg.n && InRange(cfg, moves) && p == |visits|
      requires Traced(cfg, answers, moves, start, visits) && currentIndex == IndexAfter(cfg, answers, start, visits)
      requires var c := CallAfter(cfg, answers, visits); c.phase.Checking? || (c.phase.AtLoop? && MayTurn(cfg, c))
      modifies `currentIndex
      ensures Valid() && visited == visits + [Visit(old(currentIndex), currentIndex, CallAfter(cfg, answers, visits))]
      ensures VisitOk(cfg, answers, Last(visited)) && Traced(cfg, answers, moves, start, visited)
      ensures IndexAfter(cfg, answers, start, visited) == Leaves(cfg, answers, Last(visited)).0
      ensures CallAfter(cfg, answers, visited) == Leaves(cfg, answers, Last(visited)).1
    {
      ghost var before := currentIndex;
      if MoveAt(moves, p).Some? {
        currentIndex := MoveAt(moves, p).value;
      }
      ghost var v := Visit(before, currentIndex, CallAfter(cfg, answers, visits));
      OneMoreVisit(cfg, answers, moves, start, visits, v);
      visited := visits + [v];
    }

    /** The loop of `execute`: turn after turn, until a service takes the call or nothing is left. */
    method TryServices(answers: seq<bool>, moves: seq<Option<nat>>) returns (taker: Option<nat>, ghost visits: seq<Visit>)
      requires Valid() && |answers| == cfg.n && InRange(cfg, moves)
      modifies `currentIndex
      ensures Valid() && Traced(cfg, answers, moves, old(currentIndex), visits)
      ensures currentIndex == IndexAfter(cfg, answers, old(currentIndex), visits)
      ensures var c := CallAfter(cfg, answers, visits);
              if taker.Some? then c.phase == Done(Handled(taker.value)) else RanOut(cfg, c)
    {
      ghost var start := currentIndex;
      var tried: set<nat> := {};
      var turnsLeft: nat := 2 * cfg.n;
      var p := 0;
      visits := [];
      while |tried| < cfg.n && turnsLeft > 0
        invariant p == |visits| && On(answers, moves, start, visits) && Stands(answers, visits, tried, turnsLeft)
        decreases turnsLeft
      {
        turnsLeft := turnsLeft - 1;
        var index, taken;
        index, taken, visits := ReadAndAsk(answers, moves, p, tried, start, visits);
        tried := tried + {index};
        if taken {
          return Some(index), visits;
        }
        var stuck;
        stuck, visits := MoveOn(answers, moves, p + 1, index, start, visits);
        p := p + 2;
        if stuck {
          return None, visits;
        }
      }
      taker := None;
    }

    /** The visits so far are those of this call, and the index is where they left it. */
    ghost predicate On(answers: seq<bool>, moves: seq<Option<nat>>, start: nat, visits: seq<Visit>)
      reads this
    {
      && Valid() && |answers| == cfg.n && InRange(cfg, moves) && Traced(cfg, answers, moves, start, visits)
      && currentIndex == IndexAfter(cfg, answers, start, visits)
    }

    /** The call is back at its loop with these locals. */
    ghost predicate Stands(answers: seq<bool>, visits: seq<Visit>, tried: set<nat>, turnsLeft: nat) {
      var c := CallAfter(cfg, answers, visits);
      c.phase.AtLoop? && c.tried == tried && c.turnsLeft == turnsLeft
    }

    /**
     The first half of a turn: read the index under the lock and, unless it was
     tried already, call the service it names.
     */
    method ReadAndAsk(answers: seq<bool>, moves: seq<Option<nat>>, p: nat, tried: set<nat>, ghost start: nat, ghost visits: seq<Visit>)
      returns (index: nat, taken: bool, ghost visited: seq<Visit>)
      requires p == |visits| && On(answers, moves, start, visits)
      requires var c := CallAfter(cfg, answers, visits); c.phase.AtLoop? && c.tried == tried && MayTurn(cfg, c)
      modifies `currentIndex
      ensures |visited| == p + 1 && On(answers, moves, start, visited) && currentIndex == index
      ensures var c, c' := CallAfter(cfg, answers, visits), CallAfter(cfg, answers, visited);
              && c'.tried == tried + {index} && c'.turnsLeft == c.turnsLeft - 1
              && c'.phase == if taken then Done(Handled(index)) else Checking(index)
    {
      visited := TakeLock(answers, moves, p, start, visits);
      index := currentIndex;
      taken := index !in tried && answers[index];
      assert index in tried ==> tried + {index} == tried;
    }

    /** The second half: move the work on, unless somebody else already has. */
    method MoveOn(answers: seq<bool>, moves: seq<Option<nat>>, p: nat, index: nat, ghost start: nat, ghost visits: seq<Visit>)
      returns (stuck: bool, ghost visited: seq<Visit>)
      requires p == |visits| && On(answers, moves, start, visits)
      requires CallAfter(cfg, answers, visits).phase == Checking(index)
      modifies `currentIndex
      ensures |visited| == p + 1 && On(answers, moves, start, visited)
      ensures CallAfter(cfg, answers, visited) == CallAfter(cfg, answers, visits).(phase := if stuck then Exhausted else AtLoop)
    {
      visited := TakeLock(answers, moves, p, start, visits);
      stuck := false;
      if currentIndex == index {
        var moved := SwitchToNextService();
        stuck := !moved;
      }
    }

    /**
     Call a method on the active service, walking down the list as services
     throw. `answers` says which services would take the call; `moves` is where
     other threads have put the index each time this call takes the lock, and
     `visits` is what came of it.

     Alone, the call lands on the first taker at or below the active service
     and leaves the work there. Beside other threads it asks nobody twice and
     nobody it reports as refusing would have taken it; and if all they did was
     climb, once or within the budget, a dropped call was refused by every service
     from the one it started on to the end.
     */
    method Execute(answers: seq<bool>, moves: seq<Option<nat>>) returns (outcome: Outcome, ghost visits: seq<Visit>)
      requires Valid() && |answers| == cfg.n && InRange(cfg, moves)
      modifies `currentIndex, `droppedCalls
      ensures Valid() && Traced(cfg, answers, moves, old(currentIndex), visits)
      ensures currentIndex == IndexAfter(cfg, answers, old(currentIndex), visits)
      ensures droppedCalls == old(droppedCalls) + if outcome.AllServicesFailed? then 1 else 0
      ensures Honest(cfg, answers, visits, outcome)
      ensures moves == [] ==> MetOnlyClimbs(visits) && Cost(visits) == 0
      ensures moves == [] && outcome.Handled? ==>
        outcome.taker == currentIndex >= old(currentIndex) && Refuse(answers, old(currentIndex), currentIndex)
      ensures moves == [] && outcome.AllServicesFailed? ==>
        currentIndex == cfg.n - 1 && Refuse(answers, old(currentIndex), cfg.n)
    {
      var taker;
      taker, visits := TryServices(answers, moves);
      OutcomeIsHonest(cfg, answers, moves, old(currentIndex), visits, if taker.Some? then Handled(taker.value) else AllServicesFailed);
      if moves == [] {
        AloneItEnds(cfg, answers, old(currentIndex), visits);
      }
      if taker.Some? {
        return Handled(taker.value), visits;
      }
      droppedCalls := droppedCalls + 1;
      outcome := AllServicesFailed;
    }
  }
}

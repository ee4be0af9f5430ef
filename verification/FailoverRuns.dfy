/**
 Every interleaving of any number of calls and background rounds.

 A run is a sequence of atomic steps: one locked block, or one answer of a
 service. Nothing is assumed about their order.
 */
module FailoverRuns {
  import opened FailoverCore

  /** `climbs` records when the work was moved up, in order. */
  datatype System = System(shared: Shared, calls: map<nat, Call>, climbs: seq<real>)

  datatype Step =
    | Begin(id: nat)
    | Turn(id: nat)
    | Answer(id: nat, ok: bool)
    | Check(id: nat)
    | Drop(id: nat)
    | BackDemote(probes: seq<Probe>)
    | BackUpgrade(probes: seq<Probe>, now: real)
  {
    predicate Background() {
      BackDemote? || BackUpgrade?
    }

    /** A step the call `i` takes after it has begun. */
    predicate TakenBy(i: nat) {
      (Turn? || Answer? || Check? || Drop?) && id == i
    }
  }

  predicate Enabled(cfg: Config, s: System, step: Step) {
    match step
    case Begin(id) => id !in s.calls
    case Turn(id) => id in s.calls && s.calls[id].phase.AtLoop?
    case Answer(id, _) => id in s.calls && s.calls[id].phase.Asking?
    case Check(id) => id in s.calls && s.calls[id].phase.Checking?
    case Drop(id) => id in s.calls && s.calls[id].phase.Exhausted?
    case BackDemote(probes) => s.shared.Valid(cfg) && |probes| == cfg.n
    case BackUpgrade(probes, _) => s.shared.Valid(cfg) && |probes| == cfg.n
  }

  function Apply(cfg: Config, s: System, step: Step): System
    requires Enabled(cfg, s, step)
  {
    match step
    case Begin(id) => s.(calls := s.calls[id := NewCall(cfg)])
    case Turn(id) => s.(calls := s.calls[id := TakeTurn(cfg, s.shared, s.calls[id])])
    case Answer(id, ok) => s.(calls := s.calls[id := Hear(s.calls[id], ok)])
    case Check(id) =>
      var (shared, call) := CheckSwitch(cfg, s.shared, s.calls[id]);
      s.(shared := shared, calls := s.calls[id := call])
    case Drop(id) =>
      var (shared, call) := CountDropped(s.shared, s.calls[id]);
      s.(shared := shared, calls := s.calls[id := call])
    case BackDemote(probes) => s.(shared := Demote(cfg, s.shared, probes).0)
    case BackUpgrade(probes, now) =>
      s.(shared := Upgrade(cfg, s.shared, probes, now),
         climbs := if Climbs(cfg, s.shared, probes, now) then s.climbs + [now] else s.climbs)
  }

  ghost predicate ValidRun(cfg: Config, states: seq<System>, steps: seq<Step>) {
    && |states| == |steps| + 1
    && forall k :: 0 <= k < |steps| ==>
      Enabled(cfg, states[k], steps[k]) && states[k + 1] == Apply(cfg, states[k], steps[k])
  }

  /** A chain as it is built: on the first service, with nothing in flight. */
  ghost predicate Starts(cfg: Config, states: seq<System>) {
    |states| > 0 && states[0] == System(Fresh, map[], [])
  }

  /* -------------------- what every step keeps -------------------- */

  ghost predicate NoRepeats(s: seq<nat>) {
    forall i, j :: 0 <= i < j < |s| ==> s[i] != s[j]
  }

  /** The bookkeeping of one call agrees with itself. */
  ghost predicate CallOk(cfg: Config, c: Call) {
    && c.turnsLeft <= 2 * cfg.n
    && NoRepeats(c.asked)
    && (forall x :: x in c.asked <==> x in c.tried)
    && (forall x :: x in c.tried ==> x < cfg.n)
    && match c.phase
       case Asking(i) => i in c.tried && c.refused == c.tried - {i}
       case Checking(i) => i in c.tried && c.refused == c.tried
       case Done(Handled(i)) => i in c.tried && c.refused == c.tried - {i}
       case _ => c.refused == c.tried
  }

  /** The calls that completed with the failure sentinel. */
  function FailedCalls(calls: map<nat, Call>): set<nat> {
    set id | id in calls && calls[id].Failed()
  }

  /** Any two climbs are as far apart as the attempts between them demand. */
  ghost predicate ClimbsApart(cfg: Config, s: System) {
    && (s.climbs != [] ==> s.climbs[|s.climbs| - 1] <= s.shared.lastUpgrade)
    && Apart(s.climbs, cfg.cooldown)
  }

  ghost predicate Inv(cfg: Config, s: System) {
    && s.shared.Valid(cfg)
    && (forall id :: id in s.calls ==> CallOk(cfg, s.calls[id]))
    && s.shared.dropped == |FailedCalls(s.calls)|
  }

  lemma TurnKeepsCallOk(cfg: Config, s: Shared, c: Call)
    requires s.Valid(cfg) && CallOk(cfg, c) && c.phase.AtLoop?
    ensures CallOk(cfg, TakeTurn(cfg, s, c))
  {
    var c' := TakeTurn(cfg, s, c);
    if c'.phase.Asking? {
      assert c'.tried - {s.index} == c.tried;
    }
  }

  lemma HearKeepsCallOk(cfg: Config, c: Call, ok: bool)
    requires CallOk(cfg, c) && c.phase.Asking?
    ensures CallOk(cfg, Hear(c, ok))
  {
    assert c.refused + {c.phase.service} == c.tried;
  }

  /** Replacing one call changes the failed set only by that call. */
  lemma FailedCallsUpdate(calls: map<nat, Call>, id: nat, c: Call)
    requires id in calls ==> !calls[id].Failed()
    ensures FailedCalls(calls[id := c]) == FailedCalls(calls) + (if c.Failed() then {id} else {})
    ensures id !in FailedCalls(calls)
  {
  }

  /** Replacing one unfinished call keeps the invariant if the counter follows. */
  lemma InvReplace(cfg: Config, s: System, s': System, id: nat, c: Call)
    requires Inv(cfg, s) && (id in s.calls ==> !s.calls[id].Failed())
    requires s'.calls == s.calls[id := c] && CallOk(cfg, c) && s'.shared.Valid(cfg)
    requires s'.shared.dropped == s.shared.dropped + if c.Failed() then 1 else 0
    ensures Inv(cfg, s')
  {
    FailedCallsUpdate(s.calls, id, c);
    if c.Failed() {
      assert |FailedCalls(s.calls) + {id}| == |FailedCalls(s.calls)| + 1;
    } else {
      assert FailedCalls(s'.calls) == FailedCalls(s.calls);
    }
  }

  lemma InvStep(cfg: Config, s: System, step: Step)
    requires cfg.Valid() && Inv(cfg, s) && Enabled(cfg, s, step)
    ensures Inv(cfg, Apply(cfg, s, step))
  {
    var s' := Apply(cfg, s, step);
    if step.Background() {
      assert s'.calls == s.calls;
    } else {
      var id := step.id;
      match step {
        case Turn(_) => TurnKeepsCallOk(cfg, s.shared, s.calls[id]);
        case Answer(_, ok) => HearKeepsCallOk(cfg, s.calls[id], ok);
        case _ =>
      }
      InvReplace(cfg, s, s', id, s'.calls[id]);
    }
  }

  lemma {:induction false} InvAlways(cfg: Config, states: seq<System>, steps: seq<Step>, k: nat)
    requires cfg.Valid() && ValidRun(cfg, states, steps) && Starts(cfg, states) && k < |states|
    ensures Inv(cfg, states[k])
  {
    if k > 0 {
      InvAlways(cfg, states, steps, k - 1);
      InvStep(cfg, states[k - 1], steps[k - 1]);
    }
  }

  /**
   In every reachable state the index names a service, no call has asked a
   service twice, and `dropped_calls` is the number of calls that came back
   with the failure sentinel.
   */
  lemma EveryInterleavingIsSafe(cfg: Config, states: seq<System>, steps: seq<Step>, k: nat)
    requires cfg.Valid() && ValidRun(cfg, states, steps) && Starts(cfg, states) && k < |states|
    ensures states[k].shared.index < cfg.n
    ensures forall id :: id in states[k].calls ==> NoRepeats(states[k].calls[id].asked)
    ensures states[k].shared.dropped == |FailedCalls(states[k].calls)|
    ensures forall id :: id in FailedCalls(states[k].calls) ==>
      forall x :: x in states[k].calls[id].asked ==> x in states[k].calls[id].refused
  {
    InvAlways(cfg, states, steps, k);
  }

  /**
   Who may move the work, and where to: a call only one place down and only
   off a service that refused it, a round down or up onto a service that
   answers for itself.
   */
  lemma WhoMovesTheIndex(cfg: Config, states: seq<System>, steps: seq<Step>, k: nat)
    requires cfg.Valid() && ValidRun(cfg, states, steps) && Starts(cfg, states) && k < |steps|
    requires states[k + 1].shared.index != states[k].shared.index
    ensures var i, j := states[k].shared.index, states[k + 1].shared.index;
      match steps[k]
      case Check(id) => j == i + 1 && i in states[k].calls[id].refused
      case BackDemote(probes) => j > i && probes[i] == No && Answers(cfg, probes[j])
      case BackUpgrade(probes, _) => j < i && Answers(cfg, probes[j])
      case _ => false
  {
    InvAlways(cfg, states, steps, k);
  }

  /* -------------------- calls end -------------------- */

  /** Strictly smaller after every step of the call, untouched by all others. */
  function Rank(c: Call): nat {
    3 * c.turnsLeft + match c.phase
    case Asking(_) => 4
    case Checking(_) => 3
    case AtLoop => 2
    case Exhausted => 1
    case Done(_) => 0
  }

  function StepsTaken(steps: seq<Step>, id: nat, k: nat): nat
    requires k <= |steps|
  {
    if k == 0 then 0 else StepsTaken(steps, id, k - 1) + if steps[k - 1].TakenBy(id) then 1 else 0
  }

  lemma {:induction false} RankBoundsSteps(
    cfg: Config, states: seq<System>, steps: seq<Step>, id: nat, k: nat)
    requires ValidRun(cfg, states, steps) && Starts(cfg, states) && k < |states|
    ensures if id in states[k].calls then StepsTaken(steps, id, k) + Rank(states[k].calls[id]) <= 6 * cfg.n + 2
            else StepsTaken(steps, id, k) == 0
  {
    if k > 0 {
      RankBoundsSteps(cfg, states, steps, id, k - 1);
      var step := steps[k - 1];
      assert Enabled(cfg, states[k - 1], step);
    }
  }

  /** However the others are scheduled, a call takes at most `6n + 2` steps. */
  lemma CallsEnd(cfg: Config, states: seq<System>, steps: seq<Step>, id: nat)
    requires ValidRun(cfg, states, steps) && Starts(cfg, states)
    ensures StepsTaken(steps, id, |steps|) <= 6 * cfg.n + 2
  {
    RankBoundsSteps(cfg, states, steps, id, |steps|);
  }

  /** Index reads the call has made so far. */
  function TurnsTaken(states: seq<System>, steps: seq<Step>, id: nat, k: nat): nat
    requires |states| == |steps| + 1 && k <= |steps|
  {
    if k == 0 then 0
    else
      var read := steps[k - 1] == Turn(id) && id in states[k].calls && !states[k].calls[id].phase.Exhausted?;
      TurnsTaken(states, steps, id, k - 1) + (if read then 1 else 0)
  }

  /** The turns a call has taken and the turns it has left make up `2n`. */
  lemma {:induction false} TurnsAreBounded(
    cfg: Config, states: seq<System>, steps: seq<Step>, id: nat, k: nat)
    requires ValidRun(cfg, states, steps) && Starts(cfg, states) && k <= |steps|
    ensures if id in states[k].calls then TurnsTaken(states, steps, id, k) + states[k].calls[id].turnsLeft == 2 * cfg.n
            else TurnsTaken(states, steps, id, k) == 0
  {
    if k > 0 {
      TurnsAreBounded(cfg, states, steps, id, k - 1);
      assert Enabled(cfg, states[k - 1], steps[k - 1]);
    }
  }

  /* -------------------- climbs keep their distance -------------------- */

  lemma ScaleSucc(m: nat, c: real)
    ensures (m + 1) as real * c == m as real * c + c
  {
  }

  /** The distances a list of moments keeps. */
  ghost predicate Apart(climbs: seq<real>, cooldown: real) {
    forall i, j :: 0 <= i < j < |climbs| ==> climbs[j] - climbs[i] >= (j - i) as real * cooldown
  }

  lemma OneMoreApart(climbs: seq<real>, cooldown: real, now: real)
    requires Apart(climbs, cooldown) && cooldown >= 0.0
    requires climbs != [] ==> now - climbs[|climbs| - 1] >= cooldown
    ensures Apart(climbs + [now], cooldown)
  {
    var m, more := |climbs|, climbs + [now];
    forall i, j | 0 <= i < j < |more| ensures more[j] - more[i] >= (j - i) as real * cooldown {
      if j == m {
        ScaleSucc(m - 1 - i, cooldown);
        assert i < m - 1 ==> climbs[m - 1] - climbs[i] >= (m - 1 - i) as real * cooldown;
      }
    }
  }

  lemma ClimbsApartStep(cfg: Config, s: System, step: Step)
    requires cfg.cooldown >= 0.0 && ClimbsApart(cfg, s) && Enabled(cfg, s, step)
    ensures ClimbsApart(cfg, Apply(cfg, s, step))
  {
    if step.BackUpgrade? && Climbs(cfg, s.shared, step.probes, step.now) {
      OneMoreApart(s.climbs, cfg.cooldown, step.now);
    }
  }

  /**
   Over every run, whatever the clock does: the j-th climb is at least
   `(j - i) * cooldown` after the i-th.
   */
  lemma {:induction false} ClimbsAreRationed(cfg: Config, states: seq<System>, steps: seq<Step>, k: nat)
    requires cfg.cooldown >= 0.0
    requires ValidRun(cfg, states, steps) && Starts(cfg, states) && k < |states|
    ensures forall i, j :: 0 <= i < j < |states[k].climbs| ==>
      states[k].climbs[j] - states[k].climbs[i] >= (j - i) as real * cfg.cooldown
    ensures ClimbsApart(cfg, states[k])
  {
    if k > 0 {
      ClimbsAreRationed(cfg, states, steps, k - 1);
      ClimbsApartStep(cfg, states[k - 1], steps[k - 1]);
    }
  }

  /* -------------------- a chain with nothing to ask -------------------- */

  /**
   Without a checker no service is ever asked, and `last_check` is documented
   to read NOT RUN. Over every run it does so exactly until the work first
   climbs; from then on the code reports HEALTHY.
   */
  lemma {:induction false} CheckerlessVerdict(cfg: Config, states: seq<System>, steps: seq<Step>, k: nat)
    requires !cfg.hasChecker && ValidRun(cfg, states, steps) && Starts(cfg, states) && k < |states|
    ensures states[k].shared.lastCheck == if states[k].climbs == [] then NotRun else Healthy
  {
    if k > 0 {
      CheckerlessVerdict(cfg, states, steps, k - 1);
      assert Enabled(cfg, states[k - 1], steps[k - 1]);
    }
  }
}

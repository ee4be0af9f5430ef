/**
 The shared state of one failover chain, and what each block that runs under
 its lock does to that state.

 Everything another thread can observe happens between two of these blocks, so
 they are the atoms of the interleavings in `FailoverRuns`; `FailoverService`
 is the object whose methods carry them out.
 */
module FailoverCore {
  import opened Wrappers

  /** The verdict a background round leaves behind on whoever holds the work. */
  datatype CheckOutcome = NotRun | Healthy | Unhealthy | ProbeFailed

  /** What a health checker does when it is asked about one service. */
  datatype Probe = Yes | No | Raised

  /** What a chain is built with; `n` is the number of services in it. */
  datatype Config = Config(n: nat, hasChecker: bool, cooldown: real) {
    predicate Valid() {
      n > 0
    }
  }

  datatype Shared = Shared(index: nat, lastUpgrade: real, lastCheck: CheckOutcome, dropped: nat) {
    predicate Valid(cfg: Config) {
      index < cfg.n
    }
  }

  const Fresh := Shared(0, 0.0, NotRun, 0)

  /** Whether a service counts as well: asked nothing, every service does. */
  predicate Answers(cfg: Config, probe: Probe) {
    !cfg.hasChecker || probe == Yes
  }

  /** The first service of `lo..hi` that answers for itself. */
  function FirstAnswering(cfg: Config, probes: seq<Probe>, lo: nat, hi: nat): (r: Option<nat>)
    requires lo <= hi <= |probes|
    ensures r.None? ==> forall i :: lo <= i < hi ==> !Answers(cfg, probes[i])
    ensures r.Some? ==> lo <= r.value < hi && Answers(cfg, probes[r.value])
    ensures r.Some? ==> forall i :: lo <= i < r.value ==> !Answers(cfg, probes[i])
    decreases hi - lo
  {
    if lo == hi then None
    else if Answers(cfg, probes[lo]) then Some(lo)
    else FirstAnswering(cfg, probes, lo + 1, hi)
  }

  /** The demotion half of a background round. */
  function Demote(cfg: Config, s: Shared, probes: seq<Probe>): (r: (Shared, bool))
    requires s.Valid(cfg) && |probes| == cfg.n
  {
    if !cfg.hasChecker then (s, false)
    else match probes[s.index]
      case Yes => (s.(lastCheck := Healthy), false)
      case Raised => (s.(lastCheck := ProbeFailed), false)
      case No =>
        match FirstAnswering(cfg, probes, s.index + 1, cfg.n)
        case Some(i) => (s.(index := i, lastCheck := Healthy), true)
        case None => (s.(lastCheck := Unhealthy), false)
  }

  /** The climbing half of a background round, at the moment `now`. */
  function Upgrade(cfg: Config, s: Shared, probes: seq<Probe>, now: real): (r: Shared)
    requires s.Valid(cfg) && |probes| == cfg.n
  {
    if s.index == 0 || now - s.lastUpgrade < cfg.cooldown then s
    else
      match FirstAnswering(cfg, probes, 0, s.index)
      case Some(i) => s.(lastUpgrade := now, index := i, lastCheck := Healthy)
      case None => s.(lastUpgrade := now)
  }

  /** Whether the climbing half would move the work. */
  predicate Climbs(cfg: Config, s: Shared, probes: seq<Probe>, now: real)
    requires s.Valid(cfg) && |probes| == cfg.n
  {
    Upgrade(cfg, s, probes, now).index != s.index
  }

  /** A whole background round, with no call in between: down, or else perhaps up. */
  function Round(cfg: Config, s: Shared, probes: seq<Probe>, now: real): Shared
    requires s.Valid(cfg) && |probes| == cfg.n
  {
    var (s', moved) := Demote(cfg, s, probes);
    if moved then s' else Upgrade(cfg, s', probes, now)
  }

  /** One step down the list, if there is one. */
  function SwitchToNext(cfg: Config, s: Shared): (r: (Shared, bool)) {
    if s.index + 1 >= cfg.n then (s, false) else (s.(index := s.index + 1), true)
  }

  /* -------------------- one call through `execute` -------------------- */

  datatype Outcome = Handled(taker: nat) | AllServicesFailed

  /** Where a call stands between two of its atomic steps. */
  datatype Phase =
    | AtLoop                    // about to test the loop guard and read the index
    | Asking(service: nat)      // calling this service, outside the lock
    | Checking(service: nat)    // about to take the lock for the switch check
    | Exhausted                 // out of the loop, not yet counted
    | Done(outcome: Outcome)

  /**
   The locals of one `execute`. `tried` and `turnsLeft` are the code's own;
   `asked` and `refused` record, in order and as a set, which services were
   called and which of them threw.
   */
  datatype Call = Call(tried: set<nat>, turnsLeft: nat, phase: Phase, asked: seq<nat>, refused: set<nat>) {
    predicate Running() {
      phase.AtLoop? || phase.Asking? || phase.Checking?
    }

    predicate Failed() {
      phase == Done(AllServicesFailed)
    }
  }

  function NewCall(cfg: Config): Call {
    Call({}, 2 * cfg.n, AtLoop, [], {})
  }

  /** The loop guard, and the locked block that reads the index. */
  function TakeTurn(cfg: Config, s: Shared, c: Call): Call
    requires c.phase.AtLoop?
  {
    if |c.tried| < cfg.n && c.turnsLeft > 0 then
      var i := s.index;
      if i in c.tried then c.(turnsLeft := c.turnsLeft - 1, phase := Checking(i))
      else c.(turnsLeft := c.turnsLeft - 1, tried := c.tried + {i}, asked := c.asked + [i], phase := Asking(i))
    else c.(phase := Exhausted)
  }

  /** The service answered, or threw. */
  function Hear(c: Call, ok: bool): Call
    requires c.phase.Asking?
  {
    if ok then c.(phase := Done(Handled(c.phase.service)))
    else c.(phase := Checking(c.phase.service), refused := c.refused + {c.phase.service})
  }

  /** The locked block that moves the work on, unless somebody already has. */
  function CheckSwitch(cfg: Config, s: Shared, c: Call): (r: (Shared, Call))
    requires c.phase.Checking?
  {
    if s.index == c.phase.service then
      var (s', moved) := SwitchToNext(cfg, s);
      (s', c.(phase := if moved then AtLoop else Exhausted))
    else (s, c.(phase := AtLoop))
  }

  /** The locked block that counts a call nobody took. */
  function CountDropped(s: Shared, c: Call): (Shared, Call) {
    (s.(dropped := s.dropped + 1), c.(phase := Done(AllServicesFailed)))
  }
}

/** What one background round decides, when no call runs beside it. */
module FailoverRounds {
  import opened FailoverCore

  /** The nearest service below `s` that answers for itself. */
  ghost predicate NearestBelow(probes: seq<Probe>, s: nat, j: nat) {
    s < j < |probes| && probes[j] == Yes && forall i :: s < i < j ==> probes[i] != Yes
  }

  /** The best service above `s` that answers for itself. */
  ghost predicate HighestAbove(probes: seq<Probe>, s: nat, j: nat) {
    j < s <= |probes| && probes[j] == Yes && forall i :: 0 <= i < j ==> probes[i] != Yes
  }

  /**
   With a checker, `last_check` is about whoever holds the work when the round
   is over: it reads HEALTHY exactly when that service answered yes in this
   round, and UNHEALTHY exactly when it answered no.
   */
  lemma VerdictIsAboutTheHolder(cfg: Config, s: Shared, probes: seq<Probe>, now: real)
    requires cfg.hasChecker && s.Valid(cfg) && |probes| == cfg.n
    ensures var r := Round(cfg, s, probes, now);
      && r.Valid(cfg)
      && (r.lastCheck == Healthy <==> probes[r.index] == Yes)
      && (r.lastCheck == Unhealthy <==> probes[r.index] == No)
      && (r.lastCheck == ProbeFailed <==> probes[r.index] == Raised)
  {
  }

  /**
   Where the work goes. It moves down exactly when the holder answered no and
   somebody below answered yes, and then to the nearest of them; it moves up
   only when nothing went down, the cooldown has run out and somebody above
   answered yes, and then to the highest of them. A look upwards spends the cooldown
   whether or not anybody answered, and nothing else does.
   */
  lemma RoundMoves(cfg: Config, s: Shared, probes: seq<Probe>, now: real)
    requires cfg.hasChecker && s.Valid(cfg) && |probes| == cfg.n
    ensures var r := Round(cfg, s, probes, now);
      var down := probes[s.index] == No && exists j :: NearestBelow(probes, s.index, j);
      var up := !down && now - s.lastUpgrade >= cfg.cooldown && exists j :: HighestAbove(probes, s.index, j);
      && (r.index > s.index <==> down)
      && (r.index < s.index <==> up)
      && (down ==> NearestBelow(probes, s.index, r.index))
      && (up ==> HighestAbove(probes, s.index, r.index))
      && r.lastUpgrade == (if !down && s.index > 0 && now - s.lastUpgrade >= cfg.cooldown then now else s.lastUpgrade)
      && r.dropped == s.dropped
  {
    var below := FirstAnswering(cfg, probes, s.index + 1, cfg.n);
    if below.Some? {
      assert NearestBelow(probes, s.index, below.value);
    }
    var above := FirstAnswering(cfg, probes, 0, s.index);
    if above.Some? {
      assert HighestAbove(probes, s.index, above.value);
    }
  }
}

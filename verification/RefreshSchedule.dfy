/** Stretches of a run, and what they leave alone. */
module RefreshSchedule {
  import opened RefreshCore
  import opened RefreshRuns
  import opened RefreshInvariant
  import opened RefreshTheorems

  predicate CanRun(w: World, steps: seq<Step>, lifetime: int)
    decreases steps
  {
    steps == [] || (Enabled(w, steps[0]) && CanRun(Apply(w, steps[0], lifetime), steps[1..], lifetime))
  }

  function RunFrom(w: World, steps: seq<Step>, lifetime: int): World
    requires CanRun(w, steps, lifetime)
    decreases steps
  {
    if steps == [] then w else RunFrom(Apply(w, steps[0], lifetime), steps[1..], lifetime)
  }

  /** Whether a step belongs to the request `req`. */
  predicate Uses(step: Step, req: nat) {
    match step
    case BeginLogin(r, _, _) => r == req
    case SaveLogin(r) => r == req
    case BeginRefresh(r, _, _) => r == req
    case Stamp(r, _) => r == req
    case Abandon(r) => r == req
    case ClaimStep(r) => r == req
    case BeginLogout(r, _, _) => r == req
    case Retire(r) => r == req
    case _ => false
  }

  predicate LeavesAlone(steps: seq<Step>, req: nat) {
    forall step <- steps :: !Uses(step, req)
  }

  /** What other requests do changes nothing of this one, and the clock goes on. */
  lemma {:induction false} OthersLeaveARequest(w: World, steps: seq<Step>, lifetime: int, req: nat)
    requires CanRun(w, steps, lifetime) && LeavesAlone(steps, req) && req in w.requests
    ensures var after := RunFrom(w, steps, lifetime);
            req in after.requests && after.requests[req] == w.requests[req] && w.now <= after.now
    decreases steps
  {
    if steps != [] {
      assert steps[0] in steps;
      OthersLeaveARequest(Apply(w, steps[0], lifetime), steps[1..], lifetime, req);
    }
  }

  /** A stretch of somebody else's steps after which the table is as `found`. */
  ghost predicate Interlude(w: World, others: seq<Step>, found: Rows, lifetime: int, req: nat) {
    CanRun(w, others, lifetime) && LeavesAlone(others, req) && RunFrom(w, others, lifetime).rows == found
  }

  lemma RunGrows(worlds: seq<World>, steps: seq<Step>, step: Step, lifetime: int)
    requires ValidRun(worlds, steps, lifetime) && Enabled(worlds[|steps|], step)
    ensures ValidRun(worlds + [Apply(worlds[|steps|], step, lifetime)], steps + [step], lifetime)
  {
  }

  /** A run is carried on by any stretch that can follow it. */
  lemma {:induction false} RunGoesOn(worlds: seq<World>, steps: seq<Step>, more: seq<Step>, lifetime: int)
    returns (all: seq<World>)
    requires ValidRun(worlds, steps, lifetime) && CanRun(worlds[|steps|], more, lifetime)
    ensures worlds <= all && ValidRun(all, steps + more, lifetime)
    ensures all[|steps| + |more|] == RunFrom(worlds[|steps|], more, lifetime)
    decreases |more|
  {
    if more == [] {
      all := worlds;
      assert steps + more == steps;
    } else {
      var next := Apply(worlds[|steps|], more[0], lifetime);
      RunGrows(worlds, steps, more[0], lifetime);
      all := RunGoesOn(worlds + [next], steps + [more[0]], more[1..], lifetime);
      assert (steps + [more[0]]) + more[1..] == steps + more;
    }
  }

  /* -------------------- one step at a known time -------------------- */

  /** A step taken when the clock reads `at`. */
  predicate MayDo(w: World, at: int, step: Step) {
    w.now <= at && Enabled(w.(now := at), step)
  }

  function Do(w: World, at: int, step: Step, lifetime: int): World
    requires MayDo(w, at, step)
  {
    Apply(w.(now := at), step, lifetime)
  }

  lemma RunTakesOne(worlds: seq<World>, steps: seq<Step>, at: int, step: Step, lifetime: int) returns (all: seq<World>)
    requires ValidRun(worlds, steps, lifetime) && MayDo(worlds[|steps|], at, step)
    ensures worlds <= all && ValidRun(all, steps + [Tick(at), step], lifetime)
    ensures all[|steps| + 2] == Do(worlds[|steps|], at, step, lifetime)
  {
    var ticked := worlds[|steps|].(now := at);
    RunGrows(worlds, steps, Tick(at), lifetime);
    RunGrows(worlds + [ticked], steps + [Tick(at)], step, lifetime);
    all := worlds + [ticked] + [Apply(ticked, step, lifetime)];
    assert steps + [Tick(at)] + [step] == steps + [Tick(at), step];
  }

  /**
   A refresh and what others do in its two gaps: between its lookup and the moment
   its successor is stamped or the chain retired, and from there to the claim.
   */
  datatype Gaps = Gaps(found: Rows, ghost others: seq<Step>, laterFound: Rows, ghost laterOthers: seq<Step>)

  ghost predicate RefreshFits(
    w: World, req: nat, token: Id, subject: Id, active: bool, newToken: Id,
    readAt: int, stampedAt: int, claimedAt: int, gaps: Gaps, lifetime: int)
  {
    && MayDo(w, readAt, BeginRefresh(req, token, subject))
    && var reading := ReadSession(w.rows, token, subject, readAt);
       var began := Do(w, readAt, BeginRefresh(req, token, subject), lifetime);
       match reading
       case Refused => true
       case Replayed(_) => FirstGapFits(began, req, stampedAt, gaps, lifetime)
       case MaySpend(_) =>
         active ==>
           && FirstGapFits(began, req, stampedAt, gaps, lifetime)
           && SecondGapFits(RunFrom(began, gaps.others, lifetime), req, newToken, stampedAt, claimedAt, gaps, lifetime)
  }

  ghost predicate FirstGapFits(w: World, req: nat, stampedAt: int, gaps: Gaps, lifetime: int) {
    Interlude(w, gaps.others, gaps.found, lifetime, req) && RunFrom(w, gaps.others, lifetime).now <= stampedAt
  }

  ghost predicate SecondGapFits(w: World, req: nat, newToken: Id, stampedAt: int, claimedAt: int, gaps: Gaps, lifetime: int) {
    && MayDo(w, stampedAt, Stamp(req, newToken))
    && var stamped := Do(w, stampedAt, Stamp(req, newToken), lifetime);
       Interlude(stamped, gaps.laterOthers, gaps.laterFound, lifetime, req)
       && RunFrom(stamped, gaps.laterOthers, lifetime).now <= claimedAt
  }

  /** A login that is about to be saved has no row of its chain yet. */
  lemma OpeningChainIsNew(worlds: seq<World>, steps: seq<Step>, lifetime: int, req: nat)
    requires ValidRun(worlds, steps, lifetime)
    requires var w := worlds[|steps|]; req in w.requests && w.requests[req].Opening?
    ensures var w := worlds[|steps|]; forall t :: t in w.rows ==> w.rows[t].chain != w.requests[req].token && t != w.requests[req].token
  {
    var w := worlds[|steps|];
    InvAlways(worlds, steps, lifetime, |steps|);
    assert RequestOk(w.rows, w.annals, w.issued, w.requests[req], w.now + lifetime);
    forall t | t in w.rows ensures w.rows[t].chain != w.requests[req].token && t != w.requests[req].token {
      RowFacts(w, lifetime, t);
      assert ChainOk(w.annals, w.rows[t].chain) && SlotOk(w.annals, w.rows[t].chain, 0);
    }
  }

  /** An identifier nobody has drawn is not that of a session a request has read. */
  lemma FreshIsNotRead(worlds: seq<World>, steps: seq<Step>, lifetime: int, req: nat, newToken: Id)
    requires ValidRun(worlds, steps, lifetime)
    requires var w := worlds[|steps|]; req in w.requests && w.requests[req].Seen? && newToken !in w.issued
    ensures newToken != worlds[|steps|].requests[req].token
  {
    var w := worlds[|steps|];
    InvAlways(worlds, steps, lifetime, |steps|);
    assert RequestOk(w.rows, w.annals, w.issued, w.requests[req], w.now + lifetime);
    assert PlaceOk(w.annals, w.issued, w.requests[req].token);
  }

  /** What a refresh read of its session is still so when it comes to claim it. */
  lemma ReadStaysTrue(worlds: seq<World>, steps: seq<Step>, lifetime: int, req: nat)
    requires ValidRun(worlds, steps, lifetime)
    requires var w := worlds[|steps|]; req in w.requests && w.requests[req].Stamped?
    ensures var w := worlds[|steps|];
            var r := w.requests[req];
            r.token in w.rows ==> w.rows[r.token].user == r.user && w.rows[r.token].chain == r.chain
  {
    var w := worlds[|steps|];
    InvAlways(worlds, steps, lifetime, |steps|);
    assert RequestOk(w.rows, w.annals, w.issued, w.requests[req], w.now + lifetime);
    if w.requests[req].token in w.rows {
      RowFacts(w, lifetime, w.requests[req].token);
    }
  }
}

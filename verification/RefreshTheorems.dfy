/** What the rotation protocol promises over every run. */
module RefreshTheorems {
  import opened RefreshCore
  import opened RefreshRuns
  import opened RefreshInvariant

  /** A row's owner and chain are those its place in the annals names. */
  lemma RowFacts(w: World, lifetime: int, t: Id)
    requires Inv(w, lifetime) && t in w.rows
    ensures t in w.annals.place && w.rows[t].chain == w.annals.place[t].chain
    ensures w.rows[t].chain in w.annals.order && w.rows[t].chain in w.annals.owner
    ensures w.annals.place[t].index < |w.annals.order[w.rows[t].chain]|
    ensures w.annals.order[w.rows[t].chain][w.annals.place[t].index] == t
    ensures w.rows[t].user == w.annals.owner[w.rows[t].chain]
    ensures w.rows[t].replacedBy == Successor(w.annals, w.annals.place[t])
    ensures w.rows[t].revokedAt.Some? <==> w.rows[t].chain in w.annals.dead
    ensures w.rows[t].expiresAt <= w.now + lifetime
  {
    assert TokenOk(w.rows, w.annals, w.now + lifetime, t) && PlaceOk(w.annals, w.issued, t);
    assert ChainOk(w.annals, w.annals.place[t].chain);
  }

  lemma RequestStepKeepsInv(w: World, step: Step, lifetime: int)
    requires Inv(w, lifetime) && Enabled(w, step)
    requires step.BeginLogin? || step.BeginRefresh? || step.Stamp? || step.BeginLogout?
    ensures Inv(Apply(w, step, lifetime), lifetime)
  {
    var w' := Apply(w, step, lifetime);
    match step
    case BeginLogin(req, user, token) =>
      assert PlaceOk(w.annals, w.issued, token);
      RequestKeepsInv(w, w', req, w'.requests[req], lifetime);
    case BeginRefresh(req, token, subject) =>
      if ReadSession(w.rows, token, subject, w.now) != Refused {
        RowFacts(w, lifetime, token);
        RequestKeepsInv(w, w', req, w'.requests[req], lifetime);
      }
    case Stamp(req, newToken) =>
      assert PlaceOk(w.annals, w.issued, newToken);
      assert RequestOk(w.rows, w.annals, w.issued, w.requests[req], w.now + lifetime);
      assert TokenOk(w.rows, w.annals, w.now + lifetime, w.requests[req].token);
      assert ChainOk(w.annals, w.requests[req].chain);
      RequestKeepsInv(w, w', req, w'.requests[req], lifetime);
    case BeginLogout(req, token, subject) =>
      if token in w.rows && w.rows[token].user == subject {
        RowFacts(w, lifetime, token);
        RequestKeepsInv(w, w', req, w'.requests[req], lifetime);
      }
  }

  lemma RevokeUserKeepsInv(w: World, user: Id, lifetime: int)
    requires Inv(w, lifetime)
    ensures Inv(Apply(w, RevokeByUser(user), lifetime), lifetime)
  {
    var chains := set c | c in w.annals.owner && w.annals.owner[c] == user;
    var w' := Apply(w, RevokeByUser(user), lifetime);
    forall t | t in w.rows
      ensures w'.rows[t] == if w.rows[t].chain in chains then Revoked(w.rows[t], w.now) else w.rows[t]
    {
      RowFacts(w, lifetime, t);
    }
    RevokeKeepsInv(w, w', 0, chains, lifetime);
  }

  lemma InvStep(w: World, step: Step, lifetime: int)
    requires Inv(w, lifetime) && Enabled(w, step)
    ensures Inv(Apply(w, step, lifetime), lifetime)
  {
    match step
    case Tick(time) => TickKeepsInv(w, time, lifetime);
    case SaveLogin(req) => SaveLoginKeepsInv(w, req, lifetime);
    case Abandon(req) => RequestsCarry(w, Apply(w, step, lifetime), req, w.now + lifetime, w.now + lifetime);
    case ClaimStep(req) => ClaimKeepsInv(w, req, lifetime);
    case Retire(req) => RevokeKeepsInv(w, Apply(w, step, lifetime), req, {w.requests[req].chain}, lifetime);
    case RevokeByChain(chain) => RevokeKeepsInv(w, Apply(w, step, lifetime), 0, {chain}, lifetime);
    case RevokeByUser(user) => RevokeUserKeepsInv(w, user, lifetime);
    case Sweep => SweepKeepsInv(w, lifetime);
    case _ => RequestStepKeepsInv(w, step, lifetime);
  }

  lemma {:induction false} InvAlways(worlds: seq<World>, steps: seq<Step>, lifetime: int, k: nat)
    requires ValidRun(worlds, steps, lifetime) && k < |worlds|
    ensures Inv(worlds[k], lifetime)
  {
    if k > 0 {
      InvAlways(worlds, steps, lifetime, k - 1);
      InvStep(worlds[k - 1], steps[k - 1], lifetime);
    }
  }

  /* -------------------- linear succession -------------------- */

  /** Two sessions of one chain. */
  ghost predicate Siblings(rows: Rows, t: Id, u: Id) {
    t in rows && u in rows && rows[t].chain == rows[u].chain
  }

  /**
   In every reachable table a chain is one line: one owner, revoked as a whole
   or not at all, at most one session unspent, no session succeeding two.
   */
  lemma ChainsAreLinear(worlds: seq<World>, steps: seq<Step>, lifetime: int, k: nat, t: Id, u: Id)
    requires ValidRun(worlds, steps, lifetime) && k < |worlds| && Siblings(worlds[k].rows, t, u)
    ensures var rows := worlds[k].rows;
      && rows[t].user == rows[u].user
      && (rows[t].revokedAt.Some? <==> rows[u].revokedAt.Some?)
      && (rows[t].replacedBy.None? && rows[u].replacedBy.None? ==> t == u)
      && (rows[t].replacedBy.Some? && rows[t].replacedBy == rows[u].replacedBy ==> t == u)
  {
    var w := worlds[k];
    InvAlways(worlds, steps, lifetime, k);
    RowFacts(w, lifetime, t);
    RowFacts(w, lifetime, u);
    assert SlotOk(w.annals, w.rows[t].chain, w.annals.place[t].index + 1);
    assert SlotOk(w.annals, w.rows[u].chain, w.annals.place[u].index + 1);
  }

  /**
   No surviving session points at a missing one: whatever the sweeps removed,
   a spent session's successor is in the table, in the same chain, under the
   same owner, and expires no sooner.
   */
  lemma SuccessorsSurvive(worlds: seq<World>, steps: seq<Step>, lifetime: int, k: nat, t: Id)
    requires ValidRun(worlds, steps, lifetime) && k < |worlds|
    requires t in worlds[k].rows && worlds[k].rows[t].replacedBy.Some?
    ensures var rows := worlds[k].rows; var u := rows[t].replacedBy.value;
      u in rows && rows[u].chain == rows[t].chain && rows[u].user == rows[t].user && rows[t].expiresAt <= rows[u].expiresAt
  {
    var w, horizon := worlds[k], worlds[k].now + lifetime;
    InvAlways(worlds, steps, lifetime, k);
    RowFacts(w, lifetime, t);
    var u := w.rows[t].replacedBy.value;
    assert SlotOk(w.annals, w.rows[t].chain, w.annals.place[t].index + 1);
    assert TokenOk(w.rows, w.annals, horizon, t) && TokenOk(w.rows, w.annals, horizon, u);
    assert ChainOk(w.annals, w.rows[t].chain);
    assert OrderedPair(w.rows, w.annals, t, u);
  }

  /** Over the whole run no token is exchanged twice. */
  lemma EveryTokenIsSpentOnce(worlds: seq<World>, steps: seq<Step>, lifetime: int, k: nat, i: nat, j: nat)
    requires ValidRun(worlds, steps, lifetime) && k < |worlds|
    requires i < j < |worlds[k].annals.grants| && worlds[k].annals.grants[i].parent.Some?
    ensures worlds[k].annals.grants[i].parent != worlds[k].annals.grants[j].parent
  {
    InvAlways(worlds, steps, lifetime, k);
    var a, issued := worlds[k].annals, worlds[k].issued;
    var g, h := a.grants[i], a.grants[j];
    assert GrantOk(a, g) && GrantOk(a, h);
    assert PlaceOk(a, issued, g.token) && PlaceOk(a, issued, h.token);
  }

  /**
   A token that was exchanged is recognised as a replay whenever it comes
   back from its owner, for as long as its row is there.
   */
  lemma ReplaysAreRecognised(worlds: seq<World>, steps: seq<Step>, lifetime: int, k: nat, i: nat)
    requires ValidRun(worlds, steps, lifetime) && k < |worlds| && i < |worlds[k].annals.grants|
    requires worlds[k].annals.grants[i].parent.Some? && worlds[k].annals.grants[i].parent.value in worlds[k].rows
    ensures var w, g := worlds[k], worlds[k].annals.grants[i];
      ReadSession(w.rows, g.parent.value, w.rows[g.parent.value].user, w.now) == Replayed(g.chain)
  {
    InvAlways(worlds, steps, lifetime, k);
    var w, g := worlds[k], worlds[k].annals.grants[i];
    assert GrantOk(w.annals, g) && PlaceOk(w.annals, w.issued, g.token);
    RowFacts(w, lifetime, g.parent.value);
  }

  /**
   How a presented token is read, in every reachable table: refused to anybody but the
   owner of its chain; to the owner a replay exactly if it has a successor, good
   exactly if it is the last of a chain that was not ended and has not expired, and
   refused otherwise.
   */
  lemma TokensAreReadExactly(worlds: seq<World>, steps: seq<Step>, lifetime: int, k: nat, t: Id, subject: Id)
    requires ValidRun(worlds, steps, lifetime) && k < |worlds|
    ensures var w := worlds[k];
      var reading := ReadSession(w.rows, t, subject, w.now);
      if t !in w.rows then reading == Refused
      else
        && t in w.annals.place && w.annals.place[t].chain in w.annals.order && w.annals.place[t].chain in w.annals.owner
        && var p := w.annals.place[t];
           var last, owned := p.index + 1 == |w.annals.order[p.chain]|, w.annals.owner[p.chain] == subject;
           && (reading == MaySpend(p.chain) <==> owned && last && p.chain !in w.annals.dead && w.now < w.rows[t].expiresAt)
           && (reading == Replayed(p.chain) <==> owned && !last)
           && (reading == Refused <==> !owned || (last && (p.chain in w.annals.dead || w.rows[t].expiresAt <= w.now)))
  {
    if t in worlds[k].rows {
      InvAlways(worlds, steps, lifetime, k);
      RowFacts(worlds[k], lifetime, t);
    }
  }

  /**
   A login is live exactly as long as it was not ended and the last token issued in it
   has not expired.
   */
  lemma LoginsAreLiveExactly(worlds: seq<World>, steps: seq<Step>, lifetime: int, k: nat, c: Id)
    requires ValidRun(worlds, steps, lifetime) && k < |worlds|
    ensures var w := worlds[k];
      ChainIsLive(w.rows, c, w.now) <==>
        && c in w.annals.order && w.annals.order[c] != [] && c !in w.annals.dead
        && var last := w.annals.order[c][|w.annals.order[c]| - 1]; last in w.rows && w.now < w.rows[last].expiresAt
  {
    var w := worlds[k];
    InvAlways(worlds, steps, lifetime, k);
    assert ChainOk(w.annals, c);
    if ChainIsLive(w.rows, c, w.now) {
      var t :| t in w.rows && w.rows[t].chain == c && w.rows[t].revokedAt.None? && w.rows[t].expiresAt > w.now;
      LastOutlives(w, lifetime, t);
    }
    if c in w.annals.order && w.annals.order[c] != [] {
      var last := w.annals.order[c][|w.annals.order[c]| - 1];
      assert SlotOk(w.annals, c, |w.annals.order[c]| - 1);
      if last in w.rows {
        RowFacts(w, lifetime, last);
      }
    }
  }

  /** The last token of a chain is there as long as any is, and expires no sooner. */
  lemma LastOutlives(w: World, lifetime: int, t: Id)
    requires Inv(w, lifetime) && t in w.rows
    ensures var c := w.rows[t].chain;
      && c in w.annals.order && w.annals.order[c] != [] && (w.rows[t].revokedAt.None? ==> c !in w.annals.dead)
      && var last := w.annals.order[c][|w.annals.order[c]| - 1];
         last in w.rows && w.rows[t].expiresAt <= w.rows[last].expiresAt
  {
    RowFacts(w, lifetime, t);
    var c := w.rows[t].chain;
    var last := w.annals.order[c][|w.annals.order[c]| - 1];
    assert SlotOk(w.annals, c, |w.annals.order[c]| - 1) && ChainOk(w.annals, c);
    assert TokenOk(w.rows, w.annals, w.now + lifetime, t) && TokenOk(w.rows, w.annals, w.now + lifetime, last);
    assert OrderedPair(w.rows, w.annals, t, last);
  }

  /* -------------------- revocation -------------------- */

  /** This step revokes the chain. */
  ghost predicate Ends(w: World, step: Step, c: Id)
    requires Enabled(w, step)
  {
    match step
    case RevokeByChain(chain) => chain == c
    case Retire(req) => w.requests[req].chain == c
    case RevokeByUser(user) => c in w.annals.owner && w.annals.owner[c] == user
    case _ => false
  }

  /** A dead chain gains no token and stays dead. */
  lemma DeadStaysDead(w: World, step: Step, lifetime: int, c: Id)
    requires Inv(w, lifetime) && Enabled(w, step) && c in w.annals.dead
    ensures var w' := Apply(w, step, lifetime);
      && c in w'.annals.dead && w.annals.grants <= w'.annals.grants
      && forall i :: |w.annals.grants| <= i < |w'.annals.grants| ==> w'.annals.grants[i].chain != c
  {
    match step
    case SaveLogin(req) =>
      assert RequestOk(w.rows, w.annals, w.issued, w.requests[req], w.now + lifetime);
      assert ChainOk(w.annals, c) && SlotOk(w.annals, c, 0);
    case ClaimStep(req) =>
      assert RequestOk(w.rows, w.annals, w.issued, w.requests[req], w.now + lifetime);
      if Claimable(w.rows, w.requests[req].token, w.now) {
        ClaimableIsLast(w, w.requests[req].token, lifetime);
      }
    case _ =>
  }

  lemma DeadIsNotLive(w: World, lifetime: int, c: Id)
    requires Inv(w, lifetime) && c in w.annals.dead
    ensures !ChainIsLive(w.rows, c, w.now)
  {
    forall t | t in w.rows && w.rows[t].chain == c
      ensures w.rows[t].revokedAt.Some?
    {
      RowFacts(w, lifetime, t);
    }
  }

  lemma {:induction false} DeadFrom(worlds: seq<World>, steps: seq<Step>, lifetime: int, c: Id, j: nat, k: nat)
    requires ValidRun(worlds, steps, lifetime) && j <= k < |worlds| && c in worlds[j].annals.dead
    ensures c in worlds[k].annals.dead && worlds[j].annals.grants <= worlds[k].annals.grants
    ensures forall i :: |worlds[j].annals.grants| <= i < |worlds[k].annals.grants| ==> worlds[k].annals.grants[i].chain != c
  {
    if j < k {
      DeadFrom(worlds, steps, lifetime, c, j, k - 1);
      InvAlways(worlds, steps, lifetime, k - 1);
      DeadStaysDead(worlds[k - 1], steps[k - 1], lifetime, c);
    }
  }

  /**
   Once a login that was opened is ended, by logout, by a replay or for the
   whole account, it is over: at no later moment is its chain live, and no
   later step hands out a token in it, whatever any refresh read before.
   */
  lemma RevocationIsFinal(worlds: seq<World>, steps: seq<Step>, lifetime: int, c: Id, j: nat, k: nat)
    requires ValidRun(worlds, steps, lifetime) && j < |steps| && j < k < |worlds|
    requires c in worlds[j].annals.order && Ends(worlds[j], steps[j], c)
    ensures !ChainIsLive(worlds[k].rows, c, worlds[k].now)
    ensures forall t :: t in worlds[k].rows && worlds[k].rows[t].chain == c ==> worlds[k].rows[t].revokedAt.Some?
    ensures forall i :: |worlds[j].annals.grants| <= i < |worlds[k].annals.grants| ==> worlds[k].annals.grants[i].chain != c
  {
    assert worlds[j + 1] == Apply(worlds[j], steps[j], lifetime);
    assert c in worlds[j + 1].annals.dead && worlds[j + 1].annals.grants == worlds[j].annals.grants;
    DeadFrom(worlds, steps, lifetime, c, j + 1, k);
    InvAlways(worlds, steps, lifetime, k);
    DeadIsNotLive(worlds[k], lifetime, c);
    forall t | t in worlds[k].rows && worlds[k].rows[t].chain == c
      ensures worlds[k].rows[t].revokedAt.Some?
    {
      RowFacts(worlds[k], lifetime, t);
    }
  }

  /**
   Nothing but an ending of its own chain revokes a session; in particular a
   replay leaves every other login of the account alone.
   */
  lemma OnlyEndingsRevoke(worlds: seq<World>, steps: seq<Step>, lifetime: int, k: nat, t: Id)
    requires ValidRun(worlds, steps, lifetime) && k < |steps|
    requires t in worlds[k].rows && worlds[k].rows[t].revokedAt.None?
    requires t in worlds[k + 1].rows && worlds[k + 1].rows[t].revokedAt.Some?
    ensures Ends(worlds[k], steps[k], worlds[k].rows[t].chain)
  {
    InvAlways(worlds, steps, lifetime, k);
    RowFacts(worlds[k], lifetime, t);
    assert Enabled(worlds[k], steps[k]);
  }
}

/**
 What every step on the session table keeps.

 Each fact is a predicate of one token, slot or request, and the invariants
 quantify over those predicates by name, so that a proof says where it uses
 one.
 */
module RefreshInvariant {
  import opened Wrappers
  import opened RefreshCore
  import opened RefreshRuns

  /** A chain is named after its first token and has lost at most all of them. */
  ghost predicate ChainOk(a: Annals, c: Id) {
    && (c in a.order <==> c in a.owner) && (c in a.order <==> c in a.gone)
    && (c in a.dead ==> c in a.order)
    && (c in a.order ==> a.order[c] != [] && a.order[c][0] == c && a.gone[c] <= |a.order[c]|)
  }

  /** The i-th token of a chain is in the i-th place of it. */
  ghost predicate SlotOk(a: Annals, c: Id, i: nat) {
    c in a.order && i < |a.order[c]| ==> a.order[c][i] in a.place && a.place[a.order[c][i]] == Place(c, i)
  }

  ghost predicate PlaceOk(a: Annals, issued: set<Id>, t: Id) {
    t in a.place ==>
      && t in issued && a.place[t].chain in a.order
      && a.place[t].index < |a.order[a.place[t].chain]| && a.order[a.place[t].chain][a.place[t].index] == t
  }

  ghost predicate AnnalsOk(a: Annals, issued: set<Id>) {
    && (forall c {:trigger ChainOk(a, c)} :: ChainOk(a, c))
    && (forall c, i {:trigger SlotOk(a, c, i)} :: SlotOk(a, c, i))
    && (forall t {:trigger PlaceOk(a, issued, t)} :: PlaceOk(a, issued, t))
  }

  /** The token that replaced the one in this place, if any did. */
  function Successor(a: Annals, p: Place): Option<Id>
    requires p.chain in a.order
  {
    if p.index + 1 < |a.order[p.chain]| then Some(a.order[p.chain][p.index + 1]) else None
  }

  /**
   A token has a row exactly until a sweep removed it, and the row says what
   the annals say: whose it is, what replaced it, whether its chain is dead.
   */
  ghost predicate TokenOk(rows: Rows, a: Annals, horizon: int, t: Id) {
    && (t in rows ==> t in a.place)
    && (t in a.place && a.place[t].chain in a.order && a.place[t].chain in a.owner && a.place[t].chain in a.gone ==>
          var p := a.place[t];
          && (t in rows <==> a.gone[p.chain] <= p.index)
          && (t in rows ==>
                && rows[t].chain == p.chain && rows[t].user == a.owner[p.chain]
                && rows[t].replacedBy == Successor(a, p)
                && (rows[t].revokedAt.Some? <==> p.chain in a.dead)
                && rows[t].expiresAt <= horizon))
  }

  ghost predicate RowsOk(rows: Rows, a: Annals, horizon: int) {
    forall t {:trigger TokenOk(rows, a, horizon, t)} :: TokenOk(rows, a, horizon, t)
  }

  /** Of two tokens of one chain the later never expires sooner. */
  ghost predicate OrderedPair(rows: Rows, a: Annals, t: Id, u: Id) {
    t in rows && u in rows && t in a.place && u in a.place
    && a.place[t].chain == a.place[u].chain && a.place[t].index <= a.place[u].index
    ==> rows[t].expiresAt <= rows[u].expiresAt
  }

  ghost predicate ExpiryGrows(rows: Rows, a: Annals) {
    forall t, u {:trigger OrderedPair(rows, a, t, u)} :: OrderedPair(rows, a, t, u)
  }

  /** The identifier a request has drawn and not yet used. */
  function Drawn(r: Request): Option<Id> {
    match r
    case Opening(_, token, _) => Some(token)
    case Stamped(_, _, _, newToken, _) => Some(newToken)
    case _ => None
  }

  /** What a refresh read of its session stays true of it. */
  ghost predicate Remembers(a: Annals, token: Id, user: Id, chain: Id) {
    token in a.place && a.place[token].chain == chain && chain in a.owner && a.owner[chain] == user
  }

  ghost predicate RequestOk(rows: Rows, a: Annals, issued: set<Id>, r: Request, horizon: int) {
    && (Drawn(r).Some? ==> Drawn(r).value in issued && Drawn(r).value !in a.place)
    && match r
       case Opening(_, _, expiry) => expiry <= horizon
       case Seen(token, user, chain) => Remembers(a, token, user, chain)
       case Stamped(token, user, chain, _, newExpiry) =>
         && Remembers(a, token, user, chain) && newExpiry <= horizon
         && (token in rows ==> rows[token].expiresAt <= newExpiry)
       case Retiring(chain) => chain in a.order
  }

  ghost predicate Distinct(requests: map<nat, Request>, q: nat, q': nat) {
    q in requests && q' in requests && q != q' && Drawn(requests[q]).Some? ==>
      Drawn(requests[q]) != Drawn(requests[q'])
  }

  ghost predicate RequestsOk(w: World, horizon: int) {
    && (forall q {:trigger RequestOk(w.rows, w.annals, w.issued, w.requests[q], horizon)} ::
      q in w.requests ==> RequestOk(w.rows, w.annals, w.issued, w.requests[q], horizon))
    && (forall q, q' {:trigger Distinct(w.requests, q, q')} :: Distinct(w.requests, q, q'))
  }

  /** A grant was one step of a succession. */
  ghost predicate GrantOk(a: Annals, g: Grant) {
    && g.token in a.place && a.place[g.token].chain == g.chain
    && (g.parent.Some? ==> g.parent.value in a.place
                           && a.place[g.token] == Place(g.chain, a.place[g.parent.value].index + 1)
                           && a.place[g.parent.value].chain == g.chain)
  }

  ghost predicate GrantsOk(a: Annals) {
    && (forall i {:trigger GrantOk(a, a.grants[i])} :: 0 <= i < |a.grants| ==> GrantOk(a, a.grants[i]))
    && (forall i, j :: 0 <= i < j < |a.grants| ==> a.grants[i].token != a.grants[j].token)
  }

  ghost predicate Inv(w: World, lifetime: int) {
    && AnnalsOk(w.annals, w.issued)
    && RowsOk(w.rows, w.annals, w.now + lifetime)
    && ExpiryGrows(w.rows, w.annals)
    && RequestsOk(w, w.now + lifetime)
    && GrantsOk(w.annals)
  }

  /* -------------------- what survives a change of the annals -------------------- */

  /** Chains are only added to: what was in its place stays there. */
  ghost predicate Grows(a: Annals, a': Annals) {
    && a.order.Keys <= a'.order.Keys
    && (forall t :: t in a.place ==> t in a'.place && a'.place[t] == a.place[t])
    && (forall c :: c in a.owner ==> c in a'.owner && a'.owner[c] == a.owner[c])
  }

  /** No row of a known token is new, and none changes its expiry. */
  ghost predicate Keeps(rows: Rows, rows': Rows, a: Annals) {
    forall t :: t in rows' && t in a.place ==> t in rows && rows'[t].expiresAt == rows[t].expiresAt
  }

  lemma RequestsCarry(w: World, w': World, req: nat, horizon: int, horizon': int)
    requires RequestsOk(w, horizon) && horizon <= horizon' && Grows(w.annals, w'.annals) && Keeps(w.rows, w'.rows, w.annals)
    requires w.issued <= w'.issued && (w'.requests == w.requests || w'.requests == w.requests - {req})
    requires forall t :: t in w'.annals.place && t !in w.annals.place ==>
      req !in w'.requests && req in w.requests && Drawn(w.requests[req]) == Some(t)
    ensures RequestsOk(w', horizon')
  {
    forall q | q in w'.requests
      ensures RequestOk(w'.rows, w'.annals, w'.issued, w'.requests[q], horizon')
    {
      assert RequestOk(w.rows, w.annals, w.issued, w.requests[q], horizon);
      assert Distinct(w.requests, q, req);
    }
    forall q, q'
      ensures Distinct(w'.requests, q, q')
    {
      assert Distinct(w.requests, q, q');
    }
  }

  lemma GrantsCarry(a: Annals, a': Annals)
    requires GrantsOk(a) && Grows(a, a') && |a'.grants| <= |a.grants| + 1 && a.grants <= a'.grants
    requires |a'.grants| > |a.grants| ==> GrantOk(a', a'.grants[|a.grants|]) && a'.grants[|a.grants|].token !in a.place
    ensures GrantsOk(a')
  {
    forall i | 0 <= i < |a'.grants|
      ensures GrantOk(a', a'.grants[i])
    {
      assert i < |a.grants| ==> GrantOk(a, a.grants[i]);
    }
    forall i, j | 0 <= i < j < |a'.grants|
      ensures a'.grants[i].token != a'.grants[j].token
    {
      assert GrantOk(a, a.grants[i]);
    }
  }

  /* -------------------- step by step -------------------- */

  lemma TickKeepsInv(w: World, time: int, lifetime: int)
    requires Inv(w, lifetime) && w.now <= time
    ensures Inv(w.(now := time), lifetime)
  {
    var horizon, later := w.now + lifetime, time + lifetime;
    forall t
      ensures TokenOk(w.rows, w.annals, later, t)
    {
      assert TokenOk(w.rows, w.annals, horizon, t);
    }
    RequestsCarry(w, w.(now := time), 0, w.now + lifetime, time + lifetime);
  }

  /** Steps that only take up or move on a request. */
  lemma RequestKeepsInv(w: World, w': World, req: nat, r: Request, lifetime: int)
    requires Inv(w, lifetime) && w' == w.(issued := w'.issued, requests := w.requests[req := r]) && w.issued <= w'.issued
    requires RequestOk(w.rows, w.annals, w'.issued, r, w.now + lifetime)
    requires Drawn(r).Some? ==> Drawn(r).value !in w.issued
    ensures Inv(w', lifetime)
  {
    var horizon := w.now + lifetime;
    forall q | q in w'.requests
      ensures RequestOk(w'.rows, w'.annals, w'.issued, w'.requests[q], horizon)
    {
      assert q != req ==> RequestOk(w.rows, w.annals, w.issued, w.requests[q], horizon);
    }
    forall q, q'
      ensures Distinct(w'.requests, q, q')
    {
      assert Distinct(w.requests, q, q');
      if q in w.requests && q' in w.requests {
        assert RequestOk(w.rows, w.annals, w.issued, w.requests[q], horizon);
        assert RequestOk(w.rows, w.annals, w.issued, w.requests[q'], horizon);
      } else if q in w.requests {
        assert RequestOk(w.rows, w.annals, w.issued, w.requests[q], horizon);
      } else if q' in w.requests {
        assert RequestOk(w.rows, w.annals, w.issued, w.requests[q'], horizon);
      }
    }
    forall t
      ensures PlaceOk(w'.annals, w'.issued, t)
    {
      assert PlaceOk(w.annals, w.issued, t);
    }
  }

  lemma FoundKeepsAnnals(a: Annals, issued: set<Id>, token: Id, user: Id)
    requires AnnalsOk(a, issued) && token in issued && token !in a.place
    ensures AnnalsOk(Found(a, token, user), issued) && token !in a.order && Grows(a, Found(a, token, user))
  {
    var a' := Found(a, token, user);
    assert ChainOk(a, token) && SlotOk(a, token, 0);
    forall c
      ensures ChainOk(a', c)
    {
      assert ChainOk(a, c);
    }
    forall c, i
      ensures SlotOk(a', c, i)
    {
      assert SlotOk(a, c, i);
    }
    forall t
      ensures PlaceOk(a', issued, t)
    {
      assert PlaceOk(a, issued, t);
    }
  }

  lemma FoundKeepsRows(rows: Rows, a: Annals, issued: set<Id>, token: Id, user: Id, expiry: int, horizon: int)
    requires AnnalsOk(a, issued) && RowsOk(rows, a, horizon) && ExpiryGrows(rows, a)
    requires token !in a.place && token !in a.order && expiry <= horizon
    ensures RowsOk(rows[token := NewSession(user, token, expiry, None)], Found(a, token, user), horizon)
    ensures ExpiryGrows(rows[token := NewSession(user, token, expiry, None)], Found(a, token, user))
  {
    var rows', a' := rows[token := NewSession(user, token, expiry, None)], Found(a, token, user);
    assert ChainOk(a, token);
    forall t
      ensures TokenOk(rows', a', horizon, t)
    {
      assert TokenOk(rows, a, horizon, t) && PlaceOk(a, issued, t);
      if t in a.place {
        assert ChainOk(a, a.place[t].chain);
      }
    }
    forall t, u
      ensures OrderedPair(rows', a', t, u)
    {
      assert OrderedPair(rows, a, t, u) && PlaceOk(a, issued, t) && PlaceOk(a, issued, u);
      assert TokenOk(rows, a, horizon, t) && TokenOk(rows, a, horizon, u);
    }
  }

  lemma SaveLoginKeepsInv(w: World, req: nat, lifetime: int)
    requires Inv(w, lifetime) && Enabled(w, SaveLogin(req))
    ensures Inv(DoSaveLogin(w, req), lifetime)
  {
    var r, w' := w.requests[req], DoSaveLogin(w, req);
    assert RequestOk(w.rows, w.annals, w.issued, r, w.now + lifetime);
    FoundKeepsAnnals(w.annals, w.issued, r.token, r.user);
    FoundKeepsRows(w.rows, w.annals, w.issued, r.token, r.user, r.expiry, w.now + lifetime);
    RequestsCarry(w, w', req, w.now + lifetime, w.now + lifetime);
    GrantsCarry(w.annals, w'.annals);
  }

  /** A session that may be claimed is the last of its chain, and its chain is not dead. */
  lemma ClaimableIsLast(w: World, token: Id, lifetime: int)
    requires Inv(w, lifetime) && Claimable(w.rows, token, w.now)
    ensures token in w.annals.place
    ensures var c := w.annals.place[token].chain;
      && c in w.annals.order && c in w.annals.owner && c in w.annals.gone && c !in w.annals.dead
      && w.annals.place[token].index + 1 == |w.annals.order[c]|
  {
    assert TokenOk(w.rows, w.annals, w.now + lifetime, token);
    assert PlaceOk(w.annals, w.issued, token);
    assert ChainOk(w.annals, w.annals.place[token].chain);
  }

  lemma ProlongKeepsAnnals(a: Annals, issued: set<Id>, chain: Id, parent: Id, token: Id)
    requires AnnalsOk(a, issued) && token in issued && token !in a.place && chain in a.order
    ensures AnnalsOk(Prolong(a, chain, parent, token), issued) && Grows(a, Prolong(a, chain, parent, token))
  {
    var a' := Prolong(a, chain, parent, token);
    forall c
      ensures ChainOk(a', c)
    {
      assert ChainOk(a, c) && ChainOk(a, chain);
    }
    forall c, i
      ensures SlotOk(a', c, i)
    {
      assert SlotOk(a, c, i);
    }
    forall t
      ensures PlaceOk(a', issued, t)
    {
      assert PlaceOk(a, issued, t);
    }
  }

  /** A claimed row and its successor, in the chain they belong to. */
  lemma ProlongKeepsRows(rows: Rows, rows': Rows, a: Annals, issued: set<Id>, chain: Id, parent: Id, token: Id, expiry: int, horizon: int)
    requires AnnalsOk(a, issued) && RowsOk(rows, a, horizon) && expiry <= horizon
    requires parent in rows && parent in a.place && token !in a.place
    requires a.place[parent].chain == chain && chain in a.order && chain in a.owner && chain !in a.dead
    requires a.place[parent].index + 1 == |a.order[chain]|
    requires rows' == Claim(rows, parent, token)[token := NewSession(a.owner[chain], token, expiry, Some(chain))]
    ensures RowsOk(rows', Prolong(a, chain, parent, token), horizon)
  {
    var a' := Prolong(a, chain, parent, token);
    assert ChainOk(a, chain) && PlaceOk(a, issued, parent) && TokenOk(rows, a, horizon, parent);
    forall t
      ensures TokenOk(rows', a', horizon, t)
    {
      assert TokenOk(rows, a, horizon, t) && PlaceOk(a, issued, t);
      if t in a.place {
        assert ChainOk(a, a.place[t].chain);
      }
    }
  }

  lemma ProlongKeepsExpiry(rows: Rows, rows': Rows, a: Annals, issued: set<Id>, chain: Id, parent: Id, token: Id)
    requires AnnalsOk(a, issued) && ExpiryGrows(rows, a)
    requires parent in rows && parent in a.place && token !in a.place && token in rows'
    requires rows[parent].expiresAt <= rows'[token].expiresAt
    requires forall t :: t in rows' && t != token ==> t in rows && rows'[t].expiresAt == rows[t].expiresAt
    requires a.place[parent].chain == chain && chain in a.order && a.place[parent].index + 1 == |a.order[chain]|
    ensures ExpiryGrows(rows', Prolong(a, chain, parent, token))
  {
    var a' := Prolong(a, chain, parent, token);
    forall t, u
      ensures OrderedPair(rows', a', t, u)
    {
      assert OrderedPair(rows, a, t, u) && OrderedPair(rows, a, t, parent);
      assert PlaceOk(a, issued, t) && PlaceOk(a, issued, u);
    }
  }

  lemma ClaimKeepsInv(w: World, req: nat, lifetime: int)
    requires Inv(w, lifetime) && Enabled(w, ClaimStep(req))
    ensures Inv(DoClaim(w, req), lifetime)
  {
    var r, a, w' := w.requests[req], w.annals, DoClaim(w, req);
    assert RequestOk(w.rows, a, w.issued, r, w.now + lifetime);
    if Claimable(w.rows, r.token, w.now) {
      ClaimableIsLast(w, r.token, lifetime);
      assert TokenOk(w.rows, a, w.now + lifetime, r.newToken);
      ProlongKeepsAnnals(a, w.issued, r.chain, r.token, r.newToken);
      ProlongKeepsRows(w.rows, w'.rows, a, w.issued, r.chain, r.token, r.newToken, r.newExpiry, w.now + lifetime);
      ProlongKeepsExpiry(w.rows, w'.rows, a, w.issued, r.chain, r.token, r.newToken);
      RequestsCarry(w, w', req, w.now + lifetime, w.now + lifetime);
      GrantsCarry(a, w'.annals);
    } else {
      RequestsCarry(w, w', req, w.now + lifetime, w.now + lifetime);
    }
  }

  /** Revoking every row of some chains, and nothing else, buries exactly those chains. */
  lemma RevokeKeepsRows(rows: Rows, rows': Rows, a: Annals, issued: set<Id>, chains: set<Id>, now: int, horizon: int)
    requires AnnalsOk(a, issued) && RowsOk(rows, a, horizon) && ExpiryGrows(rows, a) && rows'.Keys == rows.Keys
    requires forall t :: t in rows ==> rows'[t] == if rows[t].chain in chains then Revoked(rows[t], now) else rows[t]
    ensures AnnalsOk(Bury(a, chains), issued) && RowsOk(rows', Bury(a, chains), horizon) && ExpiryGrows(rows', Bury(a, chains))
  {
    var a' := Bury(a, chains);
    forall c
      ensures ChainOk(a', c)
    {
      assert ChainOk(a, c);
    }
    forall c, i
      ensures SlotOk(a', c, i)
    {
      assert SlotOk(a, c, i);
    }
    forall t
      ensures PlaceOk(a', issued, t) && TokenOk(rows', a', horizon, t)
    {
      assert PlaceOk(a, issued, t) && TokenOk(rows, a, horizon, t);
    }
    forall t, u
      ensures OrderedPair(rows', a', t, u)
    {
      assert OrderedPair(rows, a, t, u);
    }
  }

  lemma RevokeKeepsInv(w: World, w': World, req: nat, chains: set<Id>, lifetime: int)
    requires Inv(w, lifetime) && w' == w.(rows := w'.rows, requests := w'.requests, annals := Bury(w.annals, chains))
    requires w'.requests == w.requests || w'.requests == w.requests - {req}
    requires w'.rows.Keys == w.rows.Keys
    requires forall t :: t in w.rows ==>
      w'.rows[t] == if w.rows[t].chain in chains then Revoked(w.rows[t], w.now) else w.rows[t]
    ensures Inv(w', lifetime)
  {
    RevokeKeepsRows(w.rows, w'.rows, w.annals, w.issued, chains, w.now, w.now + lifetime);
    RequestsCarry(w, w', req, w.now + lifetime, w.now + lifetime);
    GrantsCarry(w.annals, w'.annals);
  }

  /** The first token kept is the first one the table still holds. */
  lemma {:induction false} FirstKeptSplits(tokens: seq<Id>, rows: Rows, from: nat)
    requires from <= |tokens|
    ensures var k := FirstKept(tokens, rows, from);
      && from <= k <= |tokens| && (k < |tokens| ==> tokens[k] in rows)
      && forall i :: from <= i < k ==> tokens[i] !in rows
    decreases |tokens| - from
  {
    if from < |tokens| && tokens[from] !in rows {
      FirstKeptSplits(tokens, rows, from + 1);
    }
  }

  /** Expiry never decreases along a chain, so a sweep takes only the front of it. */
  lemma SweepTakesAPrefix(w: World, lifetime: int, t: Id)
    requires Inv(w, lifetime) && t in w.annals.place
    ensures var c := w.annals.place[t].chain;
      c in DoSweep(w).annals.gone && (t in DoSweep(w).rows <==> DoSweep(w).annals.gone[c] <= w.annals.place[t].index)
  {
    var a, rows := w.annals, DeleteExpired(w.rows, w.now);
    var p, horizon := a.place[t], w.now + lifetime;
    assert PlaceOk(a, w.issued, t) && ChainOk(a, p.chain) && TokenOk(w.rows, a, horizon, t);
    var tokens := a.order[p.chain];
    FirstKeptSplits(tokens, rows, a.gone[p.chain]);
    var k := FirstKept(tokens, rows, a.gone[p.chain]);
    if k <= p.index {
      assert SlotOk(a, p.chain, k) && OrderedPair(w.rows, a, tokens[k], t);
    }
  }

  lemma SweepKeepsAnnals(a: Annals, issued: set<Id>, rows: Rows)
    requires AnnalsOk(a, issued)
    ensures AnnalsOk(Recount(a, rows), issued)
  {
    var a' := Recount(a, rows);
    forall c
      ensures ChainOk(a', c)
    {
      assert ChainOk(a, c);
      if c in a.order {
        FirstKeptSplits(a.order[c], rows, a.gone[c]);
      }
    }
    forall c, i
      ensures SlotOk(a', c, i)
    {
      assert SlotOk(a, c, i);
    }
    forall t
      ensures PlaceOk(a', issued, t)
    {
      assert PlaceOk(a, issued, t);
    }
  }

  lemma SweepKeepsInv(w: World, lifetime: int)
    requires Inv(w, lifetime)
    ensures Inv(DoSweep(w), lifetime)
  {
    var a, w', horizon := w.annals, DoSweep(w), w.now + lifetime;
    var a' := w'.annals;
    SweepKeepsAnnals(a, w.issued, w'.rows);
    forall t
      ensures TokenOk(w'.rows, a', horizon, t)
    {
      assert TokenOk(w.rows, a, horizon, t) && PlaceOk(a, w.issued, t);
      if t in a.place {
        assert ChainOk(a, a.place[t].chain);
        SweepTakesAPrefix(w, lifetime, t);
      }
    }
    forall t, u
      ensures OrderedPair(w'.rows, a', t, u)
    {
      assert OrderedPair(w.rows, a, t, u);
    }
    RequestsCarry(w, w', 0, horizon, horizon);
    GrantsCarry(a, a');
  }
}

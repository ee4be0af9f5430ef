/**
 Every interleaving of logins, refreshes, logouts, revocations and sweeps.

 A refresh is three steps that others may come between: the lookup, the moment
 its successor's expiry is computed, and the unit of work that claims the old
 session and saves the new one. Identifiers are fresh and the clock does not
 run backwards; nothing else is assumed.
 */
module RefreshRuns {
  import opened Wrappers
  import opened RefreshCore

  /** A request between two of its steps. */
  datatype Request =
    | Opening(user: Id, token: Id, expiry: int)
    | Seen(token: Id, user: Id, chain: Id)
    | Stamped(token: Id, user: Id, chain: Id, newToken: Id, newExpiry: int)
    | Retiring(chain: Id)

  /** A token pair handed out; `parent` is the token it was exchanged for. */
  datatype Grant = Grant(token: Id, chain: Id, parent: Option<Id>)

  /** Where a token stands in the succession it belongs to. */
  datatype Place = Place(chain: Id, index: nat)

  /**
   What has happened so far: the tokens of each chain in the order they were
   issued and the place of each, how many of them the sweeps have removed, who
   owns the chain, which chains were revoked, and every grant made.
   */
  datatype Annals = Annals(
    order: map<Id, seq<Id>>, place: map<Id, Place>, gone: map<Id, nat>, owner: map<Id, Id>, dead: set<Id>, grants: seq<Grant>)

  datatype World = World(now: int, rows: Rows, issued: set<Id>, requests: map<nat, Request>, annals: Annals)

  datatype Step =
    | Tick(time: int)
    | BeginLogin(req: nat, user: Id, token: Id)
    | SaveLogin(req: nat)
    | BeginRefresh(req: nat, token: Id, subject: Id)
    | Stamp(req: nat, newToken: Id)
    | Abandon(req: nat)
    | ClaimStep(req: nat)
    | BeginLogout(req: nat, token: Id, subject: Id)
    | Retire(req: nat)
    | RevokeByChain(chain: Id)
    | RevokeByUser(user: Id)
    | Sweep

  predicate Enabled(w: World, step: Step) {
    match step
    case Tick(time) => w.now <= time
    case BeginLogin(req, _, token) => req !in w.requests && token !in w.issued
    case SaveLogin(req) => req in w.requests && w.requests[req].Opening?
    case BeginRefresh(req, _, _) => req !in w.requests
    case Stamp(req, newToken) => req in w.requests && w.requests[req].Seen? && newToken !in w.issued
    case Abandon(req) => req in w.requests && w.requests[req].Seen?
    case ClaimStep(req) => req in w.requests && w.requests[req].Stamped?
    case BeginLogout(req, _, _) => req !in w.requests
    case Retire(req) => req in w.requests && w.requests[req].Retiring?
    case _ => true
  }

  /** How many tokens of a chain are gone once the expired ones are deleted. */
  function FirstKept(tokens: seq<Id>, rows: Rows, from: nat): nat
    requires from <= |tokens|
    decreases |tokens| - from
  {
    if from == |tokens| || tokens[from] in rows then from else FirstKept(tokens, rows, from + 1)
  }

  function Bury(a: Annals, chains: set<Id>): Annals {
    a.(dead := a.dead + set c | c in chains && c in a.order)
  }

  function Without(requests: map<nat, Request>, req: nat): map<nat, Request> {
    requests - {req}
  }

  function Apply(w: World, step: Step, lifetime: int): World
    requires Enabled(w, step)
  {
    match step
    case Tick(time) => w.(now := time)
    case BeginLogin(req, user, token) =>
      w.(issued := w.issued + {token}, requests := w.requests[req := Opening(user, token, w.now + lifetime)])
    case SaveLogin(req) => DoSaveLogin(w, req)
    case BeginRefresh(req, token, subject) =>
      (match ReadSession(w.rows, token, subject, w.now)
       case Refused => w
       case Replayed(chain) => w.(requests := w.requests[req := Retiring(chain)])
       case MaySpend(chain) => w.(requests := w.requests[req := Seen(token, subject, chain)]))
    case Stamp(req, newToken) =>
      var r := w.requests[req];
      w.(issued := w.issued + {newToken},
         requests := w.requests[req := Stamped(r.token, r.user, r.chain, newToken, w.now + lifetime)])
    case Abandon(req) => w.(requests := Without(w.requests, req))
    case ClaimStep(req) => DoClaim(w, req)
    case BeginLogout(req, token, subject) =>
      if token in w.rows && w.rows[token].user == subject then
        w.(requests := w.requests[req := Retiring(w.rows[token].chain)])
      else w
    case Retire(req) => DoRevokeChain(w.(requests := Without(w.requests, req)), w.requests[req].chain)
    case RevokeByChain(chain) => DoRevokeChain(w, chain)
    case RevokeByUser(user) =>
      w.(rows := RevokeUser(w.rows, user, w.now),
         annals := Bury(w.annals, set c | c in w.annals.owner && w.annals.owner[c] == user))
    case Sweep => DoSweep(w)
  }

  /** A chain of its own for a fresh login. */
  function Found(a: Annals, token: Id, user: Id): Annals {
    a.(order := a.order[token := [token]], place := a.place[token := Place(token, 0)], gone := a.gone[token := 0],
       owner := a.owner[token := user], grants := a.grants + [Grant(token, token, None)])
  }

  /** One more token at the end of a chain. */
  function Prolong(a: Annals, chain: Id, parent: Id, token: Id): Annals {
    var before := if chain in a.order then a.order[chain] else [];
    a.(order := a.order[chain := before + [token]], place := a.place[token := Place(chain, |before|)],
       grants := a.grants + [Grant(token, chain, Some(parent))])
  }

  /** The counts of removed tokens, once the table holds only `rows`. */
  function Recount(a: Annals, rows: Rows): Annals {
    a.(gone := map c | c in a.gone ::
      if c in a.order && a.gone[c] <= |a.order[c]| then FirstKept(a.order[c], rows, a.gone[c]) else a.gone[c])
  }

  function DoSaveLogin(w: World, req: nat): World
    requires req in w.requests && w.requests[req].Opening?
  {
    var r := w.requests[req];
    w.(rows := w.rows[r.token := NewSession(r.user, r.token, r.expiry, None)],
       requests := Without(w.requests, req), annals := Found(w.annals, r.token, r.user))
  }

  function DoClaim(w: World, req: nat): World
    requires req in w.requests && w.requests[req].Stamped?
  {
    var r := w.requests[req];
    w.(rows := ClaimAndIssue(w.rows, r.token, r.user, r.chain, r.newToken, r.newExpiry, w.now),
       requests := Without(w.requests, req),
       annals := if Claimable(w.rows, r.token, w.now) then Prolong(w.annals, r.chain, r.token, r.newToken) else w.annals)
  }

  function DoRevokeChain(w: World, chain: Id): World {
    w.(rows := RevokeChain(w.rows, chain, w.now), annals := Bury(w.annals, {chain}))
  }

  function DoSweep(w: World): World {
    var rows := DeleteExpired(w.rows, w.now);
    w.(rows := rows, annals := Recount(w.annals, rows))
  }

  ghost predicate ValidRun(worlds: seq<World>, steps: seq<Step>, lifetime: int) {
    && |worlds| == |steps| + 1
    && worlds[0].rows == map[] && worlds[0].requests == map[] && worlds[0].annals == Annals(map[], map[], map[], map[], {}, [])
    && forall k :: 0 <= k < |steps| ==> Enabled(worlds[k], steps[k]) && worlds[k + 1] == Apply(worlds[k], steps[k], lifetime)
  }
}

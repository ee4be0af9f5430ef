/**
 The session table as it is updated in place, and the authentication service's
 operations on it. Each method is one unit of work; `now` is the clock at that
 moment and fresh identifiers are handed in.
 */
module RefreshService {
  import opened Wrappers
  import opened RefreshCore
  import opened RefreshRuns
  import opened RefreshTheorems
  import opened RefreshSchedule

  /** What a refresh answers its caller. */
  datatype Refreshed =
    | Rejected
    | TokenReplayed(chain: Id)
    | NewPair(chain: Id, token: Id)

  class SessionTable {
    var rows: Rows

    constructor ()
      ensures rows == map[]
    {
      rows := map[];
    }

    /** The rows a statement over one chain touches. */
    ghost function LiveIn(chain: Id): set<Id>
      reads this
    {
      set t | t in rows && rows[t].chain == chain && rows[t].revokedAt.None?
    }

    ghost function LiveOf(user: Id): set<Id>
      reads this
    {
      set t | t in rows && rows[t].user == user && rows[t].revokedAt.None?
    }

    method Save(token: Id, session: Session)
      modifies this
      ensures rows == old(rows)[token := session]
    {
      rows := rows[token := session];
    }

    /** Spend a session, if nobody has and it is still good: one conditional statement. */
    method ClaimForRotation(token: Id, replacement: Id, now: int) returns (won: bool)
      modifies this
      ensures won == Claimable(old(rows), token, now)
      ensures won <==> token in old(rows) && Good(old(rows)[token], now)
      ensures rows == if won then Claim(old(rows), token, replacement) else old(rows)
    {
      won := token in rows && rows[token].revokedAt.None? && rows[token].replacedBy.None? && rows[token].expiresAt > now;
      if won {
        rows := rows[token := rows[token].(replacedBy := Some(replacement))];
      }
    }

    method RevokeOneChain(chain: Id, now: int) returns (revoked: nat)
      modifies this
      ensures rows == RevokeChain(old(rows), chain, now) && revoked == |old(LiveIn(chain))|
    {
      var hit := set t | t in rows && rows[t].chain == chain && rows[t].revokedAt.None?;
      assert hit == LiveIn(chain);
      rows := map t | t in rows :: if t in hit then rows[t].(revokedAt := Some(now)) else rows[t];
      revoked := |hit|;
    }

    method RevokeAllForUser(user: Id, now: int) returns (revoked: nat)
      modifies this
      ensures rows == RevokeUser(old(rows), user, now) && revoked == |old(LiveOf(user))|
    {
      var hit := set t | t in rows && rows[t].user == user && rows[t].revokedAt.None?;
      assert hit == LiveOf(user);
      rows := map t | t in rows :: if t in hit then rows[t].(revokedAt := Some(now)) else rows[t];
      revoked := |hit|;
    }

    method RemoveExpired(now: int) returns (deleted: nat)
      modifies this
      ensures rows == DeleteExpired(old(rows), now)
      ensures deleted == |old(rows)| - |rows|
    {
      var expired := set t | t in rows && rows[t].expiresAt < now;
      assert |rows.Keys| == |rows.Keys - expired| + |expired|;
      ghost var before := rows;
      rows := map t | t in rows && t !in expired :: rows[t];
      assert rows.Keys == before.Keys - expired;
      deleted := |expired|;
    }
  }

  /**
   `worlds` and `steps` are the run the table is at the end of: every unit of work
   of this service, and whatever other requests did in between.
   */
  class AuthenticationService {
    const table: SessionTable
    const lifetime: int

    ghost var worlds: seq<World>
    ghost var steps: seq<Step>

    ghost predicate Valid()
      reads this, table
    {
      ValidRun(worlds, steps, lifetime) && table.rows == worlds[|steps|].rows
    }

    /** Where the run stands. */
    ghost function Current(): World
      reads this, table
      requires Valid()
    {
      worlds[|steps|]
    }

    constructor (lifetime: int, ghost now: int)
      ensures Valid() && fresh(table) && this.lifetime == lifetime && steps == []
      ensures Current() == World(now, map[], {}, map[], Annals(map[], map[], map[], map[], {}, []))
    {
      this.lifetime := lifetime;
      table := new SessionTable();
      worlds, steps := [World(now, map[], {}, map[], Annals(map[], map[], map[], map[], {}, []))], [];
    }

    /** The run goes on by one step, taken when the clock reads `at`. */
    ghost method Record(at: int, step: Step)
      requires ValidRun(worlds, steps, lifetime) && MayDo(worlds[|steps|], at, step)
      modifies this`worlds, this`steps
      ensures ValidRun(worlds, steps, lifetime) && old(worlds) <= worlds && steps == old(steps) + [Tick(at), step]
      ensures worlds[|steps|] == Do(old(worlds[|steps|]), at, step, lifetime)
    {
      worlds := RunTakesOne(worlds, steps, at, step, lifetime);
      steps := steps + [Tick(at), step];
    }

    /** Other requests come in between, and leave the table as `found`. */
    method Elsewhere(found: Rows, ghost others: seq<Step>, ghost req: nat)
      requires Valid() && Interlude(Current(), others, found, lifetime, req)
      modifies this`worlds, this`steps, table
      ensures Valid() && table.rows == found && old(worlds) <= worlds && steps == old(steps) + others
      ensures Current() == RunFrom(old(Current()), others, lifetime)
    {
      worlds := RunGoesOn(worlds, steps, others, lifetime);
      steps := steps + others;
      table.rows := found;
    }

    /* -------------------- logging in -------------------- */

    /**
     A login: the expiry is computed, then the session saved, and others may come
     between. It opens a chain of its own, in which it is the only session, good
     until its expiry; no other row changes.
     */
    method CreateSessionTokens(ghost req: nat, user: Id, token: Id, stampedAt: int, found: Rows, ghost others: seq<Step>, savedAt: int)
      returns (chain: Id)
      requires Valid() && MayDo(Current(), stampedAt, BeginLogin(req, user, token))
      requires var began := Do(Current(), stampedAt, BeginLogin(req, user, token), lifetime);
               Interlude(began, others, found, lifetime, req) && RunFrom(began, others, lifetime).now <= savedAt
      modifies this`worlds, this`steps, table
      ensures Valid() && old(worlds) <= worlds
      ensures steps == old(steps) + [Tick(stampedAt), BeginLogin(req, user, token)] + others + [Tick(savedAt), SaveLogin(req)]
      ensures chain == token && token !in found && token in table.rows && table.rows[token].user == user
      ensures forall t :: t in table.rows && table.rows[t].chain == chain <==> t == token
      ensures forall at :: table.rows[token].Usable(at) <==> at < stampedAt + lifetime
      ensures forall t :: t != token ==> (t in table.rows <==> t in found) && (t in found ==> table.rows[t] == found[t])
    {
      Record(stampedAt, BeginLogin(req, user, token));
      OthersLeaveARequest(Current(), others, lifetime, req);
      Elsewhere(found, others, req);
      OpeningChainIsNew(worlds, steps, lifetime, req);
      var session := NewSession(user, token, stampedAt + lifetime, None);
      table.Save(token, session);
      Record(savedAt, SaveLogin(req));
      chain := session.chain;
    }

    /* -------------------- refreshing -------------------- */

    /** The lookup of a refresh. */
    method LookUp(ghost req: nat, token: Id, subject: Id, now: int) returns (found: Reading)
      requires Valid() && MayDo(Current(), now, BeginRefresh(req, token, subject))
      modifies this`worlds, this`steps
      ensures Valid() && old(worlds) <= worlds && steps == old(steps) + [Tick(now), BeginRefresh(req, token, subject)]
      ensures Current() == Do(old(Current()), now, BeginRefresh(req, token, subject), lifetime)
      ensures found == ReadSession(table.rows, token, subject, now)
      ensures found.MaySpend? <==> OwnedBy(table.rows, token, subject) && Good(table.rows[token], now)
      ensures found.Replayed? <==> OwnedBy(table.rows, token, subject) && table.rows[token].replacedBy.Some?
      ensures !found.Refused? ==> found.chain == table.rows[token].chain
    {
      Record(now, BeginRefresh(req, token, subject));
      if token !in table.rows {
        return Refused;
      }
      var session := table.rows[token];
      if session.user != subject {
        return Refused;
      }
      if !session.Usable(now) {
        return if session.replacedBy.Some? then Replayed(session.chain) else Refused;
      }
      return MaySpend(session.chain);
    }

    /** The statements that spend the session and save its successor, together or not at all. */
    method ClaimAndSave(ghost req: nat, token: Id, subject: Id, chain: Id, newToken: Id, newExpiry: int, now: int)
      returns (won: bool)
      requires Valid() && Current().now <= now && req in Current().requests
      requires Current().requests[req] == Stamped(token, subject, chain, newToken, newExpiry)
      modifies this`worlds, this`steps, table
      ensures Valid() && old(worlds) <= worlds && steps == old(steps) + [Tick(now), ClaimStep(req)]
      ensures won == Claimable(old(table.rows), token, now)
      ensures table.rows == ClaimAndIssue(old(table.rows), token, subject, chain, newToken, newExpiry, now)
    {
      won := table.ClaimForRotation(token, newToken, now);
      if won {
        table.Save(newToken, NewSession(subject, newToken, newExpiry, Some(chain)));
      }
      Record(now, ClaimStep(req));
    }

    /** The statement that retires the chain a request has looked up. */
    method RetireFound(ghost req: nat, chain: Id, now: int) returns (revoked: nat)
      requires Valid() && Current().now <= now && req in Current().requests && Current().requests[req] == Retiring(chain)
      modifies this`worlds, this`steps, table
      ensures Valid() && old(worlds) <= worlds && steps == old(steps) + [Tick(now), Retire(req)]
      ensures table.rows == RevokeChain(old(table.rows), chain, now) && revoked == |old(table.LiveIn(chain))|
    {
      revoked := table.RevokeOneChain(chain, now);
      Record(now, Retire(req));
    }

    /**
     A whole refresh, with other requests in both its gaps. A replay retires its
     chain as it then is, and is reported; a usable session of an active account is
     spent and its successor saved if it can still be claimed at the end, whatever
     came between; in every other case this request changes nothing.
     */
    method RefreshAccessToken(
      ghost req: nat, subject: Id, token: Id, active: bool, newToken: Id, readAt: int, stampedAt: int, claimedAt: int, gaps: Gaps)
      returns (r: Refreshed)
      requires Valid()
      requires RefreshFits(Current(), req, token, subject, active, newToken, readAt, stampedAt, claimedAt, gaps, lifetime)
      modifies this`worlds, this`steps, table
      ensures Valid() && old(worlds) <= worlds && old(steps) <= steps
      ensures match ReadSession(old(table.rows), token, subject, readAt)
        case Refused => r == Rejected && table.rows == old(table.rows)
        case Replayed(chain) => r == TokenReplayed(chain) && table.rows == RevokeChain(gaps.found, chain, stampedAt)
        case MaySpend(chain) =>
          if !active then r == Rejected && table.rows == old(table.rows)
          else
            && r == (if Claimable(gaps.laterFound, token, claimedAt) then NewPair(chain, newToken) else Rejected)
            && table.rows == ClaimAndIssue(gaps.laterFound, token, subject, chain, newToken, stampedAt + lifetime, claimedAt)
      ensures r.NewPair? ==> Exchanged(table.rows, token, newToken, subject, stampedAt + lifetime)
      ensures r.NewPair? <==>
        && active && OwnedBy(old(table.rows), token, subject) && Good(old(table.rows)[token], readAt)
        && OwnedBy(gaps.laterFound, token, subject) && Good(gaps.laterFound[token], claimedAt)
      ensures r.NewPair? ==> r == NewPair(old(table.rows)[token].chain, newToken)
    {
      var reading := LookUp(req, token, subject, readAt);
      match reading {
        case Refused =>
          r := Rejected;
        case Replayed(chain) =>
          OthersLeaveARequest(Current(), gaps.others, lifetime, req);
          Elsewhere(gaps.found, gaps.others, req);
          var _ := RetireFound(req, chain, stampedAt);
          r := TokenReplayed(chain);
        case MaySpend(chain) =>
          if active {
            r := Rotate(req, subject, token, chain, newToken, stampedAt, claimedAt, gaps);
          } else {
            Record(readAt, Abandon(req));
            r := Rejected;
          }
      }
    }

    /** The part of a refresh that follows a lookup which found the session usable. */
    method Rotate(ghost req: nat, subject: Id, token: Id, chain: Id, newToken: Id, stampedAt: int, claimedAt: int, gaps: Gaps)
      returns (r: Refreshed)
      requires Valid() && req in Current().requests && Current().requests[req] == Seen(token, subject, chain)
      requires FirstGapFits(Current(), req, stampedAt, gaps, lifetime)
      requires SecondGapFits(RunFrom(Current(), gaps.others, lifetime), req, newToken, stampedAt, claimedAt, gaps, lifetime)
      modifies this`worlds, this`steps, table
      ensures Valid() && old(worlds) <= worlds && old(steps) <= steps
      ensures r == if Claimable(gaps.laterFound, token, claimedAt) then NewPair(chain, newToken) else Rejected
      ensures table.rows == ClaimAndIssue(gaps.laterFound, token, subject, chain, newToken, stampedAt + lifetime, claimedAt)
      ensures r.NewPair? ==> Exchanged(table.rows, token, newToken, subject, stampedAt + lifetime)
      ensures r.NewPair? <==> OwnedBy(gaps.laterFound, token, subject) && Good(gaps.laterFound[token], claimedAt)
    {
      OthersLeaveARequest(Current(), gaps.others, lifetime, req);
      Elsewhere(gaps.found, gaps.others, req);
      FreshIsNotRead(worlds, steps, lifetime, req, newToken);
      var newExpiry := stampedAt + lifetime;
      Record(stampedAt, Stamp(req, newToken));
      OthersLeaveARequest(Current(), gaps.laterOthers, lifetime, req);
      Elsewhere(gaps.laterFound, gaps.laterOthers, req);
      ReadStaysTrue(worlds, steps, lifetime, req);
      var won := ClaimAndSave(req, token, subject, chain, newToken, newExpiry, claimedAt);
      r := if won then NewPair(chain, newToken) else Rejected;
    }

    /* -------------------- ending logins -------------------- */

    /** Logout: the whole chain goes, and says whether anything in it was still live by then. */
    method RevokeRefreshToken(ghost req: nat, subject: Id, token: Id, readAt: int, found: Rows, ghost others: seq<Step>, revokedAt: int)
      returns (ended: bool)
      requires Valid() && MayDo(Current(), readAt, BeginLogout(req, token, subject))
      requires var began := Do(Current(), readAt, BeginLogout(req, token, subject), lifetime);
               Interlude(began, others, found, lifetime, req) && RunFrom(began, others, lifetime).now <= revokedAt
      modifies this`worlds, this`steps, table
      ensures Valid() && old(worlds) <= worlds && old(steps) <= steps
      ensures if token in old(table.rows) && old(table.rows)[token].user == subject then
          var chain := old(table.rows)[token].chain;
          && table.rows == RevokeChain(found, chain, revokedAt) && Ended(table.rows, chain)
          && (ended <==> exists t :: t in found && found[t].chain == chain && found[t].revokedAt.None?)
        else !ended && table.rows == old(table.rows)
    {
      Record(readAt, BeginLogout(req, token, subject));
      if token !in table.rows || table.rows[token].user != subject {
        return false;
      }
      var chain := table.rows[token].chain;
      OthersLeaveARequest(Current(), others, lifetime, req);
      Elsewhere(found, others, req);
      ghost var live := table.LiveIn(chain);
      var revoked := RetireFound(req, chain, revokedAt);
      ended := revoked > 0;
      assert forall t :: t in live <==> t in found && found[t].chain == chain && found[t].revokedAt.None?;
      if live != {} {
        var t :| t in live;
      }
    }

    /**
     A login named by its chain is ended: no session of it is good at any time from
     now on, no session of any other chain changes, and the count is of those that
     were not revoked before.
     */
    method RevokeSessionChain(chain: Id, now: int) returns (revoked: nat)
      requires Valid() && Current().now <= now
      modifies this`worlds, this`steps, table
      ensures Valid() && old(worlds) <= worlds && steps == old(steps) + [Tick(now), RevokeByChain(chain)]
      ensures revoked == |old(table.LiveIn(chain))| && Ended(table.rows, chain)
      ensures table.rows.Keys == old(table.rows).Keys
      ensures forall t :: t in table.rows ==>
        table.rows[t] == if old(table.rows)[t].chain == chain then RevokedBy(old(table.rows)[t], now) else old(table.rows)[t]
    {
      revoked := table.RevokeOneChain(chain, now);
      Record(now, RevokeByChain(chain));
    }

    /** Every login of an account is ended, and no other. */
    method SignOutEverywhere(user: Id, now: int) returns (revoked: nat)
      requires Valid() && Current().now <= now
      modifies this`worlds, this`steps, table
      ensures Valid() && old(worlds) <= worlds && steps == old(steps) + [Tick(now), RevokeByUser(user)]
      ensures revoked == |old(table.LiveOf(user))| && table.rows.Keys == old(table.rows).Keys
      ensures forall t :: t in table.rows && table.rows[t].user == user ==> Ended(table.rows, table.rows[t].chain)
      ensures forall t :: t in table.rows ==>
        table.rows[t] == if old(table.rows)[t].user == user then RevokedBy(old(table.rows)[t], now) else old(table.rows)[t]
    {
      forall t, u | Siblings(table.rows, t, u) ensures table.rows[t].user == table.rows[u].user {
        ChainsOfTheTable(t, u);
      }
      ghost var before := table.rows;
      revoked := table.RevokeAllForUser(user, now);
      forall t, u | t in table.rows && table.rows[t].user == user && u in table.rows && table.rows[u].chain == table.rows[t].chain
        ensures table.rows[u].revokedAt.Some?
      {
        assert Siblings(before, t, u);
      }
      Record(now, RevokeByUser(user));
    }

    /** Only what expired goes, and no session that stays is left pointing at one that went. */
    method SweepExpired(now: int) returns (deleted: nat)
      requires Valid() && Current().now <= now
      modifies this`worlds, this`steps, table
      ensures Valid() && old(worlds) <= worlds && steps == old(steps) + [Tick(now), Sweep]
      ensures deleted == |old(table.rows)| - |table.rows|
      ensures forall t :: t in table.rows <==> t in old(table.rows) && old(table.rows)[t].expiresAt >= now
      ensures forall t :: t in table.rows ==> table.rows[t] == old(table.rows)[t]
      ensures forall t :: t in table.rows && table.rows[t].replacedBy.Some? ==> table.rows[t].replacedBy.value in table.rows
    {
      deleted := table.RemoveExpired(now);
      Record(now, Sweep);
      forall t | t in table.rows && table.rows[t].replacedBy.Some? ensures table.rows[t].replacedBy.value in table.rows {
        SuccessorsOfTheTable(t);
      }
    }

    /* -------------------- what holds of the table -------------------- */

    /** Whatever was asked of the service, and in whatever order, its chains are single lines. */
    lemma ChainsOfTheTable(t: Id, u: Id)
      requires Valid() && Siblings(table.rows, t, u)
      ensures table.rows[t].user == table.rows[u].user
      ensures table.rows[t].revokedAt.Some? <==> table.rows[u].revokedAt.Some?
      ensures table.rows[t].replacedBy.None? && table.rows[u].replacedBy.None? ==> t == u
      ensures table.rows[t].replacedBy.Some? && table.rows[t].replacedBy == table.rows[u].replacedBy ==> t == u
    {
      ChainsAreLinear(worlds, steps, lifetime, |steps|, t, u);
    }

    /** A chain that some step of the run ended has no good session in the table, now or later. */
    lemma EndedChainsOfTheTable(c: Id, j: nat)
      requires Valid() && j < |steps| && c in worlds[j].annals.order && Ends(worlds[j], steps[j], c)
      ensures Ended(table.rows, c)
    {
      RevocationIsFinal(worlds, steps, lifetime, c, j, |steps|);
    }

    /** A spent session of the table has its successor there, in its chain. */
    lemma SuccessorsOfTheTable(t: Id)
      requires Valid() && t in table.rows && table.rows[t].replacedBy.Some?
      ensures table.rows[t].replacedBy.value in table.rows
      ensures table.rows[table.rows[t].replacedBy.value].chain == table.rows[t].chain
    {
      SuccessorsSurvive(worlds, steps, lifetime, |steps|, t);
    }
  }

  predicate OwnedBy(rows: Rows, token: Id, subject: Id) {
    token in rows && rows[token].user == subject
  }

  /** Neither revoked nor spent nor expired. */
  predicate Good(session: Session, at: int) {
    session.revokedAt.None? && session.replacedBy.None? && at < session.expiresAt
  }

  /** Only the moment of revocation is written, and only the first time. */
  function RevokedBy(session: Session, now: int): Session {
    session.(revokedAt := if session.revokedAt.Some? then session.revokedAt else Some(now))
  }

  /** The old token is spent on the new one, which is good in its chain exactly until its expiry. */
  ghost predicate Exchanged(rows: Rows, token: Id, newToken: Id, subject: Id, expiry: int) {
    && OwnedBy(rows, token, subject) && OwnedBy(rows, newToken, subject)
    && rows[token].replacedBy == Some(newToken) && rows[newToken].chain == rows[token].chain
    && forall at :: Good(rows[newToken], at) <==> at < expiry
  }

  /** No session of the chain is good at any time. */
  ghost predicate Ended(rows: Rows, chain: Id) {
    forall t, at :: t in rows && rows[t].chain == chain ==> !rows[t].Usable(at)
  }
}

/** Refresh sessions, and what each statement on their table does to it. */
module RefreshCore {
  import opened Wrappers

  /** Tokens, chains and users are named by identifiers nobody can guess or repeat. */
  type Id = nat

  datatype Session = Session(user: Id, chain: Id, expiresAt: int, revokedAt: Option<int>, replacedBy: Option<Id>) {
    predicate Usable(now: int) {
      revokedAt.None? && replacedBy.None? && expiresAt > now
    }
  }

  /** The table, keyed by `token_id`. */
  type Rows = map<Id, Session>

  /** A fresh login starts a chain named after its own token. */
  function NewSession(user: Id, token: Id, expiresAt: int, chain: Option<Id>): Session {
    Session(user, if chain.Some? then chain.value else token, expiresAt, None, None)
  }

  /** The condition of the one statement that spends a session. */
  predicate Claimable(rows: Rows, token: Id, now: int) {
    token in rows && rows[token].Usable(now)
  }

  function Claim(rows: Rows, token: Id, replacement: Id): Rows
    requires token in rows
  {
    rows[token := rows[token].(replacedBy := Some(replacement))]
  }

  function Revoked(s: Session, now: int): Session {
    if s.revokedAt.None? then s.(revokedAt := Some(now)) else s
  }

  function RevokeChain(rows: Rows, chain: Id, now: int): Rows {
    map t | t in rows :: if rows[t].chain == chain then Revoked(rows[t], now) else rows[t]
  }

  function RevokeUser(rows: Rows, user: Id, now: int): Rows {
    map t | t in rows :: if rows[t].user == user then Revoked(rows[t], now) else rows[t]
  }

  /** Only expiry strictly before now removes a row, revoked or not. */
  function DeleteExpired(rows: Rows, now: int): Rows {
    map t | t in rows && !(rows[t].expiresAt < now) :: rows[t]
  }

  predicate ChainIsLive(rows: Rows, chain: Id, now: int) {
    exists t :: t in rows && rows[t].chain == chain && rows[t].revokedAt.None? && rows[t].expiresAt > now
  }

  /** What a refresh finds when it looks its session up. */
  datatype Reading =
    | Refused                        // no such session, somebody else's, revoked or expired
    | Replayed(chain: Id)            // already spent: it leaked
    | MaySpend(chain: Id)

  function ReadSession(rows: Rows, token: Id, subject: Id, now: int): Reading {
    if token !in rows || rows[token].user != subject then Refused
    else if rows[token].Usable(now) then MaySpend(rows[token].chain)
    else if rows[token].replacedBy.Some? then Replayed(rows[token].chain)
    else Refused
  }

  /** The claim and the successor it pays for, in one unit of work. */
  function ClaimAndIssue(rows: Rows, token: Id, user: Id, chain: Id, newToken: Id, newExpiry: int, now: int): Rows {
    if Claimable(rows, token, now) then Claim(rows, token, newToken)[newToken := NewSession(user, newToken, newExpiry, Some(chain))]
    else rows
  }
}

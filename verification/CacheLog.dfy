/**
 The cache against the log of what was asked of it. `Held...` says, from the log
 alone, what the latest surviving save filed under a key and until when; every
 lookup of the real cache is shown to answer exactly that.
 */
module CacheLog {
  import opened Wrappers
  import opened Seqs
  import opened CacheKeys
  import opened CacheCore

  /** One operation with the clock readings it made. */
  datatype Op =
    | Save(link: Link, t: real, u: real)
    | SaveARedirect(redirect: CachedRedirect, t: real, u: real)
    | Delete(link: Link)
    | DeleteCode(code: string)
    | DeleteARedirect(code: string)
    | SaveTheStats(stats: Statistics, t: real)
    | DeleteTheStats
    | ClearAll
    | Look(t: real)              // any lookup of a link or a redirect, or the counters
    | LookAtStats(t: real, u: real)

  function Apply(cfg: Config, c: Cache, op: Op): Cache {
    match op
    case Save(link, t, u) => SaveLink(cfg, c, link, t, u)
    case SaveARedirect(r, t, u) => SaveRedirect(cfg, c, r, t, u)
    case Delete(link) => DeleteLink(cfg, c, link)
    case DeleteCode(code) => DeleteByCode(cfg, c, code)
    case DeleteARedirect(code) => DeleteRedirect(cfg, c, code)
    case SaveTheStats(stats, t) => SaveStats(cfg, c, stats, t)
    case DeleteTheStats => DeleteStats(cfg, c)
    case ClearAll => EMPTY
    case Look(t) => Clean(cfg, c, t)
    case LookAtStats(t, u) => AfterGetStats(cfg, c, t, u)
  }

  predicate InTime(now: real, op: Op) {
    match op
    case Save(_, t, u) => now <= t <= u
    case SaveARedirect(_, t, u) => t <= u && now <= u
    case SaveTheStats(_, t) => now <= t
    case Look(t) => now <= t
    case LookAtStats(t, u) => now <= t <= u
    case _ => true
  }

  /** The latest reading once `op` is over. */
  function Later(now: real, op: Op): real {
    match op
    case Save(_, _, u) => u
    case SaveARedirect(_, _, u) => u
    case SaveTheStats(_, t) => t
    case Look(t) => t
    case LookAtStats(_, u) => u
    case _ => now
  }

  function Replay(cfg: Config, ops: seq<Op>): Cache {
    if ops == [] then EMPTY else Apply(cfg, Replay(cfg, Front(ops)), Last(ops))
  }

  function Clock(start: real, ops: seq<Op>): real {
    if ops == [] then start else Later(Clock(start, Front(ops)), Last(ops))
  }

  /** The clock never steps back. */
  predicate Timely(start: real, ops: seq<Op>) {
    ops == [] || (Timely(start, Front(ops)) && InTime(Clock(start, Front(ops)), Last(ops)))
  }

  /* -------------------- what the log says -------------------- */

  datatype Entry<V> = Entry(value: V, until: real)

  predicate FiledUnder(link: Link, key: Key) {
    key == Code(link.code) || key == Hash(link.hash, link.scope)
  }

  /** What an operation makes of the link filed under `key`. */
  function LinkAfter(cfg: Config, op: Op, key: Key, before: Option<Entry<Link>>): Option<Entry<Link>> {
    match op
    case Save(link, t, _) => if FiledUnder(link, key) then Some(Entry(link, t + cfg.linkTtl)) else before
    case Delete(link) => if FiledUnder(link, key) then None else before
    case DeleteCode(code) => if key == Code(code) then None else before
    case ClearAll => None
    case _ => before
  }

  /** What an operation makes of the redirect of `code`. */
  function RedirectAfter(cfg: Config, op: Op, code: string, before: Option<Entry<CachedRedirect>>)
    : Option<Entry<CachedRedirect>>
  {
    match op
    case Save(link, t, u) =>
      if link.code != code then before
      else (match RedirectTtl(cfg, link.expiresAt, u)
            case None => None
            case Some(ttl) => Some(Entry(CachedRedirect(link.code, link.url, link.expiresAt), t + ttl)))
    case SaveARedirect(r, t, u) =>
      var ttl := RedirectTtl(cfg, r.expiresAt, t);
      if r.code != code || ttl.None? then before else Some(Entry(r, u + ttl.value))
    case Delete(link) => if link.code == code then None else before
    case DeleteCode(gone) => if gone == code then None else before
    case DeleteARedirect(gone) => if gone == code then None else before
    case ClearAll => None
    case _ => before
  }

  /** What an operation makes of the statistics. */
  function StatsAfter(cfg: Config, op: Op, before: Option<Entry<Statistics>>): Option<Entry<Statistics>> {
    match op
    case SaveTheStats(stats, t) => Some(Entry(stats, t + cfg.statsTtl))
    case DeleteTheStats => None
    case ClearAll => None
    case _ => before
  }

  function HeldLink(cfg: Config, ops: seq<Op>, key: Key): Option<Entry<Link>> {
    if ops == [] then None else LinkAfter(cfg, Last(ops), key, HeldLink(cfg, Front(ops), key))
  }

  function HeldRedirect(cfg: Config, ops: seq<Op>, code: string): Option<Entry<CachedRedirect>> {
    if ops == [] then None else RedirectAfter(cfg, Last(ops), code, HeldRedirect(cfg, Front(ops), code))
  }

  function HeldStats(cfg: Config, ops: seq<Op>): Option<Entry<Statistics>> {
    if ops == [] then None else StatsAfter(cfg, Last(ops), HeldStats(cfg, Front(ops)))
  }

  /** What is left of a held entry at `now`: an entry lives through its last instant. */
  function Live<V>(held: Option<Entry<V>>, now: real): Option<V> {
    if held.Some? && now <= held.value.until then Some(held.value.value) else None
  }

  /* -------------------- what is stored under a key -------------------- */

  function At<V>(store: map<string, V>, expiry: map<string, real>, s: string): Option<Entry<V>> {
    if s in store && s in expiry then Some(Entry(store[s], expiry[s])) else None
  }

  function LinkAt(c: Cache, s: string): Option<Entry<Link>> {
    At(c.links, c.expiry, s)
  }

  function RedirectAt(c: Cache, s: string): Option<Entry<CachedRedirect>> {
    At(c.redirects, c.expiry, s)
  }

  function StatsAt(c: Cache, s: string): Option<Entry<Statistics>> {
    if c.stats.Some? && s in c.expiry then Some(Entry(c.stats.value, c.expiry[s])) else None
  }

  /** The store holds what the log says, or has forgotten what ran out already. */
  predicate Agree<V(==)>(stored: Option<Entry<V>>, held: Option<Entry<V>>, now: real) {
    stored == held || (stored.None? && held.value.until < now)
  }

  /** An entry survives a cleaning exactly when it has not run out. */
  function Unexpired<V>(stored: Option<Entry<V>>, t: real): Option<Entry<V>> {
    if stored.Some? && stored.value.until < t then None else stored
  }

  predicate IsLinkKey(prefix: string, s: string) {
    Kind(prefix, s) == 'c' || Kind(prefix, s) == 'h'
  }

  predicate IsRedirectKey(prefix: string, s: string) {
    Kind(prefix, s) == 'r'
  }

  predicate IsStatsKey(prefix: string, s: string) {
    Kind(prefix, s) == 's'
  }

  /**
   Every key with an expiry is one of a stored entry, but for statistics that ran
   out; and every key sits in the store of its own kind. `z` is the statistics' key.
   */
  predicate Tidy(prefix: string, z: string, c: Cache, now: real) {
    && IsStatsKey(prefix, z)
    && c.links.Keys + c.redirects.Keys <= c.expiry.Keys <= c.links.Keys + c.redirects.Keys + {z}
    && (forall s <- c.links :: IsLinkKey(prefix, s))
    && (forall s <- c.redirects :: IsRedirectKey(prefix, s))
    && (c.stats.Some? ==> z in c.expiry)
    && (z in c.expiry && c.stats.None? ==> c.expiry[z] < now)
  }

  /* -------------------- what each write keeps -------------------- */

  lemma TidyPutLink(p: string, z: string, c: Cache, s: string, link: Link, until: real, now: real)
    requires Tidy(p, z, c, now) && IsLinkKey(p, s)
    ensures Tidy(p, z, PutLink(c, s, link, until), now)
  {}

  lemma TidyPutRedirect(p: string, z: string, c: Cache, s: string, r: CachedRedirect, until: real, now: real)
    requires Tidy(p, z, c, now) && IsRedirectKey(p, s)
    ensures Tidy(p, z, PutRedirect(c, s, r, until), now)
  {}

  lemma TidyPopRedirect(p: string, z: string, c: Cache, s: string, now: real)
    requires Tidy(p, z, c, now) && IsRedirectKey(p, s)
    ensures Tidy(p, z, PopRedirect(c, s), now)
  {}

  lemma TidyPop(p: string, z: string, c: Cache, keys: set<string>, now: real)
    requires Tidy(p, z, c, now) && z !in keys
    ensures Tidy(p, z, Pop(c, keys), now)
  {}

  lemma TidyClean(cfg: Config, c: Cache, t: real, now: real)
    requires Tidy(cfg.prefix, cfg.StatsKey(), c, now) && now <= t
    ensures Tidy(cfg.prefix, cfg.StatsKey(), Clean(cfg, c, t), t)
    ensures cfg.StatsKey() in Clean(cfg, c, t).expiry ==> Clean(cfg, c, t).stats.Some?
  {}

  lemma KindsOf(cfg: Config, code: string)
    ensures IsLinkKey(cfg.prefix, cfg.CodeKey(code)) && IsRedirectKey(cfg.prefix, cfg.RedirectKey(code))
    ensures IsStatsKey(cfg.prefix, cfg.StatsKey())
  {
    KindOfRender(cfg.prefix, Code(code));
    KindOfRender(cfg.prefix, Redirect(code));
    KindOfRender(cfg.prefix, Stats);
  }

  lemma TidySave(cfg: Config, c: Cache, link: Link, t: real, u: real, now: real)
    requires Tidy(cfg.prefix, cfg.StatsKey(), c, now)
    ensures Tidy(cfg.prefix, cfg.StatsKey(), SaveLink(cfg, c, link, t, u), now)
  {
    var p, z, until := cfg.prefix, cfg.StatsKey(), t + cfg.linkTtl;
    KindsOf(cfg, link.code);
    KindOfRender(p, Hash(link.hash, link.scope));
    TidyPutLink(p, z, c, cfg.HashKey(link.hash, link.scope), link, until, now);
    var filed := PutLink(c, cfg.HashKey(link.hash, link.scope), link, until);
    TidyPutLink(p, z, filed, cfg.CodeKey(link.code), link, until, now);
    var stored := PutLink(filed, cfg.CodeKey(link.code), link, until);
    match RedirectTtl(cfg, link.expiresAt, u)
    case None => TidyPopRedirect(p, z, stored, cfg.RedirectKey(link.code), now);
    case Some(ttl) => TidyPutRedirect(p, z, stored, cfg.RedirectKey(link.code), RedirectOf(link), t + ttl, now);
  }

  lemma TidyStep(cfg: Config, c: Cache, op: Op, now: real)
    requires Tidy(cfg.prefix, cfg.StatsKey(), c, now) && InTime(now, op)
    ensures Tidy(cfg.prefix, cfg.StatsKey(), Apply(cfg, c, op), Later(now, op))
  {
    var p, z := cfg.prefix, cfg.StatsKey();
    match op
    case Save(link, t, u) => TidySave(cfg, c, link, t, u, now);
    case SaveARedirect(r, t, u) =>
      KindsOf(cfg, r.code);
      var ttl := RedirectTtl(cfg, r.expiresAt, t);
      if ttl.Some? {
        TidyPutRedirect(p, z, c, cfg.RedirectKey(r.code), r, u + ttl.value, now);
      }
    case Delete(link) =>
      KindsOf(cfg, link.code);
      KindOfRender(p, Hash(link.hash, link.scope));
      TidyPop(p, z, c, {cfg.CodeKey(link.code), cfg.RedirectKey(link.code), cfg.HashKey(link.hash, link.scope)}, now);
    case DeleteCode(code) =>
      KindsOf(cfg, code);
      TidyPop(p, z, c, {cfg.CodeKey(code), cfg.RedirectKey(code)}, now);
    case DeleteARedirect(code) =>
      KindsOf(cfg, code);
      TidyPopRedirect(p, z, c, cfg.RedirectKey(code), now);
    case Look(t) => TidyClean(cfg, c, t, now);
    case LookAtStats(t, u) => TidyClean(cfg, c, t, now);
    case SaveTheStats(_, _) =>
    case DeleteTheStats =>
    case ClearAll =>
  }

  /** A cleaning, seen from one key. */
  lemma CleanAt(cfg: Config, c: Cache, t: real, s: string)
    ensures LinkAt(Clean(cfg, c, t), s) == Unexpired(LinkAt(c, s), t)
    ensures RedirectAt(Clean(cfg, c, t), s) == Unexpired(RedirectAt(c, s), t)
    ensures s == cfg.StatsKey() ==> StatsAt(Clean(cfg, c, t), s) == Unexpired(StatsAt(c, s), t)
  {}

  /** A save, seen from one link key. */
  lemma SaveAtLink(cfg: Config, c: Cache, link: Link, t: real, u: real, key: Key)
    requires key.Code? || key.Hash?
    ensures LinkAt(SaveLink(cfg, c, link, t, u), Render(cfg.prefix, key))
         == if FiledUnder(link, key) then Some(Entry(link, t + cfg.linkTtl)) else LinkAt(c, Render(cfg.prefix, key))
  {
    KeysAreInjective(cfg.prefix, key, Code(link.code));
    KeysAreInjective(cfg.prefix, key, Hash(link.hash, link.scope));
    KeysAreInjective(cfg.prefix, key, Redirect(link.code));
  }

  /** A save, seen from one redirect key. */
  lemma SaveAtRedirect(cfg: Config, c: Cache, link: Link, t: real, u: real, code: string)
    ensures RedirectAt(SaveLink(cfg, c, link, t, u), cfg.RedirectKey(code))
         == if link.code != code then RedirectAt(c, cfg.RedirectKey(code))
            else match RedirectTtl(cfg, link.expiresAt, u)
                 case None => None
                 case Some(ttl) => Some(Entry(RedirectOf(link), t + ttl))
  {
    KeysAreInjective(cfg.prefix, Redirect(code), Code(link.code));
    KeysAreInjective(cfg.prefix, Redirect(code), Hash(link.hash, link.scope));
    KeysAreInjective(cfg.prefix, Redirect(code), Redirect(link.code));
  }

  lemma SaveAtStats(cfg: Config, c: Cache, link: Link, t: real, u: real)
    ensures StatsAt(SaveLink(cfg, c, link, t, u), cfg.StatsKey()) == StatsAt(c, cfg.StatsKey())
  {
    KeysAreInjective(cfg.prefix, Stats, Code(link.code));
    KeysAreInjective(cfg.prefix, Stats, Hash(link.hash, link.scope));
    KeysAreInjective(cfg.prefix, Stats, Redirect(link.code));
  }

  /** A removal, seen from one key. */
  lemma PopAt(c: Cache, keys: set<string>, s: string)
    ensures LinkAt(Pop(c, keys), s) == if s in keys then None else LinkAt(c, s)
    ensures RedirectAt(Pop(c, keys), s) == if s in keys then None else RedirectAt(c, s)
    ensures s !in keys ==> StatsAt(Pop(c, keys), s) == StatsAt(c, s)
  {}

  /** The keys `delete` and `delete_by_code` name are those of the link, and no others. */
  lemma DeleteNames(cfg: Config, link: Link, key: Key)
    ensures Render(cfg.prefix, key) in
            {cfg.CodeKey(link.code), cfg.RedirectKey(link.code), cfg.HashKey(link.hash, link.scope)}
       <==> FiledUnder(link, key) || key == Redirect(link.code)
  {
    KeysAreInjective(cfg.prefix, key, Code(link.code));
    KeysAreInjective(cfg.prefix, key, Hash(link.hash, link.scope));
    KeysAreInjective(cfg.prefix, key, Redirect(link.code));
  }

  lemma DeleteAt(cfg: Config, c: Cache, link: Link, key: Key)
    ensures var s, after := Render(cfg.prefix, key), DeleteLink(cfg, c, link);
            && ((key.Code? || key.Hash?) ==> LinkAt(after, s) == LinkAfter(cfg, Delete(link), key, LinkAt(c, s)))
            && (key.Redirect? ==> RedirectAt(after, s) == RedirectAfter(cfg, Delete(link), key.code, RedirectAt(c, s)))
            && (key.Stats? ==> StatsAt(after, s) == StatsAt(c, s))
  {
    DeleteNames(cfg, link, key);
    PopAt(c, {cfg.CodeKey(link.code), cfg.RedirectKey(link.code), cfg.HashKey(link.hash, link.scope)},
          Render(cfg.prefix, key));
  }

  lemma DeleteCodeAt(cfg: Config, c: Cache, code: string, key: Key)
    ensures var s, after := Render(cfg.prefix, key), DeleteByCode(cfg, c, code);
            && ((key.Code? || key.Hash?) ==> LinkAt(after, s) == LinkAfter(cfg, DeleteCode(code), key, LinkAt(c, s)))
            && (key.Redirect? ==> RedirectAt(after, s) == RedirectAfter(cfg, DeleteCode(code), key.code, RedirectAt(c, s)))
            && (key.Stats? ==> StatsAt(after, s) == StatsAt(c, s))
  {
    KeysAreInjective(cfg.prefix, key, Code(code));
    KeysAreInjective(cfg.prefix, key, Redirect(code));
    PopAt(c, {cfg.CodeKey(code), cfg.RedirectKey(code)}, Render(cfg.prefix, key));
  }

  predicate Cleans(op: Op) {
    op.Look? || op.LookAtStats?
  }

  /** One write, seen from one link key. */
  lemma LinkStep(cfg: Config, c: Cache, op: Op, key: Key)
    requires !Cleans(op) && (key.Code? || key.Hash?)
    ensures var s := Render(cfg.prefix, key);
            LinkAt(Apply(cfg, c, op), s) == LinkAfter(cfg, op, key, LinkAt(c, s))
  {
    var p := cfg.prefix;
    match op
    case Save(link, t, u) => SaveAtLink(cfg, c, link, t, u, key);
    case SaveARedirect(r, t, u) => KeysAreInjective(p, key, Redirect(r.code));
    case Delete(link) => DeleteAt(cfg, c, link, key);
    case DeleteCode(code) => DeleteCodeAt(cfg, c, code, key);
    case DeleteARedirect(code) => KeysAreInjective(p, key, Redirect(code));
    case SaveTheStats(_, _) => KeysAreInjective(p, key, Stats);
    case DeleteTheStats => KeysAreInjective(p, key, Stats);
    case ClearAll =>
  }

  /** One write, seen from one redirect key. */
  lemma RedirectStep(cfg: Config, c: Cache, op: Op, code: string)
    requires !Cleans(op)
    ensures var s := cfg.RedirectKey(code);
            RedirectAt(Apply(cfg, c, op), s) == RedirectAfter(cfg, op, code, RedirectAt(c, s))
  {
    var p, key := cfg.prefix, Redirect(code);
    match op
    case Save(link, t, u) => SaveAtRedirect(cfg, c, link, t, u, code);
    case SaveARedirect(r, t, u) => KeysAreInjective(p, key, Redirect(r.code));
    case Delete(link) => DeleteAt(cfg, c, link, key);
    case DeleteCode(gone) => DeleteCodeAt(cfg, c, gone, key);
    case DeleteARedirect(gone) => KeysAreInjective(p, key, Redirect(gone));
    case SaveTheStats(_, _) => KeysAreInjective(p, key, Stats);
    case DeleteTheStats => KeysAreInjective(p, key, Stats);
    case ClearAll =>
  }

  /** One write, seen from the statistics. */
  lemma StatsStep(cfg: Config, c: Cache, op: Op)
    requires !Cleans(op)
    ensures var s := cfg.StatsKey();
            StatsAt(Apply(cfg, c, op), s) == StatsAfter(cfg, op, StatsAt(c, s))
  {
    var p := cfg.prefix;
    match op
    case Save(link, t, u) => SaveAtStats(cfg, c, link, t, u);
    case SaveARedirect(r, t, u) => KeysAreInjective(p, Stats, Redirect(r.code));
    case Delete(link) => DeleteAt(cfg, c, link, Stats);
    case DeleteCode(code) => DeleteCodeAt(cfg, c, code, Stats);
    case DeleteARedirect(code) => KeysAreInjective(p, Stats, Redirect(code));
    case SaveTheStats(_, _) =>
    case DeleteTheStats =>
    case ClearAll =>
  }

  /* -------------------- whole runs -------------------- */

  lemma {:induction false} TidyAlways(cfg: Config, ops: seq<Op>, start: real)
    requires Timely(start, ops)
    ensures Tidy(cfg.prefix, cfg.StatsKey(), Replay(cfg, ops), Clock(start, ops))
  {
    if ops == [] {
      KindOfRender(cfg.prefix, Stats);
    } else {
      TidyAlways(cfg, Front(ops), start);
      TidyStep(cfg, Replay(cfg, Front(ops)), Last(ops), Clock(start, Front(ops)));
    }
  }

  lemma {:induction false} LinksAgree(cfg: Config, ops: seq<Op>, start: real, key: Key)
    requires Timely(start, ops) && (key.Code? || key.Hash?)
    ensures Agree(LinkAt(Replay(cfg, ops), Render(cfg.prefix, key)), HeldLink(cfg, ops, key), Clock(start, ops))
  {
    if ops != [] {
      var op, c := Last(ops), Replay(cfg, Front(ops));
      LinksAgree(cfg, Front(ops), start, key);
      if Cleans(op) {
        CleanAt(cfg, c, op.t, Render(cfg.prefix, key));
      } else {
        LinkStep(cfg, c, op, key);
      }
    }
  }

  lemma {:induction false} RedirectsAgree(cfg: Config, ops: seq<Op>, start: real, code: string)
    requires Timely(start, ops)
    ensures Agree(RedirectAt(Replay(cfg, ops), cfg.RedirectKey(code)), HeldRedirect(cfg, ops, code), Clock(start, ops))
  {
    if ops != [] {
      var op, c := Last(ops), Replay(cfg, Front(ops));
      RedirectsAgree(cfg, Front(ops), start, code);
      if Cleans(op) {
        CleanAt(cfg, c, op.t, cfg.RedirectKey(code));
      } else {
        RedirectStep(cfg, c, op, code);
      }
    }
  }

  lemma {:induction false} StatsAgree(cfg: Config, ops: seq<Op>, start: real)
    requires Timely(start, ops)
    ensures Agree(StatsAt(Replay(cfg, ops), cfg.StatsKey()), HeldStats(cfg, ops), Clock(start, ops))
  {
    if ops != [] {
      var op, c := Last(ops), Replay(cfg, Front(ops));
      StatsAgree(cfg, Front(ops), start);
      if Cleans(op) {
        CleanAt(cfg, c, op.t, cfg.StatsKey());
      } else {
        StatsStep(cfg, c, op);
      }
    }
  }

  /**
   Link lookups refine the log: after any run a lookup by code or by hash and
   scope answers with the latest surviving save for that key, for exactly as long
   as its time to live.
   */
  lemma LinkLookupsFollowTheLog(cfg: Config, ops: seq<Op>, start: real, t: real)
    requires Timely(start, ops) && Clock(start, ops) <= t
    ensures forall code :: GetByCode(cfg, Replay(cfg, ops), code, t) == Live(HeldLink(cfg, ops, Code(code)), t)
    ensures forall hash, scope ::
      GetByHash(cfg, Replay(cfg, ops), hash, scope, t) == Live(HeldLink(cfg, ops, Hash(hash, scope)), t)
  {
    var c := Replay(cfg, ops);
    forall code ensures GetByCode(cfg, c, code, t) == Live(HeldLink(cfg, ops, Code(code)), t) {
      LinkLookup(cfg, ops, start, t, Code(code));
    }
    forall hash, scope ensures GetByHash(cfg, c, hash, scope, t) == Live(HeldLink(cfg, ops, Hash(hash, scope)), t) {
      LinkLookup(cfg, ops, start, t, Hash(hash, scope));
    }
  }

  lemma LinkLookup(cfg: Config, ops: seq<Op>, start: real, t: real, key: Key)
    requires Timely(start, ops) && Clock(start, ops) <= t && (key.Code? || key.Hash?)
    ensures Get(Clean(cfg, Replay(cfg, ops), t).links, Render(cfg.prefix, key)) == Live(HeldLink(cfg, ops, key), t)
  {
    TidyAlways(cfg, ops, start);
    LinksAgree(cfg, ops, start, key);
    CleanAt(cfg, Replay(cfg, ops), t, Render(cfg.prefix, key));
    TidyClean(cfg, Replay(cfg, ops), t, Clock(start, ops));
  }
}

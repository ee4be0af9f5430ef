/**
 The in-memory link cache as a value: three stores sharing one expiry map, and
 what each operation does to them. Where an operation reads the clock twice,
 both readings are parameters.
 */
module CacheCore {
  import opened Wrappers
  import opened CacheKeys

  type Statistics = map<string, int>

  datatype Link = Link(code: string, hash: UrlHash, scope: DedupScope, url: string, expiresAt: Option<real>)

  datatype CachedRedirect = CachedRedirect(code: string, url: string, expiresAt: Option<real>) {
    predicate IsExpired(now: real) {
      expiresAt.Some? && now >= expiresAt.value
    }
  }

  datatype Config = Config(prefix: string, linkTtl: real, statsTtl: real) {
    function CodeKey(code: string): string { Render(prefix, Code(code)) }
    function HashKey(hash: UrlHash, scope: DedupScope): string { Render(prefix, Hash(hash, scope)) }
    function RedirectKey(code: string): string { Render(prefix, Redirect(code)) }
    function StatsKey(): string { Render(prefix, Stats) }
  }

  datatype Cache = Cache(
    links: map<string, Link>,
    redirects: map<string, CachedRedirect>,
    stats: Option<Statistics>,
    expiry: map<string, real>)

  const EMPTY := Cache(map[], map[], None, map[])

  /* -------------------- cleaning and removal -------------------- */

  function ExpiredKeys(c: Cache, now: real): set<string> {
    set s | s in c.expiry && c.expiry[s] < now
  }

  /** Forgets entries of the two dictionaries. */
  function Pop(c: Cache, keys: set<string>): Cache {
    c.(links := c.links - keys, redirects := c.redirects - keys, expiry := c.expiry - keys)
  }

  /** The same, where the statistics' key takes the statistics with it. */
  function Drop(cfg: Config, c: Cache, keys: set<string>): Cache {
    Pop(c, keys).(stats := if cfg.StatsKey() in keys then None else c.stats)
  }

  function Clean(cfg: Config, c: Cache, now: real): Cache {
    Drop(cfg, c, ExpiredKeys(c, now))
  }

  /* -------------------- writes -------------------- */

  /** How long a redirect may live; `None` for a link already expired. */
  function RedirectTtl(cfg: Config, expiresAt: Option<real>, now: real): Option<real> {
    if expiresAt.None? then Some(cfg.linkTtl)
    else if expiresAt.value - now <= 0.0 then None
    else Some(if cfg.linkTtl <= expiresAt.value - now then cfg.linkTtl else expiresAt.value - now)
  }

  function PutLink(c: Cache, s: string, link: Link, until: real): Cache {
    c.(links := c.links[s := link], expiry := c.expiry[s := until])
  }

  function PutRedirect(c: Cache, s: string, r: CachedRedirect, until: real): Cache {
    c.(redirects := c.redirects[s := r], expiry := c.expiry[s := until])
  }

  function PopRedirect(c: Cache, s: string): Cache {
    c.(redirects := c.redirects - {s}, expiry := c.expiry - {s})
  }

  function PutStats(c: Cache, s: string, stats: Statistics, until: real): Cache {
    c.(stats := Some(stats), expiry := c.expiry[s := until])
  }

  /** `t` stamps the entries; the redirect's lifetime is worked out later, at `u`. */
  function SaveLink(cfg: Config, c: Cache, link: Link, t: real, u: real): Cache {
    var stored := PutLink(PutLink(c, cfg.HashKey(link.hash, link.scope), link, t + cfg.linkTtl),
                          cfg.CodeKey(link.code), link, t + cfg.linkTtl);
    match RedirectTtl(cfg, link.expiresAt, u)
    case None => PopRedirect(stored, cfg.RedirectKey(link.code))
    case Some(ttl) => PutRedirect(stored, cfg.RedirectKey(link.code), RedirectOf(link), t + ttl)
  }

  function RedirectOf(link: Link): CachedRedirect {
    CachedRedirect(link.code, link.url, link.expiresAt)
  }

  /** Here the lifetime is worked out first, at `t`, and the entry is stamped at `u`. */
  function SaveRedirect(cfg: Config, c: Cache, r: CachedRedirect, t: real, u: real): Cache {
    match RedirectTtl(cfg, r.expiresAt, t)
    case None => c
    case Some(ttl) => PutRedirect(c, cfg.RedirectKey(r.code), r, u + ttl)
  }

  function DeleteLink(cfg: Config, c: Cache, link: Link): Cache {
    Pop(c, {cfg.CodeKey(link.code), cfg.RedirectKey(link.code), cfg.HashKey(link.hash, link.scope)})
  }

  function DeleteByCode(cfg: Config, c: Cache, code: string): Cache {
    Pop(c, {cfg.CodeKey(code), cfg.RedirectKey(code)})
  }

  function DeleteRedirect(cfg: Config, c: Cache, code: string): Cache {
    PopRedirect(c, cfg.RedirectKey(code))
  }

  function SaveStats(cfg: Config, c: Cache, stats: Statistics, t: real): Cache {
    PutStats(c, cfg.StatsKey(), stats, t + cfg.statsTtl)
  }

  function DeleteStats(cfg: Config, c: Cache): Cache {
    c.(stats := None, expiry := c.expiry - {cfg.StatsKey()})
  }

  /* -------------------- reads -------------------- */

  function Get<V>(m: map<string, V>, s: string): Option<V> {
    if s in m then Some(m[s]) else None
  }

  function GetByCode(cfg: Config, c: Cache, code: string, t: real): Option<Link> {
    Get(Clean(cfg, c, t).links, cfg.CodeKey(code))
  }

  function GetByHash(cfg: Config, c: Cache, hash: UrlHash, scope: DedupScope, t: real): Option<Link> {
    Get(Clean(cfg, c, t).links, cfg.HashKey(hash, scope))
  }

  /** The entry must vouch for itself at `u`, after the cleaning at `t`. */
  function GetRedirect(cfg: Config, c: Cache, code: string, t: real, u: real): Option<CachedRedirect> {
    match Get(Clean(cfg, c, t).redirects, cfg.RedirectKey(code))
    case None => None
    case Some(entry) => if entry.code != code || entry.IsExpired(u) then None else Some(entry)
  }

  /** Statistics found stale at `u` are dropped, their expiry key is left. */
  function AfterGetStats(cfg: Config, c: Cache, t: real, u: real): Cache {
    var cleaned := Clean(cfg, c, t);
    if cfg.StatsKey() in cleaned.expiry && !(u > cleaned.expiry[cfg.StatsKey()]) then cleaned
    else cleaned.(stats := None)
  }

  function GetStats(cfg: Config, c: Cache, t: real, u: real): Option<Statistics> {
    AfterGetStats(cfg, c, t, u).stats
  }

  datatype Info = Info(linkCount: nat, redirectCount: nat, hasStats: bool, totalKeys: nat)

  function GetCacheInfo(cfg: Config, c: Cache, t: real): Info {
    var cleaned := Clean(cfg, c, t);
    Info(|cleaned.links|, |cleaned.redirects|, cleaned.stats.Some?, |cleaned.expiry|)
  }
}

/** The in-process link cache, changing its dictionaries in place. */
module LinkCache {
  import opened Seqs
  import opened Wrappers
  import opened CacheKeys
  import opened CacheCore
  import opened CacheLog
  import opened CacheTheorems

  lemma Logged(cfg: Config, start: real, ops: seq<Op>, op: Op)
    ensures Replay(cfg, ops + [op]) == Apply(cfg, Replay(cfg, ops), op)
    ensures Timely(start, ops) && InTime(Clock(start, ops), op) ==> Timely(start, ops + [op])
    ensures Clock(start, ops + [op]) == Later(Clock(start, ops), op)
  {
    assert Front(ops + [op]) == ops;
  }

  lemma SilentAfterDelete(cfg: Config, start: real, ops: seq<Op>, link: Link)
    requires Timely(start, ops)
    ensures forall t, u :: Clock(start, ops) <= t <= u ==> SilentAbout(cfg, Replay(cfg, ops + [Delete(link)]), link, t, u)
  {
    var after := ops + [Delete(link)];
    Logged(cfg, start, ops, Delete(link));
    assert after + [] == after;
    forall t, u | Clock(start, ops) <= t <= u ensures SilentAbout(cfg, Replay(cfg, after), link, t, u) {
      DeletedLinksStayGone(cfg, ops, link, [], start, t, u);
    }
  }

  function KeySet(keys: seq<string>): set<string> {
    set k | k in keys
  }

  lemma PopOneMore(c: Cache, keys: seq<string>, i: nat)
    requires i < |keys|
    ensures Pop(Pop(c, KeySet(keys[..i])), {keys[i]}) == Pop(c, KeySet(keys[..i + 1]))
  {
    assert keys[..i + 1] == keys[..i] + [keys[i]];
    var done := KeySet(keys[..i]);
    assert KeySet(keys[..i + 1]) == done + {keys[i]};
    assert c.links - done - {keys[i]} == c.links - (done + {keys[i]});
    assert c.redirects - done - {keys[i]} == c.redirects - (done + {keys[i]});
    assert c.expiry - done - {keys[i]} == c.expiry - (done + {keys[i]});
  }

  lemma DropTwice(cfg: Config, c: Cache, a: set<string>, b: set<string>)
    ensures Drop(cfg, Drop(cfg, c, a), b) == Drop(cfg, c, a + b)
  {
    assert c.links - a - b == c.links - (a + b);
    assert c.redirects - a - b == c.redirects - (a + b);
    assert c.expiry - a - b == c.expiry - (a + b);
  }

  /**
   Callers hold the lock, so a method is one atomic step. Clock readings are
   parameters, in the order the method makes them. `log` is what was asked of
   the cache so far.
   */
  class InMemoryLinkCache {
    const cfg: Config
    var links: map<string, Link>
    var redirects: map<string, CachedRedirect>
    var stats: Option<Statistics>
    var expiry: map<string, real>

    ghost const start: real
    ghost var log: seq<Op>

    ghost function State(): Cache
      reads this
    {
      Cache(links, redirects, stats, expiry)
    }

    /** The cache is where its log leads, and the clock never stepped back. */
    ghost predicate Valid()
      reads this
    {
      State() == Replay(cfg, log) && Timely(start, log)
    }

    ghost function Now(): real
      reads this
    {
      Clock(start, log)
    }

    constructor (cfg: Config, ghost start: real)
      ensures Valid() && log == [] && this.cfg == cfg && this.start == start
    {
      this.cfg := cfg;
      this.start := start;
      links, redirects, stats, expiry := map[], map[], None, map[];
      log := [];
    }

    method CleanExpired(now: real)
      modifies this`links, this`redirects, this`stats, this`expiry
      ensures State() == Clean(cfg, old(State()), now)
    {
      var expiredKeys := set s | s in expiry && expiry[s] < now;
      var statsKey := cfg.StatsKey();
      var todo := expiredKeys;
      ghost var done: set<string> := {};
      while todo != {}
        invariant todo + done == expiredKeys
        invariant State() == Drop(cfg, old(State()), done)
      {
        var key :| key in todo;
        DropTwice(cfg, old(State()), done, {key});
        DropKey(key, statsKey);
        todo, done := todo - {key}, done + {key};
      }
      assert done == ExpiredKeys(old(State()), now);
    }

    /** One round of the cleaning loop. */
    method DropKey(key: string, statsKey: string)
      requires statsKey == cfg.StatsKey()
      modifies this`links, this`redirects, this`stats, this`expiry
      ensures State() == Drop(cfg, old(State()), {key})
    {
      if key in links {
        links := links - {key};
      }
      if key in redirects {
        redirects := redirects - {key};
      }
      if key == statsKey {
        stats := None;
      }
      expiry := expiry - {key};
    }

    /** `pop` each key from both dictionaries and from the expiries. */
    method PopAll(keys: seq<string>)
      modifies this`links, this`redirects, this`expiry
      ensures State() == Pop(old(State()), KeySet(keys))
    {
      var i := 0;
      while i < |keys|
        invariant 0 <= i <= |keys|
        invariant State() == Pop(old(State()), KeySet(keys[..i]))
      {
        PopOneMore(old(State()), keys, i);
        links, redirects, expiry := links - {keys[i]}, redirects - {keys[i]}, expiry - {keys[i]};
        i := i + 1;
      }
      assert keys[..i] == keys;
    }

    /** Forgets everything. */
    method ClearEverything()
      requires Valid()
      modifies this
      ensures Valid() && log == old(log) + [ClearAll]
    {
      Logged(cfg, start, log, ClearAll);
      links, redirects, stats, expiry := map[], map[], None, map[];
      log := log + [ClearAll];
    }

    method CacheInfo(t: real) returns (info: Info)
      requires Valid() && Now() <= t
      modifies this
      ensures Valid() && log == old(log) + [Look(t)]
      ensures info == Info(|links|, |redirects|, stats.Some?, |expiry|)
      ensures info.linkCount + info.redirectCount + (if info.hasStats then 1 else 0) == info.totalKeys
    {
      CountersAddUp(cfg, log, start, t);
      Logged(cfg, start, log, Look(t));
      CleanExpired(t);
      log := log + [Look(t)];
      info := Info(|links|, |redirects|, stats.Some?, |expiry|);
    }

    method FindByCode(code: string, t: real) returns (r: Option<Link>)
      requires Valid() && Now() <= t
      modifies this
      ensures Valid() && log == old(log) + [Look(t)]
      ensures r == Live(HeldLink(cfg, old(log), Code(code)), t)
    {
      LinkLookup(cfg, log, start, t, Code(code));
      Logged(cfg, start, log, Look(t));
      CleanExpired(t);
      log := log + [Look(t)];
      var key := cfg.CodeKey(code);
      r := if key in links then Some(links[key]) else None;
    }

    method FindByHash(hash: UrlHash, scope: DedupScope, t: real) returns (r: Option<Link>)
      requires Valid() && Now() <= t
      modifies this
      ensures Valid() && log == old(log) + [Look(t)]
      ensures r == Live(HeldLink(cfg, old(log), Hash(hash, scope)), t)
    {
      LinkLookup(cfg, log, start, t, Hash(hash, scope));
      Logged(cfg, start, log, Look(t));
      CleanExpired(t);
      log := log + [Look(t)];
      var key := cfg.HashKey(hash, scope);
      r := if key in links then Some(links[key]) else None;
    }

    /** One cleaning, then every hash; a hash asked for twice answers once. */
    method FindByHashes(hashes: seq<UrlHash>, scope: DedupScope, t: real) returns (r: map<UrlHash, Option<Link>>)
      requires Valid() && Now() <= t
      modifies this
      ensures Valid() && log == old(log) + [Look(t)]
      ensures forall hash :: hash in r <==> hash in hashes
      ensures forall hash <- r :: r[hash] == Live(HeldLink(cfg, old(log), Hash(hash, scope)), t)
    {
      LinkLookupsFollowTheLog(cfg, log, start, t);
      Logged(cfg, start, log, Look(t));
      CleanExpired(t);
      r := PickAll(links, hashes, scope);
      log := log + [Look(t)];
    }

    method PickAll(found: map<string, Link>, hashes: seq<UrlHash>, scope: DedupScope) returns (r: map<UrlHash, Option<Link>>)
      ensures forall hash :: hash in r <==> hash in hashes
      ensures forall hash <- r :: r[hash] == Get(found, cfg.HashKey(hash, scope))
    {
      r := map[];
      var i := 0;
      while i < |hashes|
        invariant 0 <= i <= |hashes|
        invariant forall hash :: hash in r <==> hash in hashes[..i]
        invariant forall hash <- r :: r[hash] == Get(found, cfg.HashKey(hash, scope))
      {
        r := r[hashes[i] := Get(found, cfg.HashKey(hashes[i], scope))];
        assert hashes[..i + 1] == hashes[..i] + [hashes[i]];
        i := i + 1;
      }
    }

    /** `t` stamps the entries, the redirect's lifetime is worked out at `u`. */
    method Save(link: Link, t: real, u: real)
      requires Valid() && Now() <= t <= u
      modifies this
      ensures Valid() && log == old(log) + [CacheLog.Save(link, t, u)]
    {
      Logged(cfg, start, log, CacheLog.Save(link, t, u));
      FileAll(link, t, u);
      log := log + [CacheLog.Save(link, t, u)];
    }

    method FileAll(link: Link, t: real, u: real)
      modifies this`links, this`redirects, this`expiry
      ensures State() == SaveLink(cfg, old(State()), link, t, u)
    {
      FileLink(cfg.HashKey(link.hash, link.scope), cfg.CodeKey(link.code), link, t + cfg.linkTtl);
      FileRedirectOf(link, cfg.RedirectKey(link.code), t, RedirectTtl(cfg, link.expiresAt, u));
    }

    method FileLink(hashKey: string, codeKey: string, link: Link, until: real)
      modifies this`links, this`expiry
      ensures State() == PutLink(PutLink(old(State()), hashKey, link, until), codeKey, link, until)
    {
      links := links[hashKey := link];
      links := links[codeKey := link];
      expiry := expiry[hashKey := until];
      expiry := expiry[codeKey := until];
    }

    method FileRedirectOf(link: Link, redirectKey: string, t: real, ttl: Option<real>)
      modifies this`redirects, this`expiry
      ensures State() == if ttl.None? then PopRedirect(old(State()), redirectKey)
                         else PutRedirect(old(State()), redirectKey, RedirectOf(link), t + ttl.value)
    {
      if ttl.None? {
        redirects, expiry := redirects - {redirectKey}, expiry - {redirectKey};
      } else {
        redirects := redirects[redirectKey := CachedRedirect(link.code, link.url, link.expiresAt)];
        expiry := expiry[redirectKey := t + ttl.value];
      }
    }

    method ForgetCode(code: string) returns (ok: bool)
      requires Valid()
      modifies this
      ensures ok && Valid() && log == old(log) + [DeleteCode(code)]
    {
      Logged(cfg, start, log, DeleteCode(code));
      PopCode(cfg.CodeKey(code), cfg.RedirectKey(code));
      log := log + [DeleteCode(code)];
      ok := true;
    }

    method PopCode(codeKey: string, redirectKey: string)
      modifies this`links, this`redirects, this`expiry
      ensures State() == Pop(old(State()), {codeKey, redirectKey})
    {
      PopAll([codeKey, redirectKey]);
      assert KeySet([codeKey, redirectKey]) == {codeKey, redirectKey};
    }

    method Forget(link: Link) returns (ok: bool)
      requires Valid()
      modifies this
      ensures ok && Valid() && log == old(log) + [Delete(link)]
      ensures forall t, u :: Now() <= t <= u ==> SilentAbout(cfg, State(), link, t, u)
    {
      Logged(cfg, start, log, Delete(link));
      SilentAfterDelete(cfg, start, log, link);
      PopLink(link);
      log := log + [Delete(link)];
      ok := true;
    }

    method PopLink(link: Link)
      modifies this`links, this`redirects, this`expiry
      ensures State() == DeleteLink(cfg, old(State()), link)
    {
      var code, redirect, hash := cfg.CodeKey(link.code), cfg.RedirectKey(link.code), cfg.HashKey(link.hash, link.scope);
      PopAll([code, redirect, hash]);
      assert KeySet([code, redirect, hash]) == {code, redirect, hash};
    }

    method ForgetRedirect(code: string)
      requires Valid()
      modifies this
      ensures Valid() && log == old(log) + [DeleteARedirect(code)]
    {
      Logged(cfg, start, log, DeleteARedirect(code));
      var key := cfg.RedirectKey(code);
      redirects, expiry := redirects - {key}, expiry - {key};
      log := log + [DeleteARedirect(code)];
    }

    method FindRedirect(code: string, t: real, u: real) returns (r: Option<CachedRedirect>)
      requires Valid() && Now() <= t <= u
      modifies this
      ensures Valid() && log == old(log) + [Look(t)]
      ensures r == Servable(Live(HeldRedirect(cfg, old(log), code), t), u)
    {
      RedirectLookupsFollowTheLog(cfg, log, start, code, t, u);
      Logged(cfg, start, log, Look(t));
      CleanExpired(t);
      log := log + [Look(t)];
      var key := cfg.RedirectKey(code);
      if key !in redirects {
        return None;
      }
      var entry := redirects[key];
      if entry.code != code || entry.IsExpired(u) {
        return None;
      }
      return Some(entry);
    }

    /**
     The lifetime is worked out at `t`, outside the lock, and other operations may run
     before the entry is stamped at `u`.
     */
    method KeepRedirect(code: string, url: string, expiresAt: Option<real>, t: real, u: real)
      requires Valid() && t <= u && Now() <= u
      modifies this
      ensures Valid() && log == old(log) + [SaveARedirect(CachedRedirect(code, url, expiresAt), t, u)]
    {
      ghost var op := SaveARedirect(CachedRedirect(code, url, expiresAt), t, u);
      Logged(cfg, start, log, op);
      log := log + [op];
      var ttl := RedirectTtl(cfg, expiresAt, t);
      if ttl.None? {
        return;
      }
      var key := cfg.RedirectKey(code);
      redirects := redirects[key := CachedRedirect(code, url, expiresAt)];
      expiry := expiry[key := u + ttl.value];
    }

    method FindStats(t: real, u: real) returns (r: Option<Statistics>)
      requires Valid() && Now() <= t <= u
      modifies this
      ensures Valid() && log == old(log) + [LookAtStats(t, u)]
      ensures r == Live(HeldStats(cfg, old(log)), u)
    {
      StatsLookupsFollowTheLog(cfg, log, start, t, u);
      Logged(cfg, start, log, LookAtStats(t, u));
      CleanExpired(t);
      log := log + [LookAtStats(t, u)];
      var key := cfg.StatsKey();
      if key in expiry && !(u > expiry[key]) {
        return stats;
      }
      stats := None;
      return None;
    }

    method KeepStats(saved: Statistics, t: real)
      requires Valid() && Now() <= t
      modifies this
      ensures Valid() && log == old(log) + [SaveTheStats(saved, t)]
    {
      Logged(cfg, start, log, SaveTheStats(saved, t));
      stats, expiry := Some(saved), expiry[cfg.StatsKey() := t + cfg.statsTtl];
      log := log + [SaveTheStats(saved, t)];
    }

    method ForgetStats()
      requires Valid()
      modifies this
      ensures Valid() && log == old(log) + [DeleteTheStats]
    {
      Logged(cfg, start, log, DeleteTheStats);
      stats := None;
      var key := cfg.StatsKey();
      if key in expiry {
        expiry := expiry - {key};
      }
      log := log + [DeleteTheStats];
    }
  }
}

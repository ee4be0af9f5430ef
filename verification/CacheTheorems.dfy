/** What the cache promises over whole runs. */
module CacheTheorems {
  import opened Seqs
  import opened Wrappers
  import opened CacheKeys
  import opened CacheCore
  import opened CacheLog

  /** What may still be served of a redirect at `u`: nothing at or past the link's expiry. */
  function Servable(r: Option<CachedRedirect>, u: real): Option<CachedRedirect> {
    if r.Some? && r.value.IsExpired(u) then None else r
  }

  /** The value binds the code it was saved for. */
  lemma {:induction false} HeldForItsCode(cfg: Config, ops: seq<Op>, code: string)
    ensures HeldRedirect(cfg, ops, code).Some? ==> HeldRedirect(cfg, ops, code).value.value.code == code
  {
    if ops != [] {
      HeldForItsCode(cfg, Front(ops), code);
    }
  }

  /**
   Redirect lookups refine the log: the latest surviving save for the code, within
   its time to live at the cleaning and before the link's expiry when it is served.
   */
  lemma RedirectLookupsFollowTheLog(cfg: Config, ops: seq<Op>, start: real, code: string, t: real, u: real)
    requires Timely(start, ops) && Clock(start, ops) <= t <= u
    ensures GetRedirect(cfg, Replay(cfg, ops), code, t, u) == Servable(Live(HeldRedirect(cfg, ops, code), t), u)
  {
    TidyAlways(cfg, ops, start);
    RedirectsAgree(cfg, ops, start, code);
    CleanAt(cfg, Replay(cfg, ops), t, cfg.RedirectKey(code));
    TidyClean(cfg, Replay(cfg, ops), t, Clock(start, ops));
    HeldForItsCode(cfg, ops, code);
  }

  /** Statistics: the last saved, while the second reading is still within their time. */
  lemma StatsLookupsFollowTheLog(cfg: Config, ops: seq<Op>, start: real, t: real, u: real)
    requires Timely(start, ops) && Clock(start, ops) <= t <= u
    ensures GetStats(cfg, Replay(cfg, ops), t, u) == Live(HeldStats(cfg, ops), u)
  {
    TidyAlways(cfg, ops, start);
    StatsAgree(cfg, ops, start);
    CleanAt(cfg, Replay(cfg, ops), t, cfg.StatsKey());
    TidyClean(cfg, Replay(cfg, ops), t, Clock(start, ops));
  }

  /* -------------------- what was just saved -------------------- */

  /**
   A saved link is found under its code and under its hash and scope, exactly while its
   time to live runs.
   */
  lemma SavedLinksAreFound(cfg: Config, ops: seq<Op>, start: real, link: Link, t: real, u: real, at: real)
    requires Timely(start, ops) && Clock(start, ops) <= t <= u <= at
    ensures var c := Replay(cfg, ops + [Save(link, t, u)]);
            var found := if at <= t + cfg.linkTtl then Some(link) else None;
            GetByCode(cfg, c, link.code, at) == found && GetByHash(cfg, c, link.hash, link.scope, at) == found
  {
    var all := ops + [Save(link, t, u)];
    assert Front(all) == ops && Last(all) == Save(link, t, u);
    LinkLookup(cfg, all, start, at, Code(link.code));
    LinkLookup(cfg, all, start, at, Hash(link.hash, link.scope));
  }

  /** Whether a redirect worked out at `worked` and stamped at `stamped` is still to be had. */
  predicate StillServed(cfg: Config, expiresAt: Option<real>, worked: real, stamped: real, at: real, servedAt: real) {
    && at <= stamped + cfg.linkTtl
    && (expiresAt.Some? ==> worked < expiresAt.value && at <= stamped + (expiresAt.value - worked) && servedAt < expiresAt.value)
  }

  /**
   It redirects to the link's own address, with the link's own expiry, while the time
   to live runs and before that expiry, and not otherwise.
   */
  lemma SavedLinksRedirect(cfg: Config, ops: seq<Op>, start: real, link: Link, t: real, u: real, at: real, servedAt: real)
    requires Timely(start, ops) && Clock(start, ops) <= t <= u <= at <= servedAt
    ensures var r := GetRedirect(cfg, Replay(cfg, ops + [Save(link, t, u)]), link.code, at, servedAt);
            if StillServed(cfg, link.expiresAt, u, t, at, servedAt) then
              r.Some? && r.value.code == link.code && r.value.url == link.url && r.value.expiresAt == link.expiresAt
            else r == None
  {
    var all := ops + [Save(link, t, u)];
    assert Front(all) == ops && Last(all) == Save(link, t, u);
    RedirectLookupsFollowTheLog(cfg, all, start, link.code, at, servedAt);
  }

  /** A saved redirect is answered as it was given; of an expired link nothing is stored. */
  lemma SavedRedirectsAreServed(cfg: Config, ops: seq<Op>, start: real, r: CachedRedirect, t: real, u: real, at: real, servedAt: real)
    requires Timely(start, ops) && t <= u && Clock(start, ops) <= u <= at <= servedAt
    requires r.expiresAt.Some? ==> t < r.expiresAt.value
    ensures GetRedirect(cfg, Replay(cfg, ops + [SaveARedirect(r, t, u)]), r.code, at, servedAt) ==
            if StillServed(cfg, r.expiresAt, t, u, at, servedAt) then Some(r) else None
  {
    var all := ops + [SaveARedirect(r, t, u)];
    assert Front(all) == ops && Last(all) == SaveARedirect(r, t, u);
    RedirectLookupsFollowTheLog(cfg, all, start, r.code, at, servedAt);
  }

  /** Saved statistics are answered while theirs runs. */
  lemma SavedStatsAreFound(cfg: Config, ops: seq<Op>, start: real, stats: Statistics, t: real, at: real, servedAt: real)
    requires Timely(start, ops) && Clock(start, ops) <= t <= at <= servedAt
    ensures GetStats(cfg, Replay(cfg, ops + [SaveTheStats(stats, t)]), at, servedAt) ==
            if servedAt <= t + cfg.statsTtl then Some(stats) else None
  {
    var all := ops + [SaveTheStats(stats, t)];
    assert Front(all) == ops && Last(all) == SaveTheStats(stats, t);
    StatsLookupsFollowTheLog(cfg, all, start, at, servedAt);
  }

  /* -------------------- deletion -------------------- */

  /** Whether `op` files something under one of the three keys of `link`. */
  predicate Refiles(op: Op, link: Link) {
    || (op.Save? && (op.link.code == link.code || FiledUnder(op.link, Hash(link.hash, link.scope))))
    || (op.SaveARedirect? && op.redirect.code == link.code)
  }

  lemma {:induction false} NothingHeldAfterDelete(cfg: Config, before: seq<Op>, link: Link, after: seq<Op>)
    requires forall op <- after :: !Refiles(op, link)
    ensures var ops := before + [Delete(link)] + after;
            && HeldLink(cfg, ops, Code(link.code)).None?
            && HeldLink(cfg, ops, Hash(link.hash, link.scope)).None?
            && HeldRedirect(cfg, ops, link.code).None?
  {
    var ops := before + [Delete(link)] + after;
    if after == [] {
      assert Last(ops) == Delete(link);
    } else {
      NothingHeldAfterDelete(cfg, before, link, Front(after));
      assert Front(ops) == before + [Delete(link)] + Front(after);
      assert Last(ops) == Last(after);
      assert Last(after) in after;
    }
  }

  /** None of the link's three keys answers. */
  predicate SilentAbout(cfg: Config, c: Cache, link: Link, t: real, u: real) {
    && GetByCode(cfg, c, link.code, t).None?
    && GetByHash(cfg, c, link.hash, link.scope, t).None?
    && GetRedirect(cfg, c, link.code, t, u).None?
  }

  /**
   After `delete(link)` none of the link's three keys answers, whatever else
   happens, until something is saved under one of them again.
   */
  lemma DeletedLinksStayGone(cfg: Config, before: seq<Op>, link: Link, after: seq<Op>, start: real, t: real, u: real)
    requires forall op <- after :: !Refiles(op, link)
    requires var ops := before + [Delete(link)] + after; Timely(start, ops) && Clock(start, ops) <= t <= u
    ensures SilentAbout(cfg, Replay(cfg, before + [Delete(link)] + after), link, t, u)
  {
    var ops := before + [Delete(link)] + after;
    NothingHeldAfterDelete(cfg, before, link, after);
    LinkLookupsFollowTheLog(cfg, ops, start, t);
    RedirectLookupsFollowTheLog(cfg, ops, start, link.code, t, u);
  }

  /* -------------------- expiry of the link itself -------------------- */

  /** A redirect lives the whole time to live or up to the link's expiry, whichever is sooner. */
  lemma RedirectTtlIsTheSooner(cfg: Config, expiresAt: Option<real>, now: real)
    ensures var ttl := RedirectTtl(cfg, expiresAt, now);
            && (ttl.None? <==> expiresAt.Some? && expiresAt.value <= now)
            && (ttl.Some? ==>
                  && ttl.value <= cfg.linkTtl && (expiresAt.Some? ==> now + ttl.value <= expiresAt.value)
                  && (ttl.value == cfg.linkTtl || now + ttl.value == expiresAt.value))
  {
  }

  /** How long the clock ran between working out the lifetime and stamping the entry. */
  function Slip(op: Op): real {
    if op.SaveARedirect? then op.u - op.t else 0.0
  }

  /** `op` is a save that filed `r` under its own code. */
  predicate Stores(op: Op, r: CachedRedirect) {
    || (op.Save? && r.code == op.link.code && r.url == op.link.url && r.expiresAt == op.link.expiresAt)
    || (op.SaveARedirect? && op.redirect == r)
  }

  /**
   A held redirect outlasts its link at most by the time that passed inside the
   save that stored it: not at all after `save`, and after `save_redirect` by the
   slip between its two clock readings.
   */
  lemma {:induction false} RedirectsOutlastBySlipOnly(cfg: Config, ops: seq<Op>, start: real, code: string)
    requires Timely(start, ops)
    ensures var held := HeldRedirect(cfg, ops, code);
            held.Some? ==>
              exists op <- ops :: Stores(op, held.value.value) &&
                (held.value.value.expiresAt.Some? ==> held.value.until <= held.value.value.expiresAt.value + Slip(op))
  {
    if ops != [] {
      RedirectsOutlastBySlipOnly(cfg, Front(ops), start, code);
      var held := HeldRedirect(cfg, ops, code);
      if held.Some? {
        assert Last(ops) in ops;
        if held == HeldRedirect(cfg, Front(ops), code) {
          var op :| op in Front(ops) && Stores(op, held.value.value) &&
            (held.value.value.expiresAt.Some? ==> held.value.until <= held.value.value.expiresAt.value + Slip(op));
          assert op in ops;
        }
      }
    }
  }

  /**
   Whatever redirect is ever answered has the code asked for and is, address and expiry
   included, what some save of the run filed.
   */
  lemma AnswersComeFromSaves(cfg: Config, ops: seq<Op>, start: real, code: string, t: real, u: real)
    requires Timely(start, ops) && Clock(start, ops) <= t <= u
    ensures var r := GetRedirect(cfg, Replay(cfg, ops), code, t, u);
            r.Some? ==> r.value.code == code && exists op <- ops :: Stores(op, r.value)
  {
    RedirectLookupsFollowTheLog(cfg, ops, start, code, t, u);
    HeldForItsCode(cfg, ops, code);
    RedirectsOutlastBySlipOnly(cfg, ops, start, code);
  }

  /**
   `save_redirect` keeps its entry within the link's lifetime exactly when the
   clock stood still inside it or the full time to live fits before the expiry.
   */
  lemma SaveRedirectCap(cfg: Config, ops: seq<Op>, r: CachedRedirect, t: real, u: real)
    requires r.expiresAt.Some? && t < r.expiresAt.value && t <= u
    ensures var held := HeldRedirect(cfg, ops + [SaveARedirect(r, t, u)], r.code);
            && held.Some? && held.value.value == r
            && (held.value.until <= r.expiresAt.value <==> t == u || u + cfg.linkTtl <= r.expiresAt.value)
  {
    assert Last(ops + [SaveARedirect(r, t, u)]) == SaveARedirect(r, t, u);
  }

  /** No redirect is served at or past its link's expiry, slip or no slip. */
  lemma NoRedirectPastExpiry(cfg: Config, ops: seq<Op>, start: real, code: string, t: real, u: real)
    requires Timely(start, ops) && Clock(start, ops) <= t <= u
    ensures var r := GetRedirect(cfg, Replay(cfg, ops), code, t, u);
            r.Some? && r.value.expiresAt.Some? ==> u < r.value.expiresAt.value
  {
    RedirectLookupsFollowTheLog(cfg, ops, start, code, t, u);
  }

  /* -------------------- the counters -------------------- */

  /**
   The counters add up after any run: links, redirects and statistics account for
   every key, even where statistics were dropped and their expiry left behind.
   */
  lemma CountersAddUp(cfg: Config, ops: seq<Op>, start: real, t: real)
    requires Timely(start, ops) && Clock(start, ops) <= t
    ensures var info := GetCacheInfo(cfg, Replay(cfg, ops), t);
            info.linkCount + info.redirectCount + (if info.hasStats then 1 else 0) == info.totalKeys
  {
    var c, z := Clean(cfg, Replay(cfg, ops), t), cfg.StatsKey();
    TidyAlways(cfg, ops, start);
    TidyClean(cfg, Replay(cfg, ops), t, Clock(start, ops));
    TidyCounts(cfg.prefix, z, c, t);
  }

  lemma TidyCounts(p: string, z: string, c: Cache, now: real)
    requires Tidy(p, z, c, now) && (z in c.expiry ==> c.stats.Some?)
    ensures |c.links| + |c.redirects| + (if c.stats.Some? then 1 else 0) == |c.expiry|
  {
    assert z !in c.links.Keys + c.redirects.Keys;
    assert c.links.Keys !! c.redirects.Keys by {
      forall s ensures !(s in c.links && s in c.redirects) {
        if s in c.links {
          assert IsLinkKey(p, s);
        }
      }
    }
    CountApart(c.links.Keys, c.redirects.Keys, c.expiry.Keys, z);
  }

  lemma CountApart(a: set<string>, b: set<string>, all: set<string>, z: string)
    requires a !! b && z !in a + b && a + b <= all <= a + b + {z}
    ensures |a| + |b| + (if z in all then 1 else 0) == |all|
  {
    assert all == if z in all then a + b + {z} else a + b;
  }
}

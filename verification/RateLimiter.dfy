/** The in-process rate limiter: timestamps of granted requests, pruned as it goes. */
module RateLimiter {
  import opened Seqs

  type Storage = map<string, seq<real>>

  /** Both questions; only the first one records anything. */
  datatype Call =
    | IsAllowed(key: string, limit: int, period: real, now: real)
    | GetRemaining(key: string, limit: int, period: real, now: real)

  function Stamps(storage: Storage, key: string): seq<real> {
    if key in storage then storage[key] else []
  }

  /** The timestamps strictly after the start of the window. */
  function Retain(stamps: seq<real>, windowStart: real): seq<real> {
    if stamps == [] then []
    else if stamps[0] > windowStart then [stamps[0]] + Retain(stamps[1..], windowStart)
    else Retain(stamps[1..], windowStart)
  }

  function Kept(storage: Storage, call: Call): seq<real> {
    Retain(Stamps(storage, call.key), call.now - call.period)
  }

  predicate Granted(storage: Storage, call: Call) {
    call.IsAllowed? && |Kept(storage, call)| < call.limit
  }

  function Remaining(storage: Storage, call: Call): int {
    var left := call.limit - |Kept(storage, call)|;
    if left > 0 then left else 0
  }

  function Apply(storage: Storage, call: Call): Storage {
    storage[call.key :=
      if call.GetRemaining? then Stamps(storage, call.key)
      else if Granted(storage, call) then Kept(storage, call) + [call.now]
      else Kept(storage, call)]
  }

  /* -------------------- runs -------------------- */

  function Replay(calls: seq<Call>): Storage {
    if calls == [] then map[] else Apply(Replay(Front(calls)), Last(calls))
  }

  /** When the requests of `key` that a run granted were made. */
  function Grants(calls: seq<Call>, key: string): seq<real> {
    if calls == [] then []
    else Grants(Front(calls), key) +
         if Last(calls).key == key && Granted(Replay(Front(calls)), Last(calls)) then [Last(calls).now] else []
  }

  /** The clock does not step back, and has not passed `now`. */
  predicate Timely(calls: seq<Call>, now: real) {
    calls == [] || (Last(calls).now <= now && Timely(Front(calls), Last(calls).now))
  }

  /** Every request for `key` was held to at most `limit` in at least `period`. */
  predicate HeldTo(calls: seq<Call>, key: string, limit: int, period: real) {
    forall call <- calls :: call.IsAllowed? && call.key == key ==> call.limit <= limit && call.period >= period
  }

  /** No request for `key` used a shorter period. */
  predicate NoShorter(calls: seq<Call>, key: string, period: real) {
    forall call <- calls :: call.IsAllowed? && call.key == key ==> call.period >= period
  }

  predicate Sorted(s: seq<real>) {
    forall i, j :: 0 <= i < j < |s| ==> s[i] <= s[j]
  }

  /** `stamps` is what `grants` has from index `k` on; what is before that is a period old. */
  predicate Remembers(stamps: seq<real>, grants: seq<real>, k: nat, period: real, now: real) {
    && k <= |grants| && stamps == grants[k..]
    && (forall i :: 0 <= i < k ==> grants[i] <= now - period)
  }

  predicate History(grants: seq<real>, now: real) {
    Sorted(grants) && forall i :: 0 <= i < |grants| ==> grants[i] <= now
  }

  /** Pruning a sorted list cuts a front off it. */
  lemma {:induction false} RetainIsATail(s: seq<real>, w: real) returns (k: nat)
    requires Sorted(s)
    ensures k <= |s| && Retain(s, w) == s[k..]
    ensures forall i :: 0 <= i < k ==> s[i] <= w
    ensures forall i :: k <= i < |s| ==> s[i] > w
  {
    if s == [] {
      k := 0;
    } else {
      var rest := s[1..];
      assert forall i :: 1 <= i < |s| ==> s[i] == rest[i - 1];
      var m := RetainIsATail(rest, w);
      if s[0] > w {
        k := 0;
        assert m == 0;
        assert rest[0..] == rest && s == [s[0]] + rest;
      } else {
        k := m + 1;
        assert s[k..] == rest[m..];
      }
    }
  }

  /** Pruning what storage holds is pruning all the grants, down to what it forgot. */
  lemma RetainRemembers(stamps: seq<real>, grants: seq<real>, k: nat, period: real, now: real, w: real)
    returns (m: nat)
    requires Remembers(stamps, grants, k, period, now) && History(grants, now)
    ensures k <= m <= |grants| && Retain(stamps, w) == grants[m..]
    ensures forall i :: k <= i < m ==> grants[i] <= w
    ensures forall i :: m <= i < |grants| ==> grants[i] > w
  {
    assert Sorted(stamps);
    var j := RetainIsATail(stamps, w);
    m := k + j;
    assert grants[k..][j..] == grants[m..];
    forall i | k <= i < |grants| ensures grants[i] == stamps[i - k] {
    }
  }

  lemma {:induction false} GrantsAreHistory(calls: seq<Call>, key: string, now: real)
    requires Timely(calls, now)
    ensures History(Grants(calls, key), now)
  {
    if calls != [] {
      GrantsAreHistory(Front(calls), key, Last(calls).now);
    }
  }

  /** One request keeps what storage remembers, whether or not it is granted. */
  lemma RememberStep(stamps: seq<real>, grants: seq<real>, k: nat, period: real, now: real, w: real) returns (m: nat)
    requires Remembers(stamps, grants, k, period, now) && History(grants, now) && w <= now - period
    ensures Remembers(Retain(stamps, w), grants, m, period, now)
    ensures Remembers(Retain(stamps, w) + [now], grants + [now], m, period, now)
  {
    m := RetainRemembers(stamps, grants, k, period, now, w);
    assert grants[m..] + [now] == (grants + [now])[m..];
  }

  /** What storage holds for a key, after any run with no shorter period on it. */
  lemma {:induction false} AlwaysRemembers(calls: seq<Call>, key: string, period: real, now: real) returns (k: nat)
    requires Timely(calls, now) && NoShorter(calls, key, period)
    ensures Remembers(Stamps(Replay(calls), key), Grants(calls, key), k, period, now)
  {
    if calls == [] {
      k := 0;
    } else {
      var before, call := Front(calls), Last(calls);
      assert call in calls;
      k := AlwaysRemembers(before, key, period, call.now);
      var stamps, grants := Stamps(Replay(before), key), Grants(before, key);
      GrantsAreHistory(before, key, call.now);
      OneCall(calls, key);
      StampsAfter(Replay(before), call, key);
      if call.key == key && call.IsAllowed? {
        k := RememberStep(stamps, grants, k, period, call.now, call.now - call.period);
      }
      RemembersLater(Stamps(Replay(calls), key), Grants(calls, key), k, period, call.now, now);
    }
  }

  lemma RemembersLater(stamps: seq<real>, grants: seq<real>, k: nat, period: real, earlier: real, now: real)
    requires Remembers(stamps, grants, k, period, earlier) && earlier <= now
    ensures Remembers(stamps, grants, k, period, now)
  {
  }

  /** What one call does to the timestamps of a key. */
  lemma StampsAfter(storage: Storage, call: Call, key: string)
    ensures Stamps(Apply(storage, call), key) ==
      if call.key != key || call.GetRemaining? then Stamps(storage, key)
      else if Granted(storage, call) then Kept(storage, call) + [call.now]
      else Kept(storage, call)
  {
  }

  /** And to its grants. */
  lemma OneCall(calls: seq<Call>, key: string)
    requires calls != []
    ensures var call, storage := Last(calls), Replay(Front(calls));
            && Stamps(Replay(calls), key) == Stamps(Apply(storage, call), key)
            && Grants(calls, key) == Grants(Front(calls), key) +
                 if call.key == key && Granted(storage, call) then [call.now] else []
  {
  }

  /** Grants that far apart in number lie a period apart in time. */
  predicate Spread(grants: seq<real>, limit: nat, period: real) {
    forall i, j :: 0 <= i && i + limit <= j < |grants| ==> grants[j] - grants[i] >= period
  }

  lemma OneMoreSpread(grants: seq<real>, k: nat, limit: nat, period: real, now: real)
    requires Spread(grants, limit, period) && k <= |grants| && |grants| - k < limit
    requires forall i :: 0 <= i < k ==> grants[i] <= now - period
    ensures Spread(grants + [now], limit, period)
  {
  }

  lemma {:induction false} AlwaysSpread(calls: seq<Call>, key: string, limit: nat, period: real, now: real)
    requires Timely(calls, now) && HeldTo(calls, key, limit, period)
    ensures Spread(Grants(calls, key), limit, period)
  {
    if calls != [] {
      var before, call := Front(calls), Last(calls);
      assert call in calls;
      AlwaysSpread(before, key, limit, period, call.now);
      if call.key == key && Granted(Replay(before), call) {
        var k := AlwaysRemembers(before, key, period, call.now);
        GrantsAreHistory(before, key, call.now);
        k := RetainRemembers(Stamps(Replay(before), key), Grants(before, key), k, period, call.now, call.now - call.period);
        OneMoreSpread(Grants(before, key), k, limit, period, call.now);
      }
      OneCall(calls, key);
    }
  }

  /** The grants of the window of that length that starts at `from` and includes it. */
  function From(grants: seq<real>, from: real, length: real): seq<real> {
    Filter((g: real) => from <= g < from + length, grants)
  }

  /** The grants of the window of that length that ends at `end` and includes it. */
  function Until(grants: seq<real>, end: real, length: real): seq<real> {
    Filter((g: real) => end - length < g <= end, grants)
  }

  /** A filter that takes nothing outside a stretch takes at most the stretch. */
  lemma FilterFitsIn(keep: real -> bool, s: seq<real>, lo: nat, hi: nat)
    requires lo <= hi <= |s|
    requires forall i :: 0 <= i < lo || hi <= i < |s| ==> !keep(s[i])
    ensures |Filter(keep, s)| <= hi - lo
  {
    assert s == s[..lo] + (s[lo..hi] + s[hi..]);
    FilterOfConcat(keep, s[..lo], s[lo..hi] + s[hi..]);
    FilterOfConcat(keep, s[lo..hi], s[hi..]);
    FilterShrinks(keep, s[lo..hi]);
    FilterTakesNothing(keep, s[..lo]);
    FilterTakesNothing(keep, s[hi..]);
  }

  lemma {:induction false} FilterTakesNothing(keep: real -> bool, s: seq<real>)
    requires forall i :: 0 <= i < |s| ==> !keep(s[i])
    ensures Filter(keep, s) == []
  {
    if s != [] {
      FilterTakesNothing(keep, s[1..]);
    }
  }

  /** A filter whose takings all lie less than a period apart takes at most `limit`. */
  lemma {:induction false} SpreadBoundsFilter(keep: real -> bool, grants: seq<real>, limit: nat, period: real)
    requires Spread(grants, limit, period)
    requires forall g, h :: keep(g) && keep(h) ==> h - g < period
    ensures |Filter(keep, grants)| <= limit
  {
    if grants == [] {
    } else if keep(grants[0]) {
      FilterFitsIn(keep, grants, 0, if limit <= |grants| then limit else |grants|);
    } else {
      assert Spread(grants[1..], limit, period) by {
        forall i, j | 0 <= i && i + limit <= j < |grants| - 1
          ensures grants[1..][j] - grants[1..][i] >= period
        {
          assert grants[j + 1] - grants[i + 1] >= period;
        }
      }
      SpreadBoundsFilter(keep, grants[1..], limit, period);
    }
  }

  /**
   The bound: if every request for a key was held to at most `limit` in at least
   `period`, no half-open window of that length, open at either end, ever holds
   more than `limit` granted requests.
   */
  lemma WindowsAreBounded(calls: seq<Call>, key: string, limit: nat, period: real, now: real)
    requires Timely(calls, now) && HeldTo(calls, key, limit, period)
    ensures forall x :: |From(Grants(calls, key), x, period)| <= limit
    ensures forall x :: |Until(Grants(calls, key), x, period)| <= limit
  {
    AlwaysSpread(calls, key, limit, period, now);
    forall x ensures |From(Grants(calls, key), x, period)| <= limit {
      SpreadBoundsFilter((g: real) => x <= g < x + period, Grants(calls, key), limit, period);
    }
    forall x ensures |Until(Grants(calls, key), x, period)| <= limit {
      SpreadBoundsFilter((g: real) => x - period < g <= x, Grants(calls, key), limit, period);
    }
  }

  /** Up to the present, the retained grants are those of the window ending now. */
  lemma {:induction false} RetainIsUntil(grants: seq<real>, now: real, period: real)
    requires forall i :: 0 <= i < |grants| ==> grants[i] <= now
    ensures Retain(grants, now - period) == Until(grants, now, period)
  {
    if grants != [] {
      RetainIsUntil(grants[1..], now, period);
    }
  }

  lemma {:induction false} RetainOfConcat(s: seq<real>, t: seq<real>, w: real)
    ensures Retain(s + t, w) == Retain(s, w) + Retain(t, w)
  {
    if s == [] {
      assert s + t == t;
    } else {
      RetainOfConcat(s[1..], t, w);
      assert (s + t)[0] == s[0] && (s + t)[1..] == s[1..] + t;
    }
  }

  function Later(v: real, w: real): real {
    if v >= w then v else w
  }

  /** Two prunings are the tighter one. */
  lemma {:induction false} RetainTwice(s: seq<real>, v: real, w: real)
    ensures Retain(Retain(s, v), w) == Retain(s, Later(v, w))
  {
    if s != [] {
      RetainTwice(s[1..], v, w);
      if s[0] > v {
        var kept := [s[0]] + Retain(s[1..], v);
        assert Retain(s, v) == kept && kept[0] == s[0] && kept[1..] == Retain(s[1..], v);
      }
    }
  }

  /** Whether a tighter window loses nothing of a list. */
  predicate Same(s: seq<real>, v: real, w: real) {
    forall i :: 0 <= i < |s| && s[i] > w ==> s[i] > v
  }

  lemma {:induction false} TighterRetainsLess(s: seq<real>, v: real, w: real)
    requires v >= w
    ensures |Retain(s, v)| <= |Retain(s, w)|
    ensures |Retain(s, v)| == |Retain(s, w)| <==> Same(s, v, w)
  {
    if s != [] {
      TighterRetainsLess(s[1..], v, w);
      assert Same(s, v, w) <==> (s[0] > w ==> s[0] > v) && Same(s[1..], v, w);
    }
  }

  /** No request has pruned a grant of the key that is later than `w`. */
  predicate Intact(calls: seq<Call>, key: string, w: real) {
    calls == [] ||
    (var call := Last(calls);
     && Intact(Front(calls), key, w)
     && (call.IsAllowed? && call.key == key ==> Same(Grants(Front(calls), key), call.now - call.period, w)))
  }

  /** Where the key has no grant between the two, it does not matter which is asked about. */
  lemma {:induction false} IntactMoves(calls: seq<Call>, key: string, v: real, w: real)
    requires v >= w && Same(Grants(calls, key), v, w)
    ensures Intact(calls, key, v) <==> Intact(calls, key, w)
  {
    if calls != [] {
      var grants := Grants(Front(calls), key);
      assert forall i :: 0 <= i < |grants| ==> Grants(calls, key)[i] == grants[i];
      IntactMoves(Front(calls), key, v, w);
    }
  }

  /** What storage still holds of a window, against what was granted in it. */
  lemma {:induction false} StoredAgainstGranted(calls: seq<Call>, key: string, w: real)
    ensures var stored, granted := |Retain(Stamps(Replay(calls), key), w)|, |Retain(Grants(calls, key), w)|;
            stored <= granted && (stored == granted <==> Intact(calls, key, w))
  {
    if calls != [] {
      var before, call := Front(calls), Last(calls);
      var stamps, grants := Stamps(Replay(before), key), Grants(before, key);
      OneCall(calls, key);
      StampsAfter(Replay(before), call, key);
      if call.key == key && call.IsAllowed? {
        var from := call.now - call.period;
        var kept := Retain(stamps, from);
        StoredAgainstGranted(before, key, Later(from, w));
        PrunedOnceMore(stamps, grants, from, w);
        if Same(grants, from, w) {
          IntactMoves(before, key, Later(from, w), w);
        }
        assert Kept(Replay(before), call) == kept;
        if Granted(Replay(before), call) {
          OneMoreRetained(kept, grants, call.now, w);
          assert Stamps(Replay(calls), key) == kept + [call.now] && Grants(calls, key) == grants + [call.now];
        } else {
          assert Stamps(Replay(calls), key) == kept && Grants(calls, key) == grants;
        }
      } else {
        StoredAgainstGranted(before, key, w);
        assert Grants(calls, key) == grants;
      }
    }
  }

  lemma PrunedOnceMore(stamps: seq<real>, grants: seq<real>, from: real, w: real)
    requires var v := Later(from, w); |Retain(stamps, v)| <= |Retain(grants, v)|
    ensures var v := Later(from, w);
            && |Retain(Retain(stamps, from), w)| <= |Retain(grants, w)|
            && (|Retain(Retain(stamps, from), w)| == |Retain(grants, w)| <==>
                  |Retain(stamps, v)| == |Retain(grants, v)| && Same(grants, from, w))
  {
    RetainTwice(stamps, from, w);
    TighterRetainsLess(grants, Later(from, w), w);
  }

  lemma OneMoreRetained(kept: seq<real>, grants: seq<real>, x: real, w: real)
    ensures |Retain(kept + [x], w)| == |Retain(kept, w)| + |Retain([x], w)|
    ensures |Retain(grants + [x], w)| == |Retain(grants, w)| + |Retain([x], w)|
  {
    RetainOfConcat(kept, [x], w);
    RetainOfConcat(grants, [x], w);
  }

  /**
   The verdict is about the real history, in spite of the pruning. Whatever
   periods were mixed before, a request is refused only when the window ending now
   already holds `limit` grants. It is refused exactly then, for every limit, if
   and only if no earlier request has pruned a grant of that window; and then what
   `get_remaining` answers is exactly what is left.
   */
  lemma VerdictsAreExact(calls: seq<Call>, key: string, period: real, now: real)
    requires Timely(calls, now)
    ensures var storage, window := Replay(calls), |Until(Grants(calls, key), now, period)|;
            && (forall limit :: !Granted(storage, IsAllowed(key, limit, period, now)) ==> window >= limit)
            && (Intact(calls, key, now - period)
                <==> forall limit :: Granted(storage, IsAllowed(key, limit, period, now)) <==> window < limit)
            && (Intact(calls, key, now - period) ==>
                  forall limit :: Remaining(storage, GetRemaining(key, limit, period, now))
                                  == if window < limit then limit - window else 0)
  {
    var storage, window := Replay(calls), |Until(Grants(calls, key), now, period)|;
    GrantsAreHistory(calls, key, now);
    RetainIsUntil(Grants(calls, key), now, period);
    StoredAgainstGranted(calls, key, now - period);
    var stored := |Retain(Stamps(storage, key), now - period)|;
    assert forall limit :: Granted(storage, IsAllowed(key, limit, period, now)) <==> stored < limit;
    assert stored < window ==> Granted(storage, IsAllowed(key, window, period, now));
  }

  /** If no earlier request for the key used a shorter period, nothing of the window was pruned. */
  lemma {:induction false} NoShorterIsIntact(calls: seq<Call>, key: string, period: real, now: real)
    requires Timely(calls, now) && NoShorter(calls, key, period)
    ensures Intact(calls, key, now - period)
  {
    if calls != [] {
      assert Last(calls) in calls;
      NoShorterIsIntact(Front(calls), key, period, Last(calls).now);
      GrantsAreHistory(Front(calls), key, Last(calls).now);
      IntactLater(Front(calls), key, now - period, Last(calls).now - period);
    }
  }

  lemma {:induction false} IntactLater(calls: seq<Call>, key: string, v: real, w: real)
    requires v >= w && Intact(calls, key, w)
    ensures Intact(calls, key, v)
  {
    if calls != [] {
      IntactLater(Front(calls), key, v, w);
    }
  }

  /** A request is allowed exactly when something remains at that instant. */
  lemma AllowedExactlyWhenSomethingRemains(storage: Storage, key: string, limit: int, period: real, now: real)
    ensures Granted(storage, IsAllowed(key, limit, period, now))
       <==> Remaining(storage, GetRemaining(key, limit, period, now)) > 0
  {
  }

  /**
   Why the periods matter: one request with a shorter period, refused or not,
   prunes what a longer window still needed, and the longer one then lets two
   through where one is allowed.
   */
  lemma ShorterPeriodForgets(key: string)
    ensures var calls := [IsAllowed(key, 1, 10.0, 0.0), IsAllowed(key, 0, 1.0, 5.0), IsAllowed(key, 1, 10.0, 6.0)];
            Timely(calls, 6.0) && Until(Grants(calls, key), 6.0, 10.0) == [0.0, 6.0]
  {
    var a, b, c := IsAllowed(key, 1, 10.0, 0.0), IsAllowed(key, 0, 1.0, 5.0), IsAllowed(key, 1, 10.0, 6.0);
    var one, two, three := [a], [a, b], [a, b, c];
    assert Front(one) == [] && Front(two) == one && Front(three) == two;
    assert Kept(map[], a) == [] && Granted(map[], a);
    assert [] + [0.0] == [0.0] && Apply(map[], a)[key] == Kept(map[], a) + [0.0];
    assert Apply(map[], a) == map[key := [0.0]];
    assert Replay([]) == map[] && Last(one) == a;
    assert Replay(one) == map[key := [0.0]] && Grants(one, key) == [0.0];
    assert Retain([0.0], 4.0) == [];
    assert Replay(two) == map[key := []] && Grants(two, key) == [0.0];
    assert Grants(three, key) == [0.0, 6.0];
    assert Timely(one, 5.0) && Timely(two, 6.0);
    assert Retain([6.0], -4.0) == [6.0];
    RetainIsUntil([0.0, 6.0], 6.0, 10.0);
  }
}

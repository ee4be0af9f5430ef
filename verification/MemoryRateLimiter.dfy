/** The limiter itself, updating its storage in place under its lock. */
module MemoryRateLimiter {
  import opened Seqs
  import opened RateLimiter

  lemma Extends(log: seq<Call>, call: Call)
    ensures Replay(log + [call]) == Apply(Replay(log), call)
    ensures Timely(log, call.now) ==> Timely(log + [call], call.now)
    ensures forall key ::
      Grants(log + [call], key) == Grants(log, key) + if call.key == key && Granted(Replay(log), call) then [call.now] else []
  {
    assert Front(log + [call]) == log && Last(log + [call]) == call;
  }

  class Limiter {
    var storage: Storage
    ghost var log: seq<Call>

    /** Storage is where the calls so far lead. */
    ghost predicate Valid()
      reads this
    {
      storage == Replay(log)
    }

    constructor ()
      ensures Valid() && log == []
    {
      storage, log := map[], [];
    }

    /** A missing key comes into being empty, as in a `defaultdict`. */
    method Touch(key: string)
      modifies this`storage
      ensures storage == old(storage)[key := Stamps(old(storage), key)]
    {
      if key !in storage {
        storage := storage[key := []];
      }
    }

    /** The timestamps after the window's start, in order. */
    static method After(stamps: seq<real>, windowStart: real) returns (kept: seq<real>)
      ensures kept == Retain(stamps, windowStart)
    {
      kept := [];
      var i := 0;
      while i < |stamps|
        invariant 0 <= i <= |stamps|
        invariant Retain(stamps, windowStart) == kept + Retain(stamps[i..], windowStart)
      {
        assert stamps[i..][0] == stamps[i] && stamps[i..][1..] == stamps[i + 1..];
        if stamps[i] > windowStart {
          assert Retain(stamps[i..], windowStart) == [stamps[i]] + Retain(stamps[i + 1..], windowStart);
          kept := kept + [stamps[i]];
        }
        i := i + 1;
      }
    }

    /**
     Checks and records in one step. The verdict follows the real history of
     grants, not merely what pruning left of it.
     */
    method Request(key: string, limit: int, period: real, now: real) returns (allowed: bool)
      requires Valid() && Timely(log, now)
      modifies this
      ensures Valid() && log == old(log) + [IsAllowed(key, limit, period, now)] && Timely(log, now)
      ensures Grants(log, key) == Grants(old(log), key) + if allowed then [now] else []
      ensures forall other :: other != key ==> Grants(log, other) == Grants(old(log), other)
      ensures !allowed ==> |Until(Grants(old(log), key), now, period)| >= limit
      ensures Intact(old(log), key, now - period) ==> (allowed <==> |Until(Grants(old(log), key), now, period)| < limit)
    {
      ghost var call := IsAllowed(key, limit, period, now);
      VerdictsAreExact(log, key, period, now);
      Extends(log, call);
      allowed := Record(key, limit, period, now);
      log := log + [call];
    }

    method Record(key: string, limit: int, period: real, now: real) returns (allowed: bool)
      modifies this`storage
      ensures allowed == Granted(old(storage), IsAllowed(key, limit, period, now))
      ensures storage == Apply(old(storage), IsAllowed(key, limit, period, now))
    {
      Touch(key);
      var kept := After(storage[key], now - period);
      storage := storage[key := kept];
      allowed := |storage[key]| < limit;
      if allowed {
        storage := storage[key := storage[key] + [now]];
      }
    }

    method Left(key: string, limit: int, period: real, now: real) returns (remaining: int)
      requires Valid() && Timely(log, now)
      modifies this
      ensures Valid() && log == old(log) + [GetRemaining(key, limit, period, now)] && Timely(log, now)
      ensures forall any :: Grants(log, any) == Grants(old(log), any)
      ensures 0 <= remaining
      ensures remaining > 0 <==> Granted(old(storage), IsAllowed(key, limit, period, now))
      ensures Intact(old(log), key, now - period) ==>
        var window := |Until(Grants(old(log), key), now, period)|;
        remaining == if window < limit then limit - window else 0
    {
      VerdictsAreExact(log, key, period, now);
      AllowedExactlyWhenSomethingRemains(storage, key, limit, period, now);
      ghost var call := GetRemaining(key, limit, period, now);
      Extends(log, call);
      Touch(key);
      var current := After(storage[key], now - period);
      remaining := if limit - |current| > 0 then limit - |current| else 0;
      log := log + [call];
    }
  }
}

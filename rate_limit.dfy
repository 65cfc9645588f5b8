/** The in-memory fixed-window rate limiter: one counter per key, valid
    until the end of its window. The clock reading is a parameter; the
    five-minute timer that runs the sweep is not modelled (the sweep is a
    method the caller runs with the time it reads). */
module RateLimit {

  /** `RateLimitEntry`: calls counted so far and when the window closes (ms). */
  datatype Entry = Entry(count: int, windowEnd: int)

  /** `RateLimitResult`. */
  datatype RateLimitResult = RateLimitResult(allowed: bool, remaining: int, resetAt: int)

  /** An entry whose window closed strictly before `now`; at `now == windowEnd`
      the window is still in force. */
  predicate Expired(e: Entry, now: int) {
    e.windowEnd < now
  }

  /** `checkRateLimit` on the store `s` at time `now`: its answer and the
      store it leaves behind. */
  function Check(s: map<string, Entry>, key: string, limit: int, windowMs: int, now: int)
    : (r: (RateLimitResult, map<string, Entry>))
    ensures key in r.1
    ensures forall k :: k != key ==> (k in r.1 <==> k in s)
    ensures forall k :: k in s && k != key ==> r.1[k] == s[k]
  {
    if key !in s || Expired(s[key], now) then
      (RateLimitResult(true, limit - 1, now + windowMs), s[key := Entry(1, now + windowMs)])
    else if s[key].count >= limit then
      (RateLimitResult(false, 0, s[key].windowEnd), s)
    else
      var count := s[key].count + 1;
      (RateLimitResult(true, limit - count, s[key].windowEnd), s[key := Entry(count, s[key].windowEnd)])
  }

  /** A missing or expired entry opens a new window of one call. */
  lemma FreshWindow(s: map<string, Entry>, key: string, limit: int, windowMs: int, now: int)
    requires key !in s || Expired(s[key], now)
    ensures var (res, s') := Check(s, key, limit, windowMs, now);
      && res == RateLimitResult(true, limit - 1, now + windowMs)
      && s'[key] == Entry(1, now + windowMs)
  {
  }

  /** In a live window (including its last millisecond) a key at its limit is
      refused with nothing left, the window's end as reset time and the store
      untouched; below the limit the count rises by exactly one. */
  lemma LiveWindow(s: map<string, Entry>, key: string, limit: int, windowMs: int, now: int)
    requires key in s && now <= s[key].windowEnd
    ensures var (res, s') := Check(s, key, limit, windowMs, now);
      && res.resetAt == s[key].windowEnd
      && (s[key].count >= limit ==> !res.allowed && res.remaining == 0 && s' == s)
      && (s[key].count < limit ==> res.allowed && s'[key] == Entry(s[key].count + 1, s[key].windowEnd)
                                   && res.remaining == limit - s'[key].count)
  {
  }

  /** Calls for one key at the given times, in order: how many were allowed,
      and the store afterwards. */
  function Run(s: map<string, Entry>, key: string, limit: int, windowMs: int, times: seq<int>)
    : (r: (nat, map<string, Entry>))
    ensures r.0 <= |times|
    decreases |times|
  {
    if times == [] then (0, s)
    else
      var (res, s1) := Check(s, key, limit, windowMs, times[0]);
      var (n, s2) := Run(s1, key, limit, windowMs, times[1..]);
      (if res.allowed then n + 1 else n, s2)
  }

  /** Inside one live window no more calls are allowed than the limit leaves:
      with `count` calls already counted, at most `limit - count` more pass,
      and the window keeps its end. */
  lemma {:induction false} AllowedWithinWindow(s: map<string, Entry>, key: string, limit: int, windowMs: int, times: seq<int>)
    requires key in s
    requires forall i :: 0 <= i < |times| ==> times[i] <= s[key].windowEnd
    ensures var (n, s') := Run(s, key, limit, windowMs, times);
      && n <= (if limit - s[key].count < 0 then 0 else limit - s[key].count)
      && key in s' && s'[key].windowEnd == s[key].windowEnd
  {
    if times != [] {
      var (res, s1) := Check(s, key, limit, windowMs, times[0]);
      LiveWindow(s, key, limit, windowMs, times[0]);
      assert forall i :: 0 <= i < |times[1..]| ==> times[1..][i] <= s1[key].windowEnd by {
        forall i | 0 <= i < |times[1..]| ensures times[1..][i] <= s1[key].windowEnd {
          assert times[1..][i] == times[i + 1];
        }
      }
      AllowedWithinWindow(s1, key, limit, windowMs, times[1..]);
    }
  }

  /** With limit 3 and a 60 s window, four calls from a fresh key within the
      window are allowed, allowed, allowed, refused. */
  lemma ThreeThenRefused(s: map<string, Entry>, key: string, t0: int, t1: int, t2: int, t3: int)
    requires key !in s
    requires t0 <= t1 <= t2 <= t3 <= t0 + 60000
    ensures var (r0, s0) := Check(s, key, 3, 60000, t0);
      var (r1, s1) := Check(s0, key, 3, 60000, t1);
      var (r2, s2) := Check(s1, key, 3, 60000, t2);
      var (r3, _) := Check(s2, key, 3, 60000, t3);
      && r0.allowed && r0.remaining == 2
      && r1.allowed && r1.remaining == 1
      && r2.allowed && r2.remaining == 0
      && !r3.allowed && r3.resetAt == t0 + 60000
  {
  }

  /** The store the sweep leaves: the entries whose window has not closed. */
  function Swept(s: map<string, Entry>, now: int): (r: map<string, Entry>)
    ensures forall k :: k in r <==> k in s && !Expired(s[k], now)
    ensures forall k :: k in r ==> r[k] == s[k]
  {
    map k | k in s && !Expired(s[k], now) :: s[k]
  }

  /** Sweeping at any time no later than a call does not change what the call
      answers: a swept entry had already expired, so the call opens a fresh
      window either way. */
  lemma SweepUnobservable(s: map<string, Entry>, sweepAt: int, key: string, limit: int, windowMs: int, now: int)
    requires sweepAt <= now
    ensures Check(Swept(s, sweepAt), key, limit, windowMs, now).0 == Check(s, key, limit, windowMs, now).0
    ensures Check(Swept(s, sweepAt), key, limit, windowMs, now).1[key] == Check(s, key, limit, windowMs, now).1[key]
  {
  }

  /** The module-level `store` with `checkRateLimit` and the sweep. */
  class RateLimiter {
    var store: map<string, Entry>

    constructor()
      ensures store == map[]
    {
      store := map[];
    }

    /** `checkRateLimit(key, {limit, windowMs})` at time `now`. */
    method CheckRateLimit(key: string, limit: int, windowMs: int, now: int) returns (res: RateLimitResult)
      modifies this
      ensures (res, store) == Check(old(store), key, limit, windowMs, now)
    {
      if key !in store || store[key].windowEnd < now {
        store := store[key := Entry(1, now + windowMs)];
        return RateLimitResult(true, limit - 1, now + windowMs);
      }
      var entry := store[key];
      if entry.count >= limit {
        return RateLimitResult(false, 0, entry.windowEnd);
      }
      entry := entry.(count := entry.count + 1);
      store := store[key := entry];
      res := RateLimitResult(true, limit - entry.count, entry.windowEnd);
    }

    /** The body of the periodic sweep: every entry is visited once and
      deleted when its window closed before `now`. */
    method Sweep(now: int)
      modifies this
      ensures store == Swept(old(store), now)
    {
      var keys := store.Keys;
      while keys != {}
        invariant keys <= old(store).Keys
        invariant store == map k | k in old(store) && (k in keys || !Expired(old(store)[k], now)) :: old(store)[k]
        decreases keys
      {
        var k :| k in keys;
        if store[k].windowEnd < now {
          store := store - {k};
        }
        keys := keys - {k};
      }
    }
  }
}

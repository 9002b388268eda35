/** The fixed-window rate limiter of `lib/rate-limit.ts`. A table maps each key (an IP or a
    user id behind a prefix) to the number of requests counted in its current window and the
    time that window opened. The clock is a parameter: every operation that reads
    `Date.now()` in the source takes `now` (milliseconds) here. */
module RateLimit {

  /** `RateLimitEntry`: requests counted in the window opened at `resetAt`. */
  datatype Entry = Entry(count: int, resetAt: int)

  type Table = map<string, Entry>

  const DefaultLimit := 100
  const DefaultWindowMs := 60 * 1000
  /** Entries older than this are dropped by `cleanup`. */
  const MaxAgeMs := 60 * 60 * 1000

  /** `now - entry.resetAt > windowMs`: the window has closed. At exactly `windowMs` it is
      still open. */
  predicate WindowClosed(e: Entry, now: int, windowMs: int)
  {
    now - e.resetAt > windowMs
  }

  /** Every stored entry has counted at least the request that opened its window. */
  predicate WellFormed(t: Table)
  {
    forall k :: k in t ==> t[k].count >= 1
  }

  /** One call of `check(key, limit, windowMs)` at time `now`: the new table and the verdict. */
  function CheckStep(t: Table, key: string, now: int, limit: int, windowMs: int): (r: (Table, bool))
    ensures r.0.Keys == t.Keys + {key}
    ensures forall k :: k in t && k != key ==> r.0[k] == t[k]
    ensures r.1 <==> key !in t || WindowClosed(t[key], now, windowMs) || t[key].count < limit
    ensures !r.1 ==> r.0 == t
    ensures r.1 ==> r.0[key] == if key !in t || WindowClosed(t[key], now, windowMs) then Entry(1, now)
                                 else Entry(t[key].count + 1, t[key].resetAt)
    ensures WellFormed(t) ==> WellFormed(r.0)
  {
    if key !in t || WindowClosed(t[key], now, windowMs) then (t[key := Entry(1, now)], true)
    else if t[key].count >= limit then (t, false)
    else (t[key := Entry(t[key].count + 1, t[key].resetAt)], true)
  }

  /** The window boundary is strict: a request exactly `windowMs` after the window opened
      still counts against the old window, and is refused once the quota is used up. */
  lemma BoundaryBelongsToOldWindow(t: Table, key: string, now: int, limit: int, windowMs: int)
    requires key in t && now - t[key].resetAt == windowMs && t[key].count >= limit
    ensures CheckStep(t, key, now, limit, windowMs) == (t, false)
  {
  }

  /** For `limit >= 1`, an entry that respects `1 <= count <= limit` still does after a check
      with that limit. */
  lemma CheckKeepsCountBound(t: Table, key: string, now: int, limit: int, windowMs: int)
    requires limit >= 1
    requires key in t ==> 1 <= t[key].count <= limit
    ensures var t' := CheckStep(t, key, now, limit, windowMs).0;
      key in t' && 1 <= t'[key].count <= limit
  {
  }

  /** `remaining(key, limit)`: the requests left in the key's window. */
  function RemainingIn(t: Table, key: string, limit: int): (n: int)
    ensures key !in t ==> n == limit
    ensures n >= 0 || key !in t
    ensures WellFormed(t) && key in t ==> n < limit || n == 0
    ensures WellFormed(t) && limit >= 0 ==> 0 <= n <= limit
  {
    if key !in t then limit
    else if limit - t[key].count > 0 then limit - t[key].count else 0
  }

  /** Inside an open window, `check` lets a request through exactly when `remaining` reports
      some quota left. */
  lemma CheckAgreesWithRemaining(t: Table, key: string, now: int, limit: int, windowMs: int)
    requires key in t && !WindowClosed(t[key], now, windowMs)
    ensures CheckStep(t, key, now, limit, windowMs).1 <==> RemainingIn(t, key, limit) > 0
  {
  }

  /** After `reset(key)` the key has its whole quota back; other keys keep theirs. */
  lemma RemainingAfterReset(t: Table, key: string, other: string, limit: int, otherLimit: int)
    requires other != key
    ensures RemainingIn(t - {key}, key, limit) == limit
    ensures RemainingIn(t - {key}, other, otherLimit) == RemainingIn(t, other, otherLimit)
  {
  }

  /** The outcome of a series of checks on one key at the times `nows`: the final table
      and how many of the requests were let through. */
  function CheckAll(t: Table, key: string, nows: seq<int>, limit: int, windowMs: int): (Table, nat)
    decreases |nows|
  {
    if nows == [] then (t, 0)
    else
      var step := CheckStep(t, key, nows[0], limit, windowMs);
      var rest := CheckAll(step.0, key, nows[1..], limit, windowMs);
      (rest.0, rest.1 + if step.1 then 1 else 0)
  }

  /** While a key's window stays open, the next `limit - count` requests get through and
      every later one is refused; the window does not move. */
  lemma {:induction false} OpenWindowAdmitsRemainingQuota(
    t: Table, key: string, nows: seq<int>, limit: int, windowMs: int)
    requires key in t
    requires forall i :: 0 <= i < |nows| ==> nows[i] - t[key].resetAt <= windowMs
    ensures var q := RemainingIn(t, key, limit); var r := CheckAll(t, key, nows, limit, windowMs);
      key in r.0 && r.0[key].resetAt == t[key].resetAt &&
      r.1 == if |nows| < q then |nows| else q
    decreases |nows|
  {
    if nows != [] {
      var step := CheckStep(t, key, nows[0], limit, windowMs);
      assert !WindowClosed(t[key], nows[0], windowMs);
      OpenWindowAdmitsRemainingQuota(step.0, key, nows[1..], limit, windowMs);
    }
  }

  /** The rate-limit guarantee: from a key with no open window, a burst of requests that all
      fall within `windowMs` of the first one gets at most `limit` requests through, and
      exactly `limit` when it has that many. */
  lemma AtMostLimitPerWindow(t: Table, key: string, nows: seq<int>, limit: int, windowMs: int)
    requires limit >= 1 && nows != []
    requires key !in t || WindowClosed(t[key], nows[0], windowMs)
    requires forall i :: 0 <= i < |nows| ==> nows[i] - nows[0] <= windowMs
    ensures CheckAll(t, key, nows, limit, windowMs).1 == if |nows| < limit then |nows| else limit
  {
    var step := CheckStep(t, key, nows[0], limit, windowMs);
    assert step.0[key] == Entry(1, nows[0]);
    OpenWindowAdmitsRemainingQuota(step.0, key, nows[1..], limit, windowMs);
  }

  /** An entry `cleanup` drops: its window opened more than an hour ago. */
  predicate Stale(e: Entry, now: int)
  {
    now - e.resetAt > MaxAgeMs
  }

  /** The table `cleanup` leaves: exactly the entries that are not stale. */
  function Pruned(t: Table, now: int): (r: Table)
    ensures forall k :: k in r <==> k in t && !Stale(t[k], now)
    ensures forall k :: k in r ==> r[k] == t[k]
  {
    map k | k in t && !Stale(t[k], now) :: t[k]
  }

  /** For windows of at most an hour, `cleanup` never changes a later `check`'s verdict,
      nor the entry that check leaves for its key. */
  lemma CleanupIsUnobservable(t: Table, key: string, cleanedAt: int, now: int, limit: int, windowMs: int)
    requires cleanedAt <= now && windowMs <= MaxAgeMs
    ensures var before := CheckStep(t, key, now, limit, windowMs);
      var after := CheckStep(Pruned(t, cleanedAt), key, now, limit, windowMs);
      after.1 == before.1 && after.0[key] == before.0[key]
  {
  }

  /** `RateLimiter`: the request table, updated in place. */
  class RateLimiter {
    var requests: Table

    ghost predicate Valid()
      reads this
    {
      WellFormed(requests)
    }

    constructor ()
      ensures Valid() && requests == map[]
    {
      requests := map[];
    }

    /** `check`: count a request for `key` and say whether it is allowed. */
    method Check(key: string, now: int, limit: int := DefaultLimit, windowMs: int := DefaultWindowMs)
      returns (allowed: bool)
      requires Valid()
      modifies this
      ensures Valid()
      ensures (requests, allowed) == CheckStep(old(requests), key, now, limit, windowMs)
    {
      if key !in requests || now - requests[key].resetAt > windowMs {
        requests := requests[key := Entry(1, now)];
        return true;
      }
      var entry := requests[key];
      if entry.count >= limit {
        return false;
      }
      requests := requests[key := entry.(count := entry.count + 1)];
      return true;
    }

    /** `reset`: forget the key's window; every other key keeps its entry. */
    method Reset(key: string)
      requires Valid()
      modifies this
      ensures Valid()
      ensures requests == old(requests) - {key}
    {
      requests := requests - {key};
    }

    /** `cleanup`: visit every entry and delete the stale ones. */
    method Cleanup(now: int)
      requires Valid()
      modifies this
      ensures Valid()
      ensures requests == Pruned(old(requests), now)
    {
      var pending := requests.Keys;
      while pending != {}
        invariant Valid()
        invariant pending <= requests.Keys <= old(requests).Keys
        invariant forall k :: k in requests ==> requests[k] == old(requests)[k]
        invariant forall k :: k in old(requests) && k !in pending ==>
                    (k in requests <==> !Stale(old(requests)[k], now))
        decreases pending
      {
        var key :| key in pending;
        if now - requests[key].resetAt > MaxAgeMs {
          requests := requests - {key};
        }
        pending := pending - {key};
      }
    }

    /** `remaining`: a read-only query. */
    method Remaining(key: string, limit: int := DefaultLimit) returns (n: int)
      requires Valid()
      ensures n == RemainingIn(requests, key, limit)
      ensures limit >= 0 ==> 0 <= n <= limit
    {
      if key !in requests {
        return limit;
      }
      var entry := requests[key];
      n := if limit - entry.count > 0 then limit - entry.count else 0;
    }
  }

  /** The keyed presets `authRateLimiter.login/register/resetPassword` and
      `apiRateLimiter.general/mutation`. */
  datatype Preset = Login | Register | ResetPassword | ApiGeneral | ApiMutation

  function Prefix(p: Preset): string
  {
    match p
    case Login => "login:"
    case Register => "register:"
    case ResetPassword => "reset:"
    case ApiGeneral => "api:"
    case ApiMutation => "mutation:"
  }

  /** The number of requests a preset allows per window: at least one, never more than the
      default, at most five for the authentication presets, and the default for general API use. */
  function PresetLimit(p: Preset): (n: int)
    ensures 1 <= n <= DefaultLimit
    ensures p.Login? || p.Register? || p.ResetPassword? ==> n <= 5
    ensures p.ApiGeneral? ==> n == DefaultLimit
  {
    match p
    case Login => 5
    case Register => 3
    case ResetPassword => 3
    case ApiGeneral => 100
    case ApiMutation => 30
  }

  /** A preset's window: positive and at most an hour, so `cleanup` never drops an entry whose
      window is still open; the API presets use the default one-minute window. */
  function PresetWindowMs(p: Preset): (w: int)
    ensures 0 < w <= MaxAgeMs
    ensures p.ApiGeneral? || p.ApiMutation? ==> w == DefaultWindowMs
  {
    match p
    case Login => 15 * 60 * 1000
    case Register => 60 * 60 * 1000
    case ResetPassword => 60 * 60 * 1000
    case ApiGeneral => 60 * 1000
    case ApiMutation => 60 * 1000
  }

  /** The key a preset counts under: its prefix, then the IP or user id. */
  function PresetKey(p: Preset, id: string): (k: string)
    ensures |Prefix(p)| <= |k| && k[..|Prefix(p)|] == Prefix(p) && k[|Prefix(p)|..] == id
  {
    Prefix(p) + id
  }

  /** No two presets, and no two ids, ever share a counter. */
  lemma PresetKeyInjective(p: Preset, a: string, q: Preset, b: string)
    requires PresetKey(p, a) == PresetKey(q, b)
    ensures p == q && a == b
  {
    var k := PresetKey(p, a);
    if p != q {
      DistinctPrefixesClash(p, q, a, b);
    }
    assert a == k[|Prefix(p)|..];
  }

  /** Two different presets' prefixes disagree at position 0 or 2, so their keys differ. */
  lemma DistinctPrefixesClash(p: Preset, q: Preset, a: string, b: string)
    requires p != q
    ensures PresetKey(p, a) != PresetKey(q, b)
  {
    var x, y := PresetKey(p, a), PresetKey(q, b);
    assert x[0] != y[0] || x[2] != y[2];
  }

  /** A preset check (`authRateLimiter.login(ip)`, ...): `check` under the preset's key,
      limit and window. */
  method CheckPreset(limiter: RateLimiter, p: Preset, id: string, now: int) returns (allowed: bool)
    requires limiter.Valid()
    modifies limiter
    ensures limiter.Valid()
    ensures (limiter.requests, allowed) ==
              CheckStep(old(limiter.requests), PresetKey(p, id), now, PresetLimit(p), PresetWindowMs(p))
  {
    allowed := limiter.Check(PresetKey(p, id), now, PresetLimit(p), PresetWindowMs(p));
  }
}

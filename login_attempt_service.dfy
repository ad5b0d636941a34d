/**
 * The login-attempt throttle: a per-client failure counter whose entries expire a fixed
 * time after their last write, and the block decision taken on it.
 *
 * The Guava `LoadingCache` is a map from client key to `Attempt`; an entry is live while
 * less than `BAN_DURATION` has passed since its last write, and a key without a live entry
 * reads as the loader's 0. Time is an explicit, non-decreasing `now` in milliseconds.
 */
module LoginAttempt {
  import opened Wrappers
  import opened Strings

  /** Failures at or above this count block the client. */
  const MAX_ATTEMPT: nat := 3
  /** Minutes an entry lives after its last write. */
  const BAN_DURATION_MINUTES: nat := 5
  /** The same window in milliseconds, the unit of `now`. */
  const BAN_DURATION: nat := BAN_DURATION_MINUTES * 60 * 1000

  /** A cache entry: the failure count and the time it was last written. */
  datatype Attempt = Attempt(count: nat, lastWrite: nat)

  type Cache = map<string, Attempt>

  /** The servlet request, reduced to what `getClientIP` reads. */
  datatype Request = Request(forwardedFor: Option<string>, remoteAddr: string)

  // ---------------------------------------------------------------------------------------
  // The expire-after-write store, as functions of the cache contents.

  /** `key` has an entry that has not yet expired at `now`. */
  predicate Live(cache: Cache, key: string, now: nat) {
    key in cache && now < cache[key].lastWrite + BAN_DURATION
  }

  /** The value `attemptsCache.get(key)` returns at `now`: the live count, else the loader's 0. */
  function CountAt(cache: Cache, key: string, now: nat): (n: nat)
    ensures !Live(cache, key, now) ==> n == 0
    ensures Live(cache, key, now) ==> n == cache[key].count
  {
    if Live(cache, key, now) then cache[key].count else 0
  }

  /** The decision of `isBlocked` for `key` at `now`. */
  predicate BlockedAt(cache: Cache, key: string, now: nat) {
    CountAt(cache, key, now) >= MAX_ATTEMPT
  }

  /** The cache after `get(key)`: a missing or expired entry is replaced by the loaded 0. */
  function AfterLoad(cache: Cache, key: string, now: nat): (c: Cache)
    ensures c.Keys == cache.Keys + {key}
    ensures Live(c, key, now) && CountAt(c, key, now) == CountAt(cache, key, now)
    ensures !Live(cache, key, now) ==> c[key] == Attempt(0, now)
    ensures Live(cache, key, now) ==> c == cache
    ensures forall k :: k != key ==> SameEntry(c, cache, k)
  {
    if Live(cache, key, now) then cache else cache[key := Attempt(0, now)]
  }

  /** The cache after `loginFailed` for `key` at `now`: one more than the live count, stamped `now`. */
  function AfterFailure(cache: Cache, key: string, now: nat): (c: Cache)
    ensures c.Keys == cache.Keys + {key}
    ensures c[key] == Attempt(CountAt(cache, key, now) + 1, now)
    ensures forall k :: k != key ==> SameEntry(c, cache, k)
  {
    cache[key := Attempt(CountAt(cache, key, now) + 1, now)]
  }

  /** `k` has the same entry, or none, in both caches. */
  predicate SameEntry(c1: Cache, c2: Cache, k: string) {
    (k in c1 <==> k in c2) && (k in c1 ==> c1[k] == c2[k])
  }

  /** Every key reads the same count in both caches at every time from `from` on. */
  ghost predicate SameView(c1: Cache, c2: Cache, from: nat) {
    forall k, t :: from <= t ==> CountAt(c1, k, t) == CountAt(c2, k, t)
  }

  /** The failures recorded for `key` at the successive `times`. */
  function AfterFailures(cache: Cache, key: string, times: seq<nat>): Cache
    decreases |times|
  {
    if times == [] then cache else AfterFailures(AfterFailure(cache, key, times[0]), key, times[1..])
  }

  /** Each time is at or after the previous one and less than `BAN_DURATION` after it. */
  predicate Spaced(times: seq<nat>) {
    forall i :: 0 < i < |times| ==> times[i - 1] <= times[i] < times[i - 1] + BAN_DURATION
  }

  // ---------------------------------------------------------------------------------------
  // Properties of the store.

  /** A key with no live entry reads as 0 and is not blocked. */
  lemma NoLiveEntryReadsZero(cache: Cache, key: string, now: nat)
    requires !Live(cache, key, now)
    ensures CountAt(cache, key, now) == 0 && !BlockedAt(cache, key, now)
  {
  }

  /**
   * A failure sets the key's count to its previous live count plus one for the next
   * `BAN_DURATION` milliseconds, after which it reads as 0; no other key is affected.
   */
  lemma FailureEffect(cache: Cache, key: string, now: nat, k: string, t: nat)
    requires now <= t
    ensures k == key && t < now + BAN_DURATION ==>
              CountAt(AfterFailure(cache, key, now), k, t) == CountAt(cache, key, now) + 1
    ensures k == key && t >= now + BAN_DURATION ==> CountAt(AfterFailure(cache, key, now), k, t) == 0
    ensures k != key ==> CountAt(AfterFailure(cache, key, now), k, t) == CountAt(cache, k, t)
    ensures k != key ==> SameEntry(AfterFailure(cache, key, now), cache, k)
  {
  }

  /** Loading the 0 for an absent or expired key is invisible from then on. */
  lemma LoadUnobservable(cache: Cache, key: string, now: nat)
    ensures SameView(AfterLoad(cache, key, now), cache, now)
  {
  }

  /**
   * Caches no query can tell apart from `from` on stay so after the same failure or the
   * same load at any later time: the load's 0 stays invisible to every later query.
   */
  lemma FailurePreservesSameView(c1: Cache, c2: Cache, from: nat, key: string, now: nat)
    requires SameView(c1, c2, from) && from <= now
    ensures SameView(AfterFailure(c1, key, now), AfterFailure(c2, key, now), now)
  {
    forall k, t | now <= t
      ensures CountAt(AfterFailure(c1, key, now), k, t) == CountAt(AfterFailure(c2, key, now), k, t)
    {
      FailureEffect(c1, key, now, k, t);
      FailureEffect(c2, key, now, k, t);
    }
  }

  /** The same for a load: two indistinguishable caches stay so after loading one key. */
  lemma LoadPreservesSameView(c1: Cache, c2: Cache, from: nat, key: string, now: nat)
    requires SameView(c1, c2, from) && from <= now
    ensures SameView(AfterLoad(c1, key, now), AfterLoad(c2, key, now), now)
  {
    LoadUnobservable(c1, key, now);
    LoadUnobservable(c2, key, now);
  }

  /** An entry not written for `BAN_DURATION` or more reads 0, and the next failure counts 1. */
  lemma ExpiredEntryRestarts(cache: Cache, key: string, now: nat)
    requires key in cache && now >= cache[key].lastWrite + BAN_DURATION
    ensures CountAt(cache, key, now) == 0 && !BlockedAt(cache, key, now)
    ensures CountAt(AfterFailure(cache, key, now), key, now) == 1
  {
  }

  /** A blocked key that keeps failing stays blocked for `BAN_DURATION` after each failure. */
  lemma FailureKeepsBlocked(cache: Cache, key: string, now: nat, t: nat)
    requires BlockedAt(cache, key, now)
    requires now <= t < now + BAN_DURATION
    ensures BlockedAt(AfterFailure(cache, key, now), key, t)
  {
  }

  /**
   * Failures spaced less than `BAN_DURATION` apart accumulate: after them the key reads
   * the live count before the first one plus their number, until `BAN_DURATION` after the last.
   */
  lemma {:induction false} FailuresAccumulate(cache: Cache, key: string, times: seq<nat>, t: nat)
    requires |times| > 0 && Spaced(times)
    requires times[|times| - 1] <= t < times[|times| - 1] + BAN_DURATION
    ensures CountAt(AfterFailures(cache, key, times), key, t) == CountAt(cache, key, times[0]) + |times|
    decreases |times|
  {
    var next := AfterFailure(cache, key, times[0]);
    if |times| == 1 {
      assert AfterFailures(cache, key, times) == AfterFailures(next, key, []);
    } else {
      var rest := times[1..];
      assert Spaced(rest) by {
        forall i | 0 < i < |rest| ensures rest[i - 1] <= rest[i] < rest[i - 1] + BAN_DURATION {
          assert rest[i - 1] == times[i] && rest[i] == times[i + 1];
        }
      }
      assert times[0] <= times[1] < times[0] + BAN_DURATION;
      FailuresAccumulate(next, key, rest, t);
    }
  }

  /** Failures for one key leave every other key's entry as it was. */
  lemma {:induction false} FailuresLeaveOtherKeys(cache: Cache, key: string, times: seq<nat>, k: string)
    requires k != key
    ensures SameEntry(AfterFailures(cache, key, times), cache, k)
    decreases |times|
  {
    if times != [] {
      FailuresLeaveOtherKeys(AfterFailure(cache, key, times[0]), key, times[1..], k);
    }
  }

  /**
   * Starting from no live entry, failures spaced less than `BAN_DURATION` apart block the
   * key exactly when there have been at least `MAX_ATTEMPT` of them: one or two do not,
   * the third does.
   */
  lemma BlockedExactlyAtThreshold(cache: Cache, key: string, times: seq<nat>, t: nat)
    requires |times| > 0 && Spaced(times) && !Live(cache, key, times[0])
    requires times[|times| - 1] <= t < times[|times| - 1] + BAN_DURATION
    ensures CountAt(AfterFailures(cache, key, times), key, t) == |times|
    ensures BlockedAt(AfterFailures(cache, key, times), key, t) <==> |times| >= MAX_ATTEMPT
  {
    FailuresAccumulate(cache, key, times, t);
  }

  // ---------------------------------------------------------------------------------------
  // The client key.

  /** What a servlet container reports as the peer address: non-empty, without commas. */
  predicate IsAddress(s: string) {
    s != [] && ',' !in s
  }

  /**
   * Java's `s.split(",")[0]`: the text before the first comma. When every comma-separated
   * field is empty Java's split returns an empty array and the index throws: `None`.
   */
  function FirstField(s: string): (r: Option<string>)
    ensures r.Some? ==> r.value <= s && ',' !in r.value
    ensures r.Some? && ',' !in s ==> r.value == s
    ensures r.Some? && |r.value| < |s| ==> s[|r.value|] == ','
    ensures r.None? <==> s != [] && forall i :: 0 <= i < |s| ==> s[i] == ','
  {
    if s != [] && forall i :: 0 <= i < |s| ==> s[i] == ',' then
      assert s[0] == ',';
      None
    else Some(s[..IndexOf(s, ',')])
  }

  /**
   * `getClientIP`: the peer address unless the `X-Forwarded-For` header is present,
   * non-empty and contains it; then the header's first field. `None` is the exception
   * Java's split-and-index throws for a header made of commas only.
   */
  function GetClientIP(request: Request): (key: Option<string>)
    ensures key.None? <==> request.forwardedFor.Some? && request.forwardedFor.value != []
                           && Contains(request.forwardedFor.value, request.remoteAddr)
                           && forall i :: 0 <= i < |request.forwardedFor.value| ==> request.forwardedFor.value[i] == ','
    ensures key.Some? ==> key.value == request.remoteAddr
                          || (request.forwardedFor.Some? && key.value <= request.forwardedFor.value
                              && ',' !in key.value)
  {
    match request.forwardedFor
    case None => Some(request.remoteAddr)
    case Some(header) =>
      if header == [] || !Contains(header, request.remoteAddr) then Some(request.remoteAddr)
      else FirstField(header)
  }

  /** Without a usable header the key is exactly the peer address. */
  lemma ClientIPFallsBackToRemote(request: Request)
    requires request.forwardedFor.None? || request.forwardedFor.value == []
             || !Contains(request.forwardedFor.value, request.remoteAddr)
    ensures GetClientIP(request) == Some(request.remoteAddr)
  {
  }

  /**
   * With a non-empty header containing a real peer address the key is the header's text
   * before its first comma (the whole header when it has none).
   */
  lemma ClientIPFromHeader(request: Request, header: string)
    requires request.forwardedFor == Some(header) && header != []
    requires Contains(header, request.remoteAddr) && IsAddress(request.remoteAddr)
    ensures GetClientIP(request) == Some(header[..IndexOf(header, ',')])
    ensures ',' !in header ==> GetClientIP(request) == Some(header)
  {
    var i :| 0 <= i <= |header| - |request.remoteAddr| && OccursAt(header, request.remoteAddr, i);
    assert header[i] == request.remoteAddr[0];
    assert header[i] != ',';
  }

  /** For a real peer address the key is always defined. */
  lemma ClientIPDefined(request: Request)
    requires IsAddress(request.remoteAddr)
    ensures GetClientIP(request).Some?
  {
    if request.forwardedFor.Some? && request.forwardedFor.value != []
       && Contains(request.forwardedFor.value, request.remoteAddr) {
      ClientIPFromHeader(request, request.forwardedFor.value);
    }
  }

  /** An empty peer address and a comma-only header make `getClientIP` throw. */
  lemma ClientIPThrowsOnCommaHeader()
    ensures GetClientIP(Request(Some(","), "")) == None
  {
    assert OccursAt(",", "", 0);
  }

  // ---------------------------------------------------------------------------------------
  // The service object.

  class LoginAttemptService {
    /** The Guava cache's entries, expired ones included until they are overwritten. */
    var attemptsCache: Cache
    /** The latest time any operation has seen; times never go backwards. */
    ghost var clock: nat

    constructor ()
      ensures attemptsCache == map[] && clock == 0
    {
      attemptsCache := map[];
      clock := 0;
    }

    /** `attemptsCache.get(key)`: the live count, loading (writing) a 0 when there is none. */
    method Get(key: string, now: nat) returns (attempts: nat)
      requires clock <= now
      modifies this
      ensures attempts == CountAt(old(attemptsCache), key, now)
      ensures attemptsCache == AfterLoad(old(attemptsCache), key, now)
      ensures clock == now
    {
      if Live(attemptsCache, key, now) {
        attempts := attemptsCache[key].count;
      } else {
        attempts := 0;
        attemptsCache := attemptsCache[key := Attempt(0, now)];
      }
      clock := now;
    }

    /**
     * `loginFailed`: reads the client's live count, adds one and writes it back. When the
     * client key cannot be derived the call throws and the cache is unchanged.
     */
    method LoginFailed(request: Request, now: nat) returns (key: Option<string>)
      requires clock <= now
      modifies this
      ensures key == GetClientIP(request)
      ensures key.None? ==> attemptsCache == old(attemptsCache)
      ensures key.Some? ==> attemptsCache == AfterFailure(old(attemptsCache), key.value, now)
      ensures clock == now
    {
      key := GetClientIP(request);
      if key.Some? {
        var attempts := Get(key.value, now);
        attempts := attempts + 1;
        attemptsCache := attemptsCache[key.value := Attempt(attempts, now)];
      }
      clock := now;
    }

    /**
     * `isBlocked`: whether the client's live count has reached `MAX_ATTEMPT`. The read may
     * load a 0 entry, which no later read can tell apart from the state before.
     */
    method IsBlocked(request: Request, now: nat) returns (blocked: Option<bool>)
      requires clock <= now
      modifies this
      ensures GetClientIP(request).None? ==> blocked.None? && attemptsCache == old(attemptsCache)
      ensures GetClientIP(request).Some? ==>
                blocked == Some(BlockedAt(old(attemptsCache), GetClientIP(request).value, now))
      ensures SameView(attemptsCache, old(attemptsCache), now)
      ensures clock == now
    {
      var key := GetClientIP(request);
      if key.None? {
        blocked := None;
      } else {
        LoadUnobservable(attemptsCache, key.value, now);
        var attempts := Get(key.value, now);
        blocked := Some(attempts >= MAX_ATTEMPT);
      }
      clock := now;
    }
  }

  /**
   * The scenario of the service's tests for peer address 127.0.0.1: one or two failures do
   * not block, the third does, and two failures followed by six minutes' wait do not.
   */
  lemma TestScenario(t0: nat)
    ensures var key := "127.0.0.1";
            var c1 := AfterFailure(map[], key, t0);
            var c2 := AfterFailure(c1, key, t0);
            var c3 := AfterFailure(c2, key, t0);
            !BlockedAt(map[], key, t0) && !BlockedAt(c1, key, t0) && !BlockedAt(c2, key, t0)
            && BlockedAt(c3, key, t0)
            && !BlockedAt(c2, key, t0 + (5 + 1) * 60 * 1000)
  {
  }
}

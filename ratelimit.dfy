/**
 * The request gates in front of the handlers: the fixed-window rate limiter
 * kept in the `api_rate_limits` table, the storage-quota gate for uploads,
 * the request-size gate, and the substring search the quota gate uses to
 * pick out upload paths.
 */
module RateLimit {

  import opened Wrappers
  import opened Models
  import opened FileHelpers

  /** What the authentication layer left in the request context under `user_id`. */
  datatype Caller = Anonymous | CallerId(id: Uuid) | NotAUuid

  /** A rate-limit row is found by user and endpoint. */
  datatype LimitKey = LimitKey(user: Uuid, endpoint: string)

  /** The answer of the database limiter: let through without a row, let through and counted, 429 with a retry delay in seconds, or 500. */
  datatype Verdict = Bypass | Allowed | Limited(retryAfter: int) | InvalidUserId

  const HealthPath: string := "/health"

  /** The window of a row closes here; a request strictly later starts a new one. */
  function WindowEnd(rec: APIRateLimit): Time {
    rec.windowStart + rec.windowDuration
  }

  /** The row the first request of a user on an endpoint creates: counted once, one second, two requests. */
  function FirstRecord(key: LimitKey, now: Time): (rec: APIRateLimit)
    ensures rec.requestCount == 1 && rec.windowStart == now && rec.maxRequests == DefaultMaxRequests
    ensures rec.windowDuration == NanosPerSecond && rec.userId == key.user && rec.endpoint == key.endpoint
  {
    APIRateLimit(key.user, key.endpoint, 1, now, NanosPerSecond, 2)
  }

  /** The first row is the schema's default row, counted once. */
  lemma FirstRecordFromDefaults(key: LimitKey, now: Time)
    ensures FirstRecord(key, now) == DefaultRateLimit(key.user, key.endpoint, now).(requestCount := 1)
  {
  }

  /**
   * `retry_after` of a 429: whole seconds left in the window, truncated,
   * plus one. Within the window what is left is not negative, so
   * truncation and Dafny's division agree.
   */
  function RetryAfter(rec: APIRateLimit, now: Time): int
    requires now <= WindowEnd(rec)
  {
    (WindowEnd(rec) - now) / NanosPerSecond + 1
  }

  /** The limiter's answer to a request on an existing row, and the row it saves (a rejected request saves nothing). */
  function Serve(rec: APIRateLimit, now: Time): (r: (APIRateLimit, Verdict))
    ensures r.1.Allowed? || r.1.Limited?
    ensures r.1.Limited? ==> r.0 == rec
    ensures r.0.windowDuration == rec.windowDuration && r.0.maxRequests == rec.maxRequests
    ensures r.0.userId == rec.userId && r.0.endpoint == rec.endpoint
    // past the window: a new window opens now, with this request counted once
    ensures now > WindowEnd(rec) ==> r.1 == Allowed && r.0.requestCount == 1 && r.0.windowStart == now
    // inside the window: the window stays; a full one refuses, otherwise the request is counted
    ensures now <= WindowEnd(rec) ==> r.0.windowStart == rec.windowStart
    ensures now <= WindowEnd(rec) ==>
              (r.1.Limited? <==> rec.requestCount >= rec.maxRequests)
              && (r.1.Allowed? ==> r.0.requestCount == rec.requestCount + 1)
  {
    if now > WindowEnd(rec) then (rec.(requestCount := 1, windowStart := now), Allowed)
    else if rec.requestCount >= rec.maxRequests then (rec, Limited(RetryAfter(rec, now)))
    else (rec.(requestCount := rec.requestCount + 1), Allowed)
  }

  /** `DatabaseRateLimit` on the table: the verdict and the table after the request. */
  function Limit(rows: map<LimitKey, APIRateLimit>, path: string, caller: Caller, now: Time): (r: (map<LimitKey, APIRateLimit>, Verdict))
    ensures r.1.Bypass? || r.1.InvalidUserId? || r.1.Limited? ==> r.0 == rows
    ensures path == HealthPath || caller.Anonymous? ==> r == (rows, Bypass)
    ensures path != HealthPath && caller.NotAUuid? ==> r == (rows, InvalidUserId)
    ensures path != HealthPath && caller.CallerId? ==> (r.1.Allowed? || r.1.Limited?) && LimitKey(caller.id, path) in r.0
    ensures r.0.Keys == rows.Keys || (caller.CallerId? && r.0.Keys == rows.Keys + {LimitKey(caller.id, path)})
    ensures forall k :: k in rows && !(caller.CallerId? && k == LimitKey(caller.id, path)) ==> r.0[k] == rows[k]
  {
    if path == HealthPath then (rows, Bypass)
    else
      match caller
      case Anonymous => (rows, Bypass)
      case NotAUuid => (rows, InvalidUserId)
      case CallerId(user) =>
        var key := LimitKey(user, path);
        if key !in rows then (rows[key := FirstRecord(key, now)], Allowed)
        else
          var (rec, verdict) := Serve(rows[key], now);
          (rows[key := rec], verdict)
  }

  // ---------------------------------------------------------------- the table

  /** The database limiter's table, one row per user and endpoint. */
  class LimitTable {
    var rows: map<LimitKey, APIRateLimit>

    constructor ()
      ensures rows == map[]
    {
      rows := map[];
    }

    /** Every row admits at least one request per window and never counts past its maximum. */
    predicate Valid()
      reads this
    {
      RowsSane(rows)
    }

    /**
     * `DatabaseRateLimit`: health checks and anonymous callers pass
     * untouched; otherwise the caller's row for the endpoint is created,
     * reset, rejected or counted up.
     */
    method DatabaseRateLimit(path: string, caller: Caller, now: Time) returns (v: Verdict)
      requires Valid()
      modifies this
      ensures Valid()
      ensures (rows, v) == Limit(old(rows), path, caller, now)
    {
      LimitKeepsSane(rows, path, caller, now);
      if path == HealthPath {
        return Bypass;
      }
      if caller.Anonymous? {
        return Bypass;
      }
      if caller.NotAUuid? {
        return InvalidUserId;
      }
      var key := LimitKey(caller.id, path);
      if key !in rows {
        rows := rows[key := FirstRecord(key, now)];
        return Allowed;
      }
      var rateLimit := rows[key];
      if now > rateLimit.windowStart + rateLimit.windowDuration {
        rateLimit := rateLimit.(requestCount := 1, windowStart := now);
        rows := rows[key := rateLimit];
        return Allowed;
      }
      if rateLimit.requestCount >= rateLimit.maxRequests {
        return Limited((rateLimit.windowStart + rateLimit.windowDuration - now) / NanosPerSecond + 1);
      }
      rateLimit := rateLimit.(requestCount := rateLimit.requestCount + 1);
      rows := rows[key := rateLimit];
      v := Allowed;
    }
  }

  // ---------------------------------------------------------------- properties of the limiter

  /** A row that admits at least one request per window and has not counted past its maximum. */
  predicate Sane(rec: APIRateLimit) {
    1 <= rec.maxRequests && 0 <= rec.requestCount <= rec.maxRequests && rec.windowDuration >= 0
  }

  predicate RowsSane(rows: map<LimitKey, APIRateLimit>) {
    forall k :: k in rows ==> Sane(rows[k])
  }

  /** Every request keeps every row within its maximum. */
  lemma LimitKeepsSane(rows: map<LimitKey, APIRateLimit>, path: string, caller: Caller, now: Time)
    requires RowsSane(rows)
    ensures RowsSane(Limit(rows, path, caller, now).0)
  {
  }

  /** A request that is let through has its row counting it: at least one and at most the maximum. */
  lemma AllowedIsCounted(rows: map<LimitKey, APIRateLimit>, path: string, user: Uuid, now: Time)
    requires RowsSane(rows) && path != HealthPath
    ensures var (after, v) := Limit(rows, path, CallerId(user), now);
            var key := LimitKey(user, path);
            && (v.Allowed? || v.Limited?)
            && key in after
            && (v.Allowed? ==> 1 <= after[key].requestCount <= after[key].maxRequests)
            && (v.Allowed? && key in rows && now <= WindowEnd(rows[key]) ==>
                  after[key].requestCount == rows[key].requestCount + 1
                  && after[key].windowStart == rows[key].windowStart)
            && (key in rows && now > WindowEnd(rows[key]) ==>
                  v == Allowed && after[key].requestCount == 1 && after[key].windowStart == now)
            && (v.Limited? <==> key in rows && now <= WindowEnd(rows[key])
                                && rows[key].requestCount >= rows[key].maxRequests)
  {
  }

  /**
   * The delay a 429 announces is at least a second and exactly long
   * enough: a retry after it falls past the window and is let through,
   * while one a second earlier would still fall inside the window.
   */
  lemma RetryAfterSuffices(rec: APIRateLimit, now: Time)
    requires Sane(rec)
    ensures Serve(rec, now).1.Limited? ==>
              var r := Serve(rec, now).1.retryAfter;
              && r >= 1
              && now + r * NanosPerSecond > WindowEnd(rec)
              && now + (r - 1) * NanosPerSecond <= WindowEnd(rec)
              && Serve(rec, now + r * NanosPerSecond).1 == Allowed
  {
  }

  /** The number of requests let through when a row sees requests at the given instants, in order. */
  function Admitted(rec: APIRateLimit, times: seq<Time>): nat
    decreases |times|
  {
    if |times| == 0 then 0
    else
      var (next, v) := Serve(rec, times[0]);
      (if v.Allowed? then 1 else 0) + Admitted(next, times[1..])
  }

  /** Requests that all fall inside a row's current window are let through at most as often as the row has room for. */
  lemma {:induction false} AtMostMaxPerWindow(rec: APIRateLimit, times: seq<Time>)
    requires forall i :: 0 <= i < |times| ==> times[i] <= WindowEnd(rec)
    ensures Admitted(rec, times) <= if rec.requestCount < rec.maxRequests then rec.maxRequests - rec.requestCount else 0
    decreases |times|
  {
    if |times| > 0 {
      var next := Serve(rec, times[0]).0;
      assert WindowEnd(next) == WindowEnd(rec);
      forall i | 0 <= i < |times[1..]| ensures times[1..][i] <= WindowEnd(next) {
        assert times[1..][i] == times[i + 1];
      }
      AtMostMaxPerWindow(next, times[1..]);
    }
  }

  /** From a user's first request on an endpoint, at most two requests in the following second get through. */
  lemma TwoPerSecond(key: LimitKey, first: Time, later: seq<Time>)
    requires forall i :: 0 <= i < |later| ==> later[i] <= first + NanosPerSecond
    ensures 1 + Admitted(FirstRecord(key, first), later) <= 2
  {
    AtMostMaxPerWindow(FirstRecord(key, first), later);
  }

  /**
   * A request that finds its window over opens a new one: counting that
   * request, at most the row's maximum get through from then until the new
   * window closes.
   */
  lemma ResetAdmitsAtMostMax(rec: APIRateLimit, now: Time, later: seq<Time>)
    requires Sane(rec) && now > WindowEnd(rec)
    requires forall i :: 0 <= i < |later| ==> later[i] <= now + rec.windowDuration
    ensures Serve(rec, now).1 == Allowed
    ensures 1 + Admitted(Serve(rec, now).0, later) <= rec.maxRequests
  {
    var reset := Serve(rec, now).0;
    assert WindowEnd(reset) == now + rec.windowDuration;
    AtMostMaxPerWindow(reset, later);
  }

  // ---------------------------------------------------------------- substring search

  /** `sub` occurs in `s` starting at offset `i`. */
  predicate MatchesAt(sub: string, s: string, i: int) {
    0 <= i && i + |sub| <= |s| && s[i..i + |sub|] == sub
  }

  /** `sub` occurs in `s` as a contiguous run. */
  predicate OccursIn(sub: string, s: string) {
    exists i :: 0 <= i <= |s| && MatchesAt(sub, s, i)
  }

  /** Some element of `subs` occurs in `s`. */
  predicate ContainsAny(s: string, subs: seq<string>) {
    exists k :: 0 <= k < |subs| && OccursIn(subs[k], s)
  }

  /** `contains`: tries each substring at every offset where it fits. */
  method Contains(s: string, subs: seq<string>) returns (found: bool)
    ensures found <==> ContainsAny(s, subs)
  {
    for k := 0 to |subs|
      invariant forall j :: 0 <= j < k ==> !OccursIn(subs[j], s)
    {
      var sub := subs[k];
      if |s| >= |sub| {
        for i := 0 to |s| - |sub| + 1
          invariant forall m :: 0 <= m < i ==> !MatchesAt(sub, s, m)
        {
          if s[i..i + |sub|] == sub {
            assert MatchesAt(subs[k], s, i);
            return true;
          }
        }
      }
    }
    return false;
  }

  /** An empty list matches nothing; the empty string occurs everywhere. */
  lemma ContainsAnyEdges(s: string, subs: seq<string>)
    ensures !ContainsAny(s, [])
    ensures "" in subs ==> ContainsAny(s, subs)
  {
    if "" in subs {
      var k :| 0 <= k < |subs| && subs[k] == "";
      assert MatchesAt(subs[k], s, 0);
    }
  }

  // ---------------------------------------------------------------- the quota and size gates

  const UploadPaths: seq<string> := ["/upload", "/files"]

  /** What `StorageQuotaMiddleware` does with a request. */
  datatype QuotaVerdict =
    | NotChecked
    | AuthRequired
    | BadUserId
    | AccountNotFound
    | OverQuota(quota: int, used: int)
    | Within(remaining: int, quota: int, used: int)

  /**
   * `StorageQuotaMiddleware`: only POSTs to an upload path are checked;
   * those need an authenticated caller with an account and a quota not yet
   * used up, and the room left is handed on to the upload handler.
   */
  function QuotaGate(httpMethod: string, path: string, caller: Caller, users: map<Uuid, User>): (r: QuotaVerdict)
    ensures r.Within? ==> r.remaining > 0 && r.used + r.remaining == r.quota
  {
    if httpMethod != "POST" || !ContainsAny(path, UploadPaths) then NotChecked
    else
      match caller
      case Anonymous => AuthRequired
      case NotAUuid => BadUserId
      case CallerId(id) =>
        if id !in users then AccountNotFound
        else
          var u := users[id];
          var remaining := u.storageQuota - u.storageUsed;
          if remaining <= 0 then OverQuota(u.storageQuota, u.storageUsed)
          else Within(remaining, u.storageQuota, u.storageUsed)
  }

  /**
   * For a checked upload by a known user the gate rejects exactly when the
   * quota is used up, and otherwise hands on the same room that the
   * statistics report as remaining.
   */
  lemma QuotaGateAgreesWithStats(path: string, id: Uuid, users: map<Uuid, User>)
    requires ContainsAny(path, UploadPaths) && id in users
    ensures var r := QuotaGate("POST", path, CallerId(id), users);
            var u := users[id];
            && (r.OverQuota? <==> u.storageUsed >= u.storageQuota)
            && (r.Within? <==> RemainingStorage(u.storageQuota, u.storageUsed) > 0)
            && (r.Within? ==> r.remaining == RemainingStorage(u.storageQuota, u.storageUsed))
  {
  }

  /** Requests other than POSTs to an upload path always pass the quota gate unchecked. */
  lemma QuotaGateScope(httpMethod: string, path: string, caller: Caller, users: map<Uuid, User>)
    ensures QuotaGate(httpMethod, path, caller, users).NotChecked? <==>
              httpMethod != "POST" || !(OccursIn("/upload", path) || OccursIn("/files", path))
  {
    if OccursIn("/upload", path) {
      assert UploadPaths[0] == "/upload";
    }
    if OccursIn("/files", path) {
      assert UploadPaths[1] == "/files";
    }
  }

  /** `FileUploadSizeLimit`: whether a request is refused with 413. */
  function TooLarge(httpMethod: string, contentType: string, contentLength: int, maxSize: int): bool {
    httpMethod == "POST" && contentType != "" && contentLength > maxSize
  }

  /**
   * The size gate refuses only POSTs that declare a content type; a request
   * within the limit always passes, and raising the limit never refuses a
   * request that passed before.
   */
  lemma SizeGateBounds(httpMethod: string, contentType: string, contentLength: int, maxSize: int, larger: int)
    requires maxSize <= larger
    ensures TooLarge(httpMethod, contentType, contentLength, maxSize) ==> httpMethod == "POST" && contentType != ""
    ensures contentLength <= maxSize ==> !TooLarge(httpMethod, contentType, contentLength, maxSize)
    ensures !TooLarge(httpMethod, contentType, contentLength, maxSize) ==> !TooLarge(httpMethod, contentType, contentLength, larger)
  {
  }
}

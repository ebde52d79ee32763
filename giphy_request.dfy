/**
 * Request construction and the retry policy of `makeApiRequest`
 * (src/api/giphy.ts): the query string, the classification of one fetch
 * outcome, and `Run`, the whole attempt loop as a function of the transport.
 * The loop itself is the method `GiphyClient.CatalogClient.MakeApiRequest`.
 */
module GiphyRequest {
  import opened Wrappers
  import opened Strings
  import opened GiphyTypes

  const BaseUrl: string := "https://api.giphy.com/v1/gifs"
  const MaxAttempts: nat := 3
  const RetriableStatuses: set<int> := {429, 500, 502, 503, 504}

  /** A query-parameter value as callers pass it: a string, a number, `undefined` or `null`. */
  datatype ParamValue = Str(s: string) | Num(n: int) | Undefined | Null {
    predicate IsDefined() { Str? || Num? }
  }

  /** `URLSearchParams`: name/value pairs in order. */
  type Query = seq<(string, string)>

  /** The absolute URL of one call: its address and its query parameters. */
  datatype Request = Request(url: string, query: Query)

  /** `String(v)` for a defined parameter value. */
  function ParamString(v: ParamValue): string
    requires v.IsDefined()
  {
    match v
    case Str(s) => s
    case Num(n) => IntToString(n)
  }

  /** `URLSearchParams.get`: the value of the first pair named `k`. */
  function Get(q: Query, k: string): Option<string> {
    if q == [] then None else if q[0].0 == k then Some(q[0].1) else Get(q[1..], k)
  }

  /** Every name occurs at most once. */
  predicate UniqueNames(q: Query) {
    forall i, j :: 0 <= i < j < |q| ==> q[i].0 != q[j].0
  }

  function RemoveName(q: Query, k: string): (r: Query)
    ensures Get(r, k).None?
    ensures forall k' :: k' != k ==> Get(r, k') == Get(q, k')
    ensures forall i :: 0 <= i < |r| ==> r[i] in q && r[i].0 != k
  {
    if q == [] then []
    else if q[0].0 == k then RemoveName(q[1..], k)
    else [q[0]] + RemoveName(q[1..], k)
  }

  /**
   * `URLSearchParams.set`: the first pair named `k` takes the new value and the
   * other pairs named `k` are dropped; with no such pair, one is appended.
   */
  function SetParam(q: Query, k: string, v: string): (r: Query)
    ensures Get(r, k) == Some(v)
    ensures forall k' :: k' != k ==> Get(r, k') == Get(q, k')
    ensures forall i :: 0 <= i < |r| ==> r[i] in q || r[i] == (k, v)
  {
    if q == [] then [(k, v)]
    else if q[0].0 == k then [(k, v)] + RemoveName(q[1..], k)
    else [q[0]] + SetParam(q[1..], k, v)
  }

  /** Setting a parameter keeps every name unique. */
  lemma {:induction false} SetParamKeepsNamesUnique(q: Query, k: string, v: string)
    requires UniqueNames(q)
    ensures UniqueNames(SetParam(q, k, v))
  {
    if q != [] {
      assert UniqueNames(q[1..]) by {
        forall i, j | 0 <= i < j < |q[1..]| ensures q[1..][i].0 != q[1..][j].0 {
          assert q[1..][i] == q[i + 1] && q[1..][j] == q[j + 1];
        }
      }
      if q[0].0 == k {
        RemoveNameKeepsNamesUnique(q[1..], k);
      } else {
        SetParamKeepsNamesUnique(q[1..], k, v);
        var r := SetParam(q, k, v);
        forall j | 0 < j < |r| ensures r[0].0 != r[j].0 {
          assert r[j] == SetParam(q[1..], k, v)[j - 1];
          assert r[j] in q[1..] || r[j] == (k, v);
          if r[j] in q[1..] {
            var m :| 0 <= m < |q[1..]| && q[1..][m] == r[j];
            assert q[m + 1] == r[j];
          }
        }
      }
    }
  }

  lemma {:induction false} RemoveNameKeepsNamesUnique(q: Query, k: string)
    requires UniqueNames(q)
    ensures UniqueNames(RemoveName(q, k))
  {
    if q != [] {
      assert UniqueNames(q[1..]) by {
        forall i, j | 0 <= i < j < |q[1..]| ensures q[1..][i].0 != q[1..][j].0 {
          assert q[1..][i] == q[i + 1] && q[1..][j] == q[j + 1];
        }
      }
      RemoveNameKeepsNamesUnique(q[1..], k);
      if q[0].0 != k {
        var r := RemoveName(q, k);
        forall j | 0 < j < |r| ensures r[0].0 != r[j].0 {
          assert r[j] == RemoveName(q[1..], k)[j - 1];
          var m :| 0 <= m < |q[1..]| && q[1..][m] == r[j];
          assert q[m + 1] == r[j];
        }
      }
    }
  }

  /** `Object.entries(params).forEach(...)`: each defined value is set, in order; `undefined` and `null` are skipped. */
  function ApplyParams(params: seq<(string, ParamValue)>): Query {
    if params == [] then []
    else
      var q := ApplyParams(params[..|params| - 1]);
      var (k, v) := params[|params| - 1];
      if v.IsDefined() then SetParam(q, k, ParamString(v)) else q
  }

  /** The value the last defined entry named `k` gives, if any. */
  function ParamFor(params: seq<(string, ParamValue)>, k: string): Option<string> {
    if params == [] then None
    else
      var (k', v) := params[|params| - 1];
      if k' == k && v.IsDefined() then Some(ParamString(v)) else ParamFor(params[..|params| - 1], k)
  }

  lemma {:induction false} ApplyParamsGet(params: seq<(string, ParamValue)>, k: string)
    ensures Get(ApplyParams(params), k) == ParamFor(params, k)
    ensures UniqueNames(ApplyParams(params))
  {
    if params != [] {
      ApplyParamsGet(params[..|params| - 1], k);
      var (k', v) := params[|params| - 1];
      if v.IsDefined() {
        SetParamKeepsNamesUnique(ApplyParams(params[..|params| - 1]), k', ParamString(v));
      }
    }
  }

  /** The last defined entry named `k` decides the parameter. */
  lemma {:induction false} ParamForAt(params: seq<(string, ParamValue)>, k: string, i: nat)
    requires i < |params| && params[i].0 == k && params[i].1.IsDefined()
    requires forall j :: i < j < |params| ==> params[j].0 != k
    ensures ParamFor(params, k) == Some(ParamString(params[i].1))
  {
    if i < |params| - 1 {
      var front := params[..|params| - 1];
      assert forall j :: 0 <= j < |front| ==> front[j] == params[j];
      ParamForAt(front, k, i);
    }
  }

  /** The query of a call: the caller's defined parameters, then `api_key`. */
  function QueryOf(params: seq<(string, ParamValue)>, apiKey: string): Query {
    SetParam(ApplyParams(params), "api_key", apiKey)
  }

  /**
   * The query carries `api_key` always, every other parameter exactly when the
   * caller gave it a defined value (the last such value), and no name twice.
   */
  lemma QueryOfSpec(params: seq<(string, ParamValue)>, apiKey: string, k: string)
    ensures Get(QueryOf(params, apiKey), "api_key") == Some(apiKey)
    ensures k != "api_key" ==> Get(QueryOf(params, apiKey), k) == ParamFor(params, k)
    ensures UniqueNames(QueryOf(params, apiKey))
  {
    ApplyParamsGet(params, k);
    SetParamKeepsNamesUnique(ApplyParams(params), "api_key", apiKey);
  }

  /** `undefined` and `null` values never reach the query. */
  lemma UndefinedParamsOmitted(params: seq<(string, ParamValue)>, apiKey: string, k: string)
    requires k != "api_key"
    requires forall i :: 0 <= i < |params| && params[i].0 == k ==> !params[i].1.IsDefined()
    ensures Get(QueryOf(params, apiKey), k).None?
  {
    QueryOfSpec(params, apiKey, k);
    ParamForUndefined(params, k);
  }

  lemma {:induction false} ParamForUndefined(params: seq<(string, ParamValue)>, k: string)
    requires forall i :: 0 <= i < |params| && params[i].0 == k ==> !params[i].1.IsDefined()
    ensures ParamFor(params, k).None?
  {
    if params != [] {
      ParamForUndefined(params[..|params| - 1], k);
    }
  }

  function UrlOf(path: string): string {
    if |path| >= 4 && path[..4] == "http" then path else BaseUrl + path
  }

  function BuildRequest(path: string, params: seq<(string, ParamValue)>, apiKey: string): Request {
    Request(UrlOf(path), QueryOf(params, apiKey))
  }

  /** What a rejected promise carries: an `AbortError` (timeout or caller cancellation) or another error. */
  datatype Thrown = AbortError | OtherError(message: string)

  /** Reading the body: it throws, or it yields a parsed body. */
  datatype BodyRead = Unreadable(error: Thrown) | Parsed(body: ResponseBody)

  /** What one `fetch` does: it rejects, or it answers with a status and a body. */
  datatype Outcome = Threw(error: Thrown) | Responded(status: int, statusText: string, body: BodyRead)

  /** `fetch` as the environment: the outcome of the n-th call overall, given the request. */
  type Transport = (nat, Request) -> Outcome

  predicate IsOk(status: int) {
    200 <= status <= 299
  }

  const Cancelled: Error := GiphyApiError("Request was cancelled", None)
  const MissingApiKey: Error := GiphyApiError("API key is required", None)

  function NetworkError(message: string): Error {
    GiphyApiError("Network error: " + (if message == "" then "unknown" else message), None)
  }

  /** The message of a non-OK status that is not retried. */
  function StatusMessage(status: int, statusText: string): string {
    if status == 401 || status == 403 then "Unauthorized: check your API key"
    else if status == 429 then "Rate limit exceeded: please try again later"
    else "API request failed: " + IntToString(status) + " " + statusText
  }

  function Pow2(n: nat): nat {
    if n == 0 then 1 else 2 * Pow2(n - 1)
  }

  /** The wait before the next try, once `attempt` has been incremented. */
  function BackoffDelay(attempt: nat): nat {
    300 * Pow2(attempt)
  }

  /** What the loop does after one fetch: stop with a result or thrown error, or back off and try again. */
  datatype Step = Finish(result: Result<ResponseBody, Error>) | Backoff

  /** A failure the loop retries when attempts remain: a retriable status, or an exception that is not an abort. */
  predicate Transient(o: Outcome) {
    match o
    case Threw(e) => e.OtherError?
    case Responded(status, _, body) =>
      if !IsOk(status) then status in RetriableStatuses else body.Unreadable? && body.error.OtherError?
  }

  predicate IsAbort(o: Outcome) {
    match o
    case Threw(e) => e.AbortError?
    case Responded(status, _, body) => IsOk(status) && body.Unreadable? && body.error.AbortError?
  }

  /** The catch block: an abort is a cancellation; another exception is retried or reported as a network error. */
  function OnThrown(e: Thrown, attempt: nat): Step {
    match e
    case AbortError => Finish(Err(Cancelled))
    case OtherError(m) => if attempt < MaxAttempts - 1 then Backoff else Finish(Err(NetworkError(m)))
  }

  /** One pass of the loop body, given the fetch outcome and the attempts already retried. */
  function Classify(o: Outcome, attempt: nat): (r: Step)
    ensures r.Backoff? <==> attempt < MaxAttempts - 1 && Transient(o)
    ensures IsAbort(o) ==> r == Finish(Err(Cancelled))
    ensures r.Finish? && r.result.Ok? <==> (o.Responded? && IsOk(o.status) && o.body.Parsed?
      && (o.body.body.meta.None? || o.body.body.meta.value.status == 200))
  {
    match o
    case Threw(e) => OnThrown(e, attempt)
    case Responded(status, statusText, body) =>
      if !IsOk(status) then
        if status in RetriableStatuses && attempt < MaxAttempts - 1 then Backoff
        else Finish(Err(GiphyApiError(StatusMessage(status, statusText), Some(status))))
      else
        match body
        case Unreadable(e) => OnThrown(e, attempt)
        case Parsed(b) =>
          if b.meta.Some? && b.meta.value.status != 200 then
            Finish(Err(GiphyApiError(if b.meta.value.msg == "" then "API error" else b.meta.value.msg, Some(b.meta.value.status))))
          else Finish(Ok(b))
  }

  /** A non-OK status that is not retried is reported with its status and the message for its class. */
  lemma StatusErrors(status: int, statusText: string, body: BodyRead, attempt: nat)
    requires !IsOk(status)
    requires status !in RetriableStatuses || attempt >= MaxAttempts - 1
    ensures var r := Classify(Responded(status, statusText, body), attempt);
      && r.Finish? && r.result.Err? && r.result.error.status == Some(status)
      && ((status == 401 || status == 403) ==> r.result.error.message == "Unauthorized: check your API key")
      && (status == 429 ==> r.result.error.message == "Rate limit exceeded: please try again later")
      && (status != 401 && status != 403 && status != 429 ==>
            r.result.error.message == "API request failed: " + IntToString(status) + " " + statusText)
  {
  }

  /**
   * A 2xx answer whose embedded status is not 200 fails at once, on any
   * attempt, with that status and the provider's message ("API error" when it
   * is empty).
   */
  lemma MetaErrorNotRetried(status: int, statusText: string, b: ResponseBody, attempt: nat)
    requires IsOk(status) && b.meta.Some? && b.meta.value.status != 200
    ensures var r := Classify(Responded(status, statusText, Parsed(b)), attempt);
      && r.Finish? && r.result.Err? && r.result.error.status == Some(b.meta.value.status)
      && r.result.error.message == (if b.meta.value.msg == "" then "API error" else b.meta.value.msg)
  {
  }

  /** The result of the whole loop: what it returns or throws, the requests it issued and the waits it slept. */
  datatype Exchange = Exchange(result: Result<ResponseBody, Error>, issued: seq<Request>, waits: seq<nat>)

  /** The outcome of the i-th fetch counted from the n-th. */
  function OutcomeAt(t: Transport, n: nat, req: Request, i: nat): Outcome {
    t(n + i, req)
  }

  /** The attempt loop from attempt `attempt` on, the n-th fetch overall being the next one. */
  function Run(t: Transport, n: nat, req: Request, attempt: nat): Exchange
    requires attempt < MaxAttempts
    decreases MaxAttempts - attempt
  {
    match Classify(t(n, req), attempt)
    case Finish(r) => Exchange(r, [req], [])
    case Backoff =>
      var rest := Run(t, n + 1, req, attempt + 1);
      Exchange(rest.result, [req] + rest.issued, [BackoffDelay(attempt + 1)] + rest.waits)
  }

  /** A final step ends the loop with its one request and no wait. */
  lemma RunFinish(t: Transport, n: nat, req: Request, attempt: nat)
    requires attempt < MaxAttempts && Classify(t(n, req), attempt).Finish?
    ensures Run(t, n, req, attempt) == Exchange(Classify(t(n, req), attempt).result, [req], [])
  {
  }

  /** A retry puts one request and one wait ahead of the rest of the loop, whatever was logged before. */
  lemma RunAdvance(t: Transport, n: nat, req: Request, attempt: nat, issued: seq<Request>, waited: seq<nat>)
    requires attempt < MaxAttempts && Classify(t(n, req), attempt).Backoff?
    ensures attempt + 1 < MaxAttempts
    ensures Run(t, n, req, attempt).result == Run(t, n + 1, req, attempt + 1).result
    ensures issued + Run(t, n, req, attempt).issued == issued + [req] + Run(t, n + 1, req, attempt + 1).issued
    ensures waited + Run(t, n, req, attempt).waits == waited + [BackoffDelay(attempt + 1)] + Run(t, n + 1, req, attempt + 1).waits
  {
    var rest := Run(t, n + 1, req, attempt + 1);
    assert Run(t, n, req, attempt) == Exchange(rest.result, [req] + rest.issued, [BackoffDelay(attempt + 1)] + rest.waits);
    assert issued + ([req] + rest.issued) == issued + [req] + rest.issued;
    assert waited + ([BackoffDelay(attempt + 1)] + rest.waits) == waited + [BackoffDelay(attempt + 1)] + rest.waits;
  }

  /**
   * The loop's exact behaviour from attempt `attempt` on, as a property of
   * what it did: every fetch but the last was a transient failure that was
   * retried, the last one decided the result, at most the remaining attempts
   * were made, and before each retry the loop waited 300 * 2^k ms, k being
   * the retry's number.
   */
  predicate Retries(e: Exchange, t: Transport, n: nat, req: Request, attempt: nat) {
    && 1 <= |e.issued| <= MaxAttempts - attempt
    && (forall i :: 0 <= i < |e.issued| ==> e.issued[i] == req)
    && |e.waits| == |e.issued| - 1
    && (forall i :: 0 <= i < |e.waits| ==> e.waits[i] == BackoffDelay(attempt + 1 + i))
    && (forall i: nat :: i < |e.issued| - 1 ==> Classify(OutcomeAt(t, n, req, i), attempt + i) == Backoff)
    && Classify(OutcomeAt(t, n, req, |e.issued| - 1), attempt + |e.issued| - 1) == Finish(e.result)
  }

  /** The attempt loop behaves as `Retries` says. */
  lemma {:induction false} RunSpec(t: Transport, n: nat, req: Request, attempt: nat)
    requires attempt < MaxAttempts
    ensures Retries(Run(t, n, req, attempt), t, n, req, attempt)
    decreases MaxAttempts - attempt
  {
    if Classify(t(n, req), attempt).Backoff? {
      RunSpec(t, n + 1, req, attempt + 1);
      var rest := Run(t, n + 1, req, attempt + 1);
      RetriesCons(t, n, req, attempt, rest);
    }
  }

  /** A retry in front of a run from the next attempt is a run from this one. */
  lemma RetriesCons(t: Transport, n: nat, req: Request, attempt: nat, rest: Exchange)
    requires attempt + 1 < MaxAttempts && Classify(t(n, req), attempt) == Backoff
    requires Retries(rest, t, n + 1, req, attempt + 1)
    ensures Retries(Exchange(rest.result, [req] + rest.issued, [BackoffDelay(attempt + 1)] + rest.waits), t, n, req, attempt)
  {
    var e := Exchange(rest.result, [req] + rest.issued, [BackoffDelay(attempt + 1)] + rest.waits);
    assert forall i :: 1 <= i < |e.issued| ==> e.issued[i] == rest.issued[i - 1];
    assert forall i :: 1 <= i < |e.waits| ==> e.waits[i] == rest.waits[i - 1];
    forall i: nat | i < |e.issued| - 1 ensures Classify(OutcomeAt(t, n, req, i), attempt + i) == Backoff {
      if i > 0 {
        assert OutcomeAt(t, n, req, i) == OutcomeAt(t, n + 1, req, i - 1);
      }
    }
    assert OutcomeAt(t, n, req, |e.issued| - 1) == OutcomeAt(t, n + 1, req, |rest.issued| - 1);
  }

  /** The whole of `makeApiRequest`: no key, no request; otherwise the attempt loop. */
  function Execute(apiKey: Option<string>, t: Transport, n: nat, path: string, params: seq<(string, ParamValue)>): Exchange {
    if apiKey.None? || apiKey.value == "" then Exchange(Err(MissingApiKey), [], [])
    else Run(t, n, BuildRequest(path, params, apiKey.value), 0)
  }

  /**
   * Without an API key nothing is requested; with one, at most three requests
   * go out, all for the same URL, and the waits are 600 ms and then 1200 ms.
   */
  lemma ExecuteBounds(apiKey: Option<string>, t: Transport, n: nat, path: string, params: seq<(string, ParamValue)>)
    ensures var e := Execute(apiKey, t, n, path, params);
      && ((apiKey.None? || apiKey.value == "") ==> e.issued == [] && e.waits == [] && e.result == Err(MissingApiKey))
      && (apiKey.Some? && apiKey.value != "" ==>
            && 1 <= |e.issued| <= 3
            && (forall i :: 0 <= i < |e.issued| ==> e.issued[i] == BuildRequest(path, params, apiKey.value))
            && e.waits == [600, 1200][..|e.issued| - 1])
  {
    if apiKey.Some? && apiKey.value != "" {
      var req := BuildRequest(path, params, apiKey.value);
      RunSpec(t, n, req, 0);
      var e := Run(t, n, req, 0);
      assert BackoffDelay(1) == 600 && BackoffDelay(2) == 1200;
      assert e.waits == [600, 1200][..|e.issued| - 1];
    }
  }

  /** An abort stops the loop: no request follows it and the call fails with the cancellation error. */
  lemma AbortStopsRetrying(t: Transport, n: nat, req: Request, i: nat)
    requires IsAbort(t(n + i, req))
    requires i < |Run(t, n, req, 0).issued|
    ensures |Run(t, n, req, 0).issued| == i + 1
    ensures Run(t, n, req, 0).result == Err(Cancelled)
  {
    RunSpec(t, n, req, 0);
  }

  /** A 401 or 403 on the first fetch fails at once: one request, no wait, no retry. */
  lemma UnauthorizedNotRetried(t: Transport, n: nat, req: Request)
    requires t(n, req).Responded? && (t(n, req).status == 401 || t(n, req).status == 403)
    ensures Run(t, n, req, 0) == Exchange(Err(GiphyApiError("Unauthorized: check your API key", Some(t(n, req).status))), [req], [])
  {
  }

  /** Two 503 answers and then a good 200: success after waits of 600 ms and 1200 ms, with three requests. */
  lemma ServiceUnavailableTwiceThenOk(t: Transport, n: nat, req: Request, b: ResponseBody)
    requires t(n, req).Responded? && t(n, req).status == 503
    requires t(n + 1, req).Responded? && t(n + 1, req).status == 503
    requires t(n + 2, req) == Responded(200, "OK", Parsed(b)) && b.meta == Some(Meta(200, "OK"))
    ensures Run(t, n, req, 0) == Exchange(Ok(b), [req, req, req], [600, 1200])
  {
    assert BackoffDelay(1) == 600 && BackoffDelay(2) == 1200;
  }

  /** A retriable status on every attempt is reported after three requests, with that last status. */
  lemma RetriesExhausted(t: Transport, n: nat, req: Request)
    requires t(n, req).Responded? && t(n, req).status in RetriableStatuses
    requires t(n + 1, req).Responded? && t(n + 1, req).status in RetriableStatuses
    requires t(n + 2, req).Responded? && t(n + 2, req).status in RetriableStatuses
    ensures var e := Run(t, n, req, 0);
      && |e.issued| == 3 && e.waits == [600, 1200]
      && e.result.Err? && e.result.error.status == Some(t(n + 2, req).status)
  {
    assert BackoffDelay(1) == 600 && BackoffDelay(2) == 1200;
  }
}

/**
 * The fixed-window rate limiter of app/api/newsletter/subscribe/route.ts
 * and app/api/contribute/route.ts: at most ten requests per key in a
 * window of one minute that starts with the first request after the
 * previous window has ended. The clock is the parameter `now`.
 */
module RateLimit {
  const MaxRequests: nat := 10
  const WindowMs: int := 60000

  /** The record kept per key. */
  datatype Window = Window(count: nat, resetTime: int)

  type Limits = map<string, Window>

  datatype Decision = Decision(allowed: bool, limits: Limits)

  /** Whether the request at `now` opens a new window for `key`. */
  predicate StartsWindow(limits: Limits, key: string, now: int)
  {
    key !in limits || now > limits[key].resetTime
  }

  /** `checkRateLimit`. */
  function CheckRateLimit(limits: Limits, key: string, now: int): (r: Decision)
    ensures StartsWindow(limits, key, now) ==> r.allowed && r.limits == limits[key := Window(1, now + WindowMs)]
    ensures !StartsWindow(limits, key, now) ==> (r.allowed <==> limits[key].count < MaxRequests)
    ensures !r.allowed ==> r.limits == limits
    ensures !StartsWindow(limits, key, now) && r.allowed ==>
      r.limits == limits[key := Window(limits[key].count + 1, limits[key].resetTime)]
    ensures r.limits.Keys == limits.Keys + {key}
    ensures forall k :: k in limits && k != key ==> r.limits[k] == limits[k]
  {
    if key !in limits || now > limits[key].resetTime then Decision(true, limits[key := Window(1, now + WindowMs)])
    else if limits[key].count >= MaxRequests then Decision(false, limits)
    else Decision(true, limits[key := limits[key].(count := limits[key].count + 1)])
  }

  /** Every stored count is between 1 and the maximum. */
  predicate Bounded(limits: Limits)
  {
    forall k :: k in limits ==> 1 <= limits[k].count <= MaxRequests
  }

  /** The limiter never records more than the maximum. */
  lemma CheckKeepsBounded(limits: Limits, key: string, now: int)
    requires Bounded(limits)
    ensures Bounded(CheckRateLimit(limits, key, now).limits)
  {
  }

  /** The requests of one key at the given times, in order: how many were allowed, and the final records. */
  function Run(limits: Limits, key: string, times: seq<int>): (r: (nat, Limits))
    decreases |times|
    ensures r.0 <= |times|
  {
    if times == [] then (0, limits)
    else
      var d := CheckRateLimit(limits, key, times[0]);
      var rest := Run(d.limits, key, times[1..]);
      (rest.0 + (if d.allowed then 1 else 0), rest.1)
  }

  function Min(a: int, b: int): int { if a <= b then a else b }

  /** Inside an open window, requests are allowed until the count reaches the maximum, and then refused. */
  lemma {:induction false} RunInWindow(limits: Limits, key: string, times: seq<int>)
    requires key in limits && limits[key].count <= MaxRequests
    requires forall i :: 0 <= i < |times| ==> times[i] <= limits[key].resetTime
    ensures Run(limits, key, times).0 == Min(|times|, MaxRequests - limits[key].count)
    decreases |times|
  {
    if times != [] {
      var d := CheckRateLimit(limits, key, times[0]);
      assert key in d.limits && d.limits[key].resetTime == limits[key].resetTime;
      assert forall i :: 0 <= i < |times[1..]| ==> times[1..][i] == times[i + 1];
      RunInWindow(d.limits, key, times[1..]);
    }
  }

  /**
   * A key with no open window gets exactly min(n, 10) of n requests made
   * within one minute of the first.
   */
  lemma AtMostTenPerWindow(limits: Limits, key: string, first: int, later: seq<int>)
    requires StartsWindow(limits, key, first)
    requires forall i :: 0 <= i < |later| ==> later[i] <= first + WindowMs
    ensures Run(limits, key, [first] + later).0 == Min(1 + |later|, MaxRequests)
  {
    var times := [first] + later;
    var d := CheckRateLimit(limits, key, first);
    assert times[1..] == later;
    RunInWindow(d.limits, key, later);
  }

  /** A request past the end of the window starts over, whatever the count was. */
  lemma WindowResets(limits: Limits, key: string, now: int)
    requires key in limits && now > limits[key].resetTime
    ensures CheckRateLimit(limits, key, now) == Decision(true, limits[key := Window(1, now + WindowMs)])
  {
  }
}

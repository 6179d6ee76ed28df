/**
 The client-side rate limiter: per endpoint, at most `MaxCalls` calls are let
 through in a window of `TimeWindow` milliseconds that opens with the first
 call after the previous window expired. The call table is an explicit value
 and the clock reading `now` is a parameter.
 */
module RateLimit {

  const MaxCalls: nat := 100
  const TimeWindow: int := 60000

  /** Calls counted in the current window of one endpoint, and when that window opened. */
  datatype Entry = Entry(count: int, timestamp: int)

  type Calls = map<string, Entry>

  /** The answer of one check and the call table after it. */
  datatype Verdict = Verdict(allowed: bool, calls: Calls)

  /** Every entry counts between 1 and `MaxCalls` calls. */
  predicate WellFormed(calls: Calls) {
    forall e | e in calls :: 1 <= calls[e].count <= MaxCalls
  }

  /** `Security.rateLimit.check(endpoint)` at clock reading `now`. */
  function Check(calls: Calls, endpoint: string, now: int): (v: Verdict)
    ensures v.calls.Keys == calls.Keys + {endpoint}
    ensures forall e | e in calls && e != endpoint :: v.calls[e] == calls[e]
    ensures endpoint !in calls || now - calls[endpoint].timestamp > TimeWindow ==>
      v.allowed && v.calls[endpoint] == Entry(1, now)
    ensures !v.allowed <==>
      endpoint in calls && now - calls[endpoint].timestamp <= TimeWindow && calls[endpoint].count >= MaxCalls
    ensures !v.allowed ==> v.calls == calls
  {
    if endpoint !in calls then
      Verdict(true, calls[endpoint := Entry(1, now)])
    else if now - calls[endpoint].timestamp > TimeWindow then
      Verdict(true, calls[endpoint := Entry(1, now)])
    else if calls[endpoint].count >= MaxCalls then
      Verdict(false, calls)
    else
      var entry := calls[endpoint];
      Verdict(true, calls[endpoint := entry.(count := entry.count + 1)])
  }

  /** The empty table is well formed, and every check keeps the table well formed. */
  lemma CheckPreservesWellFormed(calls: Calls, endpoint: string, now: int)
    requires WellFormed(calls)
    ensures WellFormed(Check(calls, endpoint, now).calls)
    ensures WellFormed(map[])
  {
  }

  /** A call admitted inside the current window adds exactly one to the count and keeps the window. */
  lemma AdmittedInWindow(calls: Calls, endpoint: string, now: int)
    requires endpoint in calls && now - calls[endpoint].timestamp <= TimeWindow
    ensures var v := Check(calls, endpoint, now);
      v.allowed ==> v.calls[endpoint] == calls[endpoint].(count := calls[endpoint].count + 1)
  {
  }

  /** A run of checks against one endpoint: how many were admitted, and the final table. */
  datatype Run = Run(admitted: nat, calls: Calls)

  function CheckAll(calls: Calls, endpoint: string, nows: seq<int>): (r: Run)
    ensures r.admitted <= |nows|
    decreases |nows|
  {
    if |nows| == 0 then Run(0, calls)
    else
      var v := Check(calls, endpoint, nows[0]);
      var rest := CheckAll(v.calls, endpoint, nows[1..]);
      Run(rest.admitted + (if v.allowed then 1 else 0), rest.calls)
  }

  function Min(a: int, b: int): int {
    if a <= b then a else b
  }

  /**
   Within one window the limiter admits exactly as many calls as the window
   has room for: a run whose every call falls no later than `TimeWindow` after
   the window opened admits `MaxCalls - count` calls, or all of them if fewer
   were made, and never moves the window.
   */
  lemma {:induction false} WindowBudget(calls: Calls, endpoint: string, nows: seq<int>)
    requires WellFormed(calls) && endpoint in calls
    requires forall k | 0 <= k < |nows| :: nows[k] - calls[endpoint].timestamp <= TimeWindow
    ensures var r := CheckAll(calls, endpoint, nows);
      && r.admitted == Min(|nows|, MaxCalls - calls[endpoint].count)
      && endpoint in r.calls && r.calls[endpoint].timestamp == calls[endpoint].timestamp
      && WellFormed(r.calls)
    decreases |nows|
  {
    if |nows| > 0 {
      var v := Check(calls, endpoint, nows[0]);
      CheckPreservesWellFormed(calls, endpoint, nows[0]);
      assert v.calls[endpoint].timestamp == calls[endpoint].timestamp;
      assert forall k | 0 <= k < |nows[1..]| :: nows[1..][k] == nows[k + 1];
      WindowBudget(v.calls, endpoint, nows[1..]);
    }
  }

  /** Starting from no entry, a burst of calls inside one window admits exactly `Min(calls, MaxCalls)` of them. */
  lemma FreshWindowBudget(calls: Calls, endpoint: string, nows: seq<int>)
    requires WellFormed(calls) && endpoint !in calls && |nows| > 0
    requires forall k | 0 <= k < |nows| :: nows[k] - nows[0] <= TimeWindow
    ensures CheckAll(calls, endpoint, nows).admitted == Min(|nows|, MaxCalls)
  {
    var v := Check(calls, endpoint, nows[0]);
    CheckPreservesWellFormed(calls, endpoint, nows[0]);
    assert forall k | 0 <= k < |nows[1..]| :: nows[1..][k] == nows[k + 1];
    WindowBudget(v.calls, endpoint, nows[1..]);
  }
}

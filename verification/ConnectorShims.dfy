/** The connectors' handling of 403 replies on top of the HTTP client: the Drive shim with its backoff
  * schedule and the GitHub shim with its single guided retry. */
module ConnectorShims {
  import opened Numbers
  import opened Wrappers
  import opened HttpRetry
  import FilterDsl

  /** The JSON value of a body text; `Null` for text that is not JSON. */
  type JsonReading = string -> FilterDsl.Json

  predicate Is403(s: Sent) {
    s.Err? && s.error.HttpStatus? && s.error.status == 403
  }

  // ----- Google Drive

  datatype Drive403 = WaitThenRetry(seconds: nat) | BackoffThenRetry | QuotaExhausted | PermissionDenied(reason: string)

  function Member(v: FilterDsl.Json, key: string): Option<FilterDsl.Json> {
    if v.Obj? && key in v.fields then Some(v.fields[key]) else None
  }

  /** The reason of each error that has one. */
  function ReasonsIn(items: seq<FilterDsl.Json>): seq<string> {
    if items == [] then []
    else
      var reason := Member(items[0], "reason");
      (if reason.Some? && reason.value.Str? then [reason.value.s] else []) + ReasonsIn(items[1..])
  }

  function Reasons(body: FilterDsl.Json): seq<string> {
    match Member(body, "error")
    case None => []
    case Some(error) =>
      match Member(error, "errors")
      case None => []
      case Some(errors) => if errors.Arr? then ReasonsIn(errors.items) else []
  }

  function CommaJoined(parts: seq<string>): string {
    if parts == [] then "" else if |parts| == 1 then parts[0] else parts[0] + "," + CommaJoined(parts[1..])
  }

  predicate QuotaReason(r: string) {
    r == "quotaExceeded" || r == "dailyLimitExceeded"
  }

  predicate RateReason(r: string) {
    r == "userRateLimitExceeded" || r == "rateLimitExceeded"
  }

  function ClassifyDrive(parse: JsonReading, body: string): Drive403 {
    var reasons := Reasons(parse(body));
    if exists r :: r in reasons && QuotaReason(r) then QuotaExhausted
    else if exists r :: r in reasons && RateReason(r) then BackoffThenRetry
    else PermissionDenied(if reasons == [] then "(no reason in body)" else CommaJoined(reasons))
  }

  const DRIVE_RETRIES: nat := 4

  /** The pauses before the first, second, third and fourth retry, in milliseconds. */
  const SCHEDULE: seq<nat> := [500, 1000, 2000, 4000]

  /** What a 403 that is not retried becomes. */
  function DriveFailure(action: Drive403): Failure {
    match action
    case BackoffThenRetry => RateLimited
    case QuotaExhausted => RateLimited
    case WaitThenRetry(_) => Backend("drive: unexpected WaitThenRetry classification")
    case PermissionDenied(reason) => Backend("drive 403: permission denied (" + reason + ")")
  }

  function Paused(n: Net, ms: nat): Net {
    n.(pauses := n.pauses + [ms])
  }

  function DriveFrom(w: World, parse: JsonReading, p: Policy, n: Net, attempt: nat): Outcome
    requires attempt <= DRIVE_RETRIES
    decreases DRIVE_RETRIES - attempt
  {
    var o := Send(w, p, n);
    if !Is403(o.sent) then o
    else
      var action := ClassifyDrive(parse, o.sent.error.body);
      if action == BackoffThenRetry && attempt < DRIVE_RETRIES then
        DriveFrom(w, parse, p, Paused(o.net, 500 * Pow2(attempt)), attempt + 1)
      else Outcome(Err(DriveFailure(action)), o.net)
  }

  method SendWithDriveShim(wire: Wire, parse: JsonReading, p: Policy) returns (sent: Sent)
    modifies wire
    ensures Outcome(sent, wire.Log()) == DriveFrom(wire.world, parse, p, old(wire.Log()), 0)
  {
    hide Send, ClassifyDrive, Wire.Log, DriveFailure;
    var attempt := 0;
    while true
      invariant attempt <= DRIVE_RETRIES
      invariant DriveFrom(wire.world, parse, p, wire.Log(), attempt) == DriveFrom(wire.world, parse, p, old(wire.Log()), 0)
      decreases DRIVE_RETRIES - attempt
    {
      sent := SendRequest(wire, p);
      if !Is403(sent) {
        return;
      }
      var action := ClassifyDrive(parse, sent.error.body);
      if action == BackoffThenRetry && attempt < DRIVE_RETRIES {
        wire.Pause(500 * Pow2(attempt));
        attempt := attempt + 1;
      } else {
        return Err(DriveFailure(action));
      }
    }
  }

  function Total(ms: seq<nat>): nat {
    if ms == [] then 0 else ms[0] + Total(ms[1..])
  }

  lemma ScheduleDoubles(attempt: nat)
    requires attempt < DRIVE_RETRIES
    ensures SCHEDULE[attempt] == 500 * Pow2(attempt) && Pow2(attempt + 1) <= 16
  {
    assert Pow2(0) == 1 && Pow2(1) == 2 && Pow2(2) == 4 && Pow2(3) == 8 && Pow2(4) == 16;
  }

  lemma {:induction false} TotalSnoc(ms: seq<nat>, x: nat)
    ensures Total(ms + [x]) == Total(ms) + x
  {
    if ms == [] {
      assert ms + [x] == [x];
    } else {
      TotalSnoc(ms[1..], x);
      assert (ms + [x])[1..] == ms[1..] + [x];
    }
  }

  lemma {:induction false} ScheduleTotal(k: nat)
    requires k <= DRIVE_RETRIES
    ensures Total(SCHEDULE[..k]) == 500 * (Pow2(k) - 1) <= 7500
  {
    if k > 0 {
      ScheduleTotal(k - 1);
      ScheduleDoubles(k - 1);
      TotalSnoc(SCHEDULE[..k - 1], SCHEDULE[k - 1]);
      assert SCHEDULE[..k] == SCHEDULE[..k - 1] + [SCHEDULE[k - 1]];
    }
  }

  /** The retries that run `k` calls from `attempt` on have paused along the schedule. */
  lemma {:induction false} DriveFromBounded(w: World, parse: JsonReading, p: Policy, n: Net, attempt: nat)
    requires attempt <= DRIVE_RETRIES
    ensures
      var n' := DriveFrom(w, parse, p, n, attempt).net;
      && n.calls < n'.calls <= n.calls + 1 + (DRIVE_RETRIES - attempt)
      && n'.pauses == n.pauses + SCHEDULE[attempt..attempt + (n'.calls - n.calls - 1)]
      && |n'.requests| - |n.requests| <= (n'.calls - n.calls) * (Budget(p) + 1)
    decreases DRIVE_RETRIES - attempt
  {
    hide Send, ClassifyDrive, DriveFailure, Pow2, Budget;
    SendBudget(w, p, n);
    var o := Send(w, p, n);
    if Is403(o.sent) && ClassifyDrive(parse, o.sent.error.body) == BackoffThenRetry && attempt < DRIVE_RETRIES {
      var n1 := Paused(o.net, 500 * Pow2(attempt));
      DriveFromBounded(w, parse, p, n1, attempt + 1);
      ScheduleDoubles(attempt);
      var n' := DriveFrom(w, parse, p, n1, attempt + 1).net;
      var k := n'.calls - n1.calls;
      assert [SCHEDULE[attempt]] + SCHEDULE[attempt + 1..attempt + k] == SCHEDULE[attempt..attempt + k];
      Distributes(k, Budget(p) + 1);
    }
  }

  lemma Distributes(k: nat, b: nat)
    ensures (k + 1) * b == k * b + b
  {
  }

  /** At most five calls of the client, four pauses of 500 ms, 1 s, 2 s and 4 s in that order and at most
    * 7500 ms in all. */
  lemma DriveBounded(w: World, parse: JsonReading, p: Policy, n: Net)
    ensures
      var n' := DriveFrom(w, parse, p, n, 0).net;
      && n.calls < n'.calls <= n.calls + 5
      && n.pauses <= n'.pauses
      && Total(n'.pauses[|n.pauses|..]) == 500 * (Pow2(n'.calls - n.calls - 1) - 1) <= 7500
      && |n'.requests| - |n.requests| <= 5 * (Budget(p) + 1)
  {
    hide DriveFrom, Pow2, Total, Budget;
    DriveFromBounded(w, parse, p, n, 0);
    var n' := DriveFrom(w, parse, p, n, 0).net;
    var k := n'.calls - n.calls;
    ScheduleTotal(k - 1);
    assert n'.pauses[|n.pauses|..] == SCHEDULE[..k - 1];
    FewerCalls(k, 5, Budget(p) + 1);
  }

  lemma FewerCalls(k: nat, m: nat, b: nat)
    requires k <= m
    ensures k * b <= m * b
  {
  }

  /** The last reply of a run that ended on a 403, and its class. */
  ghost predicate EndsOn403(w: World, parse: JsonReading, n: Net, action: Drive403) {
    && n.requests != []
    && LastReply(w, n).Got? && LastReply(w, n).response.status == 403
    && ClassifyDrive(parse, BodyText(LastReply(w, n).response)) == action
  }

  /** What the shim makes of the last reply: success only on 2xx, a rate limit only on exhausted quota or
    * on the fifth rate-limited call, a permission failure otherwise; no 403 ever leaves the shim. */
  lemma {:induction false} DriveResult(w: World, parse: JsonReading, p: Policy, n: Net, attempt: nat)
    requires attempt <= DRIVE_RETRIES
    ensures
      var o := DriveFrom(w, parse, p, n, attempt);
      && !Is403(o.sent)
      && (o.sent == Err(RateLimited) ==>
            || EndsOn403(w, parse, o.net, QuotaExhausted)
            || (EndsOn403(w, parse, o.net, BackoffThenRetry) && o.net.calls == n.calls + 1 + (DRIVE_RETRIES - attempt)))
      && (o.sent.Err? && o.sent.error.Backend? ==>
            exists reason :: EndsOn403(w, parse, o.net, PermissionDenied(reason))
                             && o.sent.error.message == "drive 403: permission denied (" + reason + ")")
      && (o.sent.Ok? ==> o.net.requests != [] && LastReply(w, o.net) == Got(o.sent.response)
                         && KindOf(o.sent.response.status) == Success)
    decreases DRIVE_RETRIES - attempt
  {
    hide Send, ClassifyDrive, Passing, CountKind, Pow2;
    SendExplained(w, p, n);
    SendBudget(w, p, n);
    var o := Send(w, p, n);
    if Is403(o.sent) {
      var action := ClassifyDrive(parse, o.sent.error.body);
      NeverWaits(parse, o.sent.error.body);
      if action == BackoffThenRetry && attempt < DRIVE_RETRIES {
        DriveResult(w, parse, p, Paused(o.net, 500 * Pow2(attempt)), attempt + 1);
      } else {
        assert EndsOn403(w, parse, o.net, action);
      }
    }
  }

  /** The reserved class is never produced, and exhausted quota wins over a rate limit. */
  lemma NeverWaits(parse: JsonReading, body: string)
    ensures !ClassifyDrive(parse, body).WaitThenRetry?
    ensures (exists r :: r in Reasons(parse(body)) && QuotaReason(r)) <==> ClassifyDrive(parse, body) == QuotaExhausted
  {
    hide Reasons, CommaJoined;
  }

  // ----- GitHub

  datatype Github403 = HoldOff(seconds: nat) | Backoff | Denied

  predicate Contains(s: string, t: string) {
    exists k :: 0 <= k <= |s| - |t| && s[k..][..|t|] == t
  }

  function Clamp(v: int): int {
    if v < I64_MIN then I64_MIN else if v > I64_MAX then I64_MAX else v
  }

  /** The reset time a primary rate limit names. */
  function ResetTime(headers: Headers): Option<int> {
    if HeaderValue(headers, "X-RateLimit-Remaining") != Some("0") then None
    else
      var reset := HeaderValue(headers, "X-RateLimit-Reset");
      if reset.None? then None else ParseI64(reset.value)
  }

  function ClassifyGithub(headers: Headers, body: string, now: int): Github403 {
    var reset := ResetTime(headers);
    if reset.Some? then
      var delta := Clamp(reset.value - now);
      HoldOff((if delta < 0 then 0 else delta) + 1)
    else
      var raw := HeaderValue(headers, "Retry-After");
      var secs := if raw.Some? then ParseU64(raw.value) else None;
      if secs.Some? then HoldOff(secs.value)
      else if Contains(AsciiLower(body), "secondary rate limit") then Backoff
      else Denied
  }

  /** How long the first retry waits, in milliseconds. */
  function GithubPause(action: Github403): nat {
    if action.HoldOff? then action.seconds * 1000 else 500
  }

  function Verdict(w: World, o: Outcome): Github403
    requires Is403(o.sent)
  {
    ClassifyGithub(o.sent.error.headers, o.sent.error.body, w.now(o.net.calls))
  }

  const DENIED := Err(Backend("github 403: permission denied"))
  const EXHAUSTED := Err(Backend("github 403: rate-limit retry exhausted"))

  function GithubShim(w: World, p: Policy, n: Net): Outcome {
    var first := Send(w, p, n);
    if !Is403(first.sent) then first
    else if Verdict(w, first) == Denied then Outcome(DENIED, first.net)
    else
      var second := Send(w, p, Paused(first.net, GithubPause(Verdict(w, first))));
      if !Is403(second.sent) then second
      else Outcome(if Verdict(w, second) == Denied then DENIED else EXHAUSTED, second.net)
  }

  /** The loop runs at most twice; the end of the method is never reached. */
  method SendWithGhShim(wire: Wire, p: Policy) returns (sent: Sent)
    modifies wire
    ensures Outcome(sent, wire.Log()) == GithubShim(wire.world, p, old(wire.Log()))
  {
    hide Send, ClassifyGithub, Wire.Log;
    for attempt := 0 to 2
      invariant attempt == 0 ==> wire.Log() == old(wire.Log())
      invariant attempt == 1 ==>
          var first := Send(wire.world, p, old(wire.Log()));
          && Is403(first.sent) && Verdict(wire.world, first) != Denied
          && wire.Log() == Paused(first.net, GithubPause(Verdict(wire.world, first)))
      invariant attempt < 2
    {
      sent := SendRequest(wire, p);
      if !Is403(sent) {
        return;
      }
      var action := ClassifyGithub(sent.error.headers, sent.error.body, wire.world.now(wire.Log().calls));
      if action.HoldOff? && attempt == 0 {
        wire.Pause(action.seconds * 1000);
      } else if action.Backoff? && attempt == 0 {
        wire.Pause(500);
      } else if action.Denied? {
        return DENIED;
      } else {
        return EXHAUSTED;
      }
    }
    assert false;
  }

  /** At most two calls and one pause; no 403 ever leaves the shim, and the retry is spent only on a rate
    * limit. */
  lemma GithubBounded(w: World, p: Policy, n: Net)
    ensures
      var o := GithubShim(w, p, n);
      && !Is403(o.sent)
      && n.calls < o.net.calls <= n.calls + 2
      && |o.net.pauses| == |n.pauses| + (o.net.calls - n.calls - 1)
      && |o.net.requests| - |n.requests| <= 2 * (Budget(p) + 1)
      && (o.net.calls == n.calls + 2 ==>
            EndsRateLimited(w, Send(w, p, n)))
  {
    hide Send, ClassifyGithub, GithubPause, Budget, Passing, CountKind;
    SendBudget(w, p, n);
    SendExplained(w, p, n);
    var first := Send(w, p, n);
    if Is403(first.sent) && Verdict(w, first) != Denied {
      SendBudget(w, p, Paused(first.net, GithubPause(Verdict(w, first))));
    }
  }

  /** The call ended on a 403 reply that signals a rate limit. */
  ghost predicate EndsRateLimited(w: World, o: Outcome) {
    && o.net.requests != []
    && LastReply(w, o.net).Got? && LastReply(w, o.net).response.status == 403
    && ClassifyGithub(LastReply(w, o.net).response.headers, BodyText(LastReply(w, o.net).response),
                      w.now(o.net.calls)) != Denied
  }

  /** The wait outlasts the reset time by at least a second's slack, and is otherwise what Retry-After
    * says; headers win over the body, the reset over Retry-After. */
  lemma GithubWaits(headers: Headers, body: string, now: int)
    requires I64_MIN <= now <= I64_MAX
    ensures
      var action := ClassifyGithub(headers, body, now);
      && (ResetTime(headers).Some? ==>
            && action.HoldOff? && action.seconds >= 1
            && (ResetTime(headers).value - now <= I64_MAX ==> now + action.seconds > ResetTime(headers).value)
            && (ResetTime(headers).value <= now ==> action.seconds == 1))
      && (action == Denied ==> ResetTime(headers).None? && !Contains(AsciiLower(body), "secondary rate limit"))
  {
    hide Contains, HeaderValue;
  }

  /** The retry never starts before the reset time the reply named; otherwise it waits as long as
    * Retry-After says, or half a second. */
  lemma GithubRetriesAfterReset(w: World, p: Policy, n: Net)
    requires GithubShim(w, p, n).net.calls == n.calls + 2
    requires I64_MIN <= w.now(n.calls + 1) <= I64_MAX
    ensures Is403(Send(w, p, n).sent) && |GithubShim(w, p, n).net.pauses| == |n.pauses| + 1
    ensures
      var headers := Send(w, p, n).sent.error.headers;
      var pauses := GithubShim(w, p, n).net.pauses;
      var ms := pauses[|n.pauses|];
      var now := w.now(n.calls + 1);
      var reset := ResetTime(headers);
      var retryAfter := HeaderValue(headers, "Retry-After");
      && (reset.Some? && reset.value - now <= I64_MAX ==> now * 1000 + ms > reset.value * 1000)
      && (reset.None? && retryAfter.Some? && ParseU64(retryAfter.value).Some? ==>
            ms == 1000 * ParseU64(retryAfter.value).value)
      && (reset.None? && (retryAfter.None? || ParseU64(retryAfter.value).None?) ==> ms == 500)
  {
    hide Send, HeaderValue, ParseU64, ResetTime, Contains, Budget;
    SendBudget(w, p, n);
    var first := Send(w, p, n);
    if Is403(first.sent) && Verdict(w, first) != Denied {
      SendBudget(w, p, Paused(first.net, GithubPause(Verdict(w, first))));
    }
  }
}

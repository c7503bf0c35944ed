/** The connector HTTP client: `send` with its retry budget, the single credential invalidation on 401
  * and the bounded sleeps, against any sequence of responses, credential answers and random draws. */
module HttpRetry {
  import opened Numbers
  import opened Text
  import opened Wrappers
  import OAuth

  const MS: nat := 1_000_000
  const SECOND: nat := 1_000_000_000
  const U64: nat := 0x1_0000_0000_0000_0000

  datatype Policy = Policy(maxAttempts: nat, baseDelay: nat, maxDelay: nat)

  type Headers = seq<(string, string)>

  /** `body` is absent when reading it under the size cap failed. */
  datatype Response = Response(status: nat, headers: Headers, body: Option<string>)

  datatype Reply = NetworkError | Got(response: Response)

  datatype LastError = Network | Status(code: nat, attempt: nat)

  datatype Failure =
    | Credential(error: OAuth.Error)
    | Unauthorized
    | HttpStatus(status: nat, headers: Headers, body: string)
    | RetryExhausted(attempts: nat, last: LastError)
    | RateLimited
    | Backend(message: string)

  datatype Sent = Ok(response: Response) | Err(error: Failure)

  // ----- Retry-After

  function AsciiLower(s: string): (r: string)
    ensures |r| == |s|
  {
    if s == [] then [] else [if 'A' <= s[0] <= 'Z' then (s[0] as int + 32) as char else s[0]] + AsciiLower(s[1..])
  }

  /** The first header of that name, whatever its case. */
  function HeaderValue(headers: Headers, name: string): (r: Option<string>)
  {
    if headers == [] then None
    else if AsciiLower(headers[0].0) == AsciiLower(name) then Some(headers[0].1)
    else HeaderValue(headers[1..], name)
  }

  function ParseDigits(s: string): Option<nat> {
    if s != "" && AllDigits(s) then Some(DecimalValue(s)) else None
  }

  function ParseU64(s: string): Option<nat> {
    var v := ParseDigits(if s != "" && s[0] == '+' then s[1..] else s);
    if v.Some? && v.value < U64 then v else None
  }

  function ParseI64(s: string): Option<int> {
    if s != "" && s[0] == '-' then
      var v := ParseDigits(s[1..]);
      if v.Some? && v.value <= -I64_MIN then Some(-(v.value as int)) else None
    else
      var v := ParseDigits(if s != "" && s[0] == '+' then s[1..] else s);
      if v.Some? && v.value <= I64_MAX then Some(v.value) else None
  }

  /** `parse_retry_after`: whole seconds; negative or other text counts as absent. */
  function ParseRetryAfter(value: string): Option<nat> {
    var secs := ParseI64(Trim(value));
    if secs.None? || secs.value < 0 then None else Some(secs.value)
  }

  /** The seconds a reply asks to wait. */
  function Asked(r: Reply): Option<nat> {
    if r.NetworkError? then None
    else
      var raw := HeaderValue(r.response.headers, "Retry-After");
      if raw.None? then None else ParseRetryAfter(raw.value)
  }

  lemma DigitsAreNoSpace(s: string)
    requires s != "" && AllDigits(s)
    ensures !IsWs(s[0]) && !IsWs(s[|s| - 1]) && s[0] != '-' && s[0] != '+'
  {
    assert IsDigit(s[0]) && IsDigit(s[|s| - 1]);
  }

  /** A number of seconds in decimal, with any white space around it, reads back as that number when it
    * fits 64 bits; with a minus sign only zero is accepted. */
  lemma RetryAfterReads(before: string, n: nat, after: string)
    requires AllWs(before) && AllWs(after)
    ensures ParseRetryAfter(before + Decimal(n) + after) ==
            if n <= I64_MAX then Some(n) else None
    ensures ParseRetryAfter(before + ("-" + Decimal(n)) + after) == if n == 0 then Some(0) else None
  {
    hide Decimal, DecimalValue, AllWs, AllDigits, Trim;
    var text := Decimal(n);
    DecimalReads(n);
    DigitsAreNoSpace(text);
    TrimAround(before, text, after);
    TrimAround(before, "-" + text, after);
    assert ("-" + text)[1..] == text;
  }

  // ----- Delays, in nanoseconds

  function Min(a: nat, b: nat): (r: nat)
    ensures r <= a && r <= b && (r == a || r == b)
  {
    if a <= b then a else b
  }

  /** The longest pause the exponential schedule allows after failed attempt `attempt`. */
  function Ceiling(p: Policy, attempt: nat): nat {
    Min(p.maxDelay, p.baseDelay * Pow2(Min(attempt, 20)))
  }

  /** `retry_delay_for`; `draw` stands for the random number, reduced to the range asked for. */
  function DelayFor(p: Policy, attempt: nat, asked: Option<nat>, draw: nat): nat {
    if asked.Some? then Min(p.maxDelay, asked.value * SECOND + draw % 1000 * MS)
    else draw % (Ceiling(p, attempt) / MS % U64 + 1) * MS
  }

  /** A wait the policy and the server allow: never above `maxDelay`; with a Retry-After, at least that
    * long (or `maxDelay`) and less than a second longer; without one, within the exponential ceiling. */
  predicate Allowed(p: Policy, attempt: nat, asked: Option<nat>, ns: nat) {
    && ns <= p.maxDelay
    && (asked.Some? ==> ns == p.maxDelay || asked.value * SECOND <= ns < (asked.value + 1) * SECOND)
    && (asked.None? ==> ns <= Ceiling(p, attempt))
  }

  lemma TruncationShortens(capped: nat, draw: nat)
    ensures draw % (capped / MS % U64 + 1) * MS <= capped
  {
    var millis := capped / MS;
    assert millis % U64 <= millis;
    assert draw % (millis % U64 + 1) <= millis;
    assert millis * MS <= capped;
  }

  lemma DelayAllowed(p: Policy, attempt: nat, asked: Option<nat>, draw: nat)
    ensures Allowed(p, attempt, asked, DelayFor(p, attempt, asked, draw))
  {
    hide Ceiling, Pow2;
    if asked.None? {
      TruncationShortens(Ceiling(p, attempt), draw);
      CeilingBelowMax(p, attempt);
    }
  }

  lemma CeilingBelowMax(p: Policy, attempt: nat)
    ensures Ceiling(p, attempt) <= p.maxDelay
  {
    hide Pow2;
  }

  // ----- The world and what has happened to it

  datatype World = World(replies: nat -> Reply, auth: nat -> OAuth.Answer<string>, draw: nat -> nat, now: nat -> int)

  /** A sleep, with the failed attempt and the reply it followed. */
  datatype Wait = Wait(attempt: nat, after: Reply, ns: nat)

  /** `requests` holds the authorization header of each request sent; `calls` counts uses of `send` and
    * `pauses` what the connector shims slept between them. */
  datatype Net = Net(asked: nat, requests: seq<string>, draws: nat, invalidations: nat, waits: seq<Wait>,
                     calls: nat, pauses: seq<nat>)

  function LastReply(w: World, n: Net): Reply
    requires n.requests != []
  {
    w.replies(|n.requests| - 1)
  }

  // ----- send

  datatype Kind = Success | Refused | Fatal | Transient

  function KindOf(status: nat): Kind {
    if 200 <= status < 300 then Success
    else if status == 401 then Refused
    else if 400 <= status < 500 && status != 408 && status != 429 then Fatal
    else Transient
  }

  function ReplyKind(r: Reply): Kind {
    if r.NetworkError? then Transient else KindOf(r.response.status)
  }

  /** The attempts a policy grants: at least one is made whatever the policy says. */
  function Budget(p: Policy): (r: nat)
    ensures r >= 1
  {
    if p.maxAttempts == 0 then 1 else p.maxAttempts
  }

  datatype Step = Return(sent: Sent, net: Net) | Again(net: Net, attempt: nat, invalidated: bool)

  function Slept(w: World, p: Policy, n: Net, attempt: nat, after: Reply): Net {
    n.(draws := n.draws + 1,
       waits := n.waits + [Wait(attempt, after, DelayFor(p, attempt, Asked(after), w.draw(n.draws)))])
  }

  function BodyText(r: Response): string {
    if r.body.Some? then r.body.value else ""
  }

  /** One turn of the loop, once the credential has answered and the reply is in. */
  function Handle(w: World, p: Policy, n: Net, attempt: nat, invalidated: bool, r: Reply): Step {
    if r.NetworkError? then
      if attempt + 1 >= p.maxAttempts then Return(Err(RetryExhausted(attempt + 1, Network)), n)
      else Again(Slept(w, p, n, attempt, r), attempt + 1, invalidated)
    else
      var resp := r.response;
      match KindOf(resp.status)
      case Success => Return(Ok(resp), n)
      case Refused =>
        if invalidated then Return(Err(Unauthorized), n)
        else Again(n.(invalidations := n.invalidations + 1), attempt, true)
      case Fatal => Return(Err(HttpStatus(resp.status, resp.headers, BodyText(resp))), n)
      case Transient =>
        if attempt + 1 >= p.maxAttempts then
          Return(Err(RetryExhausted(attempt + 1, Status(resp.status, attempt + 1))), n.(draws := n.draws + 1))
        else Again(Slept(w, p, n, attempt, r), attempt + 1, invalidated)
  }

  function Turn(w: World, p: Policy, n: Net, attempt: nat, invalidated: bool): Step {
    var auth := w.auth(n.asked);
    if auth.Bad? then Return(Err(Credential(auth.error)), n.(asked := n.asked + 1))
    else
      Handle(w, p, n.(asked := n.asked + 1, requests := n.requests + [auth.value]), attempt, invalidated,
             w.replies(|n.requests|))
  }

  lemma TurnProgress(w: World, p: Policy, n: Net, attempt: nat, invalidated: bool)
    requires attempt < Budget(p)
    ensures
      var s := Turn(w, p, n, attempt, invalidated);
      s.Again? ==>
        && attempt <= s.attempt < Budget(p)
        && (s.attempt == attempt ==> !invalidated && s.invalidated)
  {
    hide KindOf, DelayFor, Asked, BodyText, Slept;
  }

  datatype Outcome = Outcome(sent: Sent, net: Net)

  function SendFrom(w: World, p: Policy, n: Net, attempt: nat, invalidated: bool): Outcome
    requires attempt < Budget(p)
    decreases Budget(p) - attempt, if invalidated then 0 else 1
  {
    TurnProgress(w, p, n, attempt, invalidated);
    match Turn(w, p, n, attempt, invalidated)
    case Return(sent, net) => Outcome(sent, net)
    case Again(net, attempt', invalidated') => SendFrom(w, p, net, attempt', invalidated')
  }

  function Send(w: World, p: Policy, n: Net): Outcome {
    SendFrom(w, p, n.(calls := n.calls + 1), 0, false)
  }

  // ----- What one call of send does

  /** Requests, invalidations and sleeps of a call that has already used `attempt` attempts. */
  ghost predicate WithinBudget(p: Policy, n: Net, n': Net, attempt: nat, invalidated: bool) {
    && |n.requests| <= |n'.requests|
    && n.invalidations <= n'.invalidations <= n.invalidations + (if invalidated then 0 else 1)
    && |n.waits| <= |n'.waits| <= |n.waits| + (Budget(p) - 1 - attempt)
    && |n'.requests| - |n.requests| <= Budget(p) - attempt + (n'.invalidations - n.invalidations)
    && n'.calls == n.calls && n'.pauses == n.pauses
  }

  lemma {:induction false} SendFromBudget(w: World, p: Policy, n: Net, attempt: nat, invalidated: bool)
    requires attempt < Budget(p)
    ensures WithinBudget(p, n, SendFrom(w, p, n, attempt, invalidated).net, attempt, invalidated)
    decreases Budget(p) - attempt, if invalidated then 0 else 1
  {
    hide KindOf, DelayFor, Asked, BodyText;
    TurnProgress(w, p, n, attempt, invalidated);
    var s := Turn(w, p, n, attempt, invalidated);
    if s.Again? {
      SendFromBudget(w, p, s.net, s.attempt, s.invalidated);
    }
  }

  /** Whatever the endpoint answers, a call sends at most one request more than its attempts, and that
    * one only after its single invalidation, and sleeps fewer times than it has attempts. */
  lemma SendBudget(w: World, p: Policy, n: Net)
    ensures
      var n' := Send(w, p, n).net;
      && |n'.requests| - |n.requests| <= Budget(p) + (n'.invalidations - n.invalidations)
      && n.invalidations <= n'.invalidations <= n.invalidations + 1
      && |n'.waits| - |n.waits| <= Budget(p) - 1
      && n'.calls == n.calls + 1 && n'.pauses == n.pauses
  {
    hide SendFrom;
    SendFromBudget(w, p, n.(calls := n.calls + 1), 0, false);
  }

  /** Each request carries the answer the credential gave for it alone. */
  ghost predicate FreshHeaders(w: World, n: Net, n': Net) {
    && n.requests <= n'.requests
    && forall k :: |n.requests| <= k < |n'.requests| ==>
         w.auth(n.asked + (k - |n.requests|)) == OAuth.Good(n'.requests[k])
  }

  lemma {:induction false} SendFromHeaders(w: World, p: Policy, n: Net, attempt: nat, invalidated: bool)
    requires attempt < Budget(p)
    ensures FreshHeaders(w, n, SendFrom(w, p, n, attempt, invalidated).net)
    decreases Budget(p) - attempt, if invalidated then 0 else 1
  {
    hide KindOf, DelayFor, Asked, BodyText;
    TurnProgress(w, p, n, attempt, invalidated);
    var s := Turn(w, p, n, attempt, invalidated);
    if s.Again? {
      SendFromHeaders(w, p, s.net, s.attempt, s.invalidated);
    }
  }

  /** The sleeps added, one per attempt, each one the policy allows. */
  ghost predicate GoodWaits(p: Policy, n: Net, n': Net, attempt: nat) {
    && n.waits <= n'.waits
    && forall k :: |n.waits| <= k < |n'.waits| ==>
         var x := n'.waits[k];
         && x.attempt == attempt + (k - |n.waits|)
         && ReplyKind(x.after) == Transient
         && Allowed(p, x.attempt, Asked(x.after), x.ns)
  }

  lemma {:induction false} SendFromWaits(w: World, p: Policy, n: Net, attempt: nat, invalidated: bool)
    requires attempt < Budget(p)
    ensures GoodWaits(p, n, SendFrom(w, p, n, attempt, invalidated).net, attempt)
    decreases Budget(p) - attempt, if invalidated then 0 else 1
  {
    hide KindOf, DelayFor, Asked, BodyText, Allowed;
    TurnProgress(w, p, n, attempt, invalidated);
    var s := Turn(w, p, n, attempt, invalidated);
    if s.Again? {
      SendFromWaits(w, p, s.net, s.attempt, s.invalidated);
      if s.attempt > attempt {
        var r := w.replies(|n.requests|);
        DelayAllowed(p, attempt, Asked(r), w.draw(n.draws));
      }
    }
  }

  /** Every sleep of a call follows a transient reply, stays below `maxDelay` and honours Retry-After. */
  lemma SendWaits(w: World, p: Policy, n: Net)
    ensures GoodWaits(p, n, Send(w, p, n).net, 0)
    ensures FreshHeaders(w, n, Send(w, p, n).net)
  {
    hide SendFrom, Asked, Allowed;
    SendFromWaits(w, p, n.(calls := n.calls + 1), 0, false);
    SendFromHeaders(w, p, n.(calls := n.calls + 1), 0, false);
  }

  /** How many of the replies `lo`..`hi` have that kind. */
  function CountKind(w: World, lo: nat, hi: nat, kind: Kind): nat
    requires lo <= hi
    decreases hi - lo
  {
    if lo == hi then 0 else (if ReplyKind(w.replies(lo)) == kind then 1 else 0) + CountKind(w, lo + 1, hi, kind)
  }

  /** What the replies say about the result: `attempts` is the number of attempts used up before. */
  ghost predicate Explains(w: World, p: Policy, lo: nat, hi: nat, sent: Sent, attempt: nat, refusals: nat) {
    && lo <= hi
    && (match sent
        case Ok(resp) =>
          lo < hi && w.replies(hi - 1) == Got(resp) && KindOf(resp.status) == Success
          && Passing(w, lo, hi - 1, p, attempt, refusals)
        case Err(Unauthorized) =>
          lo < hi && ReplyKind(w.replies(hi - 1)) == Refused
          && refusals + CountKind(w, lo, hi, Refused) == 2 && Passing(w, lo, hi - 1, p, attempt, refusals)
        case Err(HttpStatus(status, headers, body)) =>
          lo < hi && w.replies(hi - 1).Got? && KindOf(status) == Fatal
          && w.replies(hi - 1).response.status == status && w.replies(hi - 1).response.headers == headers
          && body == BodyText(w.replies(hi - 1).response) && Passing(w, lo, hi - 1, p, attempt, refusals)
        case Err(RetryExhausted(attempts, last)) =>
          lo < hi && ReplyKind(w.replies(hi - 1)) == Transient && attempts == Budget(p)
          && last == (if w.replies(hi - 1).NetworkError? then Network
                      else Status(w.replies(hi - 1).response.status, attempts))
          && attempt + CountKind(w, lo, hi, Transient) == Budget(p)
          && Passing(w, lo, hi - 1, p, attempt, refusals)
        case Err(Credential(e)) => Passing(w, lo, hi, p, attempt, refusals)
        case Err(RateLimited) => false
        case Err(Backend(_)) => false)
  }

  /** Replies that do not end a call: transient within the budget, and one refusal. */
  ghost predicate Passing(w: World, lo: nat, hi: nat, p: Policy, attempt: nat, refusals: nat)
    requires lo <= hi
  {
    && CountKind(w, lo, hi, Success) == 0 && CountKind(w, lo, hi, Fatal) == 0
    && refusals + CountKind(w, lo, hi, Refused) <= 1
    && attempt + CountKind(w, lo, hi, Transient) < Budget(p)
  }

  /** The same, for a turn that goes on. */
  lemma PassesOn(w: World, p: Policy, lo: nat, hi: nat, sent: Sent, attempt: nat, refusals: nat)
    requires attempt < Budget(p) && refusals <= 1
    requires
      var kind := ReplyKind(w.replies(lo));
      || (kind == Transient && attempt + 1 < Budget(p) && Explains(w, p, lo + 1, hi, sent, attempt + 1, refusals))
      || (kind == Refused && refusals == 0 && Explains(w, p, lo + 1, hi, sent, attempt, 1))
    ensures Explains(w, p, lo, hi, sent, attempt, refusals)
  {
    hide KindOf, ReplyKind, BodyText, Budget;
    if sent.Ok? || !sent.error.Credential? {
      if lo + 1 < hi {
        CountMeansFirst(w, lo, hi - 1);
      }
    }
    CountMeansFirst(w, lo, hi);
  }

  lemma CountMeansFirst(w: World, lo: nat, hi: nat)
    requires lo < hi
    ensures forall kind :: CountKind(w, lo, hi, kind) ==
                           (if ReplyKind(w.replies(lo)) == kind then 1 else 0) + CountKind(w, lo + 1, hi, kind)
  {
  }

  lemma TurnReturns(w: World, p: Policy, n: Net, attempt: nat, invalidated: bool)
    requires attempt < Budget(p)
    requires Turn(w, p, n, attempt, invalidated).Return?
    ensures
      var s := Turn(w, p, n, attempt, invalidated);
      Explains(w, p, |n.requests|, |s.net.requests|, s.sent, attempt, if invalidated then 1 else 0)
  {
    hide DelayFor, Asked, KindOf, BodyText;
    CountOne(w, |n.requests|, |n.requests| + 1);
  }

  lemma CountOne(w: World, lo: nat, hi: nat)
    requires hi == lo + 1
    ensures forall kind :: CountKind(w, lo, lo, kind) == 0
    ensures forall kind :: CountKind(w, lo, hi, kind) == (if ReplyKind(w.replies(lo)) == kind then 1 else 0)
  {
  }

  lemma TurnContinues(w: World, p: Policy, n: Net, attempt: nat, invalidated: bool)
    requires attempt < Budget(p)
    requires Turn(w, p, n, attempt, invalidated).Again?
    ensures
      var s := Turn(w, p, n, attempt, invalidated);
      var kind := ReplyKind(w.replies(|n.requests|));
      && |s.net.requests| == |n.requests| + 1
      && (kind == Transient || kind == Refused)
      && (kind == Transient ==> s.attempt == attempt + 1 < Budget(p) && s.invalidated == invalidated)
      && (kind == Refused ==> s.attempt == attempt && !invalidated && s.invalidated)
  {
    hide DelayFor, Asked, KindOf, BodyText;
  }

  lemma {:induction false} SendFromExplained(w: World, p: Policy, n: Net, attempt: nat, invalidated: bool)
    requires attempt < Budget(p)
    ensures
      var r := SendFrom(w, p, n, attempt, invalidated);
      Explains(w, p, |n.requests|, |r.net.requests|, r.sent, attempt, if invalidated then 1 else 0)
    decreases Budget(p) - attempt, if invalidated then 0 else 1
  {
    hide Turn, Explains, ReplyKind;
    TurnProgress(w, p, n, attempt, invalidated);
    var s := Turn(w, p, n, attempt, invalidated);
    if s.Return? {
      TurnReturns(w, p, n, attempt, invalidated);
    } else {
      TurnContinues(w, p, n, attempt, invalidated);
      SendFromExplained(w, p, s.net, s.attempt, s.invalidated);
      var r := SendFrom(w, p, s.net, s.attempt, s.invalidated);
      PassesOn(w, p, |n.requests|, |r.net.requests|, r.sent, attempt, if invalidated then 1 else 0);
    }
  }

  /** The replies explain the result. Success is the first 2xx and everything before it was transient, up
    * to one 401; `Unauthorized` comes on the second 401 and only then; `HttpStatus` is the last reply, a
    * 4xx other than 401, 408 and 429; `RetryExhausted` comes when transient replies have used up every
    * attempt, and reports exactly that many. */
  lemma SendExplained(w: World, p: Policy, n: Net)
    ensures
      var r := Send(w, p, n);
      Explains(w, p, |n.requests|, |r.net.requests|, r.sent, 0, 0)
  {
    hide SendFrom, Explains;
    SendFromExplained(w, p, n.(calls := n.calls + 1), 0, false);
  }

  // ----- The client in place

  class Wire {
    const world: World
    var asked: nat
    var requests: seq<string>
    var draws: nat
    var invalidations: nat
    var waits: seq<Wait>
    var calls: nat
    var pauses: seq<nat>

    constructor (world: World)
      ensures this.world == world && Log() == Net(0, [], 0, 0, [], 0, [])
    {
      this.world := world;
      asked, draws, invalidations, calls := 0, 0, 0, 0;
      requests, waits, pauses := [], [], [];
    }

    function Log(): Net
      reads this
    {
      Net(asked, requests, draws, invalidations, waits, calls, pauses)
    }

    method Called()
      modifies this
      ensures Log() == old(Log()).(calls := old(Log()).calls + 1)
    {
      calls := calls + 1;
    }

    method AuthorizationHeader() returns (answer: OAuth.Answer<string>)
      modifies this
      ensures answer == world.auth(old(Log()).asked)
      ensures Log() == old(Log()).(asked := old(Log()).asked + 1)
    {
      answer := world.auth(asked);
      asked := asked + 1;
    }

    method Invalidate()
      modifies this
      ensures Log() == old(Log()).(invalidations := old(Log()).invalidations + 1)
    {
      invalidations := invalidations + 1;
    }

    method Post(header: string) returns (r: Reply)
      modifies this
      ensures r == world.replies(|old(Log()).requests|)
      ensures Log() == old(Log()).(requests := old(Log()).requests + [header])
    {
      r := world.replies(|requests|);
      requests := requests + [header];
    }

    method Draw() returns (k: nat)
      modifies this
      ensures k == world.draw(old(Log()).draws)
      ensures Log() == old(Log()).(draws := old(Log()).draws + 1)
    {
      k := world.draw(draws);
      draws := draws + 1;
    }

    method Sleep(wait: Wait)
      modifies this
      ensures Log() == old(Log()).(waits := old(Log()).waits + [wait])
    {
      waits := waits + [wait];
    }

    method Pause(ms: nat)
      modifies this
      ensures Log() == old(Log()).(pauses := old(Log()).pauses + [ms])
    {
      pauses := pauses + [ms];
    }
  }

  /** The loop of `send`, one turn at a time. */
  method SendRequest(wire: Wire, p: Policy) returns (sent: Sent)
    modifies wire
    ensures Outcome(sent, wire.Log()) == Send(wire.world, p, old(wire.Log()))
  {
    hide Turn, Wire.Log;
    wire.Called();
    var attempt := 0;
    var invalidatedOnce := false;
    while true
      invariant attempt < Budget(p)
      invariant SendFrom(wire.world, p, wire.Log(), attempt, invalidatedOnce) == Send(wire.world, p, old(wire.Log()))
      decreases Budget(p) - attempt, if invalidatedOnce then 0 else 1
    {
      TurnProgress(wire.world, p, wire.Log(), attempt, invalidatedOnce);
      var again: bool;
      again, sent, attempt, invalidatedOnce := TakeTurn(wire, p, attempt, invalidatedOnce);
      if !again {
        return;
      }
    }
  }

  /** Ask the credential, send, and handle the reply. */
  method TakeTurn(wire: Wire, p: Policy, attempt: nat, invalidatedOnce: bool)
    returns (again: bool, sent: Sent, attempt': nat, invalidated': bool)
    modifies wire
    ensures Turn(wire.world, p, old(wire.Log()), attempt, invalidatedOnce) ==
            if again then Again(wire.Log(), attempt', invalidated') else Return(sent, wire.Log())
  {
    hide KindOf, DelayFor, Asked, BodyText, Wire.Log;
    again, sent, attempt', invalidated' := true, Err(RateLimited), attempt, invalidatedOnce;
    var auth := wire.AuthorizationHeader();
    if auth.Bad? {
      again, sent := false, Err(Credential(auth.error));
      return;
    }
    var reply := wire.Post(auth.value);
    match reply {
      case NetworkError =>
        attempt' := attempt + 1;
        if attempt' >= p.maxAttempts {
          again, sent := false, Err(RetryExhausted(attempt', Network));
          return;
        }
        var draw := wire.Draw();
        wire.Sleep(Wait(attempt, reply, DelayFor(p, attempt, Asked(reply), draw)));
      case Got(response) =>
        match KindOf(response.status) {
          case Success => again, sent := false, Ok(response);
          case Refused =>
            if invalidatedOnce {
              again, sent := false, Err(Unauthorized);
              return;
            }
            wire.Invalidate();
            invalidated' := true;
          case Fatal =>
            again, sent := false, Err(HttpStatus(response.status, response.headers, BodyText(response)));
          case Transient =>
            attempt' := attempt + 1;
            var draw := wire.Draw();
            var delay := DelayFor(p, attempt, Asked(reply), draw);
            if attempt' >= p.maxAttempts {
              again, sent := false, Err(RetryExhausted(attempt', Status(response.status, attempt')));
              return;
            }
            wire.Sleep(Wait(attempt, reply, delay));
        }
    }
  }

  // ----- Reading a body under the size cap

  type Chunks = seq<seq<nat>>

  datatype Body = Whole(bytes: seq<nat>) | TooLarge(cap: nat) | Broken

  function Joined(chunks: Chunks): seq<nat> {
    if chunks == [] then [] else chunks[0] + Joined(chunks[1..])
  }

  /** The body comes in chunks and then ends, or breaks off. It is too large exactly when what did arrive
    * exceeds the cap, however it was cut into chunks, and is otherwise returned whole. */
  method ReadBody(chunks: Chunks, breaks: bool, cap: nat) returns (body: Body)
    ensures body == if |Joined(chunks)| > cap then TooLarge(cap) else if breaks then Broken else Whole(Joined(chunks))
  {
    var buf: seq<nat> := [];
    for i := 0 to |chunks|
      invariant buf + Joined(chunks[i..]) == Joined(chunks)
      invariant |buf| <= cap
    {
      assert chunks[i..][1..] == chunks[i + 1..];
      if |buf| + |chunks[i]| > cap {
        return TooLarge(cap);
      }
      buf := buf + chunks[i];
    }
    if breaks {
      return Broken;
    }
    return Whole(buf);
  }
}

/** What a call of `send` returns, told from the status numbers of the replies alone, when the credential
  * always answers. */
module HttpOutcomes {
  import opened Wrappers
  import opened HttpRetry
  import opened Numbers
  import opened Text
  import OAuth

  ghost predicate AlwaysAuthorized(w: World) {
    forall i :: w.auth(i).Good?
  }

  /** The reply is worth another attempt: no reply, 408, 429, or a status that is neither 2xx nor 4xx. */
  predicate Retryable(r: Reply) {
    r.NetworkError? ||
    var status := r.response.status;
    status == 408 || status == 429 || status < 200 || 300 <= status < 400 || status >= 500
  }

  predicate HasStatus(r: Reply, lo: nat, hi: nat) {
    r.Got? && lo <= r.response.status <= hi
  }

  predicate Is401(r: Reply) {
    HasStatus(r, 401, 401)
  }

  predicate ClientError(r: Reply) {
    HasStatus(r, 400, 499) && r.response.status !in {401, 408, 429}
  }

  /** The replies `lo` to `hi` are all worth another attempt. */
  ghost predicate AllRetryable(w: World, lo: nat, hi: nat) {
    forall i: nat :: lo <= i < hi ==> Retryable(w.replies(i))
  }

  /** What has happened between `n` and `n'`: so many requests and invalidations, and a sleep for each of
    * the `sleeps` failed attempts. */
  predicate Since(n: Net, n': Net, requests: nat, invalidations: nat, sleeps: nat) {
    && |n'.requests| == |n.requests| + requests
    && n'.invalidations == n.invalidations + invalidations
    && |n'.waits| == |n.waits| + sleeps
  }

  // ----- One turn

  lemma KindsByNumber(r: Reply)
    ensures Retryable(r) <==> ReplyKind(r) == Transient
    ensures HasStatus(r, 200, 299) <==> ReplyKind(r) == Success
    ensures Is401(r) <==> ReplyKind(r) == Refused
    ensures ClientError(r) <==> ReplyKind(r) == Fatal
  {
  }

  lemma RetryTurn(w: World, p: Policy, n: Net, attempt: nat, invalidated: bool) returns (n': Net)
    requires AlwaysAuthorized(w) && attempt + 1 < Budget(p) && Retryable(w.replies(|n.requests|))
    ensures Turn(w, p, n, attempt, invalidated) == Again(n', attempt + 1, invalidated) && Since(n, n', 1, 0, 1)
    ensures
      var r := w.replies(|n.requests|);
      n'.waits == n.waits + [Wait(attempt, r, DelayFor(p, attempt, Asked(r), w.draw(n.draws)))]
  {
    hide KindOf, DelayFor, Asked, BodyText, Retryable;
    KindsByNumber(w.replies(|n.requests|));
    n' := Turn(w, p, n, attempt, invalidated).net;
  }

  lemma RefusedTurn(w: World, p: Policy, n: Net, attempt: nat) returns (n': Net)
    requires AlwaysAuthorized(w) && Is401(w.replies(|n.requests|))
    ensures Turn(w, p, n, attempt, false) == Again(n', attempt, true) && Since(n, n', 1, 1, 0)
  {
    hide DelayFor, Asked, BodyText;
    n' := Turn(w, p, n, attempt, false).net;
  }

  // ----- Attempts that fail

  /** `k` replies worth another attempt use up `k` attempts, each with a request and a sleep. */
  lemma {:induction false} FailedAttempts(w: World, p: Policy, n: Net, attempt: nat, invalidated: bool, k: nat)
    returns (n': Net)
    requires AlwaysAuthorized(w) && attempt + k < Budget(p)
    requires AllRetryable(w, |n.requests|, |n.requests| + k)
    ensures Since(n, n', k, 0, k)
    ensures SendFrom(w, p, n, attempt, invalidated) == SendFrom(w, p, n', attempt + k, invalidated)
    decreases k
  {
    hide Turn, Retryable;
    if k == 0 {
      n' := n;
    } else {
      var after := RetryTurn(w, p, n, attempt, invalidated);
      n' := FailedAttempts(w, p, after, attempt + 1, invalidated, k - 1);
    }
  }

  /** How the last reply of a call ends it, after `attempt` failed attempts. */
  lemma LastReplyEnds(w: World, p: Policy, n: Net, attempt: nat, invalidated: bool)
    requires AlwaysAuthorized(w) && attempt < Budget(p)
    ensures
      var r := w.replies(|n.requests|);
      var o := SendFrom(w, p, n, attempt, invalidated);
      && (HasStatus(r, 200, 299) ==> o.sent == Ok(r.response) && Since(n, o.net, 1, 0, 0))
      && (ClientError(r) ==>
            && o.sent == Err(HttpStatus(r.response.status, r.response.headers, BodyText(r.response)))
            && Since(n, o.net, 1, 0, 0))
      && (Is401(r) && invalidated ==> o.sent == Err(Unauthorized) && Since(n, o.net, 1, 0, 0))
      && (Retryable(r) && attempt + 1 == Budget(p) ==>
            && o.sent == Err(RetryExhausted(Budget(p), if r.NetworkError? then Network
                                                       else Status(r.response.status, Budget(p))))
            && Since(n, o.net, 1, 0, 0))
  {
    hide DelayFor, Asked, BodyText;
  }

  // ----- Whole calls

  /** `k` failed attempts, then a last reply. */
  lemma CallEnds(w: World, p: Policy, n: Net, k: nat)
    requires AlwaysAuthorized(w) && k < Budget(p)
    requires AllRetryable(w, |n.requests|, |n.requests| + k)
    ensures
      var r := w.replies(|n.requests| + k);
      var o := Send(w, p, n);
      && (HasStatus(r, 200, 299) ==> o.sent == Ok(r.response) && Since(n, o.net, k + 1, 0, k))
      && (ClientError(r) ==>
            && o.sent == Err(HttpStatus(r.response.status, r.response.headers, BodyText(r.response)))
            && Since(n, o.net, k + 1, 0, k))
      && (Retryable(r) && k + 1 == Budget(p) ==>
            && o.sent == Err(RetryExhausted(Budget(p), if r.NetworkError? then Network
                                                       else Status(r.response.status, Budget(p))))
            && Since(n, o.net, k + 1, 0, k))
  {
    hide SendFrom, Retryable, BodyText;
    var after := FailedAttempts(w, p, n.(calls := n.calls + 1), 0, false, k);
    LastReplyEnds(w, p, after, k, false);
  }

  /** `j` failed attempts, a 401, `k` failed attempts, then a last reply: the refusal costs a request and the
    * one invalidation, but no attempt and no sleep; a second one ends the call. */
  lemma CallEndsAfterRefusal(w: World, p: Policy, n: Net, j: nat, k: nat)
    requires AlwaysAuthorized(w) && j + k < Budget(p)
    requires AllRetryable(w, |n.requests|, |n.requests| + j) && Is401(w.replies(|n.requests| + j))
    requires AllRetryable(w, |n.requests| + j + 1, |n.requests| + j + 1 + k)
    ensures
      var r := w.replies(|n.requests| + j + 1 + k);
      var o := Send(w, p, n);
      && (HasStatus(r, 200, 299) ==> o.sent == Ok(r.response) && Since(n, o.net, j + k + 2, 1, j + k))
      && (Is401(r) ==> o.sent == Err(Unauthorized) && Since(n, o.net, j + k + 2, 1, j + k))
      && (ClientError(r) ==>
            && o.sent == Err(HttpStatus(r.response.status, r.response.headers, BodyText(r.response)))
            && Since(n, o.net, j + k + 2, 1, j + k))
      && (Retryable(r) && j + k + 1 == Budget(p) ==>
            && o.sent == Err(RetryExhausted(Budget(p), if r.NetworkError? then Network
                                                       else Status(r.response.status, Budget(p))))
            && Since(n, o.net, j + k + 2, 1, j + k))
  {
    hide Turn, Retryable, BodyText, HasStatus, ClientError;
    var before := FailedAttempts(w, p, n.(calls := n.calls + 1), 0, false, j);
    var refused := RefusedTurn(w, p, before, j);
    assert SendFrom(w, p, before, j, false) == SendFrom(w, p, refused, j, true);
    var after := FailedAttempts(w, p, refused, j, true, k);
    hide SendFrom;
    LastReplyEnds(w, p, after, j + k, true);
  }

  // ----- The length of a sleep

  lemma {:induction false} LowerIs(s: string, t: string)
    requires |s| == |t|
    requires forall k :: 0 <= k < |s| ==> t[k] == if 'A' <= s[k] <= 'Z' then (s[k] as int + 32) as char else s[k]
    ensures AsciiLower(s) == t
  {
    if s != "" {
      LowerIs(s[1..], t[1..]);
    }
  }

  lemma RetryAfterName()
    ensures AsciiLower("Retry-After") == "retry-after"
    ensures AsciiLower("retry-after") == "retry-after"
    ensures AsciiLower("RETRY-AFTER") == "retry-after"
  {
    hide AsciiLower;
    LowerIs("Retry-After", "retry-after");
    LowerIs("retry-after", "retry-after");
    LowerIs("RETRY-AFTER", "retry-after");
  }

  lemma {:induction false} FirstHeader(before: Headers, name: string, value: string, after: Headers)
    requires AsciiLower(name) == "retry-after" && forall h | h in before :: AsciiLower(h.0) != "retry-after"
    ensures HeaderValue(before + [(name, value)] + after, "Retry-After") == Some(value)
  {
    RetryAfterName();
    hide AsciiLower;
    var all := before + [(name, value)] + after;
    if before != [] {
      assert all[0] == before[0] && before[0] in before;
      assert all[1..] == before[1..] + [(name, value)] + after;
      FirstHeader(before[1..], name, value, after);
    } else {
      assert all[0] == (name, value);
    }
  }

  /** A reply that asks to wait `n` seconds: the first header of that name, in any case, is the number in
    * decimal with blanks around it. */
  ghost predicate AsksFor(r: Reply, n: nat) {
    r.Got? && exists before: Headers, name, blank, blank', after: Headers ::
      && r.response.headers == before + [(name, blank + Decimal(n) + blank')] + after
      && AsciiLower(name) == "retry-after" && (forall h | h in before :: AsciiLower(h.0) != "retry-after")
      && AllWs(blank) && AllWs(blank')
  }

  predicate AsksNothing(r: Reply) {
    r.NetworkError? || forall h | h in r.response.headers :: AsciiLower(h.0) != "retry-after"
  }

  lemma AskedSeconds(r: Reply, n: nat)
    requires AsksFor(r, n) && n <= I64_MAX
    ensures Asked(r) == Some(n)
  {
    hide AsciiLower, Decimal, AllWs, ParseRetryAfter;
    var before: Headers, name, blank, blank', after: Headers :|
      && r.response.headers == before + [(name, blank + Decimal(n) + blank')] + after
      && AsciiLower(name) == "retry-after" && (forall h | h in before :: AsciiLower(h.0) != "retry-after")
      && AllWs(blank) && AllWs(blank');
    FirstHeader(before, name, blank + Decimal(n) + blank', after);
    RetryAfterReads(blank, n, blank');
  }

  lemma {:induction false} NoHeader(headers: Headers)
    requires forall h | h in headers :: AsciiLower(h.0) != "retry-after"
    ensures HeaderValue(headers, "Retry-After") == None
  {
    RetryAfterName();
    hide AsciiLower;
    if headers != [] {
      assert headers[0] in headers;
      NoHeader(headers[1..]);
    }
  }

  lemma AskedNothing(r: Reply)
    requires AsksNothing(r)
    ensures Asked(r) == None
  {
    if r.Got? {
      NoHeader(r.response.headers);
    }
  }

  /** The sleep after a first reply worth another attempt: what Retry-After says in seconds and less than a
    * second more, or else at most the base delay, and never above the policy's maximum. */
  lemma FirstSleep(w: World, p: Policy, n: Net, asked: nat)
    requires AlwaysAuthorized(w) && Budget(p) >= 2 && Retryable(w.replies(|n.requests|))
    ensures
      var r := w.replies(|n.requests|);
      var n' := Send(w, p, n).net;
      && |n'.waits| > |n.waits|
      && var ns := n'.waits[|n.waits|].ns;
         && ns <= p.maxDelay
         && (AsksFor(r, asked) && asked <= I64_MAX ==>
               ns == p.maxDelay || 1_000_000_000 * asked <= ns < 1_000_000_000 * (asked + 1))
         && (AsksNothing(r) ==> ns <= p.baseDelay)
  {
    hide Turn, AsksFor, AsksNothing, Asked, Retryable, DelayFor, SendFrom;
    var r := w.replies(|n.requests|);
    var called := n.(calls := n.calls + 1);
    var after := RetryTurn(w, p, called, 0, false);
    OneTurn(w, p, called, after);
    SendFromWaits(w, p, after, 1, false);
    var n' := Send(w, p, n).net;
    assert n'.waits[|n.waits|] == after.waits[|n.waits|];
    DelayAllowed(p, 0, Asked(r), w.draw(n.draws));
    FirstCeiling(p);
    if AsksFor(r, asked) && asked <= I64_MAX {
      AskedSeconds(r, asked);
    }
    if AsksNothing(r) {
      AskedNothing(r);
    }
  }

  lemma OneTurn(w: World, p: Policy, n: Net, n': Net)
    requires Budget(p) >= 2 && Turn(w, p, n, 0, false) == Again(n', 1, false)
    ensures SendFrom(w, p, n, 0, false) == SendFrom(w, p, n', 1, false)
  {
    hide Turn;
  }

  lemma FirstCeiling(p: Policy)
    ensures Ceiling(p, 0) <= p.baseDelay
  {
    assert Pow2(0) == 1;
  }

  /** Without Retry-After every whole number of milliseconds up to the ceiling, which doubles with each failed
    * attempt, is some draw's delay. */
  lemma JitterReaches(p: Policy, attempt: nat, ms: nat)
    requires attempt <= 20 && ms < U64 && p.maxDelay < 1_000_000 * U64
    requires 1_000_000 * ms <= p.maxDelay && 1_000_000 * ms <= p.baseDelay * Pow2(attempt)
    ensures DelayFor(p, attempt, None, ms) == 1_000_000 * ms
  {
    hide Pow2;
    assert Min(attempt, 20) == attempt;
    DrawIsDelay(Ceiling(p, attempt), ms);
  }

  lemma DrawIsDelay(ceiling: nat, ms: nat)
    requires 1_000_000 * ms <= ceiling < 1_000_000 * U64
    ensures ms % (ceiling / MS % U64 + 1) * MS == 1_000_000 * ms
  {
    var q := ceiling / MS;
    InMillis(ceiling, ms);
    Unreduced(q, U64);
    Unreduced(ms, q + 1);
  }

  lemma InMillis(ceiling: nat, ms: nat)
    requires 1_000_000 * ms <= ceiling < 1_000_000 * U64
    ensures ms <= ceiling / MS < U64
  {
  }

  lemma Unreduced(a: nat, n: nat)
    requires a < n
    ensures a % n == a
  {
  }
}

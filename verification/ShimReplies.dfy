/** What the connectors make of a 403 reply, told from the reply itself: the reasons in Drive's error body, the
  * headers of GitHub's. */
module ShimReplies {
  import opened Numbers
  import opened Wrappers
  import opened HttpRetry
  import opened ConnectorShims
  import FilterDsl

  // ----- Google Drive

  /** `{"reason": r}` for each reason. */
  function ReasonObjects(reasons: seq<string>): seq<FilterDsl.Json> {
    if reasons == [] then []
    else [FilterDsl.Obj(map["reason" := FilterDsl.Str(reasons[0])])] + ReasonObjects(reasons[1..])
  }

  /** `{"error": {"errors": [...]}}` */
  function DriveError(reasons: seq<string>): FilterDsl.Json {
    FilterDsl.Obj(map["error" := FilterDsl.Obj(map["errors" := FilterDsl.Arr(ReasonObjects(reasons))])])
  }

  lemma {:induction false} ReasonsInObjects(reasons: seq<string>)
    ensures ReasonsIn(ReasonObjects(reasons)) == reasons
  {
    if reasons != [] {
      ReasonsInObjects(reasons[1..]);
      assert ReasonObjects(reasons)[1..] == ReasonObjects(reasons[1..]);
      assert reasons == [reasons[0]] + reasons[1..];
    }
  }

  lemma ReasonsRead(reasons: seq<string>)
    ensures Reasons(DriveError(reasons)) == reasons
  {
    ReasonsInObjects(reasons);
    hide ReasonsIn, ReasonObjects;
    var errors := FilterDsl.Arr(ReasonObjects(reasons));
    var error := FilterDsl.Obj(map["errors" := errors]);
    assert error.fields["errors"] == errors;
    assert DriveError(reasons).fields["error"] == error;
  }

  /** A reply with any of the two quota reasons ends the call as rate limited at once; failing that, one with either of
    * the two rate reasons is tried again; any other is denied and reports its reasons. */
  lemma DriveReplies(parse: JsonReading, body: string, reasons: seq<string>)
    requires parse(body) == DriveError(reasons)
    ensures
      var quota := "quotaExceeded" in reasons || "dailyLimitExceeded" in reasons;
      var rate := "userRateLimitExceeded" in reasons || "rateLimitExceeded" in reasons;
      ClassifyDrive(parse, body) ==
        if quota then QuotaExhausted
        else if rate then BackoffThenRetry
        else PermissionDenied(if reasons == [] then "(no reason in body)" else CommaJoined(reasons))
  {
    ReasonsRead(reasons);
    hide Reasons, DriveError, CommaJoined;
  }

  // ----- GitHub

  predicate Named(headers: Headers, name: string) {
    exists h | h in headers :: AsciiLower(h.0) == AsciiLower(name)
  }

  lemma {:induction false} Unnamed(headers: Headers, name: string)
    requires !Named(headers, name)
    ensures HeaderValue(headers, name) == None
  {
    hide AsciiLower;
    if headers != [] {
      assert headers[0] in headers;
      assert forall h :: h in headers[1..] ==> h in headers;
      Unnamed(headers[1..], name);
    }
  }

  lemma {:induction false} FirstNamed(headers: Headers, name: string, k: nat)
    requires k < |headers| && AsciiLower(headers[k].0) == AsciiLower(name)
    requires forall j :: 0 <= j < k ==> AsciiLower(headers[j].0) != AsciiLower(name)
    ensures HeaderValue(headers, name) == Some(headers[k].1)
  {
    hide AsciiLower;
    if k > 0 {
      FirstNamed(headers[1..], name, k - 1);
    }
  }

  /** The first header of that name, in any case, has that value. */
  predicate Says(headers: Headers, name: string, value: string) {
    exists k :: 0 <= k < |headers| && headers[k].1 == value && AsciiLower(headers[k].0) == AsciiLower(name)
                && forall j :: 0 <= j < k ==> AsciiLower(headers[j].0) != AsciiLower(name)
  }

  lemma SaysRead(headers: Headers, name: string, value: string)
    requires Says(headers, name, value)
    ensures HeaderValue(headers, name) == Some(value)
  {
    hide HeaderValue, AsciiLower;
    var k :| 0 <= k < |headers| && headers[k].1 == value && AsciiLower(headers[k].0) == AsciiLower(name)
             && forall j :: 0 <= j < k ==> AsciiLower(headers[j].0) != AsciiLower(name);
    FirstNamed(headers, name, k);
  }

  lemma NumberRead(n: nat)
    requires n <= I64_MAX
    ensures ParseI64(Decimal(n)) == Some(n) && ParseU64(Decimal(n)) == Some(n)
  {
    hide Decimal, DecimalValue, AllDigits;
    DecimalReads(n);
    DigitsAreNoSpace(Decimal(n));
  }

  /** No calls left and a reset time named: wait until that time and a second more, a second at least. */
  lemma ResetIsWaitedOut(headers: Headers, body: string, now: nat, reset: nat)
    requires now <= I64_MAX && reset <= I64_MAX
    requires Says(headers, "X-RateLimit-Remaining", "0") && Says(headers, "X-RateLimit-Reset", Decimal(reset))
    ensures ClassifyGithub(headers, body, now) == HoldOff(if reset <= now then 1 else reset - now + 1)
  {
    hide Says, Decimal, HeaderValue, ParseI64, Contains;
    SaysRead(headers, "X-RateLimit-Remaining", "0");
    SaysRead(headers, "X-RateLimit-Reset", Decimal(reset));
    NumberRead(reset);
  }

  /** Otherwise a Retry-After in seconds is waited; otherwise a body that speaks of the secondary rate limit is worth one
    * more try; everything else is denied. */
  lemma WithoutReset(headers: Headers, body: string, now: int, seconds: nat)
    requires !Named(headers, "X-RateLimit-Remaining") || !Named(headers, "X-RateLimit-Reset")
    ensures Says(headers, "Retry-After", Decimal(seconds)) && seconds <= I64_MAX ==>
              ClassifyGithub(headers, body, now) == HoldOff(seconds)
    ensures !Named(headers, "Retry-After") ==>
              ClassifyGithub(headers, body, now) ==
                if Contains(AsciiLower(body), "secondary rate limit") then Backoff else Denied
  {
    hide Says, Named, Decimal, HeaderValue, ParseI64, ParseU64, Contains, AsciiLower;
    if !Named(headers, "X-RateLimit-Remaining") {
      Unnamed(headers, "X-RateLimit-Remaining");
    } else {
      Unnamed(headers, "X-RateLimit-Reset");
    }
    if Says(headers, "Retry-After", Decimal(seconds)) && seconds <= I64_MAX {
      SaysRead(headers, "Retry-After", Decimal(seconds));
      NumberRead(seconds);
    }
    if !Named(headers, "Retry-After") {
      Unnamed(headers, "Retry-After");
    }
  }
}

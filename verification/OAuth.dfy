/** The OAuth 2.0 credential (refresh grant, section 6 of RFC 6749): a cached token with a skew margin,
  * a negative cache for transient failures, and a bounded retry, against any endpoint and any clock. */
module OAuth {
  import opened Wrappers

  const REFRESH_SKEW_MS: nat := 60_000
  const NEGATIVE_CACHE_MS: nat := 5_000
  const MAX_TRIES: nat := 3

  // ----- The endpoint

  datatype Body = TokenJson(token: string, expiresIn: nat) | ErrorJson(code: string) | Unreadable

  /** `NoResponse` is a transport failure or a body that could not be read. */
  datatype Reply = NoResponse | Response(status: nat, body: Body)

  datatype Error = Unauthorized(message: string) | Config(message: string) | Backend(message: string)

  datatype Answer<+T> = Good(value: T) | Bad(error: Error)

  predicate Permanent(e: Error) {
    e.Unauthorized? || e.Config?
  }

  /** The text an error prints as. */
  function Shown(e: Error): string {
    match e
    case Unauthorized(m) => "unauthorized: " + m
    case Config(m) => "config: " + m
    case Backend(m) => "backend: " + m
  }

  datatype Token = Token(text: string, expiresIn: nat)

  /** `refresh_once`: what one reply means. */
  function Classify(r: Reply): Answer<Token> {
    match r
    case NoResponse => Bad(Backend("oauth2 transport"))
    case Response(status, body) =>
      if 200 <= status < 300 then
        if body.TokenJson? then Good(Token(body.token, body.expiresIn)) else Bad(Backend("oauth2 parse"))
      else if status == 400 then
        var code := if body.ErrorJson? then body.code else "unknown";
        if code == "invalid_grant" then Bad(Unauthorized("OAuth2 refresh failed: invalid_grant"))
        else if code == "invalid_client" || code == "invalid_scope" then
          Bad(Config("OAuth2 misconfiguration: " + code))
        else Bad(Backend("OAuth2 refresh failed: " + code))
      else Bad(Backend("OAuth2 refresh failed: HTTP"))
  }

  /** What the environment will do: the reply to each request and the reading of each look at the
    * clock. */
  datatype World = World(replies: nat -> Reply, clock: nat -> nat)

  /** Requests sent, clock readings taken and milliseconds slept so far. */
  datatype Pos = Pos(sent: nat, ticks: nat, slept: nat)

  // ----- Refreshing

  datatype Refreshed = Refreshed(answer: Answer<Token>, sent: nat, slept: nat)

  /** The pause after failed attempt `n`; there is none after the last. */
  function Pause(n: nat): (ms: nat) {
    if n == 0 then 200 else if n == 1 then 400 else 0
  }

  /** Tries from attempt `n` on; `lastErr` is what giving up reports. */
  function RefreshFrom(w: World, sent: nat, slept: nat, n: nat, lastErr: Error): (r: Refreshed)
    requires n <= MAX_TRIES
    ensures sent <= r.sent <= sent + (MAX_TRIES - n)
    decreases MAX_TRIES - n
  {
    if n == MAX_TRIES then Refreshed(Bad(lastErr), sent, slept)
    else
      var a := Classify(w.replies(sent));
      if a.Good? || Permanent(a.error) then Refreshed(a, sent + 1, slept)
      else RefreshFrom(w, sent + 1, slept + Pause(n), n + 1, a.error)
  }

  function Refresh(w: World, sent: nat, slept: nat): Refreshed {
    RefreshFrom(w, sent, slept, 0, Backend("unknown"))
  }

  // ----- The cache

  datatype Negative = Negative(expires: nat, message: string)

  datatype Cache = Cache(token: Option<string>, validUntil: Option<nat>, negative: Option<Negative>)

  const EMPTY := Cache(None, None, None)

  datatype Called = Called(answer: Answer<string>, cache: Cache, pos: Pos)

  function Bearer(token: string): string {
    "Bearer " + token
  }

  function Tick(p: Pos): Pos {
    p.(ticks := p.ticks + 1)
  }

  /** `authorization_header` under the lock. */
  function Header(w: World, c: Cache, p: Pos): Called {
    if c.negative.Some? && c.negative.value.expires > w.clock(p.ticks) then
      Called(Bad(Backend(c.negative.value.message)), c, Tick(p))
    else
      AfterNegative(w, c.(negative := None), if c.negative.Some? then Tick(p) else p)
  }

  function AfterNegative(w: World, c: Cache, p: Pos): Called {
    if c.token.Some? && c.validUntil.Some? then
      if w.clock(p.ticks) + REFRESH_SKEW_MS < c.validUntil.value then
        Called(Good(Bearer(c.token.value)), c, Tick(p))
      else AfterRefresh(w, c, Tick(p))
    else AfterRefresh(w, c, p)
  }

  function AfterRefresh(w: World, c: Cache, p: Pos): Called {
    var r := Refresh(w, p.sent, p.slept);
    Settled(w, c, r.answer, Pos(r.sent, p.ticks, r.slept))
  }

  /** What is remembered of a refresh. */
  function Settled(w: World, c: Cache, answer: Answer<Token>, p: Pos): Called {
    match answer
    case Good(t) =>
      Called(Good(Bearer(t.text)),
             c.(token := Some(t.text), validUntil := Some(w.clock(p.ticks) + 1000 * t.expiresIn)), Tick(p))
    case Bad(e) =>
      if Permanent(e) then Called(Bad(e), c, p)
      else
        var message := "OAuth2 refresh failed: " + Shown(e);
        Called(Bad(Backend(message)),
               c.(negative := Some(Negative(w.clock(p.ticks) + NEGATIVE_CACHE_MS, message))), Tick(p))
  }

  /** The negative cache outlives an invalidation. */
  function Invalidated(c: Cache): Cache {
    c.(token := None, validUntil := None)
  }

  // ----- The credential in place

  class Environment {
    const world: World
    var sent: nat
    var ticks: nat
    var slept: nat

    constructor (world: World)
      ensures this.world == world && At() == Pos(0, 0, 0)
    {
      this.world := world;
      sent := 0;
      ticks := 0;
      slept := 0;
    }

    function At(): Pos
      reads this
    {
      Pos(sent, ticks, slept)
    }

    method Post() returns (r: Reply)
      modifies this`sent
      ensures r == world.replies(old(sent)) && sent == old(sent) + 1
    {
      r := world.replies(sent);
      sent := sent + 1;
    }

    method Now() returns (t: nat)
      modifies this`ticks
      ensures t == world.clock(old(ticks)) && ticks == old(ticks) + 1
    {
      t := world.clock(ticks);
      ticks := ticks + 1;
    }

    method Sleep(ms: nat)
      modifies this`slept
      ensures slept == old(slept) + ms
    {
      slept := slept + ms;
    }
  }

  class OAuth2Credential {
    var accessToken: Option<string>
    var validUntil: Option<nat>
    var negativeCache: Option<Negative>

    constructor ()
      ensures View() == EMPTY
    {
      accessToken := None;
      validUntil := None;
      negativeCache := None;
    }

    function View(): Cache
      reads this
    {
      Cache(accessToken, validUntil, negativeCache)
    }

    method RefreshWithRetry(env: Environment) returns (answer: Answer<Token>)
      modifies env`sent, env`slept
      ensures Refreshed(answer, env.sent, env.slept) == Refresh(env.world, old(env.sent), old(env.slept))
    {
      hide Classify;
      var lastErr := Backend("unknown");
      for attempt := 0 to MAX_TRIES
        invariant
          RefreshFrom(env.world, env.sent, env.slept, attempt, lastErr) ==
          Refresh(env.world, old(env.sent), old(env.slept))
      {
        var reply := env.Post();
        match Classify(reply) {
          case Good(t) => return Good(t);
          case Bad(e) =>
            if Permanent(e) {
              return Bad(e);
            }
            lastErr := e;
            if attempt < 2 {
              env.Sleep(200 * (if attempt == 0 then 1 else 2));
            }
        }
      }
      return Bad(lastErr);
    }

    method AuthorizationHeader(env: Environment) returns (answer: Answer<string>)
      modifies this, env`sent, env`ticks, env`slept
      ensures Called(answer, View(), env.At()) == Header(env.world, old(View()), old(env.At()))
    {
      hide Classify, Refresh, RefreshFrom, Bearer, Shown;
      if negativeCache.Some? {
        var now := env.Now();
        if negativeCache.value.expires > now {
          return Bad(Backend(negativeCache.value.message));
        }
        negativeCache := None;
      }
      if accessToken.Some? && validUntil.Some? {
        var now := env.Now();
        if now + REFRESH_SKEW_MS < validUntil.value {
          return Good(Bearer(accessToken.value));
        }
      }
      answer := Renew(env);
    }

    /** The refresh half of `AuthorizationHeader`. */
    method Renew(env: Environment) returns (answer: Answer<string>)
      modifies this, env`sent, env`ticks, env`slept
      ensures Called(answer, View(), env.At()) == AfterRefresh(env.world, old(View()), old(env.At()))
    {
      hide Classify, Refresh, RefreshFrom, Bearer, Shown;
      var refreshed := RefreshWithRetry(env);
      match refreshed {
        case Good(t) =>
          accessToken := Some(t.text);
          var now := env.Now();
          validUntil := Some(now + 1000 * t.expiresIn);
          return Good(Bearer(t.text));
        case Bad(e) =>
          if Permanent(e) {
            return Bad(e);
          }
          var message := "OAuth2 refresh failed: " + Shown(e);
          var now := env.Now();
          negativeCache := Some(Negative(now + NEGATIVE_CACHE_MS, message));
          return Bad(Backend(message));
      }
    }

    method Invalidate()
      modifies this
      ensures View() == Invalidated(old(View()))
    {
      accessToken := None;
      validUntil := None;
    }
  }

  // ----- One call

  /** The pauses before attempt `n`. */
  function Paused(n: nat): nat {
    if n == 0 then 0 else Paused(n - 1) + Pause(n - 1)
  }

  /** At least one request and at most one per attempt left; all but the last fail transiently, the last
    * decides, and between two attempts the refresh pauses: 200 ms, then 400 ms, never after the last. */
  lemma {:induction false} RefreshEnds(w: World, sent: nat, slept: nat, n: nat, lastErr: Error)
    requires n < MAX_TRIES
    ensures
      var r := RefreshFrom(w, sent, slept, n, lastErr);
      && sent < r.sent <= sent + (MAX_TRIES - n)
      && r.answer == Classify(w.replies(r.sent - 1))
      && (r.answer.Bad? && !Permanent(r.answer.error) ==> r.sent == sent + (MAX_TRIES - n))
      && r.slept - slept == Paused(n + (r.sent - sent) - 1) - Paused(n)
      && forall k :: sent <= k < r.sent - 1 ==> Classify(w.replies(k)).Bad? && !Permanent(Classify(w.replies(k)).error)
    decreases MAX_TRIES - n
  {
    hide Classify;
    var a := Classify(w.replies(sent));
    if a.Bad? && !Permanent(a.error) && n + 1 < MAX_TRIES {
      RefreshEnds(w, sent + 1, slept + Pause(n), n + 1, a.error);
    }
  }

  /** A header comes from a cached token that outlives the skew, without any request, or from the token
    * in the last reply to this very call; and a call sends at most three requests and sleeps at most
    * 600 ms. */
  lemma HeaderIsFresh(w: World, c: Cache, p: Pos)
    ensures
      var r := Header(w, c, p);
      && p.sent <= r.pos.sent <= p.sent + MAX_TRIES
      && p.slept <= r.pos.slept <= p.slept + 600
      && p.ticks <= r.pos.ticks
      && (r.answer.Good? ==>
            || (&& r.pos.sent == p.sent && c.token.Some? && c.validUntil.Some?
                && r.answer.value == Bearer(c.token.value)
                && r.pos.ticks > p.ticks
                && w.clock(r.pos.ticks - 1) + REFRESH_SKEW_MS < c.validUntil.value)
            || (&& r.pos.sent > p.sent && Classify(w.replies(r.pos.sent - 1)).Good?
                && r.answer.value == Bearer(Classify(w.replies(r.pos.sent - 1)).value.text)
                && r.cache.token == Some(Classify(w.replies(r.pos.sent - 1)).value.text)))
  {
    hide Classify, AfterRefresh, Bearer;
    RefreshedHeader(w, c.(negative := None), p);
    RefreshedHeader(w, c.(negative := None), Tick(p));
    RefreshedHeader(w, c.(negative := None), Tick(Tick(p)));
    assert c.negative == None ==> c.(negative := None) == c;
  }

  /** A refresh answers from its last reply. */
  lemma RefreshedHeader(w: World, c: Cache, p: Pos)
    ensures
      var r := AfterRefresh(w, c, p);
      && p.sent < r.pos.sent <= p.sent + MAX_TRIES
      && p.slept <= r.pos.slept <= p.slept + 600
      && p.ticks <= r.pos.ticks
      && (r.answer.Good? ==>
            && Classify(w.replies(r.pos.sent - 1)).Good?
            && r.answer.value == Bearer(Classify(w.replies(r.pos.sent - 1)).value.text)
            && r.cache.token == Some(Classify(w.replies(r.pos.sent - 1)).value.text))
  {
    hide Classify, RefreshFrom, Bearer, Shown;
    RefreshEnds(w, p.sent, p.slept, 0, Backend("unknown"));
  }

  /** The negative cache is set exactly by a call whose refresh ends in a transient failure, and expires
    * five seconds after that call's last look at the clock; a permanent failure leaves none. A call that
    * fails without any request has met a live entry. */
  lemma NegativeOnlyTransient(w: World, c: Cache, p: Pos)
    ensures
      var r := Header(w, c, p);
      && (r.pos.sent > p.sent ==>
            var a := Classify(w.replies(r.pos.sent - 1));
            && (r.cache.negative.Some? <==> a.Bad? && !Permanent(a.error))
            && (r.cache.negative.Some? ==>
                  r.pos.ticks > p.ticks
                  && r.cache.negative.value.expires == w.clock(r.pos.ticks - 1) + NEGATIVE_CACHE_MS)
            && (a.Bad? && Permanent(a.error) ==> r.answer == Bad(a.error)))
      && (r.pos.sent == p.sent && r.answer.Bad? ==>
            && r.cache == c && c.negative.Some?
            && w.clock(p.ticks) < c.negative.value.expires && r.answer == Bad(Backend(c.negative.value.message)))
  {
    hide Classify, RefreshFrom;
    RefreshEnds(w, p.sent, p.slept, 0, Backend("unknown"));
  }

  // ----- Whole runs

  datatype Op = GetHeader | Invalidate

  datatype State = State(cache: Cache, pos: Pos)

  function Apply(w: World, s: State, op: Op): State {
    match op
    case GetHeader => var r := Header(w, s.cache, s.pos); State(r.cache, r.pos)
    case Invalidate => State(Invalidated(s.cache), s.pos)
  }

  function Run(w: World, s: State, ops: seq<Op>): State
    decreases |ops|
  {
    if ops == [] then s else Run(w, Apply(w, s, ops[0]), ops[1..])
  }

  /** The answers to the header calls of a run. */
  function Answers(w: World, s: State, ops: seq<Op>): seq<Answer<string>>
    decreases |ops|
  {
    if ops == [] then []
    else
      (if ops[0] == GetHeader then [Header(w, s.cache, s.pos).answer] else []) + Answers(w, Apply(w, s, ops[0]), ops[1..])
  }

  /** Reply `k` issued `token`, living for `e` seconds from clock reading `t`. */
  ghost predicate Issued(w: World, s: State, token: string, until: nat, k: nat, t: nat, e: nat) {
    && k < s.pos.sent && t < s.pos.ticks
    && Classify(w.replies(k)) == Good(Token(token, e))
    && until == w.clock(t) + 1000 * e
  }

  /** Token and expiry are set together, and the token is one the endpoint issued with that expiry. */
  ghost predicate Sound(w: World, s: State) {
    && (s.cache.token.Some? <==> s.cache.validUntil.Some?)
    && (s.cache.token.Some? ==>
          exists k: nat, t: nat, e: nat :: Issued(w, s, s.cache.token.value, s.cache.validUntil.value, k, t, e))
  }

  lemma ApplyKeepsSound(w: World, s: State, op: Op)
    requires Sound(w, s)
    ensures Sound(w, Apply(w, s, op))
  {
    hide Classify, RefreshFrom;
    if op == GetHeader {
      var r := Header(w, s.cache, s.pos);
      HeaderIsFresh(w, s.cache, s.pos);
      if r.pos.sent > s.pos.sent && r.answer.Good? {
        RefreshSets(w, s.cache, s.pos);
        var t := Classify(w.replies(r.pos.sent - 1)).value;
        assert Issued(w, State(r.cache, r.pos), t.text, r.cache.validUntil.value,
                      r.pos.sent - 1, r.pos.ticks - 1, t.expiresIn);
      } else {
        FailureKeepsToken(w, s.cache, s.pos);
        if s.cache.token.Some? {
          var k: nat, t: nat, e: nat :| Issued(w, s, s.cache.token.value, s.cache.validUntil.value, k, t, e);
          assert Issued(w, State(r.cache, r.pos), s.cache.token.value, s.cache.validUntil.value, k, t, e);
        }
      }
    }
  }

  lemma RefreshSets(w: World, c: Cache, p: Pos)
    requires Header(w, c, p).pos.sent > p.sent && Header(w, c, p).answer.Good?
    ensures
      var r := Header(w, c, p);
      var a := Classify(w.replies(r.pos.sent - 1));
      && a.Good? && r.cache.token == Some(a.value.text) && r.pos.ticks > p.ticks
      && r.cache.validUntil == Some(w.clock(r.pos.ticks - 1) + 1000 * a.value.expiresIn)
  {
    hide Classify, RefreshFrom;
    RefreshEnds(w, p.sent, p.slept, 0, Backend("unknown"));
  }

  lemma FailureKeepsToken(w: World, c: Cache, p: Pos)
    requires Header(w, c, p).pos.sent == p.sent || Header(w, c, p).answer.Bad?
    ensures Header(w, c, p).cache.token == c.token && Header(w, c, p).cache.validUntil == c.validUntil
  {
    hide Classify, RefreshFrom;
    RefreshEnds(w, p.sent, p.slept, 0, Backend("unknown"));
  }

  /** Over any run, the cached token is one the endpoint issued, kept with its own expiry. */
  lemma {:induction false} RunKeepsSound(w: World, s: State, ops: seq<Op>)
    requires Sound(w, s)
    ensures Sound(w, Run(w, s, ops))
    decreases |ops|
  {
    hide Sound, Apply;
    if ops != [] {
      ApplyKeepsSound(w, s, ops[0]);
      RunKeepsSound(w, Apply(w, s, ops[0]), ops[1..]);
    }
  }

  /** While the clock has not reached the negative cache's expiry, no call of any run contacts the
    * endpoint and every one fails with the cached message, whatever is invalidated meanwhile. */
  lemma {:induction false} NegativeWindow(w: World, s: State, ops: seq<Op>)
    requires s.cache.negative.Some?
    requires forall k :: s.pos.ticks <= k < Run(w, s, ops).pos.ticks ==> w.clock(k) < s.cache.negative.value.expires
    ensures Run(w, s, ops).pos.sent == s.pos.sent
    ensures Run(w, s, ops).cache.negative == s.cache.negative
    ensures forall a | a in Answers(w, s, ops) :: a == Bad(Backend(s.cache.negative.value.message))
    decreases |ops|
  {
    hide Refresh, AfterNegative;
    if ops != [] {
      var s' := Apply(w, s, ops[0]);
      RunTicks(w, s', ops[1..]);
      HeaderIsFresh(w, s.cache, s.pos);
      if ops[0] == GetHeader {
        ReadsClock(w, s.cache, s.pos);
        assert s.pos.ticks < s'.pos.ticks <= Run(w, s, ops).pos.ticks;
        assert w.clock(s.pos.ticks) < s.cache.negative.value.expires;
      }
      NegativeWindow(w, s', ops[1..]);
    }
  }

  /** For five seconds after a transient failure no call contacts the endpoint; all repeat the failure. */
  lemma QuietAfterTransient(w: World, c: Cache, p: Pos, ops: seq<Op>)
    requires
      var r := Header(w, c, p);
      && r.pos.sent > p.sent && r.pos.ticks > p.ticks
      && Classify(w.replies(r.pos.sent - 1)).Bad? && !Permanent(Classify(w.replies(r.pos.sent - 1)).error)
      && forall k :: r.pos.ticks <= k < Run(w, State(r.cache, r.pos), ops).pos.ticks ==>
           w.clock(k) < w.clock(r.pos.ticks - 1) + NEGATIVE_CACHE_MS
    ensures
      var r := Header(w, c, p);
      && Run(w, State(r.cache, r.pos), ops).pos.sent == r.pos.sent
      && forall a | a in Answers(w, State(r.cache, r.pos), ops) :: a == r.answer
  {
    hide Classify, RefreshFrom, Header, Run, Answers;
    var r := Header(w, c, p);
    NegativeOnlyTransient(w, c, p);
    FailureMessage(w, c, p);
    NegativeWindow(w, State(r.cache, r.pos), ops);
  }

  lemma FailureMessage(w: World, c: Cache, p: Pos)
    requires Header(w, c, p).pos.sent > p.sent && Header(w, c, p).cache.negative.Some?
    ensures Header(w, c, p).answer == Bad(Backend(Header(w, c, p).cache.negative.value.message))
  {
    hide Classify, RefreshFrom;
    RefreshEnds(w, p.sent, p.slept, 0, Backend("unknown"));
  }

  lemma ReadsClock(w: World, c: Cache, p: Pos)
    requires c.negative.Some?
    ensures Header(w, c, p).pos.ticks > p.ticks
  {
    hide Refresh;
  }

  lemma {:induction false} RunTicks(w: World, s: State, ops: seq<Op>)
    ensures s.pos.ticks <= Run(w, s, ops).pos.ticks && s.pos.sent <= Run(w, s, ops).pos.sent
    decreases |ops|
  {
    hide Header;
    if ops != [] {
      HeaderIsFresh(w, s.cache, s.pos);
      RunTicks(w, Apply(w, s, ops[0]), ops[1..]);
    }
  }

  /** While the cached token outlives the skew, callers share it: no call contacts the endpoint and all
    * get the same header. */
  lemma {:induction false} CallersShare(w: World, s: State, ops: seq<Op>)
    requires s.cache.token.Some? && s.cache.validUntil.Some? && s.cache.negative.None?
    requires Invalidate !in ops
    requires forall k :: s.pos.ticks <= k < s.pos.ticks + |ops| ==> w.clock(k) + REFRESH_SKEW_MS < s.cache.validUntil.value
    ensures Run(w, s, ops).pos.sent == s.pos.sent && Run(w, s, ops).cache == s.cache
    ensures |Answers(w, s, ops)| == |ops|
    ensures forall a | a in Answers(w, s, ops) :: a == Good(Bearer(s.cache.token.value))
    decreases |ops|
  {
    hide Refresh;
    if ops != [] {
      assert ops[0] in ops;
      assert ops[0] == GetHeader;
      assert w.clock(s.pos.ticks) + REFRESH_SKEW_MS < s.cache.validUntil.value;
      var s' := Apply(w, s, ops[0]);
      assert s' == State(s.cache, Tick(s.pos));
      CallersShare(w, s', ops[1..]);
    }
  }

  /** A refresh that issues a token with more than the skew to live is shared by the calls after it. */
  lemma RefreshIsShared(w: World, c: Cache, p: Pos, calls: nat)
    requires
      var r := Header(w, c, p);
      && r.pos.sent > p.sent && r.answer.Good?
      && forall k :: r.pos.ticks <= k < r.pos.ticks + calls ==>
           w.clock(k) + REFRESH_SKEW_MS < r.cache.validUntil.value
    ensures
      var r := Header(w, c, p);
      var after := State(r.cache, r.pos);
      var ops := seq(calls, _ => GetHeader);
      && Run(w, after, ops).pos.sent == r.pos.sent
      && forall a | a in Answers(w, after, ops) :: a == r.answer
  {
    hide Classify, RefreshFrom, Header;
    RefreshSets(w, c, p);
    HeaderIsFresh(w, c, p);
    NegativeOnlyTransient(w, c, p);
    var r := Header(w, c, p);
    CallersShare(w, State(r.cache, r.pos), seq(calls, _ => GetHeader));
  }
}

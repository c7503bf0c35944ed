/** What one call for the authorization header returns, told from the replies' status numbers and error codes, the
  * clock, and what was cached. */
module OAuthOutcomes {
  import opened Wrappers
  import opened OAuth

  predicate Grants(r: Reply) {
    r.Response? && 200 <= r.status <= 299 && r.body.TokenJson?
  }

  /** A 400 reply with that error code (section 5.2 of RFC 6749). */
  predicate Rejects(r: Reply, code: string) {
    r.Response? && r.status == 400 && r.body == ErrorJson(code)
  }

  /** No reply, an unreadable one, any status that is neither 2xx nor 400, or a 400 with another or no code. */
  predicate Passing(r: Reply) {
    !Grants(r) && !Rejects(r, "invalid_grant") && !Rejects(r, "invalid_client") && !Rejects(r, "invalid_scope")
  }

  /** Milliseconds slept in a refresh of that many requests. */
  function Rest(requests: nat): nat {
    if requests <= 1 then 0 else if requests == 2 then 200 else 600
  }

  /** How a refresh of `k + 1` requests ends, the first `k` of them failing in passing. */
  predicate Ends(c: Called, c': Cache, r: Reply, now: nat, last: bool) {
    && (Grants(r) ==>
          c.answer == Good("Bearer " + r.body.token) &&
          c.cache == c'.(token := Some(r.body.token), validUntil := Some(now + 1000 * r.body.expiresIn)))
    && (Rejects(r, "invalid_grant") ==> c.answer.Bad? && c.answer.error.Unauthorized? && c.cache == c')
    && (Rejects(r, "invalid_client") || Rejects(r, "invalid_scope") ==>
          c.answer.Bad? && c.answer.error.Config? && c.cache == c')
    && (Passing(r) && last ==>
          c.answer.Bad? && c.answer.error.Backend? &&
          c.cache == c'.(negative := Some(Negative(now + 5_000, c.answer.error.message))))
  }

  lemma RefreshedOnce(w: World, sent: nat, slept: nat, n: nat, lastErr: Error)
    requires n < 3
    ensures
      var r := w.replies(sent);
      var a := RefreshFrom(w, sent, slept, n, lastErr);
      && (Grants(r) ==> a == Refreshed(Good(Token(r.body.token, r.body.expiresIn)), sent + 1, slept))
      && (Rejects(r, "invalid_grant") ==> a.answer.Bad? && a.answer.error.Unauthorized?)
      && (Rejects(r, "invalid_client") || Rejects(r, "invalid_scope") ==> a.answer.Bad? && a.answer.error.Config?)
      && (!Passing(r) ==> a.sent == sent + 1 && a.slept == slept)
      && (Passing(r) && n == 2 ==> a.answer.Bad? && a.answer.error.Backend? && a.sent == sent + 1 && a.slept == slept)
  {
  }

  lemma PassingGoesOn(w: World, sent: nat, slept: nat, n: nat, lastErr: Error) returns (e: Error)
    requires n < 2 && Passing(w.replies(sent))
    ensures RefreshFrom(w, sent, slept, n, lastErr) ==
            RefreshFrom(w, sent + 1, slept + (if n == 0 then 200 else 400), n + 1, e)
  {
    e := Classify(w.replies(sent)).error;
  }

  /** A call that has to refresh: up to two replies may fail in passing; the next one decides, or else the third
    * failure is remembered for five seconds. */
  lemma RefreshDecides(w: World, c: Cache, p: Pos, k: nat)
    requires k <= 2 && (k >= 1 ==> Passing(w.replies(p.sent))) && (k == 2 ==> Passing(w.replies(p.sent + 1)))
    requires Passing(w.replies(p.sent + k)) ==> k == 2
    ensures
      var called := AfterRefresh(w, c, p);
      && called.pos.sent == p.sent + k + 1 && called.pos.slept == p.slept + Rest(k + 1)
      && Ends(called, c, w.replies(p.sent + k), w.clock(p.ticks), k == 2)
  {
    hide Passing, Grants, Rejects, Ends, RefreshFrom, Settled;
    var e := Backend("unknown");
    var s, q := p.sent, p.slept;
    if k >= 1 {
      e := PassingGoesOn(w, s, q, 0, e);
      s, q := s + 1, q + 200;
    }
    if k == 2 {
      e := PassingGoesOn(w, s, q, 1, e);
      s, q := s + 1, q + 400;
    }
    RefreshedOnce(w, s, q, k, e);
    var r := RefreshFrom(w, s, q, k, e);
    SettledEnds(w, c, r.answer, Pos(r.sent, p.ticks, r.slept), w.replies(s), k == 2);
    ReplyCases(w.replies(s));
  }

  lemma ReplyCases(r: Reply)
    ensures Passing(r) <==>
            !Grants(r) && !Rejects(r, "invalid_grant") && !Rejects(r, "invalid_client") && !Rejects(r, "invalid_scope")
    ensures Grants(r) ==> r.Response? && r.body.TokenJson?
  {
  }

  lemma SettledEnds(w: World, c: Cache, answer: Answer<Token>, p: Pos, r: Reply, last: bool)
    requires Grants(r) ==> answer == Good(Token(r.body.token, r.body.expiresIn))
    requires Rejects(r, "invalid_grant") ==> answer.Bad? && answer.error.Unauthorized?
    requires Rejects(r, "invalid_client") || Rejects(r, "invalid_scope") ==> answer.Bad? && answer.error.Config?
    requires Passing(r) && last ==> answer.Bad? && answer.error.Backend?
    ensures Ends(Settled(w, c, answer, p), c, r, w.clock(p.ticks), last)
    ensures Settled(w, c, answer, p).pos.sent == p.sent && Settled(w, c, answer, p).pos.slept == p.slept
  {
    hide Shown;
  }

  /** When a call refreshes: a live failure answers it, a token with more than a minute left answers it, and
    * everything else refreshes. */
  lemma CallDecides(w: World, c: Cache, p: Pos)
    ensures
      var now := w.clock(p.ticks);
      var later := w.clock(p.ticks + 1);
      var called := Header(w, c, p);
      if c.negative.Some? && now < c.negative.value.expires then
        called.answer == Bad(Backend(c.negative.value.message)) && called.pos.sent == p.sent && called.cache == c
      else
        var seen := if c.negative.Some? then later else now;
        if c.token.Some? && c.validUntil.Some? && seen + 60_000 < c.validUntil.value then
          called.answer == Good("Bearer " + c.token.value) && called.pos.sent == p.sent
          && called.cache == c.(negative := None)
        else
          exists ticks: nat :: called == AfterRefresh(w, c.(negative := None), Pos(p.sent, ticks, p.slept))
  {
    hide AfterRefresh;
    var q := if c.negative.Some? then Tick(p) else p;
    assert AfterRefresh(w, c.(negative := None), Tick(q)) ==
           AfterRefresh(w, c.(negative := None), Pos(p.sent, q.ticks + 1, p.slept));
    assert AfterRefresh(w, c.(negative := None), q) == AfterRefresh(w, c.(negative := None), Pos(p.sent, q.ticks, p.slept));
  }
}

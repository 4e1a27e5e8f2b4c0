/**
  The form-token guards of the anti-bot stack, their order, and the arithmetic of
  the time window the token guard and the timing guard share.
*/
module AntiBotGuards {
  import opened Options
  import opened FormTokens
  import opened TokenStores

  datatype Guard = Honeypot | FormToken | Timing | Turnstile | Challenge | Consume

  /** The guard list of the decorator: cheapest first, the only irreversible effect last. */
  const ANTI_BOT: seq<Guard> := [Honeypot, FormToken, Timing, Turnstile, Challenge, Consume]

  datatype ErrorCode = FormTokenInvalid | FormExpired | CaptchaFailed | ChallengeFailed

  /** `FakeSuccess` ends the request with a 200 that never reached the handler. */
  datatype Verdict = Approve | FakeSuccess | Refuse(error: ErrorCode)

  /** What the guards see of a request: the trimmed header ("" when absent), the `_t` field when numeric, and the symbol slot. */
  class Request {
    const token: string
    const timestamp: Option<int>
    var verified: Option<Payload>

    constructor (token: string, timestamp: Option<int>)
      ensures this.token == token && this.timestamp == timestamp && verified == None
    {
      this.token, this.timestamp, verified := token, timestamp, None;
    }
  }

  // ---- verdicts as functions ----

  function CheckToken(c: Codec, token: string, now: int): Result<Payload, ErrorCode> {
    if token == "" then Err(FormTokenInvalid)
    else match Verify(c, token)
      case None => Err(FormTokenInvalid)
      case Some(p) => if p.exp * 1000 - now <= 0 then Err(FormExpired) else Ok(p)
  }

  function RenderedAtMs(verified: Option<Payload>, timestamp: Option<int>): Option<int> {
    if verified.Some? then Some(verified.value.iat * 1000) else timestamp
  }

  function AgeMs(renderedAt: Option<int>, now: int): Option<int> {
    if renderedAt.Some? && now - renderedAt.value >= 0 then Some(now - renderedAt.value) else None
  }

  function CheckTiming(minTimeMs: int, maxTimeMs: int, age: Option<int>): Verdict {
    if age == None then Approve
    else if age.value < minTimeMs then FakeSuccess
    else if age.value > maxTimeMs then Refuse(FormExpired)
    else Approve
  }

  datatype Spent = Spent(verdict: Verdict, store: Store, evicted: set<string>)

  function Spend(verified: Option<Payload>, store: Store, now: int): Spent {
    if verified == None then Spent(Refuse(FormTokenInvalid), store, {})
    else
      var remainingMs := verified.value.exp * 1000 - now;
      if remainingMs <= 0 then Spent(Refuse(FormExpired), store, {})
      else
        var m := Mark(store, verified.value.jti, remainingMs, now);
        Spent(if m.firstUse then Approve else Refuse(FormTokenInvalid), m.store, m.evicted)
  }

  // ---- the guards ----

  class FormTokenGuard {
    const codec: Codec

    constructor (codec: Codec)
      ensures this.codec == codec
    {
      this.codec := codec;
    }

    /** Exactly the tokens that verify and are not yet due pass, and leave their payload on the request. */
    method CanActivate(request: Request, now: int) returns (v: Verdict)
      modifies request
      ensures var p := Verify(codec, request.token);
              && (v == Approve <==> p.Some? && now < p.value.exp * 1000)
              && (v == Refuse(FormExpired) <==> p.Some? && now >= p.value.exp * 1000)
              && (v == Refuse(FormTokenInvalid) <==> p.None?)
              && (v == Approve ==> request.verified == p)
              && (v != Approve ==> request.verified == old(request.verified))
      ensures var r := CheckToken(codec, request.token, now);
              && v == (if r.Ok? then Approve else Refuse(r.error))
              && request.verified == (if r.Ok? then Some(r.value) else old(request.verified))
    {
      if request.token == "" {
        return Refuse(FormTokenInvalid);
      }
      var payload := Verify(codec, request.token);
      if payload == None {
        return Refuse(FormTokenInvalid);
      }
      if payload.value.exp * 1000 - now <= 0 {
        return Refuse(FormExpired);
      }
      request.verified := payload;
      return Approve;
    }
  }

  class TimingGuard {
    const minTimeMs: int
    const maxTimeMs: int

    constructor (minTimeMs: int, maxTimeMs: int)
      ensures this.minTimeMs == minTimeMs && this.maxTimeMs == maxTimeMs
    {
      this.minTimeMs, this.maxTimeMs := minTimeMs, maxTimeMs;
    }

    /**
      The signed `iat` decides where there is one, otherwise the client's field. A form
      rendered in the future or at an unknown time is approved.
    */
    method CanActivate(request: Request, now: int) returns (v: Verdict)
      ensures var rendered := if request.verified.Some? then Some(request.verified.value.iat * 1000) else request.timestamp;
              && (v == FakeSuccess <==> rendered.Some? && 0 <= now - rendered.value < minTimeMs)
              && (v == Refuse(FormExpired) <==>
                    rendered.Some? && 0 <= now - rendered.value && minTimeMs <= now - rendered.value && maxTimeMs < now - rendered.value)
              && (v == Approve <==> v != FakeSuccess && v != Refuse(FormExpired))
      ensures v == CheckTiming(minTimeMs, maxTimeMs, AgeMs(RenderedAtMs(request.verified, request.timestamp), now))
    {
      var ageMs := AgeMs(RenderedAtMs(request.verified, request.timestamp), now);
      if ageMs == None {
        return Approve;
      }
      if ageMs.value < minTimeMs {
        return FakeSuccess;
      }
      if ageMs.value > maxTimeMs {
        return Refuse(FormExpired);
      }
      return Approve;
    }
  }

  class FormTokenConsumeGuard {
    const tokenStore: InMemoryTokenStore

    constructor (tokenStore: InMemoryTokenStore)
      ensures this.tokenStore == tokenStore
    {
      this.tokenStore := tokenStore;
    }

    /** `now` serves both clock reads: the guard's and the store's fall into one synchronous segment. */
    method CanActivate(request: Request, now: int) returns (v: Verdict)
      requires tokenStore.Valid()
      modifies tokenStore
      ensures tokenStore.Valid()
      ensures request.verified == None ==> v == Refuse(FormTokenInvalid) && tokenStore.State() == old(tokenStore.State())
      ensures request.verified.Some? ==>
                var p, was := request.verified.value, old(tokenStore.used.val);
                && (v == Refuse(FormExpired) <==> p.exp * 1000 <= now)
                && (v == Refuse(FormTokenInvalid) <==> now < p.exp * 1000 && p.jti in was && was[p.jti] > now)
                && (v == Approve <==> now < p.exp * 1000 && !(p.jti in was && was[p.jti] > now))
                && (v == Refuse(FormExpired) ==> tokenStore.State() == old(tokenStore.State()))
                && (v == Approve ==> p.jti in tokenStore.used.val && tokenStore.used.val[p.jti] == p.exp * 1000)
      ensures var s := Spend(request.verified, old(tokenStore.State()), now);
              v == s.verdict && tokenStore.State() == s.store
    {
      if request.verified == None {
        return Refuse(FormTokenInvalid);
      }
      var payload := request.verified.value;
      var remainingMs := payload.exp * 1000 - now;
      if remainingMs <= 0 {
        return Refuse(FormExpired);
      }
      var isFirstUse := tokenStore.MarkUsed(payload.jti, remainingMs, now);
      if !isFirstUse {
        return Refuse(FormTokenInvalid);
      }
      return Approve;
    }
  }

  // ---- the time window ----

  function TimingOf(p: Payload, minTimeMs: int, maxTimeMs: int, now: int): Verdict {
    CheckTiming(minTimeMs, maxTimeMs, AgeMs(RenderedAtMs(Some(p), None), now))
  }

  /**
    Flooring `iat` makes a form look 0 to 999 ms older than it is, so a submission
    discarded as too fast really is younger than the minimum.
  */
  lemma TooFastIsTrulyTooFast(minTimeMs: int, maxTimeMs: int, jti: string, context: string, issuedAt: int, now: int)
    requires issuedAt <= now
    ensures var p := NewPayload(maxTimeMs, jti, context, issuedAt);
            && now - issuedAt <= AgeMs(RenderedAtMs(Some(p), None), now).value <= now - issuedAt + 999
            && (TimingOf(p, minTimeMs, maxTimeMs, now) == FakeSuccess ==> now - issuedAt < minTimeMs)
  {
    assert issuedAt == (issuedAt / 1000) * 1000 + issuedAt % 1000;
  }

  /** With a window of at least 999 ms the token guard rejects every form the timing guard would call too old. */
  lemma TooOldUnreachable(minTimeMs: int, maxTimeMs: int, jti: string, context: string, issuedAt: int, now: int)
    requires maxTimeMs >= 999 || minTimeMs > 999
    requires now < NewPayload(maxTimeMs, jti, context, issuedAt).exp * 1000
    ensures TimingOf(NewPayload(maxTimeMs, jti, context, issuedAt), minTimeMs, maxTimeMs, now) != Refuse(FormExpired)
  {
    assert maxTimeMs == (maxTimeMs / 1000) * 1000 + maxTimeMs % 1000;
  }

  /** Outside that condition the branch is reachable for every token: 999 ms after the second of issue it still verifies. */
  lemma TooOldReachable(minTimeMs: int, maxTimeMs: int, jti: string, context: string, issuedAt: int, now: int)
    requires maxTimeMs < 999 && minTimeMs <= 999
    requires now == NewPayload(maxTimeMs, jti, context, issuedAt).iat * 1000 + 999
    ensures var p := NewPayload(maxTimeMs, jti, context, issuedAt);
            issuedAt <= now < p.exp * 1000 && TimingOf(p, minTimeMs, maxTimeMs, now) == Refuse(FormExpired)
  {
    assert issuedAt == (issuedAt / 1000) * 1000 + issuedAt % 1000;
  }

  /** Together: the branch can be taken at some instant the token guard passes exactly when both settings are this short. */
  lemma TooOldIffShortWindow(minTimeMs: int, maxTimeMs: int, jti: string, context: string)
    ensures (exists issuedAt, now ::
               && now < NewPayload(maxTimeMs, jti, context, issuedAt).exp * 1000
               && TimingOf(NewPayload(maxTimeMs, jti, context, issuedAt), minTimeMs, maxTimeMs, now) == Refuse(FormExpired))
            <==> maxTimeMs < 999 && minTimeMs <= 999
  {
    if maxTimeMs < 999 && minTimeMs <= 999 {
      TooOldReachable(minTimeMs, maxTimeMs, jti, context, 0, 999);
    } else {
      forall issuedAt, now | now < NewPayload(maxTimeMs, jti, context, issuedAt).exp * 1000
        ensures TimingOf(NewPayload(maxTimeMs, jti, context, issuedAt), minTimeMs, maxTimeMs, now) != Refuse(FormExpired)
      {
        TooOldUnreachable(minTimeMs, maxTimeMs, jti, context, issuedAt, now);
      }
    }
  }

  /** The token a form is issued with is a text, and it verifies. */
  lemma IssuedTokenChecks(c: Codec, maxTimeMs: int, jti: string, context: string, issuedAt: int, now: int)
    requires Ideal(c) && jti != ""
    ensures var p := NewPayload(maxTimeMs, jti, context, issuedAt);
            CheckToken(c, Issue(c, maxTimeMs, jti, context, issuedAt), now) == if now < p.exp * 1000 then Ok(p) else Err(FormExpired)
  {
    IssuedTokenVerifies(c, maxTimeMs, jti, context, issuedAt);
    assert Issue(c, maxTimeMs, jti, context, issuedAt) != "" by {
      assert |Compact(c, NewPayload(maxTimeMs, jti, context, issuedAt))| >= 1;
    }
  }

  /** Every form of a true age from the minimum to two seconds short of the maximum passes both guards, whatever the settings. */
  lemma HonestFormPasses(c: Codec, minTimeMs: int, maxTimeMs: int, jti: string, context: string, issuedAt: int, now: int)
    requires Ideal(c) && jti != "" && (minTimeMs > 0 || maxTimeMs >= 999)
    requires minTimeMs <= now - issuedAt <= maxTimeMs - 1999
    ensures var p := NewPayload(maxTimeMs, jti, context, issuedAt);
            && CheckToken(c, Issue(c, maxTimeMs, jti, context, issuedAt), now) == Ok(p)
            && TimingOf(p, minTimeMs, maxTimeMs, now) == Approve
  {
    IssuedTokenChecks(c, maxTimeMs, jti, context, issuedAt, now);
    IssuedPayload(maxTimeMs, jti, context, issuedAt);
  }

  /** And every form at least as old as the maximum, or a second old under a shorter one, is refused by the token guard. */
  lemma StaleFormIsRefused(c: Codec, maxTimeMs: int, jti: string, context: string, issuedAt: int, now: int)
    requires Ideal(c) && jti != ""
    requires now - issuedAt >= maxTimeMs && now - issuedAt >= 1000
    ensures CheckToken(c, Issue(c, maxTimeMs, jti, context, issuedAt), now) == Err(FormExpired)
  {
    IssuedTokenChecks(c, maxTimeMs, jti, context, issuedAt, now);
    IssuedPayload(maxTimeMs, jti, context, issuedAt);
  }
}

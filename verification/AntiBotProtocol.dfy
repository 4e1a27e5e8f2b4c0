/**
  Concurrent requests through the whole anti-bot stack, as a state machine. A step
  runs one guard of one request; requests interleave freely, the clock never goes
  back, and the honeypot, Turnstile and challenge verdicts are arbitrary.
*/
module AntiBotProtocol {
  import opened Options
  import opened FormTokens
  import opened TokenStores
  import opened AntiBotGuards

  datatype Config = Config(codec: Codec, minTimeMs: int, maxTimeMs: int)

  /** A guard that approved a request, the token payload the request carried just after, and when. */
  datatype Approval = Approval(guard: Guard, verified: Option<Payload>, at: int)

  datatype Status = Running | Accepted | Stopped(guard: Guard, verdict: Verdict)

  datatype Req = Req(token: string, verified: Option<Payload>, trail: seq<Approval>, status: Status)

  /** `evictions` counts, per jti, how often the cap threw its mark out. */
  datatype Sys = Sys(clock: int, issued: set<Payload>, reqs: map<nat, Req>, store: Store, evictions: multiset<string>)

  datatype Event =
    | IssueToken(jti: string, context: string, at: int)
    | Arrive(id: nat, token: string, at: int)
    | Act(id: nat, verdict: Verdict, at: int)

  const START := Sys(0, {}, map[], EMPTY_STORE, multiset{})

  /** Fresh jtis, requests that act only while they run, tokens the service signed, a monotone clock. */
  ghost predicate Enabled(cfg: Config, s: Sys, e: Event) {
    && s.clock <= e.at
    && match e
       case IssueToken(jti, _, _) => jti != "" && forall p :: p in s.issued ==> p.jti != jti
       case Arrive(id, _, _) => id !in s.reqs
       case Act(id, _, _) => id in s.reqs && s.reqs[id].status.Running? && NotForged(cfg.codec, s.issued, s.reqs[id].token)
  }

  datatype Outcome = Outcome(verdict: Verdict, verified: Option<Payload>, store: Store, evicted: set<string>)

  /** One guard on one request; `free` is the verdict of the guards the model leaves open. */
  function RunGuard(cfg: Config, g: Guard, r: Req, store: Store, free: Verdict, now: int): Outcome {
    match g
    case FormToken =>
      var checked := CheckToken(cfg.codec, r.token, now);
      if checked.Ok? then Outcome(Approve, Some(checked.value), store, {}) else Outcome(Refuse(checked.error), r.verified, store, {})
    case Timing =>
      Outcome(CheckTiming(cfg.minTimeMs, cfg.maxTimeMs, AgeMs(RenderedAtMs(r.verified, None), now)), r.verified, store, {})
    case Consume =>
      var s := Spend(r.verified, store, now);
      Outcome(s.verdict, r.verified, s.store, s.evicted)
    case _ => Outcome(free, r.verified, store, {})
  }

  // ---- the verdicts of the three guards the model opens, told from the request, the marks and the clock ----

  lemma TokenGuardVerdict(cfg: Config, r: Req, store: Store, free: Verdict, now: int)
    ensures var v, p := RunGuard(cfg, FormToken, r, store, free, now).verdict, Verify(cfg.codec, r.token);
            && (v == Approve <==> p.Some? && now < p.value.exp * 1000)
            && (v == Refuse(FormExpired) <==> p.Some? && now >= p.value.exp * 1000)
            && (v == Refuse(FormTokenInvalid) <==> p.None?)
  {
  }

  lemma TimingGuardVerdict(cfg: Config, r: Req, store: Store, free: Verdict, now: int)
    requires r.verified.Some?
    ensures var v, age := RunGuard(cfg, Timing, r, store, free, now).verdict, now - r.verified.value.iat * 1000;
            && (v == FakeSuccess <==> 0 <= age < cfg.minTimeMs)
            && (v == Refuse(FormExpired) <==> 0 <= age && cfg.minTimeMs <= age && cfg.maxTimeMs < age)
            && (v == Approve <==> v != FakeSuccess && v != Refuse(FormExpired))
  {
  }

  lemma ConsumeGuardVerdict(cfg: Config, r: Req, store: Store, free: Verdict, now: int)
    requires ValidStore(store) && r.verified.Some?
    ensures var v, p := RunGuard(cfg, Consume, r, store, free, now).verdict, r.verified.value;
            && (v == Refuse(FormExpired) <==> p.exp * 1000 <= now)
            && (v == Refuse(FormTokenInvalid) <==> now < p.exp * 1000 && p.jti in store.used.val && store.used.val[p.jti] > now)
            && (v == Approve <==> now < p.exp * 1000 && !(p.jti in store.used.val && store.used.val[p.jti] > now))
  {
    MarkOnLive(store, r.verified.value.jti, r.verified.value.exp * 1000 - now, now);
  }

  /** The next guard in the decorator's order, or the handler when all have approved. */
  function Advance(r: Req, g: Guard, o: Outcome, now: int): Req {
    if o.verdict != Approve then r.(status := Stopped(g, o.verdict))
    else
      Req(r.token, o.verified, r.trail + [Approval(g, o.verified, now)],
          if |r.trail| + 1 < |ANTI_BOT| then Running else Accepted)
  }

  function Apply(cfg: Config, s: Sys, e: Event): Sys {
    match e
    case IssueToken(jti, context, at) =>
      s.(clock := at, issued := s.issued + {NewPayload(cfg.maxTimeMs, jti, context, at)})
    case Arrive(id, token, at) =>
      s.(clock := at, reqs := s.reqs[id := Req(token, None, [], Running)])
    case Act(id, free, at) =>
      if id in s.reqs && |s.reqs[id].trail| < |ANTI_BOT| then
        var g := ANTI_BOT[|s.reqs[id].trail|];
        var o := RunGuard(cfg, g, s.reqs[id], s.store, free, at);
        Sys(at, s.issued, s.reqs[id := Advance(s.reqs[id], g, o, at)], o.store, s.evictions + multiset(o.evicted))
      else s
  }

  function Run(cfg: Config, events: seq<Event>): Sys {
    if events == [] then START else Apply(cfg, Run(cfg, events[..|events| - 1]), events[|events| - 1])
  }

  ghost predicate Possible(cfg: Config, events: seq<Event>) {
    events == [] ||
    var front := events[..|events| - 1];
    Possible(cfg, front) && Enabled(cfg, Run(cfg, front), events[|events| - 1])
  }

  predicate AcceptedFor(r: Req, jti: string) {
    r.status == Accepted && r.verified.Some? && r.verified.value.jti == jti
  }

  /** The requests that got past the consume guard with this jti. */
  ghost function AcceptedWith(reqs: map<nat, Req>, jti: string): set<nat> {
    set id | id in reqs && AcceptedFor(reqs[id], jti)
  }

  // ---- what each request's trail records ----

  /** The guards of the stack in order, each at its own time, carrying one token from the second on. */
  ghost predicate TrailOrder(r: Req, clock: int) {
    && |r.trail| <= |ANTI_BOT|
    && (forall i :: 0 <= i < |r.trail| ==> r.trail[i].guard == ANTI_BOT[i] && r.trail[i].at <= clock)
    && (forall i, j :: 0 <= i < j < |r.trail| ==> r.trail[i].at <= r.trail[j].at)
    && (forall i :: 1 <= i < |r.trail| ==> r.trail[i].verified == r.verified)
  }

  /** Where the request stands. */
  ghost predicate StatusOk(r: Req) {
    match r.status
    case Running => |r.trail| < |ANTI_BOT|
    case Accepted => |r.trail| == |ANTI_BOT|
    case Stopped(g, v) => |r.trail| < |ANTI_BOT| && g == ANTI_BOT[|r.trail|] && v != Approve
  }

  ghost predicate TokenOk(cfg: Config, issued: set<Payload>, r: Req) {
    && (r.verified.Some? <==> |r.trail| >= 2)
    && (r.verified.Some? ==> r.verified.value in issued && CheckToken(cfg.codec, r.token, r.trail[1].at) == Ok(r.verified.value))
  }

  ghost predicate TimingOk(cfg: Config, r: Req) {
    |r.trail| >= 3 ==> CheckTiming(cfg.minTimeMs, cfg.maxTimeMs, AgeMs(RenderedAtMs(r.verified, None), r.trail[2].at)) == Approve
  }

  ghost predicate ReqOk(cfg: Config, issued: set<Payload>, clock: int, r: Req) {
    TrailOrder(r, clock) && StatusOk(r) && TokenOk(cfg, issued, r) && TimingOk(cfg, r)
  }

  ghost predicate ReqsOk(cfg: Config, s: Sys) {
    forall id :: id in s.reqs ==> ReqOk(cfg, s.issued, s.clock, s.reqs[id])
  }

  lemma ReqOkLater(cfg: Config, issued: set<Payload>, clock: int, issued': set<Payload>, clock': int, r: Req)
    requires ReqOk(cfg, issued, clock, r) && issued <= issued' && clock <= clock'
    ensures ReqOk(cfg, issued', clock', r)
  {
  }

  lemma AdvanceTrail(r: Req, g: Guard, o: Outcome, clock: int, now: int)
    requires |r.trail| < |ANTI_BOT| && TrailOrder(r, clock) && clock <= now && g == ANTI_BOT[|r.trail|]
    requires |r.trail| >= 2 ==> o.verified == r.verified
    ensures TrailOrder(Advance(r, g, o, now), now)
  {
  }

  /** A guard that approves or stops keeps the request's record right. */
  lemma GuardKeepsReqOk(cfg: Config, s: Sys, id: nat, free: Verdict, now: int)
    requires Ideal(cfg.codec) && id in s.reqs && ReqOk(cfg, s.issued, s.clock, s.reqs[id]) && s.clock <= now
    requires s.reqs[id].status.Running? && NotForged(cfg.codec, s.issued, s.reqs[id].token)
    requires forall p :: p in s.issued ==> p.jti != ""
    ensures var r := s.reqs[id];
            var g := ANTI_BOT[|r.trail|];
            ReqOk(cfg, s.issued, now, Advance(r, g, RunGuard(cfg, g, r, s.store, free, now), now))
  {
    var r := s.reqs[id];
    var g := ANTI_BOT[|r.trail|];
    var o := RunGuard(cfg, g, r, s.store, free, now);
    AdvanceTrail(r, g, o, s.clock, now);
    if g == FormToken && o.verdict == Approve {
      VerifiedIffIssued(cfg.codec, s.issued, r.token, o.verified.value);
    }
  }

  // ---- the invariant ----

  ghost predicate IssuedOk(cfg: Config, issued: set<Payload>) {
    && (forall p :: p in issued ==> p.jti != "" && p.exp - p.iat == TtlSeconds(cfg.maxTimeMs))
    && forall p, q :: p in issued && q in issued && p.jti == q.jti ==> p == q
  }

  /** A mark is there because some accepted request put it there. */
  ghost predicate MarksOwned(s: Sys) {
    forall jti :: jti in s.store.used.val ==> AcceptedWith(s.reqs, jti) != {}
  }

  /** It lasts exactly to the end of its token. */
  ghost predicate MarkOk(s: Sys, p: Payload) {
    p.jti in s.store.used.val ==> s.store.used.val[p.jti] == p.exp * 1000
  }

  /** While the token could still be presented, every use but the one still marked has been evicted. */
  ghost predicate SpentOk(s: Sys, p: Payload) {
    var uses := |AcceptedWith(s.reqs, p.jti)|;
    && uses <= 1 + s.evictions[p.jti]
    && (p.exp * 1000 > s.clock ==> uses == s.evictions[p.jti] + if p.jti in s.store.used.val then 1 else 0)
  }

  /** Only marks of accepted requests have been evicted. */
  ghost predicate EvictionsOwned(s: Sys) {
    forall jti :: s.evictions[jti] > 0 ==> AcceptedWith(s.reqs, jti) != {}
  }

  ghost predicate Inv(cfg: Config, s: Sys) {
    && ValidStore(s.store)
    && IssuedOk(cfg, s.issued)
    && ReqsOk(cfg, s)
    && MarksOwned(s) && EvictionsOwned(s)
    && forall p :: p in s.issued ==> MarkOk(s, p) && SpentOk(s, p)
  }

  /** The accepted requests change only when the consume guard approves. */
  lemma AcceptedAfter(reqs: map<nat, Req>, id: nat, r: Req, jti: string)
    requires id in reqs ==> !reqs[id].status.Accepted?
    ensures AcceptedWith(reqs[id := r], jti) == AcceptedWith(reqs, jti) + if AcceptedFor(r, jti) then {id} else {}
    ensures id !in AcceptedWith(reqs, jti)
  {
  }

  lemma FreshIsUnused(cfg: Config, s: Sys, jti: string)
    requires ReqsOk(cfg, s) && MarksOwned(s) && EvictionsOwned(s) && forall p :: p in s.issued ==> p.jti != jti
    ensures AcceptedWith(s.reqs, jti) == {} && s.evictions[jti] == 0 && jti !in s.store.used.val
  {
    forall id | id in s.reqs ensures !AcceptedFor(s.reqs[id], jti) {
      assert ReqOk(cfg, s.issued, s.clock, s.reqs[id]);
    }
  }

  lemma QuietKeepsSpent(s: Sys, t: Sys, p: Payload)
    requires s.clock <= t.clock && t.store == s.store && t.evictions == s.evictions
    requires AcceptedWith(t.reqs, p.jti) == AcceptedWith(s.reqs, p.jti)
    requires MarkOk(s, p) && SpentOk(s, p)
    ensures MarkOk(t, p) && SpentOk(t, p)
  {
  }

  lemma OneMoreIssued(cfg: Config, issued: set<Payload>, p: Payload)
    requires IssuedOk(cfg, issued) && p.jti != "" && p.exp - p.iat == TtlSeconds(cfg.maxTimeMs)
    requires forall q :: q in issued ==> q.jti != p.jti
    ensures IssuedOk(cfg, issued + {p})
  {
  }

  lemma RecordsSurvive(cfg: Config, s: Sys, t: Sys)
    requires ReqsOk(cfg, s) && s.issued <= t.issued && s.clock <= t.clock && t.reqs == s.reqs
    ensures ReqsOk(cfg, t)
  {
    forall id | id in t.reqs ensures ReqOk(cfg, t.issued, t.clock, t.reqs[id]) {
      ReqOkLater(cfg, s.issued, s.clock, t.issued, t.clock, s.reqs[id]);
    }
  }

  lemma IssueKeepsInv(cfg: Config, s: Sys, e: Event)
    requires Inv(cfg, s) && Enabled(cfg, s, e) && e.IssueToken?
    ensures Inv(cfg, Apply(cfg, s, e))
  {
    var t, issue := Apply(cfg, s, e), NewPayload(cfg.maxTimeMs, e.jti, e.context, e.at);
    assert t == Sys(e.at, s.issued + {issue}, s.reqs, s.store, s.evictions);
    OneMoreIssued(cfg, s.issued, issue);
    RecordsSurvive(cfg, s, t);
    FreshIsUnused(cfg, s, e.jti);
    forall p | p in t.issued ensures MarkOk(t, p) && SpentOk(t, p) {
      if p in s.issued {
        QuietKeepsSpent(s, t, p);
      }
    }
  }

  lemma ArriveKeepsInv(cfg: Config, s: Sys, e: Event)
    requires Inv(cfg, s) && Enabled(cfg, s, e) && e.Arrive?
    ensures Inv(cfg, Apply(cfg, s, e))
  {
    var t := Apply(cfg, s, e);
    forall id | id in t.reqs ensures ReqOk(cfg, t.issued, t.clock, t.reqs[id]) {
      if id != e.id {
        ReqOkLater(cfg, s.issued, s.clock, t.issued, t.clock, s.reqs[id]);
      }
    }
    forall jti ensures AcceptedWith(t.reqs, jti) == AcceptedWith(s.reqs, jti) {
      AcceptedAfter(s.reqs, e.id, t.reqs[e.id], jti);
    }
    forall p | p in t.issued ensures MarkOk(t, p) && SpentOk(t, p) {
      QuietKeepsSpent(s, t, p);
    }
  }

  lemma ActKeepsReqs(cfg: Config, s: Sys, e: Event)
    requires Ideal(cfg.codec) && Inv(cfg, s) && Enabled(cfg, s, e) && e.Act?
    ensures ReqsOk(cfg, Apply(cfg, s, e))
  {
    var t := Apply(cfg, s, e);
    forall id | id in t.reqs ensures ReqOk(cfg, t.issued, t.clock, t.reqs[id]) {
      if id == e.id {
        GuardKeepsReqOk(cfg, s, id, e.verdict, e.at);
      } else {
        ReqOkLater(cfg, s.issued, s.clock, t.issued, t.clock, s.reqs[id]);
      }
    }
  }

  /** The guard an enabled `Act` runs next. */
  function NextGuard(s: Sys, e: Event): Guard
    requires e.Act? && e.id in s.reqs && |s.reqs[e.id].trail| < |ANTI_BOT|
  {
    ANTI_BOT[|s.reqs[e.id].trail|]
  }

  /** Only the consume guard touches the store or lets a request through. */
  lemma OtherGuardsOnlyCheck(cfg: Config, s: Sys, e: Event)
    requires ReqsOk(cfg, s) && Enabled(cfg, s, e)
    requires e.Act? ==> NextGuard(s, e) != Consume
    ensures var t := Apply(cfg, s, e);
            && t.store == s.store && t.evictions == s.evictions
            && forall jti :: AcceptedWith(t.reqs, jti) == AcceptedWith(s.reqs, jti)
  {
    var t := Apply(cfg, s, e);
    forall jti ensures AcceptedWith(t.reqs, jti) == AcceptedWith(s.reqs, jti) {
      if !e.IssueToken? {
        AcceptedAfter(s.reqs, e.id, t.reqs[e.id], jti);
      }
    }
  }

  lemma CheckKeepsInv(cfg: Config, s: Sys, e: Event)
    requires Ideal(cfg.codec) && Inv(cfg, s) && Enabled(cfg, s, e) && e.Act? && NextGuard(s, e) != Consume
    ensures Inv(cfg, Apply(cfg, s, e))
  {
    var t := Apply(cfg, s, e);
    ActKeepsReqs(cfg, s, e);
    OtherGuardsOnlyCheck(cfg, s, e);
    forall p | p in t.issued ensures MarkOk(t, p) && SpentOk(t, p) {
      QuietKeepsSpent(s, t, p);
    }
  }

  /** What spending a token does to the store, without saying how. */
  ghost predicate SpentFacts(p: Payload, before: Store, now: int, ok: bool, after: Store, evicted: set<string>) {
    var was, marks := before.used.val, after.used.val;
    && (ok <==> p.exp * 1000 > now && !(p.jti in was && was[p.jti] > now))
    && ValidStore(after)
    && (!ok ==> evicted == {})
    && (ok ==> p.jti in marks && marks[p.jti] == p.exp * 1000 && p.jti !in evicted)
    && (forall j :: j in evicted ==> j in was && j !in marks)
    && (forall j :: j in marks && !(ok && j == p.jti) ==> j in was && marks[j] == was[j])
    && (forall j :: j in was && was[j] > now && j !in evicted ==> j in marks)
  }

  lemma SpendFacts(p: Payload, store: Store, now: int)
    requires ValidStore(store)
    ensures var o := Spend(Some(p), store, now);
            SpentFacts(p, store, now, o.verdict == Approve, o.store, o.evicted)
  {
    var ttl := p.exp * 1000 - now;
    if ttl > 0 {
      var m := Mark(store, p.jti, ttl, now);
      MarkKeepsValid(store, p.jti, ttl, now);
      MarkOnLive(store, p.jti, ttl, now);
      MarkWrites(store, p.jti, ttl, now);
      forall j | j in store.used.val && store.used.val[j] > now && j !in m.evicted ensures j in m.store.used.val {
        MarkLeavesLive(store, p.jti, ttl, now, j, now);
        assert j in Live(store.used, now);
      }
    }
  }

  lemma ReadyToSpend(cfg: Config, s: Sys, e: Event)
    requires ReqsOk(cfg, s) && Enabled(cfg, s, e) && e.Act? && NextGuard(s, e) == Consume
    ensures var r := s.reqs[e.id]; |r.trail| == 5 && r.status == Running && r.verified.Some? && r.verified.value in s.issued
  {
    assert ReqOk(cfg, s.issued, s.clock, s.reqs[e.id]);
  }

  lemma ConsumeApplied(cfg: Config, s: Sys, e: Event)
    requires e.Act? && e.id in s.reqs && |s.reqs[e.id].trail| == 5 && s.reqs[e.id].status == Running
    ensures var o, t := Spend(s.reqs[e.id].verified, s.store, e.at), Apply(cfg, s, e);
            && t == Sys(e.at, s.issued, s.reqs[e.id := t.reqs[e.id]], o.store, s.evictions + multiset(o.evicted))
            && (t.reqs[e.id].status == Accepted <==> o.verdict == Approve)
            && t.reqs[e.id].verified == s.reqs[e.id].verified
  {
    var r := s.reqs[e.id];
    var o := Spend(r.verified, s.store, e.at);
    assert RunGuard(cfg, Consume, r, s.store, e.verdict, e.at) == Outcome(o.verdict, r.verified, o.store, o.evicted);
  }

  /** The consume guard's step: the token it spends, whether it lets the request through, and what it leaves. */
  lemma ConsumeStep(cfg: Config, s: Sys, e: Event) returns (p: Payload, ok: bool, evicted: set<string>)
    requires Inv(cfg, s) && Enabled(cfg, s, e) && e.Act? && NextGuard(s, e) == Consume
    ensures s.reqs[e.id].verified == Some(p) && p in s.issued
    ensures var t := Apply(cfg, s, e);
            && SpentFacts(p, s.store, e.at, ok, t.store, evicted)
            && t == Sys(e.at, s.issued, s.reqs[e.id := t.reqs[e.id]], t.store, s.evictions + multiset(evicted))
            && (t.reqs[e.id].status == Accepted <==> ok)
            && t.reqs[e.id].verified == Some(p)
  {
    ReadyToSpend(cfg, s, e);
    ConsumeApplied(cfg, s, e);
    p := s.reqs[e.id].verified.value;
    var o := Spend(Some(p), s.store, e.at);
    SpendFacts(p, s.store, e.at);
    ok, evicted := o.verdict == Approve, o.evicted;
  }

  lemma ConsumeKeepsSpent(s: Sys, t: Sys, id: nat, p: Payload, ok: bool, evicted: set<string>, q: Payload)
    requires id in s.reqs && !s.reqs[id].status.Accepted? && id in t.reqs
    requires s.clock <= t.clock && SpentFacts(p, s.store, t.clock, ok, t.store, evicted)
    requires t.reqs == s.reqs[id := t.reqs[id]] && t.evictions == s.evictions + multiset(evicted)
    requires (t.reqs[id].status == Accepted <==> ok) && t.reqs[id].verified == Some(p)
    requires (q.jti == p.jti ==> q == p) && MarkOk(s, q) && SpentOk(s, q)
    ensures MarkOk(t, q) && SpentOk(t, q)
  {
    AcceptedAfter(s.reqs, id, t.reqs[id], q.jti);
  }

  lemma ConsumeKeepsOwned(s: Sys, t: Sys, id: nat, p: Payload, ok: bool, evicted: set<string>)
    requires id in s.reqs && !s.reqs[id].status.Accepted? && id in t.reqs
    requires SpentFacts(p, s.store, t.clock, ok, t.store, evicted)
    requires t.reqs == s.reqs[id := t.reqs[id]]
    requires (t.reqs[id].status == Accepted <==> ok) && t.reqs[id].verified == Some(p)
    requires t.evictions == s.evictions + multiset(evicted)
    requires MarksOwned(s) && EvictionsOwned(s)
    ensures MarksOwned(t) && EvictionsOwned(t)
  {
    forall jti | jti in t.store.used.val ensures AcceptedWith(t.reqs, jti) != {} {
      AcceptedAfter(s.reqs, id, t.reqs[id], jti);
    }
    forall jti | t.evictions[jti] > 0 ensures AcceptedWith(t.reqs, jti) != {} {
      AcceptedAfter(s.reqs, id, t.reqs[id], jti);
      assert jti in evicted || s.evictions[jti] > 0;
    }
  }

  lemma ConsumeKeepsInv(cfg: Config, s: Sys, e: Event)
    requires Ideal(cfg.codec) && Inv(cfg, s) && Enabled(cfg, s, e) && e.Act? && NextGuard(s, e) == Consume
    ensures Inv(cfg, Apply(cfg, s, e))
  {
    var p, ok, evicted := ConsumeStep(cfg, s, e);
    ActKeepsReqs(cfg, s, e);
    var t := Apply(cfg, s, e);
    ConsumeKeepsOwned(s, t, e.id, p, ok, evicted);
    forall q | q in t.issued ensures MarkOk(t, q) && SpentOk(t, q) {
      ConsumeKeepsSpent(s, t, e.id, p, ok, evicted, q);
    }
  }

  lemma {:induction false} RunKeepsInv(cfg: Config, events: seq<Event>)
    requires Ideal(cfg.codec) && Possible(cfg, events)
    ensures Inv(cfg, Run(cfg, events))
  {
    if events != [] {
      var front, e := events[..|events| - 1], events[|events| - 1];
      RunKeepsInv(cfg, front);
      var s := Run(cfg, front);
      match e
      case IssueToken(_, _, _) => IssueKeepsInv(cfg, s, e);
      case Arrive(_, _, _) => ArriveKeepsInv(cfg, s, e);
      case Act(id, _, _) =>
        assert ReqOk(cfg, s.issued, s.clock, s.reqs[id]);
        if NextGuard(s, e) == Consume {
          ConsumeKeepsInv(cfg, s, e);
        } else {
          CheckKeepsInv(cfg, s, e);
        }
    }
  }

  // ---- main results ----

  /** Single use: at most one request more gets through with a jti than the cap threw its mark out. */
  lemma SingleUse(cfg: Config, events: seq<Event>, jti: string)
    requires Ideal(cfg.codec) && Possible(cfg, events)
    ensures |AcceptedWith(Run(cfg, events).reqs, jti)| <= 1 + Run(cfg, events).evictions[jti]
  {
    var s := Run(cfg, events);
    RunKeepsInv(cfg, events);
    if id :| id in AcceptedWith(s.reqs, jti) {
      assert ReqOk(cfg, s.issued, s.clock, s.reqs[id]);
      assert SpentOk(s, s.reqs[id].verified.value);
    }
  }

  /** A payload a request carries was issued by the service, with exactly the configured lifetime, and its token verifies to it. */
  lemma CarriedTokenWasIssued(cfg: Config, events: seq<Event>, s: Sys, id: nat)
    requires Ideal(cfg.codec) && Possible(cfg, events) && s == Run(cfg, events)
    requires id in s.reqs && s.reqs[id].verified.Some?
    ensures var p := s.reqs[id].verified.value;
            && p in s.issued && Verify(cfg.codec, s.reqs[id].token) == Some(p)
            && (cfg.maxTimeMs >= 1000 ==> (p.exp - p.iat) * 1000 <= cfg.maxTimeMs < (p.exp - p.iat) * 1000 + 1000)
            && (cfg.maxTimeMs < 1000 ==> p.exp == p.iat + 1)
  {
    RunKeepsInv(cfg, events);
    var p := s.reqs[id].verified.value;
    assert ReqOk(cfg, s.issued, s.clock, s.reqs[id]);
    TtlIs(cfg.maxTimeMs, p.exp - p.iat);
  }

  lemma FirstFive(r: Req, clock: int)
    requires TrailOrder(r, clock) && |r.trail| == 5
    ensures r.trail[0].guard == Honeypot && r.trail[1].guard == FormToken && r.trail[2].guard == Timing
    ensures r.trail[3].guard == Turnstile && r.trail[4].guard == Challenge
  {
  }

  /**
    A mark appears or changes only when a request is let through by the consume
    guard, and by then the five earlier guards of the stack have approved that very
    request, in order, from the token guard on carrying the one token that is spent.
  */
  lemma SpentOnlyAfterApproval(cfg: Config, events: seq<Event>, e: Event, jti: string)
    requires Ideal(cfg.codec) && Possible(cfg, events) && Enabled(cfg, Run(cfg, events), e)
    requires var s := Run(cfg, events);
             var marks := Apply(cfg, s, e).store.used.val;
             jti in marks && !(jti in s.store.used.val && s.store.used.val[jti] == marks[jti])
    ensures var s := Run(cfg, events);
            && e.Act? && Apply(cfg, s, e).reqs[e.id].status == Accepted
            && var r := s.reqs[e.id];
               && |r.trail| == 5 && r.verified.Some? && r.verified.value.jti == jti && r.verified.value in s.issued
               && r.trail[0].guard == Honeypot && r.trail[1].guard == FormToken && r.trail[2].guard == Timing
               && r.trail[3].guard == Turnstile && r.trail[4].guard == Challenge
               && (forall i :: 1 <= i < 5 ==> r.trail[i].verified == r.verified)
               && r.trail[1].at < r.verified.value.exp * 1000
               && e.at < r.verified.value.exp * 1000
  {
    var s := Run(cfg, events);
    RunKeepsInv(cfg, events);
    if e.Act? {
      assert ReqOk(cfg, s.issued, s.clock, s.reqs[e.id]);
    }
    if e.Act? && NextGuard(s, e) == Consume {
      var p, ok, evicted := ConsumeStep(cfg, s, e);
      assert CheckToken(cfg.codec, s.reqs[e.id].token, s.reqs[e.id].trail[1].at) == Ok(p);
      FirstFive(s.reqs[e.id], s.clock);
    } else {
      OtherGuardsOnlyCheck(cfg, s, e);
    }
  }

  // ---- a request stopped before the consume guard leaves no trace ----

  predicate Concerns(e: Event, id: nat) {
    (e.Arrive? || e.Act?) && e.id == id
  }

  /** The same history without one request. */
  function Without(events: seq<Event>, id: nat): seq<Event> {
    if events == [] then [] else
      var rest := Without(events[..|events| - 1], id);
      if Concerns(events[|events| - 1], id) then rest else rest + [events[|events| - 1]]
  }

  predicate ReachedConsume(s: Sys, id: nat) {
    id in s.reqs && match s.reqs[id].status
                    case Running => false
                    case Accepted => true
                    case Stopped(g, _) => g == Consume
  }

  ghost predicate SameBut(s: Sys, t: Sys, id: nat) {
    s.issued == t.issued && s.store == t.store && s.evictions == t.evictions && s.reqs - {id} == t.reqs && t.clock <= s.clock
  }

  lemma SameButStep(cfg: Config, s: Sys, t: Sys, e: Event, id: nat)
    requires SameBut(s, t, id) && Enabled(cfg, s, e) && !Concerns(e, id)
    ensures Enabled(cfg, t, e) && SameBut(Apply(cfg, s, e), Apply(cfg, t, e), id)
  {
    if e.Act? {
      assert t.reqs[e.id] == s.reqs[e.id];
    }
  }

  lemma OwnStepTouchesOnlyItself(cfg: Config, s: Sys, e: Event, id: nat)
    requires Enabled(cfg, s, e) && Concerns(e, id)
    ensures var t := Apply(cfg, s, e); t.issued == s.issued && t.reqs - {id} == s.reqs - {id} && s.clock <= t.clock
  {
  }

  lemma NotYetConsuming(cfg: Config, s: Sys, e: Event, id: nat)
    requires ReqsOk(cfg, s) && Enabled(cfg, s, e) && Concerns(e, id) && e.Act?
    requires !ReachedConsume(Apply(cfg, s, e), id)
    ensures |s.reqs[id].trail| < |ANTI_BOT| && NextGuard(s, e) != Consume
  {
    assert ReqOk(cfg, s.issued, s.clock, s.reqs[id]);
  }

  lemma OwnStepLeavesRest(cfg: Config, s: Sys, e: Event, id: nat)
    requires ReqsOk(cfg, s) && Enabled(cfg, s, e) && Concerns(e, id)
    requires !ReachedConsume(Apply(cfg, s, e), id)
    ensures SameBut(Apply(cfg, s, e), s.(reqs := s.reqs - {id}), id)
  {
    if e.Act? {
      NotYetConsuming(cfg, s, e, id);
    }
    OtherGuardsOnlyCheck(cfg, s, e);
    OwnStepTouchesOnlyItself(cfg, s, e, id);
  }

  /** Leaving the request out of the history gives the same store, tokens, evictions and other requests. */
  lemma {:induction false} StoppedRequestLeavesNoTrace(cfg: Config, events: seq<Event>, id: nat)
    requires Ideal(cfg.codec) && Possible(cfg, events) && !ReachedConsume(Run(cfg, events), id)
    ensures Possible(cfg, Without(events, id)) && SameBut(Run(cfg, events), Run(cfg, Without(events, id)), id)
  {
    if events != [] {
      var front, e := events[..|events| - 1], events[|events| - 1];
      var s := Run(cfg, front);
      RunKeepsInv(cfg, front);
      StoppedRequestLeavesNoTrace(cfg, front, id);
      var t := Run(cfg, Without(front, id));
      if Concerns(e, id) {
        OwnStepLeavesRest(cfg, s, e, id);
      } else {
        SameButStep(cfg, s, t, e, id);
        assert Without(events, id)[..|Without(events, id)| - 1] == Without(front, id);
      }
    }
  }

  // ---- a retry of an unspent token ----

  lemma RunOneMore(cfg: Config, events: seq<Event>, e: Event)
    ensures Run(cfg, events + [e]) == Apply(cfg, Run(cfg, events), e)
    ensures Possible(cfg, events + [e]) <==> Possible(cfg, events) && Enabled(cfg, Run(cfg, events), e)
  {
    assert (events + [e])[..|events + [e]| - 1] == events;
  }

  /**
    Exactly when the consume guard lets an approved request through: the token has not
    expired and each use of it so far has been thrown out by the cap. So a token whose
    mark was evicted is accepted once more, and the bound of `SingleUse` is reached.
  */
  lemma AcceptedIff(cfg: Config, events: seq<Event>, s: Sys, e: Event)
    requires Ideal(cfg.codec) && Possible(cfg, events) && s == Run(cfg, events) && Enabled(cfg, s, e)
    requires e.Act? && |s.reqs[e.id].trail| == 5
    ensures s.reqs[e.id].verified.Some?
    ensures var p := s.reqs[e.id].verified.value;
            Apply(cfg, s, e).reqs[e.id].status == Accepted <==>
            p.exp * 1000 > e.at && |AcceptedWith(s.reqs, p.jti)| == s.evictions[p.jti]
  {
    RunKeepsInv(cfg, events);
    var p, ok, evicted := ConsumeStep(cfg, s, e);
    assert MarkOk(s, p) && SpentOk(s, p);
  }

  /** While a token could still be presented, its uses are the evictions of its mark and the use still marked. */
  lemma UsesAreCounted(cfg: Config, events: seq<Event>, s: Sys, p: Payload)
    requires Ideal(cfg.codec) && Possible(cfg, events) && s == Run(cfg, events) && p in s.issued && p.exp * 1000 > s.clock
    ensures |AcceptedWith(s.reqs, p.jti)| == s.evictions[p.jti] + if p.jti in s.store.used.val then 1 else 0
  {
    RunKeepsInv(cfg, events);
    assert SpentOk(s, p);
  }

  /** The consume guard lets an approved request through whenever nobody was let through with that jti before. */
  lemma UnspentTokenIsAccepted(cfg: Config, events: seq<Event>, e: Event)
    requires Ideal(cfg.codec) && Possible(cfg, events) && Enabled(cfg, Run(cfg, events), e)
    requires e.Act? && |Run(cfg, events).reqs[e.id].trail| == 5
    requires var p := Run(cfg, events).reqs[e.id].verified;
             p.Some? && p.value.exp * 1000 > e.at && AcceptedWith(Run(cfg, events).reqs, p.value.jti) == {}
    ensures Apply(cfg, Run(cfg, events), e).reqs[e.id].status == Accepted
  {
    RunKeepsInv(cfg, events);
    var p, ok, evicted := ConsumeStep(cfg, Run(cfg, events), e);
  }

  lemma RequestsAreRecorded(cfg: Config, events: seq<Event>, s: Sys)
    requires Ideal(cfg.codec) && Possible(cfg, events) && s == Run(cfg, events)
    ensures ReqsOk(cfg, s)
  {
    RunKeepsInv(cfg, events);
  }

  /** An approving guard before the last, on the systems before and after. */
  ghost predicate Approved(s: Sys, t: Sys, id: nat, p: Payload, at: int) {
    && id in s.reqs && id in t.reqs
    && t.issued == s.issued && t.clock == at
    && t.reqs[id].token == s.reqs[id].token && t.reqs[id].status == Running && |t.reqs[id].trail| == |s.reqs[id].trail| + 1
    && (|t.reqs[id].trail| >= 2 ==> t.reqs[id].verified == Some(p))
  }

  lemma ApprovingGuard(cfg: Config, s: Sys, id: nat, p: Payload, at: int)
    requires id in s.reqs && s.reqs[id].status == Running && |s.reqs[id].trail| < 5
    requires |s.reqs[id].trail| == 1 ==> CheckToken(cfg.codec, s.reqs[id].token, at) == Ok(p)
    requires |s.reqs[id].trail| == 2 ==> TimingOf(p, cfg.minTimeMs, cfg.maxTimeMs, at) == Approve
    requires |s.reqs[id].trail| >= 2 ==> s.reqs[id].verified == Some(p)
    ensures Approved(s, Apply(cfg, s, Act(id, Approve, at)), id, p, at)
  {
  }

  /** One guard of a fresh submission approves and passes the token on. */
  lemma SubmissionStep(cfg: Config, events: seq<Event>, s: Sys, id: nat, p: Payload, at: int) returns (more: seq<Event>, t: Sys)
    requires Ideal(cfg.codec) && Possible(cfg, events) && s == Run(cfg, events)
    requires s.clock <= at && id in s.reqs && NotForged(cfg.codec, s.issued, s.reqs[id].token)
    requires s.reqs[id].status == Running && |s.reqs[id].trail| < 5
    requires |s.reqs[id].trail| == 1 ==> CheckToken(cfg.codec, s.reqs[id].token, at) == Ok(p)
    requires |s.reqs[id].trail| == 2 ==> TimingOf(p, cfg.minTimeMs, cfg.maxTimeMs, at) == Approve
    requires |s.reqs[id].trail| >= 2 ==> s.reqs[id].verified == Some(p)
    ensures more == events + [Act(id, Approve, at)] && Possible(cfg, more) && t == Run(cfg, more)
    ensures Approved(s, t, id, p, at) && AcceptedWith(t.reqs, p.jti) == AcceptedWith(s.reqs, p.jti)
  {
    var e := Act(id, Approve, at);
    more, t := events + [e], Apply(cfg, s, e);
    RequestsAreRecorded(cfg, events, s);
    RunOneMore(cfg, events, e);
    ApprovingGuard(cfg, s, id, p, at);
    OtherGuardsOnlyCheck(cfg, s, e);
  }

  /** A submission's first five guards, run one after the other. */
  lemma FiveApprovals(cfg: Config, events: seq<Event>, s: Sys, id: nat, p: Payload, at: seq<int>) returns (more: seq<Event>, t: Sys)
    requires Ideal(cfg.codec) && Possible(cfg, events) && s == Run(cfg, events)
    requires |at| == 6 && s.clock <= at[0] <= at[1] <= at[2] <= at[3] <= at[4]
    requires id in s.reqs && s.reqs[id].status == Running && s.reqs[id].trail == [] && NotForged(cfg.codec, s.issued, s.reqs[id].token)
    requires CheckToken(cfg.codec, s.reqs[id].token, at[1]) == Ok(p) && TimingOf(p, cfg.minTimeMs, cfg.maxTimeMs, at[2]) == Approve
    ensures more == events + [Act(id, Approve, at[0])] + [Act(id, Approve, at[1])] + [Act(id, Approve, at[2])]
                    + [Act(id, Approve, at[3])] + [Act(id, Approve, at[4])]
    ensures Possible(cfg, more) && t == Run(cfg, more)
    ensures t.issued == s.issued && t.clock == at[4] && id in t.reqs && t.reqs[id].token == s.reqs[id].token
    ensures t.reqs[id].status == Running && |t.reqs[id].trail| == 5 && t.reqs[id].verified == Some(p)
    ensures AcceptedWith(t.reqs, p.jti) == AcceptedWith(s.reqs, p.jti)
  {
    more, t := SubmissionStep(cfg, events, s, id, p, at[0]);
    more, t := SubmissionStep(cfg, more, t, id, p, at[1]);
    more, t := SubmissionStep(cfg, more, t, id, p, at[2]);
    more, t := SubmissionStep(cfg, more, t, id, p, at[3]);
    more, t := SubmissionStep(cfg, more, t, id, p, at[4]);
  }

  /** A whole submission: the request arrives and the free guards approve. */
  function Submission(id: nat, token: string, at: seq<int>): seq<Event>
    requires |at| == 6
  {
    [Arrive(id, token, at[0]), Act(id, Approve, at[0]), Act(id, Approve, at[1]), Act(id, Approve, at[2]),
     Act(id, Approve, at[3]), Act(id, Approve, at[4]), Act(id, Approve, at[5])]
  }

  /**
    A later submission of the same unspent token, with a fresh request id, goes all
    the way through, however many earlier submissions of it were stopped.
  */
  lemma RetryIsAccepted(cfg: Config, events: seq<Event>, id: nat, p: Payload, at: seq<int>)
    requires Ideal(cfg.codec) && Possible(cfg, events)
    requires p in Run(cfg, events).issued && AcceptedWith(Run(cfg, events).reqs, p.jti) == {}
    requires id !in Run(cfg, events).reqs
    requires |at| == 6 && Run(cfg, events).clock <= at[0] <= at[1] <= at[2] <= at[3] <= at[4] <= at[5] < p.exp * 1000
    requires TimingOf(p, cfg.minTimeMs, cfg.maxTimeMs, at[2]) == Approve
    ensures var more := events + Submission(id, Compact(cfg.codec, p), at);
            Possible(cfg, more) && id in Run(cfg, more).reqs && Run(cfg, more).reqs[id].status == Accepted
  {
    RunKeepsInv(cfg, events);
    FreshTokenChecks(cfg, Run(cfg, events).issued, p, at[1]);
    TokenIsAccepted(cfg, events, Run(cfg, events), id, Compact(cfg.codec, p), p, at);
  }

  lemma TokenIsAccepted(cfg: Config, events: seq<Event>, s: Sys, id: nat, token: string, p: Payload, at: seq<int>)
    requires Ideal(cfg.codec) && Possible(cfg, events) && s == Run(cfg, events)
    requires |at| == 6 && s.clock <= at[0] <= at[1] <= at[2] <= at[3] <= at[4] <= at[5] < p.exp * 1000
    requires CheckToken(cfg.codec, token, at[1]) == Ok(p) && TimingOf(p, cfg.minTimeMs, cfg.maxTimeMs, at[2]) == Approve
    requires id !in s.reqs && NotForged(cfg.codec, s.issued, token) && AcceptedWith(s.reqs, p.jti) == {}
    ensures var more := events + Submission(id, token, at);
            Possible(cfg, more) && id in Run(cfg, more).reqs && Run(cfg, more).reqs[id].status == Accepted
  {
    var m, t := Arrived(cfg, events, s, id, token, at[0], p.jti);
    m, t := FiveApprovals(cfg, m, t, id, p, at);
    m, t := Spending(cfg, m, t, id, p, at[5]);
    OneByOne(events, Arrive(id, token, at[0]), Act(id, Approve, at[0]), Act(id, Approve, at[1]), Act(id, Approve, at[2]),
             Act(id, Approve, at[3]), Act(id, Approve, at[4]), Act(id, Approve, at[5]));
  }

  lemma OneByOne<T>(s: seq<T>, a: T, b: T, c: T, d: T, e: T, f: T, g: T)
    ensures s + [a] + [b] + [c] + [d] + [e] + [f] + [g] == s + [a, b, c, d, e, f, g]
  {
  }

  lemma Arrived(cfg: Config, events: seq<Event>, s: Sys, id: nat, token: string, at: int, jti: string) returns (more: seq<Event>, t: Sys)
    requires Ideal(cfg.codec) && Possible(cfg, events) && s == Run(cfg, events)
    requires s.clock <= at && id !in s.reqs && AcceptedWith(s.reqs, jti) == {}
    ensures more == events + [Arrive(id, token, at)] && Possible(cfg, more) && t == Run(cfg, more)
    ensures t.clock == at && t.issued == s.issued && id in t.reqs && t.reqs[id] == Req(token, None, [], Running)
    ensures AcceptedWith(t.reqs, jti) == {}
  {
    var e := Arrive(id, token, at);
    more, t := events + [e], Apply(cfg, s, e);
    RequestsAreRecorded(cfg, events, s);
    RunOneMore(cfg, events, e);
    OtherGuardsOnlyCheck(cfg, s, e);
  }

  lemma Spending(cfg: Config, events: seq<Event>, s: Sys, id: nat, p: Payload, at: int) returns (more: seq<Event>, t: Sys)
    requires Ideal(cfg.codec) && Possible(cfg, events) && s == Run(cfg, events)
    requires s.clock <= at < p.exp * 1000 && id in s.reqs && NotForged(cfg.codec, s.issued, s.reqs[id].token)
    requires s.reqs[id].status == Running && |s.reqs[id].trail| == 5 && s.reqs[id].verified == Some(p)
    requires AcceptedWith(s.reqs, p.jti) == {}
    ensures more == events + [Act(id, Approve, at)] && Possible(cfg, more) && t == Run(cfg, more)
    ensures id in t.reqs && t.reqs[id].status == Accepted
  {
    var e := Act(id, Approve, at);
    more, t := events + [e], Apply(cfg, s, e);
    RunOneMore(cfg, events, e);
    UnspentTokenIsAccepted(cfg, events, e);
  }

  lemma FreshTokenChecks(cfg: Config, issued: set<Payload>, p: Payload, now: int)
    requires Ideal(cfg.codec) && IssuedOk(cfg, issued) && p in issued && now < p.exp * 1000
    ensures NotForged(cfg.codec, issued, Compact(cfg.codec, p))
    ensures CheckToken(cfg.codec, Compact(cfg.codec, p), now) == Ok(p)
  {
    var data := cfg.codec.header + "." + cfg.codec.encode(p);
    SplitThree(cfg.codec.header, cfg.codec.encode(p), cfg.codec.sign(data));
    VerifiedIffIssued(cfg.codec, issued, Compact(cfg.codec, p), p);
    assert Compact(cfg.codec, p)[|data|] == '.';
  }
}

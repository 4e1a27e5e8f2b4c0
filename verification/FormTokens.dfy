/**
  Issuing and verifying form tokens. HMAC, base64url, JSON and UUIDs are a `Codec`
  record; what is assumed of them is `Ideal` (inverse pair, dot-free output) and,
  for a presented token, `NotForged` (only logged data carries a valid signature).
*/
module FormTokens {
  import opened Options

  datatype Payload = Payload(jti: string, context: string, iat: int, exp: int)

  /** `decode` stands for base64url, JSON.parse and the type tests of `isPayload` other than `jti.length > 0`. */
  datatype Codec = Codec(header: string, encode: Payload -> string, decode: string -> Option<Payload>, sign: string -> string)

  ghost predicate NoDot(s: string) {
    '.' !in s
  }

  ghost predicate Ideal(c: Codec) {
    && NoDot(c.header)
    && (forall p :: NoDot(c.encode(p)) && c.decode(c.encode(p)) == Some(p))
    && forall d :: NoDot(c.sign(d))
  }

  /** JavaScript's `split('.')`. */
  function Split(s: string): (parts: seq<string>)
    ensures |parts| >= 1
  {
    if s == "" then [""]
    else
      var rest := Split(s[1..]);
      if s[0] == '.' then [""] + rest else [[s[0]] + rest[0]] + rest[1..]
  }

  function Join(parts: seq<string>): string
    requires |parts| >= 1
  {
    if |parts| == 1 then parts[0] else parts[0] + "." + Join(parts[1..])
  }

  // Durations: the configured window is in milliseconds, the claims in whole seconds.

  function TtlSeconds(maxTimeMs: int): (ttl: int)
    ensures ttl >= 1
  {
    if maxTimeMs / 1000 >= 1 then maxTimeMs / 1000 else 1
  }

  function NewPayload(maxTimeMs: int, jti: string, context: string, nowMs: int): Payload {
    Payload(jti, context, nowMs / 1000, nowMs / 1000 + TtlSeconds(maxTimeMs))
  }

  function Compact(c: Codec, p: Payload): string {
    var data := c.header + "." + c.encode(p);
    data + "." + c.sign(data)
  }

  function Issue(c: Codec, maxTimeMs: int, jti: string, context: string, nowMs: int): string {
    Compact(c, NewPayload(maxTimeMs, jti, context, nowMs))
  }

  function Verify(c: Codec, token: string): Option<Payload> {
    var parts := Split(token);
    if |parts| != 3 || c.sign(parts[0] + "." + parts[1]) != parts[2] then None
    else match c.decode(parts[1])
      case Some(p) => if |p.jti| > 0 then Some(p) else None
      case None => None
  }

  lemma TtlIs(maxTimeMs: int, ttl: int)
    requires ttl == TtlSeconds(maxTimeMs)
    ensures maxTimeMs >= 1000 ==> ttl * 1000 <= maxTimeMs < ttl * 1000 + 1000
    ensures maxTimeMs < 1000 ==> ttl == 1
  {
    assert maxTimeMs == (maxTimeMs / 1000) * 1000 + maxTimeMs % 1000;
  }

  /**
    What an issued token says, in the terms of its setting: the second it was issued in,
    and a lifetime of the configured window rounded down to whole seconds, at least one.
  */
  lemma IssuedPayload(maxTimeMs: int, jti: string, context: string, nowMs: int)
    ensures var p := NewPayload(maxTimeMs, jti, context, nowMs);
            && p.jti == jti && p.context == context
            && p.iat * 1000 <= nowMs < p.iat * 1000 + 1000
            && (maxTimeMs >= 1000 ==> (p.exp - p.iat) * 1000 <= maxTimeMs < (p.exp - p.iat) * 1000 + 1000)
            && (maxTimeMs < 1000 ==> p.exp == p.iat + 1)
  {
    assert nowMs == (nowMs / 1000) * 1000 + nowMs % 1000;
    TtlIs(maxTimeMs, TtlSeconds(maxTimeMs));
  }

  // ---- splitting undoes joining ----

  lemma {:induction false} SplitDotFree(s: string)
    requires NoDot(s)
    ensures Split(s) == [s]
  {
    if s != "" {
      SplitDotFree(s[1..]);
      assert [s[0]] + s[1..] == s;
    }
  }

  lemma {:induction false} SplitPrefix(a: string, s: string)
    requires NoDot(a)
    ensures Split(a + "." + s) == [a] + Split(s)
  {
    if a == "" {
      assert (a + "." + s)[1..] == s;
    } else {
      SplitPrefix(a[1..], s);
      assert [a[0]] + a[1..] == a;
      assert (a + "." + s)[1..] == a[1..] + "." + s;
    }
  }

  lemma SplitThree(a: string, b: string, c: string)
    requires NoDot(a) && NoDot(b) && NoDot(c)
    ensures Split(a + "." + b + "." + c) == [a, b, c]
  {
    assert a + "." + b + "." + c == a + "." + (b + "." + c);
    SplitPrefix(a, b + "." + c);
    SplitPrefix(b, c);
    SplitDotFree(c);
  }

  lemma {:induction false} SplitParts(s: string)
    ensures forall i :: 0 <= i < |Split(s)| ==> NoDot(Split(s)[i])
    ensures Join(Split(s)) == s
  {
    if s != "" {
      SplitParts(s[1..]);
    }
  }

  lemma JoinThree(parts: seq<string>)
    requires |parts| == 3
    ensures Join(parts) == parts[0] + "." + parts[1] + "." + parts[2]
  {
    assert Join(parts[1..]) == parts[1] + "." + Join(parts[1..][1..]);
    assert Join(parts[1..][1..]) == parts[2];
  }

  lemma CutAtDot(a: string, b: string, x: string, y: string)
    requires NoDot(a) && NoDot(b) && NoDot(x) && NoDot(y)
    requires a + "." + b == x + "." + y
    ensures a == x && b == y
  {
    SplitPrefix(a, b);
    SplitPrefix(x, y);
    SplitDotFree(b);
    SplitDotFree(y);
    assert Split(a + "." + b)[0] == a && Split(a + "." + b)[1] == b;
  }

  // ---- what verification means ----

  /** Whatever the codec and whoever signed: a verified payload names its token, and its signature matches. */
  lemma VerifiedIsNamedAndSigned(c: Codec, token: string)
    ensures Verify(c, token).Some? ==>
              && Verify(c, token).value.jti != ""
              && exists data, signature :: token == data + "." + signature && signature == c.sign(data)
  {
    if Verify(c, token).Some? {
      var parts := Split(token);
      SplitParts(token);
      JoinThree(parts);
      var data := parts[0] + "." + parts[1];
      assert token == data + "." + parts[2] && parts[2] == c.sign(data);
    }
  }

  /** Round trip: a freshly issued token verifies to exactly the payload it was issued with. */
  lemma IssuedTokenVerifies(c: Codec, maxTimeMs: int, jti: string, context: string, nowMs: int)
    requires Ideal(c) && jti != ""
    ensures Verify(c, Issue(c, maxTimeMs, jti, context, nowMs)) == Some(NewPayload(maxTimeMs, jti, context, nowMs))
  {
    var p := NewPayload(maxTimeMs, jti, context, nowMs);
    SplitThree(c.header, c.encode(p), c.sign(c.header + "." + c.encode(p)));
  }

  /** The ideal MAC: data carrying a matching signature was signed by the service for some issued payload. */
  ghost predicate NotForged(c: Codec, issued: set<Payload>, token: string) {
    var parts := Split(token);
    |parts| == 3 && c.sign(parts[0] + "." + parts[1]) == parts[2] ==>
      exists p :: p in issued && parts[0] + "." + parts[1] == c.header + "." + c.encode(p)
  }

  /** Under that assumption, verification accepts exactly the compact forms of issued payloads, unchanged. */
  lemma VerifiedIffIssued(c: Codec, issued: set<Payload>, token: string, p: Payload)
    requires Ideal(c) && NotForged(c, issued, token)
    requires forall q :: q in issued ==> q.jti != ""
    ensures Verify(c, token) == Some(p) ==> p in issued && token == Compact(c, p)
    ensures p in issued && token == Compact(c, p) ==> Verify(c, token) == Some(p)
  {
    var parts := Split(token);
    if Verify(c, token) == Some(p) {
      var q :| q in issued && parts[0] + "." + parts[1] == c.header + "." + c.encode(q);
      SplitParts(token);
      CutAtDot(parts[0], parts[1], c.header, c.encode(q));
      JoinThree(parts);
    }
    if p in issued && token == Compact(c, p) {
      SplitThree(c.header, c.encode(p), c.sign(c.header + "." + c.encode(p)));
    }
  }

  // ---- the assumptions can be met ----

  /** `n` written with the letters a and b only, so that it can be cut off what follows. */
  function Tally(n: nat): string {
    if n == 0 then "b" else "a" + Tally(n - 1)
  }

  function Tallies(s: string): string {
    if s == "" then "" else Tally(s[0] as int) + Tallies(s[1..])
  }

  function TallyInt(n: int): string {
    Tally(if n >= 0 then 2 * n else -2 * n - 1)
  }

  function TallyText(s: string, rest: string): string {
    Tally(|s|) + (Tallies(s) + rest)
  }

  function TallyPayload(p: Payload): string {
    TallyText(p.jti, TallyText(p.context, TallyInt(p.iat) + TallyInt(p.exp)))
  }

  lemma {:induction false} TallyCuts(m: nat, n: nat, x: string, y: string)
    requires Tally(m) + x == Tally(n) + y
    ensures m == n && x == y
  {
    var s, t := Tally(m) + x, Tally(n) + y;
    assert s[0] == (if m == 0 then 'b' else 'a') && t[0] == (if n == 0 then 'b' else 'a');
    if m == 0 {
      assert s[1..] == x && t[1..] == y;
    } else {
      assert s[1..] == Tally(m - 1) + x && t[1..] == Tally(n - 1) + y;
      TallyCuts(m - 1, n - 1, x, y);
    }
  }

  lemma {:induction false} TalliesCut(s: string, t: string, x: string, y: string)
    requires |s| == |t| && Tallies(s) + x == Tallies(t) + y
    ensures s == t && x == y
  {
    if s == "" {
      assert "" + x == x && "" + y == y;
    } else {
      var u, v := Tallies(s[1..]) + x, Tallies(t[1..]) + y;
      assert Tallies(s) + x == Tally(s[0] as int) + u && Tallies(t) + y == Tally(t[0] as int) + v;
      TallyCuts(s[0] as int, t[0] as int, u, v);
      TalliesCut(s[1..], t[1..], x, y);
      assert s == [s[0]] + s[1..] && t == [t[0]] + t[1..];
    }
  }

  lemma TallyTextCuts(s: string, t: string, x: string, y: string)
    requires TallyText(s, x) == TallyText(t, y)
    ensures s == t && x == y
  {
    TallyCuts(|s|, |t|, Tallies(s) + x, Tallies(t) + y);
    TalliesCut(s, t, x, y);
  }

  lemma TallyPayloadInjective(p: Payload, q: Payload)
    requires TallyPayload(p) == TallyPayload(q)
    ensures p == q
  {
    var x, y := TallyInt(p.iat) + TallyInt(p.exp), TallyInt(q.iat) + TallyInt(q.exp);
    TallyTextCuts(p.jti, q.jti, TallyText(p.context, x), TallyText(q.context, y));
    TallyTextCuts(p.context, q.context, x, y);
    TallyCuts(if p.iat >= 0 then 2 * p.iat else -2 * p.iat - 1, if q.iat >= 0 then 2 * q.iat else -2 * q.iat - 1, TallyInt(p.exp), TallyInt(q.exp));
    assert TallyInt(p.exp) + "" == TallyInt(q.exp) + "";
    TallyCuts(if p.exp >= 0 then 2 * p.exp else -2 * p.exp - 1, if q.exp >= 0 then 2 * q.exp else -2 * q.exp - 1, "", "");
  }

  lemma {:induction false} TallyDotFree(n: nat)
    ensures NoDot(Tally(n))
  {
    if n > 0 {
      TallyDotFree(n - 1);
    }
  }

  lemma {:induction false} TalliesDotFree(s: string)
    ensures NoDot(Tallies(s))
  {
    if s != "" {
      TallyDotFree(s[0] as int);
      TalliesDotFree(s[1..]);
    }
  }

  lemma TallyPayloadDotFree(p: Payload)
    ensures NoDot(TallyPayload(p))
  {
    TallyDotFree(|p.jti|);
    TalliesDotFree(p.jti);
    TallyDotFree(|p.context|);
    TalliesDotFree(p.context);
    TallyDotFree(if p.iat >= 0 then 2 * p.iat else -2 * p.iat - 1);
    TallyDotFree(if p.exp >= 0 then 2 * p.exp else -2 * p.exp - 1);
  }

  ghost function FromTally(s: string): Option<Payload> {
    if exists p :: TallyPayload(p) == s then
      var p :| TallyPayload(p) == s;
      Some(p)
    else None
  }

  /** A codec as assumed above exists, so nothing proved under `Ideal` is empty. */
  lemma IdealCodecExists()
    ensures exists c :: Ideal(c)
  {
    var decode: string -> Option<Payload> := s => FromTally(s);
    var c := Codec("h", TallyPayload, decode, d => "s");
    forall p ensures NoDot(c.encode(p)) && c.decode(c.encode(p)) == Some(p) {
      TallyPayloadDotFree(p);
      assert exists q :: TallyPayload(q) == TallyPayload(p);
      TallyPayloadInjective(FromTally(TallyPayload(p)).value, p);
    }
    assert Ideal(c);
  }
}

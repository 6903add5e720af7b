/** The demo token scheme of src/lib/auth.ts: a fixed prefix followed by an
    encoded payload that carries an expiry time, checked lazily on every read.
    `btoa(JSON.stringify(...))` and `JSON.parse(atob(...))` are replaced by a
    length-prefixed text codec with the same property the scheme relies on:
    decoding an encoded payload gives it back. */
module Auth {

  import opened Basics
  import opened Strings

  const TokenPrefix := "demo_token_"

  /** 7 days in milliseconds. */
  const TokenLifetime := 7 * 24 * 60 * 60 * 1000

  /** The decoded JSON object. Every property may be missing; `exp` is
      milliseconds since the epoch. */
  datatype TokenPayload = TokenPayload(userId: Option<string>, username: Option<string>,
                                       role: Option<string>, exp: Option<int>)

  /** The argument of `generateToken`. */
  datatype TokenClaims = TokenClaims(userId: string, username: string, role: Option<string>)

  // ---- the codec ----

  /** Index of the first `c` in `s`. */
  function IndexOf(s: string, c: char): (r: Option<nat>)
    ensures r.Some? ==> r.value < |s| && s[r.value] == c && c !in s[..r.value]
    ensures r.None? ==> c !in s
    decreases |s|
  {
    if s == [] then None
    else if s[0] == c then Some(0)
    else match IndexOf(s[1..], c)
      case None => None
      case Some(k) =>
        assert s[..k + 1] == [s[0]] + s[1..][..k];
        Some(k + 1)
  }

  lemma {:induction false} IndexOfAfter(a: string, c: char, b: string)
    requires c !in a
    ensures IndexOf(a + [c] + b, c) == Some(|a|)
    decreases |a|
  {
    if a != [] {
      assert (a + [c] + b)[1..] == a[1..] + [c] + b;
      IndexOfAfter(a[1..], c, b);
    }
  }

  predicate AllDigits(s: string) {
    forall i :: 0 <= i < |s| ==> IsDigit(s[i])
  }

  /** A string as its length in decimal, a colon, and the string itself. */
  function EncodeStr(s: string): string {
    NatToString(|s|) + ":" + s
  }

  /** Reads one `EncodeStr` off the front of `t`; returns it and what follows. */
  function DecodeStr(t: string): Option<(string, string)> {
    match IndexOf(t, ':')
    case None => None
    case Some(k) =>
      var digits := t[..k];
      var rest := t[k + 1..];
      if digits != [] && AllDigits(digits) && DigitsValue(digits) <= |rest| then
        Some((rest[..DigitsValue(digits)], rest[DigitsValue(digits)..]))
      else None
  }

  lemma DecodeEncodeStr(s: string, rest: string)
    ensures DecodeStr(EncodeStr(s) + rest) == Some((s, rest))
  {
    var n := NatToString(|s|);
    var t := EncodeStr(s) + rest;
    assert t == n + [':'] + (s + rest);
    assert ':' !in n by {
      forall i | 0 <= i < |n| ensures n[i] != ':' {
        assert IsDigit(n[i]);
      }
    }
    IndexOfAfter(n, ':', s + rest);
    assert t[..|n|] == n;
    assert t[|n| + 1..] == s + rest;
    DigitsValueOfNatToString(|s|);
  }

  function EncodeOptStr(o: Option<string>): string {
    match o
    case None => "-"
    case Some(s) => "+" + EncodeStr(s)
  }

  function DecodeOptStr(t: string): Option<(Option<string>, string)> {
    if t != [] && t[0] == '-' then Some((None, t[1..]))
    else if t != [] && t[0] == '+' then
      match DecodeStr(t[1..])
      case None => None
      case Some((s, rest)) => Some((Some(s), rest))
    else None
  }

  lemma DecodeEncodeOptStr(o: Option<string>, rest: string)
    ensures DecodeOptStr(EncodeOptStr(o) + rest) == Some((o, rest))
  {
    var t := EncodeOptStr(o) + rest;
    if o.Some? {
      var e := EncodeStr(o.value) + rest;
      assert t == ['+'] + e;
      assert t[0] == '+' && t[1..] == e;
      DecodeEncodeStr(o.value, rest);
    } else {
      assert t == ['-'] + rest;
      assert t[0] == '-' && t[1..] == rest;
    }
  }

  function EncodeOptInt(o: Option<int>): string {
    match o
    case None => "-"
    case Some(n) => "+" + EncodeStr(IntToString(n))
  }

  function DecodeOptInt(t: string): Option<(Option<int>, string)> {
    match DecodeOptStr(t)
    case None => None
    case Some((None, rest)) => Some((None, rest))
    case Some((Some(s), rest)) =>
      match ParseInt(s)
      case None => None
      case Some(n) => Some((Some(n), rest))
  }

  lemma DecodeEncodeOptInt(o: Option<int>, rest: string)
    ensures DecodeOptInt(EncodeOptInt(o) + rest) == Some((o, rest))
  {
    if o.Some? {
      assert EncodeOptInt(o) == EncodeOptStr(Some(IntToString(o.value)));
      DecodeEncodeOptStr(Some(IntToString(o.value)), rest);
      IntToStringRoundTrip(o.value);
    } else {
      DecodeEncodeOptStr(None, rest);
    }
  }

  /** Stands in for `btoa(JSON.stringify(payload))`. */
  function EncodePayload(p: TokenPayload): string {
    EncodeOptStr(p.userId) + EncodeOptStr(p.username) + EncodeOptStr(p.role) + EncodeOptInt(p.exp)
  }

  /** Stands in for `JSON.parse(atob(encoded))`: `None` is the exception either may throw. */
  function DecodePayload(t: string): Option<TokenPayload> {
    match DecodeOptStr(t)
    case None => None
    case Some((userId, rest)) => DecodeAfterUserId(rest, userId)
  }

  function DecodeAfterUserId(t: string, userId: Option<string>): Option<TokenPayload> {
    match DecodeOptStr(t)
    case None => None
    case Some((username, rest)) => DecodeAfterUsername(rest, userId, username)
  }

  function DecodeAfterUsername(t: string, userId: Option<string>, username: Option<string>): Option<TokenPayload> {
    match DecodeOptStr(t)
    case None => None
    case Some((role, rest)) => DecodeExp(rest, userId, username, role)
  }

  function DecodeExp(t: string, userId: Option<string>, username: Option<string>, role: Option<string>): Option<TokenPayload> {
    match DecodeOptInt(t)
    case None => None
    case Some((exp, rest)) => if rest == "" then Some(TokenPayload(userId, username, role, exp)) else None
  }

  lemma DecodeExpOfEncoded(p: TokenPayload)
    ensures DecodeExp(EncodeOptInt(p.exp), p.userId, p.username, p.role) == Some(p)
  {
    assert EncodeOptInt(p.exp) == EncodeOptInt(p.exp) + "";
    DecodeEncodeOptInt(p.exp, "");
  }

  lemma DecodeAfterUsernameOfEncoded(p: TokenPayload)
    ensures DecodeAfterUsername(EncodeOptStr(p.role) + EncodeOptInt(p.exp), p.userId, p.username) == Some(p)
  {
    DecodeEncodeOptStr(p.role, EncodeOptInt(p.exp));
    DecodeExpOfEncoded(p);
  }

  lemma DecodeAfterUserIdOfEncoded(p: TokenPayload)
    ensures DecodeAfterUserId(EncodeOptStr(p.username) + (EncodeOptStr(p.role) + EncodeOptInt(p.exp)), p.userId) == Some(p)
  {
    DecodeEncodeOptStr(p.username, EncodeOptStr(p.role) + EncodeOptInt(p.exp));
    DecodeAfterUsernameOfEncoded(p);
  }

  /** Decoding inverts encoding. */
  lemma DecodeEncodePayload(p: TokenPayload)
    ensures DecodePayload(EncodePayload(p)) == Some(p)
  {
    var a, b, c, d := EncodeOptStr(p.userId), EncodeOptStr(p.username), EncodeOptStr(p.role), EncodeOptInt(p.exp);
    assert EncodePayload(p) == a + (b + (c + d));
    DecodeEncodeOptStr(p.userId, b + (c + d));
    DecodeAfterUserIdOfEncoded(p);
  }

  /** Different payloads never share an encoding. */
  lemma EncodePayloadInjective(p: TokenPayload, q: TokenPayload)
    requires EncodePayload(p) == EncodePayload(q)
    ensures p == q
  {
    DecodeEncodePayload(p);
    DecodeEncodePayload(q);
  }

  // ---- the token operations ----

  predicate StartsWith(s: string, prefix: string) {
    |prefix| <= |s| && s[..|prefix|] == prefix
  }

  /** The payload `generateToken` encodes: the claims and an expiry 7 days after `now`. */
  function PayloadOf(claims: TokenClaims, now: int): TokenPayload {
    TokenPayload(Some(claims.userId), Some(claims.username), claims.role, Some(now + TokenLifetime))
  }

  /** Text `btoa` accepts: every character at most U+00FF. */
  predicate Latin1(s: string) {
    forall i :: 0 <= i < |s| ==> s[i] as int <= 0xFF
  }

  /** The JSON text around the claims is ASCII, so whether `btoa` throws is
      decided by the claims' own strings. */
  predicate Encodable(claims: TokenClaims) {
    Latin1(claims.userId) && Latin1(claims.username) && (claims.role.Some? ==> Latin1(claims.role.value))
  }

  /** `generateToken(payload)` at time `now` (`Date.now()`); `None` when `btoa`
      throws on a character outside Latin-1. */
  function GenerateToken(claims: TokenClaims, now: int): (token: Option<string>)
    ensures token.Some? <==> Encodable(claims)
    ensures token.Some? ==> StartsWith(token.value, TokenPrefix)
  {
    if Encodable(claims) then Some(TokenPrefix + EncodePayload(PayloadOf(claims, now))) else None
  }

  /** The lazy expiry check: a truthy `exp` that is already past. */
  predicate Expired(p: TokenPayload, now: int) {
    p.exp.Some? && p.exp.value != 0 && p.exp.value < now
  }

  /** `verifyToken(token)` at time `now`: the decoded payload, or `None`. */
  function VerifyToken(token: string, now: int): (r: Option<TokenPayload>)
    ensures !StartsWith(token, TokenPrefix) ==> r == None
    ensures r.Some? ==> !Expired(r.value, now)
  {
    if !StartsWith(token, TokenPrefix) then None
    else
      match DecodePayload(token[|TokenPrefix|..])
      case None => None
      case Some(p) => if Expired(p, now) then None else Some(p)
  }

  /** Round trip: verified no later than its expiry, a generated token gives back
      the claims and the expiry; the expiry instant itself is still accepted. */
  lemma VerifyGeneratedToken(claims: TokenClaims, issuedAt: int, now: int)
    requires now <= issuedAt + TokenLifetime
    ensures var token := GenerateToken(claims, issuedAt);
      token.Some? ==> VerifyToken(token.value, now) == Some(PayloadOf(claims, issuedAt))
  {
    var token := GenerateToken(claims, issuedAt);
    if token.Some? {
      assert token.value[|TokenPrefix|..] == EncodePayload(PayloadOf(claims, issuedAt));
      DecodeEncodePayload(PayloadOf(claims, issuedAt));
    }
  }

  /** After its expiry a generated token is refused (unless the expiry is the falsy 0). */
  lemma GeneratedTokenExpires(claims: TokenClaims, issuedAt: int, now: int)
    requires now > issuedAt + TokenLifetime && issuedAt + TokenLifetime != 0
    ensures var token := GenerateToken(claims, issuedAt);
      token.Some? ==> VerifyToken(token.value, now) == None
  {
    var token := GenerateToken(claims, issuedAt);
    if token.Some? {
      assert token.value[|TokenPrefix|..] == EncodePayload(PayloadOf(claims, issuedAt));
      DecodeEncodePayload(PayloadOf(claims, issuedAt));
    }
  }

  /** A decodable payload without `exp`, or with `exp` 0, is accepted at every time. */
  lemma NoExpiryNeverExpires(token: string, p: TokenPayload, now: int)
    requires StartsWith(token, TokenPrefix) && DecodePayload(token[|TokenPrefix|..]) == Some(p)
    requires p.exp == None || p.exp == Some(0)
    ensures VerifyToken(token, now) == Some(p)
  {
  }

  /** Acceptance only ever goes from true to false as time passes. */
  lemma VerifyMonotoneInTime(token: string, earlier: int, later: int)
    requires earlier <= later && VerifyToken(token, later).Some?
    ensures VerifyToken(token, earlier) == VerifyToken(token, later)
  {
  }

  /** A string with the prefix whose rest does not decode is refused, not an error. */
  lemma UndecodablePayloadRefused(token: string, now: int)
    requires StartsWith(token, TokenPrefix) && DecodePayload(token[|TokenPrefix|..]).None?
    ensures VerifyToken(token, now) == None
  {
  }

  /** `isAuthenticated()`; `stored` is the `adminAuthToken` entry of local storage. */
  function IsAuthenticated(stored: Option<string>, now: int): (r: bool)
    ensures r <==> stored.Some? && VerifyToken(stored.value, now).Some?
  {
    if !Truthy(stored) then false else VerifyToken(stored.value, now).Some?
  }

  /** `getCurrentUser()`. */
  function GetCurrentUser(stored: Option<string>, now: int): (r: Option<TokenPayload>)
    ensures r == if stored.Some? then VerifyToken(stored.value, now) else None
    ensures r.Some? <==> IsAuthenticated(stored, now)
  {
    if !Truthy(stored) then None else VerifyToken(stored.value, now)
  }
}

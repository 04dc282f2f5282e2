/** `create_jwt` and `verify_jwt`: the compact serialisation of section 7.1 of
    RFC 7515, with HMAC as an uninterpreted function of key and data. */
module Jwt {
  import opened ByteStrings
  import opened Search
  import opened Decimal
  import opened Base64Url
  import opened Base64Codec
  import opened JwtClaims
  import opened JwtRoundTrip

  type Hmac = (Bytes, Bytes) -> Bytes

  datatype Claims = Claims(userId: int, username: Bytes, exp: int, iat: int)

  /** What `verify_jwt` comes to. It returns true on `Accepted` alone; on
      `Refused` the caller's variables keep their values, on `Expired` they are
      overwritten all the same, and `Undefined` is a signed overflow. */
  datatype Verdict = Refused | Expired(claims: Claims) | Accepted(claims: Claims) | Undefined

  const HEADER: Bytes := "{\"alg\":\"HS256\",\"typ\":\"JWT\"}"
  const DOT: Octet := '.'

  function SigningInput(header: Bytes, payload: Bytes): Bytes {
    header + [DOT] + payload
  }

  function Compact(header: Bytes, payload: Bytes, sig: Bytes): Bytes {
    SigningInput(header, payload) + [DOT] + sig
  }

  function Signature(hmac: Hmac, secret: Bytes, header: Bytes, payload: Bytes): Bytes {
    Encoded(hmac(secret, SigningInput(header, payload)))
  }

  function CreateJwt(hmac: Hmac, userId: int, username: Bytes, secret: Bytes, now: int): Bytes {
    var header, payload := Encoded(HEADER), Encoded(Payload(userId, username, now));
    Compact(header, payload, Signature(hmac, secret, header, payload))
  }

  /** The texts before the first dot, between it and the second, and after. */
  function Split(token: Bytes): Option<(Bytes, Bytes, Bytes)> {
    match Find(token, [DOT], 0)
    case None => None
    case Some(d1) =>
      match Find(token, [DOT], d1 + 1)
      case None => None
      case Some(d2) => Some((token[..d1], token[d1 + 1..d2], token[d2 + 1..]))
  }

  function Judge(json: Bytes, now: int): Verdict {
    match (IntClaim(json, USER_ID), IntClaim(json, EXP), IntClaim(json, IAT))
    case (Value(userId), Value(exp), Value(iat)) =>
      var claims := Claims(userId, StrClaim(json, USERNAME), exp, iat);
      if now > exp then Expired(claims) else Accepted(claims)
    case _ => Verdict.Undefined
  }

  function Verify(hmac: Hmac, token: Bytes, secret: Bytes, now: int): Verdict {
    match Split(token)
    case None => Refused
    case Some((header, payload, sig)) =>
      if sig != Signature(hmac, secret, header, payload) then Refused else Judge(Decoded(payload), now)
  }

  method VerifyJwt(hmac: Hmac, token: Bytes, secret: Bytes, now: int) returns (verdict: Verdict)
    ensures verdict == Verify(hmac, token, secret, now)
    ensures !verdict.Refused? <==>
            exists header: Bytes, payload: Bytes ::
              DotFree(header) && DotFree(payload)
              && token == header + [DOT] + payload + [DOT] + Encoded(hmac(secret, header + [DOT] + payload))
  {
    hide Encoded, Decoded, IntClaim, StrClaim, Find;
    AcceptanceExact(hmac, token, secret, now);
    var pos1 := Find(token, [DOT], 0);
    if pos1.None? {
      return Refused;
    }
    var pos2 := Find(token, [DOT], pos1.value + 1);
    if pos2.None? {
      return Refused;
    }
    var header, payload, sig := token[..pos1.value], token[pos1.value + 1..pos2.value], token[pos2.value + 1..];
    var expected := Encode(hmac(secret, header + [DOT] + payload));
    if sig != expected {
      return Refused;
    }
    var json := Decode(payload);
    var userId := FindInt(json, USER_ID);
    var username := FindStr(json, USERNAME);
    var exp := FindInt(json, EXP);
    var iat := FindInt(json, IAT);
    if userId.Undefined? || exp.Undefined? || iat.Undefined? {
      return Verdict.Undefined;
    }
    var claims := Claims(userId.n, username, exp.n, iat.n);
    verdict := if now > exp.n then Expired(claims) else Accepted(claims);
  }

  // ---------- Acceptance is exact ----------

  predicate DotFree(s: Bytes) {
    Free(s, DOT)
  }

  lemma FindFirst(s: Bytes, c: Octet, from: nat, k: nat)
    requires from <= k < |s| && s[k] == c
    requires forall j :: from <= j < k ==> s[j] != c
    ensures Find(s, [c], from) == Some(k)
  {
    hide Find;
    assert OccursAt(s, [c], k);
    forall j | from <= j < k ensures !OccursAt(s, [c], j) { assert s[j..j + 1] == [s[j]]; }
  }

  lemma SplitOfCompact(header: Bytes, payload: Bytes, sig: Bytes)
    requires DotFree(header) && DotFree(payload)
    ensures Split(Compact(header, payload, sig)) == Some((header, payload, sig))
  {
    hide Find;
    var token := Compact(header, payload, sig);
    var d1, d2 := |header|, |header| + 1 + |payload|;
    assert token[..d1] == header && token[d1 + 1..d2] == payload && token[d2 + 1..] == sig;
    assert token[d1] == DOT && token[d2] == DOT;
    forall j | 0 <= j < d1 ensures token[j] != DOT { assert token[j] == header[j]; }
    forall j | d1 + 1 <= j < d2 ensures token[j] != DOT { assert token[j] == payload[j - d1 - 1]; }
    FindFirst(token, DOT, 0, d1);
    FindFirst(token, DOT, d1 + 1, d2);
  }

  lemma CompactOfSplit(token: Bytes)
    requires Split(token).Some?
    ensures var (header, payload, sig) := Split(token).value;
            DotFree(header) && DotFree(payload) && token == Compact(header, payload, sig)
  {
    hide Find;
    var d1 := Find(token, [DOT], 0).value;
    var d2 := Find(token, [DOT], d1 + 1).value;
    forall j | 0 <= j < d2 && j != d1 ensures token[j] != DOT {
      assert token[j] == DOT ==> OccursAt(token, [DOT], j) by { assert token[j..j + 1] == [token[j]]; }
    }
    assert token[d1] == DOT && token[d2] == DOT by {
      assert OccursAt(token, [DOT], d1) && OccursAt(token, [DOT], d2);
      assert token[d1..d1 + 1] == [token[d1]] && token[d2..d2 + 1] == [token[d2]];
    }
    assert token == token[..d1] + [DOT] + token[d1 + 1..d2] + [DOT] + token[d2 + 1..];
  }

  /** A token passes the signature check exactly when it is two dot-free parts,
      and the base64url text of the HMAC of both of them. */
  lemma AcceptanceExact(hmac: Hmac, token: Bytes, secret: Bytes, now: int)
    ensures DOT == '.'
    ensures !Verify(hmac, token, secret, now).Refused? <==>
            exists header: Bytes, payload: Bytes ::
              DotFree(header) && DotFree(payload)
              && token == header + [DOT] + payload + [DOT] + Encoded(hmac(secret, header + [DOT] + payload))
  {
    hide Judge, Split, Encoded;
    if !Verify(hmac, token, secret, now).Refused? {
      CompactOfSplit(token);
      var (header, payload, sig) := Split(token).value;
      assert token == header + [DOT] + payload + [DOT] + Encoded(hmac(secret, header + [DOT] + payload));
    }
    forall header: Bytes, payload: Bytes | DotFree(header) && DotFree(payload)
                             && token == header + [DOT] + payload + [DOT] + Encoded(hmac(secret, header + [DOT] + payload))
      ensures !Verify(hmac, token, secret, now).Refused?
    {
      SplitOfCompact(header, payload, Signature(hmac, secret, header, payload));
      JudgeNeverRefuses(Decoded(payload), now);
    }
  }

  /** One third part passes with two payloads only if the two HMACs coincide. */
  lemma PayloadIsSigned(hmac: Hmac, secret: Bytes, now: int, header: Bytes, p: Bytes, q: Bytes, sig: Bytes)
    requires DotFree(header) && DotFree(p) && DotFree(q)
    ensures !Verify(hmac, header + [DOT] + p + [DOT] + sig, secret, now).Refused?
            && !Verify(hmac, header + [DOT] + q + [DOT] + sig, secret, now).Refused?
            ==> hmac(secret, header + [DOT] + p) == hmac(secret, header + [DOT] + q)
  {
    hide Judge, Split, Encoded, Decoded;
    SplitOfCompact(header, p, sig);
    SplitOfCompact(header, q, sig);
    DecodeEncode(hmac(secret, header + [DOT] + p));
    DecodeEncode(hmac(secret, header + [DOT] + q));
  }

  lemma JudgeNeverRefuses(json: Bytes, now: int)
    ensures !Judge(json, now).Refused?
  {
  }

  /** So it has exactly two dots. */
  lemma AcceptedHasTwoDots(hmac: Hmac, token: Bytes, secret: Bytes, now: int)
    requires !Verify(hmac, token, secret, now).Refused?
    ensures multiset(token)[DOT] == 2
  {
    hide Signature, Judge, Split, Encoded;
    CompactOfSplit(token);
    var (header, payload, sig) := Split(token).value;
    assert DotFree(sig) by { SignatureDotFree(hmac, secret, header, payload); }
    NoDots(header); NoDots(payload); NoDots(sig);
    assert multiset(token) == multiset(header) + multiset([DOT]) + multiset(payload) + multiset([DOT]) + multiset(sig);
  }

  lemma NoDots(s: Bytes)
    requires DotFree(s)
    ensures multiset(s)[DOT] == 0
  {
  }

  lemma SignatureDotFree(hmac: Hmac, secret: Bytes, header: Bytes, payload: Bytes)
    ensures DotFree(Signature(hmac, secret, header, payload))
  {
    hide Encoded;
  }

  /** And each header and payload has at most one third part that passes. */
  lemma ThirdPartUnique(hmac: Hmac, secret: Bytes, now: int, header: Bytes, payload: Bytes, sig1: Bytes, sig2: Bytes)
    requires DotFree(header) && DotFree(payload)
    ensures !Verify(hmac, Compact(header, payload, sig1), secret, now).Refused?
            && !Verify(hmac, Compact(header, payload, sig2), secret, now).Refused?
            ==> sig1 == sig2
  {
    hide Signature, Judge, Compact, Split;
    SplitOfCompact(header, payload, sig1);
    SplitOfCompact(header, payload, sig2);
  }

  // ---------- The round trip ----------

  /** The text of a created token: the header's and the payload's base64url text,
      and that of their HMAC. */
  lemma CreatedText(hmac: Hmac, userId: int, username: Bytes, secret: Bytes, now: int)
    ensures var token := CreateJwt(hmac, userId, username, secret, now);
            var h := Encoded(HS256_PART + JWT_PART);
            var p := Encoded(Payload(userId, username, now));
            token == h + [DOT] + p + [DOT] + Encoded(hmac(secret, h + [DOT] + p))
  {
    hide Encoded, Payload;
    HeaderText();
  }

  const HS256_PART: Bytes := "{\"alg\":\"HS256\""
  const JWT_PART: Bytes := ",\"typ\":\"JWT\"}"

  lemma HeaderText()
    ensures HEADER == HS256_PART + JWT_PART
  {
  }

  /** A created token is judged by the payload that was printed into it. */
  lemma CreatedIsJudged(hmac: Hmac, userId: int, username: Bytes, secret: Bytes, issued: int, now: int)
    ensures Verify(hmac, CreateJwt(hmac, userId, username, secret, issued), secret, now)
            == Judge(Payload(userId, username, issued), now)
  {
    hide Signature, Judge, Compact, Split, Payload, Encoded, Decoded;
    var json := Payload(userId, username, issued);
    var header, payload := Encoded(HEADER), Encoded(json);
    SplitOfCompact(header, payload, Signature(hmac, secret, header, payload));
    DecodeEncode(json);
  }

  /** The exact verdict on a created token, for every username and user id. */
  lemma CreatedVerdict(hmac: Hmac, userId: int, username: Bytes, secret: Bytes, issued: int, now: int)
    requires FitsInt64(userId) && Printable(issued)
    ensures Verify(hmac, CreateJwt(hmac, userId, username, secret, issued), secret, now)
            == match (ReadOf(userId), TimeRead(username, EXP, issued), TimeRead(username, IAT, issued))
               case (Value(u), Value(exp), Value(iat)) =>
                 var claims := Claims(u, StrClaim(Payload(userId, username, issued), USERNAME), exp, iat);
                 if now > exp then Expired(claims) else Accepted(claims)
               case _ => Verdict.Undefined
  {
    hide Verify, CreateJwt, Payload, IntClaim, StrClaim, TimeRead;
    CreatedIsJudged(hmac, userId, username, secret, issued, now);
    UserIdReadBack(userId, username, issued);
    TimeReadBack(userId, username, issued, IAT);
    TimeReadBack(userId, username, issued, EXP);
  }

  /** The claims of a created token, for every username that hides neither time. */
  lemma CreatedClaims(hmac: Hmac, userId: int, username: Bytes, secret: Bytes, issued: int, now: int)
    requires FitsInt64(userId) && userId != INT64_MIN && Printable(issued) && KeepsTimes(username)
    ensures var verdict := Verify(hmac, CreateJwt(hmac, userId, username, secret, issued), secret, now);
            var read := StrClaim(Payload(userId, username, issued), USERNAME);
            var claims := Claims(userId, read, issued + DAY, issued);
            verdict == if now > issued + DAY then Expired(claims) else Accepted(claims)
  {
    hide Verify, CreateJwt, Payload, StrClaim, TimeRead, KeepsExp, KeepsIat;
    CreatedVerdict(hmac, userId, username, secret, issued, now);
    TimesTracked(username, issued);
  }

  /** The round trip, for every user id, every username and every second: a
      token is accepted with the claims it was created from exactly when the
      username is safe and not `exp`, the user id is not the least integer, and
      the day has not passed. */
  lemma TokenRoundTrip(hmac: Hmac, userId: int, username: Bytes, secret: Bytes, issued: int, now: int)
    requires FitsInt64(userId) && Printable(issued)
    ensures Verify(hmac, CreateJwt(hmac, userId, username, secret, issued), secret, now)
              == Accepted(Claims(userId, username, issued + DAY, issued))
            <==> Safe(username) && username != EXP && userId != INT64_MIN && now <= issued + DAY
  {
    hide Verify, CreateJwt, Payload, StrClaim, Safe, TimeRead, KeepsExp, KeepsIat;
    CreatedVerdict(hmac, userId, username, secret, issued, now);
    UsernameReadBack(userId, username, issued);
    if Safe(username) {
      SafeHasNoQuote(username);
      QuoteFreeNames(username);
      TimesTracked(username, issued);
      ExpNameReads(issued);
    }
  }

  lemma SafeHasNoQuote(name: Bytes)
    requires Safe(name)
    ensures Free(name, QUOTE)
  {
    forall k | 0 <= k < |name| ensures name[k] != QUOTE { assert SafeAt(name, k); }
  }

  /** The one name without a quote that hides the expiry: its token expires at
      once. */
  lemma ExpNameCounterexample(hmac: Hmac, userId: int, secret: Bytes, issued: int, now: int)
    requires FitsInt64(userId) && userId != INT64_MIN && Printable(issued)
    ensures var claims := Claims(userId, EXP, issued, issued);
            Verify(hmac, CreateJwt(hmac, userId, EXP, secret, issued), secret, now)
            == if now > issued then Expired(claims) else Accepted(claims)
  {
    hide Verify, CreateJwt, Payload, StrClaim, Safe, TimeRead, KeepsExp, KeepsIat;
    KeysAreNames();
    ExpIsSafe();
    CreatedVerdict(hmac, userId, EXP, secret, issued, now);
    UsernameReadBack(userId, EXP, issued);
    QuoteFreeNames(EXP);
    TimesTracked(EXP, issued);
    ExpNameReads(issued);
  }

  lemma ExpIsSafe()
    ensures Safe(EXP)
  {
    assert forall k :: 0 <= k < 3 ==> SafeAt(EXP, k);
  }

  /** A name with the quoted key and a number in it: whenever its token was
      created, it is accepted up to that second, with its true issue time. */
  lemma NameWithExpCounterexample(hmac: Hmac, userId: int, secret: Bytes, n: nat, issued: int, now: int)
    requires FitsInt64(userId) && userId != INT64_MIN && Printable(issued) && n <= INT64_MAX
    ensures var verdict := Verify(hmac, CreateJwt(hmac, userId, NameWithExp(n), secret, issued), secret, now);
            && (verdict.Accepted? <==> now <= n)
            && (verdict.Accepted? ==> verdict.claims.userId == userId && verdict.claims.exp == n && verdict.claims.iat == issued)
  {
    hide Verify, CreateJwt, Payload, StrClaim, TimeRead, KeepsExp, KeepsIat, NameWithExp;
    CreatedVerdict(hmac, userId, NameWithExp(n), secret, issued, now);
    NameWithExpReads(n, issued);
    TimesTracked(NameWithExp(n), issued);
  }
}

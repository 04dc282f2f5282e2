/** Token revocation as a timed state machine. Each user has one revocation
    record, `(second, deadline)`, which every logout and every account deletion
    overwrites. The main theorem says that overwriting loses nothing: the
    service judges every token as if it kept the whole log of revocations. */
module Revocation {
  import opened ByteStrings
  import opened Search
  import opened Decimal
  import opened JwtClaims
  import opened JwtRoundTrip
  import opened Jwt
  import R = RateLimit

  /** A Redis key with an expiry: its value, and the second it is gone. */
  datatype Record = Record(at: int, deadline: int)

  type Records = map<int, Record>

  predicate Live(records: Records, userId: int, now: int) {
    userId in records && now < records[userId].deadline
  }

  /** `is_token_revoked` */
  predicate IsRevoked(records: Records, userId: int, iat: int, now: int) {
    Live(records, userId, now) && iat <= records[userId].at
  }

  /** `SET key now EX ttl`, which Redis refuses when the ttl is not positive. */
  function Revoked(records: Records, userId: int, ttl: int, now: int): Option<Records> {
    if ttl <= 0 then None else Some(records[userId := Record(now, now + ttl)])
  }

  /** `ValidateToken` */
  function Validate(hmac: Hmac, secret: Bytes, records: Records, token: Bytes, now: int): Option<Claims> {
    match Verify(hmac, token, secret, now)
    case Accepted(c) => if IsRevoked(records, c.userId, c.iat, now) then None else Some(c)
    case _ => None
  }

  /** A valid token is answered with the very claims its verification read. */
  lemma ValidAnswer(hmac: Hmac, secret: Bytes, records: Records, token: Bytes, now: int, c: Claims)
    ensures Validate(hmac, secret, records, token, now) == Some(c) <==>
            && Verify(hmac, token, secret, now) == Accepted(c)
            && !(c.userId in records && now < records[c.userId].deadline && c.iat <= records[c.userId].at)
  {
    hide Verify;
  }

  /** The gateway's remaining lifetime, at least one second. */
  function LogoutTtl(exp: int, now: int): int {
    if exp - now < 1 then 1 else exp - now
  }

  /** A logout as one step: validate, then revoke for the rest of the token's
      life. */
  function LoggedOut(hmac: Hmac, secret: Bytes, records: Records, token: Bytes, now: int): Option<Records> {
    match Validate(hmac, secret, records, token, now)
    case None => None
    case Some(c) => Revoked(records, c.userId, LogoutTtl(c.exp, now), now)
  }

  // ---------- The services ----------

  const LOGIN_PREFIX: Bytes := "login:"

  function LoginKey(username: Bytes): Bytes {
    LOGIN_PREFIX + username
  }

  lemma LoginKeyFaithful(a: Bytes, b: Bytes)
    ensures LOGIN_PREFIX == "login:" && LoginKey(a) == LOGIN_PREFIX + a
    ensures LoginKey(a) == LoginKey(b) <==> a == b
  {
    assert a == LoginKey(a)[|LOGIN_PREFIX|..] && b == LoginKey(b)[|LOGIN_PREFIX|..];
  }

  lemma LoginKeysDiffer()
    ensures forall a: Bytes, b: Bytes :: LoginKey(a) == LoginKey(b) ==> a == b
  {
    hide LoginKey;
    forall a: Bytes, b: Bytes | LoginKey(a) == LoginKey(b) ensures a == b { LoginKeyFaithful(a, b); }
  }

  /** Whatever tokens are asked for under other names, those asked for under a name are
      created by the fixed windows of that name's own calls: ten a minute. */
  lemma NamesAreSeparate(asked: seq<R.Attempt<Bytes>>, name: Bytes)
    requires R.InTime(asked) && R.Bounded(R.OwnTimes(asked, name), 60)
    ensures R.OwnVerdicts(asked, R.Verdicts(map[], R.CallsOf(asked, LoginKey, 10, 60)), name)
            == R.FixedWindows(R.OwnTimes(asked, name), 10, 60)
  {
    hide LoginKey, R.Bounded, R.Verdicts, R.FixedWindows, R.OwnTimes, R.OwnVerdicts, R.CallsOf;
    LoginKeysDiffer();
    R.OwnersAreSeparate(asked, LoginKey, 10, 60, name);
  }

  class AuthServer {
    const hmac: Hmac
    const secret: Bytes
    /** Whether the connection to Redis was made. */
    const redis: bool
    const limiter: R.RateLimiter
    var records: Records

    constructor (hmac: Hmac, secret: Bytes, redis: bool)
      ensures this.hmac == hmac && this.secret == secret && this.redis == redis && records == map[]
      ensures fresh(limiter) && limiter.counters == map[]
    {
      this.hmac, this.secret, this.redis, records := hmac, secret, redis, map[];
      limiter := new R.RateLimiter();
    }

    /** At most ten tokens a minute for one name, unless Redis is missing. */
    method CreateToken(userId: int, username: Bytes, now: int) returns (r: Option<Bytes>)
      modifies limiter
      ensures redis ==>
                var (c, pass) := R.Checked(old(limiter.At(LoginKey(username))), 10, 60, now);
                && limiter.counters == old(limiter.counters)[LoginKey(username) := c]
                && r == if pass then Some(CreateJwt(hmac, userId, username, secret, now)) else None
      ensures !redis ==> limiter.counters == old(limiter.counters) && r == Some(CreateJwt(hmac, userId, username, secret, now))
    {
      if redis {
        var pass := limiter.Check(LoginKey(username), 10, 60, now);
        if !pass {
          return None;
        }
      }
      r := Some(CreateJwt(hmac, userId, username, secret, now));
    }

    method ValidateToken(token: Bytes, now: int) returns (r: Option<Claims>)
      ensures redis ==> r == Validate(hmac, secret, records, token, now)
      ensures forall c :: r == Some(c) <==>
                && Verify(hmac, token, secret, now) == Accepted(c)
                && !(redis && c.userId in records && now < records[c.userId].deadline && c.iat <= records[c.userId].at)
    {
      var verdict := VerifyJwt(hmac, token, secret, now);
      if !verdict.Accepted? {
        return None;
      }
      var c := verdict.claims;
      if redis && c.userId in records && now < records[c.userId].deadline {
        var revoked := c.iat <= records[c.userId].at;
        if revoked {
          return None;
        }
      }
      r := Some(c);
    }

    method RevokeToken(userId: int, ttl: int, now: int) returns (ok: bool)
      modifies this
      ensures var after := if redis then Revoked(old(records), userId, ttl, now) else None;
              ok == after.Some? && records == if ok then after.value else old(records)
      ensures ok <==> redis && ttl > 0
      ensures ok ==> records == old(records)[userId := Record(now, now + ttl)]
    {
      if !redis || ttl <= 0 {
        return false;
      }
      records := records[userId := Record(now, now + ttl)];
      ok := true;
    }
  }

  /** `handleLogout`, all its clock readings in one second. Without Redis it
      answers that the user is logged out and revokes nothing. */
  method HandleLogout(auth: AuthServer, token: Bytes, now: int) returns (ok: bool)
    modifies auth
    ensures auth.redis ==>
              var after := LoggedOut(auth.hmac, auth.secret, old(auth.records), token, now);
              ok == after.Some? && auth.records == if ok then after.value else old(auth.records)
    ensures !auth.redis ==> ok == Verify(auth.hmac, token, auth.secret, now).Accepted? && auth.records == old(auth.records)
    ensures !ok ==> auth.records == old(auth.records)
    ensures ok && auth.redis ==>
              var c := Verify(auth.hmac, token, auth.secret, now).claims;
              auth.records == old(auth.records)[c.userId := Record(now, if c.exp > now then c.exp else now + 1)]
    ensures auth.redis ==> forall s: State :: s.now == now && s.records == old(auth.records) ==>
              auth.records == Step(Key(auth.hmac, auth.secret), s, Logout(token)).records
  {
    hide Verify, IsRevoked;
    var who := auth.ValidateToken(token, now);
    if who.None? {
      return false;
    }
    var ttl := who.value.exp - now;
    if ttl < 1 {
      ttl := 1;
    }
    var _ := auth.RevokeToken(who.value.userId, ttl, now);
    ok := true;
  }

  /** `DeleteAccount`: `verified` is the id of a user whose password was right,
      `deleted` what the database answered. */
  method DeleteAccount(auth: AuthServer, verified: Option<int>, deleted: bool, now: int) returns (ok: bool)
    modifies auth
    ensures ok == (verified.Some? && deleted)
    ensures auth.records == if ok && auth.redis then Revoked(old(auth.records), verified.value, DAY, now).value
                            else old(auth.records)
    ensures ok && auth.redis ==> auth.records == old(auth.records)[verified.value := Record(now, now + 86400)]
    ensures ok && auth.redis ==> forall s: State :: s.now == now && s.records == old(auth.records) ==>
              auth.records == Step(Key(auth.hmac, auth.secret), s, Delete(verified.value)).records
  {
    if verified.None? || !deleted {
      return false;
    }
    var _ := auth.RevokeToken(verified.value, 86400, now);
    ok := true;
  }

  // ---------- Runs ----------

  /** The signing key, fixed for a run. */
  datatype Key = Key(hmac: Hmac, secret: Bytes)

  /** A token as it was created. */
  datatype Issue = Issue(userId: int, username: Bytes, at: int)

  datatype Revocation = Revocation(userId: int, at: int, until: int)

  /** The clock and the store, with two histories the code does not keep. */
  datatype State = State(now: int, records: Records, issued: set<Issue>, log: seq<Revocation>)

  datatype Event =
    | Tick
    | Create(userId: int, username: Bytes)
    | Logout(token: Bytes)
    | Delete(userId: int)

  const START := State(0, map[], {}, [])

  function Token(key: Key, i: Issue): Bytes {
    CreateJwt(key.hmac, i.userId, i.username, key.secret, i.at)
  }

  function Validated(key: Key, s: State, token: Bytes): Option<Claims> {
    Validate(key.hmac, key.secret, s.records, token, s.now)
  }

  function Revoke(s: State, userId: int, ttl: int): State {
    match Revoked(s.records, userId, ttl, s.now)
    case None => s
    case Some(records) => s.(records := records, log := s.log + [Revocation(userId, s.now, s.now + ttl)])
  }

  function Step(key: Key, s: State, e: Event): State {
    match e
    case Tick => s.(now := s.now + 1)
    case Create(userId, username) => s.(issued := s.issued + {Issue(userId, username, s.now)})
    case Logout(token) =>
      (match Validated(key, s, token)
       case None => s
       case Some(c) => Revoke(s, c.userId, LogoutTtl(c.exp, s.now)))
    case Delete(userId) => Revoke(s, userId, DAY)
  }

  function Run(key: Key, s: State, events: seq<Event>): State
    decreases |events|
  {
    if |events| == 0 then s else Run(key, Step(key, s, events[0]), events[1..])
  }

  /** Users whose tokens' claims read back as created (`Jwt.CreatedClaims`): the
      name hides neither time, and the id can be read. */
  predicate Trackable(userId: int, username: Bytes) {
    userId != INT64_MIN && KeepsTimes(username)
  }

  predicate Readable(i: Issue) {
    FitsInt64(i.userId) && Printable(i.at) && Trackable(i.userId, i.username)
  }

  /** What can happen: 64-bit ids, a printable clock, and no forged signature. */
  predicate Possible(key: Key, s: State, e: Event) {
    match e
    case Tick => Printable(s.now + 1)
    case Create(userId, username) => FitsInt64(userId) && Printable(s.now)
    case Logout(token) => !Verify(key.hmac, token, key.secret, s.now).Refused? ==> IsIssued(key, s, token)
    case Delete(userId) => true
  }

  predicate IsIssued(key: Key, s: State, token: Bytes) {
    exists i :: i in s.issued && token == Token(key, i)
  }

  predicate PossibleRun(key: Key, s: State, events: seq<Event>)
    decreases |events|
  {
    |events| == 0 || (Possible(key, s, events[0]) && PossibleRun(key, Step(key, s, events[0]), events[1..]))
  }

  /** Tokens of a user are created under trackable names only; the names of all
      other users are free. */
  predicate TrackableFor(events: seq<Event>, user: int) {
    forall k :: 0 <= k < |events| && events[k].Create? && events[k].userId == user ==>
      Trackable(user, events[k].username)
  }

  /** The runs of the theorems about a user. */
  predicate AllowedRun(key: Key, s: State, events: seq<Event>, user: int) {
    PossibleRun(key, s, events) && TrackableFor(events, user)
  }

  // ---------- What decides about a token ----------

  /** Whatever its name, a token is judged by what is read from it. */
  lemma ValidatedIs(key: Key, s: State, i: Issue)
    requires FitsInt64(i.userId) && Printable(i.at)
    ensures Validated(key, s, Token(key, i)).Some? <==>
            match (TimeRead(i.username, EXP, i.at), TimeRead(i.username, IAT, i.at))
            case (Value(exp), Value(iat)) =>
              i.userId != INT64_MIN && s.now <= exp && !IsRevoked(s.records, i.userId, iat, s.now)
            case _ => false
    ensures Validated(key, s, Token(key, i)).Some? ==>
              var c := Validated(key, s, Token(key, i)).value;
              c.userId == i.userId && Value(c.exp) == TimeRead(i.username, EXP, i.at)
  {
    hide Verify, CreateJwt, Payload, StrClaim, TimeRead, IsRevoked;
    CreatedVerdict(key.hmac, i.userId, i.username, key.secret, i.at, s.now);
  }

  // ---------- The invariant, user by user ----------

  /** The log holds a revocation of the user that covers the issue second and is
      not over. */
  predicate Blocked(log: seq<Revocation>, userId: int, iat: int, now: int) {
    exists r :: r in log && r.userId == userId && iat <= r.at && now < r.until
  }

  function LastOf(log: seq<Revocation>, userId: int): (r: Option<Revocation>)
    ensures r.Some? ==> r.value in log && r.value.userId == userId
  {
    if |log| == 0 then None
    else if log[|log| - 1].userId == userId then Some(log[|log| - 1])
    else LastOf(log[..|log| - 1], userId)
  }

  predicate IssuesOk(s: State, user: int) {
    forall i :: i in s.issued ==>
      FitsInt64(i.userId) && Printable(i.at) && i.at <= s.now && (i.userId == user ==> Trackable(user, i.username))
  }

  predicate LogOk(s: State, user: int) {
    forall r :: r in s.log && r.userId == user ==> r.at <= s.now && r.at < r.until <= r.at + DAY
  }

  /** A user's record is the user's last revocation. */
  predicate RecordIsLast(s: State, user: int) {
    match LastOf(s.log, user)
    case None => user !in s.records
    case Some(r) => user in s.records && s.records[user] == Record(r.at, r.until)
  }

  /** And none of the user's revocations reaches further. */
  predicate RecordReaches(s: State, user: int) {
    forall r :: r in s.log && r.userId == user ==>
      user in s.records && r.at <= s.records[user].at && r.until <= s.records[user].deadline
  }

  predicate Inv(s: State, user: int) {
    IssuesOk(s, user) && LogOk(s, user) && RecordIsLast(s, user) && RecordReaches(s, user)
  }

  /** The single record decides as the whole log would. */
  lemma RecordDecidesAsLog(s: State, user: int, iat: int)
    requires Inv(s, user)
    ensures IsRevoked(s.records, user, iat, s.now) <==> Blocked(s.log, user, iat, s.now)
  {
    if IsRevoked(s.records, user, iat, s.now) {
      var last := LastOf(s.log, user).value;
      assert last in s.log && iat <= last.at && s.now < last.until;
    }
  }

  /** A revocation of one user is the last one of that user and of no other. */
  lemma LastAfter(s: State, userId: int, ttl: int, user: int)
    requires ttl > 0
    ensures LastOf(Revoke(s, userId, ttl).log, user)
            == if user == userId then Some(Revocation(userId, s.now, s.now + ttl)) else LastOf(s.log, user)
  {
    var t := Revoke(s, userId, ttl);
    assert t.log[..|t.log| - 1] == s.log && t.log[|t.log| - 1] == Revocation(userId, s.now, s.now + ttl);
  }

  lemma RevokeLogs(s: State, userId: int, ttl: int, r: Revocation)
    requires ttl > 0
    ensures var t := Revoke(s, userId, ttl);
            && t.now == s.now && t.issued == s.issued && t.records == s.records[userId := Record(s.now, s.now + ttl)]
            && (r in t.log <==> r in s.log || r == Revocation(userId, s.now, s.now + ttl))
  {
  }

  /** A revocation that reaches at least as far as the user's earlier ones keeps
      the invariant. */
  lemma RevokeKeepsInv(s: State, user: int, ttl: int)
    requires Inv(s, user) && 0 < ttl <= DAY
    requires forall r :: r in s.log && r.userId == user ==> r.until <= s.now + ttl
    ensures Inv(Revoke(s, user, ttl), user)
  {
    var t := Revoke(s, user, ttl);
    LastAfter(s, user, ttl, user);
    RevokeLogs(s, user, ttl, Revocation(user, s.now, s.now + ttl));
    hide LastOf, Trackable, Revoke;
    forall r | r in t.log && r.userId == user
      ensures r.at <= t.now && r.at < r.until <= r.at + DAY && r.until <= s.now + ttl
    {
      RevokeLogs(s, user, ttl, r);
    }
  }

  /** A revocation of somebody else keeps it whatever its lifetime. */
  lemma OthersRevoke(s: State, userId: int, ttl: int, user: int)
    requires Inv(s, user) && userId != user && ttl > 0
    ensures Inv(Revoke(s, userId, ttl), user)
  {
    var t := Revoke(s, userId, ttl);
    LastAfter(s, userId, ttl, user);
    RevokeLogs(s, userId, ttl, Revocation(userId, s.now, s.now + ttl));
    hide LastOf, Trackable, Revoke;
    forall r | r in t.log && r.userId == user ensures r in s.log {
      RevokeLogs(s, userId, ttl, r);
    }
  }

  lemma IssuedClaims(key: Key, i: Issue, now: int)
    requires Readable(i)
    ensures var verdict := Verify(key.hmac, Token(key, i), key.secret, now);
            if now > i.at + DAY then verdict.Expired?
            else verdict.Accepted? && verdict.claims.userId == i.userId
                 && verdict.claims.iat == i.at && verdict.claims.exp == i.at + DAY
  {
    hide Verify, CreateJwt, Payload, StrClaim;
    CreatedClaims(key.hmac, i.userId, i.username, key.secret, i.at, now);
  }

  /** The heart of it: whoever can log out was issued after the last live
      revocation, so the new record outlasts the one it overwrites. */
  lemma LogoutReachesFurther(key: Key, s: State, i: Issue, r: Revocation)
    requires Inv(s, i.userId) && i in s.issued && r in s.log && r.userId == i.userId
    ensures Validated(key, s, Token(key, i)).Some? ==> r.until <= s.now + LogoutTtl(i.at + DAY, s.now)
  {
    hide Verify, CreateJwt, KeepsTimes;
    IssuedClaims(key, i, s.now);
    RecordDecidesAsLog(s, i.userId, i.at);
  }

  lemma LogoutKeepsInv(key: Key, s: State, i: Issue, user: int)
    requires Inv(s, user) && i in s.issued
    ensures Inv(Step(key, s, Logout(Token(key, i))), user)
  {
    hide Verify, CreateJwt, LastOf, KeepsTimes, RecordIsLast, RecordReaches, LogOk, Revoke, TimeRead;
    ValidatedIs(key, s, i);
    if Validated(key, s, Token(key, i)).Some? {
      var c := Validated(key, s, Token(key, i)).value;
      if i.userId != user {
        OthersRevoke(s, i.userId, LogoutTtl(c.exp, s.now), user);
      } else {
        IssuedClaims(key, i, s.now);
        forall r | r in s.log && r.userId == user ensures r.until <= s.now + LogoutTtl(i.at + DAY, s.now) {
          LogoutReachesFurther(key, s, i, r);
        }
        RevokeKeepsInv(s, user, LogoutTtl(i.at + DAY, s.now));
      }
    }
  }

  /** Every step keeps a user's record the last and furthest-reaching entry of the
      log, if that user's tokens are created under trackable names. */
  lemma StepKeepsInv(key: Key, s: State, e: Event, user: int)
    requires Inv(s, user) && Possible(key, s, e)
    requires e.Create? && e.userId == user ==> Trackable(user, e.username)
    ensures Inv(Step(key, s, e), user)
  {
    hide Verify, CreateJwt, LastOf, Trackable, Revoke;
    match e
    case Tick =>
    case Create(userId, username) =>
    case Logout(token) =>
      if Validated(key, s, token).Some? {
        var i :| i in s.issued && token == Token(key, i);
        LogoutKeepsInv(key, s, i, user);
      }
    case Delete(userId) =>
      if userId == user { LogReaches(s, user); RevokeKeepsInv(s, user, DAY); } else { OthersRevoke(s, userId, DAY, user); }
  }

  lemma LogReaches(s: State, user: int)
    requires Inv(s, user)
    ensures forall r :: r in s.log && r.userId == user ==> r.until <= s.now + DAY
  {
  }

  /** Nothing is taken out of the histories. */
  predicate Grows(s: State, t: State) {
    s.log <= t.log && s.issued <= t.issued && s.now <= t.now
  }

  lemma StepGrows(key: Key, s: State, e: Event)
    ensures Grows(s, Step(key, s, e))
  {
    hide Validate;
  }

  lemma {:induction false} RunGrows(key: Key, s: State, events: seq<Event>)
    ensures Grows(s, Run(key, s, events))
    decreases |events|
  {
    hide Step;
    if |events| > 0 {
      StepGrows(key, s, events[0]);
      RunGrows(key, Step(key, s, events[0]), events[1..]);
    }
  }

  lemma {:induction false} RunKeepsInv(key: Key, s: State, events: seq<Event>, user: int)
    requires Inv(s, user) && AllowedRun(key, s, events, user)
    ensures Inv(Run(key, s, events), user)
    decreases |events|
  {
    hide Step, Possible, Inv, Trackable;
    if |events| > 0 {
      StepKeepsInv(key, s, events[0], user);
      RunKeepsInv(key, Step(key, s, events[0]), events[1..], user);
    }
  }

  lemma StartOk(user: int)
    ensures Inv(START, user)
  {
  }

  // ---------- The theorems ----------

  /** Overwriting loses nothing: after any run, whatever the other users' names,
      every token of a user with trackable names is accepted exactly when its day
      has not passed and no revocation in the log covers it. */
  lemma OverwritingRefinesLog(key: Key, events: seq<Event>, i: Issue)
    requires AllowedRun(key, START, events, i.userId) && i in Run(key, START, events).issued
    ensures var s := Run(key, START, events);
            Validated(key, s, Token(key, i)).Some?
            <==> s.now <= i.at + DAY && !Blocked(s.log, i.userId, i.at, s.now)
  {
    hide Verify, CreateJwt, KeepsTimes, Run, PossibleRun;
    StartOk(i.userId);
    RunKeepsInv(key, START, events, i.userId);
    var s := Run(key, START, events);
    IssuedClaims(key, i, s.now);
    RecordDecidesAsLog(s, i.userId, i.at);
  }

  /** What a validated token answers after any run: its id, its times, and its name
      exactly when the name is safe. */
  lemma AnswerAsCreated(key: Key, events: seq<Event>, i: Issue)
    requires AllowedRun(key, START, events, i.userId) && i in Run(key, START, events).issued
    ensures var s := Run(key, START, events);
            match Validated(key, s, Token(key, i))
            case None => s.now > i.at + DAY || Blocked(s.log, i.userId, i.at, s.now)
            case Some(c) => c.userId == i.userId && c.iat == i.at && c.exp == i.at + DAY
                            && (c == Claims(i.userId, i.username, i.at + DAY, i.at) <==> Safe(i.username))
  {
    hide Verify, CreateJwt, KeepsTimes, Run, PossibleRun, TrackableFor, Safe, Blocked;
    OverwritingRefinesLog(key, events, i);
    IssueReadable(key, events, i);
    var s := Run(key, START, events);
    IssuedClaims(key, i, s.now);
    NotExp(i.username);
    TokenRoundTrip(key.hmac, i.userId, i.username, key.secret, i.at, s.now);
  }

  lemma NotExp(name: Bytes)
    requires KeepsTimes(name)
    ensures name != EXP
  {
    hide KeepsExp, KeepsIat;
    if name == EXP {
      ExpNameReads(0);
      TimesTracked(name, 0);
    }
  }

  lemma {:induction false} RunConcat(key: Key, s: State, e1: seq<Event>, e2: seq<Event>)
    ensures Run(key, s, e1 + e2) == Run(key, Run(key, s, e1), e2)
    ensures PossibleRun(key, s, e1 + e2) <==> PossibleRun(key, s, e1) && PossibleRun(key, Run(key, s, e1), e2)
    decreases |e1|
  {
    hide Step, Possible;
    if |e1| == 0 {
      assert e1 + e2 == e2;
    } else {
      assert (e1 + e2)[1..] == e1[1..] + e2;
      RunConcat(key, Step(key, s, e1[0]), e1[1..], e2);
    }
  }

  /** A run, cut right after one of its events. */
  lemma AfterEvent(key: Key, before: seq<Event>, e: Event, after: seq<Event>)
    ensures var s0 := Run(key, START, before);
            var s1, s2 := Step(key, s0, e), Run(key, START, before + [e] + after);
            s2 == Run(key, s1, after) && Grows(START, s0) && Grows(s0, s1) && Grows(s1, s2)
    ensures PossibleRun(key, START, before + [e] + after) ==>
              var s0 := Run(key, START, before);
              PossibleRun(key, START, before) && Possible(key, s0, e) && PossibleRun(key, Step(key, s0, e), after)
  {
    hide Step, Possible;
    RunConcat(key, START, before + [e], after);
    RunConcat(key, START, before, [e]);
    var s0 := Run(key, START, before);
    var s1 := Step(key, s0, e);
    assert Run(key, s0, [e]) == s1 && (PossibleRun(key, s0, [e]) ==> Possible(key, s0, e)) by { assert [e][1..] == []; }
    StepGrows(key, s0, e);
    RunGrows(key, START, before);
    RunGrows(key, s1, after);
  }

  /** Logging out is for good: whatever happens later, other logouts of the same
      user included, the token is rejected at every second but its own expiry. */
  lemma LogoutIsPermanent(key: Key, events: seq<Event>, k: nat, i: Issue)
    requires AllowedRun(key, START, events, i.userId) && k < |events|
    ensures var s0, s2 := Run(key, START, events[..k]), Run(key, START, events);
            events[k] == Logout(Token(key, i)) && i in s0.issued && Validated(key, s0, Token(key, i)).Some? ==>
              && (s2.now != i.at + DAY ==> Validated(key, s2, Token(key, i)).None?)
              && (Validated(key, s2, Token(key, i)).Some? <==>
                    s2.now == i.at + DAY && !Blocked(s2.log, i.userId, i.at, s2.now))
  {
    hide Verify, CreateJwt, Run, LastOf, PossibleRun, KeepsTimes, TrackableFor;
    var e := events[k];
    assert events == events[..k] + [e] + events[k + 1..];
    AfterEvent(key, events[..k], e, events[k + 1..]);
    var s0, s2 := Run(key, START, events[..k]), Run(key, START, events);
    if e == Logout(Token(key, i)) && i in s0.issued && Validated(key, s0, Token(key, i)).Some? {
      assert AllowedRun(key, START, events[..k], i.userId) by { TrackablePrefix(events, k, i.userId); }
      IssueReadable(key, events[..k], i);
      IssuedClaims(key, i, s0.now);
      var ttl := LogoutTtl(i.at + DAY, s0.now);
      var r := Revocation(i.userId, s0.now, s0.now + ttl);
      assert Step(key, s0, e).log == s0.log + [r];
      assert r in s2.log by { assert s2.log[|s0.log|] == r; }
      OverwritingRefinesLog(key, events, i);
    }
  }

  lemma TrackablePrefix(events: seq<Event>, k: nat, user: int)
    requires k <= |events| && TrackableFor(events, user)
    ensures TrackableFor(events[..k], user)
  {
    hide Trackable;
    assert forall j :: 0 <= j < k ==> events[..k][j] == events[j];
  }

  lemma IssueReadable(key: Key, events: seq<Event>, i: Issue)
    requires AllowedRun(key, START, events, i.userId) && i in Run(key, START, events).issued
    ensures Readable(i) && i.at <= Run(key, START, events).now
  {
    hide Run, PossibleRun, Trackable, TrackableFor;
    StartOk(i.userId);
    RunKeepsInv(key, START, events, i.userId);
  }

  /** Deleting an account rejects every token issued up to that second, except
      perhaps one issued in the very second, in the second it expires. */
  lemma DeletionRevokesAll(key: Key, before: seq<Event>, userId: int, after: seq<Event>, i: Issue)
    requires AllowedRun(key, START, before + [Delete(userId)] + after, userId)
    requires var s0, s2 := Run(key, START, before), Run(key, START, before + [Delete(userId)] + after);
             i in s2.issued && i.userId == userId && i.at <= s0.now
    ensures var s0, s2 := Run(key, START, before), Run(key, START, before + [Delete(userId)] + after);
            Validated(key, s2, Token(key, i)).Some? ==> i.at == s0.now && s2.now == s0.now + DAY
  {
    hide Verify, CreateJwt, Run, LastOf, PossibleRun, TrackableFor;
    var e := Delete(userId);
    AfterEvent(key, before, e, after);
    var s0, s2 := Run(key, START, before), Run(key, START, before + [e] + after);
    var r := Revocation(userId, s0.now, s0.now + DAY);
    assert Step(key, s0, e).log == s0.log + [r];
    assert r in s2.log by { assert s2.log[|s0.log|] == r; }
    OverwritingRefinesLog(key, before + [e] + after, i);
  }

  /** A token newer than every revocation of its user is not affected by them. */
  lemma NewTokenUnaffected(key: Key, events: seq<Event>, i: Issue)
    requires AllowedRun(key, START, events, i.userId) && i in Run(key, START, events).issued
    requires forall r :: r in Run(key, START, events).log && r.userId == i.userId ==> r.at < i.at
    requires Run(key, START, events).now <= i.at + DAY
    ensures Validated(key, Run(key, START, events), Token(key, i)).Some?
  {
    hide Verify, CreateJwt, Run, PossibleRun, TrackableFor;
    OverwritingRefinesLog(key, events, i);
  }

  lemma StepKeepsLast(key: Key, s: State, e: Event, user: int)
    requires RecordIsLast(s, user)
    ensures RecordIsLast(Step(key, s, e), user)
  {
    hide LastOf, Validate;
    match e
    case Tick =>
    case Create(u, name) =>
    case Logout(token) =>
      var who := Validated(key, s, token);
      if who.Some? {
        LastAfter(s, who.value.userId, LogoutTtl(who.value.exp, s.now), user);
      }
    case Delete(u) => LastAfter(s, u, DAY, user);
  }

  lemma {:induction false} RunKeepsLast(key: Key, s: State, events: seq<Event>, user: int)
    requires RecordIsLast(s, user)
    ensures RecordIsLast(Run(key, s, events), user)
    decreases |events|
  {
    hide RecordIsLast, Step;
    if |events| > 0 {
      StepKeepsLast(key, s, events[0], user);
      RunKeepsLast(key, Step(key, s, events[0]), events[1..], user);
    }
  }

  /** While a record is live it rejects exactly the tokens issued up to the
      user's last revocation second, in every run whatever. */
  lemma BlacklistExact(key: Key, events: seq<Event>, userId: int, iat: int)
    ensures var s := Run(key, START, events);
            var last := LastOf(s.log, userId);
            Live(s.records, userId, s.now) ==>
              last.Some? && (IsRevoked(s.records, userId, iat, s.now) <==> iat <= last.value.at)
  {
    hide Run, LastOf;
    assert RecordIsLast(START, userId) by { StartOk(userId); }
    RunKeepsLast(key, START, events, userId);
  }
}

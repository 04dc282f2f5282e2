/** For which names the revocation theorems hold: conditions on the name alone,
    proved exact, and the runs that break the theorems for all other names. */
module RevokedNames {
  import opened ByteStrings
  import opened Search
  import opened Decimal
  import opened JwtClaims
  import opened JwtRoundTrip
  import opened Jwt
  import opened Revocation

  /** A run in which one user's tokens are created under one name, and one of
      them. Other users do what they like. */
  predicate About(key: Key, events: seq<Event>, i: Issue) {
    && PossibleRun(key, START, events)
    && UnderName(events, i.userId, i.username)
    && i in Run(key, START, events).issued
  }

  predicate UnderName(events: seq<Event>, userId: int, username: Bytes) {
    forall k :: 0 <= k < |events| && events[k].Create? && events[k].userId == userId ==> events[k].username == username
  }

  // ---------- A few short runs ----------

  function Ticks(n: nat): (events: seq<Event>)
    ensures |events| == n && forall k :: 0 <= k < n ==> events[k] == Tick
  {
    seq(n, k => Tick)
  }

  lemma {:induction false} TicksPass(key: Key, s: State, n: nat)
    requires Printable(s.now) && Printable(s.now + n)
    ensures Run(key, s, Ticks(n)) == s.(now := s.now + n) && PossibleRun(key, s, Ticks(n))
    decreases n
  {
    if n > 0 {
      assert Ticks(n)[1..] == Ticks(n - 1);
      TicksPass(key, s.(now := s.now + 1), n - 1);
    }
  }

  /** A run that begins with a few steps and then waits. */
  lemma ThenWait(key: Key, first: seq<Event>, i: Issue, n: nat)
    requires About(key, first, i) && 0 <= Run(key, START, first).now <= 1 && n <= 2 * DAY
    ensures var s := Run(key, START, first);
            Run(key, START, first + Ticks(n)) == s.(now := s.now + n) && About(key, first + Ticks(n), i)
  {
    hide Run, PossibleRun;
    var s := Run(key, START, first);
    TicksPass(key, s, n);
    RunConcat(key, START, first, Ticks(n));
  }

  lemma CreateAtOnce(key: Key, i: Issue)
    requires FitsInt64(i.userId) && i.at == 0
    ensures var first := [Create(i.userId, i.username)];
            About(key, first, i) && Run(key, START, first) == State(0, map[], {i}, [])
  {
    var first := [Create(i.userId, i.username)];
    var s := Step(key, START, first[0]);
    assert s == State(0, map[], {i}, []) && first[1..] == [];
    assert Run(key, s, []) == s && PossibleRun(key, s, []);
  }

  lemma CreateLater(key: Key, i: Issue)
    requires FitsInt64(i.userId) && i.at == 1
    ensures var first := [Tick, Create(i.userId, i.username)];
            About(key, first, i) && Run(key, START, first) == State(1, map[], {i}, [])
  {
    var first := [Tick, Create(i.userId, i.username)];
    var s := State(1, map[], {}, []);
    var t := Step(key, s, first[1]);
    assert Step(key, START, first[0]) == s && t == State(1, map[], {i}, []);
    assert first[1..] == [first[1]] && first[1..][1..] == [];
    assert Run(key, t, []) == t && PossibleRun(key, t, []);
    assert Run(key, s, first[1..]) == t && PossibleRun(key, s, first[1..]);
  }

  lemma CreateThenDelete(key: Key, i: Issue)
    requires FitsInt64(i.userId) && i.at == 0
    ensures var first := [Create(i.userId, i.username), Delete(i.userId)];
            && About(key, first, i)
            && Run(key, START, first) == State(0, map[i.userId := Record(0, DAY)], {i}, [Revocation(i.userId, 0, DAY)])
  {
    var create, delete := Create(i.userId, i.username), Delete(i.userId);
    CreateAtOnce(key, i);
    var s := State(0, map[], {i}, []);
    var t := State(0, map[i.userId := Record(0, DAY)], {i}, [Revocation(i.userId, 0, DAY)]);
    RunConcat(key, START, [create], [delete]);
    assert [create] + [delete] == [create, delete];
    assert Step(key, s, delete) == t && [delete][1..] == [];
    assert Run(key, t, []) == t && PossibleRun(key, t, []);
    assert Run(key, s, [delete]) == t && PossibleRun(key, s, [delete]);
  }

  lemma DeleteThenCreate(key: Key, i: Issue)
    requires FitsInt64(i.userId) && i.at == 1
    ensures var first := [Delete(i.userId), Tick, Create(i.userId, i.username)];
            && About(key, first, i)
            && Run(key, START, first) == State(1, map[i.userId := Record(0, DAY)], {i}, [Revocation(i.userId, 0, DAY)])
  {
    var delete, create := Delete(i.userId), Create(i.userId, i.username);
    var records, log := map[i.userId := Record(0, DAY)], [Revocation(i.userId, 0, DAY)];
    var s1, s2, s3 := State(0, records, {}, log), State(1, records, {}, log), State(1, records, {i}, log);
    assert Step(key, START, delete) == s1 && Step(key, s1, Tick) == s2 && Step(key, s2, create) == s3;
    assert [delete, Tick, create][1..] == [Tick, create] && [Tick, create][1..] == [create] && [create][1..] == [];
    assert Run(key, s3, []) == s3 && PossibleRun(key, s3, []);
    assert Run(key, s2, [create]) == s3 && PossibleRun(key, s2, [create]);
    assert Run(key, s1, [Tick, create]) == s3 && PossibleRun(key, s1, [Tick, create]);
  }

  /** A logout in the second of creation, for any name that can be read. */
  lemma CreateThenLogout(key: Key, i: Issue)
    requires FitsInt64(i.userId) && i.userId != INT64_MIN && i.at == 0
    requires TimeRead(i.username, EXP, 0).Value? && TimeRead(i.username, EXP, 0).n > 0 && TimeRead(i.username, IAT, 0).Value?
    ensures var first, exp := [Create(i.userId, i.username), Logout(Token(key, i))], TimeRead(i.username, EXP, 0).n;
            && About(key, first, i) && Validated(key, Run(key, START, first[..1]), Token(key, i)).Some?
            && Run(key, START, first) == State(0, map[i.userId := Record(0, exp)], {i}, [Revocation(i.userId, 0, exp)])
  {
    hide Verify, CreateJwt, TimeRead;
    var create, logout, exp := Create(i.userId, i.username), Logout(Token(key, i)), TimeRead(i.username, EXP, 0).n;
    var s, t := State(0, map[], {i}, []), State(0, map[i.userId := Record(0, exp)], {i}, [Revocation(i.userId, 0, exp)]);
    CreateAtOnce(key, i);
    RunConcat(key, START, [create], [logout]);
    assert [create] + [logout] == [create, logout] && [create, logout][..1] == [create];
    ValidatedIs(key, s, i);
    assert IsIssued(key, s, Token(key, i));
    assert Step(key, s, logout) == t && [logout][1..] == [];
    assert Run(key, t, []) == t && PossibleRun(key, t, []);
    assert Run(key, s, [logout]) == t && PossibleRun(key, s, [logout]);
  }

  // ---------- Overwriting refines the log ----------

  /** The service judges a token as the log would. */
  predicate LogDecides(key: Key, s: State, i: Issue) {
    Validated(key, s, Token(key, i)).Some? <==> s.now <= i.at + DAY && !Blocked(s.log, i.userId, i.at, s.now)
  }

  /** For every other user or name some run is judged otherwise than by its log. */
  lemma UntrackableBreaks(key: Key, userId: int, username: Bytes) returns (events: seq<Event>, at: int)
    requires FitsInt64(userId) && !Trackable(userId, username)
    ensures var i := Issue(userId, username, at);
            About(key, events, i) && !LogDecides(key, Run(key, START, events), i)
  {
    hide Verify, CreateJwt, PossibleRun, Run, TimeRead, KeepsExp, KeepsIat, Validate;
    var i0, i1 := Issue(userId, username, 0), Issue(userId, username, 1);
    var late, early := [Tick, Create(userId, username)], [Create(userId, username)];
    CreateLater(key, i1);
    ThenWait(key, late, i1, DAY);
    var s := Run(key, START, late + Ticks(DAY));
    ValidatedIs(key, s, i1);
    if !LogDecides(key, s, i1) {
      return late + Ticks(DAY), 1;
    }
    var exp, iat := TimeRead(username, EXP, 1).n, TimeRead(username, IAT, 1).n;
    assert userId != INT64_MIN && exp >= 1 + DAY;
    if !KeepsExp(username) {
      ExpHidden(username, 0, 1);
      IatAtZero(username);
      CreateAtOnce(key, i0);
      ThenWait(key, early, i0, DAY + 1);
      ValidatedIs(key, Run(key, START, early + Ticks(DAY + 1)), i0);
      return early + Ticks(DAY + 1), 0;
    }
    IatHidden(username, 0, 1);
    TimesTracked(username, 0);
    if iat > 0 {
      CreateThenDelete(key, i0);
      var t := Run(key, START, [Create(userId, username), Delete(userId)]);
      ValidatedIs(key, t, i0);
      assert Revocation(userId, 0, DAY) in t.log;
      return [Create(userId, username), Delete(userId)], 0;
    }
    DeleteThenCreate(key, i1);
    ValidatedIs(key, Run(key, START, [Delete(userId), Tick, Create(userId, username)]), i1);
    return [Delete(userId), Tick, Create(userId, username)], 1;
  }

  lemma IatAtZero(name: Bytes)
    requires TimeRead(name, IAT, 1).Value?
    ensures TimeRead(name, IAT, 0).Value?
  {
    hide TimeRead, KeepsIat;
    if KeepsIat(name) {
      TimesTracked(name, 0);
    } else {
      IatHidden(name, 0, 1);
    }
  }

  /** Overwriting refines the log in every run about a user and a name if and only
      if the id can be read and the name hides neither time. */
  lemma OnlyTrackable(key: Key, userId: int, username: Bytes)
    requires FitsInt64(userId)
    ensures Trackable(userId, username) <==>
            forall events, at :: About(key, events, Issue(userId, username, at)) ==>
              LogDecides(key, Run(key, START, events), Issue(userId, username, at))
  {
    hide Verify, CreateJwt, PossibleRun, Run, Validate, Blocked, KeepsTimes;
    if Trackable(userId, username) {
      forall events, at | About(key, events, Issue(userId, username, at))
        ensures LogDecides(key, Run(key, START, events), Issue(userId, username, at))
      {
        OverwritingRefinesLog(key, events, Issue(userId, username, at));
      }
    } else {
      var events, at := UntrackableBreaks(key, userId, username);
    }
  }

  /** The excepted second of logout is real: a token logged out in the second it
      was created is accepted again in the second it expires. */
  lemma LogoutLapses(key: Key, userId: int, username: Bytes)
    requires Readable(Issue(userId, username, 0))
    ensures var i := Issue(userId, username, 0);
            var events := [Create(userId, username), Logout(Token(key, i))] + Ticks(DAY);
            About(key, events, i) && Validated(key, Run(key, START, events), Token(key, i)).Some?
  {
    hide Verify, CreateJwt, PossibleRun, Run, TimeRead, KeepsExp, KeepsIat, Validate;
    var i := Issue(userId, username, 0);
    var first := [Create(userId, username), Logout(Token(key, i))];
    TimesTracked(username, 0);
    CreateThenLogout(key, i);
    ThenWait(key, first, i, DAY);
    ValidatedIs(key, Run(key, START, first + Ticks(DAY)), i);
  }

  // ---------- Deletion and logout ----------

  /** The tokens of a user and a name cannot be read, or none outlives its own
      creation, or neither time ever reads later than the true one: what is read
      from a token of second 0 decides. */
  predicate Settles(userId: int, username: Bytes) {
    match (TimeRead(username, EXP, 0), TimeRead(username, IAT, 0))
    case (Value(exp), Value(iat)) => userId == INT64_MIN || exp <= 0 || (exp <= DAY && iat <= 0)
    case _ => true
  }

  /** A token is rejected, unless this is the second that reads as its expiry. */
  predicate RejectedBut(key: Key, s: State, i: Issue) {
    Validated(key, s, Token(key, i)).Some? ==> Value(s.now) == TimeRead(i.username, EXP, i.at)
  }

  /** What is read at a later second, in terms of what is read at second 0. */
  lemma ReadsLater(name: Bytes, t: int)
    requires 0 <= t && Printable(t)
    ensures if KeepsExp(name) then TimeRead(name, EXP, t) == Value(t + DAY) && TimeRead(name, EXP, 0) == Value(DAY)
            else || (TimeRead(name, EXP, t) == Value(t) && TimeRead(name, EXP, 0) == Value(0))
                 || TimeRead(name, EXP, t) == TimeRead(name, EXP, 0)
    ensures || (TimeRead(name, IAT, t) == Value(t) && TimeRead(name, IAT, 0) == Value(0))
            || TimeRead(name, IAT, t) == TimeRead(name, IAT, 0)
  {
    hide TimeRead, KeepsExp, KeepsIat;
    TimesTracked(name, t);
    TimesTracked(name, 0);
    if !KeepsExp(name) { ExpHidden(name, 0, t); }
    if !KeepsIat(name) { IatHidden(name, 0, t); }
  }

  /** Both times are read, not later than the true ones, and one is past second 0. */
  predicate InTime(username: Bytes) {
    match (TimeRead(username, EXP, 0), TimeRead(username, IAT, 0))
    case (Value(exp), Value(iat)) => 0 < exp <= DAY && iat <= 0
    case _ => false
  }

  lemma InTimeReads(name: Bytes, t0: int, t1: int)
    requires InTime(name) && 0 <= t0 && Printable(t0) && 0 <= t1 && Printable(t1)
    ensures TimeRead(name, EXP, t0).Value? && TimeRead(name, IAT, t0).Value?
    ensures TimeRead(name, EXP, t0).n <= t0 + DAY && TimeRead(name, IAT, t0).n <= t0
    ensures TimeRead(name, EXP, t1).Value? && (t0 <= t1 ==> TimeRead(name, EXP, t0).n <= TimeRead(name, EXP, t1).n)
  {
    hide TimeRead, KeepsExp;
    ReadsLater(name, t0);
    ReadsLater(name, t1);
  }

  predicate IssuesUnder(s: State, user: int, name: Bytes) {
    0 <= s.now && Printable(s.now) && forall i :: i in s.issued ==>
      FitsInt64(i.userId) && Printable(i.at) && 0 <= i.at <= s.now && (i.userId == user ==> i.username == name)
  }

  /** The user's record is from second `since` or later and lasts up to `until`. */
  predicate Guard(s: State, user: int, since: int, until: int) {
    user in s.records && since <= s.records[user].at && until <= s.records[user].deadline && since <= s.now
  }

  lemma StepKeepsIssues(key: Key, s: State, e: Event, user: int, name: Bytes)
    requires IssuesUnder(s, user, name) && Possible(key, s, e)
    requires e.Create? && e.userId == user ==> e.username == name
    ensures IssuesUnder(Step(key, s, e), user, name)
  {
    hide Validate;
  }

  lemma {:induction false} RunKeepsIssues(key: Key, s: State, events: seq<Event>, user: int, name: Bytes)
    requires IssuesUnder(s, user, name) && PossibleRun(key, s, events) && UnderName(events, user, name)
    ensures IssuesUnder(Run(key, s, events), user, name)
    decreases |events|
  {
    hide Step, Possible, IssuesUnder;
    if |events| > 0 {
      StepKeepsIssues(key, s, events[0], user, name);
      RunKeepsIssues(key, Step(key, s, events[0]), events[1..], user, name);
    }
  }

  /** A logout of any token leaves the guard up: of another user, it is another
      record; of this user, the token was issued after the record, and reaches at
      least as far, or the record was dead. */
  lemma LogoutKeepsGuard(key: Key, s: State, j: Issue, user: int, name: Bytes, since: int, t0: int)
    requires IssuesUnder(s, user, name) && InTime(name) && 0 <= t0 <= since && Printable(t0) && j in s.issued
    requires TimeRead(name, EXP, t0).Value? && Guard(s, user, since, TimeRead(name, EXP, t0).n)
    ensures Guard(Step(key, s, Logout(Token(key, j))), user, since, TimeRead(name, EXP, t0).n)
  {
    hide Verify, CreateJwt, TimeRead, InTime, Validate;
    ValidatedIs(key, s, j);
    if j.userId == user {
      InTimeReads(name, t0, j.at);
      InTimeReads(name, j.at, t0);
    }
  }

  lemma StepKeepsGuard(key: Key, s: State, e: Event, user: int, name: Bytes, since: int, t0: int)
    requires IssuesUnder(s, user, name) && Possible(key, s, e) && InTime(name) && 0 <= t0 <= since && Printable(t0)
    requires TimeRead(name, EXP, t0).Value? && Guard(s, user, since, TimeRead(name, EXP, t0).n)
    ensures Guard(Step(key, s, e), user, since, TimeRead(name, EXP, t0).n)
  {
    hide Verify, CreateJwt, TimeRead, InTime;
    match e
    case Tick =>
    case Create(userId, username) =>
    case Logout(token) =>
      if Validated(key, s, token).Some? {
        var j :| j in s.issued && token == Token(key, j);
        LogoutKeepsGuard(key, s, j, user, name, since, t0);
      }
    case Delete(userId) => InTimeReads(name, t0, t0);
  }

  lemma {:induction false} RunKeepsGuard(key: Key, s: State, events: seq<Event>, user: int, name: Bytes, since: int, t0: int)
    requires IssuesUnder(s, user, name) && PossibleRun(key, s, events) && UnderName(events, user, name)
    requires InTime(name) && 0 <= t0 <= since && Printable(t0)
    requires TimeRead(name, EXP, t0).Value? && Guard(s, user, since, TimeRead(name, EXP, t0).n)
    ensures Guard(Run(key, s, events), user, since, TimeRead(name, EXP, t0).n)
    decreases |events|
  {
    hide Step, Possible, IssuesUnder, Guard, TimeRead, InTime;
    if |events| > 0 {
      StepKeepsIssues(key, s, events[0], user, name);
      StepKeepsGuard(key, s, events[0], user, name, since, t0);
      RunKeepsGuard(key, Step(key, s, events[0]), events[1..], user, name, since, t0);
    }
  }

  /** Behind the guard an earlier token has only the second of its expiry. */
  lemma GuardedRejected(key: Key, s: State, i: Issue, since: int, t0: int)
    requires InTime(i.username) && FitsInt64(i.userId) && 0 <= i.at <= since && Printable(i.at)
    requires 0 <= t0 <= since && Printable(t0) && TimeRead(i.username, EXP, t0).Value?
    requires TimeRead(i.username, EXP, i.at).Value? && TimeRead(i.username, EXP, i.at).n <= TimeRead(i.username, EXP, t0).n
    requires Guard(s, i.userId, since, TimeRead(i.username, EXP, t0).n)
    ensures RejectedBut(key, s, i)
  {
    hide Verify, CreateJwt, TimeRead, InTime, Validate;
    ValidatedIs(key, s, i);
    InTimeReads(i.username, i.at, i.at);
  }

  /** The other ways to settle need no revocation. */
  lemma SettledAnyway(key: Key, s: State, i: Issue)
    requires Settles(i.userId, i.username) && !InTime(i.username) && FitsInt64(i.userId)
    requires 0 <= i.at <= s.now && Printable(i.at)
    ensures RejectedBut(key, s, i)
  {
    hide Verify, CreateJwt, TimeRead, Validate, KeepsExp;
    ValidatedIs(key, s, i);
    ReadsLater(i.username, i.at);
  }

  lemma AboutParts(key: Key, before: seq<Event>, e: Event, after: seq<Event>, i: Issue)
    requires About(key, before + [e] + after, i)
    ensures var s0 := Run(key, START, before);
            var s1, s2 := Step(key, s0, e), Run(key, START, before + [e] + after);
            && IssuesUnder(s0, i.userId, i.username) && IssuesUnder(s1, i.userId, i.username)
            && IssuesUnder(s2, i.userId, i.username)
            && s2 == Run(key, s1, after) && Possible(key, s0, e) && PossibleRun(key, s1, after)
            && UnderName(after, i.userId, i.username) && s0.now <= s2.now
  {
    hide Run, PossibleRun, Step, Possible, IssuesUnder;
    var all := before + [e] + after;
    var user, name := i.userId, i.username;
    AfterEvent(key, before, e, after);
    assert UnderName(before, user, name) by { assert forall k :: 0 <= k < |before| ==> all[k] == before[k]; }
    assert UnderName(after, user, name) by {
      assert forall k :: 0 <= k < |after| ==> all[|before| + 1 + k] == after[k];
    }
    assert all[|before|] == e;
    assert IssuesUnder(START, user, name) by { NoIssues(user, name); }
    RunKeepsIssues(key, START, before, user, name);
    StepKeepsIssues(key, Run(key, START, before), e, user, name);
    RunKeepsIssues(key, START, all, user, name);
  }

  lemma NoIssues(user: int, name: Bytes)
    ensures IssuesUnder(START, user, name)
  {
  }

  /** After a deletion, for the names that settle. */
  lemma SettledAfterDelete(key: Key, before: seq<Event>, after: seq<Event>, i: Issue)
    requires About(key, before + [Delete(i.userId)] + after, i) && Settles(i.userId, i.username)
    requires i.at <= Run(key, START, before).now
    ensures RejectedBut(key, Run(key, START, before + [Delete(i.userId)] + after), i)
  {
    hide Run, PossibleRun, TimeRead, Settles, InTime, RejectedBut;
    var s0 := Run(key, START, before);
    AboutParts(key, before, Delete(i.userId), after, i);
    var s1, s2 := Step(key, s0, Delete(i.userId)), Run(key, START, before + [Delete(i.userId)] + after);
    if InTime(i.username) {
      var n := s0.now;
      InTimeReads(i.username, i.at, n);
      InTimeReads(i.username, n, n);
      RunKeepsGuard(key, s1, after, i.userId, i.username, n, n);
      GuardedRejected(key, s2, i, n, n);
    } else {
      SettledAnyway(key, s2, i);
    }
  }

  /** After a logout, for the same names. */
  lemma SettledAfterLogout(key: Key, before: seq<Event>, after: seq<Event>, i: Issue)
    requires About(key, before + [Logout(Token(key, i))] + after, i) && Settles(i.userId, i.username)
    requires var s0 := Run(key, START, before); i in s0.issued && Validated(key, s0, Token(key, i)).Some?
    ensures RejectedBut(key, Run(key, START, before + [Logout(Token(key, i))] + after), i)
  {
    hide Run, PossibleRun, TimeRead, Settles, InTime, RejectedBut, Verify, CreateJwt, Validate;
    var s0, e := Run(key, START, before), Logout(Token(key, i));
    AboutParts(key, before, e, after, i);
    var s1, s2 := Step(key, s0, e), Run(key, START, before + [e] + after);
    if InTime(i.username) {
      ValidatedIs(key, s0, i);
      InTimeReads(i.username, i.at, i.at);
      RunKeepsGuard(key, s1, after, i.userId, i.username, s0.now, i.at);
      GuardedRejected(key, s2, i, s0.now, i.at);
    } else {
      SettledAnyway(key, s2, i);
    }
  }

  /** For every other name, a deletion that does not last. */
  lemma DeletionBreaks(key: Key, userId: int, username: Bytes) returns (after: seq<Event>)
    requires FitsInt64(userId) && !Settles(userId, username)
    ensures var i, before := Issue(userId, username, 0), [Create(userId, username)];
            var all := before + [Delete(userId)] + after;
            && About(key, all, i) && i.at <= Run(key, START, before).now && !RejectedBut(key, Run(key, START, all), i)
  {
    hide Verify, CreateJwt, PossibleRun, Run, TimeRead, Validate;
    var i, before := Issue(userId, username, 0), [Create(userId, username)];
    CreateAtOnce(key, i);
    CreateThenDelete(key, i);
    var first := [Create(userId, username), Delete(userId)];
    assert before + [Delete(userId)] == first;
    if TimeRead(username, IAT, 0).n > 0 {
      after := [];
      assert first + [] == first;
      ValidatedIs(key, Run(key, START, first), i);
    } else {
      after := Ticks(DAY);
      ThenWait(key, first, i, DAY);
      ValidatedIs(key, Run(key, START, first + after), i);
    }
  }

  /** And a logout that does not: it is not in force at once, or a deletion
      shortens it. */
  lemma LogoutBreaks(key: Key, userId: int, username: Bytes) returns (after: seq<Event>)
    requires FitsInt64(userId) && !Settles(userId, username)
    ensures var i, before := Issue(userId, username, 0), [Create(userId, username)];
            var all := before + [Logout(Token(key, i))] + after;
            && About(key, all, i) && i in Run(key, START, before).issued
            && Validated(key, Run(key, START, before), Token(key, i)).Some? && !RejectedBut(key, Run(key, START, all), i)
  {
    hide Verify, CreateJwt, PossibleRun, Run, TimeRead, Validate;
    var i, before := Issue(userId, username, 0), [Create(userId, username)];
    CreateAtOnce(key, i);
    CreateThenLogout(key, i);
    var first := [Create(userId, username), Logout(Token(key, i))];
    assert before + [Logout(Token(key, i))] == first && first[..1] == before;
    if TimeRead(username, IAT, 0).n > 0 {
      after := [];
      assert first + [] == first;
      ValidatedIs(key, Run(key, START, first), i);
    } else {
      after := [Delete(userId)] + Ticks(DAY);
      ThenDelete(key, first, i);
      ThenWait(key, first + [Delete(userId)], i, DAY);
      assert first + after == first + [Delete(userId)] + Ticks(DAY);
      ValidatedIs(key, Run(key, START, first + after), i);
    }
  }

  lemma ThenDelete(key: Key, first: seq<Event>, i: Issue)
    requires About(key, first, i)
    ensures About(key, first + [Delete(i.userId)], i)
    ensures Run(key, START, first + [Delete(i.userId)]) == Step(key, Run(key, START, first), Delete(i.userId))
  {
    var s, delete := Run(key, START, first), [Delete(i.userId)];
    RunConcat(key, START, first, delete);
    hide Step;
    var t := Step(key, s, delete[0]);
    assert delete[1..] == [] && Run(key, t, []) == t && PossibleRun(key, t, []);
    assert Run(key, s, delete) == t && PossibleRun(key, s, delete);
    assert t.issued == s.issued by { DeleteKeepsIssues(key, s, i.userId); }
  }

  lemma DeleteKeepsIssues(key: Key, s: State, user: int)
    ensures Step(key, s, Delete(user)).issued == s.issued
  {
  }

  /** Deletion is for good for exactly these names: in every run about a user and a
      name, every token issued up to the deletion is rejected from then on, but in
      the second that reads as its expiry, if and only if the name settles. */
  lemma DeletionExactly(key: Key, userId: int, username: Bytes)
    requires FitsInt64(userId)
    ensures Settles(userId, username) <==>
            forall before, after, at ::
              var i, all := Issue(userId, username, at), before + [Delete(userId)] + after;
              About(key, all, i) && at <= Run(key, START, before).now ==> RejectedBut(key, Run(key, START, all), i)
  {
    hide Run, About, Settles, RejectedBut;
    if Settles(userId, username) {
      forall before, after, at
        | About(key, before + [Delete(userId)] + after, Issue(userId, username, at)) && at <= Run(key, START, before).now
        ensures RejectedBut(key, Run(key, START, before + [Delete(userId)] + after), Issue(userId, username, at))
      {
        SettledAfterDelete(key, before, after, Issue(userId, username, at));
      }
    } else {
      var after := DeletionBreaks(key, userId, username);
    }
  }

  /** And logout for exactly the same names. */
  lemma LogoutExactly(key: Key, userId: int, username: Bytes)
    requires FitsInt64(userId)
    ensures Settles(userId, username) <==>
            forall before, after, at ::
              var i := Issue(userId, username, at);
              var s0, all := Run(key, START, before), before + [Logout(Token(key, i))] + after;
              About(key, all, i) && i in s0.issued && Validated(key, s0, Token(key, i)).Some? ==>
                RejectedBut(key, Run(key, START, all), i)
  {
    hide Run, About, Settles, RejectedBut, Token, Validated;
    if Settles(userId, username) {
      forall before, after, at
        | var i := Issue(userId, username, at);
          var s0, all := Run(key, START, before), before + [Logout(Token(key, i))] + after;
          About(key, all, i) && i in s0.issued && Validated(key, s0, Token(key, i)).Some?
        ensures var i := Issue(userId, username, at);
                RejectedBut(key, Run(key, START, before + [Logout(Token(key, i))] + after), i)
      {
        SettledAfterLogout(key, before, after, Issue(userId, username, at));
      }
    } else {
      var after := LogoutBreaks(key, userId, username);
    }
  }

  /** Every trackable name settles, and `exp`, which is not trackable, does too. */
  lemma TrackableSettles(userId: int, username: Bytes)
    ensures Trackable(userId, username) ==> Settles(userId, username)
    ensures Settles(userId, EXP) && !Trackable(userId, EXP)
  {
    hide TimeRead, KeepsExp, KeepsIat;
    TimesTracked(username, 0);
    TimesTracked(EXP, 0);
    ExpNameReads(0);
    KeysAreNames();
    QuoteFreeNames(EXP);
  }

  /** A name that reads as an expiry of its own settles only within the day. */
  lemma NameWithExpSettles(userId: int, n: nat)
    requires n <= INT64_MAX
    ensures Settles(userId, NameWithExp(n)) <==> userId == INT64_MIN || n <= DAY
  {
    hide TimeRead, KeepsIat, NameWithExp;
    NameWithExpReads(n, 0);
    TimesTracked(NameWithExp(n), 0);
  }

  /** Account deletion with a name that reads as an expiry of its own: once the
      day-long record is gone the token is accepted again, up to that expiry. */
  lemma DeletionLapses(key: Key, userId: int, n: nat, m: nat)
    requires FitsInt64(userId) && userId != INT64_MIN && DAY <= m <= n <= INT64_MAX && Printable(m)
    ensures var i := Issue(userId, NameWithExp(n), 0);
            var events := [Create(userId, NameWithExp(n)), Delete(userId)] + Ticks(m);
            About(key, events, i) && Validated(key, Run(key, START, events), Token(key, i)).Some?
  {
    hide Verify, CreateJwt, PossibleRun, Run, TimeRead, KeepsIat, NameWithExp, Validate;
    var i := Issue(userId, NameWithExp(n), 0);
    var first := [Create(userId, NameWithExp(n)), Delete(userId)];
    CreateThenDelete(key, i);
    var s := Run(key, START, first);
    TicksPass(key, s, m);
    RunConcat(key, START, first, Ticks(m));
    NameWithExpReads(n, 0);
    TimesTracked(NameWithExp(n), 0);
    ValidatedIs(key, Run(key, START, first + Ticks(m)), i);
  }
}

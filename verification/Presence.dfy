/** The online key and the connection map, for a user with one session at a time,
    whatever the other users do: what the map holds exactly, and, when the session
    keeps pinging, that the key agrees with it. */
module Presence {
  import opened Delivery

  /** A session of the user that has authenticated and not finished its cleanup. */
  predicate Live(sessions: map<int, Session>, id: int, user: int) {
    id in sessions && sessions[id].user == user
    && (InMap(sessions[id].phase) || sessions[id].phase.Online? || sessions[id].phase.Erased?)
  }

  /** A live session that has not begun its cleanup. */
  predicate Refreshing(sessions: map<int, Session>, id: int, user: int) {
    Live(sessions, id, user) && !sessions[id].phase.Erased?
  }

  predicate HasLive(sessions: map<int, Session>, user: int) {
    exists id :: id in sessions && Live(sessions, id, user)
  }

  /** The user authenticates only when no earlier session of theirs is left. */
  predicate OneAtATime(s: State, e: Event, user: int) {
    e.InSession? && e.step.AuthOnline? && e.step.user == user ==> !HasLive(s.sessions, user)
  }

  /** No remote online or offline call for the user comes, and the clock does not
      outrun a live session's last refresh. */
  predicate Timely(s: State, e: Event, user: int) {
    && (e.Remote? && e.user == user ==> e.call.PullRange? || e.call.PullDel?)
    && (e.Tick? ==> forall id :: id in s.sessions && Refreshing(s.sessions, id, user) ==>
          s.now + 1 < s.sessions[id].refreshed + ONLINE_SECONDS)
  }

  predicate SingleRun(s: State, events: seq<Event>, user: int)
    decreases |events|
  {
    |events| == 0 || (OneAtATime(s, events[0], user) && SingleRun(Next(s, events[0]), events[1..], user))
  }

  predicate TimelyRun(s: State, events: seq<Event>, user: int)
    decreases |events|
  {
    |events| == 0 || (Timely(s, events[0], user) && TimelyRun(Next(s, events[0]), events[1..], user))
  }

  // ---------- The map ----------

  predicate Unique(sessions: map<int, Session>, user: int) {
    forall a, b :: a in sessions && b in sessions && Live(sessions, a, user) && Live(sessions, b, user) ==> a == b
  }

  predicate Entered(conns: Connections, sessions: map<int, Session>, id: int, user: int) {
    id in sessions && sessions[id].user == user && InMap(sessions[id].phase) ==> user in conns && conns[user] == id
  }

  predicate MapOk(s: State, user: int) {
    && Unique(s.sessions, user)
    && RoutingOk(s.conns, s.sessions)
    && (forall id :: id in s.sessions ==> Entered(s.conns, s.sessions, id, user))
  }

  /** What a session's step does to the three maps. */
  lemma EffectsOf(s: State, id: int, step: SessionStep)
    requires CanStep(s, id, step)
    ensures var t, after := AfterStep(s, id, step), SessionAfter(s, id, step);
            && t.now == s.now
            && t.sessions == s.sessions[id := after]
            && t.online == (if step.AuthOnline? || step.Ping? then s.online[after.user := s.now + ONLINE_SECONDS]
                            else if step.DelOnline? then s.online - {after.user} else s.online)
            && t.conns == (if step.Register? then s.conns[after.user := id]
                           else if step.Erase? then s.conns - {after.user} else s.conns)
  {
    hide Ranged, Deleted, Late, Snapshot, Flushed;
  }

  lemma UniqueKept(s: State, t: State, id: int, step: SessionStep, user: int)
    requires CanStep(s, id, step) && OneAtATime(s, InSession(id, step), user) && Unique(s.sessions, user)
    requires t.sessions == s.sessions[id := SessionAfter(s, id, step)]
    ensures Unique(t.sessions, user)
  {
    hide Snapshot;
    forall a, b | a in t.sessions && b in t.sessions && Live(t.sessions, a, user) && Live(t.sessions, b, user)
      ensures a == b
    {
      assert a != id ==> a in s.sessions && Live(s.sessions, a, user);
      assert b != id ==> b in s.sessions && Live(s.sessions, b, user);
    }
  }

  lemma MapSession(s: State, id: int, step: SessionStep, user: int)
    requires CanStep(s, id, step) && OneAtATime(s, InSession(id, step), user) && MapOk(s, user)
    ensures MapOk(AfterStep(s, id, step), user)
  {
    var t := AfterStep(s, id, step);
    EffectsOf(s, id, step);
    UniqueKept(s, t, id, step, user);
    RoutingSession(s, id, step);
    hide AfterStep, Snapshot, RoutingOk, Unique;
    forall a | a in t.sessions ensures Entered(t.conns, t.sessions, a, user) {
      assert a in s.sessions ==> Entered(s.conns, s.sessions, a, user);
      UniqueAt(s.sessions, id, a, user);
    }
  }

  lemma UniqueAt(sessions: map<int, Session>, a: int, b: int, user: int)
    requires Unique(sessions, user)
    ensures Live(sessions, a, user) && Live(sessions, b, user) ==> a == b
  {
  }

  lemma OthersKeepMap(s: State, e: Event)
    requires Enabled(s, e) && !e.InSession?
    ensures Step(s, e).conns == s.conns && Step(s, e).sessions == s.sessions
  {
    hide Pushed, Ranged, Deleted, Late, IsOnline, OnlineSet;
  }

  lemma MapStep(s: State, e: Event, user: int)
    requires MapOk(s, user) && OneAtATime(s, e, user)
    ensures MapOk(Next(s, e), user)
  {
    hide OneAtATime, Unique, RoutingOk, Entered, AfterStep;
    if Enabled(s, e) {
      match e
      case InSession(id, step) => MapSession(s, id, step, user);
      case _ => OthersKeepMap(s, e);
    }
  }

  lemma {:induction false} MapRun(s: State, events: seq<Event>, user: int)
    requires MapOk(s, user) && SingleRun(s, events, user)
    ensures MapOk(Run(s, events), user)
    decreases |events|
  {
    hide MapOk, OneAtATime, Next;
    if |events| > 0 {
      MapStep(s, events[0], user);
      MapRun(Next(s, events[0]), events[1..], user);
    }
  }

  /** With one session at a time the map is exact: a user is in it if and only if
      their session has registered and not yet cleaned up. */
  lemma MapExact(events: seq<Event>, user: int)
    requires SingleRun(START, events, user)
    ensures var s := Run(START, events);
            user in s.conns <==> exists id :: id in s.sessions && s.sessions[id].user == user && InMap(s.sessions[id].phase)
  {
    MapRun(START, events, user);
    var s := Run(START, events);
    hide Run, SingleRun;
    if user in s.conns {
      assert Routed(s.sessions, user, s.conns[user]);
    }
    forall id | id in s.sessions && s.sessions[id].user == user && InMap(s.sessions[id].phase) ensures user in s.conns {
      assert Entered(s.conns, s.sessions, id, user);
    }
  }

  // ---------- The key ----------

  predicate Fresh(s: State, id: int, user: int) {
    Refreshing(s.sessions, id, user) ==>
      var session := s.sessions[id];
      && user in s.online
      && s.online[user] == session.refreshed + ONLINE_SECONDS
      && s.now < session.refreshed + ONLINE_SECONDS
  }

  /** A refreshing session's key is as old as its last refresh, and the key does
      not outlive the user's session. */
  predicate KeysOk(s: State, user: int) {
    && (forall id :: id in s.sessions ==> Fresh(s, id, user))
    && (user in s.online ==> HasLive(s.sessions, user))
  }

  lemma KeysSession(s: State, id: int, step: SessionStep, user: int)
    requires CanStep(s, id, step) && Unique(s.sessions, user) && KeysOk(s, user)
    requires OneAtATime(s, InSession(id, step), user)
    ensures KeysOk(AfterStep(s, id, step), user)
  {
    var t := AfterStep(s, id, step);
    EffectsOf(s, id, step);
    hide AfterStep, Unique, Snapshot;
    forall a | a in t.sessions ensures Fresh(t, a, user) {
      assert a in s.sessions ==> Fresh(s, a, user);
      UniqueAt(s.sessions, id, a, user);
    }
    if user in t.online {
      if user in s.online {
        var a :| a in s.sessions && Live(s.sessions, a, user);
        UniqueAt(s.sessions, id, a, user);
        assert a in t.sessions && Live(t.sessions, a, user);
      } else {
        assert id in t.sessions && Live(t.sessions, id, user);
      }
    }
  }

  lemma SendKeepsKeys(s: State, m: Msg, send: SendStep)
    requires CanSend(s, m, send)
    ensures AfterSend(s, m, send).now == s.now && AfterSend(s, m, send).online == s.online
  {
    hide BoxPushed, IsOnline, WrittenLive;
  }

  lemma CallKeepsKeys(s: State, who: int, call: RemoteStep, user: int)
    requires CanCall(s, who, call) && (who == user ==> call.PullRange? || call.PullDel?)
    ensures var t := AfterCall(s, who, call);
            t.now == s.now && (user in t.online <==> user in s.online) && (user in s.online ==> t.online[user] == s.online[user])
  {
    hide Ranged, Deleted, Late;
  }

  lemma OthersKeepKeys(s: State, e: Event, user: int)
    requires Enabled(s, e) && Timely(s, e, user) && !e.InSession?
    ensures var t := Step(s, e);
            && t.now == (if e.Tick? then s.now + 1 else s.now)
            && (user in t.online <==> user in s.online) && (user in s.online ==> t.online[user] == s.online[user])
  {
    hide AfterSend, AfterCall, Refreshing;
    match e
    case Tick =>
    case Sender(m, send) => SendKeepsKeys(s, m, send);
    case Remote(who, call) => CallKeepsKeys(s, who, call, user);
  }

  lemma KeysOther(s: State, e: Event, user: int)
    requires Enabled(s, e) && Timely(s, e, user) && !e.InSession? && KeysOk(s, user)
    ensures KeysOk(Step(s, e), user)
  {
    var t := Step(s, e);
    OthersKeepMap(s, e);
    OthersKeepKeys(s, e, user);
    hide Step, HasLive;
    forall id | id in t.sessions ensures Fresh(t, id, user) {
      assert Fresh(s, id, user);
    }
  }

  lemma KeysStep(s: State, e: Event, user: int)
    requires MapOk(s, user) && KeysOk(s, user) && OneAtATime(s, e, user) && Timely(s, e, user)
    ensures KeysOk(Next(s, e), user)
  {
    hide OneAtATime, Timely, KeysOk, AfterStep, Unique, RoutingOk, Entered;
    if Enabled(s, e) {
      match e
      case InSession(id, step) => KeysSession(s, id, step, user);
      case _ => KeysOther(s, e, user);
    }
  }

  lemma {:induction false} KeysRun(s: State, events: seq<Event>, user: int)
    requires MapOk(s, user) && KeysOk(s, user) && SingleRun(s, events, user) && TimelyRun(s, events, user)
    ensures KeysOk(Run(s, events), user)
    decreases |events|
  {
    hide MapOk, KeysOk, OneAtATime, Timely, Next;
    if |events| > 0 {
      MapStep(s, events[0], user);
      KeysStep(s, events[0], user);
      KeysRun(Next(s, events[0]), events[1..], user);
    }
  }

  /** The user's session is between the key and the map. */
  predicate InGap(sessions: map<int, Session>, user: int) {
    exists id :: id in sessions && sessions[id].user == user && (sessions[id].phase.Online? || sessions[id].phase.Erased?)
  }

  /** Outside the gaps at authentication and cleanup, a user's online key is alive
      exactly when they have a registered socket. */
  lemma PresenceAgrees(events: seq<Event>, user: int)
    requires SingleRun(START, events, user) && TimelyRun(START, events, user)
    requires !InGap(Run(START, events).sessions, user)
    ensures var s := Run(START, events); IsOnline(s.online, user, s.now) <==> user in s.conns
  {
    MapRun(START, events, user);
    KeysRun(START, events, user);
    var s := Run(START, events);
    hide Run, SingleRun, TimelyRun;
    if user in s.online {
      var id :| id in s.sessions && Live(s.sessions, id, user);
      assert Entered(s.conns, s.sessions, id, user) && Fresh(s, id, user);
    }
    if user in s.conns {
      assert Routed(s.sessions, user, s.conns[user]);
      assert Fresh(s, s.conns[user], user);
    }
  }
}

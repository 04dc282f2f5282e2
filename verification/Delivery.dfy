/** Message delivery in server/msg_server.cpp as a step system: any number of
    senders, WebSocket sessions and offline pulls, interleaved at every lock and
    every Redis command. */
module Delivery {
  import opened ByteStrings

  const ONLINE_SECONDS := 30

  /** One accepted message; `serial` tells apart messages with equal contents. */
  datatype Msg = Msg(serial: nat, from: int, to: int, payload: Bytes)

  // ---------- The shared state and its commands ----------

  type OnlineKeys = map<int, int>
  type Connections = map<int, int>
  type MsgLists = map<int, seq<Msg>>

  /** `SET online:<id> 1 EX 30` */
  function OnlineSet(online: OnlineKeys, user: int, now: int): OnlineKeys {
    online[user := now + ONLINE_SECONDS]
  }

  /** `EXISTS online:<id>` */
  predicate IsOnline(online: OnlineKeys, user: int, now: int) {
    user in online && now < online[user]
  }

  /** `LRANGE offline_msg:<id> 0 -1` */
  function ListOf(lists: MsgLists, user: int): seq<Msg> {
    if user in lists then lists[user] else []
  }

  /** `RPUSH offline_msg:<id>` */
  function Pushed(lists: MsgLists, m: Msg): MsgLists {
    lists[m.to := ListOf(lists, m.to) + [m]]
  }

  // ---------- Threads ----------

  /** How far a session's thread has come. `Online` and `Erased` are the gaps
      between the Redis key and the connection map, at authentication and at
      cleanup. */
  datatype Phase =
    | Connected
    | Online
    | Registered
    | Popping
    | Holding(batch: seq<Msg>)
    | Active
    | Erased
    | Closed

  /** A session; `user` means something once it has authenticated. */
  datatype Session = Session(phase: Phase, user: int, refreshed: int)

  /** A sender between accepting a message and disposing of it. */
  datatype Send = Accepted | Checked(online: bool)

  /** Who pops a list: a session, once, or a remote call. */
  datatype Popper = BySession(id: int) | ByPull(call: int)

  /** A pop from its LRANGE on: what it read, where that stood in the log of
      pushes, and which pops of the same list were under way. It is done with
      its DEL. */
  datatype Pop = Pop(user: int, from: nat, snapshot: seq<Msg>, during: set<Popper>, done: bool)

  /** One message in one frame written to one session's socket. */
  datatype Write = Write(session: int, msg: Msg, live: bool)

  /** The offline lists, the log of all pushes, and all pops, any number of them
      on one list at a time. */
  datatype Box = Box(offline: MsgLists, logs: MsgLists, pops: map<Popper, Pop>)

  /** What has happened: messages accepted, frames written, sessions whose flush
      failed, and the four ways to lose a message. */
  datatype History = History(
    accepted: set<Msg>,
    writes: seq<Write>,
    failed: set<int>,
    noSocket: multiset<Msg>,
    liveFailed: multiset<Msg>,
    flushFailed: multiset<Msg>,
    dropped: multiset<Msg>)

  datatype State = State(
    now: int,
    online: OnlineKeys,
    conns: Connections,
    sessions: map<int, Session>,
    sends: map<Msg, Send>,
    box: Box,
    past: History)

  const START :=
    State(0, map[], map[], map[], map[], Box(map[], map[], map[]),
          History({}, [], {}, multiset{}, multiset{}, multiset{}, multiset{}))

  /** The steps of a sender: accept, look at the online key, write or push. */
  datatype SendStep = Accept | CheckOnline | WriteLive(ok: bool) | PushOffline

  /** The steps of a session's thread, in its order. */
  datatype SessionStep =
    | Connect
    | AuthOnline(user: int)
    | Register
    | PopRange
    | PopDel
    | Flush(ok: bool)
    | Ping
    | Erase
    | DelOnline

  /** Calls from outside; a pull is one call with two commands. */
  datatype RemoteStep = PullRange(id: int) | PullDel(id: int) | RegisterOnline | UnregisterOnline

  datatype Event =
    | Tick
    | Sender(m: Msg, send: SendStep)
    | InSession(id: int, step: SessionStep)
    | Remote(user: int, call: RemoteStep)

  // ---------- The offline lists ----------

  function LogOf(box: Box, user: int): seq<Msg> {
    ListOf(box.logs, user)
  }

  /** Where in its log a list begins: all before it has been deleted. */
  function Start(box: Box, user: int): (n: nat)
    ensures n <= |LogOf(box, user)|
  {
    var list, log := ListOf(box.offline, user), LogOf(box, user);
    if |list| <= |log| then |log| - |list| else 0
  }

  function BoxPushed(box: Box, m: Msg): Box {
    box.(offline := Pushed(box.offline, m), logs := Pushed(box.logs, m))
  }

  predicate Open(box: Box, p: Popper, user: int) {
    p in box.pops && box.pops[p].user == user && !box.pops[p].done
  }

  function OpenPops(box: Box, user: int): set<Popper> {
    set p | p in box.pops && Open(box, p, user)
  }

  /** `LRANGE offline_msg:<id> 0 -1` */
  function Ranged(box: Box, user: int, p: Popper): Box {
    box.(pops := box.pops[p := Pop(user, Start(box, user), ListOf(box.offline, user), OpenPops(box, user), false)])
  }

  function Snapshot(box: Box, p: Popper): seq<Msg> {
    if p in box.pops then box.pops[p].snapshot else []
  }

  /** What is in the list at a pop's DEL and not in what it read. */
  function Late(box: Box, user: int, p: Popper): multiset<Msg> {
    multiset(ListOf(box.offline, user)) - multiset(Snapshot(box, p))
  }

  /** `DEL offline_msg:<id>`: the list goes, whoever has read how much of it. */
  function Deleted(box: Box, user: int, p: Popper): Box {
    Box(box.offline - {user}, box.logs, if p in box.pops then box.pops[p := box.pops[p].(done := true)] else box.pops)
  }

  // ---------- Senders ----------

  predicate CanSend(s: State, m: Msg, send: SendStep) {
    match send
    case Accept => m !in s.past.accepted
    case CheckOnline => m in s.sends && s.sends[m] == Accepted
    case WriteLive(_) => m in s.sends && s.sends[m] == Checked(true)
    case PushOffline => m in s.sends && s.sends[m] == Checked(false)
  }

  /** The send's last step when the recipient looked online: the socket found
      under the lock, if any. */
  function WrittenLive(past: History, conns: Connections, m: Msg, ok: bool): History {
    if m.to !in conns then past.(noSocket := past.noSocket + multiset{m})
    else if ok then past.(writes := past.writes + [Write(conns[m.to], m, true)])
    else past.(liveFailed := past.liveFailed + multiset{m})
  }

  function AfterSend(s: State, m: Msg, send: SendStep): State {
    match send
    case Accept => s.(past := s.past.(accepted := s.past.accepted + {m}), sends := s.sends[m := Accepted])
    case CheckOnline => s.(sends := s.sends[m := Checked(IsOnline(s.online, m.to, s.now))])
    case WriteLive(ok) => s.(past := WrittenLive(s.past, s.conns, m, ok), sends := s.sends - {m})
    case PushOffline => s.(box := BoxPushed(s.box, m), sends := s.sends - {m})
  }

  // ---------- Sessions ----------

  predicate In(s: State, id: int, phase: Phase) {
    id in s.sessions && s.sessions[id].phase == phase
  }

  predicate CanStep(s: State, id: int, step: SessionStep) {
    match step
    case Connect => id !in s.sessions
    case AuthOnline(_) => In(s, id, Connected)
    case Register => In(s, id, Online)
    case PopRange => In(s, id, Registered)
    case PopDel => In(s, id, Popping)
    case Flush(_) => id in s.sessions && s.sessions[id].phase.Holding?
    case Ping => In(s, id, Active)
    case Erase => In(s, id, Active)
    case DelOnline => In(s, id, Erased)
  }

  /** The frames of a flushed batch. */
  function Frames(id: int, batch: seq<Msg>): seq<Write> {
    if |batch| == 0 then [] else Frames(id, batch[..|batch| - 1]) + [Write(id, batch[|batch| - 1], false)]
  }

  function Flushed(past: History, id: int, batch: seq<Msg>, ok: bool): History {
    if ok then past.(writes := past.writes + Frames(id, batch))
    else past.(failed := past.failed + {id}, flushFailed := past.flushFailed + multiset(batch))
  }

  /** The session as a step leaves it. */
  function SessionAfter(s: State, id: int, step: SessionStep): Session
    requires CanStep(s, id, step)
  {
    match step
    case Connect => Session(Connected, 0, s.now)
    case AuthOnline(who) => Session(Online, who, s.now)
    case Register => s.sessions[id].(phase := Registered)
    case PopRange => s.sessions[id].(phase := Popping)
    case PopDel => s.sessions[id].(phase := Holding(Snapshot(s.box, BySession(id))))
    case Flush(_) => s.sessions[id].(phase := Active)
    case Ping => s.sessions[id].(refreshed := s.now)
    case Erase => s.sessions[id].(phase := Erased)
    case DelOnline => s.sessions[id].(phase := Closed)
  }

  function AfterStep(s: State, id: int, step: SessionStep): State
    requires CanStep(s, id, step)
  {
    var session := SessionAfter(s, id, step);
    var user := session.user;
    var t := s.(sessions := s.sessions[id := session]);
    match step
    case Connect => t
    case AuthOnline(_) => t.(online := OnlineSet(s.online, user, s.now))
    case Register => t.(conns := s.conns[user := id])
    case PopRange => t.(box := Ranged(s.box, user, BySession(id)))
    case PopDel => Dropping(t, user, BySession(id))
    case Flush(ok) => t.(past := Flushed(s.past, id, s.sessions[id].phase.batch, ok))
    case Ping => t.(online := OnlineSet(s.online, user, s.now))
    case Erase => t.(conns := s.conns - {user})
    case DelOnline => t.(online := s.online - {user})
  }

  /** The DEL of a pop, and what it loses. */
  function Dropping(s: State, user: int, p: Popper): State {
    s.(box := Deleted(s.box, user, p), past := s.past.(dropped := s.past.dropped + Late(s.box, user, p)))
  }

  // ---------- Remote calls ----------

  predicate CanCall(s: State, user: int, call: RemoteStep) {
    match call
    case PullRange(id) => ByPull(id) !in s.box.pops
    case PullDel(id) => Open(s.box, ByPull(id), user)
    case RegisterOnline => true
    case UnregisterOnline => true
  }

  function AfterCall(s: State, user: int, call: RemoteStep): State {
    match call
    case PullRange(id) => s.(box := Ranged(s.box, user, ByPull(id)))
    case PullDel(id) => Dropping(s, user, ByPull(id))
    case RegisterOnline => s.(online := OnlineSet(s.online, user, s.now))
    case UnregisterOnline => s.(online := s.online - {user})
  }

  // ---------- One step ----------

  predicate Enabled(s: State, e: Event) {
    match e
    case Tick => true
    case Sender(m, send) => CanSend(s, m, send)
    case InSession(id, step) => CanStep(s, id, step)
    case Remote(user, call) => CanCall(s, user, call)
  }

  function Step(s: State, e: Event): State
    requires Enabled(s, e)
  {
    match e
    case Tick => s.(now := s.now + 1)
    case Sender(m, send) => AfterSend(s, m, send)
    case InSession(id, step) => AfterStep(s, id, step)
    case Remote(user, call) => AfterCall(s, user, call)
  }

  /** An event that cannot happen in a state is skipped. */
  function Next(s: State, e: Event): State {
    if Enabled(s, e) then Step(s, e) else s
  }

  function Run(s: State, events: seq<Event>): State
    decreases |events|
  {
    if |events| == 0 then s else Run(Next(s, events[0]), events[1..])
  }

  // ---------- The online key ----------

  /** The steps that set a user's key, and those that delete it. */
  predicate Refreshes(s: State, e: Event, user: int) {
    match e
    case InSession(id, step) =>
      (step.AuthOnline? && step.user == user) || (step.Ping? && id in s.sessions && s.sessions[id].user == user)
    case Remote(who, call) => call.RegisterOnline? && who == user
    case _ => false
  }

  predicate Clears(s: State, e: Event, user: int) {
    match e
    case InSession(id, step) => step.DelOnline? && id in s.sessions && s.sessions[id].user == user
    case Remote(who, call) => call.UnregisterOnline? && who == user
    case _ => false
  }

  /** The second of the last refresh that no deletion has followed. */
  function Refreshed(s: State, events: seq<Event>, user: int, last: Option<int>): Option<int>
    decreases |events|
  {
    if |events| == 0 then last
    else
      var e := events[0];
      var now :=
        if !Enabled(s, e) then last
        else if Refreshes(s, e, user) then Some(s.now)
        else if Clears(s, e, user) then None
        else last;
      Refreshed(Next(s, e), events[1..], user, now)
  }

  predicate KeyIs(s: State, user: int, last: Option<int>) {
    match last
    case None => user !in s.online
    case Some(t) => user in s.online && s.online[user] == t + 30
  }

  lemma SessionKey(s: State, id: int, step: SessionStep, user: int)
    requires CanStep(s, id, step)
    ensures var t, e := AfterStep(s, id, step), InSession(id, step);
            if Refreshes(s, e, user) then user in t.online && t.online[user] == s.now + 30
            else if Clears(s, e, user) then user !in t.online
            else (user in t.online <==> user in s.online) && (user in s.online ==> t.online[user] == s.online[user])
  {
    hide Ranged, Deleted, Late, Flushed, Snapshot;
  }

  lemma CallKey(s: State, who: int, call: RemoteStep, user: int)
    requires CanCall(s, who, call)
    ensures var t, e := AfterCall(s, who, call), Remote(who, call);
            if Refreshes(s, e, user) then user in t.online && t.online[user] == s.now + 30
            else if Clears(s, e, user) then user !in t.online
            else (user in t.online <==> user in s.online) && (user in s.online ==> t.online[user] == s.online[user])
  {
    hide Ranged, Deleted, Late;
  }

  lemma KeyStep(s: State, e: Event, user: int, last: Option<int>)
    requires Enabled(s, e) && KeyIs(s, user, last)
    ensures KeyIs(Step(s, e), user,
                  if Refreshes(s, e, user) then Some(s.now) else if Clears(s, e, user) then None else last)
  {
    hide AfterStep, AfterCall, WrittenLive, BoxPushed, IsOnline;
    match e
    case Tick =>
    case Sender(m, send) =>
    case InSession(id, step) => SessionKey(s, id, step, user);
    case Remote(who, call) => CallKey(s, who, call, user);
  }

  lemma {:induction false} KeyRun(s: State, events: seq<Event>, user: int, last: Option<int>)
    requires KeyIs(s, user, last)
    ensures KeyIs(Run(s, events), user, Refreshed(s, events, user, last))
    decreases |events|
  {
    hide KeyIs, Step, Enabled, Refreshes, Clears;
    if |events| > 0 {
      var e := events[0];
      if Enabled(s, e) {
        KeyStep(s, e, user, last);
        KeyRun(Step(s, e), events[1..], user,
               if Refreshes(s, e, user) then Some(s.now) else if Clears(s, e, user) then None else last);
      } else {
        KeyRun(s, events[1..], user, last);
      }
    }
  }

  /** In every run a user looks online exactly within the 30 seconds after the last
      refresh that no deletion has followed. */
  lemma OnlineExactly(events: seq<Event>, user: int)
    ensures var s := Run(START, events);
            IsOnline(s.online, user, s.now) <==>
            match Refreshed(START, events, user, None) case None => false case Some(t) => s.now < t + 30
  {
    KeyRun(START, events, user, None);
    hide Run;
  }

  // ---------- No stale session pointer ----------

  /** Between its registration and its cleanup. */
  predicate InMap(p: Phase) {
    p.Registered? || p.Popping? || p.Holding? || p.Active?
  }

  /** Every entry of the connection map leads to a session that authenticated as
      that user and has not begun its cleanup. */
  predicate RoutingOk(conns: Connections, sessions: map<int, Session>) {
    forall u :: u in conns ==> Routed(sessions, u, conns[u])
  }

  predicate Routed(sessions: map<int, Session>, user: int, id: int) {
    id in sessions && sessions[id].user == user && InMap(sessions[id].phase)
  }

  lemma RoutingStep(s: State, e: Event)
    requires Enabled(s, e) && RoutingOk(s.conns, s.sessions)
    ensures RoutingOk(Step(s, e).conns, Step(s, e).sessions)
  {
    hide BoxPushed, Ranged, Deleted, Late, OnlineSet, IsOnline;
    match e
    case InSession(id, step) => RoutingSession(s, id, step);
    case _ =>
  }

  lemma RoutingSession(s: State, id: int, step: SessionStep)
    requires CanStep(s, id, step) && RoutingOk(s.conns, s.sessions)
    ensures RoutingOk(AfterStep(s, id, step).conns, AfterStep(s, id, step).sessions)
  {
    hide Ranged, Deleted, Late, Flushed, OnlineSet, Snapshot;
    var t := AfterStep(s, id, step);
    forall u | u in t.conns ensures Routed(t.sessions, u, t.conns[u]) {
      assert u in s.conns ==> Routed(s.sessions, u, s.conns[u]);
    }
  }

  // ---------- The lists and the pops on them ----------

  /** A list is the end of its log. */
  predicate Suffix(box: Box, user: int) {
    |ListOf(box.offline, user)| <= |LogOf(box, user)| && ListOf(box.offline, user) == LogOf(box, user)[Start(box, user)..]
  }

  /** A pop read a stretch of its log. It still begins where the list does, or all
      of it has been deleted, and so it has when the pop is done. */
  predicate PopOk(box: Box, p: Popper)
    requires p in box.pops
  {
    var pop := box.pops[p];
    var end := pop.from + |pop.snapshot|;
    && end <= |LogOf(box, pop.user)| && pop.snapshot == LogOf(box, pop.user)[pop.from..end]
    && (pop.from == Start(box, pop.user) || end <= Start(box, pop.user))
    && (pop.done ==> end <= Start(box, pop.user))
    && pop.during <= box.pops.Keys
  }

  /** The first pop's stretch ends before the second's begins. */
  predicate Before(p: Pop, q: Pop) {
    p.from + |p.snapshot| <= q.from
  }

  /** A pop that began while another one was under way begins with all of the
      other's stretch, or after it. */
  predicate DuringOk(box: Box, p: Popper, q: Popper)
    requires p in box.pops && q in box.pops
  {
    var a, b := box.pops[p], box.pops[q];
    p in b.during ==> a.user == b.user && (Before(a, b) || (a.from == b.from && |a.snapshot| <= |b.snapshot|))
  }

  predicate Overlapped(box: Box, p: Popper, q: Popper)
    requires p in box.pops && q in box.pops
  {
    p in box.pops[q].during || q in box.pops[p].during
  }

  /** Two pops of one list read disjoint stretches or overlapped. */
  predicate PairOk(box: Box, p: Popper, q: Popper)
    requires p in box.pops && q in box.pops
  {
    var a, b := box.pops[p], box.pops[q];
    a.user == b.user && p != q ==> Before(a, b) || Before(b, a) || Overlapped(box, p, q)
  }

  ghost predicate ListsOk(box: Box) {
    forall u :: Suffix(box, u)
  }

  predicate PopsOk(box: Box) {
    forall p :: p in box.pops ==> PopOk(box, p)
  }

  predicate PairsOk(box: Box) {
    forall p, q :: p in box.pops && q in box.pops ==> DuringOk(box, p, q) && PairOk(box, p, q)
  }

  /** Lists and logs hold only their owner's messages. */
  ghost predicate OwnersOk(box: Box) {
    forall u, m :: m in LogOf(box, u) ==> m.to == u
  }

  ghost predicate BoxOk(box: Box) {
    ListsOk(box) && PopsOk(box) && PairsOk(box) && OwnersOk(box)
  }

  lemma PushedLists(lists: MsgLists, m: Msg, u: int)
    ensures ListOf(Pushed(lists, m), u) == if u == m.to then ListOf(lists, u) + [m] else ListOf(lists, u)
  {
  }

  lemma PushStart(box: Box, m: Msg, u: int)
    requires Suffix(box, u)
    ensures Suffix(BoxPushed(box, m), u) && Start(BoxPushed(box, m), u) == Start(box, u)
    ensures LogOf(BoxPushed(box, m), u) == if u == m.to then LogOf(box, u) + [m] else LogOf(box, u)
  {
    PushedLists(box.offline, m, u);
    PushedLists(box.logs, m, u);
    hide Pushed, ListOf;
  }

  lemma PushKeeps(box: Box, m: Msg)
    requires BoxOk(box)
    ensures BoxOk(BoxPushed(box, m))
  {
    hide Suffix, Start, LogOf, Pushed;
    var t := BoxPushed(box, m);
    forall u ensures Suffix(t, u) && forall x :: x in LogOf(t, u) ==> x.to == u {
      PushStart(box, m, u);
    }
    forall p | p in t.pops ensures PopOk(t, p) {
      assert PopOk(box, p);
      PushStart(box, m, box.pops[p].user);
    }
    PairsKept(box, t);
  }

  lemma PairsKept(box: Box, t: Box)
    requires PairsOk(box) && t.pops == box.pops
    ensures PairsOk(t)
  {
    forall p, q | p in t.pops && q in t.pops ensures DuringOk(t, p, q) && PairOk(t, p, q) {
      assert DuringOk(box, p, q) && PairOk(box, p, q);
    }
  }

  lemma OpenArePops(box: Box, user: int)
    ensures OpenPops(box, user) <= box.pops.Keys
  {
  }

  lemma RangeKeepsPops(box: Box, user: int, p: Popper)
    requires ListsOk(box) && PopsOk(box) && p !in box.pops
    ensures PopsOk(Ranged(box, user, p))
  {
    hide ListsOk, OpenPops, ListOf;
    var t := Ranged(box, user, p);
    OpenArePops(box, user);
    assert Suffix(box, user) by { ListAt(box, user); }
    forall q | q in t.pops ensures PopOk(t, q) {
      assert q != p ==> PopOk(box, q);
    }
  }

  lemma ListAt(box: Box, user: int)
    requires ListsOk(box)
    ensures Suffix(box, user)
  {
  }

  /** A new pop against an earlier one. */
  lemma RangePair(box: Box, user: int, p: Popper, a: Popper)
    requires Suffix(box, user) && p !in box.pops && a in box.pops && PopOk(box, a)
    ensures var t := Ranged(box, user, p);
            DuringOk(t, a, p) && DuringOk(t, p, a) && PairOk(t, a, p) && PairOk(t, p, a)
  {
    hide ListOf;
    assert p !in box.pops[a].during;
  }

  lemma RangeKeepsPairs(box: Box, user: int, p: Popper)
    requires BoxOk(box) && p !in box.pops
    ensures PairsOk(Ranged(box, user, p))
  {
    var t := Ranged(box, user, p);
    assert Suffix(box, user) by { ListAt(box, user); }
    hide ListsOk, OwnersOk, ListOf, Start, LogOf, Suffix;
    forall a, b | a in t.pops && b in t.pops ensures DuringOk(t, a, b) && PairOk(t, a, b) {
      if a != p && b != p {
        assert DuringOk(box, a, b) && PairOk(box, a, b);
      } else if a != p {
        assert PopOk(box, a);
        RangePair(box, user, p, a);
      } else if b != p {
        assert PopOk(box, b);
        RangePair(box, user, p, b);
      }
    }
  }

  lemma RangeKeeps(box: Box, user: int, p: Popper)
    requires BoxOk(box) && p !in box.pops
    ensures BoxOk(Ranged(box, user, p))
  {
    RangeKeepsPops(box, user, p);
    RangeKeepsPairs(box, user, p);
    SameLists(box, Ranged(box, user, p));
    hide PopsOk, PairsOk, ListsOk, OwnersOk;
  }

  lemma SameLists(box: Box, t: Box)
    requires ListsOk(box) && OwnersOk(box) && t.offline == box.offline && t.logs == box.logs
    ensures ListsOk(t) && OwnersOk(t)
  {
    forall u ensures Suffix(t, u) { assert Suffix(box, u); }
    forall u, m | m in LogOf(t, u) ensures m.to == u { assert m in LogOf(box, u); }
  }

  lemma ListWithout(lists: MsgLists, user: int, u: int)
    ensures ListOf(lists - {user}, u) == if u == user then [] else ListOf(lists, u)
  {
  }

  lemma DeleteStart(box: Box, user: int, p: Popper, u: int)
    requires Suffix(box, u)
    ensures var t := Deleted(box, user, p);
            Suffix(t, u) && LogOf(t, u) == LogOf(box, u)
            && Start(t, u) == if u == user then |LogOf(box, u)| else Start(box, u)
  {
    ListWithout(box.offline, user, u);
    hide ListOf;
  }

  lemma DeleteKeepsPops(box: Box, user: int, p: Popper)
    requires ListsOk(box) && PopsOk(box) && Open(box, p, user)
    ensures PopsOk(Deleted(box, user, p))
  {
    hide ListsOk, Start, LogOf, Suffix;
    var t := Deleted(box, user, p);
    forall q | q in t.pops ensures PopOk(t, q) {
      var u := box.pops[q].user;
      assert PopOk(box, q);
      ListAt(box, u);
      DeleteStart(box, user, p, u);
    }
  }

  lemma DeleteKeeps(box: Box, user: int, p: Popper)
    requires BoxOk(box) && Open(box, p, user)
    ensures BoxOk(Deleted(box, user, p))
  {
    var t := Deleted(box, user, p);
    DeleteKeepsPops(box, user, p);
    DeleteKeepsPairs(box, user, p);
    hide PopsOk, PairsOk, Suffix, LogOf;
    forall u ensures Suffix(t, u) && LogOf(t, u) == LogOf(box, u) {
      ListAt(box, u);
      DeleteStart(box, user, p, u);
    }
  }

  lemma DeleteKeepsPairs(box: Box, user: int, p: Popper)
    requires PairsOk(box)
    ensures PairsOk(Deleted(box, user, p))
  {
    var t := Deleted(box, user, p);
    forall a, b | a in t.pops && b in t.pops ensures DuringOk(t, a, b) && PairOk(t, a, b) {
      assert DuringOk(box, a, b) && PairOk(box, a, b);
    }
  }

  // ---------- Each message is disposed of once ----------

  function LiveOf(writes: seq<Write>): multiset<Msg> {
    var n := |writes|;
    if n == 0 then multiset{} else LiveOf(writes[..n - 1]) + if writes[n - 1].live then multiset{writes[n - 1].msg} else multiset{}
  }

  /** What a session wrote from the offline list. */
  function OfflineBy(writes: seq<Write>, id: int): multiset<Msg> {
    var n := |writes|;
    if n == 0 then multiset{}
    else
      var w := writes[n - 1];
      OfflineBy(writes[..n - 1], id) + if !w.live && w.session == id then multiset{w.msg} else multiset{}
  }

  /** How a sender is done with a message. */
  function Disposed(past: History): multiset<Msg> {
    LiveOf(past.writes) + past.noSocket + past.liveFailed
  }

  /** How many times a message is with its sender, disposed of, or pushed. */
  function Places(s: State, m: Msg): nat {
    (if m in s.sends then 1 else 0) + Disposed(s.past)[m] + multiset(LogOf(s.box, m.to))[m]
  }

  /** An accepted message is with its sender, on a socket, lost on the way, or
      pushed once: in exactly one of these places; any other is in none. */
  ghost predicate Conserved(s: State) {
    forall m :: Places(s, m) == if m in s.past.accepted then 1 else 0
  }

  lemma LiveSnoc(writes: seq<Write>, w: Write)
    ensures LiveOf(writes + [w]) == LiveOf(writes) + if w.live then multiset{w.msg} else multiset{}
  {
    assert (writes + [w])[..|writes|] == writes;
  }

  lemma OfflineSnoc(writes: seq<Write>, w: Write, id: int)
    ensures OfflineBy(writes + [w], id)
            == OfflineBy(writes, id) + if !w.live && w.session == id then multiset{w.msg} else multiset{}
  {
    assert (writes + [w])[..|writes|] == writes;
  }

  lemma FramesSnoc(id: int, batch: seq<Msg>, m: Msg)
    ensures Frames(id, batch + [m]) == Frames(id, batch) + [Write(id, m, false)]
  {
    assert (batch + [m])[..|batch|] == batch;
  }

  /** A flushed batch goes out in its order, to its session. */
  lemma {:induction false} FramesAt(id: int, batch: seq<Msg>, k: nat)
    requires k < |batch|
    ensures |Frames(id, batch)| == |batch| && Frames(id, batch)[k] == Write(id, batch[k], false)
    decreases |batch|
  {
    var n := |batch| - 1;
    if k < n {
      FramesAt(id, batch[..n], k);
    } else if n > 0 {
      FramesAt(id, batch[..n], 0);
    }
  }

  lemma NoFrames(id: int)
    ensures Frames(id, []) == []
  {
  }

  /** A flushed batch is written by its session, and live frames stay as they were. */
  lemma {:induction false} FramesCount(writes: seq<Write>, id: int, batch: seq<Msg>, other: int)
    ensures LiveOf(writes + Frames(id, batch)) == LiveOf(writes)
    ensures OfflineBy(writes + Frames(id, batch), other)
            == OfflineBy(writes, other) + if other == id then multiset(batch) else multiset{}
    decreases |batch|
  {
    hide LiveOf, OfflineBy, Frames;
    if |batch| == 0 {
      NoFrames(id);
      assert writes + [] == writes;
    } else {
      var front, last := batch[..|batch| - 1], batch[|batch| - 1];
      var w, before := Write(id, last, false), writes + Frames(id, front);
      assert batch == front + [last];
      FramesCount(writes, id, front, other);
      FramesSnoc(id, front, last);
      assert writes + (Frames(id, front) + [w]) == before + [w];
      LiveSnoc(before, w);
      OfflineSnoc(before, w, other);
    }
  }

  lemma WrittenLiveDisposes(past: History, conns: Connections, m: Msg, ok: bool)
    ensures Disposed(WrittenLive(past, conns, m, ok)) == Disposed(past) + multiset{m}
    ensures WrittenLive(past, conns, m, ok).accepted == past.accepted
  {
    if m.to in conns {
      LiveSnoc(past.writes, Write(conns[m.to], m, true));
    }
    hide LiveOf;
  }

  lemma PushPlaces(box: Box, m: Msg, x: Msg)
    ensures multiset(LogOf(BoxPushed(box, m), x.to))[x] == multiset(LogOf(box, x.to))[x] + if x == m then 1 else 0
  {
    PushedLists(box.logs, m, x.to);
    hide Pushed, ListOf;
    if x.to == m.to {
      assert multiset(LogOf(box, x.to) + [m]) == multiset(LogOf(box, x.to)) + multiset{m};
    }
  }

  lemma PlacesSend(s: State, m: Msg, send: SendStep, x: Msg)
    requires CanSend(s, m, send) && (send.Accept? ==> m !in s.sends)
    ensures Places(AfterSend(s, m, send), x) == Places(s, x) + if send.Accept? && x == m then 1 else 0
  {
    hide Disposed, BoxPushed, LogOf, WrittenLive, IsOnline;
    match send
    case Accept => DisposedAccept(s.past, m);
    case CheckOnline =>
    case WriteLive(ok) => WrittenLiveDisposes(s.past, s.conns, m, ok);
    case PushOffline => PushPlaces(s.box, m, x);
  }

  lemma DisposedAccept(past: History, m: Msg)
    ensures Disposed(past.(accepted := past.accepted + {m})) == Disposed(past)
  {
  }

  lemma SendAccepts(s: State, m: Msg, send: SendStep)
    requires CanSend(s, m, send) && Conserved(s)
    ensures send.Accept? ==> m !in s.past.accepted && m !in s.sends
    ensures AfterSend(s, m, send).past.accepted == if send.Accept? then s.past.accepted + {m} else s.past.accepted
  {
    hide BoxPushed, IsOnline, Disposed, LogOf;
    assert Places(s, m) == if m in s.past.accepted then 1 else 0;
  }

  lemma ConservedSend(s: State, m: Msg, send: SendStep)
    requires CanSend(s, m, send) && Conserved(s)
    ensures Conserved(AfterSend(s, m, send))
  {
    hide Places, CanSend, WrittenLive, BoxPushed, IsOnline;
    SendAccepts(s, m, send);
    forall x ensures Places(AfterSend(s, m, send), x) == if x in AfterSend(s, m, send).past.accepted then 1 else 0 {
      assert Places(s, x) == if x in s.past.accepted then 1 else 0;
      assert Places(s, m) == if m in s.past.accepted then 1 else 0;
      PlacesSend(s, m, send, x);
    }
  }

  lemma FlushDisposes(past: History, id: int, batch: seq<Msg>, ok: bool)
    ensures Disposed(Flushed(past, id, batch, ok)) == Disposed(past)
    ensures Flushed(past, id, batch, ok).accepted == past.accepted
  {
    FramesCount(past.writes, id, batch, id);
    hide LiveOf, Frames;
  }

  lemma SessionDisposes(s: State, id: int, step: SessionStep)
    requires CanStep(s, id, step)
    ensures var t := AfterStep(s, id, step);
            t.sends == s.sends && t.past.accepted == s.past.accepted
            && Disposed(t.past) == Disposed(s.past) && t.box.logs == s.box.logs
  {
    hide OnlineSet, OpenPops, Late, Snapshot, LiveOf;
    if step.Flush? {
      FlushDisposes(s.past, id, s.sessions[id].phase.batch, step.ok);
      hide Flushed, Disposed;
    }
  }

  lemma CallDisposes(s: State, user: int, call: RemoteStep)
    requires CanCall(s, user, call)
    ensures var t := AfterCall(s, user, call);
            t.sends == s.sends && t.past.accepted == s.past.accepted
            && Disposed(t.past) == Disposed(s.past) && t.box.logs == s.box.logs
  {
    hide OnlineSet, OpenPops, Late, Snapshot, LiveOf;
  }

  lemma SamePlaces(s: State, t: State)
    requires Conserved(s) && t.sends == s.sends && t.past.accepted == s.past.accepted
    requires Disposed(t.past) == Disposed(s.past) && t.box.logs == s.box.logs
    ensures Conserved(t)
  {
    hide Disposed;
    forall x ensures Places(t, x) == if x in t.past.accepted then 1 else 0 {
      assert Places(s, x) == if x in s.past.accepted then 1 else 0;
    }
  }

  /** Every step keeps each accepted message in exactly one place. */
  lemma ConservedStep(s: State, e: Event)
    requires Enabled(s, e) && Conserved(s)
    ensures Conserved(Step(s, e))
  {
    hide Conserved, AfterSend, AfterStep, AfterCall, Disposed;
    match e
    case Tick => SamePlaces(s, Step(s, e));
    case Sender(m, send) => ConservedSend(s, m, send);
    case InSession(id, step) =>
      SessionDisposes(s, id, step);
      SamePlaces(s, Step(s, e));
    case Remote(user, call) =>
      CallDisposes(s, user, call);
      SamePlaces(s, Step(s, e));
  }

  // ---------- What a session does with what it popped ----------

  predicate Taken(box: Box, p: Popper, user: int) {
    p in box.pops && box.pops[p].user == user && box.pops[p].done
  }

  /** A session pops once, holds what it read until it flushes, and writes all of
      that or, if the flush fails, nothing. */
  predicate SessionOk(s: State, id: int) {
    var p, wrote := BySession(id), OfflineBy(s.past.writes, id);
    if id !in s.sessions then p !in s.box.pops && wrote == multiset{} && id !in s.past.failed
    else
      var user := s.sessions[id].user;
      match s.sessions[id].phase
      case Connected => p !in s.box.pops && wrote == multiset{} && id !in s.past.failed
      case Online => p !in s.box.pops && wrote == multiset{} && id !in s.past.failed
      case Registered => p !in s.box.pops && wrote == multiset{} && id !in s.past.failed
      case Popping => Open(s.box, p, user) && wrote == multiset{} && id !in s.past.failed
      case Holding(batch) =>
        Taken(s.box, p, user) && batch == s.box.pops[p].snapshot && wrote == multiset{} && id !in s.past.failed
      case _ =>
        Taken(s.box, p, user)
        && wrote == if id in s.past.failed then multiset{} else multiset(s.box.pops[p].snapshot)
  }

  ghost predicate SessionsOk(s: State) {
    forall id :: SessionOk(s, id)
  }

  /** Nothing about a session changes but by its own steps. */
  predicate SameFor(s: State, t: State, id: int) {
    && (id in t.sessions <==> id in s.sessions)
    && (id in s.sessions ==> t.sessions[id].phase == s.sessions[id].phase && t.sessions[id].user == s.sessions[id].user)
    && (BySession(id) in t.box.pops <==> BySession(id) in s.box.pops)
    && (BySession(id) in s.box.pops ==> t.box.pops[BySession(id)] == s.box.pops[BySession(id)])
    && OfflineBy(t.past.writes, id) == OfflineBy(s.past.writes, id)
    && (id in t.past.failed <==> id in s.past.failed)
  }

  lemma SameKeeps(s: State, t: State, id: int)
    requires SessionOk(s, id) && SameFor(s, t, id)
    ensures SessionOk(t, id)
  {
    hide OfflineBy;
  }

  lemma SendSame(s: State, m: Msg, send: SendStep, id: int)
    requires CanSend(s, m, send)
    ensures SameFor(s, AfterSend(s, m, send), id)
  {
    hide OfflineBy, Pushed, IsOnline, CanSend;
    if send.WriteLive? {
      LiveSame(s.past, s.conns, m, send.ok, id);
      hide WrittenLive;
    }
  }

  lemma LiveSame(past: History, conns: Connections, m: Msg, ok: bool, id: int)
    ensures var t := WrittenLive(past, conns, m, ok);
            t.failed == past.failed && OfflineBy(t.writes, id) == OfflineBy(past.writes, id)
  {
    if m.to in conns {
      OfflineSnoc(past.writes, Write(conns[m.to], m, true), id);
    }
    hide OfflineBy;
  }

  lemma CallSame(s: State, user: int, call: RemoteStep, id: int)
    requires CanCall(s, user, call)
    ensures SameFor(s, AfterCall(s, user, call), id)
  {
    hide OfflineBy, OnlineSet, Late, OpenPops;
  }

  lemma FlushSame(past: History, id: int, batch: seq<Msg>, ok: bool, other: int)
    ensures var t := Flushed(past, id, batch, ok);
            && (other in t.failed <==> other in past.failed || (other == id && !ok))
            && OfflineBy(t.writes, other)
               == OfflineBy(past.writes, other) + if other == id && ok then multiset(batch) else multiset{}
  {
    FramesCount(past.writes, id, batch, other);
    hide OfflineBy, Frames;
  }

  lemma PopsOnly(box: Box, user: int, p: Popper, q: Popper)
    requires q != p
    ensures (q in Ranged(box, user, p).pops <==> q in box.pops) && (q in Deleted(box, user, p).pops <==> q in box.pops)
    ensures q in box.pops ==> Ranged(box, user, p).pops[q] == box.pops[q] && Deleted(box, user, p).pops[q] == box.pops[q]
  {
    hide OpenPops, Start, ListOf;
  }

  lemma StepSame(s: State, id: int, step: SessionStep, other: int)
    requires CanStep(s, id, step) && other != id
    ensures SameFor(s, AfterStep(s, id, step), other)
  {
    hide OnlineSet, Late, Ranged, Deleted, Flushed, OfflineBy, Snapshot;
    PopsOnly(s.box, SessionAfter(s, id, step).user, BySession(id), BySession(other));
    if step.Flush? {
      FlushSame(s.past, id, s.sessions[id].phase.batch, step.ok, other);
    }
  }

  lemma OwnPops(box: Box, user: int, p: Popper)
    ensures Open(Ranged(box, user, p), p, user)
    ensures Open(box, p, user) ==>
              Taken(Deleted(box, user, p), p, user) && Deleted(box, user, p).pops[p].snapshot == Snapshot(box, p)
  {
    hide OpenPops, Start, ListOf;
  }

  lemma OwnPop(s: State, id: int, step: SessionStep)
    requires CanStep(s, id, step) && SessionOk(s, id) && (step.PopRange? || step.PopDel?)
    ensures SessionOk(AfterStep(s, id, step), id)
  {
    hide Late, Ranged, Deleted, OfflineBy;
    OwnPops(s.box, SessionAfter(s, id, step).user, BySession(id));
  }

  lemma OwnFlush(s: State, id: int, ok: bool)
    requires CanStep(s, id, Flush(ok)) && SessionOk(s, id)
    ensures SessionOk(AfterStep(s, id, Flush(ok)), id)
  {
    hide OfflineBy, Flushed;
    FlushSame(s.past, id, s.sessions[id].phase.batch, ok, id);
  }

  lemma OwnStep(s: State, id: int, step: SessionStep)
    requires CanStep(s, id, step) && SessionOk(s, id)
    ensures SessionOk(AfterStep(s, id, step), id)
  {
    hide OnlineSet, OfflineBy;
    if step.PopRange? || step.PopDel? {
      OwnPop(s, id, step);
      hide AfterStep, SessionOk;
    } else if step.Flush? {
      OwnFlush(s, id, step.ok);
      hide AfterStep, SessionOk;
    }
  }

  lemma SessionsStep(s: State, e: Event)
    requires Enabled(s, e) && SessionsOk(s)
    ensures SessionsOk(Step(s, e))
  {
    hide SessionOk, SameFor, AfterSend, AfterStep, AfterCall;
    var t := Step(s, e);
    forall id ensures SessionOk(t, id) {
      assert SessionOk(s, id);
      match e
      case Tick =>
        TickSame(s, id);
        SameKeeps(s, t, id);
      case Sender(m, send) =>
        SendSame(s, m, send, id);
        SameKeeps(s, t, id);
      case InSession(own, step) =>
        if own == id {
          OwnStep(s, id, step);
        } else {
          StepSame(s, own, step, id);
          SameKeeps(s, t, id);
        }
      case Remote(user, call) =>
        CallSame(s, user, call, id);
        SameKeeps(s, t, id);
    }
  }

  lemma TickSame(s: State, id: int)
    ensures SameFor(s, s.(now := s.now + 1), id)
  {
    hide OfflineBy;
  }

  lemma BoxStep(s: State, e: Event)
    requires Enabled(s, e) && SessionsOk(s) && BoxOk(s.box)
    ensures BoxOk(Step(s, e).box)
  {
    hide BoxOk, Ranged, Deleted, BoxPushed;
    match e
    case Tick =>
    case Sender(m, send) => if send.PushOffline? { PushKeeps(s.box, m); }
    case InSession(id, step) =>
      assert SessionOk(s, id);
      var user := SessionAfter(s, id, step).user;
      if step.PopRange? { RangeKeeps(s.box, user, BySession(id)); }
      if step.PopDel? { DeleteKeeps(s.box, user, BySession(id)); }
    case Remote(user, call) =>
      if call.PullRange? { RangeKeeps(s.box, user, ByPull(call.id)); }
      if call.PullDel? { DeleteKeeps(s.box, user, ByPull(call.id)); }
  }

  // ---------- Addressing ----------

  predicate Addressed(sessions: map<int, Session>, w: Write) {
    w.session in sessions && !sessions[w.session].phase.Connected? && sessions[w.session].user == w.msg.to
  }

  /** Every frame went to a session of its recipient. */
  predicate WritesOk(s: State) {
    forall w :: w in s.past.writes ==> Addressed(s.sessions, w)
  }

  lemma {:induction false} FramesAddressed(id: int, batch: seq<Msg>, w: Write)
    requires w in Frames(id, batch)
    ensures w.session == id && w.msg in batch
    decreases |batch|
  {
    if w in Frames(id, batch[..|batch| - 1]) {
      FramesAddressed(id, batch[..|batch| - 1], w);
    }
  }

  lemma SnapshotOwned(box: Box, p: Popper, m: Msg)
    requires BoxOk(box) && p in box.pops && m in box.pops[p].snapshot
    ensures m.to == box.pops[p].user && m in LogOf(box, m.to)
  {
    hide ListsOk, PairsOk, Start, ListOf;
    assert PopOk(box, p);
    assert m in LogOf(box, box.pops[p].user);
  }

  lemma WritesStep(s: State, e: Event)
    requires Enabled(s, e) && BoxOk(s.box) && RoutingOk(s.conns, s.sessions) && SessionsOk(s) && WritesOk(s)
    ensures WritesOk(Step(s, e))
  {
    hide BoxOk, SessionsOk, BoxPushed, Ranged, Late, OnlineSet, IsOnline;
    match e
    case Tick =>
    case Sender(m, send) => assert m.to in s.conns ==> Routed(s.sessions, m.to, s.conns[m.to]);
    case InSession(id, step) => WritesSession(s, id, step);
    case Remote(user, call) =>
  }

  /** What a session's step does to the sessions and the frames. */
  lemma StepParts(s: State, id: int, step: SessionStep)
    requires CanStep(s, id, step)
    ensures var t := AfterStep(s, id, step);
            && t.sessions == s.sessions[id := SessionAfter(s, id, step)]
            && t.past.writes == if step.Flush? && step.ok then s.past.writes + Frames(id, s.sessions[id].phase.batch)
                                else s.past.writes
  {
    hide Ranged, Deleted, Late, OnlineSet, Frames, Snapshot;
  }

  lemma AddressedStays(s: State, id: int, step: SessionStep, w: Write)
    requires CanStep(s, id, step) && Addressed(s.sessions, w)
    ensures Addressed(s.sessions[id := SessionAfter(s, id, step)], w)
  {
    hide Snapshot;
  }

  lemma BatchAddressed(s: State, id: int, w: Write)
    requires BoxOk(s.box) && SessionOk(s, id) && id in s.sessions && s.sessions[id].phase.Holding?
    requires w in Frames(id, s.sessions[id].phase.batch)
    ensures Addressed(s.sessions, w)
  {
    hide BoxOk, OfflineBy, Frames;
    FramesAddressed(id, s.sessions[id].phase.batch, w);
    SnapshotOwned(s.box, BySession(id), w.msg);
  }

  lemma WritesSession(s: State, id: int, step: SessionStep)
    requires CanStep(s, id, step) && BoxOk(s.box) && SessionsOk(s) && WritesOk(s)
    ensures WritesOk(AfterStep(s, id, step))
  {
    assert SessionOk(s, id);
    StepParts(s, id, step);
    hide BoxOk, SessionsOk, SessionOk, AfterStep, Frames, Addressed, SessionAfter;
    var t := AfterStep(s, id, step);
    forall w | w in t.past.writes ensures Addressed(t.sessions, w) {
      if w !in s.past.writes {
        BatchAddressed(s, id, w);
      }
      AddressedStays(s, id, step, w);
    }
  }

  // ---------- Whole runs ----------

  ghost predicate Inv(s: State) {
    && RoutingOk(s.conns, s.sessions)
    && BoxOk(s.box)
    && Conserved(s)
    && SessionsOk(s)
    && WritesOk(s)
  }

  lemma InvNext(s: State, e: Event)
    requires Inv(s)
    ensures Inv(Next(s, e))
  {
    hide RoutingOk, BoxOk, Conserved, SessionsOk, WritesOk, Step;
    if Enabled(s, e) {
      RoutingStep(s, e);
      BoxStep(s, e);
      ConservedStep(s, e);
      SessionsStep(s, e);
      WritesStep(s, e);
    }
  }

  lemma {:induction false} InvRun(s: State, events: seq<Event>)
    requires Inv(s)
    ensures Inv(Run(s, events))
    decreases |events|
  {
    hide Inv, Next;
    if |events| > 0 {
      InvNext(s, events[0]);
      InvRun(Next(s, events[0]), events[1..]);
    }
  }

  lemma InvStart()
    ensures Inv(START)
  {
  }

  /** In every reachable state, with any number of sessions per user, no entry of
      the connection map is stale. */
  lemma NoStaleSession(events: seq<Event>, user: int)
    requires user in Run(START, events).conns
    ensures var s := Run(START, events);
            var id := s.conns[user];
            id in s.sessions && s.sessions[id].user == user && InMap(s.sessions[id].phase)
  {
    InvStart();
    InvRun(START, events);
    hide Run, BoxOk, Conserved, SessionsOk, WritesOk;
    assert Routed(Run(START, events).sessions, user, Run(START, events).conns[user]);
  }

  // ---------- At most once, but for overlapping pops ----------

  lemma CountedTwice(s: seq<Msg>, i: nat, j: nat)
    requires i < j < |s| && s[i] == s[j]
    ensures multiset(s)[s[i]] >= 2
  {
    assert s == s[..j] + [s[j]] + s[j + 1..];
    assert s[i] in s[..j];
  }

  /** A pushed message has one place in its log and is nowhere else. */
  lemma LoggedOnce(s: State, m: Msg)
    requires Conserved(s) && m in LogOf(s.box, m.to)
    ensures m in s.past.accepted && m !in s.sends && Disposed(s.past)[m] == 0
    ensures var log := LogOf(s.box, m.to);
            forall i, j :: 0 <= i < |log| && 0 <= j < |log| && log[i] == m && log[j] == m ==> i == j
  {
    hide Disposed;
    assert Places(s, m) == if m in s.past.accepted then 1 else 0;
    var log := LogOf(s.box, m.to);
    hide LogOf;
    forall i, j | 0 <= i < |log| && 0 <= j < |log| && log[i] == m && log[j] == m ensures i == j {
      if i < j { CountedTwice(log, i, j); }
      if j < i { CountedTwice(log, j, i); }
    }
  }

  /** One pop reads everything that the other has read. */
  predicate ReadAgain(box: Box, p: Popper, q: Popper)
    requires p in box.pops && q in box.pops
  {
    p in box.pops[q].during && box.pops[p].from == box.pops[q].from && box.pops[p].snapshot != []
  }

  /** On one stretch of log, with the message at one place, the two stretches
      cannot lie apart. */
  lemma ShareIsNotApart(log: seq<Msg>, a: Pop, b: Pop, m: Msg)
    requires a.from + |a.snapshot| <= |log| && a.snapshot == log[a.from..a.from + |a.snapshot|]
    requires b.from + |b.snapshot| <= |log| && b.snapshot == log[b.from..b.from + |b.snapshot|]
    requires forall i, j :: 0 <= i < |log| && 0 <= j < |log| && log[i] == m && log[j] == m ==> i == j
    requires m in a.snapshot && m in b.snapshot
    ensures !Before(a, b) && !Before(b, a)
  {
    var i :| 0 <= i < |a.snapshot| && a.snapshot[i] == m;
    var j :| 0 <= j < |b.snapshot| && b.snapshot[j] == m;
    assert log[a.from + i] == m && log[b.from + j] == m;
  }

  lemma Stretch(box: Box, p: Popper)
    requires BoxOk(box) && p in box.pops
    ensures var pop := box.pops[p];
            var log, end := LogOf(box, pop.user), pop.from + |pop.snapshot|;
            end <= |log| && pop.snapshot == log[pop.from..end]
  {
    assert PopOk(box, p);
  }

  lemma PairAt(box: Box, p: Popper, q: Popper)
    requires BoxOk(box) && p in box.pops && q in box.pops
    ensures DuringOk(box, p, q) && DuringOk(box, q, p) && PairOk(box, p, q)
  {
  }

  lemma ShareIsReadAgain(s: State, p: Popper, q: Popper, m: Msg)
    requires Conserved(s) && BoxOk(s.box) && p in s.box.pops && q in s.box.pops && p != q
    requires m in s.box.pops[p].snapshot && m in s.box.pops[q].snapshot
    ensures ReadAgain(s.box, p, q) || ReadAgain(s.box, q, p)
  {
    hide Conserved, BoxOk, LogOf, Before;
    SnapshotOwned(s.box, p, m);
    SnapshotOwned(s.box, q, m);
    LoggedOnce(s, m);
    Stretch(s.box, p);
    Stretch(s.box, q);
    PairAt(s.box, p, q);
    ShareIsNotApart(LogOf(s.box, m.to), s.box.pops[p], s.box.pops[q], m);
  }

  lemma ReadAgainShares(box: Box, p: Popper, q: Popper)
    requires BoxOk(box) && p in box.pops && q in box.pops && ReadAgain(box, p, q)
    ensures box.pops[p].snapshot <= box.pops[q].snapshot
  {
    assert PopOk(box, p) && PopOk(box, q) && DuringOk(box, p, q);
    hide ListsOk, OwnersOk, PopsOk, PairsOk, LogOf, Start;
  }

  /** Two pops read a message in common if and only if one began while the other
      was under way, nothing had been deleted in between, and the other had read
      something; then the later pop reads all of that again. */
  lemma SharedExactly(events: seq<Event>, p: Popper, q: Popper)
    requires var box := Run(START, events).box; p in box.pops && q in box.pops && p != q
    ensures var box := Run(START, events).box;
            && ((exists m :: m in box.pops[p].snapshot && m in box.pops[q].snapshot)
                  <==> ReadAgain(box, p, q) || ReadAgain(box, q, p))
            && (ReadAgain(box, p, q) ==> box.pops[p].snapshot <= box.pops[q].snapshot)
  {
    InvStart();
    InvRun(START, events);
    var s := Run(START, events);
    hide Run, BoxOk, Conserved, SessionsOk, WritesOk, RoutingOk;
    var a, b := s.box.pops[p], s.box.pops[q];
    forall m | m in a.snapshot && m in b.snapshot ensures ReadAgain(s.box, p, q) || ReadAgain(s.box, q, p) {
      ShareIsReadAgain(s, p, q, m);
    }
    if ReadAgain(s.box, p, q) {
      ReadAgainShares(s.box, p, q);
      assert a.snapshot[0] in b.snapshot;
    }
    if ReadAgain(s.box, q, p) {
      ReadAgainShares(s.box, q, p);
      assert b.snapshot[0] in a.snapshot;
    }
  }

  lemma {:induction false} LiveHas(writes: seq<Write>, i: nat)
    requires i < |writes| && writes[i].live
    ensures LiveOf(writes)[writes[i].msg] >= 1
    decreases |writes|
  {
    if i < |writes| - 1 {
      LiveHas(writes[..|writes| - 1], i);
    }
  }

  lemma {:induction false} LiveTwice(writes: seq<Write>, i: nat, j: nat)
    requires i < j < |writes| && writes[i].live && writes[j].live && writes[i].msg == writes[j].msg
    ensures LiveOf(writes)[writes[i].msg] >= 2
    decreases |writes|
  {
    var front := writes[..|writes| - 1];
    if j == |writes| - 1 {
      LiveHas(front, i);
    } else {
      LiveTwice(front, i, j);
    }
  }

  lemma {:induction false} OfflineHas(writes: seq<Write>, i: nat)
    requires i < |writes| && !writes[i].live
    ensures OfflineBy(writes, writes[i].session)[writes[i].msg] >= 1
    decreases |writes|
  {
    if i < |writes| - 1 {
      OfflineHas(writes[..|writes| - 1], i);
    }
  }

  lemma {:induction false} OfflineTwice(writes: seq<Write>, i: nat, j: nat)
    requires i < j < |writes| && !writes[i].live && !writes[j].live
    requires writes[i].msg == writes[j].msg && writes[i].session == writes[j].session
    ensures OfflineBy(writes, writes[i].session)[writes[i].msg] >= 2
    decreases |writes|
  {
    var front := writes[..|writes| - 1];
    if j == |writes| - 1 {
      OfflineHas(front, i);
    } else {
      OfflineTwice(front, i, j);
    }
  }

  lemma LiveNotLogged(s: State, i: nat)
    requires Conserved(s) && i < |s.past.writes| && s.past.writes[i].live
    ensures s.past.writes[i].msg !in LogOf(s.box, s.past.writes[i].msg.to)
  {
    var m := s.past.writes[i].msg;
    LiveHas(s.past.writes, i);
    hide LiveOf, LogOf;
    assert Places(s, m) == if m in s.past.accepted then 1 else 0;
    assert Disposed(s.past)[m] >= 1;
  }

  /** A frame from the offline list holds what its session's pop read. */
  lemma OfflineIsPopped(s: State, i: nat)
    requires SessionsOk(s) && BoxOk(s.box) && i < |s.past.writes| && !s.past.writes[i].live
    ensures var w := s.past.writes[i];
            && Taken(s.box, BySession(w.session), w.msg.to)
            && w.msg in s.box.pops[BySession(w.session)].snapshot && w.msg in LogOf(s.box, w.msg.to)
            && OfflineBy(s.past.writes, w.session) == multiset(s.box.pops[BySession(w.session)].snapshot)
  {
    var w := s.past.writes[i];
    assert SessionOk(s, w.session);
    OfflineHas(s.past.writes, i);
    hide OfflineBy, BoxOk, LogOf;
    var pop := s.box.pops[BySession(w.session)];
    assert w.msg in multiset(pop.snapshot);
    SnapshotOwned(s.box, BySession(w.session), w.msg);
  }

  lemma StretchCount(log: seq<Msg>, from: nat, end: nat, m: Msg)
    requires from <= end <= |log|
    ensures multiset(log[from..end])[m] <= multiset(log)[m]
  {
    assert log == log[..from] + log[from..end] + log[end..];
    assert multiset(log) == multiset(log[..from]) + multiset(log[from..end]) + multiset(log[end..]);
  }

  lemma LoggedAtMostOnce(s: State, m: Msg)
    requires Conserved(s)
    ensures multiset(LogOf(s.box, m.to))[m] <= 1
  {
    hide Disposed, LogOf;
    assert Places(s, m) == if m in s.past.accepted then 1 else 0;
  }

  lemma ReadOnce(s: State, p: Popper, m: Msg)
    requires Conserved(s) && BoxOk(s.box) && p in s.box.pops && m in s.box.pops[p].snapshot
    ensures multiset(s.box.pops[p].snapshot)[m] <= 1
  {
    hide Conserved, BoxOk, LogOf;
    var pop := s.box.pops[p];
    SnapshotOwned(s.box, p, m);
    Stretch(s.box, p);
    LoggedAtMostOnce(s, m);
    StretchCount(LogOf(s.box, m.to), pop.from, pop.from + |pop.snapshot|, m);
  }

  /** Two frames with the same message: both from the offline list, by two sessions
      whose pops overlapped. */
  lemma FramesApart(s: State, i: nat, j: nat)
    requires Conserved(s) && BoxOk(s.box) && SessionsOk(s)
    requires i < j < |s.past.writes| && s.past.writes[i].msg == s.past.writes[j].msg
    ensures var v, w := s.past.writes[i], s.past.writes[j];
            && !v.live && !w.live && v.session != w.session
            && Taken(s.box, BySession(v.session), v.msg.to) && Taken(s.box, BySession(w.session), v.msg.to)
            && Overlapped(s.box, BySession(v.session), BySession(w.session))
  {
    hide Conserved, BoxOk, SessionsOk, OfflineBy, LogOf;
    var v, w := s.past.writes[i], s.past.writes[j];
    if v.live && w.live {
      LiveTwice(s.past.writes, i, j);
      LiveOnce(s, v.msg);
    }
    if v.live { LiveNotLogged(s, i); } else { OfflineIsPopped(s, i); }
    if w.live { LiveNotLogged(s, j); } else { OfflineIsPopped(s, j); }
    if v.session == w.session {
      OfflineTwice(s.past.writes, i, j);
      ReadOnce(s, BySession(v.session), v.msg);
    } else {
      ShareIsReadAgain(s, BySession(v.session), BySession(w.session), v.msg);
    }
  }

  lemma LiveOnce(s: State, m: Msg)
    requires Conserved(s)
    ensures LiveOf(s.past.writes)[m] <= 1
  {
    hide LiveOf, LogOf;
    assert Places(s, m) == if m in s.past.accepted then 1 else 0;
    assert Disposed(s.past)[m] >= LiveOf(s.past.writes)[m];
  }

  /** A frame with a message that a remote caller was handed too: again from the
      offline list, and the two pops overlapped. */
  lemma FrameAndPull(s: State, i: nat, p: Popper)
    requires Conserved(s) && BoxOk(s.box) && SessionsOk(s)
    requires i < |s.past.writes| && p.ByPull? && p in s.box.pops && s.past.writes[i].msg in s.box.pops[p].snapshot
    ensures var w := s.past.writes[i];
            !w.live && Taken(s.box, BySession(w.session), w.msg.to) && Overlapped(s.box, BySession(w.session), p)
  {
    hide Conserved, BoxOk, SessionsOk, OfflineBy, LogOf;
    var w := s.past.writes[i];
    SnapshotOwned(s.box, p, w.msg);
    if w.live { LiveNotLogged(s, i); } else { OfflineIsPopped(s, i); }
    ShareIsReadAgain(s, BySession(w.session), p, w.msg);
  }

  /** Whatever the interleaving, a message is written to one socket once or handed
      to one remote caller once, except by pops of its list that overlapped; and
      each frame goes to a session of its recipient. */
  lemma AtMostOnce(events: seq<Event>)
    ensures var s := Run(START, events);
            && (forall i, j :: 0 <= i < j < |s.past.writes| && s.past.writes[i].msg == s.past.writes[j].msg ==>
                  var p, q := BySession(s.past.writes[i].session), BySession(s.past.writes[j].session);
                  && !s.past.writes[i].live && !s.past.writes[j].live
                  && p != q && p in s.box.pops && q in s.box.pops && Overlapped(s.box, p, q))
            && (forall i, q :: 0 <= i < |s.past.writes| && q in s.box.pops && q.ByPull?
                               && s.past.writes[i].msg in s.box.pops[q].snapshot ==>
                  var p := BySession(s.past.writes[i].session);
                  !s.past.writes[i].live && p in s.box.pops && Overlapped(s.box, p, q))
            && WritesOk(s)
  {
    InvStart();
    InvRun(START, events);
    var s := Run(START, events);
    hide Run, WritesOk, BoxOk, SessionsOk, RoutingOk, Conserved;
    forall i, j | 0 <= i < j < |s.past.writes| && s.past.writes[i].msg == s.past.writes[j].msg
      ensures var p, q := BySession(s.past.writes[i].session), BySession(s.past.writes[j].session);
              && !s.past.writes[i].live && !s.past.writes[j].live
              && p != q && p in s.box.pops && q in s.box.pops && Overlapped(s.box, p, q)
    {
      FramesApart(s, i, j);
    }
    forall i, q | 0 <= i < |s.past.writes| && q in s.box.pops && q.ByPull?
                  && s.past.writes[i].msg in s.box.pops[q].snapshot
      ensures var p := BySession(s.past.writes[i].session);
              !s.past.writes[i].live && p in s.box.pops && Overlapped(s.box, p, q)
    {
      FrameAndPull(s, i, q);
    }
  }

  lemma RunFour(s: State, a: Event, b: Event, c: Event, d: Event)
    ensures Run(s, [a, b, c, d]) == Next(Next(Next(Next(s, a), b), c), d)
  {
    hide Next;
    var e := [a, b, c, d];
    assert e[1..] == [b, c, d] && [b, c, d][1..] == [c, d] && [c, d][1..] == [d] && [d][1..] == [];
    var t := Next(Next(s, a), b);
    assert Run(s, e) == Run(t, [c, d]);
    assert Run(t, [c, d]) == Run(Next(Next(t, c), d), []);
  }

  lemma PullBoxes(s: State, user: int, id: int)
    ensures ByPull(id) !in s.box.pops ==> Next(s, Remote(user, PullRange(id))).box == Ranged(s.box, user, ByPull(id))
    ensures Open(s.box, ByPull(id), user) ==> Next(s, Remote(user, PullDel(id))).box == Deleted(s.box, user, ByPull(id))
  {
    hide Ranged, Deleted, Late;
  }

  lemma BoxReadTwice(box: Box, user: int, p: Popper, q: Popper)
    requires p != q && p !in box.pops && q !in box.pops
    ensures var b1 := Ranged(box, user, p); var b2 := Ranged(b1, user, q);
            var b3 := Deleted(b2, user, p); var b4 := Deleted(b3, user, q);
            && q !in b1.pops && Open(b2, p, user) && Open(b3, q, user)
            && Taken(b4, p, user) && b4.pops[p].snapshot == ListOf(box.offline, user)
            && Taken(b4, q, user) && b4.pops[q].snapshot == ListOf(box.offline, user)
  {
    hide OpenPops, Start, ListOf;
  }

  /** So overlapping is needed, and it is enough: in any state, two pulls that both
      read before either deletes are both handed the whole list. */
  lemma OverlapRepeats(s: State, user: int, a: int, b: int)
    requires a != b && ByPull(a) !in s.box.pops && ByPull(b) !in s.box.pops
    ensures var box := Run(s, [Remote(user, PullRange(a)), Remote(user, PullRange(b)),
                               Remote(user, PullDel(a)), Remote(user, PullDel(b))]).box;
            && Taken(box, ByPull(a), user) && box.pops[ByPull(a)].snapshot == ListOf(s.box.offline, user)
            && Taken(box, ByPull(b), user) && box.pops[ByPull(b)].snapshot == ListOf(s.box.offline, user)
  {
    hide Next, Run, Ranged, Deleted, ListOf;
    RunFour(s, Remote(user, PullRange(a)), Remote(user, PullRange(b)), Remote(user, PullDel(a)), Remote(user, PullDel(b)));
    var s1 := Next(s, Remote(user, PullRange(a)));
    var s2 := Next(s1, Remote(user, PullRange(b)));
    var s3 := Next(s2, Remote(user, PullDel(a)));
    BoxReadTwice(s.box, user, ByPull(a), ByPull(b));
    PullBoxes(s, user, a);
    PullBoxes(s1, user, b);
    PullBoxes(s2, user, a);
    PullBoxes(s3, user, b);
  }

  // ---------- Exactly once ----------

  /** A step that loses nothing: a live write finds its socket and succeeds, a
      flush succeeds, and a DEL deletes only what its pop has read. */
  predicate Lossless(s: State, e: Event)
    requires Enabled(s, e)
  {
    match e
    case Tick => true
    case Sender(m, send) => send.WriteLive? ==> m.to in s.conns && send.ok
    case InSession(id, step) =>
      && (step.Flush? && !step.ok ==> s.sessions[id].phase.batch == [])
      && (step.PopDel? ==> Late(s.box, s.sessions[id].user, BySession(id)) == multiset{})
    case Remote(user, call) => call.PullDel? ==> Late(s.box, user, ByPull(call.id)) == multiset{}
  }

  function Lost(past: History): multiset<Msg> {
    past.noSocket + past.liveFailed + past.flushFailed + past.dropped
  }

  lemma MoreLost(past: History, more: multiset<Msg>)
    ensures Lost(past) + more == Lost(past) <==> more == multiset{}
  {
    hide Lost;
    if more != multiset{} {
      var m :| m in more;
      assert (Lost(past) + more)[m] > Lost(past)[m];
    }
  }

  /** How much a step loses. */
  function LossOf(s: State, e: Event): multiset<Msg>
    requires Enabled(s, e)
  {
    match e
    case Tick => multiset{}
    case Sender(m, send) => if send.WriteLive? && !(m.to in s.conns && send.ok) then multiset{m} else multiset{}
    case InSession(id, step) =>
      if step.Flush? && !step.ok then multiset(s.sessions[id].phase.batch)
      else if step.PopDel? then Late(s.box, s.sessions[id].user, BySession(id))
      else multiset{}
    case Remote(user, call) => if call.PullDel? then Late(s.box, user, ByPull(call.id)) else multiset{}
  }

  lemma LossAdds(s: State, e: Event)
    requires Enabled(s, e)
    ensures Lost(Step(s, e).past) == Lost(s.past) + LossOf(s, e)
  {
    hide Late, Ranged, Deleted, BoxPushed, OnlineSet, IsOnline, Frames, Snapshot;
    match e
    case Tick =>
    case Sender(m, send) => LossSend(s, m, send);
    case InSession(id, step) => LossSession(s, id, step);
    case Remote(user, call) =>
  }

  lemma LossSend(s: State, m: Msg, send: SendStep)
    requires CanSend(s, m, send)
    ensures Lost(AfterSend(s, m, send).past) == Lost(s.past) + LossOf(s, Sender(m, send))
  {
    hide BoxPushed, IsOnline;
  }

  lemma LossSession(s: State, id: int, step: SessionStep)
    requires CanStep(s, id, step)
    ensures Lost(AfterStep(s, id, step).past) == Lost(s.past) + LossOf(s, InSession(id, step))
  {
    hide Late, Ranged, Deleted, OnlineSet, Frames, Snapshot;
  }

  /** These are all the ways to lose a message, and each does lose one. */
  lemma LossExactly(s: State, e: Event)
    requires Enabled(s, e)
    ensures Lost(Step(s, e).past) == Lost(s.past) <==> Lossless(s, e)
    ensures Lost(s.past) <= Lost(Step(s, e).past)
  {
    hide Lost, Step, Late;
    LossAdds(s, e);
    MoreLost(s.past, LossOf(s, e));
    if e.InSession? && e.step.Flush? {
      assert multiset(s.sessions[e.id].phase.batch) == multiset{} <==> s.sessions[e.id].phase.batch == [] by {
        EmptyBatch(s.sessions[e.id].phase.batch);
      }
    }
  }

  lemma EmptyBatch(batch: seq<Msg>)
    ensures multiset(batch) == multiset{} <==> batch == []
  {
    if batch != [] {
      assert batch[0] in multiset(batch);
    }
  }

  predicate LosslessRun(s: State, events: seq<Event>)
    decreases |events|
  {
    |events| == 0 ||
    ((Enabled(s, events[0]) ==> Lossless(s, events[0])) && LosslessRun(Next(s, events[0]), events[1..]))
  }

  lemma {:induction false} LosesNothingExactly(s: State, events: seq<Event>)
    ensures Lost(s.past) <= Lost(Run(s, events).past)
    ensures Lost(Run(s, events).past) == Lost(s.past) <==> LosslessRun(s, events)
    decreases |events|
  {
    hide Lost, Lossless, Step, Enabled;
    if |events| > 0 {
      if Enabled(s, events[0]) {
        LossExactly(s, events[0]);
      }
      LosesNothingExactly(Next(s, events[0]), events[1..]);
    }
  }

  // ---------- Runs without overlapping pops ----------

  /** No two pops of this user's list overlapped. */
  predicate NoOverlap(box: Box, owner: int) {
    forall p :: p in box.pops && box.pops[p].user == owner ==> box.pops[p].during == {}
  }

  /** One pop at a time on the list, and it has read the list as it stands. */
  predicate SerialOk(box: Box, owner: int) {
    forall p :: p in box.pops && Open(box, p, owner) ==>
      && box.pops[p].from == Start(box, owner)
      && (forall q :: q in box.pops && Open(box, q, owner) ==> q == p)
  }

  predicate Read(box: Box, m: Msg) {
    exists p :: p in box.pops && m in box.pops[p].snapshot
  }

  /** Pushed, and deleted since. */
  predicate Gone(box: Box, m: Msg) {
    m in LogOf(box, m.to)[..Start(box, m.to)]
  }

  /** What has been deleted was read by a pop or dropped, not both. */
  predicate CoverOk(box: Box, dropped: multiset<Msg>, m: Msg) {
    && (Gone(box, m) ==> (m in dropped <==> !Read(box, m)))
    && (m in dropped ==> Gone(box, m))
  }

  predicate FailedFor(box: Box, past: History, id: int) {
    id in past.failed ==> BySession(id) in box.pops && multiset(box.pops[BySession(id)].snapshot) <= past.flushFailed
  }

  predicate FailedBy(box: Box, past: History, m: Msg) {
    m in past.flushFailed ==> exists id :: id in past.failed && m in Snapshot(box, BySession(id))
  }

  /** Failed flushes lost what their sessions had read. */
  ghost predicate FailedOk(box: Box, past: History) {
    (forall id :: FailedFor(box, past, id)) && (forall m :: FailedBy(box, past, m))
  }

  ghost predicate SerialInv(s: State, owner: int) {
    && SerialOk(s.box, owner)
    && (forall m: Msg :: m.to == owner ==> CoverOk(s.box, s.past.dropped, m))
    && FailedOk(s.box, s.past)
  }

  // The lists.

  lemma SerialPush(box: Box, m: Msg, owner: int)
    requires ListsOk(box) && SerialOk(box, owner)
    ensures SerialOk(BoxPushed(box, m), owner)
  {
    hide ListsOk, LogOf, Start, Suffix, Pushed;
    var t := BoxPushed(box, m);
    ListAt(box, owner);
    PushStart(box, m, owner);
    assert forall p :: Open(t, p, owner) <==> Open(box, p, owner);
  }

  lemma OpenIn(box: Box, user: int, q: Popper)
    ensures Open(box, q, user) <==> q in OpenPops(box, user)
  {
  }

  lemma SerialRange(box: Box, user: int, p: Popper, owner: int)
    requires SerialOk(box, owner) && p !in box.pops && (user == owner ==> OpenPops(box, owner) == {})
    ensures SerialOk(Ranged(box, user, p), owner)
  {
    var t := Ranged(box, user, p);
    hide OpenPops, ListOf;
    assert Start(t, owner) == Start(box, owner);
    forall q | q in t.pops && Open(t, q, owner) ensures if user == owner then q == p else Open(box, q, owner) {
      if q != p {
        assert Open(box, q, owner);
        OpenIn(box, owner, q);
      }
    }
    hide Start;
  }

  lemma SerialDelete(box: Box, user: int, p: Popper, owner: int)
    requires ListsOk(box) && SerialOk(box, owner) && Open(box, p, user)
    ensures SerialOk(Deleted(box, user, p), owner)
  {
    hide ListsOk, LogOf, Start, Suffix;
    var t := Deleted(box, user, p);
    ListAt(box, owner);
    DeleteStart(box, user, p, owner);
    assert forall q :: Open(t, q, owner) ==> Open(box, q, owner) && q != p;
  }

  // What is gone.

  lemma CoverPush(box: Box, dropped: multiset<Msg>, m: Msg, x: Msg)
    requires ListsOk(box) && CoverOk(box, dropped, x)
    ensures CoverOk(BoxPushed(box, m), dropped, x)
  {
    hide ListsOk, Start, LogOf, Pushed, Suffix;
    var t := BoxPushed(box, m);
    ListAt(box, x.to);
    PushStart(box, m, x.to);
    assert LogOf(t, x.to)[..Start(t, x.to)] == LogOf(box, x.to)[..Start(box, x.to)];
    assert Read(t, x) <==> Read(box, x);
  }

  /** A message at one place in its log is either gone or listed. */
  lemma GoneOrListed(box: Box, x: Msg)
    requires Suffix(box, x.to)
    requires var log := LogOf(box, x.to);
             forall i, j :: 0 <= i < |log| && 0 <= j < |log| && log[i] == x && log[j] == x ==> i == j
    ensures x in LogOf(box, x.to) ==> (Gone(box, x) <==> x !in ListOf(box.offline, x.to))
    ensures x !in LogOf(box, x.to) ==> !Gone(box, x) && x !in ListOf(box.offline, x.to)
  {
    hide LogOf, Start, ListOf;
    var log, start := LogOf(box, x.to), Start(box, x.to);
    if x in log {
      var k :| 0 <= k < |log| && log[k] == x;
      assert k < start ==> log[..start][k] == x;
      assert k >= start ==> log[start..][k - start] == x;
    }
  }

  lemma OnlyHere(s: State, x: Msg)
    requires Conserved(s) && BoxOk(s.box)
    ensures x in LogOf(s.box, x.to) ==> (Gone(s.box, x) <==> x !in ListOf(s.box.offline, x.to))
    ensures x !in LogOf(s.box, x.to) ==> !Gone(s.box, x) && x !in ListOf(s.box.offline, x.to)
    ensures multiset(ListOf(s.box.offline, x.to))[x] <= 1
  {
    assert Suffix(s.box, x.to);
    assert Places(s, x) == if x in s.past.accepted then 1 else 0;
    hide BoxOk, Suffix, Start, LogOf, ListOf, Gone, Disposed;
    if x in LogOf(s.box, x.to) { LoggedOnce(s, x); }
    GoneOrListed(s.box, x);
    ListedCount(s.box, x.to, x);
  }

  lemma ListedCount(box: Box, user: int, x: Msg)
    requires Suffix(box, user)
    ensures multiset(ListOf(box.offline, user))[x] <= multiset(LogOf(box, user))[x]
  {
    hide ListOf, LogOf;
    var log, start := LogOf(box, user), Start(box, user);
    assert log == log[..start] + log[start..];
    assert multiset(log) == multiset(log[..start]) + multiset(log[start..]);
  }

  lemma OthersList(box: Box, user: int, x: Msg)
    requires ListsOk(box) && OwnersOk(box) && x.to != user
    ensures x !in ListOf(box.offline, user)
  {
    assert Suffix(box, user);
    hide ListsOk, ListOf;
    assert x in ListOf(box.offline, user) ==> x in LogOf(box, user);
  }

  lemma RangeReads(box: Box, user: int, p: Popper, x: Msg)
    requires p !in box.pops
    ensures var t := Ranged(box, user, p);
            && (Gone(t, x) <==> Gone(box, x))
            && (Read(t, x) <==> Read(box, x) || x in ListOf(box.offline, user))
  {
    hide OpenPops, ListOf;
    var t := Ranged(box, user, p);
    assert Start(t, x.to) == Start(box, x.to) && LogOf(t, x.to) == LogOf(box, x.to);
    hide Start, LogOf;
    if Read(t, x) {
      var q :| q in t.pops && x in t.pops[q].snapshot;
      assert q != p ==> q in box.pops && x in box.pops[q].snapshot;
    }
    if Read(box, x) {
      var q :| q in box.pops && x in box.pops[q].snapshot;
      assert q in t.pops && x in t.pops[q].snapshot;
    }
    if x in ListOf(box.offline, user) {
      assert x in t.pops[p].snapshot;
    }
  }

  lemma CoverRange(s: State, user: int, p: Popper, x: Msg)
    requires Conserved(s) && BoxOk(s.box) && CoverOk(s.box, s.past.dropped, x) && p !in s.box.pops
    ensures CoverOk(Ranged(s.box, user, p), s.past.dropped, x)
  {
    OnlyHere(s, x);
    if x.to != user { OthersList(s.box, user, x); }
    RangeReads(s.box, user, p, x);
    assert Gone(s.box, x) ==> x in LogOf(s.box, x.to);
    hide Gone, Conserved, BoxOk, Ranged, ListOf, Read, LogOf;
  }

  /** The pop whose DEL it is has read the list up to what came late. */
  lemma ReadsList(box: Box, user: int, p: Popper, x: Msg)
    requires BoxOk(box) && SerialOk(box, user) && Open(box, p, user) && x.to == user
    requires x in ListOf(box.offline, user) && !Gone(box, x)
    ensures Read(box, x) <==> x in box.pops[p].snapshot
  {
    hide ListsOk, OwnersOk, PairsOk, Start, LogOf, ListOf, Gone;
    if Read(box, x) {
      var q :| q in box.pops && x in box.pops[q].snapshot;
      SnapshotOwned(box, q, x);
      assert PopOk(box, q);
      if box.pops[q].done {
        DoneIsGone(box, q, x);
      } else {
        assert Open(box, q, user);
      }
    }
  }

  lemma DoneIsGone(box: Box, q: Popper, x: Msg)
    requires q in box.pops && PopOk(box, q) && box.pops[q].done && x in box.pops[q].snapshot && x.to == box.pops[q].user
    ensures Gone(box, x)
  {
    hide LogOf, Start;
    var pop := box.pops[q];
    var i :| 0 <= i < |pop.snapshot| && pop.snapshot[i] == x;
    assert LogOf(box, x.to)[..Start(box, x.to)][pop.from + i] == x;
  }

  lemma CoverDelete(s: State, user: int, p: Popper, x: Msg)
    requires Conserved(s) && BoxOk(s.box) && SerialOk(s.box, x.to) && CoverOk(s.box, s.past.dropped, x) && Open(s.box, p, user)
    ensures CoverOk(Deleted(s.box, user, p), s.past.dropped + Late(s.box, user, p), x)
  {
    var box, t := s.box, Deleted(s.box, user, p);
    assert Suffix(box, x.to);
    OnlyHere(s, x);
    DeleteStart(box, user, p, x.to);
    DeleteReads(box, user, p, x);
    hide Conserved, BoxOk, SerialOk, LogOf, Start, ListOf, Read, Suffix, Deleted;
    if x.to != user {
      OthersList(box, user, x);
      assert Gone(t, x) <==> Gone(box, x);
      assert x !in Late(box, user, p);
    } else {
      assert LogOf(box, user)[..|LogOf(box, user)|] == LogOf(box, user);
      assert Gone(t, x) <==> x in LogOf(box, user);
      if x in ListOf(box.offline, user) {
        hide Gone;
        ReadsList(box, user, p, x);
        LateExactly(box, user, p, x);
      } else {
        assert x !in Late(box, user, p);
      }
    }
  }

  lemma DeleteReads(box: Box, user: int, p: Popper, x: Msg)
    ensures Read(Deleted(box, user, p), x) <==> Read(box, x)
  {
    var t := Deleted(box, user, p);
    hide ListOf;
    assert t.pops.Keys == box.pops.Keys;
    assert forall q :: q in box.pops ==> t.pops[q].snapshot == box.pops[q].snapshot;
  }

  lemma LateExactly(box: Box, user: int, p: Popper, x: Msg)
    requires p in box.pops && multiset(ListOf(box.offline, user))[x] <= 1 && x in ListOf(box.offline, user)
    ensures x in Late(box, user, p) <==> x !in box.pops[p].snapshot
  {
    hide ListOf;
    assert x in multiset(box.pops[p].snapshot) <==> x in box.pops[p].snapshot;
  }

  // The steps.

  lemma SerialSend(s: State, m: Msg, send: SendStep, owner: int)
    requires CanSend(s, m, send) && Inv(s) && SerialInv(s, owner)
    ensures SerialInv(AfterSend(s, m, send), owner)
  {
    hide RoutingOk, SessionsOk, WritesOk, Conserved, IsOnline, CoverOk, SerialOk, FailedOk, Pushed, ListsOk, PopsOk, PairsOk, OwnersOk;
    var t := AfterSend(s, m, send);
    if send.PushOffline? {
      SerialPush(s.box, m, owner);
      forall x: Msg | x.to == owner ensures CoverOk(t.box, t.past.dropped, x) { CoverPush(s.box, s.past.dropped, m, x); }
    }
    assert t.past.flushFailed == s.past.flushFailed && t.past.failed == s.past.failed;
    FailedSame(s.box, s.past, t.box, t.past);
  }

  lemma FailedSame(box: Box, past: History, b: Box, h: History)
    requires FailedOk(box, past) && h.flushFailed == past.flushFailed && h.failed == past.failed
    requires forall id :: id in past.failed && BySession(id) in box.pops ==>
               BySession(id) in b.pops && b.pops[BySession(id)].snapshot == box.pops[BySession(id)].snapshot
    ensures FailedOk(b, h)
  {
    forall id ensures FailedFor(b, h, id) { assert FailedFor(box, past, id); }
    forall m ensures FailedBy(b, h, m) {
      assert FailedBy(box, past, m);
      if m in past.flushFailed {
        var id :| id in past.failed && m in Snapshot(box, BySession(id));
        assert FailedFor(box, past, id);
        assert m in Snapshot(b, BySession(id));
      }
    }
  }

  lemma SerialRanged(s: State, user: int, p: Popper, owner: int)
    requires Inv(s) && SerialInv(s, owner) && p !in s.box.pops && NoOverlap(Ranged(s.box, user, p), owner)
    ensures var t := Ranged(s.box, user, p);
            SerialOk(t, owner) && FailedOk(t, s.past) && forall m: Msg :: m.to == owner ==> CoverOk(t, s.past.dropped, m)
  {
    var t := Ranged(s.box, user, p);
    assert t.pops[p].during == OpenPops(s.box, user) && t.pops[p].user == user;
    hide RoutingOk, SessionsOk, WritesOk, Conserved, CoverOk, SerialOk, FailedOk, BoxOk, OpenPops, ListOf, Start;
    SerialRange(s.box, user, p, owner);
    FailedSame(s.box, s.past, t, s.past);
    hide Ranged;
    forall m: Msg | m.to == owner ensures CoverOk(t, s.past.dropped, m) { CoverRange(s, user, p, m); }
  }

  lemma SerialDropping(s: State, user: int, p: Popper, owner: int)
    requires Inv(s) && SerialInv(s, owner) && Open(s.box, p, user)
    ensures var t := Dropping(s, user, p);
            SerialOk(t.box, owner) && FailedOk(t.box, t.past) && forall m: Msg :: m.to == owner ==> CoverOk(t.box, t.past.dropped, m)
  {
    var t := Dropping(s, user, p);
    hide RoutingOk, SessionsOk, WritesOk, Conserved, CoverOk, SerialOk, FailedOk, PopsOk, ListsOk, PairsOk, OwnersOk, Late, LogOf, Start;
    SerialDelete(s.box, user, p, owner);
    FailedSame(s.box, s.past, t.box, t.past);
    hide Deleted;
    forall m: Msg | m.to == owner ensures CoverOk(t.box, t.past.dropped, m) { CoverDelete(s, user, p, m); }
  }

  lemma FailedFlush(box: Box, past: History, id: int)
    requires FailedOk(box, past) && BySession(id) in box.pops
    ensures FailedOk(box, Flushed(past, id, box.pops[BySession(id)].snapshot, false))
  {
    var batch := box.pops[BySession(id)].snapshot;
    var h := Flushed(past, id, batch, false);
    forall other ensures FailedFor(box, h, other) { assert FailedFor(box, past, other); }
    forall m ensures FailedBy(box, h, m) {
      assert FailedBy(box, past, m);
      if m in past.flushFailed {
        var other :| other in past.failed && m in Snapshot(box, BySession(other));
        assert other in h.failed;
      } else if m in h.flushFailed {
        assert m in Snapshot(box, BySession(id)) && id in h.failed;
      }
    }
  }

  lemma SerialSession(s: State, id: int, step: SessionStep, owner: int)
    requires CanStep(s, id, step) && Inv(s) && SerialInv(s, owner) && NoOverlap(AfterStep(s, id, step).box, owner)
    ensures SerialInv(AfterStep(s, id, step), owner)
  {
    assert SessionOk(s, id);
    var p, user, t := BySession(id), SessionAfter(s, id, step).user, AfterStep(s, id, step);
    hide RoutingOk, BoxOk, SessionsOk, WritesOk, Conserved, CoverOk, SerialOk, FailedOk, NoOverlap, OfflineBy;
    hide Ranged, Deleted, Late, OnlineSet, Frames;
    if step.PopRange? {
      SerialRanged(s, user, p, owner);
    } else if step.PopDel? {
      SerialDropping(s, user, p, owner);
    } else if step.Flush? {
      var batch := s.sessions[id].phase.batch;
      FailedFlush(s.box, s.past, id);
      if step.ok { FailedSame(s.box, s.past, t.box, t.past); }
    }
  }

  lemma SerialCall(s: State, user: int, call: RemoteStep, owner: int)
    requires CanCall(s, user, call) && Inv(s) && SerialInv(s, owner) && NoOverlap(AfterCall(s, user, call).box, owner)
    ensures SerialInv(AfterCall(s, user, call), owner)
  {
    hide Inv, CoverOk, SerialOk, FailedOk, NoOverlap, Ranged, Deleted, Late, OnlineSet;
    if call.PullRange? {
      SerialRanged(s, user, ByPull(call.id), owner);
    } else if call.PullDel? {
      SerialDropping(s, user, ByPull(call.id), owner);
    }
  }

  lemma SerialStep(s: State, e: Event, owner: int)
    requires Enabled(s, e) && Inv(s) && SerialInv(s, owner) && NoOverlap(Step(s, e).box, owner)
    ensures SerialInv(Step(s, e), owner)
  {
    hide Inv, NoOverlap, AfterSend, AfterStep, AfterCall, CoverOk, SerialOk, FailedOk;
    match e
    case Tick =>
    case Sender(m, send) => SerialSend(s, m, send, owner);
    case InSession(id, step) => SerialSession(s, id, step, owner);
    case Remote(user, call) => SerialCall(s, user, call, owner);
  }

  predicate SameReading(a: Pop, b: Pop) {
    a.user == b.user && a.during == b.during
  }

  lemma DuringStays(box: Box, user: int, p: Popper, q: Popper)
    requires q in box.pops
    ensures p !in box.pops ==> q in Ranged(box, user, p).pops && SameReading(box.pops[q], Ranged(box, user, p).pops[q])
    ensures q in Deleted(box, user, p).pops && SameReading(box.pops[q], Deleted(box, user, p).pops[q])
  {
    hide OpenPops, Start, ListOf;
  }

  /** A pop that overlapped is never forgotten. */
  lemma OverlapStays(s: State, e: Event, owner: int)
    requires Enabled(s, e) && SessionsOk(s) && NoOverlap(Step(s, e).box, owner)
    ensures NoOverlap(s.box, owner)
  {
    var t := Step(s, e);
    forall p | p in s.box.pops && s.box.pops[p].user == owner ensures s.box.pops[p].during == {} {
      PopStays(s, e, p);
    }
  }

  lemma PopStays(s: State, e: Event, p: Popper)
    requires Enabled(s, e) && SessionsOk(s) && p in s.box.pops
    ensures p in Step(s, e).box.pops && SameReading(s.box.pops[p], Step(s, e).box.pops[p])
  {
    hide Ranged, Deleted, Late, OnlineSet, IsOnline, Pushed, OfflineBy, Frames, WrittenLive, Flushed, Snapshot;
    match e
    case Tick =>
    case Sender(m, send) =>
    case InSession(id, step) =>
      assert SessionOk(s, id);
      DuringStays(s.box, SessionAfter(s, id, step).user, BySession(id), p);
    case Remote(user, call) =>
      if call.PullRange? || call.PullDel? { DuringStays(s.box, user, ByPull(call.id), p); }
  }

  lemma {:induction false} SerialRun(s: State, events: seq<Event>, owner: int)
    requires Inv(s) && SerialInv(s, owner) && NoOverlap(Run(s, events).box, owner)
    ensures SerialInv(Run(s, events), owner) && NoOverlap(s.box, owner)
    decreases |events|
  {
    hide SerialInv, NoOverlap, Step, Enabled, RoutingOk, BoxOk, Conserved, SessionsOk, WritesOk;
    if |events| > 0 {
      var t := Next(s, events[0]);
      InvNext(s, events[0]);
      OverlapBefore(t, events[1..], owner);
      if Enabled(s, events[0]) {
        OverlapStays(s, events[0], owner);
        SerialStep(s, events[0], owner);
      }
      SerialRun(t, events[1..], owner);
    }
  }

  lemma {:induction false} OverlapBefore(s: State, events: seq<Event>, owner: int)
    requires Inv(s) && NoOverlap(Run(s, events).box, owner)
    ensures NoOverlap(s.box, owner)
    decreases |events|
  {
    hide NoOverlap, Step, Enabled, RoutingOk, BoxOk, Conserved, SessionsOk, WritesOk;
    if |events| > 0 {
      InvNext(s, events[0]);
      OverlapBefore(Next(s, events[0]), events[1..], owner);
      if Enabled(s, events[0]) {
        OverlapStays(s, events[0], owner);
      }
    }
  }

  // ---------- Delivered or lost ----------

  /** No sender is under way, no session holds a batch, every list is empty. */
  predicate Drained(s: State) {
    && s.sends == map[]
    && (forall id :: id in s.sessions ==> !s.sessions[id].phase.Holding?)
    && (forall u :: u in s.box.offline ==> s.box.offline[u] == [])
  }

  /** A frame with the message went to a socket, or a remote caller got it. */
  predicate Reached(s: State, m: Msg) {
    || (exists i :: 0 <= i < |s.past.writes| && s.past.writes[i].msg == m)
    || (exists p :: p in s.box.pops && p.ByPull? && s.box.pops[p].done && m in s.box.pops[p].snapshot)
  }

  predicate AllDelivered(s: State) {
    forall m :: m in s.past.accepted ==> Reached(s, m)
  }

  lemma {:induction false} LiveWitness(writes: seq<Write>, m: Msg) returns (i: nat)
    requires m in LiveOf(writes)
    ensures i < |writes| && writes[i].live && writes[i].msg == m
    decreases |writes|
  {
    var n := |writes|;
    if writes[n - 1].live && writes[n - 1].msg == m {
      i := n - 1;
    } else {
      i := LiveWitness(writes[..n - 1], m);
    }
  }

  lemma {:induction false} OfflineWitness(writes: seq<Write>, id: int, m: Msg) returns (i: nat)
    requires m in OfflineBy(writes, id)
    ensures i < |writes| && !writes[i].live && writes[i].session == id && writes[i].msg == m
    decreases |writes|
  {
    var n := |writes|;
    var w := writes[n - 1];
    if !w.live && w.session == id && w.msg == m {
      i := n - 1;
    } else {
      i := OfflineWitness(writes[..n - 1], id, m);
    }
  }

  /** A message that was never pushed: written live, or lost by its sender. */
  lemma UnpushedReached(s: State, m: Msg)
    requires Inv(s) && SerialInv(s, m.to) && s.sends == map[] && m in s.past.accepted && m !in LogOf(s.box, m.to)
    ensures Reached(s, m) <==> m !in Lost(s.past)
  {
    assert CoverOk(s.box, s.past.dropped, m) && FailedBy(s.box, s.past, m);
    assert !Gone(s.box, m);
    UnpushedIsLive(s, m);
    hide RoutingOk, BoxOk, Conserved, SessionsOk, WritesOk, LogOf, SerialInv, CoverOk, Reached;
    forall p | p in s.box.pops ensures m !in s.box.pops[p].snapshot {
      if m in s.box.pops[p].snapshot { SnapshotOwned(s.box, p, m); }
    }
    assert m !in s.past.flushFailed && m !in s.past.dropped;
  }

  /** The one pop that read a message, in a run without overlaps. */
  lemma OneReader(s: State, p: Popper, q: Popper, m: Msg)
    requires Inv(s) && NoOverlap(s.box, m.to) && p in s.box.pops && q in s.box.pops
    requires m in s.box.pops[p].snapshot && m in s.box.pops[q].snapshot
    ensures p == q
  {
    hide RoutingOk, BoxOk, Conserved, SessionsOk, WritesOk;
    SnapshotOwned(s.box, p, m);
    SnapshotOwned(s.box, q, m);
    if p != q { ShareIsReadAgain(s, p, q, m); }
  }

  lemma UnreadReached(s: State, m: Msg)
    requires Inv(s) && SerialInv(s, m.to) && m in LogOf(s.box, m.to) && Gone(s.box, m) && !Read(s.box, m)
    ensures m in s.past.dropped && !Reached(s, m)
  {
    assert CoverOk(s.box, s.past.dropped, m);
    hide RoutingOk, BoxOk, Conserved, SessionsOk, WritesOk, OfflineBy, LogOf, SerialInv, Gone;
    forall i | 0 <= i < |s.past.writes| ensures s.past.writes[i].msg != m {
      if s.past.writes[i].live { LiveNotLogged(s, i); } else { OfflineIsPopped(s, i); }
    }
  }

  /** A reader is done once its list is empty. */
  lemma ReaderDone(s: State, p: Popper, m: Msg)
    requires BoxOk(s.box) && p in s.box.pops && m in s.box.pops[p].snapshot
    requires SerialInv(s, s.box.pops[p].user) && ListOf(s.box.offline, s.box.pops[p].user) == []
    ensures s.box.pops[p].done
  {
    assert PopOk(s.box, p) && SerialOk(s.box, s.box.pops[p].user);
    hide ListsOk, PairsOk, OwnersOk, PopsOk, SerialInv;
  }

  lemma PulledReached(s: State, p: Popper, m: Msg)
    requires Inv(s) && SerialInv(s, m.to) && NoOverlap(s.box, m.to) && Gone(s.box, m)
    requires p.ByPull? && p in s.box.pops && s.box.pops[p].done && m in s.box.pops[p].snapshot
    ensures Reached(s, m) && m !in s.past.dropped && m !in s.past.flushFailed
  {
    assert CoverOk(s.box, s.past.dropped, m) && FailedBy(s.box, s.past, m);
    assert Read(s.box, m);
    hide RoutingOk, BoxOk, Conserved, SessionsOk, WritesOk, SerialInv, Gone, NoOverlap;
    if m in s.past.flushFailed {
      var id :| id in s.past.failed && m in Snapshot(s.box, BySession(id));
      OneReader(s, p, BySession(id), m);
    }
  }

  lemma SessionReached(s: State, id: int, m: Msg)
    requires Inv(s) && SerialInv(s, m.to) && NoOverlap(s.box, m.to) && Gone(s.box, m) && Drained(s)
    requires BySession(id) in s.box.pops && s.box.pops[BySession(id)].done && m in s.box.pops[BySession(id)].snapshot
    ensures m !in s.past.dropped && (Reached(s, m) <==> m !in s.past.flushFailed)
  {
    var p := BySession(id);
    assert CoverOk(s.box, s.past.dropped, m) && FailedBy(s.box, s.past, m) && FailedFor(s.box, s.past, id);
    assert Read(s.box, m) && SessionOk(s, id);
    assert m in LogOf(s.box, m.to);
    hide RoutingOk, BoxOk, Conserved, SessionsOk, WritesOk, SerialInv, Gone, NoOverlap, OfflineBy, LogOf;
    assert m in multiset(s.box.pops[p].snapshot);
    if m in s.past.flushFailed {
      var other :| other in s.past.failed && m in Snapshot(s.box, BySession(other));
      OneReader(s, p, BySession(other), m);
      forall i | 0 <= i < |s.past.writes| ensures s.past.writes[i].msg != m { NotWritten(s, id, m, i); }
      forall q | q in s.box.pops && q.ByPull? ensures m !in s.box.pops[q].snapshot {
        if m in s.box.pops[q].snapshot { OneReader(s, p, q, m); }
      }
    } else {
      var i := OfflineWitness(s.past.writes, id, m);
    }
  }

  lemma NotWritten(s: State, id: int, m: Msg, i: nat)
    requires Inv(s) && NoOverlap(s.box, m.to) && i < |s.past.writes| && m in LogOf(s.box, m.to)
    requires id in s.past.failed && BySession(id) in s.box.pops && m in s.box.pops[BySession(id)].snapshot
    requires OfflineBy(s.past.writes, id) == multiset{}
    ensures s.past.writes[i].msg != m
  {
    hide RoutingOk, BoxOk, Conserved, SessionsOk, WritesOk, NoOverlap, OfflineBy, LogOf;
    var w := s.past.writes[i];
    if w.live {
      LiveNotLogged(s, i);
    } else if w.msg == m {
      OfflineIsPopped(s, i);
      OneReader(s, BySession(id), BySession(w.session), m);
      OfflineHas(s.past.writes, i);
    }
  }

  /** In a drained run without overlaps an accepted message was delivered or lost,
      not both. */
  lemma DeliveredOrLost(s: State, m: Msg)
    requires Inv(s) && SerialInv(s, m.to) && NoOverlap(s.box, m.to) && Drained(s) && m in s.past.accepted
    ensures Reached(s, m) <==> m !in Lost(s.past)
  {
    hide RoutingOk, BoxOk, SessionsOk, WritesOk, SerialInv, NoOverlap, LogOf, Gone, Drained, Reached, Read, Disposed;
    if m !in LogOf(s.box, m.to) {
      assert s.sends == map[] by { DrainedParts(s, m.to); }
      UnpushedReached(s, m);
    } else {
      LoggedOnce(s, m);
      NotDisposed(s.past, m);
      DrainedParts(s, m.to);
      OnlyHere(s, m);
      if !Read(s.box, m) {
        UnreadReached(s, m);
      } else {
        var p := Reader(s.box, m);
        SnapshotOwned(s.box, p, m);
        ReaderDone(s, p, m);
        match p
        case ByPull(c) => PulledReached(s, p, m);
        case BySession(id) => SessionReached(s, id, m);
      }
    }
  }

  lemma Reader(box: Box, m: Msg) returns (p: Popper)
    requires Read(box, m)
    ensures p in box.pops && m in box.pops[p].snapshot
  {
    p :| p in box.pops && m in box.pops[p].snapshot;
  }

  lemma NotDisposed(past: History, m: Msg)
    requires Disposed(past)[m] == 0
    ensures m !in past.noSocket && m !in past.liveFailed
  {
  }

  lemma DrainedParts(s: State, user: int)
    requires Drained(s)
    ensures s.sends == map[] && ListOf(s.box.offline, user) == []
  {
  }

  /** Only accepted messages are lost. */
  lemma LostAccepted(s: State, m: Msg)
    requires Inv(s) && SerialInv(s, m.to) && m in Lost(s.past)
    ensures m in s.past.accepted
  {
    assert Places(s, m) == if m in s.past.accepted then 1 else 0;
    assert CoverOk(s.box, s.past.dropped, m) && FailedBy(s.box, s.past, m);
    hide RoutingOk, BoxOk, Conserved, SessionsOk, WritesOk, SerialInv, LiveOf, LogOf, Start;
    if m in s.past.flushFailed {
      var id :| id in s.past.failed && m in Snapshot(s.box, BySession(id));
      SnapshotOwned(s.box, BySession(id), m);
    }
  }

  // ---------- Delivered, whatever overlaps ----------

  predicate AllDone(box: Box) {
    forall p :: p in box.pops ==> box.pops[p].done
  }

  /** A pop read the message and passed it on: a pull, or a session whose flush did
      not fail. */
  predicate PassedOn(s: State, m: Msg) {
    exists p :: p in s.box.pops && m in s.box.pops[p].snapshot && (p.BySession? ==> p.id !in s.past.failed)
  }

  lemma PushedReached(s: State, m: Msg)
    requires Inv(s) && m in LogOf(s.box, m.to) && AllDone(s.box)
    requires forall id :: id in s.sessions ==> !s.sessions[id].phase.Holding?
    ensures Reached(s, m) <==> PassedOn(s, m)
  {
    hide RoutingOk, BoxOk, Conserved, SessionsOk, WritesOk, OfflineBy, LogOf;
    if PassedOn(s, m) {
      var p :| p in s.box.pops && m in s.box.pops[p].snapshot && (p.BySession? ==> p.id !in s.past.failed);
      if p.BySession? {
        var i := FlushedFrame(s, p.id, m);
      }
    }
    forall i | 0 <= i < |s.past.writes| && s.past.writes[i].msg == m ensures PassedOn(s, m) {
      if s.past.writes[i].live { LiveNotLogged(s, i); } else { FramePassedOn(s, i); }
    }
  }

  lemma FlushedFrame(s: State, id: int, m: Msg) returns (i: nat)
    requires SessionsOk(s) && AllDone(s.box) && id !in s.past.failed
    requires id in s.sessions ==> !s.sessions[id].phase.Holding?
    requires BySession(id) in s.box.pops && m in s.box.pops[BySession(id)].snapshot
    ensures i < |s.past.writes| && s.past.writes[i].msg == m
  {
    assert SessionOk(s, id);
    hide SessionsOk, OfflineBy;
    assert m in multiset(s.box.pops[BySession(id)].snapshot);
    i := OfflineWitness(s.past.writes, id, m);
  }

  lemma FramePassedOn(s: State, i: nat)
    requires SessionsOk(s) && BoxOk(s.box) && i < |s.past.writes| && !s.past.writes[i].live
    ensures PassedOn(s, s.past.writes[i].msg)
  {
    var w := s.past.writes[i];
    assert SessionOk(s, w.session);
    OfflineIsPopped(s, i);
    OfflineHas(s.past.writes, i);
    hide SessionsOk, BoxOk, OfflineBy, LogOf;
    assert w.session !in s.past.failed;
  }

  lemma UnpushedIsLive(s: State, m: Msg)
    requires Inv(s) && s.sends == map[] && m in s.past.accepted && m !in LogOf(s.box, m.to)
    ensures Reached(s, m) <==> m !in s.past.noSocket && m !in s.past.liveFailed
  {
    assert Places(s, m) == 1;
    hide RoutingOk, BoxOk, Conserved, SessionsOk, WritesOk, LiveOf, OfflineBy, LogOf;
    forall p | p in s.box.pops ensures m !in s.box.pops[p].snapshot {
      if m in s.box.pops[p].snapshot { SnapshotOwned(s.box, p, m); }
    }
    if m in LiveOf(s.past.writes) {
      var i := LiveWitness(s.past.writes, m);
    }
    forall i | 0 <= i < |s.past.writes| && s.past.writes[i].msg == m ensures m in LiveOf(s.past.writes) {
      if s.past.writes[i].live { LiveHas(s.past.writes, i); } else { OfflineIsPopped(s, i); }
    }
  }

  /** In every drained run, overlapping pops included: an accepted message reached
      someone if and only if its sender did not lose it and, if it was pushed, some
      pop that read it passed it on; that another pop's DEL came too early for it, or
      another session's flush failed, does not matter then. */
  lemma ReachedExactly(events: seq<Event>, m: Msg)
    requires var s := Run(START, events); Drained(s) && AllDone(s.box) && m in s.past.accepted
    ensures var s := Run(START, events);
            Reached(s, m) <==> && m !in s.past.noSocket && m !in s.past.liveFailed
                               && (m in LogOf(s.box, m.to) ==> PassedOn(s, m))
  {
    InvStart();
    InvRun(START, events);
    var s := Run(START, events);
    hide Run, RoutingOk, BoxOk, SessionsOk, WritesOk, LogOf, Reached, PassedOn, Disposed, Conserved, AllDone;
    if m in LogOf(s.box, m.to) {
      LoggedOnce(s, m);
      NotDisposed(s.past, m);
      PushedReached(s, m);
    } else {
      UnpushedIsLive(s, m);
    }
  }

  lemma StartsSerial()
    ensures (forall u :: SerialInv(START, u)) && Lost(START.past) == multiset{}
  {
  }

  /** No message went into two frames, to two pops, or to a frame and a pull. */
  predicate NothingTwice(s: State) {
    && (forall i, j :: 0 <= i < j < |s.past.writes| ==> s.past.writes[i].msg != s.past.writes[j].msg)
    && (forall i, q :: 0 <= i < |s.past.writes| && q in s.box.pops && q.ByPull? ==>
          s.past.writes[i].msg !in s.box.pops[q].snapshot)
    && (forall p, q, m :: p in s.box.pops && q in s.box.pops && p != q && m in s.box.pops[p].snapshot ==>
          m !in s.box.pops[q].snapshot)
  }

  lemma FramesOnce(s: State, i: nat, j: nat)
    requires Inv(s) && i < j < |s.past.writes| && NoOverlap(s.box, s.past.writes[i].msg.to)
    ensures s.past.writes[i].msg != s.past.writes[j].msg
  {
    hide RoutingOk, BoxOk, Conserved, SessionsOk, WritesOk;
    if s.past.writes[i].msg == s.past.writes[j].msg { FramesApart(s, i, j); }
  }

  lemma FrameOrPull(s: State, i: nat, q: Popper)
    requires Inv(s) && i < |s.past.writes| && NoOverlap(s.box, s.past.writes[i].msg.to) && q in s.box.pops && q.ByPull?
    ensures s.past.writes[i].msg !in s.box.pops[q].snapshot
  {
    hide RoutingOk, BoxOk, Conserved, SessionsOk, WritesOk;
    if s.past.writes[i].msg in s.box.pops[q].snapshot {
      SnapshotOwned(s.box, q, s.past.writes[i].msg);
      FrameAndPull(s, i, q);
    }
  }

  lemma NoOverlapNothingTwice(s: State)
    requires Inv(s) && forall u :: NoOverlap(s.box, u)
    ensures NothingTwice(s)
  {
    hide Inv, NoOverlap;
    forall i, j | 0 <= i < j < |s.past.writes| ensures s.past.writes[i].msg != s.past.writes[j].msg {
      FramesOnce(s, i, j);
    }
    forall i, q | 0 <= i < |s.past.writes| && q in s.box.pops && q.ByPull?
      ensures s.past.writes[i].msg !in s.box.pops[q].snapshot
    {
      FrameOrPull(s, i, q);
    }
    forall p, q, m | p in s.box.pops && q in s.box.pops && p != q && m in s.box.pops[p].snapshot
      ensures m !in s.box.pops[q].snapshot
    {
      if m in s.box.pops[q].snapshot { OneReader(s, p, q, m); }
    }
  }

  /** For one recipient: in every drained run in which no two pops of that list
      overlapped, whatever happened to other lists, a message was delivered if and
      only if no step of the run lost it. */
  lemma DeliveredUnlessLost(events: seq<Event>, m: Msg)
    requires var s := Run(START, events); Drained(s) && NoOverlap(s.box, m.to) && m in s.past.accepted
    ensures var s := Run(START, events); Reached(s, m) <==> m !in Lost(s.past)
  {
    InvStart();
    StartsSerial();
    InvRun(START, events);
    hide Inv, SerialInv, NoOverlap, Drained, Reached, Lost;
    SerialRun(START, events, m.to);
    DeliveredOrLost(Run(START, events), m);
  }

  /** Exactly once: in every run in which no two pops of a list overlapped and all
      has drained, nothing was delivered twice, and all accepted messages were
      delivered if and only if no step was lossy. */
  lemma ExactlyOnce(events: seq<Event>)
    requires Drained(Run(START, events)) && forall u :: NoOverlap(Run(START, events).box, u)
    ensures AllDelivered(Run(START, events)) <==> LosslessRun(START, events)
    ensures NothingTwice(Run(START, events))
  {
    InvStart();
    StartsSerial();
    InvRun(START, events);
    forall u ensures SerialInv(Run(START, events), u) { SerialRun(START, events, u); }
    LosesNothingExactly(START, events);
    var s := Run(START, events);
    NoOverlapNothingTwice(s);
    hide Run, Inv, SerialInv, LosslessRun, Drained, Reached, Lost, NothingTwice, NoOverlap;
    if AllDelivered(s) {
      forall m ensures m !in Lost(s.past) {
        if m in Lost(s.past) {
          LostAccepted(s, m);
          DeliveredOrLost(s, m);
        }
      }
      assert Lost(s.past) == multiset{};
    } else {
      var m :| m in s.past.accepted && !Reached(s, m);
      DeliveredOrLost(s, m);
    }
  }
}

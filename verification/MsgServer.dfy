/** The message service's shared state and the code that changes it, in the
    program's own order. Each method taken alone is the run of steps it stands
    for in `Delivery`, so what holds of every interleaving holds of these. */
module MsgServer {
  import opened BatchQueue
  import opened ByteStrings
  import opened ChatCache
  import opened Decimal
  import D = Delivery
  import opened RateLimit

  const MSG_MAX := 30
  const MSG_WINDOW := 60
  const INT32_MAX := 0x7fff_ffff

  /** What a history request is answered from. `Overflow` is the undefined signed sum
      of the range's end. */
  datatype History = Page(members: seq<Bytes>) | FromDatabase(limit: int, offset: int) | Overflow

  const RATE_PREFIX: Bytes := "msg:"

  function RateKey(user: int): Bytes {
    RATE_PREFIX + ToString(user)
  }

  /** A sender's three steps, with nothing between them. */
  function SendSteps(m: D.Msg, online: bool, ok: bool): seq<D.Event> {
    [D.Sender(m, D.Accept), D.Sender(m, D.CheckOnline), D.Sender(m, if online then D.WriteLive(ok) else D.PushOffline)]
  }

  /** A session's steps from authentication to the message loop. */
  function AuthSteps(id: int, user: int, ok: bool): seq<D.Event> {
    [D.InSession(id, D.AuthOnline(user)), D.InSession(id, D.Register), D.InSession(id, D.PopRange),
     D.InSession(id, D.PopDel), D.InSession(id, D.Flush(ok))]
  }

  function CleanupSteps(id: int): seq<D.Event> {
    [D.InSession(id, D.Erase), D.InSession(id, D.DelOnline)]
  }

  function PullSteps(user: int, call: int): seq<D.Event> {
    [D.Remote(user, D.PullRange(call)), D.Remote(user, D.PullDel(call))]
  }

  function Members(page: seq<Entry>): (r: seq<Bytes>)
    ensures |r| == |page| && forall k :: 0 <= k < |page| ==> r[k] == page[k].member
  {
    seq(|page|, k requires 0 <= k < |page| => page[k].member)
  }

  /** The page from an offset on: so many entries, newest first. */
  lemma PageAt(live: seq<Entry>, size: int, offset: int)
    requires size > 0
    ensures var page := ZRevRange(live, offset, offset + size - 1);
            offset >= 0 ==>
              && |page| == (if offset >= |live| then 0 else if size <= |live| - offset then size else |live| - offset)
              && forall k :: 0 <= k < |page| ==> page[k] == live[|live| - 1 - offset - k]
  {
    if offset >= 0 {
      PageIs(live, size, offset);
    }
  }

  // ---------- Many senders ----------

  lemma RateKeyFaithful(u: int, v: int)
    ensures RATE_PREFIX == "msg:" && RateKey(u) == RATE_PREFIX + ToString(u)
    ensures RateKey(u) == RateKey(v) <==> u == v
  {
    hide ToString;
    assert ToString(u) == RateKey(u)[|RATE_PREFIX|..] && ToString(v) == RateKey(v)[|RATE_PREFIX|..];
    if RateKey(u) == RateKey(v) {
      ToStringInjective(u, v);
    }
  }

  lemma RateKeysDiffer()
    ensures forall u, v :: RateKey(u) == RateKey(v) ==> u == v
  {
    hide RateKey;
    forall u, v | RateKey(u) == RateKey(v) ensures u == v { RateKeyFaithful(u, v); }
  }

  /** The actions so far, by user, with the verdicts and counters they led to; none is
      later than now. */
  ghost predicate Counted(attempts: seq<Attempt<int>>, oks: seq<bool>, counters: Counters, now: int) {
    && oks == Verdicts(map[], CallsOf(attempts, RateKey, MSG_MAX, MSG_WINDOW))
    && counters == CountersAfter(map[], CallsOf(attempts, RateKey, MSG_MAX, MSG_WINDOW))
    && InTime(attempts) && (forall k :: 0 <= k < |attempts| ==> attempts[k].at <= now)
  }

  lemma CountedSnoc(attempts: seq<Attempt<int>>, oks: seq<bool>, counters: Counters, now: int, user: int)
    requires Counted(attempts, oks, counters, now)
    ensures var (c, ok) := Checked(CounterAt(counters, RateKey(user)), MSG_MAX, MSG_WINDOW, now);
            Counted(attempts + [Attempt(user, now)], oks + [ok], counters[RateKey(user) := c], now)
  {
    hide Checked, RateKey;
    var call := Call(RateKey(user), MSG_MAX, MSG_WINDOW, now);
    VerdictsSnoc(map[], CallsOf(attempts, RateKey, MSG_MAX, MSG_WINDOW), call);
    assert CallsOf(attempts + [Attempt(user, now)], RateKey, MSG_MAX, MSG_WINDOW)
           == CallsOf(attempts, RateKey, MSG_MAX, MSG_WINDOW) + [call];
    hide Verdicts, CountersAfter;
  }

  /** Whatever the other users send, a user's actions are let through by fixed
      windows of that user's own actions alone: thirty a minute. */
  lemma SendersAreSeparate(attempts: seq<Attempt<int>>, oks: seq<bool>, counters: Counters, now: int, user: int)
    requires Counted(attempts, oks, counters, now) && Bounded(OwnTimes(attempts, user), 60)
    ensures OwnVerdicts(attempts, oks, user) == FixedWindows(OwnTimes(attempts, user), 30, 60)
  {
    hide RateKey, Bounded, Verdicts, FixedWindows, OwnTimes, OwnVerdicts, CountersAfter, CallsOf;
    RateKeysDiffer();
    OwnersAreSeparate(attempts, RateKey, 30, 60, user);
  }

  // ---------- Runs of steps ----------

  lemma RunOne(s: D.State, events: seq<D.Event>)
    requires |events| > 0
    ensures D.Run(s, events) == D.Run(D.Next(s, events[0]), events[1..])
    ensures |events| == 1 ==> D.Run(s, events) == D.Next(s, events[0])
  {
    hide D.Next;
  }

  lemma SendIs(s: D.State, m: D.Msg, online: bool, ok: bool)
    requires m !in s.past.accepted && online == D.IsOnline(s.online, m.to, s.now)
    ensures var t := D.Run(s, SendSteps(m, online, ok));
            && t.now == s.now && t.online == s.online && t.conns == s.conns
            && t.box.offline == (if online then s.box.offline else D.Pushed(s.box.offline, m))
            && t.past.writes == (if online && m.to in s.conns && ok then s.past.writes + [D.Write(s.conns[m.to], m, true)]
                                 else s.past.writes)
            && t.sessions == s.sessions
  {
    var steps := SendSteps(m, online, ok);
    RunOne(s, steps);
    var s1 := D.AfterSend(s, m, D.Accept);
    assert D.Next(s, steps[0]) == s1;
    RunOne(s1, steps[1..]);
    var s2 := D.AfterSend(s1, m, D.CheckOnline);
    assert D.Next(s1, steps[1]) == s2;
    RunOne(s2, steps[2..]);
    assert D.Next(s2, steps[2]) == D.AfterSend(s2, m, steps[2].send);
    hide D.Run;
  }

  lemma AuthIs(s: D.State, id: int, user: int, ok: bool)
    requires D.In(s, id, D.Connected)
    ensures var t, batch := D.Run(s, AuthSteps(id, user, ok)), D.ListOf(s.box.offline, user);
            && t.now == s.now && t.online == D.OnlineSet(s.online, user, s.now) && t.conns == s.conns[user := id]
            && t.box.offline == s.box.offline - {user}
            && t.past.writes == (if ok then s.past.writes + D.Frames(id, batch) else s.past.writes)
  {
    var steps := AuthSteps(id, user, ok);
    RunOne(s, steps);
    RunOne(D.Next(s, steps[0]), steps[1..]);
    hide D.Frames;
    var s2 := D.Next(D.Next(s, steps[0]), steps[1]);
    assert s2.online == D.OnlineSet(s.online, user, s.now) && s2.conns == s.conns[user := id] && s2.box == s.box;
    assert D.In(s2, id, D.Registered) && s2.sessions[id].user == user && s2.now == s.now && s2.past == s.past;
    AuthPops(s2, id, user, ok);
  }

  lemma AuthPops(s: D.State, id: int, user: int, ok: bool)
    requires D.In(s, id, D.Registered) && s.sessions[id].user == user
    ensures var t, batch := D.Run(s, AuthSteps(id, user, ok)[2..]), D.ListOf(s.box.offline, user);
            && t.now == s.now && t.online == s.online && t.conns == s.conns
            && t.box.offline == s.box.offline - {user}
            && t.past.writes == (if ok then s.past.writes + D.Frames(id, batch) else s.past.writes)
  {
    var steps := AuthSteps(id, user, ok)[2..];
    var s1 := D.Next(s, steps[0]);
    RunOne(s, steps);
    RunOne(s1, steps[1..]);
    var s2 := D.Next(s1, steps[1]);
    PopIs(s, id, user);
    RunOne(s2, steps[2..]);
    hide D.Run, D.Frames, D.ListOf;
  }

  lemma PopIs(s: D.State, id: int, user: int)
    requires D.In(s, id, D.Registered) && s.sessions[id].user == user
    ensures var t := D.Next(D.Next(s, D.InSession(id, D.PopRange)), D.InSession(id, D.PopDel));
            && t.now == s.now && t.online == s.online && t.conns == s.conns && t.past.writes == s.past.writes
            && t.box.offline == s.box.offline - {user}
            && D.In(t, id, D.Holding(D.ListOf(s.box.offline, user))) && t.sessions[id].user == user
  {
    hide D.OpenPops, D.Start, D.ListOf, D.Late;
    var s1 := D.Next(s, D.InSession(id, D.PopRange));
    assert D.In(s1, id, D.Popping) && D.Snapshot(s1.box, D.BySession(id)) == D.ListOf(s.box.offline, user);
  }

  lemma CleanupIs(s: D.State, id: int, user: int)
    requires D.In(s, id, D.Active) && s.sessions[id].user == user
    ensures var t := D.Run(s, CleanupSteps(id));
            && t.now == s.now && t.online == s.online - {user} && t.conns == s.conns - {user}
            && t.box == s.box && t.past == s.past
  {
    var steps := CleanupSteps(id);
    RunOne(s, steps);
    var s1 := D.Next(s, steps[0]);
    assert D.In(s1, id, D.Erased) && s1.box == s.box;
    RunOne(s1, steps[1..]);
    hide D.Run;
  }

  lemma PullIs(s: D.State, user: int, call: int)
    requires D.ByPull(call) !in s.box.pops
    ensures var t := D.Run(s, PullSteps(user, call));
            && t.now == s.now && t.online == s.online && t.conns == s.conns
            && t.box.offline == s.box.offline - {user} && t.past.writes == s.past.writes
            && D.Taken(t.box, D.ByPull(call), user) && t.box.pops[D.ByPull(call)].snapshot == D.ListOf(s.box.offline, user)
  {
    hide D.OpenPops, D.Start, D.ListOf, D.Late;
    var steps := PullSteps(user, call);
    RunOne(s, steps);
    var s1 := s.(box := D.Ranged(s.box, user, D.ByPull(call)));
    assert D.Next(s, steps[0]) == s1;
    RunOne(s1, steps[1..]);
    hide D.Run;
  }

  /** A message sent while its recipient looks offline is the last one of the
      frame that the recipient's next session writes, after all that was listed
      before it, and the list is empty. */
  lemma SentOfflineArrives(s: D.State, m: D.Msg, id: int, any: bool)
    requires m !in s.past.accepted && !D.IsOnline(s.online, m.to, s.now)
    requires D.In(s, id, D.Connected)
    ensures var t := D.Run(D.Run(s, SendSteps(m, false, any)), AuthSteps(id, m.to, true));
            && t.past.writes == s.past.writes + D.Frames(id, D.ListOf(s.box.offline, m.to) + [m])
            && m.to !in t.box.offline
  {
    SendIs(s, m, false, any);
    hide D.Run, D.Frames, SendSteps, AuthSteps;
    AuthIs(D.Run(s, SendSteps(m, false, any)), id, m.to, true);
  }

  /** After any run, a message to a user whose last refresh is thirty seconds old, or
      followed by a deletion, is the last one on that user's list, and no socket has
      it; with a younger refresh it goes to the mapped socket and to no list. */
  lemma RefreshDecides(events: seq<D.Event>, m: D.Msg, ok: bool)
    requires m !in D.Run(D.START, events).past.accepted
    ensures var s, last := D.Run(D.START, events), D.Refreshed(D.START, events, m.to, None);
            var t := D.Run(s, SendSteps(m, D.IsOnline(s.online, m.to, s.now), ok));
            if last.None? || s.now >= last.value + 30
            then t.box.offline[m.to := []] == s.box.offline[m.to := []] && m.to in t.box.offline
                 && t.box.offline[m.to] == D.ListOf(s.box.offline, m.to) + [m]
                 && t.past.writes == s.past.writes
            else t.box.offline == s.box.offline
                 && t.past.writes == s.past.writes + if m.to in s.conns && ok then [D.Write(s.conns[m.to], m, true)] else []
  {
    hide D.Run, D.Refreshed, SendSteps, D.ListOf;
    D.OnlineExactly(events, m.to);
    var s := D.Run(D.START, events);
    SendIs(s, m, D.IsOnline(s.online, m.to, s.now), ok);
  }

  class MsgServer {
    var now: int
    var online: D.OnlineKeys
    var conns: D.Connections
    var offline: D.MsgLists
    var writes: seq<D.Write>
    var cache: Cache
    var lastId: nat
    const queue: Queue
    const limiter: RateLimiter
    ghost var state: D.State
    /** The `send_msg` actions so far, and which were let through. */
    ghost var attempts: seq<Attempt<int>>
    ghost var oks: seq<bool>

    /** The fields are what the step system says they are. */
    ghost predicate Valid()
      reads this, limiter
    {
      && Counted(attempts, oks, limiter.counters, now)
      && now == state.now
      && online == state.online
      && conns == state.conns
      && offline == state.box.offline
      && writes == state.past.writes
    }

    constructor ()
      ensures Valid() && state == D.START && fresh(queue) && fresh(limiter)
      ensures cache == map[] && lastId == 0 && queue.slots == [] && limiter.counters == map[] && attempts == []
    {
      now, online, conns, offline, writes := 0, map[], map[], map[], [];
      cache, lastId := map[], 0;
      queue := new Queue();
      limiter := new RateLimiter();
      state := D.START;
      attempts, oks := [], [];
    }

    // ---------- Redis commands ----------

    method SetOnline(user: int)
      modifies this`online
      ensures online == D.OnlineSet(old(online), user, now)
    {
      online := online[user := now + 30];
    }

    method DelOnline(user: int)
      modifies this`online
      ensures online == old(online) - {user}
    {
      online := online - {user};
    }

    method ExistsOnline(user: int) returns (ok: bool)
      ensures ok == D.IsOnline(online, user, now)
    {
      ok := user in online && now < online[user];
    }

    method PushOfflineMsg(m: D.Msg)
      modifies this`offline
      ensures offline == D.Pushed(old(offline), m)
    {
      var list := if m.to in offline then offline[m.to] else [];
      offline := offline[m.to := list + [m]];
    }

    method CacheMsg(m: D.Msg)
      modifies this`cache
      ensures cache == Cached(old(cache), Sent(m.from, m.to, m.payload, now))
      ensures ChatKey(m.from, m.to) in cache && cache[ChatKey(m.from, m.to)].deadline == now + 7200
    {
      var key := ChatKey(m.from, m.to);
      var z := if key in cache && now < cache[key].deadline then cache[key].entries else [];
      cache := cache[key := Zset(Zadd(z, now, m.payload), now + 7200)];
    }

    /** `redisPopOfflineMsgs` with nothing between its two commands: LRANGE, its
        reply copied out element by element, and DEL. */
    method PopOfflineMsgs(user: int) returns (result: seq<D.Msg>)
      modifies this`offline
      ensures result == D.ListOf(old(offline), user) && offline == old(offline) - {user}
    {
      var reply := if user in offline then offline[user] else [];
      result := [];
      var i := 0;
      while i < |reply|
        invariant 0 <= i <= |reply| && result == reply[..i]
        invariant offline == old(offline)
      {
        result := result + [reply[i]];
        i := i + 1;
      }
      offline := offline - {user};
    }

    // ---------- Sending ----------

    /** `SendMessage`: queue, cache, then write to the socket or push. */
    method SendMessage(m: D.Msg, content: Bytes, msgType: int, serial: nat, ok: bool) returns (mid: nat)
      requires Valid() && m !in state.past.accepted
      modifies this`lastId, this`cache, this`offline, this`writes, this`state, queue
      ensures Valid() && mid == lastId == old(lastId) + 1
      ensures |queue.slots| == |old(queue.slots)| + 1 && queue.slots[..|old(queue.slots)|] == old(queue.slots)
      ensures match queue.slots[|old(queue.slots)|]
              case Intact(r) => r.from == m.from && r.to == m.to && r.content == content && r.msgType == msgType && r.serial == serial
              case MovedFrom => false
      ensures cache == Cached(old(cache), Sent(m.from, m.to, m.payload, now))
      ensures state == D.Run(old(state), SendSteps(m, D.IsOnline(old(online), m.to, now), ok))
    {
      hide Counted, D.Run, SendSteps, Cached;
      lastId := lastId + 1;
      mid := lastId;
      queue.Enqueue(Record(serial, m.from, m.to, content, msgType));
      CacheMsg(m);
      Dispatch(m, ok);
    }

    /** From acceptance to the socket or the list. */
    method Dispatch(m: D.Msg, ok: bool)
      requires Valid() && m !in state.past.accepted
      modifies this`offline, this`writes, this`state
      ensures Valid()
      ensures state == D.Run(old(state), SendSteps(m, D.IsOnline(old(online), m.to, now), ok))
      ensures m.to in online && now < online[m.to] ==>
                && offline == old(offline)
                && writes == old(writes) + if m.to in conns && ok then [D.Write(conns[m.to], m, true)] else []
      ensures m.to !in online || now >= online[m.to] ==>
                && writes == old(writes) && m.to in offline && offline - {m.to} == old(offline) - {m.to}
                && offline[m.to] == (if m.to in old(offline) then old(offline)[m.to] else []) + [m]
    {
      hide Counted, D.Run, SendSteps;
      ghost var s := state;
      var isOnline := ExistsOnline(m.to);
      if isOnline {
        if m.to in conns && ok {
          writes := writes + [D.Write(conns[m.to], m, true)];
        }
      } else {
        PushOfflineMsg(m);
      }
      state := D.Run(s, SendSteps(m, isOnline, ok));
      SendIs(s, m, isOnline, ok);
    }

    /** The `send_msg` action: at most 30 a minute, then as `SendMessage`. */
    method SendAction(m: D.Msg, content: Bytes, serial: nat, ok: bool) returns (accepted: bool)
      requires Valid() && m !in state.past.accepted
      modifies this`lastId, this`cache, this`offline, this`writes, this`state, this`attempts, this`oks, queue, limiter
      ensures Valid() && attempts == old(attempts) + [Attempt(m.from, now)] && oks == old(oks) + [accepted]
      ensures var (c, pass) := Checked(old(limiter.At(RateKey(m.from))), MSG_MAX, MSG_WINDOW, now);
              accepted == pass && limiter.counters == old(limiter.counters)[RateKey(m.from) := c]
      ensures lastId == old(lastId) + if accepted then 1 else 0
      ensures !accepted ==>
                state == old(state) && cache == old(cache) && queue.slots == old(queue.slots)
                && offline == old(offline) && writes == old(writes)
      ensures accepted ==>
                && state == D.Run(old(state), SendSteps(m, D.IsOnline(old(online), m.to, now), ok))
                && cache == Cached(old(cache), Sent(m.from, m.to, m.payload, now))
                && |queue.slots| == |old(queue.slots)| + 1 && queue.slots[..|old(queue.slots)|] == old(queue.slots)
                && match queue.slots[|old(queue.slots)|]
                   case Intact(r) => r.from == m.from && r.to == m.to && r.content == content && r.msgType == 0 && r.serial == serial
                   case MovedFrom => false
    {
      hide Checked, Counted, Cached, SendSteps, D.Run, D.IsOnline, RateKey;
      CountedSnoc(attempts, oks, limiter.counters, now, m.from);
      accepted := limiter.Check(RateKey(m.from), 30, 60, now);
      attempts, oks := attempts + [Attempt(m.from, now)], oks + [accepted];
      if !accepted {
        return;
      }
      var _ := SendMessage(m, content, 0, serial, ok);
    }

    // ---------- Sessions ----------

    /** The offline messages, all in one frame of the socket. */
    method WriteFrames(id: int, batch: seq<D.Msg>)
      modifies this`writes
      ensures writes == old(writes) + D.Frames(id, batch)
    {
      var i := 0;
      while i < |batch|
        invariant 0 <= i <= |batch|
        invariant writes == old(writes) + D.Frames(id, batch[..i])
      {
        assert batch[..i + 1] == batch[..i] + [batch[i]];
        D.FramesSnoc(id, batch[..i], batch[i]);
        writes := writes + [D.Write(id, batch[i], false)];
        i := i + 1;
      }
      assert batch[..i] == batch;
    }

    /** A session's first `auth` message with a valid token: the online key, the
        map under its lock, then the offline list in one frame. */
    method Authenticate(id: int, user: int, ok: bool)
      requires Valid() && D.In(state, id, D.Connected)
      modifies this`online, this`conns, this`offline, this`writes, this`state
      ensures Valid()
      ensures state == D.Run(old(state), AuthSteps(id, user, ok))
    {
      hide Counted, D.Frames, D.Run, AuthSteps;
      ghost var s := state;
      SetOnline(user);
      conns := conns[user := id];
      var batch := PopOfflineMsgs(user);
      if ok {
        WriteFrames(id, batch);
      }
      state := D.Run(s, AuthSteps(id, user, ok));
      AuthIs(s, id, user, ok);
    }

    /** A new socket, and the clock. */
    method Connect(id: int)
      requires Valid() && id !in state.sessions
      modifies this`state
      ensures Valid() && state == D.Next(old(state), D.InSession(id, D.Connect))
    {
      state := D.Next(state, D.InSession(id, D.Connect));
    }

    method Tick()
      requires Valid()
      modifies this`now, this`state
      ensures Valid() && state == D.Next(old(state), D.Tick)
    {
      now := now + 1;
      state := D.Next(state, D.Tick);
    }

    method Ping(id: int, user: int)
      requires Valid() && D.In(state, id, D.Active) && state.sessions[id].user == user
      modifies this`online, this`state
      ensures Valid() && state == D.Next(old(state), D.InSession(id, D.Ping))
    {
      SetOnline(user);
      state := D.Next(state, D.InSession(id, D.Ping));
    }

    /** The end of a session's thread: out of the map first, then the key. */
    method Cleanup(id: int, user: int)
      requires Valid() && D.In(state, id, D.Active) && state.sessions[id].user == user
      modifies this`online, this`conns, this`state
      ensures Valid() && state == D.Run(old(state), CleanupSteps(id))
    {
      hide Counted, D.Run;
      ghost var s := state;
      conns := conns - {user};
      DelOnline(user);
      state := D.Run(s, CleanupSteps(id));
      CleanupIs(s, id, user);
    }

    /** `PullOfflineMessages`; `call` tells this call from all others. */
    method PullOfflineMessages(user: int, ghost call: int) returns (batch: seq<D.Msg>)
      requires Valid() && D.ByPull(call) !in state.box.pops
      modifies this`offline, this`state
      ensures Valid() && state == D.Run(old(state), PullSteps(user, call))
      ensures D.Taken(state.box, D.ByPull(call), user) && batch == state.box.pops[D.ByPull(call)].snapshot
      ensures batch == D.ListOf(old(offline), user) && user !in offline
    {
      ghost var s := state;
      batch := PopOfflineMsgs(user);
      state := D.Run(s, PullSteps(user, call));
      PullIs(s, user, call);
    }

    // ---------- History ----------

    /** `GetHistoryMessages`: the cached page, or the database if it is empty. */
    method GetHistoryMessages(u: int, v: int, limit: int, offset: int) returns (r: History)
      requires -INT32_MAX - 1 <= limit <= INT32_MAX && -INT32_MAX - 1 <= offset <= INT32_MAX
      ensures var size, live := PageSize(limit), LiveEntries(cache, ChatKey(u, v), now);
              if offset + size > INT32_MAX then r == Overflow
              else
                var page := ZRevRange(live, offset, offset + size - 1);
                r == if page == [] then FromDatabase(size, offset) else Page(Members(page))
      ensures var size, live := if limit > 0 then limit else 50, LiveEntries(cache, ChatKey(u, v), now);
              0 <= offset <= 0x7fff_ffff - size ==>
                if offset >= |live| then r == FromDatabase(size, offset)
                else
                  && r.Page?
                  && |r.members| == (if size <= |live| - offset then size else |live| - offset)
                  && forall k :: 0 <= k < |r.members| ==> r.members[k] == live[|live| - 1 - offset - k].member
    {
      var size := if limit > 0 then limit else 50;
      hide ZRevRange, LiveEntries, ChatKey;
      if offset + size > INT32_MAX {
        return Overflow;
      }
      var reply := ZRevRange(LiveEntries(cache, ChatKey(u, v), now), offset, offset + size - 1);
      var result, i := [], 0;
      while i < |reply|
        invariant 0 <= i <= |reply| && result == Members(reply[..i])
      {
        assert Members(reply[..i + 1]) == Members(reply[..i]) + [reply[i].member];
        result := result + [reply[i].member];
        i := i + 1;
      }
      assert reply[..i] == reply;
      PageAt(LiveEntries(cache, ChatKey(u, v), now), size, offset);
      r := if result == [] then FromDatabase(size, offset) else Page(result);
    }
  }
}

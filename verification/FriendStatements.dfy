/** The friend operations statement by statement: server/db_proxy.cpp runs each
    SQL statement on its own, without a transaction, so the statements of several
    answers and deletions interleave. */
module FriendStatements {
  import opened ByteStrings
  import F = Friends

  type Requests = seq<F.Request>
  type Rows = seq<F.Row>

  /** A friendship to be created: the accepting user, the friend, and both names. */
  datatype Pair = Pair(user: int, friend: int, friendName: Bytes, myName: Bytes)

  /** An answer under way: first its status update, then the four inserts of the two
      create calls. */
  datatype Thread = Thread(id: int, status: int, pair: Option<Pair>, pc: nat)

  datatype State = State(requests: Requests, rows: Rows, threads: map<int, Thread>)

  const START := State([], [], map[])

  datatype Event =
    | Send(from: int, to: int, fromName: Bytes, toName: Bytes)
    | Begin(t: int, user: int, id: int, accept: bool, myName: Bytes)
    | Exec(t: int)
    | Unfriend(user: int, friend: int)

  predicate Finished(th: Thread) {
    th.pc >= if th.pair.Some? then 5 else 1
  }

  predicate Enabled(s: State, e: Event) {
    match e
    case Send(_, _, _, _) => true
    case Begin(t, _, _, _, _) => t !in s.threads
    case Exec(t) => t in s.threads && !Finished(s.threads[t])
    case Unfriend(_, _) => true
  }

  /** What the request query finds, as far as the answer goes on with it. */
  function Found(requests: Requests, user: int, id: int, accept: bool, myName: Bytes): Option<Pair> {
    match F.SentTo(requests, user, id)
    case None => None
    case Some(r) => if accept && r.from > 0 then Some(Pair(user, r.from, r.fromName, myName)) else None
  }

  /** The row of the k-th insert, from 1 on. */
  function RowAt(p: Pair, k: nat): F.Row {
    if k == 1 then F.Row(p.user, p.friend, p.friendName)
    else if k == 2 then F.Row(p.friend, p.user, [])
    else if k == 3 then F.Row(p.friend, p.user, p.myName)
    else F.Row(p.user, p.friend, [])
  }

  /** One statement of an answer. */
  function Executed(s: State, t: int): State
    requires t in s.threads
  {
    var th := s.threads[t];
    var rest := s.(threads := s.threads[t := th.(pc := th.pc + 1)]);
    if th.pc == 0 then rest.(requests := F.WithStatus(s.requests, th.id, th.status))
    else if th.pair.Some? then rest.(rows := F.Inserted(s.rows, RowAt(th.pair.value, th.pc)))
    else rest
  }

  function Step(s: State, e: Event): State
    requires Enabled(s, e)
  {
    match e
    case Send(from, to, fromName, toName) =>
      s.(requests := s.requests + [F.Request(|s.requests| + 1, from, to, fromName, toName, 0)])
    case Begin(t, user, id, accept, myName) =>
      s.(threads := s.threads[t := Thread(id, if accept then 1 else 2, Found(s.requests, user, id, accept, myName), 0)])
    case Exec(t) => Executed(s, t)
    case Unfriend(user, friend) => s.(rows := F.WithoutPair(s.rows, user, friend))
  }

  /** An event that cannot happen in a state is skipped. */
  function Next(s: State, e: Event): State {
    if Enabled(s, e) then Step(s, e) else s
  }

  function Run(s: State, events: seq<Event>): State
    decreases |events|
  {
    if |events| == 0 then s else Run(Next(s, events[0]), events[1..])
  }

  // ---------- An answer by itself ----------

  lemma RunAnswer(s: State, begin: Event, exec: Event)
    ensures Run(s, [begin, exec, exec, exec, exec, exec])
            == Next(Next(Next(Next(Next(Next(s, begin), exec), exec), exec), exec), exec)
  {
    hide Next;
    var e := [begin, exec, exec, exec, exec, exec];
    assert e[1..] == [exec, exec, exec, exec, exec] && e[1..][1..] == [exec, exec, exec, exec];
    assert [exec, exec, exec, exec][1..] == [exec, exec, exec] && [exec, exec, exec][1..] == [exec, exec];
    assert [exec, exec][1..] == [exec] && [exec][1..] == [];
    var t := Next(Next(s, begin), exec);
    assert Run(s, e) == Run(t, [exec, exec, exec, exec]);
    var u := Next(Next(t, exec), exec);
    assert Run(t, [exec, exec, exec, exec]) == Run(u, [exec, exec]);
    assert Run(u, [exec, exec]) == Run(Next(Next(u, exec), exec), []);
  }

  /** With nothing between its statements an answer is the one step of `Friends`. */
  lemma AnswerAlone(s: State, t: int, user: int, id: int, accept: bool, myName: Bytes)
    requires t !in s.threads
    ensures var begin, exec := Begin(t, user, id, accept, myName), Exec(t);
            var after := Run(s, [begin, exec, exec, exec, exec, exec]);
            F.Db(after.requests, after.rows) == F.Step(F.Db(s.requests, s.rows), F.Handle(user, id, accept, myName))
  {
    hide F.SentTo, F.Inserted, F.WithStatus;
    RunAnswer(s, Begin(t, user, id, accept, myName), Exec(t));
    var s0 := Next(s, Begin(t, user, id, accept, myName));
    var s1 := Next(s0, Exec(t));
    assert s1.requests == F.WithStatus(s.requests, id, if accept then 1 else 2) && s1.rows == s.rows;
    Inserts(s1, t);
  }

  lemma Inserts(s: State, t: int)
    requires t in s.threads && s.threads[t].pc == 1
    ensures var after := Next(Next(Next(Next(s, Exec(t)), Exec(t)), Exec(t)), Exec(t));
            && after.requests == s.requests
            && after.rows == match s.threads[t].pair
                             case None => s.rows
                             case Some(p) =>
                               F.Befriended(F.Befriended(s.rows, p.user, p.friend, p.friendName), p.friend, p.user, p.myName)
  {
    hide F.Inserted, F.WithStatus;
    if s.threads[t].pair.Some? {
      var s1 := Next(s, Exec(t));
      var s2 := Next(s1, Exec(t));
      assert s1.threads[t].pc == 2 && s2.threads[t].pc == 3 && s2.threads[t].pair == s.threads[t].pair;
      assert s2.rows == F.Befriended(s.rows, s.threads[t].pair.value.user, s.threads[t].pair.value.friend, s.threads[t].pair.value.friendName);
    }
  }

  // ---------- What every interleaving keeps ----------

  predicate ThreadsBacked(s: State) {
    forall t :: t in s.threads && s.threads[t].pair.Some? ==>
      F.Requested(s.requests, s.threads[t].pair.value.user, s.threads[t].pair.value.friend)
  }

  predicate Inv(s: State) {
    && F.IdsOk(s.requests) && F.OneRowPerPair(s.rows) && F.Backed(F.Db(s.requests, s.rows)) && ThreadsBacked(s)
  }

  lemma RequestsGrow(requests: Requests, r: F.Request, u: int, v: int)
    requires F.Requested(requests, u, v)
    ensures F.Requested(requests + [r], u, v)
  {
    var i :| 0 <= i < |requests| && {requests[i].from, requests[i].to} == {u, v};
    assert (requests + [r])[i] == requests[i];
  }

  lemma SendKeeps(s: State, r: F.Request)
    requires Inv(s) && r.id == |s.requests| + 1
    ensures Inv(s.(requests := s.requests + [r]))
  {
    hide F.Requested, F.OneRowPerPair;
    var next := s.requests + [r];
    forall k | 0 <= k < |s.rows| ensures F.Requested(next, s.rows[k].user, s.rows[k].friend) {
      RequestsGrow(s.requests, r, s.rows[k].user, s.rows[k].friend);
    }
    forall t | t in s.threads && s.threads[t].pair.Some?
      ensures F.Requested(next, s.threads[t].pair.value.user, s.threads[t].pair.value.friend)
    {
      RequestsGrow(s.requests, r, s.threads[t].pair.value.user, s.threads[t].pair.value.friend);
    }
  }

  lemma BeginKeeps(s: State, t: int, user: int, id: int, accept: bool, myName: Bytes)
    requires Inv(s) && t !in s.threads
    ensures Inv(Step(s, Begin(t, user, id, accept, myName)))
  {
    hide F.OneRowPerPair, F.Backed, F.IdsOk;
    var sent := F.SentTo(s.requests, user, id);
    if sent.Some? {
      assert {sent.value.from, sent.value.to} == {user, sent.value.from};
      assert F.Requested(s.requests, user, sent.value.from);
    }
  }

  lemma StatusKeeps(s: State, t: int)
    requires Inv(s) && t in s.threads && s.threads[t].pc == 0
    ensures Inv(Executed(s, t))
  {
    hide F.Requested, F.OneRowPerPair, F.HasRow;
    var th := s.threads[t];
    forall u, v | F.Requested(s.requests, u, v) ensures F.Requested(F.WithStatus(s.requests, th.id, th.status), u, v) {
      F.RequestsKept(s.requests, th.id, th.status, u, v);
    }
  }

  lemma InsertKeeps(s: State, t: int)
    requires Inv(s) && t in s.threads && s.threads[t].pc > 0
    ensures Inv(Executed(s, t))
  {
    hide F.Requested, F.OneRowPerPair, F.Inserted, F.IdsOk, F.Backed;
    var th := s.threads[t];
    if th.pair.Some? {
      var p := th.pair.value;
      var row := RowAt(p, th.pc);
      F.InsertKeepsOneRow(s.rows, row);
      assert F.Requested(s.requests, row.user, row.friend) by { RequestedEither(s.requests, p.user, p.friend); }
      F.InsertKeepsBacked(s.requests, s.rows, row);
    }
  }

  lemma RequestedEither(requests: Requests, u: int, v: int)
    ensures F.Requested(requests, u, v) <==> F.Requested(requests, v, u)
  {
    assert {u, v} == {v, u};
  }

  lemma UnfriendKeeps(s: State, user: int, friend: int)
    requires Inv(s)
    ensures Inv(s.(rows := F.WithoutPair(s.rows, user, friend)))
  {
    hide F.Requested, F.IdsOk, F.OneRowPerPair;
    F.WithoutPairOneRow(s.rows, user, friend);
    var kept := F.WithoutPair(s.rows, user, friend);
    forall k | 0 <= k < |kept| ensures F.Requested(s.requests, kept[k].user, kept[k].friend) {
      F.WithoutPairRows(s.rows, user, friend, kept[k]);
      var i :| 0 <= i < |s.rows| && s.rows[i] == kept[k];
    }
  }

  lemma StepKeepsInv(s: State, e: Event)
    requires Enabled(s, e) && Inv(s)
    ensures Inv(Step(s, e))
  {
    hide Inv, Executed;
    match e
    case Send(from, to, fromName, toName) => SendKeeps(s, F.Request(|s.requests| + 1, from, to, fromName, toName, 0));
    case Begin(t, user, id, accept, myName) => BeginKeeps(s, t, user, id, accept, myName);
    case Exec(t) => if s.threads[t].pc == 0 { StatusKeeps(s, t); } else { InsertKeeps(s, t); }
    case Unfriend(user, friend) => UnfriendKeeps(s, user, friend);
  }

  lemma {:induction false} RunKeepsInv(s: State, events: seq<Event>)
    requires Inv(s)
    ensures Inv(Run(s, events))
    decreases |events|
  {
    hide Inv, Step, Enabled;
    if |events| > 0 {
      if Enabled(s, events[0]) { StepKeepsInv(s, events[0]); }
      RunKeepsInv(Next(s, events[0]), events[1..]);
    }
  }

  /** However the statements interleave, each ordered pair has one row and every row
      goes back to a stored request between the same two users. */
  lemma OneRowAlways(events: seq<Event>)
    ensures var s := Run(START, events); F.OneRowPerPair(s.rows) && F.Backed(F.Db(s.requests, s.rows))
  {
    RunKeepsInv(START, events);
  }

  // ---------- Symmetry ----------

  predicate Creates(th: Thread, u: int, v: int) {
    th.pair.Some? && !Finished(th)
    && ((th.pair.value.user == u && th.pair.value.friend == v) || (th.pair.value.user == v && th.pair.value.friend == u))
  }

  /** A creation of the pair is under way. */
  predicate InFlight(s: State, u: int, v: int) {
    exists t :: t in s.threads && Creates(s.threads[t], u, v)
  }

  /** A creation of the pair has only its last insert to do. */
  predicate Ending(s: State, u: int, v: int) {
    exists t :: t in s.threads && Creates(s.threads[t], u, v) && s.threads[t].pc == 4
  }

  /** Outside creations under way, friendship is symmetric. */
  ghost predicate SymmetricOutside(s: State) {
    forall u, v :: InFlight(s, u, v) || (F.HasRow(s.rows, u, v) <==> F.HasRow(s.rows, v, u))
  }

  /** A creation about to end has its reverse row. */
  predicate EndsWell(s: State, t: int)
    requires t in s.threads
  {
    var th := s.threads[t];
    th.pair.Some? && th.pc == 4 ==> F.HasRow(s.rows, th.pair.value.friend, th.pair.value.user)
  }

  ghost predicate SymInv(s: State) {
    SymmetricOutside(s) && forall t :: t in s.threads ==> EndsWell(s, t)
  }

  /** No deletion of a pair falls between the last two inserts of its creation. */
  predicate Clean(s: State, e: Event) {
    e.Unfriend? ==> !Ending(s, e.user, e.friend)
  }

  predicate CleanRun(s: State, events: seq<Event>)
    decreases |events|
  {
    |events| == 0 || (Clean(s, events[0]) && CleanRun(Next(s, events[0]), events[1..]))
  }

  lemma HasAfterDelete(rows: Rows, user: int, friend: int, u: int, v: int)
    ensures F.HasRow(F.WithoutPair(rows, user, friend), u, v) <==> F.HasRow(rows, u, v) && {u, v} != {user, friend}
  {
    var kept := F.WithoutPair(rows, user, friend);
    if F.HasRow(kept, u, v) {
      var k :| 0 <= k < |kept| && kept[k].user == u && kept[k].friend == v;
      F.WithoutPairRows(rows, user, friend, kept[k]);
      var i :| 0 <= i < |rows| && rows[i] == kept[k];
    }
    if F.HasRow(rows, u, v) && {u, v} != {user, friend} {
      var k :| 0 <= k < |rows| && rows[k].user == u && rows[k].friend == v;
      F.WithoutPairRows(rows, user, friend, rows[k]);
      var i :| 0 <= i < |kept| && kept[i] == rows[k];
    }
  }

  lemma SymUnfriend(s: State, user: int, friend: int)
    requires SymInv(s) && !Ending(s, user, friend)
    ensures SymInv(s.(rows := F.WithoutPair(s.rows, user, friend)))
  {
    hide F.HasRow, F.WithoutPair;
    var next := s.(rows := F.WithoutPair(s.rows, user, friend));
    forall u, v ensures InFlight(next, u, v) || (F.HasRow(next.rows, u, v) <==> F.HasRow(next.rows, v, u)) {
      assert {u, v} == {v, u};
      HasAfterDelete(s.rows, user, friend, u, v);
      HasAfterDelete(s.rows, user, friend, v, u);
      assert InFlight(next, u, v) <==> InFlight(s, u, v);
    }
    forall t | t in next.threads ensures EndsWell(next, t) {
      assert EndsWell(s, t);
      var th := s.threads[t];
      if th.pair.Some? && th.pc == 4 {
        var p := th.pair.value;
        HasAfterDelete(s.rows, user, friend, p.friend, p.user);
        F.SamePair(p.friend, p.user, user, friend);
      }
    }
  }

  lemma SymBegin(s: State, t: int, th: Thread)
    requires SymInv(s) && t !in s.threads && th.pc == 0
    ensures SymInv(s.(threads := s.threads[t := th]))
  {
    hide F.HasRow;
    var next := s.(threads := s.threads[t := th]);
    forall u, v ensures InFlight(next, u, v) || (F.HasRow(next.rows, u, v) <==> F.HasRow(next.rows, v, u)) {
      if InFlight(s, u, v) {
        var x :| x in s.threads && Creates(s.threads[x], u, v);
        assert x in next.threads && Creates(next.threads[x], u, v);
      }
    }
    forall x | x in next.threads ensures EndsWell(next, x) { assert x != t ==> EndsWell(s, x); }
  }

  lemma SymExec(s: State, t: int)
    requires SymInv(s) && t in s.threads && !Finished(s.threads[t])
    ensures SymInv(Executed(s, t))
  {
    hide F.HasRow, F.Inserted, F.WithStatus;
    var th, next := s.threads[t], Executed(s, t);
    forall u, v ensures InFlight(next, u, v) || (F.HasRow(next.rows, u, v) <==> F.HasRow(next.rows, v, u)) {
      SymExecPair(s, t, u, v);
    }
    forall x | x in next.threads ensures EndsWell(next, x) { EndsExec(s, t, x); }
  }

  /** Rows are only added. */
  lemma ExecRows(s: State, t: int, u: int, v: int)
    requires t in s.threads
    ensures var th := s.threads[t];
            F.HasRow(Executed(s, t).rows, u, v) <==>
              F.HasRow(s.rows, u, v)
              || (th.pc > 0 && th.pair.Some? && RowAt(th.pair.value, th.pc).user == u && RowAt(th.pair.value, th.pc).friend == v)
  {
    hide F.HasRow, F.Inserted, F.WithStatus;
    var th := s.threads[t];
    if th.pair.Some? { F.HasAfterInsert(s.rows, RowAt(th.pair.value, th.pc), u, v); }
  }

  lemma EndsExec(s: State, t: int, x: int)
    requires t in s.threads && x in s.threads && EndsWell(s, x)
    ensures EndsWell(Executed(s, t), x)
  {
    var th := s.threads[x];
    if th.pair.Some? {
      ExecRows(s, t, th.pair.value.friend, th.pair.value.user);
    }
    hide F.HasRow, F.Inserted, F.WithStatus;
  }

  lemma SymExecPair(s: State, t: int, u: int, v: int)
    requires SymInv(s) && t in s.threads && !Finished(s.threads[t])
    ensures var next := Executed(s, t);
            InFlight(next, u, v) || (F.HasRow(next.rows, u, v) <==> F.HasRow(next.rows, v, u))
  {
    var th, next := s.threads[t], Executed(s, t);
    assert EndsWell(s, t);
    assert InFlight(s, u, v) || (F.HasRow(s.rows, u, v) <==> F.HasRow(s.rows, v, u));
    ExecRows(s, t, u, v);
    ExecRows(s, t, v, u);
    hide F.HasRow, F.Inserted, F.WithStatus, SymInv;
    if Creates(th, u, v) {
      if th.pc < 4 {
        assert Creates(next.threads[t], u, v);
      }
    } else if InFlight(s, u, v) {
      var x :| x in s.threads && Creates(s.threads[x], u, v);
      assert x != t && x in next.threads && Creates(next.threads[x], u, v);
    }
  }

  lemma SymStep(s: State, e: Event)
    requires Enabled(s, e) && Clean(s, e) && SymInv(s)
    ensures SymInv(Step(s, e))
  {
    hide Executed, Ending;
    match e
    case Send(_, _, _, _) => SameRows(s, Step(s, e));
    case Begin(t, user, id, accept, myName) => SymBegin(s, t, Step(s, e).threads[t]);
    case Exec(t) => SymExec(s, t);
    case Unfriend(user, friend) => SymUnfriend(s, user, friend);
  }

  lemma SameRows(s: State, t: State)
    requires SymInv(s) && t.rows == s.rows && t.threads == s.threads
    ensures SymInv(t)
  {
    hide F.HasRow;
    forall u, v ensures InFlight(t, u, v) || (F.HasRow(t.rows, u, v) <==> F.HasRow(t.rows, v, u)) {
      assert InFlight(t, u, v) <==> InFlight(s, u, v);
    }
    forall x | x in t.threads ensures EndsWell(t, x) { assert EndsWell(s, x); }
  }

  lemma {:induction false} SymRun(s: State, events: seq<Event>)
    requires SymInv(s) && CleanRun(s, events)
    ensures SymInv(Run(s, events))
    decreases |events|
  {
    hide SymInv, Step, Enabled, Clean;
    if |events| > 0 {
      if Enabled(s, events[0]) { SymStep(s, events[0]); }
      SymRun(Next(s, events[0]), events[1..]);
    }
  }

  lemma SymStart()
    ensures SymInv(START)
  {
  }

  /** In every interleaving in which no deletion of a pair falls between the last two
      inserts of its creation, friendship is symmetric outside creations under way. */
  lemma SymmetryOfStatements(events: seq<Event>, u: int, v: int)
    requires CleanRun(START, events)
    ensures var s := Run(START, events);
            InFlight(s, u, v) || (F.HasRow(s.rows, u, v) <==> F.HasRow(s.rows, v, u))
  {
    SymStart();
    SymRun(START, events);
    hide Run;
  }

  /** That deletion is the one that does harm: in any state where it can fall there,
      what it leaves behind is one row without its reverse, and nothing under way to
      put it right. */
  lemma DeleteBeforeLastInsert(s: State, t: int)
    requires t in s.threads && s.threads[t].pair.Some? && s.threads[t].pc == 4
    requires var p := s.threads[t].pair.value;
             p.user != p.friend && forall x :: x in s.threads && Creates(s.threads[x], p.user, p.friend) ==> x == t
    ensures var p := s.threads[t].pair.value;
            var after := Next(Next(s, Unfriend(p.user, p.friend)), Exec(t));
            && F.HasRow(after.rows, p.user, p.friend) && !F.HasRow(after.rows, p.friend, p.user)
            && !InFlight(after, p.user, p.friend)
  {
    hide F.HasRow, F.WithoutPair, F.Inserted;
    var p := s.threads[t].pair.value;
    var between := Next(s, Unfriend(p.user, p.friend));
    assert {p.friend, p.user} == {p.user, p.friend};
    HasAfterDelete(s.rows, p.user, p.friend, p.friend, p.user);
    ExecRows(between, t, p.user, p.friend);
    ExecRows(between, t, p.friend, p.user);
  }
}

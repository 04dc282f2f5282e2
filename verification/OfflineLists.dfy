/** One user's offline list, popped in two commands by one popper at a time: the
    account of its pushes, and every such list of `Delivery` as an instance. */
module OfflineLists {
  import opened ByteStrings
  import D = Delivery

  type Text = D.Msg

  /** A finished pop: what it returned, and what was pushed too late for it and
      deleted with it. */
  datatype Popped = Popped(delivered: seq<Text>, late: seq<Text>)

  /** `range` is what a pop under way has read; `since` and `log` are histories
      of the pushes after it and of all pushes. */
  datatype State = State(list: seq<Text>, range: Option<seq<Text>>, since: seq<Text>, pops: seq<Popped>, log: seq<Text>)

  const START := State([], None, [], [], [])

  datatype Event = Push(data: Text) | Range | Del

  function Step(s: State, e: Event): State {
    match e
    case Push(data) => s.(list := s.list + [data], since := s.since + [data], log := s.log + [data])
    case Range => if s.range.Some? then s else s.(range := Some(s.list), since := [])
    case Del =>
      if s.range.None? then s
      else State([], None, [], s.pops + [Popped(s.range.value, s.since)], s.log)
  }

  function Run(s: State, events: seq<Event>): State
    decreases |events|
  {
    if |events| == 0 then s else Run(Step(s, events[0]), events[1..])
  }

  /** d1 ++ l1 ++ d2 ++ l2 ++ ... */
  function Account(pops: seq<Popped>): seq<Text> {
    if |pops| == 0 then []
    else Account(pops[..|pops| - 1]) + pops[|pops| - 1].delivered + pops[|pops| - 1].late
  }

  function Delivered(pops: seq<Popped>): seq<Text> {
    if |pops| == 0 then [] else Delivered(pops[..|pops| - 1]) + pops[|pops| - 1].delivered
  }

  predicate Inv(s: State) {
    && s.log == Account(s.pops) + s.list
    && (s.range.Some? ==> s.list == s.range.value + s.since)
  }

  lemma StepKeepsInv(s: State, e: Event)
    requires Inv(s)
    ensures Inv(Step(s, e))
  {
    match e
    case Push(data) =>
      assert Account(s.pops) + (s.list + [data]) == Account(s.pops) + s.list + [data];
      assert s.range.Some? ==> s.list + [data] == s.range.value + (s.since + [data]);
    case Range =>
      assert s.list + [] == s.list;
    case Del =>
      if s.range.Some? {
        var p := Popped(s.range.value, s.since);
        assert (s.pops + [p])[..|s.pops|] == s.pops;
        assert Account(s.pops + [p]) == Account(s.pops) + (p.delivered + p.late);
      }
  }

  lemma {:induction false} RunKeepsInv(s: State, events: seq<Event>)
    requires Inv(s)
    ensures Inv(Run(s, events))
    decreases |events|
  {
    hide Inv, Step;
    if |events| > 0 {
      StepKeepsInv(s, events[0]);
      RunKeepsInv(Step(s, events[0]), events[1..]);
    }
  }

  /** Every push is accounted for, in order: returned by a pop, deleted by the
      pop it came too late for, or still listed. */
  lemma PushesAccountedFor(events: seq<Event>)
    ensures var s := Run(START, events); s.log == Account(s.pops) + s.list
  {
    RunKeepsInv(START, events);
  }

  lemma {:induction false} NothingLate(pops: seq<Popped>)
    ensures Account(pops) == Delivered(pops) <==> forall p :: p in pops ==> p.late == []
    ensures |Account(pops)| >= |Delivered(pops)|
    decreases |pops|
  {
    if |pops| > 0 {
      var front, last := pops[..|pops| - 1], pops[|pops| - 1];
      NothingLate(front);
      assert pops == front + [last];
      assert |Account(pops)| == |Account(front)| + |last.delivered| + |last.late|;
      assert |Delivered(pops)| == |Delivered(front)| + |last.delivered|;
      if last.late == [] && Account(front) == Delivered(front) {
        assert Account(pops) == Delivered(pops);
      }
      if Account(pops) == Delivered(pops) {
        assert |Account(front)| == |Delivered(front)|;
        assert Account(front) == Account(pops)[..|Account(front)|] == Delivered(front);
      }
    }
  }

  /** The pops return every push once and in order exactly when none came between
      an LRANGE and its DEL. */
  lemma ExactlyOnceFifo(events: seq<Event>)
    ensures var s := Run(START, events);
            s.log == Delivered(s.pops) + s.list <==> forall p :: p in s.pops ==> p.late == []
  {
    PushesAccountedFor(events);
    var s := Run(START, events);
    hide Run;
    NothingLate(s.pops);
    if s.log == Delivered(s.pops) + s.list {
      assert |Account(s.pops)| == |Delivered(s.pops)|;
      assert Account(s.pops) == s.log[..|Account(s.pops)|] == Delivered(s.pops);
    }
  }

  // ---------- The lists of the message service ----------

  /** All that came too late, pop after pop. */
  function Lates(pops: seq<Popped>): seq<Text> {
    if |pops| == 0 then [] else Lates(pops[..|pops| - 1]) + pops[|pops| - 1].late
  }

  predicate HasOpen(box: D.Box, user: int) {
    exists p :: p in box.pops && D.Open(box, p, user)
  }

  /** A user's list in the message service, seen as this module's state. */
  ghost predicate Tracks(box: D.Box, user: int, o: State) {
    && Inv(o)
    && o.list == D.ListOf(box.offline, user) && o.log == D.LogOf(box, user)
    && (forall p :: D.Open(box, p, user) ==> o.range == Some(box.pops[p].snapshot))
    && (o.range.Some? ==> HasOpen(box, user))
  }

  /** `order` names the finished pops of the user's list, each once, in the order of
      their parts in the account. */
  predicate InOrder(box: D.Box, user: int, pops: seq<Popped>, order: seq<D.Popper>) {
    && |order| == |pops|
    && (forall j, k :: 0 <= j < k < |order| ==> order[j] != order[k])
    && (forall k :: 0 <= k < |order| ==> IsPop(box, user, pops, k, order[k]))
    && (forall p :: p in box.pops && D.Taken(box, p, user) ==> p in order)
  }

  predicate IsPop(box: D.Box, user: int, pops: seq<Popped>, k: nat, p: D.Popper)
    requires k < |pops|
  {
    && D.Taken(box, p, user) && pops[k].delivered == box.pops[p].snapshot
    && box.pops[p].from == |Account(pops[..k])|
  }

  /** What came too late is what the service has dropped of the user's messages. */
  ghost predicate LateIsDropped(dropped: multiset<Text>, user: int, pops: seq<Popped>) {
    forall m: Text :: m.to == user ==> dropped[m] == multiset(Lates(pops))[m]
  }

  ghost predicate Follows(box: D.Box, dropped: multiset<Text>, user: int, o: State, order: seq<D.Popper>) {
    Tracks(box, user, o) && InOrder(box, user, o.pops, order) && LateIsDropped(dropped, user, o.pops)
  }

  /** Nothing about the user's list. */
  predicate Untouched(box: D.Box, t: D.Box, user: int) {
    && D.ListOf(t.offline, user) == D.ListOf(box.offline, user) && D.LogOf(t, user) == D.LogOf(box, user)
    && (forall p :: p in t.pops && t.pops[p].user == user ==> p in box.pops && t.pops[p] == box.pops[p])
    && (forall p :: p in box.pops && box.pops[p].user == user ==> p in t.pops && t.pops[p] == box.pops[p])
  }

  lemma UntouchedTracks(box: D.Box, t: D.Box, user: int, o: State)
    requires Tracks(box, user, o) && Untouched(box, t, user)
    ensures Tracks(t, user, o)
  {
    hide D.ListOf, D.LogOf, Inv;
    if o.range.Some? {
      var p :| p in box.pops && D.Open(box, p, user);
      assert D.Open(t, p, user);
    }
  }

  /** The finished pops of the user stay as they are. */
  predicate SameDone(box: D.Box, t: D.Box, user: int) {
    && (forall p :: p in t.pops && D.Taken(t, p, user) ==> D.Taken(box, p, user))
    && (forall p :: p in box.pops && D.Taken(box, p, user) ==> D.Taken(t, p, user) && t.pops[p] == box.pops[p])
  }

  lemma SameOrder(box: D.Box, t: D.Box, user: int, pops: seq<Popped>, order: seq<D.Popper>)
    requires InOrder(box, user, pops, order) && SameDone(box, t, user)
    ensures InOrder(t, user, pops, order)
  {
    hide Account;
    forall k | 0 <= k < |order| ensures IsPop(t, user, pops, k, order[k]) {
      assert IsPop(box, user, pops, k, order[k]);
    }
  }

  lemma PushTracks(box: D.Box, m: D.Msg, user: int, o: State)
    requires Tracks(box, user, o)
    ensures Tracks(D.BoxPushed(box, m), user, if m.to == user then Step(o, Push(m)) else o)
    ensures SameDone(box, D.BoxPushed(box, m), user)
  {
    D.PushedLists(box.offline, m, user);
    D.PushedLists(box.logs, m, user);
    hide D.Pushed, D.ListOf;
    StepKeepsInv(o, Push(m));
    hide Inv;
    var t := D.BoxPushed(box, m);
    assert forall p :: D.Open(t, p, user) <==> D.Open(box, p, user);
    if o.range.Some? {
      var p :| p in box.pops && D.Open(box, p, user);
      assert D.Open(t, p, user);
    }
  }

  lemma RangeTracks(box: D.Box, who: int, p: D.Popper, user: int, o: State)
    requires Tracks(box, user, o) && p !in box.pops && D.NoOverlap(D.Ranged(box, who, p), user)
    ensures Tracks(D.Ranged(box, who, p), user, if who == user then Step(o, Range) else o)
    ensures SameDone(box, D.Ranged(box, who, p), user)
  {
    var t := D.Ranged(box, who, p);
    assert t.pops[p].during == D.OpenPops(box, who);
    hide D.NoOverlap, Inv;
    StepKeepsInv(o, Range);
    if who != user {
      UntouchedTracks(box, t, user, o);
    } else {
      forall q ensures !D.Open(box, q, user) { D.OpenIn(box, user, q); }
      assert D.Open(t, p, user);
      hide D.OpenPops, D.ListOf, D.Start;
      forall q | D.Open(t, q, user) ensures q == p { assert q != p ==> D.Open(box, q, user); }
    }
  }

  lemma DeleteTracks(box: D.Box, who: int, p: D.Popper, user: int, o: State)
    requires Tracks(box, user, o) && D.Open(box, p, who) && D.SerialOk(box, user)
    ensures Tracks(D.Deleted(box, who, p), user, if who == user then Step(o, Del) else o)
  {
    var t := D.Deleted(box, who, p);
    D.ListWithout(box.offline, who, user);
    StepKeepsInv(o, Del);
    hide Inv;
    if who != user {
      UntouchedTracks(box, t, user, o);
    } else {
      hide D.ListOf, D.Start;
      forall q ensures !D.Open(t, q, user) { assert D.Open(t, q, user) ==> D.Open(box, q, user); }
    }
  }

  /** What a DEL finds, and where it puts it. */
  lemma DelAppends(box: D.Box, p: D.Popper, user: int, o: State)
    requires Tracks(box, user, o) && D.Open(box, p, user) && D.SerialOk(box, user) && D.Suffix(box, user)
    ensures o.range == Some(box.pops[p].snapshot) && D.ListOf(box.offline, user) == box.pops[p].snapshot + o.since
    ensures Step(o, Del).pops == o.pops + [Popped(box.pops[p].snapshot, o.since)]
    ensures box.pops[p].from == |Account(o.pops)|
  {
    hide Account, D.ListOf, D.LogOf;
  }

  /** A DEL makes its pop a finished one and leaves the others. */
  lemma DeleteDone(box: D.Box, p: D.Popper, user: int)
    requires D.Open(box, p, user)
    ensures var t := D.Deleted(box, user, p);
            && !D.Taken(box, p, user) && D.Taken(t, p, user) && t.pops.Keys == box.pops.Keys
            && t.pops[p].snapshot == box.pops[p].snapshot && t.pops[p].from == box.pops[p].from
            && forall q :: q in box.pops && q != p ==> t.pops[q] == box.pops[q]
  {
    hide D.ListOf;
  }

  lemma AppendPop(box: D.Box, t: D.Box, user: int, pops: seq<Popped>, last: Popped, order: seq<D.Popper>, p: D.Popper, k: nat)
    requires InOrder(box, user, pops, order) && k <= |order| && p in t.pops && t.pops.Keys == box.pops.Keys
    requires forall q :: q in box.pops && q != p ==> t.pops[q] == box.pops[q]
    requires !D.Taken(box, p, user) && D.Taken(t, p, user)
    requires last.delivered == t.pops[p].snapshot && t.pops[p].from == |Account(pops)|
    ensures IsPop(t, user, pops + [last], k, (order + [p])[k]) && (k < |order| ==> order[k] != p)
  {
    hide Account;
    if k < |order| {
      assert IsPop(box, user, pops, k, order[k]);
      assert (pops + [last])[..k] == pops[..k];
    } else {
      assert (pops + [last])[..k] == pops;
    }
  }

  /** The DEL appends its pop to the order, at the end of what the account has. */
  lemma DeleteOrders(box: D.Box, p: D.Popper, user: int, o: State, order: seq<D.Popper>)
    requires Tracks(box, user, o) && InOrder(box, user, o.pops, order)
    requires D.Open(box, p, user) && D.SerialOk(box, user) && D.Suffix(box, user)
    ensures InOrder(D.Deleted(box, user, p), user, Step(o, Del).pops, order + [p])
  {
    var t, last, next := D.Deleted(box, user, p), Popped(box.pops[p].snapshot, o.since), order + [p];
    DelAppends(box, p, user, o);
    DeleteDone(box, p, user);
    hide Account, D.Deleted, D.SerialOk, D.Suffix, Tracks, Step, IsPop;
    forall k | 0 <= k < |next| ensures IsPop(t, user, o.pops + [last], k, next[k]) && (k < |order| ==> order[k] != p) {
      AppendPop(box, t, user, o.pops, last, order, p, k);
    }
    forall q | q in t.pops && D.Taken(t, q, user) ensures q in next {
      assert q != p ==> D.Taken(box, q, user);
    }
  }

  lemma DeleteSameDone(box: D.Box, who: int, p: D.Popper, user: int)
    requires who != user && D.Open(box, p, who)
    ensures SameDone(box, D.Deleted(box, who, p), user)
  {
    hide D.ListOf;
  }

  lemma LatesSnoc(pops: seq<Popped>, last: Popped)
    ensures multiset(Lates(pops + [last])) == multiset(Lates(pops)) + multiset(last.late)
  {
    assert (pops + [last])[..|pops|] == pops;
  }

  lemma Rest(a: seq<Text>, b: seq<Text>)
    ensures multiset(a + b) - multiset(a) == multiset(b)
  {
  }

  lemma LateAdds(box: D.Box, dropped: multiset<Text>, p: D.Popper, user: int, o: State)
    requires Tracks(box, user, o) && LateIsDropped(dropped, user, o.pops)
    requires D.Open(box, p, user) && D.SerialOk(box, user) && D.Suffix(box, user)
    ensures LateIsDropped(dropped + D.Late(box, user, p), user, Step(o, Del).pops)
  {
    DelAppends(box, p, user, o);
    LatesSnoc(o.pops, Popped(box.pops[p].snapshot, o.since));
    Rest(box.pops[p].snapshot, o.since);
    hide Lates, Tracks, Step, D.SerialOk, D.Suffix, D.ListOf, Account;
    assert D.Late(box, user, p) == multiset(o.since);
  }

  lemma OthersLate(box: D.Box, dropped: multiset<Text>, who: int, p: D.Popper, user: int, pops: seq<Popped>)
    requires LateIsDropped(dropped, user, pops) && D.BoxOk(box) && who != user
    ensures LateIsDropped(dropped + D.Late(box, who, p), user, pops)
  {
    hide D.BoxOk, D.ListOf;
    forall m: Text | m.to == user ensures D.Late(box, who, p)[m] == 0 {
      assert m !in D.ListOf(box.offline, who) by { BoxParts(box, user); D.OthersList(box, who, m); }
    }
  }

  lemma BoxParts(box: D.Box, user: int)
    requires D.BoxOk(box)
    ensures D.ListsOk(box) && D.OwnersOk(box) && D.Suffix(box, user)
  {
  }

  /** What a session's step does to the lists. */
  lemma SessionBox(s: D.State, id: int, step: D.SessionStep)
    requires D.CanStep(s, id, step)
    ensures var t, who, p := D.AfterStep(s, id, step), D.SessionAfter(s, id, step).user, D.BySession(id);
            && t.box == (if step.PopRange? then D.Ranged(s.box, who, p)
                         else if step.PopDel? then D.Deleted(s.box, who, p) else s.box)
            && t.past.dropped == if step.PopDel? then s.past.dropped + D.Late(s.box, who, p) else s.past.dropped
  {
    hide D.Ranged, D.Deleted, D.Late, D.OnlineSet, D.Frames, D.Snapshot;
  }

  lemma CallBox(s: D.State, who: int, call: D.RemoteStep)
    requires D.CanCall(s, who, call)
    ensures var t := D.AfterCall(s, who, call);
            && t.box == (if call.PullRange? then D.Ranged(s.box, who, D.ByPull(call.id))
                         else if call.PullDel? then D.Deleted(s.box, who, D.ByPull(call.id)) else s.box)
            && t.past.dropped == if call.PullDel? then s.past.dropped + D.Late(s.box, who, D.ByPull(call.id))
                                 else s.past.dropped
  {
    hide D.Ranged, D.Deleted, D.Late, D.OnlineSet;
  }

  lemma SendBox(s: D.State, m: D.Msg, send: D.SendStep)
    requires D.CanSend(s, m, send)
    ensures D.AfterSend(s, m, send).box == if send.PushOffline? then D.BoxPushed(s.box, m) else s.box
    ensures D.AfterSend(s, m, send).past.dropped == s.past.dropped
  {
    hide D.BoxPushed, D.IsOnline;
  }

  /** An LRANGE, by whomever. */
  lemma FollowRange(box: D.Box, dropped: multiset<Text>, who: int, p: D.Popper, user: int, o: State, order: seq<D.Popper>)
    requires Follows(box, dropped, user, o, order) && p !in box.pops && D.NoOverlap(D.Ranged(box, who, p), user)
    ensures Follows(D.Ranged(box, who, p), dropped, user, if who == user then Step(o, Range) else o, order)
  {
    hide Tracks, InOrder, LateIsDropped, SameDone, D.NoOverlap, D.Ranged;
    RangeTracks(box, who, p, user, o);
    SameOrder(box, D.Ranged(box, who, p), user, o.pops, order);
  }

  /** A DEL, by whomever. */
  lemma FollowDelete(box: D.Box, dropped: multiset<Text>, who: int, p: D.Popper, user: int, o: State, order: seq<D.Popper>)
    requires Follows(box, dropped, user, o, order) && D.Open(box, p, who) && D.SerialOk(box, user) && D.BoxOk(box)
    ensures Follows(D.Deleted(box, who, p), dropped + D.Late(box, who, p), user, if who == user then Step(o, Del) else o,
                    if who == user then order + [p] else order)
  {
    hide Tracks, InOrder, LateIsDropped, SameDone, D.SerialOk, D.BoxOk, D.Deleted, D.Late, D.Suffix, D.ListsOk, D.OwnersOk;
    DeleteTracks(box, who, p, user, o);
    if who == user {
      BoxParts(box, user);
      DeleteOrders(box, p, user, o, order);
      LateAdds(box, dropped, p, user, o);
    } else {
      DeleteSameDone(box, who, p, user);
      SameOrder(box, D.Deleted(box, who, p), user, o.pops, order);
      OthersLate(box, dropped, who, p, user, o.pops);
    }
  }

  lemma FollowSession(s: D.State, id: int, step: D.SessionStep, user: int, o: State, order: seq<D.Popper>)
      returns (own: seq<Event>, next: seq<D.Popper>)
    requires D.CanStep(s, id, step) && D.SessionOk(s, id) && D.SerialOk(s.box, user) && D.BoxOk(s.box)
    requires Follows(s.box, s.past.dropped, user, o, order) && D.NoOverlap(D.AfterStep(s, id, step).box, user)
    ensures var t := D.AfterStep(s, id, step);
            |own| <= 1 && Follows(t.box, t.past.dropped, user, if own == [] then o else Step(o, own[0]), next)
  {
    own, next := [], order;
    SessionBox(s, id, step);
    var who, p := D.SessionAfter(s, id, step).user, D.BySession(id);
    hide D.AfterStep, D.NoOverlap, D.SerialOk, D.BoxOk, D.OfflineBy, D.Ranged, D.Deleted, D.Late, Follows;
    if step.PopRange? {
      FollowRange(s.box, s.past.dropped, who, p, user, o, order);
      if who == user { own := [Range]; }
    } else if step.PopDel? {
      FollowDelete(s.box, s.past.dropped, who, p, user, o, order);
      if who == user { own, next := [Del], order + [p]; }
    }
  }

  lemma FollowCall(s: D.State, who: int, call: D.RemoteStep, user: int, o: State, order: seq<D.Popper>)
      returns (own: seq<Event>, next: seq<D.Popper>)
    requires D.CanCall(s, who, call) && D.SerialOk(s.box, user) && D.BoxOk(s.box)
    requires Follows(s.box, s.past.dropped, user, o, order) && D.NoOverlap(D.AfterCall(s, who, call).box, user)
    ensures var t := D.AfterCall(s, who, call);
            |own| <= 1 && Follows(t.box, t.past.dropped, user, if own == [] then o else Step(o, own[0]), next)
  {
    own, next := [], order;
    CallBox(s, who, call);
    hide D.AfterCall, D.NoOverlap, D.SerialOk, D.BoxOk, D.Ranged, D.Deleted, D.Late, Follows;
    if call.PullRange? {
      FollowRange(s.box, s.past.dropped, who, D.ByPull(call.id), user, o, order);
      if who == user { own := [Range]; }
    } else if call.PullDel? {
      FollowDelete(s.box, s.past.dropped, who, D.ByPull(call.id), user, o, order);
      if who == user { own, next := [Del], order + [D.ByPull(call.id)]; }
    }
  }

  lemma FollowSend(s: D.State, m: D.Msg, send: D.SendStep, user: int, o: State, order: seq<D.Popper>)
      returns (own: seq<Event>)
    requires D.CanSend(s, m, send) && Follows(s.box, s.past.dropped, user, o, order)
    ensures var t := D.AfterSend(s, m, send);
            |own| <= 1 && Follows(t.box, t.past.dropped, user, if own == [] then o else Step(o, own[0]), order)
  {
    own := [];
    SendBox(s, m, send);
    hide D.AfterSend, D.BoxPushed, Tracks, InOrder, LateIsDropped, SameDone;
    if send.PushOffline? {
      PushTracks(s.box, m, user, o);
      SameOrder(s.box, D.BoxPushed(s.box, m), user, o.pops, order);
      if m.to == user { own := [Push(m)]; }
    }
  }

  /** Each step of the message service is a step of the user's list, or none. */
  lemma FollowStep(s: D.State, e: D.Event, user: int, o: State, order: seq<D.Popper>)
      returns (own: seq<Event>, next: seq<D.Popper>)
    requires D.Enabled(s, e) && D.Inv(s) && D.SerialInv(s, user) && D.NoOverlap(D.Step(s, e).box, user)
    requires Follows(s.box, s.past.dropped, user, o, order)
    ensures var t := D.Step(s, e);
            |own| <= 1 && Follows(t.box, t.past.dropped, user, if own == [] then o else Step(o, own[0]), next)
  {
    hide Follows, D.Inv, D.SerialInv, D.NoOverlap, D.AfterSend, D.AfterStep, D.AfterCall, D.BoxOk;
    own, next := [], order;
    InvParts(s, user);
    match e
    case Tick =>
    case Sender(m, send) => own := FollowSend(s, m, send, user, o, order);
    case InSession(id, step) =>
      SessionPart(s, id);
      own, next := FollowSession(s, id, step, user, o, order);
    case Remote(who, call) => own, next := FollowCall(s, who, call, user, o, order);
  }

  lemma InvParts(s: D.State, user: int)
    requires D.Inv(s) && D.SerialInv(s, user)
    ensures D.SerialOk(s.box, user) && D.BoxOk(s.box)
  {
  }

  lemma SessionPart(s: D.State, id: int)
    requires D.Inv(s)
    ensures D.SessionOk(s, id)
  {
  }

  lemma {:induction false} FollowRun(s: D.State, events: seq<D.Event>, user: int, o: State, order: seq<D.Popper>)
      returns (own: seq<Event>, last: seq<D.Popper>)
    requires D.Inv(s) && D.SerialInv(s, user) && D.NoOverlap(D.Run(s, events).box, user)
    requires Follows(s.box, s.past.dropped, user, o, order)
    ensures var t := D.Run(s, events); Follows(t.box, t.past.dropped, user, Run(o, own), last)
    decreases |events|
  {
    hide D.Inv, D.SerialInv, D.NoOverlap, Follows, D.Step, D.Enabled, Step;
    own, last := [], order;
    if |events| > 0 {
      var e, t := events[0], D.Next(s, events[0]);
      D.InvNext(s, e);
      D.OverlapBefore(t, events[1..], user);
      var now, next, first := o, order, [];
      if D.Enabled(s, e) {
        D.SerialStep(s, e, user);
        first, next := FollowStep(s, e, user, o, order);
        now := if first == [] then o else Step(o, first[0]);
      }
      own, last := FollowRun(t, events[1..], user, now, next);
      if first != [] {
        own := first + own;
        assert own[1..] == own[|first|..];
      }
    }
  }

  lemma NothingFollowed(user: int)
    ensures Follows(D.START.box, D.START.past.dropped, user, START, [])
  {
  }

  /** In every run of the message service in which no two pops of a user's list
      overlapped, the messages pushed to the user are, in order, what each finished pop returned and what came
      too late for it, and then what is listed. `order` names those pops, all of
      them and each once; the late parts together are what was dropped. */
  lemma ServicePushesAccountedFor(events: seq<D.Event>, user: int) returns (pops: seq<Popped>, order: seq<D.Popper>)
    requires D.NoOverlap(D.Run(D.START, events).box, user)
    ensures var s := D.Run(D.START, events);
            && D.LogOf(s.box, user) == Account(pops) + D.ListOf(s.box.offline, user)
            && InOrder(s.box, user, pops, order)
            && LateIsDropped(s.past.dropped, user, pops)
  {
    D.InvStart();
    D.StartsSerial();
    NothingFollowed(user);
    var own;
    own, order := FollowRun(D.START, events, user, START, []);
    hide D.Run, Run, InOrder, LateIsDropped;
    pops := Run(START, own).pops;
  }
}

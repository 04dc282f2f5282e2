/** The write-behind queue of server/msg_server.cpp: senders append under a lock,
    the persist thread swaps the whole queue out when 50 records wait and hands
    it to the database in one call. */
module BatchQueue {
  import opened ByteStrings

  const BATCH_THRESHOLD := 50

  /** A message record; `serial` is its place among the accepted messages. */
  datatype Record = Record(serial: nat, from: int, to: int, content: Bytes, msgType: int)

  /** A queue element. Once moved from, its contents are unspecified. */
  datatype Slot = Intact(record: Record) | MovedFrom

  class Queue {
    var slots: seq<Slot>

    constructor ()
      ensures slots == []
    {
      slots := [];
    }

    method Enqueue(r: Record)
      modifies this
      ensures slots == old(slots) + [Intact(r)]
    {
      slots := slots + [Intact(r)];
    }

    /** The locked part of the persist thread: nothing below the threshold, else
        everything. */
    method Take() returns (batch: Option<seq<Slot>>)
      modifies this
      ensures if |old(slots)| < 50 then batch == None && slots == old(slots)
              else batch == Some(old(slots)) && slots == []
    {
      if |slots| < BATCH_THRESHOLD {
        return None;
      }
      var swapped := slots;
      slots := [];
      batch := Some(swapped);
    }

    /** The failure branch pushes what the moves left behind. */
    method Requeue(batch: seq<Slot>)
      modifies this
      ensures slots == old(slots) + batch
    {
      var i := 0;
      while i < |batch|
        invariant 0 <= i <= |batch|
        invariant slots == old(slots) + batch[..i]
      {
        slots := slots + [batch[i]];
        i := i + 1;
      }
    }
  }

  /** The loop that builds the request: each record is moved into it. */
  method BuildRequest(batch: seq<Slot>) returns (request: seq<Slot>, left: seq<Slot>)
    ensures request == batch && left == Husks(|batch|)
  {
    request, left := [], batch;
    var i := 0;
    while i < |batch|
      invariant 0 <= i <= |batch| && |left| == |batch|
      invariant request == batch[..i]
      invariant left[..i] == Husks(i) && left[i..] == batch[i..]
    {
      request := request + [left[i]];
      left := left[i := MovedFrom];
      i := i + 1;
    }
  }

  /** One round of the persist thread that no sender interrupts; `ok` is what the
      database call answered. */
  method PersistOnce(queue: Queue, ok: bool) returns (sent: Option<seq<Slot>>)
    modifies queue
    ensures if |old(queue.slots)| < 50 then sent == None && queue.slots == old(queue.slots)
            else sent == Some(old(queue.slots)) && queue.slots == if ok then [] else Husks(|old(queue.slots)|)
    ensures forall s: State :: s.flight == None && s.queue == old(queue.slots) ==>
              var t := Run(s, [Take, if ok then CallOk else CallFailed]);
              && t.queue == queue.slots && t.flight == None
              && t.handed == if ok && sent.Some? then s.handed + [sent.value] else s.handed
  {
    ghost var call := if ok then CallOk else CallFailed;
    forall s: State ensures Run(s, [Take, call]) == Step(Step(s, Take), call) { RunTwo(s, Take, call); }
    var batch := queue.Take();
    if batch.None? {
      return None;
    }
    var request, left := BuildRequest(batch.value);
    sent := Some(request);
    if !ok {
      queue.Requeue(left);
    }
  }

  lemma RunTwo(s: State, a: Event, b: Event)
    ensures Run(s, [a, b]) == Step(Step(s, a), b)
  {
    hide Step;
    assert [a, b][1..] == [b] && [b][1..] == [];
    assert Run(Step(s, a), [b]) == Run(Step(Step(s, a), b), []);
  }

  function Husks(n: nat): (slots: seq<Slot>)
    ensures |slots| == n && forall k :: 0 <= k < n ==> slots[k] == MovedFrom
  {
    seq(n, k => MovedFrom)
  }

  // ---------- Runs ----------

  /** The queue, the request under way, and two histories: the batches whose call
      returned OK and the accepted records in order. */
  datatype State = State(queue: seq<Slot>, flight: Option<seq<Slot>>, handed: seq<seq<Slot>>, log: seq<Record>)

  const START := State([], None, [], [])

  datatype Event = Enqueue(r: Record) | Take | CallOk | CallFailed

  predicate Enabled(s: State, e: Event) {
    match e
    case Enqueue(r) => r.serial == |s.log|
    case Take => s.flight.None? && |s.queue| >= BATCH_THRESHOLD
    case CallOk => s.flight.Some?
    case CallFailed => s.flight.Some?
  }

  function Step(s: State, e: Event): State {
    if !Enabled(s, e) then s else
    match e
    case Enqueue(r) => s.(queue := s.queue + [Intact(r)], log := s.log + [r])
    case Take => s.(queue := [], flight := Some(s.queue))
    case CallOk => s.(flight := None, handed := s.handed + [s.flight.value])
    case CallFailed => s.(flight := None, queue := s.queue + Husks(|s.flight.value|))
  }

  function Run(s: State, events: seq<Event>): State
    decreases |events|
  {
    if |events| == 0 then s else Run(Step(s, events[0]), events[1..])
  }

  function Flat(batches: seq<seq<Slot>>): seq<Slot> {
    if |batches| == 0 then [] else Flat(batches[..|batches| - 1]) + batches[|batches| - 1]
  }

  function InFlight(s: State): seq<Slot> {
    if s.flight.Some? then s.flight.value else []
  }

  /** Handed over, then in flight, then queued. */
  function All(s: State): seq<Slot> {
    Flat(s.handed) + InFlight(s) + s.queue
  }

  /** Intact records stand in the order they were accepted, each at most once. */
  predicate InOrder(slots: seq<Slot>) {
    forall i, j :: 0 <= i < j < |slots| && slots[i].Intact? && slots[j].Intact? ==>
      slots[i].record.serial < slots[j].record.serial
  }

  predicate FromLog(slots: seq<Slot>, log: seq<Record>) {
    forall i :: 0 <= i < |slots| && slots[i].Intact? ==>
      slots[i].record.serial < |log| && log[slots[i].record.serial] == slots[i].record
  }

  predicate Inv(s: State) {
    && |All(s)| == |s.log|
    && InOrder(All(s))
    && FromLog(All(s), s.log)
    && (forall b :: b in s.handed ==> |b| >= BATCH_THRESHOLD)
    && (s.flight.Some? ==> |s.flight.value| >= BATCH_THRESHOLD)
  }

  lemma FlatSnoc(batches: seq<seq<Slot>>, b: seq<Slot>)
    ensures Flat(batches + [b]) == Flat(batches) + b
  {
    assert (batches + [b])[..|batches|] == batches;
  }

  /** Taking and handing over move slots along without reordering them. */
  lemma AllMoves(s: State, e: Event)
    requires Enabled(s, e) && !e.CallFailed?
    ensures All(Step(s, e)) == if e.Enqueue? then All(s) + [Intact(e.r)] else All(s)
  {
    if e.CallOk? {
      FlatSnoc(s.handed, s.flight.value);
    }
    hide Flat;
    var t := Step(s, e);
    assert All(t) == if e.Enqueue? then All(s) + [Intact(e.r)] else All(s);
  }

  lemma OrderSnoc(slots: seq<Slot>, log: seq<Record>, r: Record)
    requires InOrder(slots) && FromLog(slots, log) && r.serial == |log|
    ensures InOrder(slots + [Intact(r)]) && FromLog(slots + [Intact(r)], log + [r])
  {
  }

  /** A failed batch becomes husks at the end; what is intact keeps its order. */
  lemma OrderRequeue(done: seq<Slot>, batch: seq<Slot>, queue: seq<Slot>, log: seq<Record>)
    requires InOrder(done + batch + queue) && FromLog(done + batch + queue, log)
    ensures InOrder(done + queue + Husks(|batch|)) && FromLog(done + queue + Husks(|batch|), log)
  {
    var before, after := done + batch + queue, done + queue + Husks(|batch|);
    forall i | 0 <= i < |done| + |queue|
      ensures after[i] == before[if i < |done| then i else i + |batch|]
    {
    }
  }

  lemma StepKeepsInv(s: State, e: Event)
    requires Inv(s)
    ensures Inv(Step(s, e))
  {
    hide Flat, InOrder, FromLog, Husks;
    if Enabled(s, e) {
      if e.CallFailed? {
        OrderRequeue(Flat(s.handed), s.flight.value, s.queue, s.log);
        assert All(Step(s, e)) == Flat(s.handed) + s.queue + Husks(|s.flight.value|);
      } else {
        AllMoves(s, e);
        if e.Enqueue? {
          OrderSnoc(All(s), s.log, e.r);
        }
      }
    }
  }

  lemma {:induction false} RunKeepsInv(s: State, events: seq<Event>)
    requires Inv(s)
    ensures Inv(Run(s, events))
    decreases |events|
  {
    hide Inv, Step;
    if |events| > 0 {
      StepKeepsInv(s, events[0]);
      RunKeepsInv(Step(s, events[0]), events[1..]);
    }
  }

  /** In every run, failed calls included: as many slots are handed over, in
      flight and queued as messages were accepted; the intact ones are accepted
      records, none twice, in the order of acceptance; and every batch is at
      least the threshold. */
  lemma HandOverKeepsOrder(events: seq<Event>)
    ensures Inv(Run(START, events))
    ensures forall batch :: batch in Run(START, events).handed ==> |batch| >= 50
  {
    RunKeepsInv(START, events);
  }

  function Intacts(log: seq<Record>): (slots: seq<Slot>)
    ensures |slots| == |log| && forall k :: 0 <= k < |log| ==> slots[k] == Intact(log[k])
  {
    seq(|log|, k requires 0 <= k < |log| => Intact(log[k]))
  }

  /** No call in the run fails while a batch is out. */
  predicate CallsSucceed(s: State, events: seq<Event>)
    decreases |events|
  {
    |events| == 0 ||
    (!(events[0].CallFailed? && s.flight.Some?) && CallsSucceed(Step(s, events[0]), events[1..]))
  }

  predicate HasHusk(slots: seq<Slot>) {
    exists k :: 0 <= k < |slots| && slots[k] == MovedFrom
  }

  /** What a failed call has emptied stays empty. */
  lemma HuskStays(s: State, e: Event)
    requires HasHusk(All(s))
    ensures HasHusk(All(Step(s, e)))
  {
    var k :| 0 <= k < |All(s)| && All(s)[k] == MovedFrom;
    if Enabled(s, e) {
      if e.CallFailed? {
        var done, batch := Flat(s.handed), s.flight.value;
        var after := done + s.queue + Husks(|batch|);
        assert All(Step(s, e)) == after;
        assert after[if k < |done| then k else if k < |done| + |batch| then |done| + |s.queue| else k - |batch|] == MovedFrom;
      } else {
        AllMoves(s, e);
        assert All(Step(s, e))[k] == MovedFrom;
      }
    }
  }

  lemma {:induction false} HuskStaysRun(s: State, events: seq<Event>)
    requires HasHusk(All(s))
    ensures HasHusk(All(Run(s, events)))
    decreases |events|
  {
    hide All, Step;
    if |events| > 0 {
      HuskStays(s, events[0]);
      HuskStaysRun(Step(s, events[0]), events[1..]);
    }
  }

  lemma FailureLeavesHusk(s: State)
    requires s.flight.Some? && |s.flight.value| > 0
    ensures HasHusk(All(Step(s, CallFailed)))
  {
    var done, n := Flat(s.handed) + s.queue, |s.flight.value|;
    assert All(Step(s, CallFailed)) == done + Husks(n);
    assert (done + Husks(n))[|done|] == MovedFrom;
  }

  lemma {:induction false} FifoFrom(s: State, events: seq<Event>)
    requires Inv(s) && All(s) == Intacts(s.log)
    ensures All(Run(s, events)) == Intacts(Run(s, events).log) <==> CallsSucceed(s, events)
    decreases |events|
  {
    hide InOrder, FromLog, Flat;
    if |events| > 0 {
      var e, t := events[0], Step(s, events[0]);
      StepKeepsInv(s, e);
      if e.CallFailed? && s.flight.Some? {
        FailureLeavesHusk(s);
        HuskStaysRun(t, events[1..]);
      } else {
        if Enabled(s, e) {
          AllMoves(s, e);
        }
        assert All(t) == Intacts(t.log);
        FifoFrom(t, events[1..]);
      }
    }
  }

  /** What is handed over, in flight and queued is the log of accepted messages,
      in order and intact, exactly in the runs where no call fails. */
  lemma HandOverIsFifo(events: seq<Event>)
    ensures All(Run(START, events)) == Intacts(Run(START, events).log) <==> CallsSucceed(START, events)
  {
    FifoFrom(START, events);
  }
}

/** Friend requests and friendships: the two tables of server/db_proxy.cpp and
    the message service's operations on them, every SQL statement succeeding. */
module Friends {
  import opened ByteStrings

  /** Rows of `friend_requests`, in order of their auto-increment ids. */
  datatype Request = Request(id: int, from: int, to: int, fromName: Bytes, toName: Bytes, status: int)

  /** Rows of `friendships`, whose (user, friend) is a unique key. */
  datatype Row = Row(user: int, friend: int, name: Bytes)

  predicate HasRow(rows: seq<Row>, user: int, friend: int) {
    exists k :: 0 <= k < |rows| && rows[k].user == user && rows[k].friend == friend
  }

  /** INSERT IGNORE */
  function Inserted(rows: seq<Row>, row: Row): seq<Row> {
    if HasRow(rows, row.user, row.friend) then rows else rows + [row]
  }

  /** `createFriendship`: the pair, then its reverse without a name. */
  function Befriended(rows: seq<Row>, user: int, friend: int, name: Bytes): seq<Row> {
    Inserted(Inserted(rows, Row(user, friend, name)), Row(friend, user, []))
  }

  function WithStatus(requests: seq<Request>, id: int, status: int): (r: seq<Request>)
    ensures |r| == |requests|
    ensures forall k :: 0 <= k < |r| ==>
              r[k] == if requests[k].id == id then requests[k].(status := status) else requests[k]
  {
    seq(|requests|, k requires 0 <= k < |requests| =>
      if requests[k].id == id then requests[k].(status := status) else requests[k])
  }

  /** The rows `getFriendRequestsByUser` fetches; a negative status means any. */
  predicate Selected(r: Request, user: int, status: int) {
    r.to == user && (status < 0 || r.status == status)
  }

  /** Newest first. */
  function Fetched(requests: seq<Request>, user: int, status: int): seq<Request> {
    var n := |requests|;
    if n == 0 then []
    else (if Selected(requests[n - 1], user, status) then [requests[n - 1]] else [])
         + Fetched(requests[..n - 1], user, status)
  }

  lemma {:induction false} FetchedAre(requests: seq<Request>, user: int, status: int, r: Request)
    ensures r in Fetched(requests, user, status) <==>
            r in requests && r.to == user && (status < 0 || r.status == status)
    decreases |requests|
  {
    if |requests| > 0 {
      var front := requests[..|requests| - 1];
      assert requests == front + [requests[|requests| - 1]];
      FetchedAre(front, user, status, r);
    }
  }

  predicate Descending(fetched: seq<Request>) {
    forall i, j :: 0 <= i < j < |fetched| ==> fetched[i].id > fetched[j].id
  }

  /** They come newest first, and each one once. */
  lemma {:induction false} FetchedOrder(requests: seq<Request>, user: int, status: int)
    requires IdsOk(requests)
    ensures Descending(Fetched(requests, user, status))
    decreases |requests|
  {
    if |requests| > 0 {
      var front, last := requests[..|requests| - 1], requests[|requests| - 1];
      assert last.id == |requests| && IdsOk(front);
      FetchedOrder(front, user, status);
      EarlierIds(front, user, status);
      var f := Fetched(front, user, status);
      assert Fetched(requests, user, status) == if Selected(last, user, status) then [last] + f else [] + f;
      hide Fetched, Descending, Selected;
      assert [] + f == f;
      NewerFirst(last, f);
    }
  }

  lemma NewerFirst(r: Request, fetched: seq<Request>)
    requires Descending(fetched) && forall q :: q in fetched ==> q.id < r.id
    ensures Descending([r] + fetched)
  {
    var t := [r] + fetched;
    forall i, j | 0 <= i < j < |t| ensures t[i].id > t[j].id {
      assert t[j] == fetched[j - 1];
    }
  }

  lemma EarlierIds(requests: seq<Request>, user: int, status: int)
    requires IdsOk(requests)
    ensures forall r :: r in Fetched(requests, user, status) ==> r.id <= |requests|
  {
    forall r | r in Fetched(requests, user, status) ensures r.id <= |requests| {
      FetchedAre(requests, user, status, r);
    }
  }

  /** `deleteFriendship`: both directions of the pair. */
  function WithoutPair(rows: seq<Row>, user: int, friend: int): seq<Row> {
    var n := |rows|;
    if n == 0 then []
    else WithoutPair(rows[..n - 1], user, friend)
         + if {rows[n - 1].user, rows[n - 1].friend} == {user, friend} then [] else [rows[n - 1]]
  }

  class FriendDb {
    var requests: seq<Request>
    var rows: seq<Row>

    constructor ()
      ensures requests == [] && rows == []
    {
      requests, rows := [], [];
    }

    method CreateFriendRequest(from: int, to: int, fromName: Bytes, toName: Bytes) returns (id: int)
      modifies this
      ensures id == |old(requests)| + 1 && rows == old(rows)
      ensures requests == old(requests) + [Request(id, from, to, fromName, toName, 0)]
    {
      id := |requests| + 1;
      requests := requests + [Request(id, from, to, fromName, toName, 0)];
    }

    method GetFriendRequestsByUser(user: int, status: int) returns (result: seq<Request>)
      ensures result == Fetched(requests, user, status)
    {
      result := [];
      var k := 0;
      while k < |requests|
        invariant 0 <= k <= |requests|
        invariant result == Fetched(requests[..k], user, status)
      {
        assert requests[..k + 1][..k] == requests[..k];
        if Selected(requests[k], user, status) {
          result := [requests[k]] + result;
        }
        k := k + 1;
      }
      assert requests[..k] == requests;
    }

    method UpdateFriendRequestStatus(id: int, status: int)
      modifies this
      ensures requests == WithStatus(old(requests), id, status) && rows == old(rows)
    {
      requests := seq(|requests|, k requires 0 <= k < |requests| reads this =>
        if requests[k].id == id then requests[k].(status := status) else requests[k]);
    }

    method CreateFriendship(user: int, friend: int, name: Bytes)
      modifies this
      ensures rows == Befriended(old(rows), user, friend, name) && requests == old(requests)
    {
      if !HasRow(rows, user, friend) {
        rows := rows + [Row(user, friend, name)];
      }
      if !HasRow(rows, friend, user) {
        rows := rows + [Row(friend, user, [])];
      }
    }

    method DeleteFriendship(user: int, friend: int)
      modifies this
      ensures rows == WithoutPair(old(rows), user, friend) && requests == old(requests)
    {
      var kept, k := [], 0;
      while k < |rows|
        invariant 0 <= k <= |rows|
        invariant kept == WithoutPair(rows[..k], user, friend)
        invariant rows == old(rows) && requests == old(requests)
      {
        assert rows[..k + 1][..k] == rows[..k];
        if {rows[k].user, rows[k].friend} != {user, friend} {
          kept := kept + [rows[k]];
        }
        k := k + 1;
      }
      assert rows[..k] == rows;
      rows := kept;
    }

    /** `HandleFriendRequest`: look the request up among those sent to the user,
        set its status by id alone, and on acceptance create the friendship from
        both sides. */
    method HandleFriendRequest(user: int, id: int, accept: bool, myName: Bytes)
      requires IdsOk(requests)
      modifies this
      ensures requests == WithStatus(old(requests), id, if accept then 1 else 2)
      ensures rows == RowsAfter(old(requests), old(rows), user, id, accept, myName)
    {
      var fetched := GetFriendRequestsByUser(user, -1);
      var friend, friendName := 0, [];
      var k := 0;
      while k < |fetched|
        invariant 0 <= k <= |fetched|
        invariant forall j :: 0 <= j < k ==> fetched[j].id != id
        invariant friend == 0 && friendName == []
      {
        if fetched[k].id == id {
          friend, friendName := fetched[k].from, fetched[k].fromName;
          break;
        }
        k := k + 1;
      }
      forall r ensures r in fetched <==> r in requests && Selected(r, user, -1) {
        FetchedAre(requests, user, -1, r);
      }
      FoundById(requests, user, id, fetched, k, friend, friendName);
      UpdateFriendRequestStatus(id, if accept then 1 else 2);
      if accept && friend > 0 {
        CreateFriendship(user, friend, friendName);
        CreateFriendship(friend, user, myName);
      }
    }
  }

  /** Auto-increment ids count the rows. */
  predicate IdsOk(requests: seq<Request>) {
    forall k :: 0 <= k < |requests| ==> requests[k].id == k + 1
  }

  /** The request with an id, if it was sent to the user. */
  function SentTo(requests: seq<Request>, user: int, id: int): Option<Request> {
    if 1 <= id <= |requests| && requests[id - 1].to == user then Some(requests[id - 1]) else None
  }

  function RowsAfter(requests: seq<Request>, rows: seq<Row>, user: int, id: int, accept: bool, myName: Bytes): seq<Row> {
    match SentTo(requests, user, id)
    case None => rows
    case Some(r) =>
      if accept && r.from > 0
      then Befriended(Befriended(rows, user, r.from, r.fromName), r.from, user, myName)
      else rows
  }

  /** What an answer does to the friendships, whatever they were: only the acceptance of a
      request sent to the user adds rows, the user's under the sender's name and
      the sender's without one, each unless there is one already. */
  lemma AnswerStores(requests: seq<Request>, rows: seq<Row>, user: int, id: int, accept: bool, myName: Bytes)
    ensures RowsAfter(requests, rows, user, id, accept, myName) ==
            if accept && 1 <= id <= |requests| && requests[id - 1].to == user && requests[id - 1].from > 0 then
              var r := requests[id - 1];
              rows + (if HasRow(rows, user, r.from) then [] else [Row(user, r.from, r.fromName)])
                   + (if HasRow(rows, r.from, user) || r.from == user then [] else [Row(r.from, user, [])])
            else rows
  {
    var sent := SentTo(requests, user, id);
    if accept && sent.Some? && sent.value.from > 0 {
      var r := sent.value;
      SecondCallChangesNothing(rows, user, r.from, r.fromName, myName);
      HasAfterInsert(rows, Row(user, r.from, r.fromName), r.from, user);
      hide HasRow;
    }
  }

  /** The search over the fetched rows, in whatever order they came. */
  lemma FoundById(requests: seq<Request>, user: int, id: int, fetched: seq<Request>, k: nat, friend: int, name: Bytes)
    requires IdsOk(requests)
    requires forall r :: r in fetched <==> r in requests && Selected(r, user, -1)
    requires k <= |fetched| && forall j :: 0 <= j < k ==> fetched[j].id != id
    requires if k < |fetched| then fetched[k].id == id && friend == fetched[k].from && name == fetched[k].fromName
             else friend == 0 && name == []
    ensures match SentTo(requests, user, id)
            case None => friend == 0
            case Some(r) => friend == r.from && name == r.fromName
  {
    assert SentTo(requests, user, id).Some? ==> requests[id - 1] in requests && requests[id - 1].id == id;
    if k < |fetched| {
      assert fetched[k] in requests;
    }
  }

  // ---------- Runs ----------

  datatype Db = Db(requests: seq<Request>, rows: seq<Row>)

  datatype Event =
    | Send(from: int, to: int, fromName: Bytes, toName: Bytes)
    | Handle(user: int, id: int, accept: bool, myName: Bytes)
    | Unfriend(user: int, friend: int)

  function Step(db: Db, e: Event): Db {
    match e
    case Send(from, to, fromName, toName) =>
      db.(requests := db.requests + [Request(|db.requests| + 1, from, to, fromName, toName, 0)])
    case Handle(user, id, accept, myName) =>
      Db(WithStatus(db.requests, id, if accept then 1 else 2), RowsAfter(db.requests, db.rows, user, id, accept, myName))
    case Unfriend(user, friend) => db.(rows := WithoutPair(db.rows, user, friend))
  }

  function Run(db: Db, events: seq<Event>): Db
    decreases |events|
  {
    if |events| == 0 then db else Run(Step(db, events[0]), events[1..])
  }

  predicate Symmetric(rows: seq<Row>) {
    forall k :: 0 <= k < |rows| ==> HasRow(rows, rows[k].friend, rows[k].user)
  }

  predicate OneRowPerPair(rows: seq<Row>) {
    forall i, j :: 0 <= i < j < |rows| ==> rows[i].user != rows[j].user || rows[i].friend != rows[j].friend
  }

  predicate Requested(requests: seq<Request>, u: int, v: int) {
    exists k :: 0 <= k < |requests| && {requests[k].from, requests[k].to} == {u, v}
  }

  predicate Backed(db: Db) {
    forall k :: 0 <= k < |db.rows| ==> Requested(db.requests, db.rows[k].user, db.rows[k].friend)
  }

  predicate Inv(db: Db) {
    IdsOk(db.requests) && Symmetric(db.rows) && OneRowPerPair(db.rows) && Backed(db)
  }

  lemma HasAfterInsert(rows: seq<Row>, row: Row, u: int, f: int)
    ensures HasRow(Inserted(rows, row), u, f) <==> HasRow(rows, u, f) || (u == row.user && f == row.friend)
  {
    var t := Inserted(rows, row);
    if HasRow(rows, u, f) {
      var k :| 0 <= k < |rows| && rows[k].user == u && rows[k].friend == f;
      assert t[k] == rows[k];
    }
    if t != rows {
      assert t[|rows|] == row;
    }
  }

  lemma HasAfterBefriend(rows: seq<Row>, user: int, friend: int, name: Bytes, u: int, f: int)
    ensures HasRow(Befriended(rows, user, friend, name), u, f)
            <==> HasRow(rows, u, f) || (u == user && f == friend) || (u == friend && f == user)
  {
    hide Inserted, HasRow;
    var once := Inserted(rows, Row(user, friend, name));
    HasAfterInsert(rows, Row(user, friend, name), u, f);
    HasAfterInsert(once, Row(friend, user, []), u, f);
  }

  /** Of the two create calls in an acceptance, the second changes nothing. */
  lemma SecondCallChangesNothing(rows: seq<Row>, user: int, friend: int, friendName: Bytes, myName: Bytes)
    ensures var once := Befriended(rows, user, friend, friendName);
            Befriended(once, friend, user, myName) == once
  {
    HasAfterBefriend(rows, user, friend, friendName, user, friend);
    HasAfterBefriend(rows, user, friend, friendName, friend, user);
  }

  /** So the accepting user's own name is never stored with the new friendship. */
  lemma AccepterNameNotStored(rows: seq<Row>, user: int, friend: int, friendName: Bytes, myName: Bytes)
    requires friend != user && !HasRow(rows, friend, user)
    ensures var after := Befriended(Befriended(rows, user, friend, friendName), friend, user, myName);
            forall k :: 0 <= k < |after| && after[k].user == friend && after[k].friend == user ==> after[k].name == []
  {
    SecondCallChangesNothing(rows, user, friend, friendName, myName);
    assert forall j :: 0 <= j < |rows| ==> rows[j].user != friend || rows[j].friend != user;
    HasAfterInsert(rows, Row(user, friend, friendName), friend, user);
  }

  lemma InsertKeepsOneRow(rows: seq<Row>, row: Row)
    requires OneRowPerPair(rows)
    ensures OneRowPerPair(Inserted(rows, row))
  {
  }

  lemma InsertKeepsBacked(requests: seq<Request>, rows: seq<Row>, row: Row)
    requires Backed(Db(requests, rows)) && Requested(requests, row.user, row.friend)
    ensures Backed(Db(requests, Inserted(rows, row)))
  {
    hide HasRow, Requested;
  }

  lemma BefriendKeepsSymmetry(rows: seq<Row>, user: int, friend: int, name: Bytes)
    requires Symmetric(rows)
    ensures Symmetric(Befriended(rows, user, friend, name))
  {
    var t := Befriended(rows, user, friend, name);
    forall k | 0 <= k < |t| ensures HasRow(t, t[k].friend, t[k].user) {
      HasAfterBefriend(rows, user, friend, name, t[k].friend, t[k].user);
      if k < |rows| {
        hide HasRow;
        assert t[k] == rows[k];
      }
    }
  }

  lemma BefriendKeeps(requests: seq<Request>, rows: seq<Row>, user: int, friend: int, name: Bytes)
    requires Symmetric(rows) && OneRowPerPair(rows) && Backed(Db(requests, rows)) && Requested(requests, user, friend)
    ensures var t := Befriended(rows, user, friend, name);
            Symmetric(t) && OneRowPerPair(t) && Backed(Db(requests, t))
  {
    hide Inserted, Symmetric, OneRowPerPair, Backed;
    var pair, reverse := Row(user, friend, name), Row(friend, user, []);
    BefriendKeepsSymmetry(rows, user, friend, name);
    InsertKeepsOneRow(rows, pair);
    InsertKeepsOneRow(Inserted(rows, pair), reverse);
    assert Requested(requests, friend, user) by { assert {friend, user} == {user, friend}; }
    InsertKeepsBacked(requests, rows, pair);
    InsertKeepsBacked(requests, Inserted(rows, pair), reverse);
  }

  lemma {:induction false} WithoutPairRows(rows: seq<Row>, user: int, friend: int, x: Row)
    ensures x in WithoutPair(rows, user, friend) <==> x in rows && {x.user, x.friend} != {user, friend}
    decreases |rows|
  {
    if |rows| > 0 {
      var front := rows[..|rows| - 1];
      assert rows == front + [rows[|rows| - 1]];
      WithoutPairRows(front, user, friend, x);
    }
  }

  lemma {:induction false} WithoutPairOneRow(rows: seq<Row>, user: int, friend: int)
    requires OneRowPerPair(rows)
    ensures OneRowPerPair(WithoutPair(rows, user, friend))
    decreases |rows|
  {
    if |rows| > 0 {
      var front, last := rows[..|rows| - 1], rows[|rows| - 1];
      var kept := WithoutPair(front, user, friend);
      WithoutPairOneRow(front, user, friend);
      forall k | 0 <= k < |kept| ensures kept[k].user != last.user || kept[k].friend != last.friend {
        WithoutPairRows(front, user, friend, kept[k]);
      }
    }
  }

  lemma DeleteKeeps(db: Db, user: int, friend: int)
    requires Inv(db)
    ensures Inv(Step(db, Unfriend(user, friend)))
  {
    var t := WithoutPair(db.rows, user, friend);
    WithoutPairOneRow(db.rows, user, friend);
    forall k | 0 <= k < |t|
      ensures HasRow(t, t[k].friend, t[k].user) && Requested(db.requests, t[k].user, t[k].friend)
    {
      WithoutPairRows(db.rows, user, friend, t[k]);
      var i :| 0 <= i < |db.rows| && db.rows[i] == t[k];
      var j :| 0 <= j < |db.rows| && db.rows[j].user == t[k].friend && db.rows[j].friend == t[k].user;
      WithoutPairRows(db.rows, user, friend, db.rows[j]);
    }
  }

  lemma SamePair(a: int, b: int, u: int, f: int)
    ensures {a, b} == {u, f} ==> (a == u && b == f) || (a == f && b == u)
  {
    assert a in {a, b} && b in {a, b} && u in {u, f} && f in {u, f};
  }

  predicate OfPair(row: Row, user: int, friend: int) {
    {row.user, row.friend} == {user, friend}
  }

  lemma {:induction false} OthersStay(rows: seq<Row>, user: int, friend: int)
    requires forall k :: 0 <= k < |rows| ==> !OfPair(rows[k], user, friend)
    ensures WithoutPair(rows, user, friend) == rows
    decreases |rows|
  {
    if |rows| > 0 {
      var front, last := rows[..|rows| - 1], rows[|rows| - 1];
      OthersStay(front, user, friend);
      assert !OfPair(last, user, friend);
      assert rows == front + [last];
    }
  }

  lemma NothingToDelete(rows: seq<Row>, user: int, friend: int)
    requires !HasRow(rows, user, friend) && !HasRow(rows, friend, user)
    ensures WithoutPair(rows, user, friend) == rows
  {
    hide WithoutPair;
    forall k | 0 <= k < |rows| ensures !OfPair(rows[k], user, friend) {
      SamePair(rows[k].user, rows[k].friend, user, friend);
    }
    OthersStay(rows, user, friend);
  }

  lemma WithoutPairSnoc(rows: seq<Row>, row: Row, user: int, friend: int)
    ensures WithoutPair(rows + [row], user, friend)
            == WithoutPair(rows, user, friend) + if {row.user, row.friend} == {user, friend} then [] else [row]
  {
    assert (rows + [row])[..|rows|] == rows;
  }

  /** A deletion judges each row by itself and keeps the order of the rest. */
  lemma {:induction false} WithoutPairConcat(a: seq<Row>, b: seq<Row>, user: int, friend: int)
    ensures WithoutPair(a + b, user, friend) == WithoutPair(a, user, friend) + WithoutPair(b, user, friend)
    decreases |b|
  {
    if |b| == 0 {
      assert a + b == a;
    } else {
      var front, last := b[..|b| - 1], b[|b| - 1];
      WithoutPairConcat(a, front, user, friend);
      assert a + b == (a + front) + [last] && b == front + [last];
      WithoutPairSnoc(a + front, last, user, friend);
      WithoutPairSnoc(front, last, user, friend);
    }
  }

  /** Deleting a new friendship undoes creating it. */
  lemma DeleteUndoesBefriend(rows: seq<Row>, user: int, friend: int, name: Bytes)
    requires !HasRow(rows, user, friend) && !HasRow(rows, friend, user)
    ensures WithoutPair(Befriended(rows, user, friend, name), user, friend) == rows
  {
    hide WithoutPair, HasRow;
    var pair, reverse := Row(user, friend, name), Row(friend, user, []);
    NothingToDelete(rows, user, friend);
    assert {friend, user} == {user, friend};
    WithoutPairSnoc(rows, pair, user, friend);
    WithoutPairSnoc(rows + [pair], reverse, user, friend);
  }

  lemma RequestsKept(requests: seq<Request>, id: int, status: int, u: int, v: int)
    requires Requested(requests, u, v)
    ensures Requested(WithStatus(requests, id, status), u, v)
  {
    var k :| 0 <= k < |requests| && {requests[k].from, requests[k].to} == {u, v};
    var r := WithStatus(requests, id, status)[k];
    assert r.from == requests[k].from && r.to == requests[k].to;
  }

  lemma SendKeeps(db: Db, r: Request)
    requires Inv(db) && r.id == |db.requests| + 1
    ensures Inv(db.(requests := db.requests + [r]))
  {
    var t := db.requests + [r];
    hide Symmetric, OneRowPerPair;
    forall k | 0 <= k < |db.rows| ensures Requested(t, db.rows[k].user, db.rows[k].friend) {
      var i :| 0 <= i < |db.requests| && {db.requests[i].from, db.requests[i].to} == {db.rows[k].user, db.rows[k].friend};
      assert t[i] == db.requests[i];
    }
  }

  lemma AnswerKeeps(db: Db, rows: seq<Row>, id: int, status: int)
    requires IdsOk(db.requests) && Symmetric(rows) && OneRowPerPair(rows) && Backed(Db(db.requests, rows))
    ensures Inv(Db(WithStatus(db.requests, id, status), rows))
  {
    hide Symmetric, OneRowPerPair;
    forall k | 0 <= k < |rows| ensures Requested(WithStatus(db.requests, id, status), rows[k].user, rows[k].friend) {
      RequestsKept(db.requests, id, status, rows[k].user, rows[k].friend);
    }
  }

  lemma AcceptKeeps(db: Db, user: int, id: int, myName: Bytes)
    requires Inv(db)
    ensures var rows := RowsAfter(db.requests, db.rows, user, id, true, myName);
            Symmetric(rows) && OneRowPerPair(rows) && Backed(Db(db.requests, rows))
  {
    hide Symmetric, OneRowPerPair, Backed, Befriended;
    var sent := SentTo(db.requests, user, id);
    if sent.Some? && sent.value.from > 0 {
      var r := sent.value;
      assert Requested(db.requests, user, r.from) by { assert {r.from, r.to} == {user, r.from}; }
      BefriendKeeps(db.requests, db.rows, user, r.from, r.fromName);
      SecondCallChangesNothing(db.rows, user, r.from, r.fromName, myName);
    }
  }

  lemma StepKeepsInv(db: Db, e: Event)
    requires Inv(db)
    ensures Inv(Step(db, e))
  {
    hide Symmetric, OneRowPerPair, Backed, IdsOk, Befriended;
    match e
    case Send(from, to, fromName, toName) =>
      SendKeeps(db, Request(|db.requests| + 1, from, to, fromName, toName, 0));
    case Handle(user, id, accept, myName) =>
      AcceptKeeps(db, user, id, myName);
      AnswerKeeps(db, RowsAfter(db.requests, db.rows, user, id, accept, myName), id, if accept then 1 else 2);
    case Unfriend(user, friend) => DeleteKeeps(db, user, friend);
  }

  lemma {:induction false} RunKeepsInv(db: Db, events: seq<Event>)
    requires Inv(db)
    ensures Inv(Run(db, events))
    decreases |events|
  {
    hide Inv, Step;
    if |events| > 0 {
      StepKeepsInv(db, events[0]);
      RunKeepsInv(Step(db, events[0]), events[1..]);
    }
  }

  /** After any run of requests, answers and deletions, friendship is symmetric, each ordered
      pair has one row, and every friendship goes back to a stored request
      between the same two users. */
  lemma FriendshipInvariant(events: seq<Event>)
    ensures var db := Run(Db([], []), events);
            Symmetric(db.rows) && OneRowPerPair(db.rows) && Backed(db)
  {
    RunKeepsInv(Db([], []), events);
  }
}

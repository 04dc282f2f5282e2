/** The per-conversation sorted set that answers history queries: its key, what
    ZADD and EXPIRE make of it, and the pages ZREVRANGE cuts from it. */
module ChatCache {
  import opened ByteStrings
  import opened Search
  import opened Decimal

  // ---------- The conversation key ----------

  const PREFIX: Bytes := "chat:msgs:"

  /** `chatCacheKey` */
  function ChatKey(u: int, v: int): Bytes {
    var a, b := if u < v then u else v, if u < v then v else u;
    PREFIX + ToString(a) + [':'] + ToString(b)
  }

  /** The text of a key: the smaller id first. */
  lemma KeyText(u: int, v: int)
    requires u <= v
    ensures ChatKey(u, v) == ChatKey(v, u) == PREFIX + ToString(u) + [':'] + ToString(v) && PREFIX == "chat:msgs:"
  {
  }

  lemma ToStringHasNoColon(n: int)
    ensures Free(ToString(n), ':')
  {
    hide Digits;
    assert AllDigits(Digits(if n < 0 then -n else n));
  }

  lemma SplitAtColon(a: Bytes, b: Bytes, c: Bytes, d: Bytes)
    requires Free(a, ':') && Free(c, ':') && a + [':'] + b == c + [':'] + d
    ensures a == c && b == d
  {
    var s, t := a + [':'] + b, c + [':'] + d;
    assert s[|a|] == ':' && t[|c|] == ':';
    assert forall k :: 0 <= k < |a| ==> s[k] == a[k];
    assert forall k :: 0 <= k < |c| ==> t[k] == c[k];
    assert |a| == |c|;
    assert a == s[..|a|] && c == t[..|c|];
    assert b == s[|a| + 1..] && d == t[|c| + 1..];
  }

  /** Two pairs share a key exactly when they are the same two users. */
  lemma KeyFaithful(u: int, v: int, x: int, y: int)
    ensures ChatKey(u, v) == ChatKey(x, y) <==> {u, v} == {x, y}
  {
    var a, b := if u < v then u else v, if u < v then v else u;
    var c, d := if x < y then x else y, if x < y then y else x;
    hide ToString;
    if ChatKey(u, v) == ChatKey(x, y) {
      var s, t := ToString(a) + [':'] + ToString(b), ToString(c) + [':'] + ToString(d);
      assert ChatKey(u, v)[|PREFIX|..] == s && ChatKey(x, y)[|PREFIX|..] == t;
      ToStringHasNoColon(a);
      ToStringHasNoColon(c);
      SplitAtColon(ToString(a), ToString(b), ToString(c), ToString(d));
      ToStringInjective(a, c);
      ToStringInjective(b, d);
      assert {u, v} == {a, b} && {x, y} == {c, d};
    }
    if {u, v} == {x, y} {
      assert u in {x, y} && v in {x, y} && x in {u, v} && y in {u, v};
    }
  }

  // ---------- The sorted set ----------

  /** A member and its score, the second the message was accepted. */
  datatype Entry = Entry(score: int, member: Bytes)

  predicate LexLess(a: Bytes, b: Bytes) {
    |b| > 0 && (|a| == 0 || a[0] < b[0] || (a[0] == b[0] && LexLess(a[1..], b[1..])))
  }

  /** Redis's order: by score, then by bytes. */
  predicate Less(a: Entry, b: Entry) {
    a.score < b.score || (a.score == b.score && LexLess(a.member, b.member))
  }

  /** The first byte in which two strings differ decides; a proper prefix is less. */
  lemma {:induction false} LexFirstDifference(a: Bytes, b: Bytes, k: nat)
    requires k <= |a| && k <= |b| && a[..k] == b[..k]
    requires k < |a| && k < |b| ==> a[k] != b[k]
    ensures LexLess(a, b) <==> k < |b| && (k == |a| || a[k] < b[k])
    decreases k
  {
    if k > 0 {
      assert a[0] == a[..k][0] == b[..k][0] == b[0];
      assert a[1..][..k - 1] == a[..k][1..] && b[1..][..k - 1] == b[..k][1..];
      LexFirstDifference(a[1..], b[1..], k - 1);
    }
  }

  lemma {:induction false} LexTotal(a: Bytes, b: Bytes)
    ensures a == b || LexLess(a, b) || LexLess(b, a)
    ensures !(LexLess(a, b) && LexLess(b, a)) && (a == b ==> !LexLess(a, b))
  {
    if |a| > 0 && |b| > 0 {
      LexTotal(a[1..], b[1..]);
      assert a == [a[0]] + a[1..] && b == [b[0]] + b[1..];
    }
  }

  lemma {:induction false} LexTransitive(a: Bytes, b: Bytes, c: Bytes)
    requires LexLess(a, b) && LexLess(b, c)
    ensures LexLess(a, c)
  {
    if |a| > 0 && a[0] == b[0] == c[0] {
      LexTransitive(a[1..], b[1..], c[1..]);
    }
  }

  predicate Ordered(z: seq<Entry>) {
    forall i, j :: 0 <= i < j < |z| ==> Less(z[i], z[j])
  }

  function Insert(z: seq<Entry>, e: Entry): seq<Entry> {
    if |z| == 0 then [e]
    else if Less(e, z[0]) then [e] + z
    else [z[0]] + Insert(z[1..], e)
  }

  function Without(z: seq<Entry>, member: Bytes): (r: seq<Entry>)
    ensures forall e :: e in r <==> e in z && e.member != member
    ensures (forall e :: e in z ==> e.member != member) ==> r == z
  {
    if |z| == 0 then []
    else if z[0].member == member then Without(z[1..], member)
    else [z[0]] + Without(z[1..], member)
  }

  /** `ZADD key ts member`: an old entry of the member gives way. */
  function Zadd(z: seq<Entry>, ts: int, member: Bytes): seq<Entry> {
    Insert(Without(z, member), Entry(ts, member))
  }

  lemma {:induction false} InsertContents(z: seq<Entry>, e: Entry)
    ensures multiset(Insert(z, e)) == multiset(z) + multiset{e}
  {
    if |z| > 0 {
      assert z == [z[0]] + z[1..];
      if !Less(e, z[0]) {
        InsertContents(z[1..], e);
      }
    }
  }

  lemma {:induction false} InsertOrdered(z: seq<Entry>, e: Entry)
    requires Ordered(z) && e !in z
    ensures Ordered(Insert(z, e))
  {
    if |z| > 0 {
      LexTotal(e.member, z[0].member);
      if Less(e, z[0]) {
        forall k | 0 <= k < |z| ensures Less(e, z[k]) {
          if k > 0 {
            LessTransitive(e, z[0], z[k]);
          }
        }
      } else {
        var rest := z[1..];
        InsertOrdered(rest, e);
        InsertContents(rest, e);
        forall x | x in Insert(rest, e) ensures Less(z[0], x) {
          assert x in multiset(rest) + multiset{e};
        }
      }
    }
  }

  lemma LessTransitive(a: Entry, b: Entry, c: Entry)
    requires Less(a, b) && Less(b, c)
    ensures Less(a, c)
  {
    if a.score == b.score == c.score {
      LexTransitive(a.member, b.member, c.member);
    }
  }

  lemma {:induction false} WithoutOrdered(z: seq<Entry>, member: Bytes)
    requires Ordered(z)
    ensures Ordered(Without(z, member))
  {
    if |z| > 0 {
      WithoutOrdered(z[1..], member);
      var rest := Without(z[1..], member);
      forall k | 0 <= k < |rest| ensures Less(z[0], rest[k]) {
        assert rest[k] in z[1..];
      }
    }
  }

  /** The sorted set holds each member once, with the score it was last given. */
  ghost predicate Represents(z: seq<Entry>, scores: map<Bytes, int>) {
    Ordered(z) && forall e :: e in z <==> e.member in scores && scores[e.member] == e.score
  }

  lemma ZaddRepresents(z: seq<Entry>, scores: map<Bytes, int>, ts: int, member: Bytes)
    requires Represents(z, scores)
    ensures Represents(Zadd(z, ts, member), scores[member := ts])
  {
    hide Insert, Without;
    var rest, e := Without(z, member), Entry(ts, member);
    WithoutOrdered(z, member);
    InsertOrdered(rest, e);
    InsertContents(rest, e);
    forall x ensures x in Insert(rest, e) <==> x in rest || x == e {
      assert x in Insert(rest, e) <==> x in multiset(rest) + multiset{e};
    }
  }

  // ---------- The cache over a run ----------

  const CACHE_SECONDS := 7200

  /** A Redis sorted set and the second it is gone. */
  datatype Zset = Zset(entries: seq<Entry>, deadline: int)

  type Cache = map<Bytes, Zset>

  /** An accepted message as the cache sees it. */
  datatype Sent = Sent(from: int, to: int, payload: Bytes, ts: int)

  function LiveEntries(cache: Cache, key: Bytes, now: int): seq<Entry> {
    if key in cache && now < cache[key].deadline then cache[key].entries else []
  }

  /** `redisCacheMsg` */
  function Cached(cache: Cache, m: Sent): Cache {
    var key := ChatKey(m.from, m.to);
    cache[key := Zset(Zadd(LiveEntries(cache, key, m.ts), m.ts, m.payload), m.ts + CACHE_SECONDS)]
  }

  function CacheAfter(ms: seq<Sent>): Cache {
    if |ms| == 0 then map[] else Cached(CacheAfter(ms[..|ms| - 1]), ms[|ms| - 1])
  }

  /** The messages between two users, either way. */
  function PairLog(ms: seq<Sent>, u: int, v: int): seq<Sent> {
    if |ms| == 0 then []
    else
      var m := ms[|ms| - 1];
      PairLog(ms[..|ms| - 1], u, v) + if {m.from, m.to} == {u, v} then [m] else []
  }

  /** The last stretch of a conversation without a pause of two hours. */
  function Burst(log: seq<Sent>): seq<Sent> {
    var n := |log|;
    if n <= 1 then log
    else if log[n - 1].ts < log[n - 2].ts + CACHE_SECONDS then Burst(log[..n - 1]) + [log[n - 1]]
    else [log[n - 1]]
  }

  /** Each payload with the second it was last sent. */
  function Scores(log: seq<Sent>): map<Bytes, int> {
    if |log| == 0 then map[] else Scores(log[..|log| - 1])[log[|log| - 1].payload := log[|log| - 1].ts]
  }

  lemma ScoresSnoc(log: seq<Sent>, m: Sent)
    ensures Scores(log + [m]) == Scores(log)[m.payload := m.ts]
  {
    assert (log + [m])[..|log|] == log;
  }

  ghost predicate PairOk(cache: Cache, log: seq<Sent>, key: Bytes) {
    if |log| == 0 then key !in cache
    else key in cache
         && cache[key].deadline == log[|log| - 1].ts + CACHE_SECONDS
         && Represents(cache[key].entries, Scores(Burst(log)))
  }

  lemma BurstGoes(log: seq<Sent>, m: Sent)
    ensures |log| > 0 && m.ts < log[|log| - 1].ts + CACHE_SECONDS ==> Burst(log + [m]) == Burst(log) + [m]
    ensures |log| == 0 || m.ts >= log[|log| - 1].ts + CACHE_SECONDS ==> Burst(log + [m]) == [m]
  {
    assert (log + [m])[..|log|] == log;
  }

  /** One more message of the pair. */
  lemma PairGrows(cache: Cache, log: seq<Sent>, m: Sent)
    requires PairOk(cache, log, ChatKey(m.from, m.to))
    ensures PairOk(Cached(cache, m), log + [m], ChatKey(m.from, m.to))
  {
    hide Zadd, Scores, ChatKey, Represents, Burst;
    BurstGoes(log, m);
    var live := LiveEntries(cache, ChatKey(m.from, m.to), m.ts);
    if |log| > 0 && m.ts < log[|log| - 1].ts + CACHE_SECONDS {
      ScoresSnoc(Burst(log), m);
      ZaddRepresents(live, Scores(Burst(log)), m.ts, m.payload);
    } else {
      NoScores();
      ScoresSnoc([], m);
      assert [] + [m] == [m];
      ZaddRepresents([], map[], m.ts, m.payload);
    }
  }

  lemma NoScores()
    ensures Scores([]) == map[] && Represents([], map[])
  {
  }

  lemma {:induction false} PairAfter(ms: seq<Sent>, u: int, v: int)
    ensures PairOk(CacheAfter(ms), PairLog(ms, u, v), ChatKey(u, v))
    decreases |ms|
  {
    hide PairOk, ChatKey, Zadd;
    if |ms| == 0 {
      assert PairOk(map[], [], ChatKey(u, v)) by { EmptyPair(ChatKey(u, v)); }
    } else {
      var front, m := ms[..|ms| - 1], ms[|ms| - 1];
      PairAfter(front, u, v);
      KeyFaithful(m.from, m.to, u, v);
      if {m.from, m.to} == {u, v} {
        PairGrows(CacheAfter(front), PairLog(front, u, v), m);
      } else {
        OtherPair(CacheAfter(front), PairLog(front, u, v), m, ChatKey(u, v));
        assert PairLog(front, u, v) + [] == PairLog(front, u, v);
      }
    }
  }

  lemma EmptyPair(key: Bytes)
    ensures PairOk(map[], [], key)
  {
  }

  lemma OtherPair(cache: Cache, log: seq<Sent>, m: Sent, key: Bytes)
    requires PairOk(cache, log, key) && ChatKey(m.from, m.to) != key
    ensures PairOk(Cached(cache, m), log, key)
  {
    hide ChatKey, Zadd, Represents;
  }

  /** For every run and every pair, whatever the other pairs did: while the key is
      live, the cached entries are the payloads of the pair's last unbroken
      stretch, each once, with the second it was last sent, in order. */
  lemma CacheRefinesLog(ms: seq<Sent>, u: int, v: int, now: int)
    requires var log := PairLog(ms, u, v); |log| > 0 && now < log[|log| - 1].ts + CACHE_SECONDS
    ensures Represents(LiveEntries(CacheAfter(ms), ChatKey(u, v), now), Scores(Burst(PairLog(ms, u, v))))
  {
    PairAfter(ms, u, v);
  }

  /** And two hours after the pair's last message, whatever other pairs do, there is
      nothing of it. */
  lemma CacheForgets(ms: seq<Sent>, u: int, v: int, now: int)
    requires var log := PairLog(ms, u, v); |log| == 0 || now >= log[|log| - 1].ts + 7200
    ensures LiveEntries(CacheAfter(ms), ChatKey(u, v), now) == []
    ensures CACHE_SECONDS == 7200
  {
    PairAfter(ms, u, v);
    hide CacheAfter, PairLog, ChatKey, Represents, Scores, Burst;
  }

  /** Successive messages less than two hours apart. */
  predicate Dense(log: seq<Sent>) {
    forall i :: 0 < i < |log| ==> log[i].ts < log[i - 1].ts + CACHE_SECONDS
  }

  predicate Distinct(log: seq<Sent>) {
    forall i, j :: 0 <= i < j < |log| ==> log[i].payload != log[j].payload
  }

  lemma {:induction false} DenseIsBurst(log: seq<Sent>)
    requires Dense(log)
    ensures Burst(log) == log
    decreases |log|
  {
    if |log| > 1 {
      var front := log[..|log| - 1];
      assert Dense(front);
      DenseIsBurst(front);
      BurstGoes(front, log[|log| - 1]);
      assert log == front + [log[|log| - 1]];
    }
  }

  lemma {:induction false} DistinctScores(log: seq<Sent>, p: Bytes, ts: int)
    requires Distinct(log)
    ensures (p in Scores(log) && Scores(log)[p] == ts) <==> exists i :: 0 <= i < |log| && log[i].payload == p && log[i].ts == ts
    decreases |log|
  {
    if |log| > 0 {
      var front, n := log[..|log| - 1], |log| - 1;
      DistinctScores(front, p, ts);
      if p == log[n].payload {
        assert forall i :: 0 <= i < n ==> log[i].payload != p;
      } else if p in Scores(front) && Scores(front)[p] == ts {
        var i :| 0 <= i < |front| && front[i].payload == p && front[i].ts == ts;
        assert log[i] == front[i];
      } else {
        assert forall i :: 0 <= i < n ==> front[i] == log[i];
      }
    }
  }

  /** When no pause is that long and no two payloads coincide, the cache is the
      conversation. */
  lemma CacheIsConversation(ms: seq<Sent>, u: int, v: int, now: int, e: Entry)
    requires var log := PairLog(ms, u, v); |log| > 0 && now < log[|log| - 1].ts + CACHE_SECONDS
    requires Dense(PairLog(ms, u, v)) && Distinct(PairLog(ms, u, v))
    ensures var log := PairLog(ms, u, v);
            e in LiveEntries(CacheAfter(ms), ChatKey(u, v), now)
            <==> exists i :: 0 <= i < |log| && log[i].payload == e.member && log[i].ts == e.score
  {
    hide Scores, Burst, PairLog, CacheAfter, ChatKey, Dense, Distinct;
    CacheRefinesLog(ms, u, v, now);
    DenseIsBurst(PairLog(ms, u, v));
    DistinctScores(PairLog(ms, u, v), e.member, e.score);
  }

  // ---------- Pages ----------

  /** Newest first. */
  function Newest(z: seq<Entry>): (r: seq<Entry>)
    ensures |r| == |z| && forall k :: 0 <= k < |z| ==> r[k] == z[|z| - 1 - k]
  {
    seq(|z|, k requires 0 <= k < |z| => z[|z| - 1 - k])
  }

  /** `ZREVRANGE key start stop`: both ends included, negative ones counted from
      the end, what lies outside cut off. */
  function ZRevRange(z: seq<Entry>, start: int, stop: int): seq<Entry> {
    var n := |z|;
    var from := if start < 0 then (if start + n < 0 then 0 else start + n) else start;
    var last := if stop < 0 then stop + n else if stop >= n then n - 1 else stop;
    if from > last || from >= n then [] else Newest(z)[from..last + 1]
  }

  /** The request's limit, 50 when it is not positive. */
  function PageSize(limit: int): (size: int)
    ensures limit > 0 ==> size == limit
    ensures limit <= 0 ==> size == 50
  {
    if limit > 0 then limit else 50
  }

  /** The page at an offset from 0 on. */
  lemma PageIs(z: seq<Entry>, size: int, offset: nat)
    requires size > 0
    ensures var page := ZRevRange(z, offset, offset + size - 1);
            if offset >= |z| then page == []
            else if offset + size <= |z| then page == Newest(z)[offset..offset + size]
            else page == Newest(z)[offset..]
  {
  }

  /** A negative offset counts from the oldest entry: the page holds up to `size`
      of the last entries, unless its end is back among the newest ones. */
  lemma NegativeOffset(z: seq<Entry>, size: int, offset: int)
    requires size > 0 && offset < 0
    ensures var page, n := ZRevRange(z, offset, offset + size - 1), |z|;
            var from := if offset + n < 0 then 0 else offset + n;
            var end := if offset + size <= 0 then n + offset + size else if offset + size <= n then offset + size else n;
            if from >= end then page == []
            else |page| == end - from && forall k :: 0 <= k < end - from ==> page[k] == z[n - 1 - from - k]
  {
  }

  /** Pages asked for one after the other until one is empty. */
  function AllPages(z: seq<Entry>, size: int, offset: nat): seq<Entry>
    requires size > 0
    decreases if offset < |z| then |z| - offset else 0
  {
    var page := ZRevRange(z, offset, offset + size - 1);
    if page == [] then [] else PageIs(z, size, offset); page + AllPages(z, size, offset + size)
  }

  lemma {:induction false} PagesTileFrom(z: seq<Entry>, size: int, offset: nat)
    requires size > 0 && offset <= |z|
    ensures AllPages(z, size, offset) == Newest(z)[offset..]
    decreases |z| - offset
  {
    hide ZRevRange, Newest;
    PageIs(z, size, offset);
    if offset < |z| {
      PageIs(z, size, offset + size);
      if offset + size <= |z| {
        PagesTileFrom(z, size, offset + size);
        assert Newest(z)[offset..] == Newest(z)[offset..offset + size] + Newest(z)[offset + size..];
      }
    }
  }

  /** Successive pages tile the history, newest first: nothing is missing and
      nothing comes twice. */
  lemma PagesTile(z: seq<Entry>, limit: int)
    requires Ordered(z)
    ensures var all := AllPages(z, PageSize(limit), 0);
            && all == Newest(z)
            && (forall i, j :: 0 <= i < j < |all| ==> all[i].score >= all[j].score && all[i] != all[j])
  {
    PagesTileFrom(z, PageSize(limit), 0);
    hide AllPages, Newest;
    var all := AllPages(z, PageSize(limit), 0);
    assert Newest(z)[0..] == Newest(z);
    forall i, j | 0 <= i < j < |all| ensures all[i].score >= all[j].score && all[i] != all[j] {
      assert all[i] == z[|z| - 1 - i] && all[j] == z[|z| - 1 - j];
      assert Less(all[j], all[i]);
      LexTotal(all[i].member, all[j].member);
    }
  }

  /** So a client that steps by its own limit sees every entry once. */
  lemma OwnStepsTile(z: seq<Entry>, limit: int)
    requires Ordered(z) && limit > 0
    ensures AllPages(z, limit, 0) == Newest(z)
  {
    PagesTile(z, limit);
  }

  /** Together: paging through the live cache of a conversation without a long
      pause or a repeated payload shows each of its messages once, newest first. */
  lemma PagesAreConversation(ms: seq<Sent>, u: int, v: int, now: int, limit: int)
    requires var log := PairLog(ms, u, v); |log| > 0 && now < log[|log| - 1].ts + CACHE_SECONDS
    requires Dense(PairLog(ms, u, v)) && Distinct(PairLog(ms, u, v))
    ensures var log, all := PairLog(ms, u, v), AllPages(LiveEntries(CacheAfter(ms), ChatKey(u, v), now), PageSize(limit), 0);
            && (forall i, j :: 0 <= i < j < |all| ==> all[i].score >= all[j].score && all[i] != all[j])
            && (forall e :: e in all <==> exists i :: 0 <= i < |log| && log[i].payload == e.member && log[i].ts == e.score)
  {
    hide PairLog, CacheAfter, ChatKey, Dense, Distinct, AllPages, Newest, Scores, Burst;
    var log, z := PairLog(ms, u, v), LiveEntries(CacheAfter(ms), ChatKey(u, v), now);
    CacheRefinesLog(ms, u, v, now);
    PagesTile(z, limit);
    var all := AllPages(z, PageSize(limit), 0);
    forall e ensures e in all <==> exists i :: 0 <= i < |log| && log[i].payload == e.member && log[i].ts == e.score {
      CacheIsConversation(ms, u, v, now, e);
      InNewest(z, e);
    }
  }

  lemma InNewest(z: seq<Entry>, e: Entry)
    ensures e in Newest(z) <==> e in z
  {
    var r := Newest(z);
    if e in z {
      var k :| 0 <= k < |z| && z[k] == e;
      assert r[|z| - 1 - k] == e;
    }
  }
}

/** `redisCheckRate`: a counter key that INCR creates and EXPIRE gives a window. */
module RateLimit {
  import opened ByteStrings

  const TWO_TO_31 := 0x8000_0000

  /** The narrowing of the 64-bit reply into `int count`. */
  function ToInt32(n: nat): int {
    var m := n % (2 * TWO_TO_31);
    if m >= TWO_TO_31 then m - 2 * TWO_TO_31 else m
  }

  /** A live key is one whose deadline has not come. */
  datatype Counter = Counter(count: nat, deadline: int)

  function Incremented(c: Option<Counter>, now: int): Counter {
    if c.Some? && now < c.value.deadline then Counter(c.value.count + 1, c.value.deadline)
    else Counter(1, now)
  }

  /** One call: the counter it leaves and whether it is let through. */
  function Checked(c: Option<Counter>, max: nat, window: nat, now: int): (Counter, bool) {
    var i := Incremented(c, now);
    var count := ToInt32(i.count);
    (if count == 1 then Counter(i.count, now + window) else i, count <= max)
  }

  type Counters = map<Bytes, Counter>

  function CounterAt(counters: Counters, key: Bytes): Option<Counter> {
    if key in counters then Some(counters[key]) else None
  }

  /** A call on some key, as it came. */
  datatype Call = Call(key: Bytes, max: nat, window: nat, now: int)

  class RateLimiter {
    var counters: Counters

    constructor ()
      ensures counters == map[]
    {
      counters := map[];
    }

    function At(key: Bytes): Option<Counter>
      reads this
    {
      CounterAt(counters, key)
    }

    method Check(key: Bytes, max: nat, window: nat, now: int) returns (ok: bool)
      modifies this
      ensures var (c, accepted) := Checked(old(At(key)), max, window, now);
              ok == accepted && counters == old(counters)[key := c]
    {
      // INCR
      var entry := if key in counters && now < counters[key].deadline
                   then Counter(counters[key].count + 1, counters[key].deadline)
                   else Counter(1, now);
      counters := counters[key := entry];
      var count := ToInt32(entry.count);
      if count == 1 {
        // EXPIRE
        counters := counters[key := Counter(entry.count, now + window)];
      }
      ok := count <= max;
    }
  }

  // ---------- Whole call sequences ----------

  /** Which calls on one key are let through. */
  function Flags(c: Option<Counter>, times: seq<int>, max: nat, window: nat): (flags: seq<bool>)
    ensures |flags| == |times|
    decreases |times|
  {
    if |times| == 0 then []
    else
      var (next, ok) := Checked(c, max, window, times[0]);
      [ok] + Flags(Some(next), times[1..], max, window)
  }

  predicate Sorted(times: seq<int>) {
    forall i, j :: 0 <= i <= j < |times| ==> times[i] <= times[j]
  }

  /** How many calls come before `end`. */
  function Leading(times: seq<int>, end: int): (n: nat)
    ensures n <= |times|
    ensures forall k :: 0 <= k < n ==> times[k] < end
    ensures n < |times| ==> times[n] >= end
  {
    if |times| == 0 || times[0] >= end then 0 else 1 + Leading(times[1..], end)
  }

  /** `used` calls have come already; the next `n` pass while `max` lasts. */
  function FirstFlags(n: nat, used: nat, max: nat): (flags: seq<bool>)
    ensures |flags| == n
    ensures forall k :: 0 <= k < n ==> (flags[k] <==> used + k < max)
  {
    if n == 0 then [] else [used < max] + FirstFlags(n - 1, used + 1, max)
  }

  /** Independent definition: time is cut into windows, each opened by the first
      call after the last one closed, and each lets its first `max` calls pass. */
  function FixedWindows(times: seq<int>, max: nat, window: nat): (flags: seq<bool>)
    requires window > 0
    ensures |flags| == |times|
    decreases |times|
  {
    if |times| == 0 then []
    else
      var n := Leading(times, times[0] + window);
      assert n > 0;
      FirstFlags(n, 0, max) + FixedWindows(times[n..], max, window)
  }

  /** Fewer calls in every window than a 32-bit counter can show. */
  predicate Bounded(times: seq<int>, window: nat)
    requires window > 0
    decreases |times|
  {
    |times| == 0 ||
    var n := Leading(times, times[0] + window);
    assert n > 0;
    n < TWO_TO_31 && Bounded(times[n..], window)
  }

  lemma SortedTail(times: seq<int>, n: nat)
    requires Sorted(times) && n <= |times|
    ensures Sorted(times[n..])
  {
  }

  /** Inside a window the calls are numbered, while the counter can show them. */
  lemma {:induction false} CountsUp(c: Counter, times: seq<int>, n: nat, max: nat, window: nat)
    requires 1 <= c.count && c.count + n < TWO_TO_31 && n <= |times|
    requires forall k :: 0 <= k < n ==> times[k] < c.deadline
    ensures Flags(Some(c), times, max, window)
            == FirstFlags(n, c.count, max) + Flags(Some(Counter(c.count + n, c.deadline)), times[n..], max, window)
    decreases n
  {
    if n == 0 {
      assert times[n..] == times;
    } else {
      var next := Counter(c.count + 1, c.deadline);
      assert Checked(Some(c), max, window, times[0]) == (next, c.count < max);
      CountsUp(next, times[1..], n - 1, max, window);
      assert times[1..][n - 1..] == times[n..];
    }
  }

  /** And then the window is over. */
  lemma FlagsInWindow(c: Counter, times: seq<int>, n: nat, max: nat, window: nat)
    requires 1 <= c.count && c.count + n < TWO_TO_31
    requires n <= |times| && forall k :: 0 <= k < n ==> times[k] < c.deadline
    requires n < |times| ==> times[n] >= c.deadline
    ensures Flags(Some(c), times, max, window)
            == FirstFlags(n, c.count, max) + Flags(None, times[n..], max, window)
  {
    CountsUp(c, times, n, max, window);
    DeadCounter(Counter(c.count + n, c.deadline), times[n..], max, window);
  }

  lemma DeadCounter(c: Counter, times: seq<int>, max: nat, window: nat)
    requires |times| > 0 ==> times[0] >= c.deadline
    ensures Flags(Some(c), times, max, window) == Flags(None, times, max, window)
  {
    if |times| > 0 {
      assert Incremented(Some(c), times[0]) == Incremented(None, times[0]);
    }
  }

  /** The counter protocol implements fixed windows; a dead or missing counter
      starts it afresh. */
  lemma {:induction false} ChecksAreFixedWindows(times: seq<int>, max: nat, window: nat)
    requires window > 0 && Sorted(times) && Bounded(times, window)
    ensures Flags(None, times, max, window) == FixedWindows(times, max, window)
    decreases |times|
  {
    if |times| > 0 {
      var n := Leading(times, times[0] + window);
      assert n > 0;
      SortedTail(times, n);
      ChecksAreFixedWindows(times[n..], max, window);
      WindowOpens(times, n, max, window);
    }
  }

  lemma WindowOpens(times: seq<int>, n: nat, max: nat, window: nat)
    requires 0 < n <= |times| && n < TWO_TO_31
    requires forall k :: 0 <= k < n ==> times[k] < times[0] + window
    requires n < |times| ==> times[n] >= times[0] + window
    ensures Flags(None, times, max, window) == FirstFlags(n, 0, max) + Flags(None, times[n..], max, window)
  {
    var first := Counter(1, times[0] + window);
    assert Checked(None, max, window, times[0]) == (first, 0 < max);
    hide Checked;
    FlagsInWindow(first, times[1..], n - 1, max, window);
    assert times[1..][n - 1..] == times[n..];
    assert FirstFlags(n, 0, max) == [0 < max] + FirstFlags(n - 1, 1, max);
  }

  // ---------- The sliding bound ----------

  /** Calls let through at a time in [from, to). */
  function AcceptedIn(times: seq<int>, flags: seq<bool>, from: int, to: int): nat
    requires |times| == |flags|
  {
    if |times| == 0 then 0
    else (if flags[0] && from <= times[0] < to then 1 else 0) + AcceptedIn(times[1..], flags[1..], from, to)
  }

  lemma {:induction false} AcceptedConcat(t1: seq<int>, f1: seq<bool>, t2: seq<int>, f2: seq<bool>, from: int, to: int)
    requires |t1| == |f1| && |t2| == |f2|
    ensures AcceptedIn(t1 + t2, f1 + f2, from, to) == AcceptedIn(t1, f1, from, to) + AcceptedIn(t2, f2, from, to)
  {
    if |t1| == 0 {
      assert t1 + t2 == t2 && f1 + f2 == f2;
    } else {
      assert (t1 + t2)[1..] == t1[1..] + t2 && (f1 + f2)[1..] == f1[1..] + f2;
      AcceptedConcat(t1[1..], f1[1..], t2, f2, from, to);
    }
  }

  lemma {:induction false} NoneOutside(times: seq<int>, flags: seq<bool>, from: int, to: int)
    requires |times| == |flags|
    requires forall k :: 0 <= k < |times| ==> times[k] < from || to <= times[k]
    ensures AcceptedIn(times, flags, from, to) == 0
  {
    if |times| > 0 {
      NoneOutside(times[1..], flags[1..], from, to);
    }
  }

  /** What one window lets pass: at most what is left of the allowance, and all
      of that if every call lies in the interval. */
  lemma {:induction false} WindowAccepts(times: seq<int>, used: nat, max: nat, from: int, to: int)
    ensures var left, total := if used < max then max - used else 0,
                               AcceptedIn(times, FirstFlags(|times|, used, max), from, to);
            && total <= left
            && ((forall k :: 0 <= k < |times| ==> from <= times[k] < to) ==>
                  total == if |times| <= left then |times| else left)
    decreases |times|
  {
    if |times| > 0 {
      WindowAccepts(times[1..], used + 1, max, from, to);
    }
  }

  /** A window of n calls lets exactly min(n, max) of them pass. */
  lemma WindowAcceptsMin(times: seq<int>, max: nat, window: nat)
    requires window > 0 && Sorted(times) && Bounded(times, window)
    requires |times| > 0 && times[|times| - 1] < times[0] + window
    ensures AcceptedIn(times, Flags(None, times, max, window), times[0], times[0] + window)
            == if |times| <= max then |times| else max
  {
    ChecksAreFixedWindows(times, max, window);
    var n := Leading(times, times[0] + window);
    assert forall k :: 0 <= k < |times| ==> times[k] <= times[|times| - 1];
    assert n == |times|;
    assert FixedWindows(times, max, window) == FirstFlags(|times|, 0, max);
    WindowAccepts(times, 0, max, times[0], times[0] + window);
  }

  /** When the call that opened the window is older than the interval, the
      window's share of the interval is one less than the allowance. */
  lemma OlderWindowShare(times: seq<int>, max: nat, from: int, to: int)
    requires |times| > 0 && times[0] < from
    ensures AcceptedIn(times, FirstFlags(|times|, 0, max), from, to) <= if max > 0 then max - 1 else 0
  {
    WindowAccepts(times[1..], 1, max, from, to);
  }

  /** The first window and what comes after it, in an interval. */
  lemma SplitFirstWindow(times: seq<int>, n: nat, max: nat, window: nat, from: int, to: int)
    requires window > 0 && |times| > 0 && n == Leading(times, times[0] + window)
    ensures 0 < n <= |times|
    ensures AcceptedIn(times, FixedWindows(times, max, window), from, to)
            == AcceptedIn(times[..n], FirstFlags(n, 0, max), from, to)
               + AcceptedIn(times[n..], FixedWindows(times[n..], max, window), from, to)
  {
    assert n > 0;
    assert times == times[..n] + times[n..];
    AcceptedConcat(times[..n], FirstFlags(n, 0, max), times[n..], FixedWindows(times[n..], max, window), from, to);
  }

  lemma FixedWindowsSlideBase(times: seq<int>, max: nat, window: nat, from: int)
    requires window > 0 && Sorted(times) && |times| > 0 && times[0] >= from
    ensures AcceptedIn(times, FixedWindows(times, max, window), from, from + window) <= max
  {
    var n := Leading(times, times[0] + window);
    SplitFirstWindow(times, n, max, window, from, from + window);
    WindowAccepts(times[..n], 0, max, from, from + window);
    NoneOutside(times[n..], FixedWindows(times[n..], max, window), from, from + window);
  }

  lemma {:induction false} FixedWindowsSlide(times: seq<int>, max: nat, window: nat, from: int)
    requires window > 0 && Sorted(times)
    ensures AcceptedIn(times, FixedWindows(times, max, window), from, from + window)
            <= if max == 0 then 0 else 2 * max - 1
    decreases |times|
  {
    hide AcceptedIn, FirstFlags, Leading, FixedWindows;
    if |times| == 0 {
      NoneOutside(times, FixedWindows(times, max, window), from, from + window);
    } else if times[0] >= from {
      FixedWindowsSlideBase(times, max, window, from);
    } else {
      var n := Leading(times, times[0] + window);
      var head, rest := times[..n], times[n..];
      SplitFirstWindow(times, n, max, window, from, from + window);
      SortedTail(times, n);
      OlderWindowShare(head, max, from, from + window);
      if |rest| > 0 && rest[0] >= from {
        FixedWindowsSlideBase(rest, max, window, from);
      } else {
        FixedWindowsSlide(rest, max, window, from);
        if |rest| > 0 {
          NoneOutside(head, FirstFlags(n, 0, max), from, from + window);
        } else {
          NoneOutside(rest, FixedWindows(rest, max, window), from, from + window);
        }
      }
    }
  }

  /** At any moment, the last `window` seconds let fewer than twice the allowance
      pass. */
  lemma SlidingBound(times: seq<int>, max: nat, window: nat, from: int)
    requires window > 0 && Sorted(times) && Bounded(times, window)
    ensures var total := AcceptedIn(times, Flags(None, times, max, window), from, from + window);
            if max == 0 then total == 0 else total <= 2 * max - 1
  {
    ChecksAreFixedWindows(times, max, window);
    FixedWindowsSlide(times, max, window, from);
  }

  /** One call opens a window, the rest of its allowance comes at the window's last
      second, and the next allowance right after it. */
  function Burst(max: nat, window: nat): (times: seq<int>)
    requires max > 0 && window > 1
    ensures |times| == 2 * max && times[0] == 0
    ensures forall k :: 0 < k < max ==> times[k] == window - 1
    ensures forall k :: max <= k < 2 * max ==> times[k] == window
  {
    seq(2 * max, k => if k == 0 then 0 else if k < max then window - 1 else window)
  }

  lemma AllInside(times: seq<int>, max: nat, window: nat)
    requires window > 0 && |times| == max && 0 < max < TWO_TO_31
    requires forall k :: 0 <= k < max ==> times[k] == times[0]
    ensures FixedWindows(times, max, window) == FirstFlags(max, 0, max) && Bounded(times, window)
  {
    assert Leading(times, times[0] + window) == max;
    assert FixedWindows(times, max, window) == FirstFlags(max, 0, max) + FixedWindows(times[max..], max, window);
  }

  lemma BurstWindows(max: nat, window: nat)
    requires 0 < max < TWO_TO_31 && window > 1
    ensures var times := Burst(max, window);
            && Sorted(times) && Bounded(times, window)
            && FixedWindows(times, max, window) == FirstFlags(max, 0, max) + FirstFlags(max, 0, max)
  {
    var times := Burst(max, window);
    var n := Leading(times, times[0] + window);
    assert times[max] == window;
    assert forall k :: 0 <= k < max ==> times[k] < window;
    assert n == max;
    AllInside(times[max..], max, window);
    hide FirstFlags, Burst;
  }

  /** What the two windows let pass in the interval from the first one's last second. */
  lemma BurstHalves(max: nat, window: nat)
    requires 0 < max < TWO_TO_31 && window > 1
    ensures var times, flags, from, to := Burst(max, window), FirstFlags(max, 0, max), window - 1, 2 * window - 1;
            && AcceptedIn(times[..max], flags, from, to) == max - 1
            && AcceptedIn(times[max..], flags, from, to) == max
  {
    var times, from, to := Burst(max, window), window - 1, 2 * window - 1;
    WindowAccepts(times[max..], 0, max, from, to);
    WindowAccepts(times[1..max], 1, max, from, to);
    assert times[..max][1..] == times[1..max];
    hide Burst;
  }

  /** The bound is sharp: for every allowance, some calls reach it. */
  lemma SlidingBoundSharp(max: nat, window: nat)
    requires 0 < max < TWO_TO_31 && window > 1
    ensures var times := Burst(max, window);
            && Sorted(times) && Bounded(times, window)
            && AcceptedIn(times, Flags(None, times, max, window), window - 1, 2 * window - 1) == 2 * max - 1
  {
    hide FixedWindows, Bounded, Sorted, Burst, AcceptedIn, FirstFlags, Flags;
    var times, from, to := Burst(max, window), window - 1, 2 * window - 1;
    BurstWindows(max, window);
    ChecksAreFixedWindows(times, max, window);
    BurstHalves(max, window);
    assert times == times[..max] + times[max..];
    AcceptedConcat(times[..max], FirstFlags(max, 0, max), times[max..], FirstFlags(max, 0, max), from, to);
  }

  // ---------- Why the calls of a window are bounded ----------

  /** The 2^31st call of a window is let through: its count narrows to a negative. */
  lemma CounterWraps(times: seq<int>, max: nat, window: nat)
    requires |times| >= TWO_TO_31 && forall k :: 0 <= k < TWO_TO_31 ==> times[k] < times[0] + window
    ensures Flags(None, times, max, window)[TWO_TO_31 - 1]
  {
    var first, n: nat := Counter(1, times[0] + window), TWO_TO_31 - 2;
    assert Checked(None, max, window, times[0]) == (first, 0 < max);
    var rest := times[1..];
    assert forall k :: 0 <= k < n ==> rest[k] < first.deadline;
    var last := Counter(TWO_TO_31 - 1, first.deadline);
    assert rest[n..][0] == times[n + 1] && Checked(Some(last), max, window, rest[n..][0]).1;
    hide Checked;
    CountsUp(first, rest, n, max, window);
    assert Flags(None, times, max, window) == [0 < max] + Flags(Some(first), rest, max, window);
  }

  /** The counter protocol implements fixed windows exactly when no window holds as
      many calls as a 32-bit counter cannot show. */
  lemma {:induction false} FixedWindowsExactly(times: seq<int>, max: nat, window: nat)
    requires window > 0 && Sorted(times) && max < TWO_TO_31
    ensures Flags(None, times, max, window) == FixedWindows(times, max, window) <==> Bounded(times, window)
    decreases |times|
  {
    if |times| > 0 {
      var n := Leading(times, times[0] + window);
      assert n > 0;
      var rest := times[n..];
      SortedTail(times, n);
      if n < TWO_TO_31 {
        FixedWindowsExactly(rest, max, window);
        WindowOpens(times, n, max, window);
        hide Flags, FirstFlags;
        SameAfter(FirstFlags(n, 0, max), Flags(None, rest, max, window), FixedWindows(rest, max, window));
        assert FixedWindows(times, max, window) == FirstFlags(n, 0, max) + FixedWindows(rest, max, window);
      } else {
        CounterWraps(times, max, window);
        hide Flags;
        assert !FixedWindows(times, max, window)[TWO_TO_31 - 1];
      }
    }
  }

  lemma SameAfter(a: seq<bool>, b: seq<bool>, c: seq<bool>)
    ensures a + b == a + c <==> b == c
  {
    assert b == (a + b)[|a|..] && c == (a + c)[|a|..];
  }

  // ---------- Many keys ----------

  /** Which calls are let through when calls on all keys come mixed. */
  function Verdicts(counters: Counters, calls: seq<Call>): (oks: seq<bool>)
    ensures |oks| == |calls|
    decreases |calls|
  {
    if |calls| == 0 then []
    else
      var call := calls[0];
      var (c, ok) := Checked(CounterAt(counters, call.key), call.max, call.window, call.now);
      [ok] + Verdicts(counters[call.key := c], calls[1..])
  }

  function CountersAfter(counters: Counters, calls: seq<Call>): Counters
    decreases |calls|
  {
    if |calls| == 0 then counters
    else
      var call := calls[0];
      CountersAfter(counters[call.key := Checked(CounterAt(counters, call.key), call.max, call.window, call.now).0], calls[1..])
  }

  /** One more call. */
  lemma {:induction false} VerdictsSnoc(counters: Counters, calls: seq<Call>, call: Call)
    ensures var after := CountersAfter(counters, calls);
            var (c, ok) := Checked(CounterAt(after, call.key), call.max, call.window, call.now);
            && Verdicts(counters, calls + [call]) == Verdicts(counters, calls) + [ok]
            && CountersAfter(counters, calls + [call]) == after[call.key := c]
    decreases |calls|
  {
    hide Checked;
    if |calls| == 0 {
      assert calls + [call] == [call] && [call][1..] == [];
    } else {
      var first := calls[0];
      var next := counters[first.key := Checked(CounterAt(counters, first.key), first.max, first.window, first.now).0];
      assert (calls + [call])[1..] == calls[1..] + [call];
      VerdictsSnoc(next, calls[1..], call);
    }
  }

  /** The times of the calls on one key. */
  function TimesOf(calls: seq<Call>, key: Bytes): seq<int> {
    if |calls| == 0 then [] else (if calls[0].key == key then [calls[0].now] else []) + TimesOf(calls[1..], key)
  }

  /** And the verdicts on them. */
  function VerdictsOn(calls: seq<Call>, oks: seq<bool>, key: Bytes): seq<bool>
    requires |oks| == |calls|
  {
    if |calls| == 0 then []
    else (if calls[0].key == key then [oks[0]] else []) + VerdictsOn(calls[1..], oks[1..], key)
  }

  predicate Limits(calls: seq<Call>, key: Bytes, max: nat, window: nat) {
    forall k :: 0 <= k < |calls| && calls[k].key == key ==> calls[k].max == max && calls[k].window == window
  }

  lemma {:induction false} KeysAreSeparateFrom(counters: Counters, calls: seq<Call>, key: Bytes, max: nat, window: nat)
    requires Limits(calls, key, max, window)
    ensures VerdictsOn(calls, Verdicts(counters, calls), key)
            == Flags(CounterAt(counters, key), TimesOf(calls, key), max, window)
    decreases |calls|
  {
    hide Checked;
    if |calls| > 0 {
      var call, rest := calls[0], calls[1..];
      assert Limits(rest, key, max, window);
      var (c, ok) := Checked(CounterAt(counters, call.key), call.max, call.window, call.now);
      var next := counters[call.key := c];
      KeysAreSeparateFrom(next, rest, key, max, window);
      assert Verdicts(counters, calls)[1..] == Verdicts(next, rest);
      assert CounterAt(next, key) == if call.key == key then Some(c) else CounterAt(counters, key);
      if call.key == key {
        assert TimesOf(calls, key)[1..] == TimesOf(rest, key);
      } else {
        assert [] + TimesOf(rest, key) == TimesOf(rest, key);
        assert [] + VerdictsOn(rest, Verdicts(next, rest), key) == VerdictsOn(rest, Verdicts(next, rest), key);
      }
    }
  }

  /** Whatever is called on other keys, the calls on a key are judged by the fixed
      windows of those calls alone. */
  lemma KeysAreSeparate(calls: seq<Call>, key: Bytes, max: nat, window: nat)
    requires Limits(calls, key, max, window) && window > 0
    requires Sorted(TimesOf(calls, key)) && Bounded(TimesOf(calls, key), window)
    ensures VerdictsOn(calls, Verdicts(map[], calls), key) == FixedWindows(TimesOf(calls, key), max, window)
  {
    KeysAreSeparateFrom(map[], calls, key, max, window);
    ChecksAreFixedWindows(TimesOf(calls, key), max, window);
  }

  // ---------- Many owners ----------

  /** A call by someone who has a key. */
  datatype Attempt<T> = Attempt(who: T, at: int)

  predicate InTime<T>(attempts: seq<Attempt<T>>) {
    forall i, j :: 0 <= i <= j < |attempts| ==> attempts[i].at <= attempts[j].at
  }

  function CallsOf<T>(attempts: seq<Attempt<T>>, key: T -> Bytes, max: nat, window: nat): (calls: seq<Call>)
    ensures |calls| == |attempts|
    ensures forall k :: 0 <= k < |calls| ==> calls[k] == Call(key(attempts[k].who), max, window, attempts[k].at)
  {
    seq(|attempts|, k requires 0 <= k < |attempts| => Call(key(attempts[k].who), max, window, attempts[k].at))
  }

  /** The times of one owner's calls. */
  function OwnTimes<T(==)>(attempts: seq<Attempt<T>>, who: T): seq<int> {
    if |attempts| == 0 then []
    else (if attempts[0].who == who then [attempts[0].at] else []) + OwnTimes(attempts[1..], who)
  }

  /** And the verdicts on them. */
  function OwnVerdicts<T(==)>(attempts: seq<Attempt<T>>, oks: seq<bool>, who: T): seq<bool>
    requires |oks| == |attempts|
  {
    if |attempts| == 0 then []
    else (if attempts[0].who == who then [oks[0]] else []) + OwnVerdicts(attempts[1..], oks[1..], who)
  }

  lemma {:induction false} OwnCalls<T>(attempts: seq<Attempt<T>>, key: T -> Bytes, max: nat, window: nat, oks: seq<bool>, who: T)
    requires |oks| == |attempts|
    requires forall u, v :: key(u) == key(v) ==> u == v
    ensures TimesOf(CallsOf(attempts, key, max, window), key(who)) == OwnTimes(attempts, who)
    ensures VerdictsOn(CallsOf(attempts, key, max, window), oks, key(who)) == OwnVerdicts(attempts, oks, who)
    decreases |attempts|
  {
    if |attempts| > 0 {
      OwnCalls(attempts[1..], key, max, window, oks[1..], who);
      assert CallsOf(attempts, key, max, window)[1..] == CallsOf(attempts[1..], key, max, window);
    }
  }

  lemma {:induction false} OwnSorted<T>(attempts: seq<Attempt<T>>, who: T)
    requires InTime(attempts)
    ensures Sorted(OwnTimes(attempts, who))
    ensures forall k :: 0 <= k < |OwnTimes(attempts, who)| ==> attempts[0].at <= OwnTimes(attempts, who)[k]
    decreases |attempts|
  {
    if |attempts| > 0 {
      OwnSorted(attempts[1..], who);
    }
  }

  /** Owners with keys of their own: each one's calls are judged by the fixed windows
      of that owner's calls alone. */
  lemma OwnersAreSeparate<T>(attempts: seq<Attempt<T>>, key: T -> Bytes, max: nat, window: nat, who: T)
    requires forall u, v :: key(u) == key(v) ==> u == v
    requires window > 0 && InTime(attempts) && Bounded(OwnTimes(attempts, who), window)
    ensures OwnVerdicts(attempts, Verdicts(map[], CallsOf(attempts, key, max, window)), who)
            == FixedWindows(OwnTimes(attempts, who), max, window)
  {
    hide Bounded, Sorted, Verdicts, FixedWindows, OwnTimes, OwnVerdicts, TimesOf, VerdictsOn;
    var calls := CallsOf(attempts, key, max, window);
    OwnCalls(attempts, key, max, window, Verdicts(map[], calls), who);
    OwnSorted(attempts, who);
    KeysAreSeparate(calls, key(who), max, window);
  }
}

/** What the scanners read back from a printed payload, for every username. */
module JwtRoundTrip {
  import opened ByteStrings
  import opened Search
  import opened Decimal
  import opened JwtClaims

  // ---------- Searching a chain of quoted names ----------

  predicate NameLike(k: Bytes) {
    Free(k, QUOTE)
  }

  predicate BeginsQuoted(s: Bytes) {
    |s| > 0 && s[0] == QUOTE
  }

  /** A quoted name other than the one sought, and the gap after it, are passed
      over. */
  lemma SeekPasses(k: Bytes, gap: Bytes, part: Bytes, key: Bytes)
    requires NameLike(k) && NameLike(gap) && NameLike(key)
    requires k != key && gap != key
    requires BeginsQuoted(part)
    ensures Seek(Quoted(k) + gap + part, Quoted(key)) == Seek(part, Quoted(key))
  {
    var tail := [QUOTE] + gap + part;
    assert Quoted(k) + gap + part == [QUOTE] + k + tail;
    SeekPassesOne(k, tail, key);
    assert tail == [QUOTE] + gap + part;
    SeekPassesOne(gap, part, key);
  }

  lemma SeekPassesOne(w: Bytes, part: Bytes, key: Bytes)
    requires NameLike(w) && NameLike(key) && w != key
    requires BeginsQuoted(part)
    ensures Seek([QUOTE] + w + part, Quoted(key)) == Seek(part, Quoted(key))
  {
    var s, pat := [QUOTE] + w + part, Quoted(key);
    QuotedPrefix(w, part, key);
    assert s[1..] == w + part;
    SeekSkips(w, part, pat);
  }

  lemma QuotedPrefix(w: Bytes, part: Bytes, key: Bytes)
    requires NameLike(w) && NameLike(key) && w != key
    requires BeginsQuoted(part)
    ensures !(Quoted(key) <= [QUOTE] + w + part)
  {
    var s, pat := [QUOTE] + w + part, Quoted(key);
    if |w| < |key| {
      assert pat[|w| + 1] == key[|w|] && s[|w| + 1] == part[0];
    } else if |key| < |w| {
      assert pat[|key| + 1] == QUOTE && s[|key| + 1] == w[|key|];
    } else {
      var k :| 0 <= k < |w| && w[k] != key[k];
      assert pat[k + 1] == key[k] && s[k + 1] == w[k];
    }
  }

  lemma SeekHits(key: Bytes, rest: Bytes)
    ensures Seek(Quoted(key) + rest, Quoted(key)) == Some(Quoted(key) + rest)
  {
  }

  lemma SeekOpens(part: Bytes, key: Bytes)
    ensures Seek(['{'] + part, Quoted(key)) == Seek(part, Quoted(key))
  {
    SeekSkips(['{'], part, Quoted(key));
  }

  /** Colon-free text before a value changes nothing about the value. */
  lemma AfterColonSkips(u: Bytes, s: Bytes)
    requires Free(u, ':')
    ensures AfterColon(u + s) == AfterColon(s)
  {
    SeekSkips(u, s, ":");
  }

  /** A colon and then a printed integer. */
  lemma IntAfterColon(u: Bytes, n: int, c: Octet, part: Bytes)
    requires Free(u, ':') && !IsDigit(c) && INT64_MIN <= n <= INT64_MAX
    ensures AfterColon(u + ColonInt(n, c) + part) == Some(ToString(n) + ([c] + part))
    ensures ScanInt(ToString(n) + ([c] + part)) == if n == INT64_MIN then Undefined else Value(n)
  {
    hide ToString, ScanInt;
    var v := ToString(n) + ([c] + part);
    assert u + ColonInt(n, c) + part == u + ([':'] + v);
    AfterColonSkips(u, [':'] + v);
    ToStringStarts(n);
    assert ([':'] + v)[1..] == v;
    assert v[0] == ToString(n)[0];
    ScanIntPrinted(n, [c] + part);
  }

  lemma ToStringStarts(n: int)
    ensures |ToString(n)| > 0 && ToString(n)[0] != ' '
  {
    assert IsDigit(Digits(if n < 0 then -n else n)[0]);
  }

  // ---------- The integer claims ----------

  lemma KeysAreNames()
    ensures NameLike(USER_ID) && NameLike(USERNAME) && NameLike(IAT) && NameLike(EXP)
    ensures USER_ID != USERNAME && USER_ID != IAT && USER_ID != EXP && USERNAME != IAT && USERNAME != EXP && IAT != EXP
    ensures Free(Quoted(USER_ID), ':') && Free(Quoted(USERNAME), ':') && Free(Quoted(IAT), ':') && Free(Quoted(EXP), ':')
    ensures USER_ID[0] != ':' && USERNAME[0] != ':' && IAT[0] != ':' && EXP[0] != ':'
    ensures [','] != IAT && [','] != EXP && [','] != USERNAME && [':'] != EXP && [':'] != IAT
  {
  }

  lemma ColonIntIsName(n: int, c: Octet)
    requires c != QUOTE
    ensures NameLike(ColonInt(n, c)) && ColonInt(n, c)[0] == ':'
  {
    hide Digits;
    assert AllDigits(Digits(if n < 0 then -n else n));
  }

  lemma PartsBeginQuoted(userId: int, username: Bytes, now: int)
    ensures BeginsQuoted(ExpPart(now)) && BeginsQuoted(IatPart(now)) && BeginsQuoted(NamePart(username, now))
    ensures BeginsQuoted(UsernamePart(username, now)) && BeginsQuoted(UserPart(userId, username, now))
  {
    hide ColonInt;
  }

  function ReadOf(n: int): Scan {
    if n == INT64_MIN then Undefined else Value(n)
  }

  predicate FitsInt64(n: int) {
    INT64_MIN <= n <= INT64_MAX
  }

  /** The user id is read back whatever the username is. */
  lemma UserIdReadBack(userId: int, username: Bytes, now: int)
    requires FitsInt64(userId)
    ensures IntClaim(Payload(userId, username, now), USER_ID) == ReadOf(userId)
  {
    hide ColonInt, UsernamePart, Payload, AfterColon, ScanInt;
    KeysAreNames();
    PayloadChain(userId, username, now);
    SeekOpens(UserPart(userId, username, now), USER_ID);
    var gap, part := ColonInt(userId, ','), UsernamePart(username, now);
    assert Quoted(USER_ID) + gap + part == Quoted(USER_ID) + (gap + part);
    SeekHits(USER_ID, gap + part);
    IntAfterColon(Quoted(USER_ID), userId, ',', part);
  }

  /** Where every search for a later key arrives: at the username itself. */
  lemma SeekReachesName(userId: int, username: Bytes, now: int, key: Bytes)
    requires key == IAT || key == EXP
    ensures Seek(Payload(userId, username, now), Quoted(key)) == Seek(NamePart(username, now), Quoted(key))
  {
    hide ColonInt, NamePart, Payload, Quoted, Seek;
    KeysAreNames();
    ColonIntIsName(userId, ',');
    PartsBeginQuoted(userId, username, now);
    PayloadChain(userId, username, now);
    SeekOpens(UserPart(userId, username, now), key);
    SeekPasses(USER_ID, ColonInt(userId, ','), UsernamePart(username, now), key);
    SeekPasses(USERNAME, [':'], NamePart(username, now), key);
  }

  /** A printed integer sought by its key, where the search has arrived. */
  lemma ClaimHere(json: Bytes, key: Bytes, u: Bytes, n: int, c: Octet, part: Bytes)
    requires Seek(json, Quoted(key)) == Some(u + ColonInt(n, c) + part)
    requires Free(u, ':') && !IsDigit(c) && FitsInt64(n)
    ensures IntClaim(json, key) == ReadOf(n)
  {
    hide ColonInt, ScanInt, AfterColon, Seek, Quoted;
    IntAfterColon(u, n, c, part);
  }

  // What a name with quotes in it does to the search for a later key.

  /** Text that ends with a quote keeps what follows it out of a scan. */
  predicate EndsQuoted(s: Bytes) {
    |s| > 0 && s[|s| - 1] == QUOTE
  }

  lemma {:induction false} BlanksEnd(s: Bytes, tail: Bytes)
    requires EndsQuoted(s)
    ensures SkipSpaces(s + tail) == SkipSpaces(s) + tail && EndsQuoted(SkipSpaces(s))
    decreases |s|
  {
    if s[0] == ' ' {
      assert (s + tail)[1..] == s[1..] + tail;
      BlanksEnd(s[1..], tail);
    }
  }

  lemma {:induction false} DigitsEnd(s: Bytes, tail: Bytes, val: nat)
    requires EndsQuoted(s)
    ensures ScanDigits(s + tail, val) == ScanDigits(s, val)
    decreases |s|
  {
    if IsDigit(s[0]) {
      assert (s + tail)[1..] == s[1..] + tail;
      match PushDigit(val, s[0])
      case None =>
      case Some(next) => DigitsEnd(s[1..], tail, next);
    }
  }

  lemma ScanEnds(s: Bytes, tail: Bytes)
    requires EndsQuoted(s)
    ensures ScanInt(s + tail) == ScanInt(s)
  {
    if s[0] == '-' {
      assert (s + tail)[1..] == s[1..] + tail;
      DigitsEnd(s[1..], tail, 0);
    } else {
      DigitsEnd(s, tail, 0);
    }
  }

  /** The first colon after quoted text, in it or after the comma that follows. */
  lemma ColonFrom(r: Bytes, part: Bytes)
    requires EndsQuoted(r)
    ensures AfterColon(r).None? ==> AfterColon(r + [','] + part) == AfterColon(part)
    ensures AfterColon(r).Some? ==>
              var v := AfterColon(r).value;
              EndsQuoted(v) && AfterColon(r + [','] + part) == Some(v + [','] + part)
  {
    hide Seek;
    SeekSeparates(r, ',', part, ":");
    if Seek(r, ":").Some? {
      SeekIsSuffix(r, ":");
      var c := Seek(r, ":").value;
      assert c[0] == ':' && c[|c| - 1] == QUOTE;
      assert c + [','] + part == [':'] + (c[1..] + ([','] + part));
      assert (c + [','] + part)[1..] == c[1..] + ([','] + part);
      BlanksEnd(c[1..], [','] + part);
      var v := SkipSpaces(c[1..]);
      assert v + ([','] + part) == v + [','] + part;
    }
  }

  /** What stands in the payload under a time key. */
  function OwnTime(key: Bytes, now: int): int {
    if key == EXP then now + DAY else now
  }

  /** What is read back under it, for every name: the name's own text wins if it
      holds the quoted key, and then the first colon after it decides. */
  function TimeRead(name: Bytes, key: Bytes, now: int): Scan {
    match Seek(Quoted(name), Quoted(key))
    case None => ReadOf(OwnTime(key, now))
    case Some(r) =>
      match AfterColon(r)
      case None => ReadOf(now)
      case Some(v) => ScanInt(v)
  }

  /** Times a 64-bit clock can print together with their expiry. */
  predicate Printable(t: int) {
    INT64_MIN < t && t + DAY <= INT64_MAX
  }

  /** The separator after that number, and what comes after it. */
  function AfterOwn(key: Bytes, now: int): (Octet, Bytes) {
    if key == EXP then ('}', []) else (',', ExpPart(now))
  }

  lemma PartOf(key: Bytes, now: int)
    requires Printable(now) && (key == IAT || key == EXP)
    ensures var (c, part) := AfterOwn(key, now);
            Seek(IatPart(now), Quoted(key)) == Some(Quoted(key) + ColonInt(OwnTime(key, now), c) + part)
  {
    hide ColonInt, Seek, Quoted;
    KeysAreNames();
    PartsBeginQuoted(0, [], now);
    if key == IAT {
      SeekHits(IAT, ColonInt(now, ',') + ExpPart(now));
      assert IatPart(now) == Quoted(IAT) + (ColonInt(now, ',') + ExpPart(now));
      assert IatPart(now) == Quoted(IAT) + ColonInt(OwnTime(key, now), ',') + ExpPart(now);
    } else {
      ColonIntIsName(now, ',');
      SeekPasses(IAT, ColonInt(now, ','), ExpPart(now), EXP);
      SeekHits(EXP, ColonInt(now + DAY, '}'));
      assert ExpPart(now) == Quoted(EXP) + ColonInt(OwnTime(key, now), '}') + [];
    }
  }

  /** The exact read-back of both times, for every username. */
  lemma TimeReadBack(userId: int, username: Bytes, now: int, key: Bytes)
    requires Printable(now) && (key == IAT || key == EXP)
    ensures IntClaim(Payload(userId, username, now), key) == TimeRead(username, key, now)
  {
    hide ColonInt, Payload, Seek, Quoted, AfterColon, ScanInt, IatPart, TimeRead;
    KeysAreNames();
    var json, part := Payload(userId, username, now), IatPart(now);
    SeekReachesName(userId, username, now, key);
    KeysHaveNoComma();
    SeekSeparates(Quoted(username), ',', part, Quoted(key));
    match Seek(Quoted(username), Quoted(key))
    case None =>
      PartOf(key, now);
      var (c, rest) := AfterOwn(key, now);
      ClaimHere(json, key, Quoted(key), OwnTime(key, now), c, rest);
      TimeReadIs(username, key, now);
    case Some(r) =>
      SeekIsSuffix(Quoted(username), Quoted(key));
      SuffixEndsQuoted(username, key, r);
      ColonFrom(r, part);
      TimeReadIs(username, key, now);
      if AfterColon(r).None? {
        IatValue(now);
      } else {
        var v := AfterColon(r).value;
        assert v + [','] + part == v + ([','] + part);
        ScanEnds(v, [','] + part);
      }
  }

  lemma KeysHaveNoComma()
    ensures Free(Quoted(IAT), ',') && Free(Quoted(EXP), ',') && |Quoted(IAT)| > 0 && |Quoted(EXP)| > 0
  {
  }

  lemma TimeReadIs(name: Bytes, key: Bytes, now: int)
    ensures TimeRead(name, key, now)
            == match Seek(Quoted(name), Quoted(key))
               case None => ReadOf(OwnTime(key, now))
               case Some(r) => match AfterColon(r) case None => ReadOf(now) case Some(v) => ScanInt(v)
  {
  }

  lemma SuffixEndsQuoted(name: Bytes, key: Bytes, r: Bytes)
    requires Quoted(key) <= r && |r| <= |Quoted(name)| && r == Quoted(name)[|Quoted(name)| - |r|..]
    ensures EndsQuoted(r)
  {
  }

  /** From a comma on, the first colon is the one before the issue time. */
  lemma IatValue(now: int)
    requires Printable(now)
    ensures match AfterColon(IatPart(now)) case None => false case Some(v) => ScanInt(v) == ReadOf(now)
  {
    hide ColonInt, ScanInt, AfterColon;
    KeysAreNames();
    IntAfterColon(Quoted(IAT), now, ',', ExpPart(now));
  }

  /** Names that do not hide the expiry: its quoted key is not in them. */
  predicate KeepsExp(name: Bytes) {
    Find(Quoted(name), Quoted(EXP), 0).None?
  }

  /** Names that do not hide the issue time: inside them no colon follows the
      first occurrence of its quoted key. */
  predicate KeepsIat(name: Bytes) {
    match Find(Quoted(name), Quoted(IAT), 0)
    case None => true
    case Some(k) => Free(Quoted(name)[k..], ':')
  }

  predicate KeepsTimes(name: Bytes) {
    KeepsExp(name) && KeepsIat(name)
  }

  /** The same two conditions as the scanners meet them. */
  lemma KeepsAsRead(name: Bytes)
    ensures KeepsExp(name) <==> Seek(Quoted(name), Quoted(EXP)).None?
    ensures KeepsIat(name) <==> match Seek(Quoted(name), Quoted(IAT))
                                case None => true
                                case Some(r) => AfterColon(r).None?
  {
    hide Seek, Find, Quoted;
    var s := Quoted(name);
    SeekIsFind(s, Quoted(EXP), 0);
    SeekIsFind(s, Quoted(IAT), 0);
    assert s[0..] == s;
    if Seek(s, Quoted(IAT)).Some? {
      ColonIn(Seek(s, Quoted(IAT)).value);
    }
  }

  lemma ColonIn(s: Bytes)
    ensures AfterColon(s).None? <==> Free(s, ':')
  {
    hide Seek;
    SeekChar(s, ':');
    if Seek(s, ":").Some? {
      SeekIsSuffix(s, ":");
    }
  }

  lemma TimesTracked(name: Bytes, now: int)
    ensures KeepsExp(name) ==> TimeRead(name, EXP, now) == ReadOf(now + DAY)
    ensures KeepsIat(name) ==> TimeRead(name, IAT, now) == ReadOf(now)
  {
    hide Seek, AfterColon, KeepsExp, KeepsIat;
    KeysAreNames();
    KeepsAsRead(name);
  }

  /** Any other name reads back the same expiry at all times, or the issue time. */
  lemma ExpHidden(name: Bytes, t1: int, t2: int)
    requires !KeepsExp(name) && Printable(t1) && Printable(t2)
    ensures TimeRead(name, EXP, t1) == TimeRead(name, EXP, t2)
            || (TimeRead(name, EXP, t1) == Value(t1) && TimeRead(name, EXP, t2) == Value(t2))
  {
    hide Seek, AfterColon, ScanInt, KeepsExp;
    KeepsAsRead(name);
  }

  lemma IatHidden(name: Bytes, t1: int, t2: int)
    requires !KeepsIat(name)
    ensures TimeRead(name, IAT, t1) == TimeRead(name, IAT, t2)
  {
    hide Seek, AfterColon, ScanInt, KeepsIat;
    KeepsAsRead(name);
  }

  /** The expiry is read back at every second exactly for the names that do not
      contain its quoted key. */
  lemma ExpReadBack(userId: int, username: Bytes)
    ensures (forall now :: Printable(now) ==> IntClaim(Payload(userId, username, now), EXP) == ReadOf(now + DAY))
            <==> KeepsExp(username)
  {
    hide Payload, IntClaim, TimeRead, KeepsExp;
    forall now | Printable(now)
      ensures IntClaim(Payload(userId, username, now), EXP) == TimeRead(username, EXP, now)
    {
      TimeReadBack(userId, username, now, EXP);
    }
    if KeepsExp(username) {
      forall now { TimesTracked(username, now); }
    } else {
      ExpHidden(username, 0, 1);
      assert Printable(0) && Printable(1);
    }
  }

  /** The issue time is read back at every second exactly for the names in which
      no colon follows the first occurrence of its quoted key. */
  lemma IatReadBack(userId: int, username: Bytes)
    ensures (forall now :: Printable(now) ==> IntClaim(Payload(userId, username, now), IAT) == ReadOf(now))
            <==> KeepsIat(username)
  {
    hide Payload, IntClaim, TimeRead, KeepsIat;
    forall now | Printable(now)
      ensures IntClaim(Payload(userId, username, now), IAT) == TimeRead(username, IAT, now)
    {
      TimeReadBack(userId, username, now, IAT);
    }
    if KeepsIat(username) {
      forall now { TimesTracked(username, now); }
    } else {
      IatHidden(username, 0, 1);
      assert Printable(0) && Printable(1);
    }
  }

  /** Among the names without a quote, `exp` alone hides anything. */
  lemma QuoteFreeNames(name: Bytes)
    requires NameLike(name)
    ensures KeepsIat(name) && (KeepsExp(name) <==> name != EXP)
  {
    hide Seek, AfterColon, KeepsExp, KeepsIat;
    KeysAreNames();
    KeepsAsRead(name);
    QuoteFreeSeek(name, IAT);
    QuoteFreeSeek(name, EXP);
    ColonIn(Quoted(IAT));
  }

  lemma QuoteFreeSeek(name: Bytes, key: Bytes)
    requires NameLike(name) && NameLike(key) && |key| > 0
    ensures Seek(Quoted(name), Quoted(key)) == if name == key then Some(Quoted(name)) else None
  {
    if name == key {
      SeekHits(key, []);
      assert Quoted(key) + [] == Quoted(key);
    } else {
      assert [QUOTE] + name + [QUOTE] == Quoted(name);
      SeekPassesOne(name, [QUOTE], key);
      SeekSingle([QUOTE], Quoted(key));
    }
  }

  lemma SeekSingle(s: Bytes, pat: Bytes)
    requires |s| == 1 && |pat| > 1
    ensures Seek(s, pat) == None
  {
    assert Seek(s[1..], pat) == None;
  }

  /** The name `exp` reads the issue time as the expiry. */
  lemma ExpNameReads(now: int)
    ensures TimeRead(EXP, EXP, now) == ReadOf(now)
  {
    hide Seek, AfterColon;
    KeysAreNames();
    QuoteFreeSeek(EXP, EXP);
    ColonIn(Quoted(EXP));
  }

  /** A name that reads as an expiry of its own. */
  function NameWithExp(n: nat): Bytes {
    Quoted(EXP) + [':'] + ToString(n)
  }

  lemma NameWithExpReads(n: nat, now: int)
    requires n <= INT64_MAX
    ensures TimeRead(NameWithExp(n), EXP, now) == Value(n) && KeepsIat(NameWithExp(n))
  {
    hide Seek, AfterColon, ScanInt, KeepsIat, ToString;
    KeysAreNames();
    var name := NameWithExp(n);
    KeepsAsRead(name);
    assert Seek(Quoted(name), Quoted(IAT)) == None by { NoLetterI(n); SeekMisses(Quoted(name), Quoted(IAT), 1); }
    assert Quoted(name) == [QUOTE] + [] + (Quoted(EXP) + ColonInt(n, QUOTE)) by { hide Quoted; assert Quoted(name) == [QUOTE] + name + [QUOTE]; }
    SeekPassesOne([], Quoted(EXP) + ColonInt(n, QUOTE), EXP);
    SeekHits(EXP, ColonInt(n, QUOTE));
    IntAfterColon(Quoted(EXP), n, QUOTE, []);
    assert Quoted(EXP) + ColonInt(n, QUOTE) + [] == Quoted(EXP) + ColonInt(n, QUOTE);
  }

  lemma NoLetterI(n: nat)
    ensures Free(Quoted(NameWithExp(n)), 'i') && Quoted(IAT)[1] == 'i'
  {
    hide Digits;
    assert AllDigits(Digits(n));
  }

  // ---------- The username ----------

  predicate MakesEscape(c: Octet) {
    c == 'n' || c == 't' || c == '\\' || c == QUOTE
  }

  /** A name survives printing and scanning when it has no quote, and each
      backslash in it is followed, inside the name, by a character that makes
      no escape. */
  predicate Safe(name: Bytes) {
    forall k :: 0 <= k < |name| ==> SafeAt(name, k)
  }

  predicate SafeAt(name: Bytes, k: nat)
    requires k < |name|
  {
    name[k] != QUOTE && (name[k] == '\\' ==> k + 1 < |name| && !MakesEscape(name[k + 1]))
  }

  lemma SafeTail(name: Bytes, n: nat)
    requires 1 <= n <= |name| && n <= 2
    requires forall k :: 0 <= k < n ==> SafeAt(name, k)
    ensures Safe(name) <==> Safe(name[n..])
  {
    var rest := name[n..];
    forall k | 0 <= k < |rest|
      ensures SafeAt(rest, k) <==> SafeAt(name, k + n)
    {
      assert rest[k] == name[k + n] && (k + 1 < |rest| ==> rest[k + 1] == name[k + n + 1]);
    }
    if Safe(rest) {
      forall k | 0 <= k < |name|
        ensures SafeAt(name, k)
      {
        assert k >= n ==> SafeAt(rest, k - n);
      }
    }
  }

  /** What follows the name in a payload. */
  predicate Closing(tail: Bytes) {
    |tail| >= 3 && tail[0] == QUOTE && tail[1] == ',' && tail[2] == QUOTE
  }

  /** The scanned text is no longer than the name, unless it ran past the
      closing quote, and then it ends with the comma found there. */
  lemma {:induction false} ScanReach(name: Bytes, tail: Bytes)
    requires Closing(tail)
    ensures var out := Unescape(name + tail);
            |out| <= |name| || (out[|out| - 1] == ',' && |name| > 0 && name[|name| - 1] == '\\')
    decreases |name|
  {
    var s := name + tail;
    if |name| == 0 {
      assert s == tail;
    } else if name[0] == QUOTE {
    } else if name[0] == '\\' && |name| == 1 {
      assert s[1] == QUOTE && s[2..] == tail[1..];
      assert Unescape(tail[1..]) == [','] + Unescape(tail[1..][1..]);
      assert Unescape(tail[1..][1..]) == [];
    } else {
      var n := if name[0] == '\\' then 2 else 1;
      assert s[n..] == name[n..] + tail;
      ScanReach(name[n..], tail);
    }
  }

  /** The scanner returns the name exactly for the safe names. */
  lemma {:induction false} ScanExact(name: Bytes, tail: Bytes)
    requires Closing(tail)
    ensures Unescape(name + tail) == name <==> Safe(name)
    decreases |name|
  {
    var s := name + tail;
    var out := Unescape(s);
    if |name| == 0 {
      assert s == tail;
    } else if name[0] == QUOTE {
      assert !SafeAt(name, 0);
    } else if name[0] != '\\' {
      assert s[1..] == name[1..] + tail;
      ScanExact(name[1..], tail);
      SafeTail(name, 1);
      assert out == [name[0]] + Unescape(name[1..] + tail);
      assert name == [name[0]] + name[1..];
    } else if |name| == 1 {
      assert out[0] == QUOTE && !SafeAt(name, 0);
    } else {
      var rest := name[2..];
      assert s[2..] == rest + tail && s[1] == name[1];
      assert out == Escaped(name[1]) + Unescape(rest + tail);
      if name[1] == '\\' {
        ScanReach(rest, tail);
        var scanned := Unescape(rest + tail);
        assert out == ['\\'] + scanned;
        assert !SafeAt(name, 0);
        assert |scanned| == |rest| + 1 ==> out[|out| - 1] == ',' && name[|name| - 1] == '\\';
      } else if MakesEscape(name[1]) {
        assert out[0] != name[0] && !SafeAt(name, 0);
      } else {
        ScanExact(rest, tail);
        SafeTail(name, 2);
        assert name == ['\\', name[1]] + rest;
      }
    }
  }

  /** What the username scanner gets: the name and what follows it, unescaped. */
  lemma UsernameIs(userId: int, username: Bytes, now: int)
    ensures StrClaim(Payload(userId, username, now), USERNAME)
            == Unescape(username + ([QUOTE] + [','] + IatPart(now)))
  {
    hide ColonInt, Payload, Seek, Unescape, IatPart;
    KeysAreNames();
    ColonIntIsName(userId, ',');
    PartsBeginQuoted(userId, username, now);
    PayloadChain(userId, username, now);
    SeekOpens(UserPart(userId, username, now), USERNAME);
    SeekPasses(USER_ID, ColonInt(userId, ','), UsernamePart(username, now), USERNAME);
    var namePart := NamePart(username, now);
    assert UsernamePart(username, now) == Quoted(USERNAME) + ([':'] + namePart);
    SeekHits(USERNAME, [':'] + namePart);
    NameAfterColon(namePart);
    assert namePart[1..] == username + ([QUOTE] + [','] + IatPart(now));
  }

  /** The username read back from a payload is the one printed, exactly for the
      safe names. */
  lemma UsernameReadBack(userId: int, username: Bytes, now: int)
    ensures StrClaim(Payload(userId, username, now), USERNAME) == username <==> Safe(username)
  {
    hide Payload, Unescape, IatPart, StrClaim, Safe;
    PartsBeginQuoted(userId, username, now);
    UsernameIs(userId, username, now);
    ScanExact(username, [QUOTE] + [','] + IatPart(now));
  }

  /** A name with one backslash comes back with that and the character after it
      read as an escape. */
  lemma EscapedUsername(userId: int, a: Bytes, c: Octet, b: Bytes, now: int)
    requires Plain(a) && Plain(b)
    ensures var read := StrClaim(Payload(userId, a + ['\\', c] + b, now), USERNAME);
            && (c == 'n' ==> read == a + ['\n'] + b)
            && (c == 't' ==> read == a + ['\t'] + b)
            && (c == '\\' || c == '"' ==> read == a + [c] + b)
            && (c != 'n' && c != 't' && c != '\\' && c != '"' ==> read == a + ['\\', c] + b)
  {
    hide Payload, Unescape, IatPart, StrClaim;
    var rest := [','] + IatPart(now);
    UsernameIs(userId, a + ['\\', c] + b, now);
    assert a + ['\\', c] + b + ([QUOTE] + [','] + IatPart(now)) == a + ['\\', c] + (b + ['"'] + rest);
    EscapeRead(a, c, b + ['"'] + rest);
    PlainRead(b, rest);
  }

  lemma NameAfterColon(part: Bytes)
    requires BeginsQuoted(part)
    ensures AfterColon(Quoted(USERNAME) + ([':'] + part)) == Some(part)
  {
    KeysAreNames();
    AfterColonSkips(Quoted(USERNAME), [':'] + part);
    assert ([':'] + part)[1..] == part;
  }
}

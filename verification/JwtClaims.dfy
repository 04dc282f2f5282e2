/** The payload `create_jwt` prints and the two scanners `verify_jwt` reads it
    back with. */
module JwtClaims {
  import opened ByteStrings
  import opened Search
  import opened Decimal

  const QUOTE: Octet := '"'
  const DAY := 86400

  function Quoted(k: Bytes): Bytes {
    [QUOTE] + k + [QUOTE]
  }

  // ---------- find_int and find_str ----------

  function SkipSpaces(s: Bytes): Bytes {
    if |s| > 0 && s[0] == ' ' then SkipSpaces(s[1..]) else s
  }

  /** The text after the first colon of `s`, leading spaces dropped. */
  function AfterColon(s: Bytes): Option<Bytes> {
    match Seek(s, ":")
    case None => None
    case Some(c) => if |c| == 0 then None else Some(SkipSpaces(c[1..]))
  }

  /** Where the value of a key begins: the first textual occurrence of the
      quoted key, then the first colon from there. */
  function ValueText(json: Bytes, key: Bytes): Option<Bytes> {
    match Seek(json, Quoted(key))
    case None => None
    case Some(s) => AfterColon(s)
  }

  function IntClaim(json: Bytes, key: Bytes): Scan {
    match ValueText(json, key)
    case None => Value(0)
    case Some(v) => ScanInt(v)
  }

  function Escaped(c: Octet): Bytes {
    if c == 'n' then ['\n'] else if c == 't' then ['\t'] else if c == '\\' || c == QUOTE then [c] else ['\\', c]
  }

  /** The string up to the closing quote, escapes resolved. */
  function Unescape(s: Bytes): Bytes {
    if |s| == 0 || s[0] == QUOTE then []
    else if s[0] == '\\' && |s| > 1 then Escaped(s[1]) + Unescape(s[2..])
    else [s[0]] + Unescape(s[1..])
  }

  function StrClaim(json: Bytes, key: Bytes): Bytes {
    match ValueText(json, key)
    case None => []
    case Some(v) => if |v| == 0 || v[0] != QUOTE then [] else Unescape(v[1..])
  }

  /** The two searches and the blank-skipping loop both scanners begin with. */
  method Locate(json: Bytes, key: Bytes) returns (cpos: Option<nat>)
    ensures cpos.None? ==> ValueText(json, key) == None
    ensures cpos.Some? ==> cpos.value <= |json| && ValueText(json, key) == Some(json[cpos.value..])
  {
    hide SkipSpaces, Seek, Find, Quoted;
    SeekIsFind(json, Quoted(key), 0);
    assert json[0..] == json;
    var kpos := Find(json, Quoted(key), 0);
    if kpos.None? {
      return None;
    }
    SeekIsFind(json, ":", kpos.value);
    var colon := Find(json, ":", kpos.value);
    if colon.None? {
      return None;
    }
    assert json[colon.value..][1..] == json[colon.value + 1..];
    var c := SkipBlanks(json, colon.value + 1);
    cpos := Some(c);
  }

  method FindInt(json: Bytes, key: Bytes) returns (r: Scan)
    ensures r == IntClaim(json, key)
  {
    hide ValueText, ScanInt;
    var cpos := Locate(json, key);
    if cpos.None? {
      return Value(0);
    }
    r := ReadInt(json, cpos.value);
  }

  method FindStr(json: Bytes, key: Bytes) returns (val: Bytes)
    ensures val == StrClaim(json, key)
  {
    hide ValueText, Unescape;
    var cpos := Locate(json, key);
    if cpos.None? || cpos.value >= |json| || json[cpos.value] != QUOTE {
      return [];
    }
    assert json[cpos.value..][1..] == json[cpos.value + 1..];
    val := ReadStr(json, cpos.value + 1);
  }

  method SkipBlanks(json: Bytes, from: nat) returns (cpos: nat)
    requires from <= |json|
    ensures cpos <= |json| && json[cpos..] == SkipSpaces(json[from..])
  {
    cpos := from;
    while cpos < |json| && json[cpos] == ' '
      invariant from <= cpos <= |json|
      invariant SkipSpaces(json[cpos..]) == SkipSpaces(json[from..])
    {
      assert json[cpos..][1..] == json[cpos + 1..];
      cpos := cpos + 1;
    }
  }

  /** The sign and the digit loop; it stops short when the next digit would
      overflow. */
  method ReadInt(json: Bytes, from: nat) returns (r: Scan)
    requires from <= |json|
    ensures r == ScanInt(json[from..])
  {
    var cpos: nat, val: nat, neg := from, 0, false;
    if cpos < |json| && json[cpos] == '-' {
      neg, cpos := true, cpos + 1;
      assert json[from..][1..] == json[cpos..];
    }
    ghost var start := cpos;
    while cpos < |json| && IsDigit(json[cpos])
      invariant start <= cpos <= |json|
      invariant ScanDigits(json[cpos..], val) == ScanDigits(json[start..], 0)
    {
      assert json[cpos..][1..] == json[cpos + 1..];
      var next := 10 * val + DigitValue(json[cpos]);
      if next > INT64_MAX {
        return Undefined;
      }
      val, cpos := next, cpos + 1;
    }
    r := if neg then Value(0 - val) else Value(val);
  }

  method ReadStr(json: Bytes, from: nat) returns (val: Bytes)
    requires from <= |json|
    ensures val == Unescape(json[from..])
  {
    hide Unescape, Escaped;
    var cpos := from;
    val := [];
    while cpos < |json| && json[cpos] != QUOTE
      invariant from <= cpos <= |json|
      invariant val + Unescape(json[cpos..]) == Unescape(json[from..])
    {
      UnescapeStep(json, cpos);
      if json[cpos] == '\\' && cpos + 1 < |json| {
        cpos := cpos + 1;
        val := val + Escaped(json[cpos]);
      } else {
        val := val + [json[cpos]];
      }
      cpos := cpos + 1;
    }
    UnescapeEnds(json[cpos..]);
  }

  lemma UnescapeEnds(s: Bytes)
    requires |s| == 0 || s[0] == QUOTE
    ensures Unescape(s) == []
  {
  }

  lemma UnescapeStep(s: Bytes, i: nat)
    requires i < |s| && s[i] != QUOTE
    ensures Unescape(s[i..]) == if s[i] == '\\' && i + 1 < |s| then Escaped(s[i + 1]) + Unescape(s[i + 2..])
                                else [s[i]] + Unescape(s[i + 1..])
  {
    assert s[i..][1..] == s[i + 1..];
    assert i + 1 < |s| ==> s[i..][2..] == s[i + 2..];
  }

  // ---------- What the scanners make of any text ----------

  /** Leading spaces go, all of them and nothing else. */
  lemma {:induction false} SpacesGo(s: Bytes)
    ensures var r := SkipSpaces(s);
            && |r| <= |s| && r == s[|s| - |r|..]
            && (forall k :: 0 <= k < |s| - |r| ==> s[k] == ' ')
            && (|r| > 0 ==> r[0] != ' ')
  {
    if |s| > 0 && s[0] == ' ' {
      SpacesGo(s[1..]);
    }
  }

  /** A claim whose quoted key is nowhere in the text, or with no colon after it,
      reads as 0 or as the empty string. */
  lemma MissingClaim(json: Bytes, key: Bytes)
    requires forall j: nat :: j <= |json| && OccursAt(json, Quoted(key), j) ==> Free(json[j..], ':')
    ensures IntClaim(json, key) == Value(0) && StrClaim(json, key) == []
  {
    hide SkipSpaces, Seek, Find, Quoted;
    SeekIsFind(json, Quoted(key), 0);
    assert json[0..] == json;
    var k := Find(json, Quoted(key), 0);
    if k.Some? {
      SeekChar(json[k.value..], ':');
    }
  }

  /** A claim without an opening quote reads as the empty string. */
  lemma UnquotedClaim(json: Bytes, key: Bytes)
    requires match ValueText(json, key) case None => true case Some(v) => |v| == 0 || v[0] != '"'
    ensures StrClaim(json, key) == []
  {
  }

  /** Neither a quote nor a backslash. */
  predicate Plain(s: Bytes) {
    forall k :: 0 <= k < |s| ==> s[k] != '"' && s[k] != '\\'
  }

  lemma {:induction false} PlainPrefix(a: Bytes, s: Bytes)
    requires Plain(a)
    ensures Unescape(a + s) == a + Unescape(s)
    decreases |a|
  {
    if |a| == 0 {
      assert a + s == s;
    } else {
      assert (a + s)[1..] == a[1..] + s;
      PlainPrefix(a[1..], s);
      hide Escaped;
    }
  }

  lemma LeadingEscape(c: Octet, b: Bytes)
    ensures Unescape(['\\', c] + b) == Escaped(c) + Unescape(b)
  {
    hide Escaped;
    assert (['\\', c] + b)[2..] == b;
  }

  /** What a backslash and the character after it read as. */
  lemma EscapeRead(a: Bytes, c: Octet, b: Bytes)
    requires Plain(a)
    ensures var read := Unescape(a + ['\\', c] + b);
            && (c == 'n' ==> read == a + ['\n'] + Unescape(b))
            && (c == 't' ==> read == a + ['\t'] + Unescape(b))
            && (c == '\\' || c == '"' ==> read == a + [c] + Unescape(b))
            && (c != 'n' && c != 't' && c != '\\' && c != '"' ==> read == a + ['\\', c] + Unescape(b))
  {
    hide Unescape, Plain;
    assert a + ['\\', c] + b == a + (['\\', c] + b);
    PlainPrefix(a, ['\\', c] + b);
    LeadingEscape(c, b);
    assert a + (Escaped(c) + Unescape(b)) == a + Escaped(c) + Unescape(b);
  }

  /** Plain text reads as it stands, up to the closing quote. */
  lemma PlainRead(a: Bytes, b: Bytes)
    requires Plain(a)
    ensures Unescape(a + ['"'] + b) == a
  {
    assert a + ['"'] + b == a + (['"'] + b);
    PlainPrefix(a, ['"'] + b);
  }

  // ---------- The payload ----------

  const USER_ID: Bytes := "user_id"
  const USERNAME: Bytes := "username"
  const IAT: Bytes := "iat"
  const EXP: Bytes := "exp"

  const OPEN_TEXT: Bytes := "{\"user_id\":"
  const NAME_TEXT: Bytes := ",\"username\":\""
  const IAT_TEXT: Bytes := "\",\"iat\":"
  const EXP_TEXT: Bytes := ",\"exp\":"

  function TimesText(now: int): Bytes {
    IAT_TEXT + ToString(now) + EXP_TEXT + ToString(now + DAY) + ['}']
  }

  /** What `create_jwt` prints, in its order and with nothing escaped. */
  function Payload(userId: int, username: Bytes, now: int): Bytes {
    OPEN_TEXT + ToString(userId) + NAME_TEXT + username + TimesText(now)
  }

  // The same text as a chain of quoted names and the gaps that follow them.

  function ColonInt(n: int, c: Octet): Bytes {
    [':'] + ToString(n) + [c]
  }

  function ExpPart(now: int): Bytes {
    Quoted(EXP) + ColonInt(now + DAY, '}')
  }

  function IatPart(now: int): Bytes {
    Quoted(IAT) + ColonInt(now, ',') + ExpPart(now)
  }

  function NamePart(username: Bytes, now: int): Bytes {
    Quoted(username) + [','] + IatPart(now)
  }

  function UsernamePart(username: Bytes, now: int): Bytes {
    Quoted(USERNAME) + [':'] + NamePart(username, now)
  }

  function UserPart(userId: int, username: Bytes, now: int): Bytes {
    Quoted(USER_ID) + ColonInt(userId, ',') + UsernamePart(username, now)
  }

  /** The names of the claims. */
  lemma ClaimNames()
    ensures USER_ID == "user_id" && USERNAME == "username" && IAT == "iat" && EXP == "exp" && QUOTE == '"'
  {
  }

  lemma OpenTexts()
    ensures OPEN_TEXT == ['{'] + Quoted(USER_ID) + [':']
    ensures NAME_TEXT == [','] + Quoted(USERNAME) + [':'] + [QUOTE]
  {
  }

  lemma TimeTexts()
    ensures IAT_TEXT == [QUOTE] + [','] + Quoted(IAT) + [':']
    ensures EXP_TEXT == [','] + Quoted(EXP) + [':']
  {
  }

  lemma PayloadChain(userId: int, username: Bytes, now: int)
    ensures Payload(userId, username, now) == ['{'] + UserPart(userId, username, now)
  {
    hide ToString;
    OpenTexts();
    TimeTexts();
    var u, t, x := ToString(userId), ToString(now), ToString(now + DAY);
    ChainShape(Quoted(USER_ID), u, Quoted(USERNAME), username, Quoted(IAT), t, Quoted(EXP), x);
    TimesGrouped(OPEN_TEXT + u + NAME_TEXT + username, IAT_TEXT, t, EXP_TEXT, x);
  }

  lemma TimesGrouped(head: Bytes, a: Bytes, t: Bytes, b: Bytes, x: Bytes)
    ensures head + (a + t + b + x + ['}']) == head + a + t + b + x + ['}']
  {
  }

  /** Concatenation is associative, spelled out for the payload's pieces. */
  lemma ChainShape(a: Bytes, u: Bytes, b: Bytes, n: Bytes, c: Bytes, t: Bytes, d: Bytes, x: Bytes)
    ensures (['{'] + a + [':']) + u + ([','] + b + [':'] + [QUOTE]) + n + ([QUOTE] + [','] + c + [':']) + t
            + ([','] + d + [':']) + x + ['}']
            == ['{'] + (a + ([':'] + u + [',']) + (b + [':'] + (([QUOTE] + n + [QUOTE]) + [',']
               + (c + ([':'] + t + [',']) + (d + ([':'] + x + ['}']))))))
  {
  }
}

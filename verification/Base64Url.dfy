/** The hand-written base64url codec of server/auth_server.cpp: the loops as
    methods, what they compute as block recursions, and the laws of sections
    3.5 and 5 of RFC 4648 about those. */
module Base64Url {
  import opened ByteStrings
  import opened Narrowing

  const UPPER: Bytes := "ABCDEFGHIJKLMNOPQRSTUVWXYZ"
  const LOWER: Bytes := "abcdefghijklmnopqrstuvwxyz"
  const DIGITS: Bytes := "0123456789+/"
  const B64: Bytes := UPPER + LOWER + DIGITS

  // ---------- The alphabet ----------

  function UrlChar(c: Octet): Octet {
    if c == '+' then '-' else if c == '/' then '_' else c
  }

  function StdChar(c: Octet): Octet {
    if c == '-' then '+' else if c == '_' then '/' else c
  }

  /** The table lookup followed by the rewriting of `+` and `/`. */
  function TableChar(i: nat): Octet
    requires i < 64
  {
    UrlChar(B64[i])
  }

  /** The reverse table of the decoder; characters outside it count as 0. */
  function Pos(c: Octet): (i: nat)
    ensures i < 64
  {
    if 'A' <= c <= 'Z' then c as int - 'A' as int
    else if 'a' <= c <= 'z' then c as int - 'a' as int + 26
    else if '0' <= c <= '9' then c as int - '0' as int + 52
    else if c == '+' then 62
    else if c == '/' then 63
    else 0
  }

  predicate IsUrlChar(c: Octet) {
    'A' <= c <= 'Z' || 'a' <= c <= 'z' || '0' <= c <= '9' || c == '-' || c == '_'
  }

  lemma UpperAt(i: nat)
    requires i < 26
    ensures UPPER[i] as int == 'A' as int + i
  {
  }

  lemma LowerAt(i: nat)
    requires i < 26
    ensures LOWER[i] as int == 'a' as int + i
  {
  }

  lemma TailAt(i: nat)
    requires i < 12
    ensures DIGITS[i] as int == if i < 10 then '0' as int + i else if i == 10 then '+' as int else '/' as int
  {
  }

  lemma TableAt(i: nat)
    requires i < 64
    ensures B64[i] == if i < 26 then UPPER[i] else if i < 52 then LOWER[i - 26] else DIGITS[i - 52]
  {
  }

  lemma UpperInverse(i: nat)
    requires i < 26
    ensures IsUrlChar(TableChar(i)) && Pos(StdChar(TableChar(i))) == i
  {
    hide B64;
    TableAt(i);
    UpperAt(i);
    hide UPPER, LOWER, DIGITS;
  }

  lemma LowerInverse(i: nat)
    requires 26 <= i < 52
    ensures IsUrlChar(TableChar(i)) && Pos(StdChar(TableChar(i))) == i
  {
    hide B64;
    TableAt(i);
    LowerAt(i - 26);
    hide UPPER, LOWER, DIGITS;
  }

  lemma OtherInverse(i: nat)
    requires 52 <= i < 64
    ensures IsUrlChar(TableChar(i)) && Pos(StdChar(TableChar(i))) == i
  {
    TableAt(i);
    TailAt(i - 52);
  }

  lemma TableInverse(i: nat)
    requires i < 64
    ensures IsUrlChar(TableChar(i)) && Pos(StdChar(TableChar(i))) == i
  {
    hide TableChar, StdChar, Pos;
    if i < 26 { UpperInverse(i); } else if i < 52 { LowerInverse(i); } else { OtherInverse(i); }
  }

  lemma UpperPos(c: Octet)
    requires 'A' <= c <= 'Z'
    ensures TableChar(Pos(StdChar(c))) == c
  {
    hide B64;
    TableAt(Pos(StdChar(c)));
    UpperAt(Pos(StdChar(c)));
    hide UPPER, LOWER, DIGITS;
  }

  lemma LowerPos(c: Octet)
    requires 'a' <= c <= 'z'
    ensures TableChar(Pos(StdChar(c))) == c
  {
    hide B64;
    TableAt(Pos(StdChar(c)));
    LowerAt(Pos(StdChar(c)) - 26);
    hide UPPER, LOWER, DIGITS;
  }

  lemma PosInverse(c: Octet)
    requires IsUrlChar(c)
    ensures TableChar(Pos(StdChar(c))) == c
  {
    if 'A' <= c <= 'Z' {
      UpperPos(c);
    } else if 'a' <= c <= 'z' {
      LowerPos(c);
    } else {
      TableAt(Pos(StdChar(c)));
      TailAt(Pos(StdChar(c)) - 52);
    }
  }

  /** The same two tables on the 6-bit values the shifts produce. */
  function Alpha(x: bv8): Octet
    requires x < 64
  {
    TableChar(x as int)
  }

  function Pos8(c: Octet): bv8 {
    Pos(c) as bv8
  }

  function UrlPos(c: Octet): bv8 {
    Pos8(StdChar(c))
  }

  lemma ByteBelow(n: nat)
    requires n < 64
    ensures (n as bv8) < 64
  {
    IntOfByte(n);
  }

  lemma AlphaPos(x: bv8)
    requires x < 64
    ensures IsUrlChar(Alpha(x)) && UrlPos(Alpha(x)) == x
  {
    TableInverse(x as int);
  }

  lemma PosAlpha(c: Octet)
    requires IsUrlChar(c)
    ensures UrlPos(c) < 64 && Alpha(UrlPos(c)) == c
  {
    IntOfByte(Pos(StdChar(c)));
    ByteBelow(Pos(StdChar(c)));
    PosInverse(c);
  }

  // ---------- Blocks ----------

  /** The four 6-bit groups of three bytes, as the encoder's shifts and masks
      cut them. */
  function Sextets(b0: bv8, b1: bv8, b2: bv8): (bv8, bv8, bv8, bv8) {
    (b0 >> 2, ((b0 & 0x03) << 4) | (b1 >> 4), ((b1 & 0x0f) << 2) | (b2 >> 6), b2 & 0x3f)
  }

  /** The three bytes of four table values, as the decoder's shifts join them. */
  function Joined(p0: bv8, p1: bv8, p2: bv8, p3: bv8): (bv8, bv8, bv8) {
    ((p0 << 2) | (p1 >> 4), (p1 << 4) | (p2 >> 2), (p2 << 6) | p3)
  }

  /** Each byte is recovered from the groups that hold its bits, whatever the
      other groups are. */
  lemma JoinedPrefix(b0: bv8, b1: bv8, b2: bv8, p2: bv8, p3: bv8)
    ensures var q := Sextets(b0, b1, b2);
            && Joined(q.0, q.1, p2, p3).0 == b0
            && Joined(q.0, q.1, q.2, p3).1 == b1
            && Joined(q.0, q.1, q.2, q.3).2 == b2
  {
  }

  lemma SextetsJoined(p0: bv8, p1: bv8, p2: bv8, p3: bv8)
    requires p0 < 64 && p1 < 64 && p2 < 64 && p3 < 64
    ensures var j := Joined(p0, p1, p2, p3); Sextets(j.0, j.1, j.2) == (p0, p1, p2, p3)
    ensures var j := Joined(p0, p1, p2, p3); p2 & 0x03 == 0 ==> Sextets(j.0, j.1, 0).2 == p2
    ensures var j := Joined(p0, p1, p2, p3); p1 & 0x0f == 0 ==> Sextets(j.0, 0, 0).1 == p1
  {
  }

  /** The low bits that a last, partial group leaves unused. */
  lemma SpareBitsZero(b0: bv8, b1: bv8)
    ensures Sextets(b0, 0, 0).1 & 0x0f == 0 && Sextets(b0, b1, 0).2 & 0x03 == 0
  {
  }

  /** The groups of a block of one to three bytes; a byte past the end is 0. */
  function BlockSextets(b: Bytes): (q: (bv8, bv8, bv8, bv8))
    requires 1 <= |b| <= 3
    ensures q.0 < 64 && q.1 < 64 && q.2 < 64 && q.3 < 64
  {
    Sextets(ByteOf(b[0]), if |b| > 1 then ByteOf(b[1]) else 0, if |b| > 2 then ByteOf(b[2]) else 0)
  }

  /** One block of output; the characters that only missing bytes would fill
      are dropped with the padding. */
  function EncodedBlock(b: Bytes): (s: Bytes)
    requires 1 <= |b| <= 3
    ensures |s| == |b| + 1
    ensures forall k :: 0 <= k < |s| ==> IsUrlChar(s[k])
  {
    var q := BlockSextets(b);
    AlphaPos(q.0); AlphaPos(q.1); AlphaPos(q.2); AlphaPos(q.3);
    [Alpha(q.0), Alpha(q.1), Alpha(q.2), Alpha(q.3)][..|b| + 1]
  }

  function Encoded(b: Bytes): (s: Bytes)
    ensures forall k :: 0 <= k < |s| ==> IsUrlChar(s[k])
    ensures |s| == (4 * |b| + 2) / 3
    decreases |b|
  {
    if |b| == 0 then []
    else if |b| <= 3 then EncodedBlock(b)
    else EncodedBlock(b[..3]) + Encoded(b[3..])
  }

  /** One block of the decoder's input after padding. */
  function DecodedBlock(c0: Octet, c1: Octet, c2: Octet, c3: Octet): Bytes {
    var j := Joined(UrlPos(c0), UrlPos(c1), UrlPos(c2), UrlPos(c3));
    [CharOf(j.0)] + (if c2 != '=' then [CharOf(j.1)] else []) + (if c3 != '=' then [CharOf(j.2)] else [])
  }

  /** The character the decoder's loop sees: `=` stands past the end. */
  function PadAt(s: Bytes, k: nat): Octet {
    if k < |s| then s[k] else '='
  }

  function FirstBlock(s: Bytes): Bytes
    requires |s| > 0
  {
    DecodedBlock(PadAt(s, 0), PadAt(s, 1), PadAt(s, 2), PadAt(s, 3))
  }

  function Decoded(s: Bytes): Bytes
    decreases |s|
  {
    if |s| == 0 then []
    else if |s| <= 4 then FirstBlock(s)
    else FirstBlock(s) + Decoded(s[4..])
  }

  // ---------- Round trips ----------

  lemma EncodedBlockAt(b: Bytes)
    requires 1 <= |b| <= 3
    ensures var s, q := EncodedBlock(b), BlockSextets(b);
            && s[0] == Alpha(q.0) && s[1] == Alpha(q.1)
            && (|b| > 1 ==> s[2] == Alpha(q.2)) && (|b| > 2 ==> s[3] == Alpha(q.3))
  {
    hide Alpha, BlockSextets;
  }

  lemma PaddingPos()
    ensures UrlPos('=') == 0
  {
  }

  /** What the decoder reads back from a block of encoder output: the groups
      that were written, and 0 for those that were not. */
  lemma BlockPositions(b: Bytes)
    requires 1 <= |b| <= 3
    ensures var s, q := EncodedBlock(b), BlockSextets(b);
            && UrlPos(PadAt(s, 0)) == q.0 && UrlPos(PadAt(s, 1)) == q.1
            && UrlPos(PadAt(s, 2)) == (if |b| > 1 then q.2 else 0)
            && UrlPos(PadAt(s, 3)) == (if |b| > 2 then q.3 else 0)
  {
    hide Alpha, UrlPos, EncodedBlock, BlockSextets, IsUrlChar;
    var q := BlockSextets(b);
    EncodedBlockAt(b);
    PaddingPos();
    AlphaPos(q.0); AlphaPos(q.1); AlphaPos(q.2); AlphaPos(q.3);
  }

  lemma BlockPadding(b: Bytes)
    requires 1 <= |b| <= 3
    ensures var s := EncodedBlock(b);
            && (PadAt(s, 2) == '=' <==> |b| == 1)
            && (PadAt(s, 3) == '=' <==> |b| <= 2)
  {
    var s := EncodedBlock(b);
    assert forall k :: 0 <= k < |s| ==> IsUrlChar(s[k]);
  }

  lemma BlockRoundTrip(b: Bytes)
    requires 1 <= |b| <= 3
    ensures FirstBlock(EncodedBlock(b)) == b
  {
    hide UrlPos, EncodedBlock, BlockSextets, Joined, CharOf, PadAt;
    BlockPositions(b);
    BlockPadding(b);
    BlockBytes(b);
  }

  /** The bytes joined from a block's own groups are its bytes. */
  lemma BlockBytes(b: Bytes)
    requires 1 <= |b| <= 3
    ensures var q := BlockSextets(b);
            var j := Joined(q.0, q.1, if |b| > 1 then q.2 else 0, if |b| > 2 then q.3 else 0);
            [CharOf(j.0), CharOf(j.1), CharOf(j.2)][..|b|] == b
  {
    var b0, b1, b2 := ByteOf(b[0]), if |b| > 1 then ByteOf(b[1]) else 0, if |b| > 2 then ByteOf(b[2]) else 0;
    var q := BlockSextets(b);
    JoinedPrefix(b0, b1, b2, if |b| > 1 then q.2 else 0, if |b| > 2 then q.3 else 0);
    forall k | 0 <= k < |b| { CharOfByteOf(b[k]); }
  }

  lemma EncodedConcat(a: Bytes, b: Bytes)
    requires |a| == 3
    ensures Encoded(a + b) == EncodedBlock(a) + Encoded(b)
  {
    hide EncodedBlock, IsUrlChar;
    assert (a + b)[..3] == a && (a + b)[3..] == b;
    if |b| == 0 {
      assert a + b == a;
    }
  }

  lemma DecodedSplit(s: Bytes)
    requires |s| > 4
    ensures Decoded(s) == FirstBlock(s[..4]) + Decoded(s[4..])
  {
    hide DecodedBlock;
  }

  lemma ShortText(s: Bytes)
    requires |s| <= 4
    ensures Decoded(s) == if |s| == 0 then [] else FirstBlock(s)
    ensures |s| <= 3 ==> Encoded(s) == if |s| == 0 then [] else EncodedBlock(s)
  {
    hide FirstBlock, EncodedBlock;
  }

  /** Decoding undoes encoding, for every byte string. */
  lemma {:induction false} DecodeEncode(b: Bytes)
    ensures Decoded(Encoded(b)) == b
    decreases |b|
  {
    hide Encoded, Decoded, FirstBlock, EncodedBlock, IsUrlChar;
    if |b| <= 3 {
      ShortText(b);
      if |b| > 0 {
        ShortText(EncodedBlock(b));
        BlockRoundTrip(b);
      } else {
        ShortText([]);
      }
    } else {
      var head, rest := b[..3], b[3..];
      assert b == head + rest;
      EncodedConcat(head, rest);
      var s := EncodedBlock(head) + Encoded(rest);
      DecodedSplit(s);
      assert s[..4] == EncodedBlock(head) && s[4..] == Encoded(rest);
      BlockRoundTrip(head);
      DecodeEncode(rest);
    }
  }

  // ---------- Canonical texts ----------

  /** A text is canonical when it is over the alphabet, its length can occur,
      and the bits its last character does not need are zero. */
  predicate Canonical(s: Bytes) {
    && (forall k :: 0 <= k < |s| ==> IsUrlChar(s[k]))
    && |s| % 4 != 1
    && (|s| % 4 == 2 ==> UrlPos(s[|s| - 1]) & 0x0f == 0)
    && (|s| % 4 == 3 ==> UrlPos(s[|s| - 1]) & 0x03 == 0)
  }

  lemma BlockCanonical(b: Bytes)
    requires 1 <= |b| <= 3
    ensures Canonical(EncodedBlock(b))
  {
    hide UrlPos, EncodedBlock, Sextets, ByteOf;
    BlockPositions(b);
    SpareBitsZero(ByteOf(b[0]), if |b| > 1 then ByteOf(b[1]) else 0);
  }

  lemma CanonicalJoin(head: Bytes, rest: Bytes)
    requires Canonical(head) && Canonical(rest) && |head| == 4 && |rest| > 0
    ensures Canonical(head + rest)
  {
    hide UrlPos, IsUrlChar;
    var s := head + rest;
    assert s[|s| - 1] == rest[|rest| - 1];
  }

  lemma {:induction false} EncodedCanonical(b: Bytes)
    ensures Canonical(Encoded(b))
    decreases |b|
  {
    hide EncodedBlock, Encoded, Canonical, IsUrlChar;
    if |b| == 0 {
      ShortText(b);
      assert Canonical([]) by { NothingCanonical(); }
    } else if |b| <= 3 {
      ShortText(b);
      BlockCanonical(b);
    } else {
      var head, rest := b[..3], b[3..];
      assert b == head + rest;
      EncodedConcat(head, rest);
      BlockCanonical(head);
      EncodedCanonical(rest);
      CanonicalJoin(EncodedBlock(head), Encoded(rest));
    }
  }

  lemma NothingCanonical()
    ensures Canonical([])
  {
  }

  lemma CanonicalPadding(s: Bytes)
    requires 2 <= |s| <= 4 && Canonical(s)
    ensures PadAt(s, 2) == '=' <==> |s| == 2
    ensures PadAt(s, 3) == '=' <==> |s| <= 3
  {
    hide UrlPos;
  }

  /** The bytes a canonical block decodes to, read back as groups. */
  lemma DecodedGroups(s: Bytes)
    requires 2 <= |s| <= 4 && Canonical(s)
    ensures |FirstBlock(s)| == |s| - 1
    ensures var q := BlockSextets(FirstBlock(s));
            && q.0 == UrlPos(s[0]) && q.1 == UrlPos(s[1])
            && (|s| > 2 ==> q.2 == UrlPos(s[2])) && (|s| > 3 ==> q.3 == UrlPos(s[3]))
  {
    hide UrlPos, Joined, Sextets, ByteOf, CharOf;
    CanonicalPadding(s);
    var p0, p1, p2, p3 := UrlPos(PadAt(s, 0)), UrlPos(PadAt(s, 1)), UrlPos(PadAt(s, 2)), UrlPos(PadAt(s, 3));
    var j := Joined(p0, p1, p2, p3);
    PosesSmall(s);
    SextetsJoined(p0, p1, p2, p3);
    ByteOfCharOf(j.0); ByteOfCharOf(j.1); ByteOfCharOf(j.2);
    SpareGroups(j.0, j.1, j.2);
  }

  /** A group depends only on the bytes its bits come from. */
  lemma SpareGroups(b0: bv8, b1: bv8, b2: bv8)
    ensures Sextets(b0, b1, b2).0 == Sextets(b0, 0, 0).0 && Sextets(b0, b1, b2).0 == Sextets(b0, b1, 0).0
    ensures Sextets(b0, b1, b2).1 == Sextets(b0, b1, 0).1
  {
  }

  lemma PosesSmall(s: Bytes)
    ensures UrlPos(PadAt(s, 0)) < 64 && UrlPos(PadAt(s, 1)) < 64
    ensures UrlPos(PadAt(s, 2)) < 64 && UrlPos(PadAt(s, 3)) < 64
  {
    ByteBelow(Pos(StdChar(PadAt(s, 0)))); ByteBelow(Pos(StdChar(PadAt(s, 1))));
    ByteBelow(Pos(StdChar(PadAt(s, 2)))); ByteBelow(Pos(StdChar(PadAt(s, 3))));
  }

  lemma BlockInverse(s: Bytes)
    requires 2 <= |s| <= 4 && Canonical(s)
    ensures |FirstBlock(s)| == |s| - 1 && EncodedBlock(FirstBlock(s)) == s
  {
    hide FirstBlock, BlockSextets, UrlPos, Alpha;
    DecodedGroups(s);
    PosAlpha(s[0]);
    PosAlpha(s[1]);
    if |s| > 2 { PosAlpha(s[2]); }
    if |s| > 3 { PosAlpha(s[3]); }
  }

  lemma CanonicalSplit(s: Bytes)
    requires Canonical(s) && |s| > 4
    ensures Canonical(s[..4]) && Canonical(s[4..])
  {
    hide UrlPos, IsUrlChar;
    var rest := s[4..];
    assert rest[|rest| - 1] == s[|s| - 1];
  }

  lemma {:induction false} EncodeDecodeCanonical(s: Bytes)
    requires Canonical(s)
    ensures Encoded(Decoded(s)) == s
    decreases |s|
  {
    hide Encoded, Decoded, FirstBlock, EncodedBlock, UrlPos;
    if |s| == 0 {
      ShortText(s);
      ShortText([]);
    } else if |s| <= 4 {
      ShortText(s);
      BlockInverse(s);
      ShortText(FirstBlock(s));
    } else {
      hide Canonical;
      CanonicalSplit(s);
      DecodedSplit(s);
      BlockInverse(s[..4]);
      EncodeDecodeCanonical(s[4..]);
      EncodedConcat(FirstBlock(s[..4]), Decoded(s[4..]));
      assert s == s[..4] + s[4..];
    }
  }

  /** Encoding undoes decoding for exactly the canonical texts. */
  lemma CanonicalConverse(s: Bytes)
    ensures Encoded(Decoded(s)) == s <==> Canonical(s)
  {
    if Canonical(s) {
      EncodeDecodeCanonical(s);
    } else {
      EncodedCanonical(Decoded(s));
    }
  }

  // ---------- The alphabet of section 5 of RFC 4648, and other texts ----------

  const URL_UPPER: Bytes := "ABCDEFGHIJKLMNOPQRSTUVWXYZ"
  const URL_LOWER: Bytes := "abcdefghijklmnopqrstuvwxyz"
  const URL_OTHER: Bytes := "0123456789-_"

  /** The character of each 6-bit value, and back. */
  lemma UrlAlphabet(x: bv8)
    requires x < 64
    ensures var i := x as int;
            Alpha(x) == if i < 26 then URL_UPPER[i] else if i < 52 then URL_LOWER[i - 26] else URL_OTHER[i - 52]
    ensures UrlPos(Alpha(x)) == x
  {
    AlphaPos(x);
    hide B64, UrlPos, Pos;
    var i := x as int;
    TableAt(i);
    if i < 26 {
      UpperAt(i);
      SameUpper(i);
    } else if i < 52 {
      LowerAt(i - 26);
      SameLower(i - 26);
    } else {
      TailAt(i - 52);
      SameOther(i - 52);
    }
    hide UPPER, LOWER, DIGITS, URL_UPPER, URL_LOWER, URL_OTHER;
  }

  lemma SameUpper(i: nat)
    requires i < 26
    ensures URL_UPPER[i] as int == 'A' as int + i
  {
  }

  lemma SameLower(i: nat)
    requires i < 26
    ensures URL_LOWER[i] as int == 'a' as int + i
  {
  }

  lemma SameOther(i: nat)
    requires i < 12
    ensures URL_OTHER[i] as int == if i < 10 then '0' as int + i else if i == 10 then '-' as int else '_' as int
  {
  }

  /** Characters of neither alphabet count as zero bits, and those of the standard
      alphabet as their URL-safe forms. */
  lemma OutsideAlphabet(c: Octet)
    ensures !IsUrlChar(c) && c != '+' && c != '/' ==> UrlPos(c) == 0
    ensures UrlPos('+') == UrlPos('-') && UrlPos('/') == UrlPos('_')
  {
  }

  /** A text may come with its padding. */
  lemma {:induction false} PaddingIgnored(s: Bytes, pad: Bytes)
    requires |s| % 4 >= 2 && |pad| == 4 - |s| % 4 && forall k :: 0 <= k < |pad| ==> pad[k] == '='
    ensures Decoded(s + pad) == Decoded(s)
    decreases |s|
  {
    hide Decoded, FirstBlock;
    if |s| <= 4 {
      ShortText(s);
      ShortText(s + pad);
      PaddedFirst(s, pad);
    } else {
      PaddingIgnored(s[4..], pad);
      DecodedSplit(s);
      DecodedSplit(s + pad);
      assert (s + pad)[..4] == s[..4] && (s + pad)[4..] == s[4..] + pad;
    }
  }

  lemma PaddedFirst(s: Bytes, pad: Bytes)
    requires 2 <= |s| <= 3 && |pad| == 4 - |s| && forall k :: 0 <= k < |pad| ==> pad[k] == '='
    ensures FirstBlock(s + pad) == FirstBlock(s)
  {
    hide DecodedBlock;
  }
}

/** The definition of section 4 of RFC 4648 as a bit string, and the encoder's
    agreement with it. */
module Base64Bits {
  import opened ByteStrings
  import opened Base64Url

  // ---------- Bits of characters and of strings ----------

  function LowNibble(x: bv8): (s: seq<bool>)
    ensures |s| == 4
  {
    [x & 0x08 != 0, x & 0x04 != 0, x & 0x02 != 0, x & 0x01 != 0]
  }

  /** The 8 bits of a byte, most significant first. */
  function Bits8(x: bv8): (s: seq<bool>)
    ensures |s| == 8
  {
    [x & 0x80 != 0, x & 0x40 != 0, x & 0x20 != 0, x & 0x10 != 0] + LowNibble(x)
  }

  /** The 6 bits a character of the alphabet stands for. */
  function Bits6(x: bv8): (s: seq<bool>)
    ensures |s| == 6
  {
    [x & 0x20 != 0, x & 0x10 != 0] + LowNibble(x)
  }

  function ByteBits(b: Bytes): (s: seq<bool>)
    ensures |s| == 8 * |b|
  {
    if |b| == 0 then [] else Bits8(ByteOf(b[0])) + ByteBits(b[1..])
  }

  function TextBits(t: Bytes): (s: seq<bool>)
    ensures |s| == 6 * |t|
  {
    if |t| == 0 then [] else Bits6(UrlPos(t[0])) + TextBits(t[1..])
  }

  function Zeros(n: nat): (s: seq<bool>)
    ensures |s| == n
  {
    seq(n, i => false)
  }

  lemma TextBitsCons(c: Octet, t: Bytes)
    ensures TextBits([c] + t) == Bits6(UrlPos(c)) + TextBits(t)
  {
    hide Bits6, UrlPos;
    assert ([c] + t)[1..] == t;
  }

  lemma ByteBitsCons(c: Octet, b: Bytes)
    ensures ByteBits([c] + b) == Bits8(ByteOf(c)) + ByteBits(b)
  {
    hide Bits8, ByteOf;
    assert ([c] + b)[1..] == b;
  }

  lemma NoBits()
    ensures TextBits([]) == [] && ByteBits([]) == []
  {
  }

  lemma {:induction false} TextBitsConcat(s: Bytes, t: Bytes)
    ensures TextBits(s + t) == TextBits(s) + TextBits(t)
  {
    hide TextBits, Bits6, UrlPos;
    if |s| == 0 {
      NoBits();
      assert s + t == t && s == [];
    } else {
      var c, rest := s[0], s[1..];
      assert s == [c] + rest && s + t == [c] + (rest + t);
      TextBitsCons(c, rest);
      TextBitsCons(c, rest + t);
      TextBitsConcat(rest, t);
      Associative(Bits6(UrlPos(c)), TextBits(rest), TextBits(t));
    }
  }

  lemma {:induction false} ByteBitsConcat(s: Bytes, t: Bytes)
    ensures ByteBits(s + t) == ByteBits(s) + ByteBits(t)
  {
    hide ByteBits, Bits8, ByteOf;
    if |s| == 0 {
      NoBits();
      assert s + t == t && s == [];
    } else {
      var c, rest := s[0], s[1..];
      assert s == [c] + rest && s + t == [c] + (rest + t);
      ByteBitsCons(c, rest);
      ByteBitsCons(c, rest + t);
      ByteBitsConcat(rest, t);
      Associative(Bits8(ByteOf(c)), ByteBits(rest), ByteBits(t));
    }
  }

  lemma Associative(x: seq<bool>, y: seq<bool>, z: seq<bool>)
    ensures x + (y + z) == (x + y) + z
  {
  }

  // ---------- One block ----------

  lemma Group0(b0: bv8, b1: bv8, b2: bv8)
    ensures Bits6(Sextets(b0, b1, b2).0) == Bits8(b0)[..6]
  {
  }

  lemma Group1(b0: bv8, b1: bv8, b2: bv8)
    ensures Bits6(Sextets(b0, b1, b2).1) == Bits8(b0)[6..] + Bits8(b1)[..4]
  {
  }

  /** The third group takes its high bits from the second byte. */
  lemma Group2High(b1: bv8, b2: bv8)
    ensures var x := ((b1 & 0x0f) << 2) | (b2 >> 6);
            && (x & 0x20 != 0 <==> b1 & 0x08 != 0) && (x & 0x10 != 0 <==> b1 & 0x04 != 0)
            && (x & 0x08 != 0 <==> b1 & 0x02 != 0) && (x & 0x04 != 0 <==> b1 & 0x01 != 0)
  {
  }

  /** And its low bits from the third. */
  lemma Group2Low(b1: bv8, b2: bv8)
    ensures var x := ((b1 & 0x0f) << 2) | (b2 >> 6);
            && (x & 0x02 != 0 <==> b2 & 0x80 != 0) && (x & 0x01 != 0 <==> b2 & 0x40 != 0)
  {
  }

  lemma Bits6Are(x: bv8)
    ensures Bits6(x) == [x & 0x20 != 0, x & 0x10 != 0, x & 0x08 != 0, x & 0x04 != 0, x & 0x02 != 0, x & 0x01 != 0]
  {
  }

  lemma Bits8Halves(x: bv8)
    ensures Bits8(x)[4..] == [x & 0x08 != 0, x & 0x04 != 0, x & 0x02 != 0, x & 0x01 != 0]
    ensures Bits8(x)[..2] == [x & 0x80 != 0, x & 0x40 != 0]
  {
  }

  lemma SixInTwo(a: bool, b: bool, c: bool, d: bool, e: bool, f: bool)
    ensures [a, b, c, d, e, f] == [a, b, c, d] + [e, f]
  {
  }

  lemma Group2(b0: bv8, b1: bv8, b2: bv8)
    ensures Bits6(Sextets(b0, b1, b2).2) == Bits8(b1)[4..] + Bits8(b2)[..2]
  {
    var x := ((b1 & 0x0f) << 2) | (b2 >> 6);
    assert Sextets(b0, b1, b2).2 == x;
    hide Sextets, Bits6, Bits8;
    Group2High(b1, b2);
    Group2Low(b1, b2);
    Bits6Are(x);
    Bits8Halves(b1);
    Bits8Halves(b2);
    SixInTwo(b1 & 0x08 != 0, b1 & 0x04 != 0, b1 & 0x02 != 0, b1 & 0x01 != 0, b2 & 0x80 != 0, b2 & 0x40 != 0);
  }

  lemma Group3(b0: bv8, b1: bv8, b2: bv8)
    ensures Bits6(Sextets(b0, b1, b2).3) == Bits8(b2)[2..]
  {
  }

  lemma ZeroByte()
    ensures Bits8(0) == Zeros(8)
  {
  }

  lemma Regroup(x: seq<bool>, y: seq<bool>, z: seq<bool>)
    requires |x| == |y| == |z| == 8
    ensures x[..6] + (x[6..] + y[..4]) + (y[4..] + z[..2]) + z[2..] == x + y + z
    ensures x[..6] + (x[6..] + y[..4]) + (y[4..] + z[..2]) == x + y + z[..2]
    ensures x[..6] + (x[6..] + y[..4]) == x + y[..4]
  {
  }

  lemma BlockBits(b: Bytes)
    requires 1 <= |b| <= 3
    ensures var q := BlockSextets(b);
            var groups := [Bits6(q.0), Bits6(q.1), Bits6(q.2), Bits6(q.3)];
            && (|b| == 1 ==> groups[0] + groups[1] == Bits8(ByteOf(b[0])) + Zeros(4))
            && (|b| == 2 ==> groups[0] + groups[1] + groups[2]
                             == Bits8(ByteOf(b[0])) + Bits8(ByteOf(b[1])) + Zeros(2))
            && (|b| == 3 ==> groups[0] + groups[1] + groups[2] + groups[3]
                             == Bits8(ByteOf(b[0])) + Bits8(ByteOf(b[1])) + Bits8(ByteOf(b[2])))
  {
    hide Bits6, Bits8, Sextets, ByteOf;
    var b0, b1, b2 := ByteOf(b[0]), if |b| > 1 then ByteOf(b[1]) else 0, if |b| > 2 then ByteOf(b[2]) else 0;
    Group0(b0, b1, b2); Group1(b0, b1, b2); Group2(b0, b1, b2); Group3(b0, b1, b2);
    Regroup(Bits8(b0), Bits8(b1), Bits8(b2));
    ZeroByte();
  }

  lemma TextBitsSnoc(t: Bytes, c: Octet)
    ensures TextBits(t + [c]) == TextBits(t) + Bits6(UrlPos(c))
  {
    hide Bits6, UrlPos;
    TextBitsConcat(t, [c]);
  }

  lemma TextBitsPair(c0: Octet, c1: Octet)
    ensures TextBits([c0, c1]) == Bits6(UrlPos(c0)) + Bits6(UrlPos(c1))
  {
    hide Bits6, UrlPos, TextBits;
    TextBitsSnoc([], c0);
    TextBitsSnoc([c0], c1);
    assert [] + [c0] == [c0] && [c0] + [c1] == [c0, c1];
  }

  lemma TextBitsOf(t: Bytes)
    requires 2 <= |t| <= 4
    ensures TextBits(t[..2]) == Bits6(UrlPos(t[0])) + Bits6(UrlPos(t[1]))
    ensures |t| > 2 ==> TextBits(t[..3]) == TextBits(t[..2]) + Bits6(UrlPos(t[2]))
    ensures |t| > 3 ==> TextBits(t) == TextBits(t[..3]) + Bits6(UrlPos(t[3]))
  {
    hide Bits6, UrlPos, TextBits;
    TextBitsPair(t[0], t[1]);
    assert t[..2] == [t[0], t[1]];
    if |t| > 2 {
      TextBitsSnoc(t[..2], t[2]);
      assert t[..3] == t[..2] + [t[2]];
    }
    if |t| > 3 {
      TextBitsSnoc(t[..3], t[3]);
      assert t == t[..3] + [t[3]];
    }
  }

  lemma ByteBitsSnoc(b: Bytes, c: Octet)
    ensures ByteBits(b + [c]) == ByteBits(b) + Bits8(ByteOf(c))
  {
    hide Bits8, ByteOf;
    ByteBitsConcat(b, [c]);
  }

  lemma ByteBitsOf(b: Bytes)
    requires 1 <= |b| <= 3
    ensures ByteBits(b[..1]) == Bits8(ByteOf(b[0]))
    ensures |b| > 1 ==> ByteBits(b[..2]) == ByteBits(b[..1]) + Bits8(ByteOf(b[1]))
    ensures |b| > 2 ==> ByteBits(b) == ByteBits(b[..2]) + Bits8(ByteOf(b[2]))
  {
    hide Bits8, ByteOf;
    if |b| > 1 {
      ByteBitsSnoc(b[..1], b[1]);
      assert b[..2] == b[..1] + [b[1]];
    }
    if |b| > 2 {
      ByteBitsSnoc(b[..2], b[2]);
      assert b == b[..2] + [b[2]];
    }
  }

  lemma BlockRegrouping(b: Bytes)
    requires 1 <= |b| <= 3
    ensures TextBits(EncodedBlock(b)) == ByteBits(b) + Zeros(6 - 2 * |b|)
  {
    hide Bits6, Bits8, UrlPos, ByteOf, EncodedBlock, BlockSextets, TextBits, ByteBits, IsUrlChar, Zeros;
    var t, q := EncodedBlock(b), BlockSextets(b);
    BlockPositions(b);
    BlockBits(b);
    TextBitsOf(t);
    ByteBitsOf(b);
    assert t[..|t|] == t && b[..|b|] == b;
    if |b| == 1 {
      assert TextBits(t) == Bits6(q.0) + Bits6(q.1);
    } else if |b| == 2 {
      assert TextBits(t) == Bits6(q.0) + Bits6(q.1) + Bits6(q.2);
    } else {
      assert TextBits(t) == Bits6(q.0) + Bits6(q.1) + Bits6(q.2) + Bits6(q.3);
      assert ByteBits(b) + Zeros(0) == ByteBits(b) by { assert Zeros(0) == []; }
    }
  }

  // ---------- Whole strings ----------

  /** The encoder's text is the input's bit string cut into groups of six, the
      last group filled up with zero bits. */
  lemma {:induction false} EncodedIsRegrouping(b: Bytes)
    ensures 8 * |b| <= 6 * |Encoded(b)| < 8 * |b| + 6
    ensures TextBits(Encoded(b)) == ByteBits(b) + Zeros(6 * |Encoded(b)| - 8 * |b|)
    decreases |b|
  {
    hide EncodedBlock, TextBits, ByteBits;
    if |b| == 0 {
      assert TextBits(Encoded(b)) == ByteBits(b) + Zeros(0);
    } else if |b| <= 3 {
      BlockRegrouping(b);
    } else {
      var head, rest := b[..3], b[3..];
      EncodedIsRegrouping(rest);
      BlockRegrouping(head);
      TextBitsConcat(EncodedBlock(head), Encoded(rest));
      ByteBitsConcat(head, rest);
      assert b == head + rest;
    }
  }
}

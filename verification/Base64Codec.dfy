/** `base64url_encode` and `base64url_decode` as the loops they are, proved to
    compute `Encoded` and `Decoded`. */
module Base64Codec {
  import opened ByteStrings
  import opened Base64Url

  // ---------- The encoder's intermediate, padded text ----------

  function StdAlpha(x: bv8): Octet
    requires x < 64
  {
    B64[x as int]
  }

  function RawBlock(b: Bytes): (s: Bytes)
    requires 1 <= |b| <= 3
    ensures |s| == 4
  {
    var q := BlockSextets(b);
    [StdAlpha(q.0), StdAlpha(q.1)] + [if |b| > 1 then StdAlpha(q.2) else '=', if |b| > 2 then StdAlpha(q.3) else '=']
  }

  function Raw(b: Bytes): Bytes
    decreases |b|
  {
    if |b| == 0 then []
    else if |b| <= 3 then RawBlock(b)
    else RawBlock(b[..3]) + Raw(b[3..])
  }

  /** What is left of the input when the loop has reached `i`. */
  function From(b: Bytes, i: nat): Bytes {
    if i < |b| then b[i..] else []
  }

  lemma RawBlockText(b: Bytes)
    requires 1 <= |b| <= 3
    ensures forall k :: 0 <= k < |b| + 1 ==> UrlChar(RawBlock(b)[k]) == EncodedBlock(b)[k]
    ensures forall k :: |b| + 1 <= k < 4 ==> RawBlock(b)[k] == '='
  {
  }

  lemma {:induction false} RawText(b: Bytes)
    ensures |Encoded(b)| <= |Raw(b)| && (|Encoded(b)| == 0 ==> |Raw(b)| == 0)
    ensures forall k :: 0 <= k < |Encoded(b)| ==> UrlChar(Raw(b)[k]) == Encoded(b)[k]
    ensures forall k :: |Encoded(b)| <= k < |Raw(b)| ==> Raw(b)[k] == '='
    decreases |b|
  {
    hide RawBlock, EncodedBlock, UrlChar;
    if |b| == 0 {
    } else if |b| <= 3 {
      RawBlockText(b);
    } else {
      RawBlockText(b[..3]);
      RawText(b[3..]);
    }
  }

  lemma RawStep(b: Bytes, i: nat)
    requires i < |b|
    ensures var n := if |b| - i < 3 then |b| - i else 3;
            Raw(b[i..]) == RawBlock(b[i..i + n]) + Raw(From(b, i + 3))
  {
    hide RawBlock;
    var rest := b[i..];
    if |rest| <= 3 {
      assert rest == b[i..i + |rest|];
      assert Raw(From(b, i + 3)) == [];
    } else {
      assert rest[..3] == b[i..i + 3] && rest[3..] == b[i + 3..];
    }
  }

  method Encode(data: Bytes) returns (out: Bytes)
    ensures out == Encoded(data)
  {
    hide Encoded, RawBlock, Raw;
    out := [];
    var i := 0;
    RawEnds(data);
    while i < |data|
      invariant out + Raw(From(data, i)) == Raw(data)
    {
      RawStep(data, i);
      out := EncodeStep(data, i, out);
      i := i + 3;
    }
    out := Finish(data, out);
  }

  lemma RawEnds(b: Bytes)
    ensures From(b, 0) == b && Raw([]) == []
  {
  }

  /** The three bytes at `i`, cut into groups. */
  method Groups(data: Bytes, i: nat) returns (q0: bv8, q1: bv8, q2: bv8, q3: bv8)
    requires i < |data|
    ensures (q0, q1, q2, q3) == BlockSextets(data[i..if i + 3 < |data| then i + 3 else |data|])
  {
    hide ByteOf;
    var b0 := ByteOf(data[i]);
    var b1 := if i + 1 < |data| then ByteOf(data[i + 1]) else 0;
    var b2 := if i + 2 < |data| then ByteOf(data[i + 2]) else 0;
    q0 := b0 >> 2;
    q1 := ((b0 & 0x03) << 4) | (b1 >> 4);
    q2 := ((b1 & 0x0f) << 2) | (b2 >> 6);
    q3 := b2 & 0x3f;
  }

  /** One pass of the first loop: four characters are appended. */
  method EncodeStep(data: Bytes, i: nat, text: Bytes) returns (out: Bytes)
    requires i < |data|
    ensures out == text + RawBlock(data[i..if i + 3 < |data| then i + 3 else |data|])
  {
    hide BlockSextets, StdAlpha;
    var q0, q1, q2, q3 := Groups(data, i);
    out := text;
    out := out + [StdAlpha(q0)];
    out := out + [StdAlpha(q1)];
    out := out + [if i + 1 < |data| then StdAlpha(q2) else '='];
    out := out + [if i + 2 < |data| then StdAlpha(q3) else '='];
  }

  /** What follows the first loop. */
  method Finish(ghost data: Bytes, raw: Bytes) returns (out: Bytes)
    requires raw == Raw(data)
    ensures out == Encoded(data)
  {
    hide Raw, Encoded, UrlChar;
    RawText(data);
    var text := ToUrlAlphabet(raw);
    assert UrlChar('=') == '=' by { UrlPadding(); }
    out := StripPadding(text);
    OnlyPaddingStripped(text, Encoded(data), out);
  }

  lemma UrlPadding()
    ensures UrlChar('=') == '='
  {
  }

  lemma OnlyPaddingStripped(text: Bytes, kept: Bytes, out: Bytes)
    requires |kept| <= |text| && (|kept| == 0 ==> |text| == 0)
    requires forall k :: 0 <= k < |kept| ==> text[k] == kept[k] && IsUrlChar(kept[k])
    requires forall k :: |kept| <= k < |text| ==> text[k] == '='
    requires Stripped(text, out)
    ensures out == kept
  {
    assert |kept| > 0 ==> IsUrlChar(text[0]) && IsUrlChar(text[|kept| - 1]);
  }

  /** The second loop rewrites `+` and `/` where they stand. */
  method ToUrlAlphabet(text: Bytes) returns (out: Bytes)
    ensures |out| == |text| && forall k :: 0 <= k < |text| ==> out[k] == UrlChar(text[k])
  {
    out := text;
    var k := 0;
    while k < |out|
      invariant 0 <= k <= |out| == |text|
      invariant forall j :: 0 <= j < k ==> out[j] == UrlChar(text[j])
      invariant forall j :: k <= j < |out| ==> out[j] == text[j]
    {
      if out[k] == '+' {
        out := out[k := '-'];
      } else if out[k] == '/' {
        out := out[k := '_'];
      }
      k := k + 1;
    }
  }

  /** `out` is `text` without the `=` at its end, or `text` itself when it has
      nothing else. */
  ghost predicate Stripped(text: Bytes, out: Bytes) {
    && out <= text
    && (forall k :: |out| <= k < |text| ==> text[k] == '=')
    && ((out == text && forall k :: 0 <= k < |text| ==> text[k] == '=') || (out != [] && out[|out| - 1] != '='))
  }

  /** `find_last_not_of('=')` and the resize. */
  method StripPadding(text: Bytes) returns (out: Bytes)
    ensures Stripped(text, out)
  {
    var end := |text|;
    while end > 0 && text[end - 1] == '='
      invariant 0 <= end <= |text|
      invariant forall k :: end <= k < |text| ==> text[k] == '='
    {
      end := end - 1;
    }
    out := if end > 0 then text[..end] else text;
  }

  // ---------- The decoder ----------

  /** The input with `-` and `_` rewritten and `=` appended to a whole number
      of blocks. */
  function Padded(s: Bytes): (t: Bytes)
    ensures |t| % 4 == 0
  {
    seq(|s|, k requires 0 <= k < |s| => StdChar(s[k])) + seq((4 - |s| % 4) % 4, k => '=')
  }

  /** The bytes of one padded block, as the loop's body pushes them. */
  function StdBlock(c0: Octet, c1: Octet, c2: Octet, c3: Octet): Bytes {
    var j := Joined(Pos8(c0), Pos8(c1), Pos8(c2), Pos8(c3));
    [CharOf(j.0)] + (if c2 != '=' then [CharOf(j.1)] else []) + (if c3 != '=' then [CharOf(j.2)] else [])
  }

  lemma PaddedBlock(s: Bytes)
    requires |s| > 0
    ensures var t := Padded(s);
            |t| >= 4 && StdBlock(t[0], t[1], t[2], t[3]) == FirstBlock(s)
  {
    hide Joined, CharOf, Pos8;
    var t := Padded(s);
    assert t[0] == StdChar(PadAt(s, 0)) && t[1] == StdChar(PadAt(s, 1));
    assert t[2] == StdChar(PadAt(s, 2)) && t[3] == StdChar(PadAt(s, 3));
  }

  lemma PaddedRest(s: Bytes)
    requires |s| > 0
    ensures Padded(s)[4..] == Padded(if |s| <= 4 then [] else s[4..])
  {
  }

  function DecodedPadded(t: Bytes): Bytes
    requires |t| % 4 == 0
    decreases |t|
  {
    if |t| == 0 then [] else StdBlock(t[0], t[1], t[2], t[3]) + DecodedPadded(t[4..])
  }

  lemma {:induction false} DecodedPaddedIs(s: Bytes)
    ensures DecodedPadded(Padded(s)) == Decoded(s)
    decreases |s|
  {
    hide StdBlock, FirstBlock, Padded;
    if |s| == 0 {
      NothingPadded();
    } else {
      PaddedBlock(s);
      PaddedRest(s);
      DecodedPaddedIs(if |s| <= 4 then [] else s[4..]);
    }
  }

  lemma NothingPadded()
    ensures Padded([]) == []
  {
  }

  method Decode(text: Bytes) returns (out: Bytes)
    ensures out == Decoded(text)
  {
    hide StdBlock, Decoded, Padded;
    DecodedPaddedIs(text);
    var tmp := Pad(text);
    out := [];
    var i := 0;
    while i < |tmp|
      invariant 0 <= i <= |tmp| && i % 4 == 0
      invariant out + DecodedPadded(tmp[i..]) == Decoded(text)
    {
      DecodedPaddedStep(tmp, i);
      var block := DecodeStep(tmp[i], tmp[i + 1], tmp[i + 2], tmp[i + 3]);
      out := out + block;
      i := i + 4;
    }
  }

  lemma DecodedPaddedStep(t: Bytes, i: nat)
    requires |t| % 4 == 0 && i % 4 == 0 && i < |t|
    ensures DecodedPadded(t[i..]) == StdBlock(t[i], t[i + 1], t[i + 2], t[i + 3]) + DecodedPadded(t[i + 4..])
  {
    hide StdBlock;
    assert t[i..][4..] == t[i + 4..];
  }

  method Pad(text: Bytes) returns (tmp: Bytes)
    ensures tmp == Padded(text)
  {
    tmp := text;
    var k := 0;
    while k < |tmp|
      invariant 0 <= k <= |tmp| == |text|
      invariant forall j :: 0 <= j < k ==> tmp[j] == StdChar(text[j])
      invariant forall j :: k <= j < |tmp| ==> tmp[j] == text[j]
    {
      if tmp[k] == '-' {
        tmp := tmp[k := '+'];
      } else if tmp[k] == '_' {
        tmp := tmp[k := '/'];
      }
      k := k + 1;
    }
    var pad := (4 - |tmp| % 4) % 4;
    tmp := tmp + seq(pad, k => '=');
  }

  /** One pass of the loop: one to three bytes are pushed. */
  method DecodeStep(c0: Octet, c1: Octet, c2: Octet, c3: Octet) returns (out: Bytes)
    ensures out == StdBlock(c0, c1, c2, c3)
  {
    hide Joined, CharOf, Pos8;
    var x0, x1, x2 := Join(Pos8(c0), Pos8(c1), Pos8(c2), Pos8(c3));
    out := [CharOf(x0)];
    if c2 != '=' {
      out := out + [CharOf(x1)];
    }
    if c3 != '=' {
      out := out + [CharOf(x2)];
    }
  }

  /** The shifts of the loop's body, each cut to a byte. */
  method Join(b0: bv8, b1: bv8, b2: bv8, b3: bv8) returns (x0: bv8, x1: bv8, x2: bv8)
    ensures (x0, x1, x2) == Joined(b0, b1, b2, b3)
  {
    x0 := (b0 << 2) | (b1 >> 4);
    x1 := (b1 << 4) | (b2 >> 2);
    x2 := (b2 << 6) | b3;
  }
}

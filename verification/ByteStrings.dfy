/** Narrowing a small integer to a byte loses nothing. */
module Narrowing {
  lemma IntOfByte(n: nat)
    requires n < 256
    ensures (n as bv8) as int == n
  {
  }
}

/** C++ byte strings: `std::string` is a sequence of 8-bit characters, and the
    library searches on it that the token code relies on. */
module ByteStrings {
  import opened Narrowing

  datatype Option<+T> = None | Some(value: T)

  type Octet = c: char | c as int < 256 witness 'a'
  type Bytes = seq<Octet>

  /** The unsigned value of a character, as an 8-bit vector. */
  function ByteOf(c: Octet): bv8 {
    c as int as bv8
  }

  /** The character holding an 8-bit value. */
  function CharOf(b: bv8): Octet {
    b as int as char
  }

  lemma ByteOfCharOf(b: bv8)
    ensures ByteOf(CharOf(b)) == b
  {
  }

  lemma CharOfByteOf(c: Octet)
    ensures CharOf(ByteOf(c)) == c
  {
    IntOfByte(c as int);
  }
}

/** `std::string::find` and the same search seen as the suffix it leads to. */
module Search {
  import opened ByteStrings

  predicate OccursAt(s: Bytes, pat: Bytes, j: nat) {
    j + |pat| <= |s| && s[j..j + |pat|] == pat
  }

  /** The first occurrence at or after `from`. */
  function Find(s: Bytes, pat: Bytes, from: nat): (r: Option<nat>)
    ensures r.Some? ==> from <= r.value && OccursAt(s, pat, r.value)
    ensures r.Some? ==> forall j :: from <= j < r.value ==> !OccursAt(s, pat, j)
    ensures r.None? ==> forall j :: from <= j ==> !OccursAt(s, pat, j)
    decreases |s| - from
  {
    if OccursAt(s, pat, from) then Some(from)
    else if from >= |s| then None
    else Find(s, pat, from + 1)
  }

  /** The suffix that begins with the first occurrence. */
  function Seek(s: Bytes, pat: Bytes): Option<Bytes> {
    if pat <= s then Some(s) else if |s| == 0 then None else Seek(s[1..], pat)
  }

  lemma {:induction false} SeekIsFind(s: Bytes, pat: Bytes, from: nat)
    requires from <= |s|
    ensures Seek(s[from..], pat) ==
            match Find(s, pat, from) case None => None case Some(k) => Some(s[k..])
    decreases |s| - from
  {
    assert pat <= s[from..] <==> OccursAt(s, pat, from);
    if !OccursAt(s, pat, from) && from < |s| {
      SeekIsFind(s, pat, from + 1);
      assert s[from..][1..] == s[from + 1..];
    }
  }

  predicate Free(s: Bytes, c: Octet) {
    forall k :: 0 <= k < |s| ==> s[k] != c
  }

  /** Text without the first character of the pattern cannot begin a match. */
  lemma {:induction false} SeekSkips(u: Bytes, s: Bytes, pat: Bytes)
    requires |pat| > 0 && Free(u, pat[0])
    ensures Seek(u + s, pat) == Seek(s, pat)
    decreases |u|
  {
    if |u| == 0 {
      assert u + s == s;
    } else {
      assert (u + s)[0] == u[0];
      assert (u + s)[1..] == u[1..] + s;
      SeekSkips(u[1..], s, pat);
    }
  }

  /** What a search finds is a suffix that begins with the pattern. */
  lemma {:induction false} SeekIsSuffix(s: Bytes, pat: Bytes)
    requires Seek(s, pat).Some?
    ensures var r := Seek(s, pat).value; pat <= r && |r| <= |s| && r == s[|s| - |r|..]
  {
    if !(pat <= s) {
      SeekIsSuffix(s[1..], pat);
    }
  }

  lemma {:induction false} SeekMisses(s: Bytes, pat: Bytes, k: nat)
    requires k < |pat| && Free(s, pat[k])
    ensures Seek(s, pat) == None
  {
    assert k < |s| ==> s[k] != pat[k];
    if |s| > 0 {
      SeekMisses(s[1..], pat, k);
    }
  }

  /** A character outside the pattern separates: a match lies before it or after
      it, never across. */
  lemma {:induction false} SeekSeparates(s: Bytes, c: Octet, rest: Bytes, pat: Bytes)
    requires |pat| > 0 && Free(pat, c)
    ensures Seek(s + [c] + rest, pat)
            == match Seek(s, pat) case Some(r) => Some(r + [c] + rest) case None => Seek(rest, pat)
    decreases |s|
  {
    var t := s + [c] + rest;
    assert t[|s|] == c;
    assert pat <= t ==> |pat| <= |s| && pat == t[..|pat|] == s[..|pat|];
    assert pat <= s ==> pat <= t;
    if !(pat <= s) {
      if |s| == 0 {
        assert t[1..] == rest;
      } else {
        assert t[1..] == s[1..] + [c] + rest;
        SeekSeparates(s[1..], c, rest, pat);
      }
    }
  }

  lemma {:induction false} SeekChar(s: Bytes, c: Octet)
    ensures Seek(s, [c]).None? <==> Free(s, c)
  {
    if |s| > 0 {
      assert [c] <= s <==> s[0] == c;
      SeekChar(s[1..], c);
      assert Free(s, c) <==> s[0] != c && Free(s[1..], c);
    }
  }
}

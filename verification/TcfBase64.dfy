/** Base64url without padding characters (RFC 4648, section 5), over bits padded to 24. */
module TcfBase64 {
  import opened Wrappers
  import opened TcfBits

  const BASIS := 6
  const LCM := 24

  /** The dictionary A-Z a-z 0-9 - _ */
  function CharOf(n: nat): char
    requires n < 64
  {
    if n < 26 then 'A' + n as char
    else if n < 52 then 'a' + (n - 26) as char
    else if n < 62 then '0' + (n - 52) as char
    else if n == 62 then '-'
    else '_'
  }

  function CodeOf(c: char): Option<nat>
  {
    if 'A' <= c <= 'Z' then Some(c as int - 'A' as int)
    else if 'a' <= c <= 'z' then Some(c as int - 'a' as int + 26)
    else if '0' <= c <= '9' then Some(c as int - '0' as int + 52)
    else if c == '-' then Some(62)
    else if c == '_' then Some(63)
    else None
  }

  lemma CodeOfChar(n: nat)
    requires n < 64
    ensures CodeOf(CharOf(n)) == Some(n)
  {
  }

  lemma CharOfCode(c: char)
    requires CodeOf(c).Some?
    ensures CodeOf(c).value < 64 && CharOf(CodeOf(c).value) == c
  {
  }

  predicate InAlphabet(s: string)
  {
    forall i :: 0 <= i < |s| ==> CodeOf(s[i]).Some?
  }

  function PadTo24(b: Bits): (p: Bits)
    ensures |p| % 24 == 0 && b <= p && |p| < |b| + 24
  {
    b + if |b| % LCM != 0 then Zeros(LCM - |b| % LCM) else []
  }

  lemma SextetBound(b: Bits)
    requires |b| == 6
    ensures Number(b) < 64
  {
    NumberBound(b);
  }

  /** One character for each whole group of six bits */
  function Chars(b: Bits): (s: string)
    ensures 6 * |s| <= |b| < 6 * |s| + 6
  {
    if |b| < 6 then []
    else
      SextetBound(b[..6]);
      [CharOf(Number(b[..6]))] + Chars(b[6..])
  }

  function Sextets(s: string): (b: Bits)
    requires InAlphabet(s)
    ensures |b| == 6 * |s|
  {
    if |s| == 0 then []
    else Sextet(s[0]) + Sextets(s[1..])
  }

  /** The six digits of a character of the alphabet */
  function Sextet(c: char): (b: Bits)
    requires CodeOf(c).Some?
    ensures |b| == 6
  {
    CharOfCode(c);
    IntRoundTrip(CodeOf(c).value, BASIS);
    assert Pow2(6) == 64;
    EncodeInt(CodeOf(c).value, BASIS).value
  }

  function EncodeBase64(b: Bits): Result<string, CodecError>
  {
    if |b| == 0 then Err(EncodingError) else Ok(Chars(PadTo24(b)))
  }

  function DecodeBase64(s: string): Result<Bits, CodecError>
  {
    if |s| == 0 || !InAlphabet(s) then Err(DecodingError) else Ok(Sextets(s))
  }

  // ---------- The loops ----------

  lemma CharsStep(b: Bits, at: nat)
    requires at + 6 <= |b|
    ensures Number(b[at..at + 6]) < 64
    ensures Chars(b[at..]) == [CharOf(Number(b[at..at + 6]))] + Chars(b[at + 6..])
  {
    hide Number, CharOf;
    assert b[at..][..6] == b[at..at + 6] && b[at..][6..] == b[at + 6..];
    SextetBound(b[at..at + 6]);
  }

  method EncodeGroups(b: Bits) returns (out: string)
    requires |b| % 6 == 0
    ensures out == Chars(b)
  {
    hide Number, CharOf, Chars;
    ghost var groups := |b| / 6;
    assert |b| == 6 * groups;
    var s := 0;
    out := "";
    assert b[0..] == b;
    while s < |b|
      invariant s == 6 * |out| <= |b|
      invariant Chars(b) == out + Chars(b[s..])
    {
      CharsStep(b, s);
      out := out + [CharOf(Number(b[s..s + BASIS]))];
      s := s + BASIS;
    }
    assert Chars(b[s..]) == [];
  }

  method EncodeBase64Url(e: Bits) returns (r: Result<string, CodecError>)
    ensures r == EncodeBase64(e)
  {
    if |e| == 0 {
      return Err(EncodingError);
    }
    hide PadTo24, Chars;
    var padded := PadTo24(e);
    assert |padded| % 6 == 0;
    var out := EncodeGroups(padded);
    return Ok(out);
  }

  method DecodeBase64Url(e: string) returns (r: Result<Bits, CodecError>)
    ensures r == DecodeBase64(e)
  {
    if |e| == 0 || !InAlphabet(e) {
      return Err(DecodingError);
    }
    var t, i := [], 0;
    assert e[0..] == e;
    while i < |e|
      invariant 0 <= i <= |e|
      invariant Sextets(e) == t + Sextets(e[i..])
    {
      assert e[i..][0] == e[i] && e[i..][1..] == e[i + 1..];
      var digits := Binary(CodeOf(e[i]).value);
      assert Zeros(6 - |digits|) + digits == Sextet(e[i]) by {
        CharOfCode(e[i]);
        assert Pow2(6) == 64;
        IntRoundTrip(CodeOf(e[i]).value, BASIS);
      }
      t := t + (Zeros(6 - |digits|) + digits);
      i := i + 1;
    }
    assert t + [] == t;
    return Ok(t);
  }

  // ---------- Round trips ----------

  lemma SextetOfChar(b: Bits)
    requires |b| == 6
    ensures Number(b) < 64 && CodeOf(CharOf(Number(b))).Some? && Sextet(CharOf(Number(b))) == b
  {
    SextetBound(b);
    CodeOfChar(Number(b));
    IntDecodeEncode(b);
  }

  lemma {:induction false} SextetsOfChars(b: Bits)
    requires |b| % 6 == 0
    ensures InAlphabet(Chars(b)) && Sextets(Chars(b)) == b
    decreases |b|
  {
    hide Sextet, Number, CodeOf, CharOf;
    if |b| != 0 {
      SextetBound(b[..6]);
      SextetOfChar(b[..6]);
      SextetsOfChars(b[6..]);
      assert b == b[..6] + b[6..];
    }
  }

  /** Decoding returns the bits followed by the zeros of the padding. */
  lemma Base64RoundTrip(b: Bits)
    requires |b| > 0
    ensures var s := EncodeBase64(b).value;
            && EncodeBase64(b).Ok? && |s| % 4 == 0 && InAlphabet(s)
            && DecodeBase64(s) == Ok(PadTo24(b))
  {
    hide Chars, Sextets, CodeOf, PadTo24;
    var p := PadTo24(b);
    assert |p| % 6 == 0 && |p| >= 1;
    SextetsOfChars(p);
    assert 6 * |Chars(p)| == |p|;
  }

  lemma {:induction false} CharsOfSextets(s: string)
    requires InAlphabet(s)
    ensures Chars(Sextets(s)) == s
    decreases |s|
  {
    if |s| != 0 {
      CharsOfSextets(s[1..]);
      var b := Sextets(s);
      assert b[..6] == Sextet(s[0]) && b[6..] == Sextets(s[1..]);
      CharOfCode(s[0]);
      assert Pow2(6) == 64;
      IntRoundTrip(CodeOf(s[0]).value, BASIS);
    }
  }

  /** A valid string of whole 24-bit groups is reproduced by decoding and encoding it. */
  lemma Base64DecodeEncode(s: string)
    requires |s| > 0 && |s| % 4 == 0 && DecodeBase64(s).Ok?
    ensures EncodeBase64(DecodeBase64(s).value) == Ok(s)
  {
    hide Chars, Sextets, CodeOf;
    CharsOfSextets(s);
    assert |Sextets(s)| % 24 == 0;
    assert PadTo24(Sextets(s)) == Sextets(s);
  }
}

/** Percent-encoding (RFC 3986, section 2.1) on byte strings. A string holds UTF-8 bytes, one
    character per byte. */
module PercentCode {
  import opened Wrappers

  predicate IsBytes(s: string)
  {
    forall i :: 0 <= i < |s| ==> s[i] as int < 256
  }

  function HexChar(n: nat): char
    requires n < 16
  {
    if n < 10 then '0' + n as char else 'A' + (n - 10) as char
  }

  function HexValue(c: char): (v: Option<nat>)
    ensures v.Some? ==> v.value < 16
  {
    if '0' <= c <= '9' then Some(c as int - '0' as int)
    else if 'a' <= c <= 'f' then Some(c as int - 'a' as int + 10)
    else if 'A' <= c <= 'F' then Some(c as int - 'A' as int + 10)
    else None
  }

  /** `%` and two hex digits at the front of s */
  predicate StartsWithEscape(s: string)
  {
    |s| >= 3 && s[0] == '%' && HexValue(s[1]).Some? && HexValue(s[2]).Some?
  }

  predicate HasEscape(s: string)
  {
    |s| > 0 && (StartsWithEscape(s) || HasEscape(s[1..]))
  }

  function EscapedByte(s: string): char
    requires StartsWithEscape(s)
  {
    (16 * HexValue(s[1]).value + HexValue(s[2]).value) as char
  }

  function Decode(s: string): string
  {
    if |s| == 0 then []
    else if StartsWithEscape(s) then [EscapedByte(s)] + Decode(s[3..])
    else [s[0]] + Decode(s[1..])
  }

  function Escape(c: char): (s: string)
    ensures |s| == 3
  {
    ['%', HexChar(c as int / 16 % 16), HexChar(c as int % 16)]
  }

  lemma EscapeDecodes(c: char, rest: string)
    requires c as int < 256
    ensures StartsWithEscape(Escape(c) + rest) && EscapedByte(Escape(c) + rest) == c
    ensures Decode(Escape(c) + rest) == [c] + Decode(rest)
  {
    assert (Escape(c) + rest)[3..] == rest;
  }

  // ---------- The path percent-encode set ----------

  /** C0 controls, non-ASCII bytes and the characters that the URL Standard escapes in paths */
  predicate InPathSet(c: char)
  {
    c as int < 32 || c as int > 126 || c in {' ', '"', '#', '<', '>', '?', '^', '`', '{', '}'}
  }

  function EncodePath(s: string): string
  {
    if |s| == 0 then []
    else (if InPathSet(s[0]) then Escape(s[0]) else [s[0]]) + EncodePath(s[1..])
  }

  lemma {:induction false} EncodePathAppend(a: string, b: string)
    requires IsBytes(a) && IsBytes(b)
    ensures IsBytes(a + b) && EncodePath(a + b) == EncodePath(a) + EncodePath(b)
  {
    if |a| == 0 {
      assert a + b == b;
    } else {
      EncodePathAppend(a[1..], b);
      assert (a + b)[1..] == a[1..] + b;
      assert (a + b)[0] == a[0];
    }
  }

  lemma FirstEncoded(s: string)
    requires IsBytes(s)
    ensures |s| == 0 <==> |EncodePath(s)| == 0
    ensures |s| > 0 ==> EncodePath(s)[0] == if InPathSet(s[0]) then '%' else s[0]
    ensures |s| > 0 && !InPathSet(s[0]) ==> EncodePath(s)[1..] == EncodePath(s[1..])
  {
  }

  lemma HexDigitsAreKept(c: char)
    requires HexValue(c).Some?
    ensures !InPathSet(c) && c != '%'
  {
  }

  /** An escape at the front of an encoded path was already there before encoding. */
  lemma FrontEscape(s: string)
    requires IsBytes(s) && |s| > 0 && !InPathSet(s[0])
    ensures var e := EncodePath(s);
            && (StartsWithEscape(e) <==> StartsWithEscape(s))
            && (StartsWithEscape(s) ==> EscapedByte(e) == EscapedByte(s) && e[3..] == EncodePath(s[3..]))
  {
    hide EncodePath, InPathSet, HexValue;
    var e, rest := EncodePath(s), s[1..];
    FirstEncoded(s);
    FirstEncoded(rest);
    if |rest| > 0 {
      assert e[1] == EncodePath(rest)[0];
      var more := rest[1..];
      FirstEncoded(more);
      if StartsWithEscape(s) {
        HexDigitsAreKept(s[1]);
        HexDigitsAreKept(s[2]);
      }
      if StartsWithEscape(e) {
        HexDigitsAreKept(e[1]);
        HexDigitsAreKept(e[2]);
        assert !InPathSet(rest[0]);
      }
      if !InPathSet(rest[0]) {
        assert e[2..] == EncodePath(more);
        if |more| > 0 && !InPathSet(more[0]) {
          assert e[3..] == EncodePath(more[1..]);
          assert more[1..] == s[3..];
        }
      }
    }
  }

  lemma {:induction false} DecodeOfEncodeLength(s: string)
    requires IsBytes(s)
    ensures |Decode(EncodePath(s))| <= |s|
    ensures HasEscape(s) ==> |Decode(EncodePath(s))| < |s|
    decreases |s|
  {
    if |s| != 0 {
      var e := EncodePath(s);
      DecodeOfEncodeLength(s[1..]);
      if InPathSet(s[0]) {
        EscapeDecodes(s[0], EncodePath(s[1..]));
      } else {
        FrontEscape(s);
        if StartsWithEscape(s) {
          assert e[3..] == EncodePath(s[3..]);
          DecodeOfEncodeLength(s[3..]);
        } else {
          assert e[1..] == EncodePath(s[1..]);
        }
      }
    }
  }

  lemma {:induction false} DecodeOfEncode(s: string)
    requires IsBytes(s) && !HasEscape(s)
    ensures Decode(EncodePath(s)) == s
    decreases |s|
  {
    if |s| != 0 {
      DecodeOfEncode(s[1..]);
      if InPathSet(s[0]) {
        EscapeDecodes(s[0], EncodePath(s[1..]));
      } else {
        FrontEscape(s);
        assert EncodePath(s)[1..] == EncodePath(s[1..]);
      }
    }
  }

  /** The encoder leaves a literal `%` alone, so decoding undoes it exactly when the path holds
      no `%` followed by two hex digits. */
  lemma DecodeUndoesEncodeIff(s: string)
    requires IsBytes(s)
    ensures Decode(EncodePath(s)) == s <==> !HasEscape(s)
  {
    DecodeOfEncodeLength(s);
    if !HasEscape(s) {
      DecodeOfEncode(s);
    }
  }

  // ---------- application/x-www-form-urlencoded ----------

  predicate IsFormSafe(c: char)
  {
    '0' <= c <= '9' || 'a' <= c <= 'z' || 'A' <= c <= 'Z' || c in {'*', '-', '.', '_'}
  }

  function FormEncode(s: string): string
  {
    if |s| == 0 then []
    else (if IsFormSafe(s[0]) then [s[0]] else if s[0] == ' ' then "+" else Escape(s[0])) + FormEncode(s[1..])
  }

  function PlusToSpace(s: string): (t: string)
    ensures |t| == |s|
  {
    seq(|s|, i requires 0 <= i < |s| => if s[i] == '+' then ' ' else s[i])
  }

  function FormDecode(s: string): string
  {
    Decode(PlusToSpace(s))
  }

  lemma PlusToSpaceAppend(a: string, b: string)
    ensures PlusToSpace(a + b) == PlusToSpace(a) + PlusToSpace(b)
  {
  }

  /** Form encoding escapes `%` as well, so it is undone for every string. */
  lemma {:induction false} FormRoundTrip(s: string)
    requires IsBytes(s)
    ensures FormDecode(FormEncode(s)) == s
    ensures forall i :: 0 <= i < |FormEncode(s)| ==> FormEncode(s)[i] !in {'&', '=', '#', '?', '/'}
    decreases |s|
  {
    if |s| != 0 {
      var c, rest := s[0], FormEncode(s[1..]);
      FormRoundTrip(s[1..]);
      var code := if IsFormSafe(c) then [c] else if c == ' ' then "+" else Escape(c);
      PlusToSpaceAppend(code, rest);
      if IsFormSafe(c) || c == ' ' {
        assert PlusToSpace(code) == [c];
        assert ([c] + PlusToSpace(rest))[1..] == PlusToSpace(rest);
      } else {
        assert PlusToSpace(code) == Escape(c);
        EscapeDecodes(c, PlusToSpace(rest));
      }
      assert [c] + s[1..] == s;
    }
  }
}

/** Decoding the percent escapes of a path without changing which directories it traverses. */
module PathEscapes {
  import opened PercentCode

  /** A borrowed result is the unchanged input. */
  datatype Cow = Borrowed | Owned(value: string)

  predicate IsSeparator(c: char)
  {
    c == '/' || c == '\\'
  }

  /** Every escape decoded except those of separators */
  function DecodeEscapes(s: string): string
  {
    if |s| == 0 then []
    else if StartsWithEscape(s) && !IsSeparator(EscapedByte(s)) then [EscapedByte(s)] + DecodeEscapes(s[3..])
    else [s[0]] + DecodeEscapes(s[1..])
  }

  lemma {:induction false} NothingToDecode(s: string)
    requires '%' !in s
    ensures DecodeEscapes(s) == s
  {
    if |s| != 0 {
      NothingToDecode(s[1..]);
    }
  }

  lemma EscapeFits(s: string)
    ensures StartsWithEscape(s) ==> |s| >= 3
  {
  }

  lemma DecodeStep(input: string, index: nat)
    requires index < |input|
    ensures var rest := input[index..];
            DecodeEscapes(rest) ==
            if StartsWithEscape(rest) && !(EscapedByte(rest) == '/' || EscapedByte(rest) == '\\') then
              [EscapedByte(rest)] + DecodeEscapes(input[index + 3..])
            else [input[index]] + DecodeEscapes(input[index + 1..])
  {
    hide HexValue, EscapedByte;
    var rest := input[index..];
    assert rest[1..] == input[index + 1..];
    assert |rest| >= 3 ==> rest[3..] == input[index + 3..];
  }

  /** Owned exactly when decoding changes the input and yields valid UTF-8 */
  method DecodePathEscapes(input: string, utf8: string -> bool) returns (r: Cow)
    ensures r == if DecodeEscapes(input) != input && utf8(DecodeEscapes(input)) then Owned(DecodeEscapes(input))
        else Borrowed
  {
    hide HexValue, EscapedByte, StartsWithEscape, DecodeEscapes;
    if '%' !in input {
      NothingToDecode(input);
      return Borrowed;
    }
    var decoded, index := "", 0;
    assert input[0..] == input;
    while index < |input|
      invariant 0 <= index <= |input|
      invariant DecodeEscapes(input) == decoded + DecodeEscapes(input[index..])
    {
      var rest := input[index..];
      DecodeStep(input, index);
      EscapeFits(rest);
      if StartsWithEscape(rest) {
        var byte := EscapedByte(rest);
        if byte != '/' && byte != '\\' {
          decoded := decoded + [byte];
          index := index + 3;
          continue;
        }
      }
      decoded := decoded + [input[index]];
      index := index + 1;
    }
    NothingToDecode("");
    assert decoded + [] == decoded;
    if decoded == input {
      return Borrowed;
    }
    return if utf8(decoded) then Owned(decoded) else Borrowed;
  }

  // ---------- Components ----------

  /** The components of a path, split at both separators */
  function Components(s: string): (parts: seq<string>)
    ensures |parts| >= 1
  {
    if |s| == 0 then [""]
    else
      var rest := Components(s[1..]);
      if IsSeparator(s[0]) then [""] + rest else [[s[0]] + rest[0]] + rest[1..]
  }

  function Separators(s: string): string
  {
    if |s| == 0 then []
    else (if IsSeparator(s[0]) then [s[0]] else []) + Separators(s[1..])
  }

  function DecodeEach(parts: seq<string>): seq<string>
  {
    seq(|parts|, i requires 0 <= i < |parts| => DecodeEscapes(parts[i]))
  }

  predicate NoSeparator(s: string)
  {
    forall i :: 0 <= i < |s| ==> !IsSeparator(s[i])
  }

  lemma {:induction false} DecodedComponent(s: string)
    requires NoSeparator(s)
    ensures NoSeparator(DecodeEscapes(s))
    decreases |s|
  {
    if |s| != 0 {
      if StartsWithEscape(s) && !IsSeparator(EscapedByte(s)) {
        DecodedComponent(s[3..]);
      } else {
        DecodedComponent(s[1..]);
      }
    }
  }

  lemma EscapeBefore(a: string, sep: char, b: string)
    requires IsSeparator(sep) && |a| > 0
    ensures var s := a + [sep] + b;
            && (StartsWithEscape(s) <==> StartsWithEscape(a))
            && (StartsWithEscape(a) ==> EscapedByte(s) == EscapedByte(a))
  {
  }

  /** No escape reaches across a separator. */
  lemma {:induction false} DecodeAcross(a: string, sep: char, b: string)
    requires IsSeparator(sep)
    ensures DecodeEscapes(a + [sep] + b) == DecodeEscapes(a) + [sep] + DecodeEscapes(b)
    decreases |a|
  {
    var s := a + [sep] + b;
    if |a| == 0 {
      assert s[1..] == b;
    } else {
      hide HexValue;
      EscapeBefore(a, sep, b);
      if StartsWithEscape(a) && !IsSeparator(EscapedByte(a)) {
        assert s[3..] == a[3..] + [sep] + b;
        DecodeAcross(a[3..], sep, b);
      } else {
        assert s[1..] == a[1..] + [sep] + b;
        DecodeAcross(a[1..], sep, b);
      }
    }
  }

  lemma {:induction false} ComponentsOf(a: string)
    requires NoSeparator(a)
    ensures Components(a) == [a] && Separators(a) == []
  {
    if |a| != 0 {
      ComponentsOf(a[1..]);
      assert [a[0]] + a[1..] == a;
    }
  }

  lemma {:induction false} ComponentsAcross(a: string, sep: char, b: string)
    requires NoSeparator(a) && IsSeparator(sep)
    ensures Components(a + [sep] + b) == [a] + Components(b)
    ensures Separators(a + [sep] + b) == [sep] + Separators(b)
    decreases |a|
  {
    var s := a + [sep] + b;
    if |a| == 0 {
      assert s[1..] == b;
    } else {
      assert s[1..] == a[1..] + [sep] + b;
      ComponentsAcross(a[1..], sep, b);
      assert [a[0]] + a[1..] == a;
    }
  }

  lemma {:induction false} FirstSeparator(s: string) returns (a: string, sep: char, b: string)
    requires !NoSeparator(s)
    ensures s == a + [sep] + b && NoSeparator(a) && IsSeparator(sep)
  {
    if IsSeparator(s[0]) {
      a, sep, b := "", s[0], s[1..];
    } else {
      a, sep, b := FirstSeparator(s[1..]);
      a := [s[0]] + a;
    }
  }

  /** Decoding a path is decoding each of its components: the separators stay, in number and order. */
  lemma {:induction false} DecodingKeepsStructure(s: string)
    ensures Components(DecodeEscapes(s)) == DecodeEach(Components(s))
    ensures Separators(DecodeEscapes(s)) == Separators(s)
    decreases |s|
  {
    hide DecodeEscapes, Components, Separators;
    if NoSeparator(s) {
      DecodedComponent(s);
      ComponentsOf(s);
      ComponentsOf(DecodeEscapes(s));
    } else {
      var a, sep, b := FirstSeparator(s);
      DecodedComponent(a);
      DecodeAcross(a, sep, b);
      ComponentsAcross(a, sep, b);
      ComponentsAcross(DecodeEscapes(a), sep, DecodeEscapes(b));
      DecodingKeepsStructure(b);
    }
  }

  function DecodeTimes(s: string, n: nat): string
    decreases n
  {
    if n == 0 then s else DecodeTimes(DecodeEscapes(s), n - 1)
  }

  /** The structure survives any number of decodings. */
  lemma {:induction false} RepeatedDecodingKeepsStructure(s: string, n: nat)
    ensures Separators(DecodeTimes(s, n)) == Separators(s)
    ensures |Components(DecodeTimes(s, n))| == |Components(s)|
    ensures forall i :: 0 <= i < |Components(s)| ==>
              Components(DecodeTimes(s, n))[i] == DecodeTimes(Components(s)[i], n)
    decreases n
  {
    if n != 0 {
      DecodingKeepsStructure(s);
      RepeatedDecodingKeepsStructure(DecodeEscapes(s), n - 1);
    }
  }
}

/** The lines of the list of duplicate magnets, and the string operations with which they are read back. */
module MagnetText {
  import opened Wrappers
  import opened Decimals

  // ---------- Python's string operations ----------

  /** `str.isspace` for one character */
  predicate IsSpace(c: char)
  {
    || '\t' <= c <= '\r' || '\U{1C}' <= c <= ' ' || c == '\U{85}' || c == '\U{A0}' || c == '\U{1680}'
    || '\U{2000}' <= c <= '\U{200A}' || c == '\U{2028}' || c == '\U{2029}' || c == '\U{202F}' || c == '\U{205F}'
    || c == '\U{3000}'
  }

  function LStrip(s: string): string
  {
    if |s| > 0 && IsSpace(s[0]) then LStrip(s[1..]) else s
  }

  function RStrip(s: string): string
  {
    if |s| > 0 && IsSpace(s[|s| - 1]) then RStrip(s[..|s| - 1]) else s
  }

  function Strip(s: string): string { RStrip(LStrip(s)) }

  /** The characters up to the first white space */
  function Word(s: string): string
  {
    if |s| > 0 && !IsSpace(s[0]) then [s[0]] + Word(s[1..]) else ""
  }

  /** `s.split()[0]` */
  function FirstWord(s: string): Option<string>
  {
    var t := LStrip(s);
    if |t| == 0 then None else Some(Word(t))
  }

  function Find(s: string, sub: string): Option<nat>
  {
    if sub <= s then Some(0)
    else if |s| == 0 then None
    else match Find(s[1..], sub) case None => None case Some(i) => Some(i + 1)
  }

  lemma {:induction false} FindBounds(s: string, sub: string)
    ensures Find(s, sub).Some? ==> Find(s, sub).value + |sub| <= |s|
  {
    if !(sub <= s) && |s| > 0 {
      FindBounds(s[1..], sub);
    }
  }

  /** `s.split(sub)[1]` */
  function SecondPiece(s: string, sub: string): Option<string>
  {
    match Find(s, sub)
    case None => None
    case Some(i) =>
      FindBounds(s, sub);
      var rest := s[i + |sub|..];
      match Find(rest, sub)
      case None => Some(rest)
      case Some(j) => FindBounds(rest, sub); Some(rest[..j])
  }

  function StripRight(s: string, c: char): string
  {
    if |s| > 0 && s[|s| - 1] == c then StripRight(s[..|s| - 1], c) else s
  }

  /** The digits of `int(s)`, between which single underscores are allowed */
  function Digits(s: string): (digits: Option<string>)
    ensures digits.Some? ==> AllDigits(digits.value)
  {
    if |s| == 0 || !IsDigit(s[0]) then None
    else if |s| == 1 then Some(s)
    else
      match Digits(if s[1] == '_' then s[2..] else s[1..])
      case None => None
      case Some(rest) => Some([s[0]] + rest)
  }

  /** `int(s)` for a string of ASCII characters without white space */
  function ParseInt(s: string): Option<int>
  {
    var signed := |s| > 0 && (s[0] == '+' || s[0] == '-');
    match Digits(if signed then s[1..] else s)
    case None => None
    case Some(digits) =>
      var value: int := DigitsValue(digits);
      Some(if signed && s[0] == '-' then -value else value)
  }

  /** Digits with single underscores between them */
  predicate IsSpacedDigits(s: string)
  {
    && |s| > 0 && s[0] != '_' && s[|s| - 1] != '_'
    && (forall i :: 0 <= i < |s| ==> '0' <= s[i] <= '9' || s[i] == '_')
    && forall i :: 0 < i < |s| ==> s[i - 1] != '_' || s[i] != '_'
  }

  function WithoutUnderscores(s: string): string
  {
    if |s| == 0 then "" else (if s[0] == '_' then "" else [s[0]]) + WithoutUnderscores(s[1..])
  }

  /** Both directions of reading digits */
  lemma {:induction false} DigitsIff(s: string)
    ensures Digits(s).Some? <==> IsSpacedDigits(s)
    ensures Digits(s).Some? ==> Digits(s).value == WithoutUnderscores(s)
    decreases |s|
  {
    if |s| >= 2 && IsDigit(s[0]) {
      var rest := if s[1] == '_' then s[2..] else s[1..];
      var n := |s| - |rest|;
      DigitsIff(rest);
      assert forall i :: 0 <= i < |rest| ==> rest[i] == s[i + n];
      assert s[1..][1..] == s[2..];
      if IsSpacedDigits(s) {
        assert s[1] == '_' ==> s[2] != '_';
        assert IsSpacedDigits(rest);
      }
      if IsSpacedDigits(rest) {
        SpacedFront(s, rest, n);
      }
      assert WithoutUnderscores(s) == [s[0]] + WithoutUnderscores(rest);
    } else if |s| == 1 {
      assert s[1..] == "";
      assert IsDigit(s[0]) ==> WithoutUnderscores(s) == s;
    }
  }

  lemma SpacedFront(s: string, rest: string, n: nat)
    requires |s| >= 2 && IsDigit(s[0]) && n in {1, 2} && |s| == |rest| + n && IsSpacedDigits(rest)
    requires (s[1] == '_' <==> n == 2) && forall i :: 0 <= i < |rest| ==> rest[i] == s[i + n]
    ensures IsSpacedDigits(s)
  {
    assert s[n] == rest[0] && s[|s| - 1] == rest[|rest| - 1];
    forall i | 0 < i < |s|
      ensures s[i - 1] != '_' || s[i] != '_'
      ensures '0' <= s[i] <= '9' || s[i] == '_'
    {
      assert i >= n ==> s[i] == rest[i - n];
      assert i > n ==> s[i - 1] == rest[i - n - 1];
    }
  }

  /** A number is read exactly from spaced digits with at most one sign, and a minus negates it. */
  lemma ParseIntIff(s: string, value: int)
    ensures ParseInt(s) == Some(value) <==>
            var signed := |s| > 0 && s[0] in {'+', '-'};
            var digits := if signed then s[1..] else s;
            && IsSpacedDigits(digits) && AllDigits(WithoutUnderscores(digits))
            && value == (if |s| > 0 && s[0] == '-' then -1 else 1) * DigitsValue(WithoutUnderscores(digits))
  {
    hide IsSpacedDigits, Digits, DigitsValue, WithoutUnderscores;
    var digits := if |s| > 0 && s[0] in {'+', '-'} then s[1..] else s;
    DigitsIff(digits);
  }

  /** The white space of `str.isspace`, character by character */
  lemma SpacesAre(c: char)
    ensures IsSpace(c) <==>
            || c in {' ', '\t', '\n', '\U{B}', '\U{C}', '\r', '\U{1C}', '\U{1D}', '\U{1E}', '\U{1F}', '\U{85}'}
            || c in {'\U{A0}', '\U{1680}', '\U{2028}', '\U{2029}', '\U{202F}', '\U{205F}', '\U{3000}'}
            || c in {'\U{2000}', '\U{2001}', '\U{2002}', '\U{2003}', '\U{2004}', '\U{2005}', '\U{2006}', '\U{2007}',
                     '\U{2008}', '\U{2009}', '\U{200A}'}
  {
  }

  /** What stripping leaves is what is between the white space. */
  lemma {:induction false} LStripSpec(s: string)
    ensures var t := LStrip(s);
            |t| <= |s| && t == s[|s| - |t|..] && (|t| > 0 ==> !IsSpace(t[0]))
            && forall i :: 0 <= i < |s| - |t| ==> IsSpace(s[i])
  {
    hide IsSpace;
    if |s| > 0 && IsSpace(s[0]) {
      LStripSpec(s[1..]);
      assert forall i :: 0 < i < |s| ==> s[i] == s[1..][i - 1];
    }
  }

  lemma {:induction false} RStripSpec(s: string)
    ensures var t := RStrip(s);
            t <= s && (|t| > 0 ==> !IsSpace(t[|t| - 1])) && forall i :: |t| <= i < |s| ==> IsSpace(s[i])
  {
    hide IsSpace;
    if |s| > 0 && IsSpace(s[|s| - 1]) {
      RStripSpec(s[..|s| - 1]);
    }
  }

  // ---------- The lines ----------

  /** The first line of the list: any text that is read back as neither a header nor an entry */
  type Introduction = s: string | '\n' !in s && !("## " <= s) && !("-" <= s)

  const UNLABELED := "(unlabeled)"
  const REPOSITORY := "https://github.com/zed-industries/zed"
  const ISSUES := "/issues/"

  function IssueUrl(number: nat): string
  {
    REPOSITORY + ISSUES + ToDecimal(number)
  }

  function Header(area: string): string { "## " + area }

  /** `f"{count:2d}"` */
  function Padded(count: nat): string
  {
    var digits := ToDecimal(count);
    if |digits| < 2 then " " + digits else digits
  }

  function Entry(count: nat, url: string): string
  {
    "-   [" + Padded(count) + " dupes] " + url
  }

  /** The count and the number of an entry, unless an index or a conversion fails */
  function ParseEntry(line: string): Option<(int, int)>
  {
    match SecondPiece(line, "[")
    case None => None
    case Some(counted) =>
      match FirstWord(counted)
      case None => None
      case Some(count) =>
        match SecondPiece(line, ISSUES)
        case None => None
        case Some(numbered) =>
          match FirstWord(numbered)
          case None => None
          case Some(number) =>
            match (ParseInt(count), ParseInt(StripRight(number, ')')))
            case (Some(c), Some(n)) => Some((c, n))
            case _ => None
  }

  // ---------- Reading an entry back ----------

  lemma {:induction false} DigitsOf(s: string)
    requires |s| >= 1 && AllDigits(s)
    ensures Digits(s) == Some(s)
  {
    if |s| > 1 {
      DigitsOf(s[1..]);
      assert [s[0]] + s[1..] == s;
    }
  }

  lemma ParseIntOfDecimal(n: nat)
    ensures ParseInt(ToDecimal(n)) == Some(n)
  {
    hide Digits, DigitsValue, ToDecimal;
    var s := ToDecimal(n);
    assert IsDigit(s[0]);
    DigitsOf(s);
    ValueOfDecimal(n);
  }

  lemma {:induction false} WordOf(word: string, rest: string)
    requires forall c :: c in word ==> !IsSpace(c)
    requires |rest| == 0 || IsSpace(rest[0])
    ensures Word(word + rest) == word
  {
    var s := word + rest;
    if |word| > 0 {
      assert s[0] == word[0];
      assert s[1..] == word[1..] + rest;
      WordOf(word[1..], rest);
    } else {
      assert s == rest;
    }
  }

  lemma FirstWordOf(word: string, rest: string)
    requires |word| > 0 && forall c :: c in word ==> !IsSpace(c)
    requires |rest| == 0 || IsSpace(rest[0])
    ensures FirstWord(word + rest) == FirstWord(" " + (word + rest)) == Some(word)
  {
    var s := word + rest;
    assert s[0] == word[0];
    assert (" " + s)[1..] == s;
    WordOf(word, rest);
  }

  lemma DigitsAreNoSpace(s: string)
    requires AllDigits(s)
    ensures forall c :: c in s ==> !IsSpace(c) && c != '/' && c != '[' && c != ')' && c != '\n'
  {
  }

  /** A text is found first where none of it began before. */
  lemma {:induction false} FindAfter(before: string, sub: string, rest: string)
    requires |sub| > 0
    requires forall i :: 0 <= i < |before| ==> !(sub <= (before + sub + rest)[i..])
    ensures Find(before + sub + rest, sub) == Some(|before|)
  {
    var s := before + sub + rest;
    if |before| == 0 {
      assert s == sub + rest;
    } else {
      assert s[0..] == s;
      assert s[1..] == before[1..] + sub + rest;
      forall i | 0 <= i < |before| - 1
        ensures !(sub <= s[1..][i..])
      {
        assert s[1..][i..] == s[i + 1..];
      }
      FindAfter(before[1..], sub, rest);
    }
  }

  /** The second piece ends where the text occurs again. */
  lemma PieceBetween(a: string, sub: string, b: string, c: string)
    requires |sub| > 0
    requires forall i :: 0 <= i < |a| ==> !(sub <= (a + sub + (b + sub + c))[i..])
    requires forall i :: 0 <= i < |b| ==> !(sub <= (b + sub + c)[i..])
    ensures SecondPiece(a + sub + (b + sub + c), sub) == Some(b)
  {
    hide Find;
    var rest := b + sub + c;
    FindAfter(a, sub, rest);
    FindAfter(b, sub, c);
    assert (a + sub + rest)[|a| + |sub|..] == rest && rest[..|b|] == b;
  }

  lemma {:induction false} NotFound(s: string, sub: string)
    requires |sub| > 0 && sub[0] !in s
    ensures Find(s, sub) == None
  {
    if |s| > 0 {
      assert s[0] in s;
      NotFound(s[1..], sub);
    }
  }

  lemma CountPiece(count: nat, url: string)
    requires '[' !in url
    ensures SecondPiece(Entry(count, url), "[") == Some(Padded(count) + " dupes] " + url)
  {
    var line := Entry(count, url);
    var before, rest := "-   ", Padded(count) + " dupes] " + url;
    assert line == before + "[" + rest;
    forall i | 0 <= i < |before|
      ensures !("[" <= line[i..])
    {
      assert line[i..][0] == before[i];
    }
    FindAfter(before, "[", rest);
    DigitsAreNoSpace(ToDecimal(count));
    NotFound(rest, "[");
    assert line[|before| + 1..] == rest;
  }

  /** No slash of the address before the number is followed by an i. */
  lemma IssuesBegins(i: nat)
    requires i < |REPOSITORY| && REPOSITORY[i] == '/'
    ensures i + 1 < |REPOSITORY| && REPOSITORY[i + 1] != 'i'
  {
    assert |REPOSITORY| == 37;
    assert i == 6 || i == 7 || i == 18 || i == 33;
  }

  lemma NumberPiece(head: string, number: nat)
    requires '/' !in head
    ensures SecondPiece(head + IssueUrl(number), ISSUES) == Some(ToDecimal(number))
  {
    hide ToDecimal;
    var before, rest := head + REPOSITORY, ToDecimal(number);
    var line := head + IssueUrl(number);
    assert line == before + ISSUES + rest;
    forall i | 0 <= i < |before|
      ensures !(ISSUES <= line[i..])
    {
      assert line[i..][0] == before[i] && ISSUES[0] == '/' && ISSUES[1] == 'i';
      if i < |head| {
        assert line[i..][0] == head[i];
      } else if before[i] == '/' {
        IssuesBegins(i - |head|);
        assert line[i..][1] == REPOSITORY[i - |head| + 1];
      }
    }
    FindAfter(before, ISSUES, rest);
    DigitsAreNoSpace(rest);
    NotFound(rest, ISSUES);
    assert line[|before| + |ISSUES|..] == rest;
  }

  lemma UrlHasNoBracket(number: nat)
    ensures '[' !in IssueUrl(number) && '\n' !in IssueUrl(number)
  {
    hide IsSpace, ToDecimal;
    DigitsAreNoSpace(ToDecimal(number));
    RepositoryCharacters();
    assert forall c :: c in ISSUES ==> c != '[' && c != '\n';
  }

  lemma RepositoryCharacters()
    ensures forall c :: c in REPOSITORY ==> c != '[' && c != '\n'
  {
  }

  lemma CountComesBack(count: nat, rest: string)
    requires |rest| > 0 && IsSpace(rest[0])
    ensures FirstWord(Padded(count) + rest) == Some(ToDecimal(count))
  {
    hide FirstWord, IsSpace;
    hide ToDecimal;
    var digits := ToDecimal(count);
    DigitsAreNoSpace(digits);
    FirstWordOf(digits, rest);
    if |digits| < 2 {
      assert Padded(count) + rest == " " + (digits + rest);
    } else {
      assert Padded(count) + rest == digits + rest;
    }
  }

  lemma NumberComesBack(number: nat)
    ensures FirstWord(ToDecimal(number)) == Some(ToDecimal(number))
    ensures StripRight(ToDecimal(number), ')') == ToDecimal(number)
  {
    hide FirstWord, IsSpace;
    var digits := ToDecimal(number);
    DigitsAreNoSpace(digits);
    FirstWordOf(digits, "");
    assert digits + "" == digits;
  }

  /** An entry that was written is read back with its count and number. */
  lemma EntryRoundTrip(count: nat, number: nat)
    ensures ParseEntry(Entry(count, IssueUrl(number))) == Some((count, number))
  {
    hide FirstWord, SecondPiece, StripRight, ParseInt, ToDecimal, IssueUrl, IsSpace;
    var url := IssueUrl(number);
    var rest := " dupes] " + url;
    UrlHasNoBracket(number);
    CountPiece(count, url);
    assert Padded(count) + " dupes] " + url == Padded(count) + rest;
    assert IsSpace(rest[0]) by { SpaceIsSpace(); }
    CountComesBack(count, rest);
    var head := "-   [" + Padded(count) + " dupes] ";
    assert '/' !in head by {
      DigitsAreNoSpace(ToDecimal(count));
    }
    assert Entry(count, url) == head + url;
    NumberPiece(head, number);
    NumberComesBack(number);
    ParseIntOfDecimal(count);
    ParseIntOfDecimal(number);
  }

  lemma SpaceIsSpace()
    ensures IsSpace(' ')
  {
  }
}

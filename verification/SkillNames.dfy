/** Skill names: the slugifier and the validator that must accept what it produces. */
module SkillNames {
  import opened Wrappers
  import opened Strings

  const MAX_LENGTH := 64

  predicate IsLower(c: char) { 'a' <= c <= 'z' }

  predicate IsAlphanumeric(c: char) { IsLower(c) || 'A' <= c <= 'Z' || '0' <= c <= '9' }

  function ToLower(c: char): char
  {
    if 'A' <= c <= 'Z' then c + 32 as char else c
  }

  // ---------- The validator ----------

  datatype NameError = Empty | TooLong | EdgeHyphen | BadCharacter

  predicate IsNameChar(c: char) { IsLower(c) || '0' <= c <= '9' || c == '-' }

  function ValidateName(name: string): Option<NameError>
  {
    if |name| == 0 then Some(Empty)
    else if |name| > MAX_LENGTH then Some(TooLong)
    else if name[0] == '-' || name[|name| - 1] == '-' then Some(EdgeHyphen)
    else if !(forall i :: 0 <= i < |name| ==> IsNameChar(name[i])) then Some(BadCharacter)
    else None
  }

  // ---------- The slugifier ----------

  /** `replace('&', "-and-")` */
  function ReplaceAmpersands(s: string): string
  {
    if |s| == 0 then [] else (if s[0] == '&' then "-and-" else [s[0]]) + ReplaceAmpersands(s[1..])
  }

  /** The slug character for an input character; most punctuation has none. */
  function Mapped(c: char): Option<char>
  {
    if IsAlphanumeric(c) then Some(ToLower(c)) else if c == ' ' || c == '-' then Some('-') else None
  }

  /** The mapped characters with runs of dashes collapsed */
  function Scan(s: string, lastWasDash: bool): string
  {
    if |s| == 0 then []
    else
      match Mapped(s[0])
      case None => Scan(s[1..], lastWasDash)
      case Some(c) =>
        if c == '-' && lastWasDash then Scan(s[1..], true) else [c] + Scan(s[1..], c == '-')
  }

  function TrimDash(s: string): string
  {
    if |s| > 0 && s[|s| - 1] == '-' then s[..|s| - 1] else s
  }

  function TrimDashes(s: string): string
  {
    if |s| > 0 && s[|s| - 1] == '-' then TrimDashes(s[..|s| - 1]) else s
  }

  function Slug(input: string): string
  {
    var slug := TrimDash(Scan(ReplaceAmpersands(input), true));
    if |slug| > MAX_LENGTH then TrimDashes(slug[..MAX_LENGTH]) else slug
  }

  function Slugify(input: string): Option<string>
  {
    if |Slug(input)| == 0 then None else Some(Slug(input))
  }

  method SlugifySkillName(input: string) returns (r: Option<string>)
    ensures r == Slugify(input)
  {
    var replaced := ReplaceAmpersands(input);
    var slug, lastWasDash, i := "", true, 0;
    assert replaced[0..] == replaced;
    while i < |replaced|
      invariant 0 <= i <= |replaced|
      invariant Scan(replaced, true) == slug + Scan(replaced[i..], lastWasDash)
    {
      assert replaced[i..][0] == replaced[i] && replaced[i..][1..] == replaced[i + 1..];
      var mapped := Mapped(replaced[i]);
      i := i + 1;
      if mapped.None? {
        continue;
      }
      var c := mapped.value;
      if c == '-' {
        if lastWasDash {
          continue;
        }
        lastWasDash := true;
      } else {
        lastWasDash := false;
      }
      slug := slug + [c];
    }
    assert slug + [] == slug;
    if |slug| > 0 && slug[|slug| - 1] == '-' {
      slug := slug[..|slug| - 1];
    }
    if |slug| > MAX_LENGTH {
      slug := slug[..MAX_LENGTH];
      ghost var truncated := slug;
      while |slug| > 0 && slug[|slug| - 1] == '-'
        invariant TrimDashes(slug) == TrimDashes(truncated)
      {
        slug := slug[..|slug| - 1];
      }
    }
    return if |slug| == 0 then None else Some(slug);
  }

  // ---------- What a slug looks like ----------

  /** Name characters without two dashes in a row */
  predicate IsCollapsed(s: string)
  {
    && (forall i :: 0 <= i < |s| ==> IsNameChar(s[i]))
    && (forall i :: 0 <= i < |s| - 1 ==> s[i] != '-' || s[i + 1] != '-')
  }

  lemma {:induction false} ScanCollapses(s: string, lastWasDash: bool)
    ensures IsCollapsed(Scan(s, lastWasDash))
    ensures lastWasDash && |Scan(s, lastWasDash)| > 0 ==> Scan(s, lastWasDash)[0] != '-'
    decreases |s|
  {
    if |s| != 0 {
      ScanCollapses(s[1..], true);
      ScanCollapses(s[1..], false);
      ScanCollapses(s[1..], lastWasDash);
    }
  }

  lemma {:induction false} TrimDashesIsPrefix(s: string)
    ensures TrimDashes(s) <= s
    ensures |TrimDashes(s)| > 0 ==> TrimDashes(s)[|TrimDashes(s)| - 1] != '-'
    ensures |s| > 0 && s[0] != '-' ==> |TrimDashes(s)| > 0
    decreases |s|
  {
    if |s| > 0 && s[|s| - 1] == '-' {
      TrimDashesIsPrefix(s[..|s| - 1]);
    }
  }

  lemma PrefixOfCollapsed(s: string, n: nat)
    requires IsCollapsed(s) && n <= |s|
    ensures IsCollapsed(s[..n])
  {
  }

  lemma SlugShape(input: string)
    ensures var slug := Slug(input);
            && IsCollapsed(slug) && |slug| <= MAX_LENGTH
            && (|slug| > 0 ==> slug[0] != '-' && slug[|slug| - 1] != '-')
            && (|slug| > 0 <==> |Scan(ReplaceAmpersands(input), true)| > 0)
  {
    hide Scan, ReplaceAmpersands, IsCollapsed;
    var scanned := Scan(ReplaceAmpersands(input), true);
    ScanCollapses(ReplaceAmpersands(input), true);
    TrimmedOnce(scanned);
    var slug := TrimDash(scanned);
    if |slug| > MAX_LENGTH {
      PrefixOfCollapsed(slug, MAX_LENGTH);
      TrimDashesIsPrefix(slug[..MAX_LENGTH]);
      PrefixOfCollapsed(slug[..MAX_LENGTH], |TrimDashes(slug[..MAX_LENGTH])|);
      assert slug[..MAX_LENGTH][..|TrimDashes(slug[..MAX_LENGTH])|] == TrimDashes(slug[..MAX_LENGTH]);
    }
  }

  lemma TrimmedOnce(s: string)
    requires IsCollapsed(s) && (|s| > 0 ==> s[0] != '-')
    ensures var t := TrimDash(s);
            && IsCollapsed(t) && (|t| > 0 <==> |s| > 0)
            && (|t| > 0 ==> t[0] != '-' && t[|t| - 1] != '-')
  {
  }

  /** A slug passes the validator. */
  lemma SlugIsValidName(input: string)
    requires Slugify(input).Some?
    ensures ValidateName(Slugify(input).value) == None
  {
    hide Slug;
    SlugShape(input);
  }

  lemma {:induction false} ScanKeepsCollapsed(s: string, lastWasDash: bool)
    requires IsCollapsed(s) && (lastWasDash && |s| > 0 ==> s[0] != '-')
    ensures Scan(s, lastWasDash) == s
    decreases |s|
  {
    if |s| != 0 {
      assert IsNameChar(s[0]) && ToLower(s[0]) == s[0];
      assert forall i :: 0 <= i < |s[1..]| ==> s[1..][i] == s[i + 1];
      ScanKeepsCollapsed(s[1..], s[0] == '-');
      assert [s[0]] + s[1..] == s;
    }
  }

  lemma {:induction false} NoAmpersands(s: string)
    requires '&' !in s
    ensures ReplaceAmpersands(s) == s
  {
    if |s| != 0 {
      NoAmpersands(s[1..]);
    }
  }

  /** Valid names without double dashes are fixed points, in particular every slug. */
  lemma CollapsedNameIsFixed(name: string)
    requires ValidateName(name) == None && IsCollapsed(name)
    ensures Slugify(name) == Some(name)
  {
    NoAmpersands(name);
    ScanKeepsCollapsed(name, true);
  }

  lemma SlugifyIsIdempotent(input: string)
    requires Slugify(input).Some?
    ensures Slugify(Slugify(input).value) == Slugify(input)
  {
    hide Slug, ValidateName, IsCollapsed;
    SlugShape(input);
    SlugIsValidName(input);
    CollapsedNameIsFixed(Slugify(input).value);
  }

  /** A valid name with a double dash is no fixed point, so names and slugs differ exactly there. */
  lemma FixedPointIff(name: string)
    requires ValidateName(name) == None
    ensures Slugify(name) == Some(name) <==> IsCollapsed(name)
  {
    hide Slug, IsCollapsed, ValidateName;
    SlugShape(name);
    if IsCollapsed(name) {
      CollapsedNameIsFixed(name);
    }
  }

  predicate HasWordCharacter(s: string)
  {
    exists i :: 0 <= i < |s| && (IsAlphanumeric(s[i]) || s[i] == '&')
  }

  lemma ScanOfAnd(rest: string)
    ensures |Scan("-and-" + rest, true)| > 0
  {
    var t := "-and-" + rest;
    assert t[0] == '-' && t[1..][0] == 'a';
    assert Scan(t, true) == Scan(t[1..], true);
  }

  lemma ScanOfCons(c: char, rest: string)
    ensures Scan([c] + rest, true) ==
            match Mapped(c)
            case None => Scan(rest, true)
            case Some(m) => if m == '-' then Scan(rest, true) else [m] + Scan(rest, false)
  {
    assert ([c] + rest)[1..] == rest;
  }

  lemma {:induction false} ScanNonempty(s: string)
    ensures |Scan(ReplaceAmpersands(s), true)| > 0 <==> HasWordCharacter(s)
    decreases |s|
  {
    hide HasWordCharacter, Scan;
    if |s| == 0 {
      NoWordCharacters();
    } else {
      ScanNonempty(s[1..]);
      WordCharacterSplit(s);
      var rest := ReplaceAmpersands(s[1..]);
      if s[0] == '&' {
        ScanOfAnd(rest);
      } else {
        ScanOfCons(s[0], rest);
      }
    }
  }

  lemma NoWordCharacters()
    ensures Scan("", true) == "" && !HasWordCharacter("")
  {
  }

  lemma WordCharacterSplit(s: string)
    requires |s| > 0
    ensures HasWordCharacter(s) <==> IsAlphanumeric(s[0]) || s[0] == '&' || HasWordCharacter(s[1..])
  {
    assert forall i :: 0 <= i < |s[1..]| ==> s[1..][i] == s[i + 1];
    if HasWordCharacter(s) {
      var i :| 0 <= i < |s| && (IsAlphanumeric(s[i]) || s[i] == '&');
      assert i > 0 ==> s[1..][i - 1] == s[i];
    }
  }

  /** There is a slug exactly when the input has an ASCII letter, a digit or an ampersand. */
  lemma SlugExistsIff(input: string)
    ensures Slugify(input).Some? <==> HasWordCharacter(input)
  {
    hide Slug;
    SlugShape(input);
    ScanNonempty(input);
  }

  // ---------- The slug by words ----------

  /** The input with a space around and between its words; an ampersand is the word `and`. */
  function Spaced(s: string): string
  {
    if |s| == 0 then ""
    else (if s[0] == '-' then " " else if s[0] == '&' then " and " else [s[0]]) + Spaced(s[1..])
  }

  /** The ASCII letters and digits of a word, in lower case */
  function Kept(word: string): string
  {
    if |word| == 0 then ""
    else
      var c := word[0];
      (if 'a' <= c <= 'z' || '0' <= c <= '9' then [c]
       else if 'A' <= c <= 'Z' then ['a' + (c - 'A')]
       else "") + Kept(word[1..])
  }

  /** What is kept of each word, where anything is */
  function SlugWords(words: seq<string>): seq<string>
  {
    if |words| == 0 then []
    else (if Kept(words[0]) == "" then [] else [Kept(words[0])]) + SlugWords(words[1..])
  }

  function Joined(words: seq<string>): string
  {
    Join(SlugWords(words), '-')
  }

  function ByWords(input: string): string
  {
    Joined(Split(Spaced(input), ' '))
  }

  /** Some word characters with further words behind them */
  function Followed(word: string, more: string): string
  {
    word + if more == "" then "" else "-" + more
  }

  lemma {:induction false} KeptCharacters(word: string)
    ensures forall i :: 0 <= i < |Kept(word)| ==> Kept(word)[i] != '-'
  {
    if |word| > 0 {
      KeptCharacters(word[1..]);
    }
  }

  lemma JoinedStep(word: string, rest: seq<string>)
    ensures Joined([word] + rest) == if Kept(word) == "" then Joined(rest) else Followed(Kept(word), Joined(rest))
    ensures Joined([]) == ""
  {
    hide Kept, SlugWords;
    WordsStart(rest);
    SlugWordsStep(word, rest);
    var first, more := Kept(word), SlugWords(rest);
    if first == "" {
      assert [] + more == more;
    } else if |more| == 0 {
      assert [first] + more == [first];
    } else {
      assert ([first] + more)[1..] == more;
      assert first + ['-'] + Join(more, '-') == first + ("-" + Join(more, '-'));
    }
  }

  lemma SlugWordsStep(word: string, rest: seq<string>)
    ensures SlugWords([word] + rest) == (if Kept(word) == "" then [] else [Kept(word)]) + SlugWords(rest)
    ensures SlugWords([]) == []
  {
    assert ([word] + rest)[1..] == rest;
  }

  lemma {:induction false} WordsStart(words: seq<string>)
    ensures |SlugWords(words)| > 0 <==> Joined(words) != ""
    ensures Joined(words) != "" ==> Joined(words)[0] != '-'
  {
    if |words| > 0 {
      KeptCharacters(words[0]);
      WordsStart(words[1..]);
    }
  }

  lemma SplitStep(c: char, rest: string)
    ensures Split([c] + rest, ' ') ==
            if c == ' ' then [""] + Split(rest, ' ')
            else [[c] + Split(rest, ' ')[0]] + Split(rest, ' ')[1..]
  {
    assert ([c] + rest)[1..] == rest;
  }

  lemma SpacedStep(s: string)
    requires |s| > 0
    ensures var words, rest := Split(Spaced(s), ' '), Split(Spaced(s[1..]), ' ');
            words == if s[0] == ' ' || s[0] == '-' then [""] + rest
                     else if s[0] == '&' then ["", "and"] + rest
                     else [[s[0]] + rest[0]] + rest[1..]
  {
    var t := Spaced(s[1..]);
    if s[0] == '&' {
      assert Spaced(s) == " and " + t;
      AndSplits(t);
    } else {
      assert Spaced(s) == [if s[0] == '-' then ' ' else s[0]] + t;
      SplitStep(if s[0] == '-' then ' ' else s[0], t);
    }
  }

  lemma AndSplits(t: string)
    ensures Split(" and " + t, ' ') == ["", "and"] + Split(t, ' ')
  {
    hide Split;
    assert " and " + t == "" + [' '] + ("and" + [' '] + t);
    SplitAtFirst("", ' ', "and" + [' '] + t);
    SplitAtFirst("and", ' ', t);
    assert [""] + (["and"] + Split(t, ' ')) == ["", "and"] + Split(t, ' ');
  }

  lemma ScanStep(c: char, rest: string, lastWasDash: bool)
    ensures Scan([c] + rest, lastWasDash) ==
            if c == ' ' || c == '-' then (if lastWasDash then "" else "-") + Scan(rest, true)
            else if Kept([c]) == "" then Scan(rest, lastWasDash)
            else Kept([c]) + Scan(rest, false)
  {
    var s := [c] + rest;
    assert s[1..] == rest && [c][1..] == "";
    assert Kept([c]) == if IsAlphanumeric(c) then [ToLower(c)] else "";
  }

  lemma ScanAnd(rest: string, lastWasDash: bool)
    ensures Scan("-and-" + rest, lastWasDash) == (if lastWasDash then "" else "-") + ("and-" + Scan(rest, true))
  {
    hide Scan, Kept;
    assert "-and-" + rest == ['-'] + (['a'] + (['n'] + (['d'] + (['-'] + rest))));
    KeptAnd();
    ScanStep('-', ['a'] + (['n'] + (['d'] + (['-'] + rest))), lastWasDash);
    ScanStep('a', ['n'] + (['d'] + (['-'] + rest)), true);
    ScanStep('n', ['d'] + (['-'] + rest), false);
    ScanStep('d', ['-'] + rest, false);
    ScanStep('-', rest, false);
    assert "a" + ("n" + ("d" + ("-" + Scan(rest, true)))) == "and-" + Scan(rest, true);
  }

  lemma KeptAnd()
    ensures Kept("a") == "a" && Kept("n") == "n" && Kept("d") == "d" && Kept("and") == "and" && Kept("") == ""
  {
    assert "and"[1..] == "nd" && "nd"[1..] == "d" && "d"[1..] == "" && "a"[1..] == "" && "n"[1..] == "";
    assert Kept("d") == "d" && Kept("nd") == "nd";
  }

  lemma TrimAfter(a: string, b: string)
    requires |b| > 0 && b != "-"
    ensures TrimDash(a + b) == a + TrimDash(b) && |TrimDash(b)| > 0
  {
    var s := a + b;
    assert s[|s| - 1] == b[|b| - 1];
    assert s[..|s| - 1] == a + b[..|b| - 1];
  }

  /** Both states of the scanner: between two words, and inside one */
  lemma {:induction false} ScanIsWords(s: string)
    ensures var words := Split(Spaced(s), ' ');
            && TrimDash(Scan(ReplaceAmpersands(s), true)) == Joined(words)
            && TrimDash(Scan(ReplaceAmpersands(s), false)) == Followed(Kept(words[0]), Joined(words[1..]))
    decreases |s|
  {
    hide Scan, Split, TrimDash, Joined, Kept, Followed, Spaced;
    if |s| == 0 {
      NothingToScan();
    } else {
      ScanIsWords(s[1..]);
      SpacedStep(s);
      var c, rest, words := s[0], ReplaceAmpersands(s[1..]), Split(Spaced(s[1..]), ' ');
      var scanned := Scan(rest, true);
      ScanCollapses(rest, true);
      if c == ' ' || c == '-' {
        ScanStep(c, rest, true);
        ScanStep(c, rest, false);
        assert ReplaceAmpersands(s) == [c] + rest && "" + scanned == scanned;
        Separated(words, scanned);
      } else if c == '&' {
        assert ReplaceAmpersands(s) == "-and-" + rest;
        ScanAnd(rest, true);
        ScanAnd(rest, false);
        AndWord(words, scanned);
        assert "" + ("and-" + scanned) == "and-" + scanned;
      } else {
        assert ReplaceAmpersands(s) == [c] + rest;
        ScanStep(c, rest, true);
        ScanStep(c, rest, false);
        assert [words[0]] + words[1..] == words;
        InsideWord(c, words[0], words[1..], rest);
        assert Kept([c]) == "" ==> "" + Scan(rest, false) == Scan(rest, false);
      }
    }
  }

  lemma NothingToScan()
    ensures TrimDash(Scan(ReplaceAmpersands(""), true)) == "" == Joined(Split(Spaced(""), ' '))
    ensures Split(Spaced(""), ' ') == [""] && TrimDash(Scan(ReplaceAmpersands(""), false)) == ""
    ensures Followed(Kept(""), Joined([])) == "" && [""][1..] == []
  {
    assert [""][1..] == [] && SlugWords([""]) == [];
  }

  lemma TrimEnds(s: string)
    requires |s| > 0 ==> s[0] != '-'
    ensures TrimDash("-" + s) == Followed("", TrimDash(s))
    ensures TrimDash("and-" + s) == Followed("and", TrimDash(s))
    ensures TrimDash("-" + ("and-" + s)) == "-" + Followed("and", TrimDash(s))
  {
    if |s| > 0 {
      TrimAfter("-", s);
      TrimAfter("and-", s);
      assert "-" + ("and-" + s) == "-and-" + s;
      TrimAfter("-and-", s);
    }
  }

  lemma Separated(words: seq<string>, scanned: string)
    requires |words| > 0 && TrimDash(scanned) == Joined(words) && (|scanned| > 0 ==> scanned[0] != '-')
    ensures Joined([""] + words) == TrimDash(scanned)
    ensures Followed(Kept(([""] + words)[0]), Joined(([""] + words)[1..])) == TrimDash("-" + scanned)
  {
    hide Joined, TrimDash, Followed;
    TrimEnds(scanned);
    JoinedStep("", words);
    assert ([""] + words)[1..] == words;
  }

  lemma AndWord(words: seq<string>, scanned: string)
    requires |words| > 0 && TrimDash(scanned) == Joined(words) && (|scanned| > 0 ==> scanned[0] != '-')
    ensures var all := ["", "and"] + words;
            && Joined(all) == TrimDash("and-" + scanned)
            && Followed(Kept(all[0]), Joined(all[1..])) == TrimDash("-" + ("and-" + scanned))
  {
    hide Joined, TrimDash, Kept, Followed;
    TrimEnds(scanned);
    KeptAnd();
    var all, one := ["", "and"] + words, ["and"] + words;
    assert all == [""] + one && all[1..] == one;
    JoinedStep("and", words);
    JoinedStep("", one);
    FollowedShape("and", Joined(words));
  }

  lemma FollowedShape(word: string, more: string)
    ensures word != "" ==> Followed("", Followed(word, more)) == "-" + Followed(word, more)
    ensures forall a: string :: Followed(a + word, more) == a + Followed(word, more)
  {
    forall a: string
      ensures Followed(a + word, more) == a + Followed(word, more)
    {
      assert a + (word + ("-" + more)) == (a + word) + ("-" + more);
    }
  }

  lemma KeptCons(c: char, word: string)
    ensures Kept([c] + word) == Kept([c]) + Kept(word)
    ensures |Kept([c])| <= 1 && (|Kept([c])| == 1 ==> Kept([c])[0] != '-')
  {
    assert ([c] + word)[1..] == word && [c][1..] == "";
  }

  lemma InsideWord(c: char, word: string, more: seq<string>, rest: string)
    requires TrimDash(Scan(rest, true)) == Joined([word] + more)
    requires TrimDash(Scan(rest, false)) == Followed(Kept(word), Joined(more))
    ensures var longer := [[c] + word] + more;
            && (Kept([c]) == "" ==> Joined(longer) == TrimDash(Scan(rest, true)))
            && (Kept([c]) != "" ==> Joined(longer) == TrimDash(Kept([c]) + Scan(rest, false)))
            && Followed(Kept(longer[0]), Joined(longer[1..])) == TrimDash(Kept([c]) + Scan(rest, false))
  {
    hide Joined, Scan, Kept, TrimDash, Followed;
    var longer := [[c] + word] + more;
    assert longer[1..] == more;
    KeptCons(c, word);
    JoinedStep(word, more);
    JoinedStep([c] + word, more);
    if Kept([c]) != "" {
      TrimBehind(Kept([c]), Scan(rest, false));
      FollowedShape(Kept(word), Joined(more));
    } else {
      assert Kept([c]) + Kept(word) == Kept(word) && Kept([c]) + Scan(rest, false) == Scan(rest, false);
    }
  }

  lemma TrimBehind(a: string, b: string)
    requires |a| == 1 && a[0] != '-'
    ensures TrimDash(a + b) == a + TrimDash(b)
  {
    var s := a + b;
    if |b| > 0 {
      assert s[|s| - 1] == b[|b| - 1] && s[..|s| - 1] == a + b[..|b| - 1];
    } else {
      assert s == a;
    }
  }

  lemma {:induction false} TrimmedAreDashes(s: string)
    ensures TrimDashes(s) <= s && forall i :: |TrimDashes(s)| <= i < |s| ==> s[i] == '-'
  {
    if |s| > 0 && s[|s| - 1] == '-' {
      TrimmedAreDashes(s[..|s| - 1]);
    }
  }

  /** What a slug is: the words of the input, each reduced to its ASCII letters and digits in lower case, joined
      by dashes; of that text, the longest beginning with at most 64 characters that does not end in a dash. */
  lemma SlugIsWords(input: string)
    ensures var text, slug := ByWords(input), Slug(input);
            && slug <= text && |slug| <= 64 && (|slug| > 0 ==> slug[|slug| - 1] != '-')
            && forall i :: |slug| <= i < |text| && i < 64 ==> text[i] == '-'
  {
    hide Scan, ReplaceAmpersands, IsCollapsed, Joined, Spaced, Split, TrimDash, Kept, Followed, TrimDashes;
    SlugShape(input);
    ScanIsWords(input);
    var text := ByWords(input);
    assert text == TrimDash(Scan(ReplaceAmpersands(input), true));
    if |text| > MAX_LENGTH {
      TrimDashesIsPrefix(text[..MAX_LENGTH]);
      TrimmedAreDashes(text[..MAX_LENGTH]);
    }
  }

  /** The errors of the validator, each exactly */
  lemma ValidateIff(name: string)
    ensures ValidateName(name) == None <==>
            && 1 <= |name| <= 64 && name[0] != '-' && name[|name| - 1] != '-'
            && forall i :: 0 <= i < |name| ==> 'a' <= name[i] <= 'z' || '0' <= name[i] <= '9' || name[i] == '-'
    ensures ValidateName(name) == Some(Empty) <==> name == ""
    ensures ValidateName(name) == Some(TooLong) <==> |name| > 64
    ensures ValidateName(name) == Some(EdgeHyphen) <==>
            1 <= |name| <= 64 && (name[0] == '-' || name[|name| - 1] == '-')
  {
  }
}

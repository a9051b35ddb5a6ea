/** Every spelling of a line range in a fragment: exactly those that the parser of mentions accepts. */
module LineRanges {
  import opened Wrappers
  import opened Strings
  import opened Decimals
  import opened Mention

  // ---------- Numerals ----------

  function Noughts(k: nat): string
  {
    if k == 0 then "" else "0" + Noughts(k - 1)
  }

  /** A numeral of n: a plus sign if there is one, leading zeros, and the digits of n */
  predicate Spells(s: string, plus: bool, zeros: nat, n: nat)
  {
    s == (if plus then "+" else "") + (Noughts(zeros) + ToDecimal(n))
  }

  ghost predicate IsNumeral(s: string, n: nat)
  {
    exists plus: bool, zeros: nat :: Spells(s, plus, zeros, n)
  }

  lemma {:induction false} NoughtsAreDigits(k: nat, s: string)
    requires AllDigits(s)
    ensures AllDigits(Noughts(k) + s) && DigitsValue(Noughts(k) + s) == DigitsValue(s)
  {
    hide DigitsValue, AllDigits;
    if k == 0 {
      assert Noughts(0) + s == s;
    } else {
      NoughtsAreDigits(k - 1, s);
      var t := Noughts(k - 1) + s;
      assert Noughts(k) + s == "0" + t;
      LeadingZero(t);
    }
  }

  lemma {:induction false} LeadingZero(s: string)
    requires AllDigits(s)
    ensures AllDigits("0" + s) && DigitsValue("0" + s) == DigitsValue(s)
  {
    var t := "0" + s;
    assert forall i :: 0 < i < |t| ==> t[i] == s[i - 1];
    if |s| > 0 {
      LeadingZero(s[..|s| - 1]);
      assert t[..|t| - 1] == "0" + s[..|s| - 1];
    } else {
      assert t[..0] == "" && t == ['0' + 0 as char];
      ValueSnoc("", 0);
      assert "" + ['0' + 0 as char] == t;
    }
  }

  /** Digits are leading zeros and the printed value. */
  lemma {:induction false} DigitsSpell(s: string) returns (zeros: nat)
    requires AllDigits(s) && |s| > 0
    ensures s == Noughts(zeros) + ToDecimal(DigitsValue(s))
  {
    hide DigitsValue, ToDecimal;
    var n := |s| - 1;
    var init, d := s[..n], s[n] as int - '0' as int;
    assert s == init + ['0' + d as char];
    ValueSnoc(init, d);
    ZeroSpelled();
    if n == 0 {
      zeros := 0;
      NoDigits();
      assert init == "" && s == Noughts(0) + ['0' + d as char];
    } else {
      zeros := DigitsSpell(init);
      zeros := OneMoreDigit(s, init, d, zeros);
    }
  }

  lemma OneMoreDigit(s: string, init: string, d: nat, k: nat) returns (zeros: nat)
    requires AllDigits(init) && d < 10 && s == init + ['0' + d as char]
    requires init == Noughts(k) + ToDecimal(DigitsValue(init))
    ensures s == Noughts(zeros) + ToDecimal(10 * DigitsValue(init) + d)
  {
    hide DigitsValue, ToDecimal;
    var v := DigitsValue(init);
    ZeroSpelled();
    if v == 0 {
      NoughtsSnoc(k);
      zeros := k + 1;
      assert s == Noughts(zeros) + ToDecimal(d);
    } else {
      zeros := k;
      DecimalSnoc(v, d);
      assert s == Noughts(k) + (ToDecimal(v) + ['0' + d as char]);
    }
  }

  lemma DecimalSnoc(v: nat, d: nat)
    requires v > 0 && d < 10
    ensures ToDecimal(10 * v + d) == ToDecimal(v) + ['0' + d as char]
  {
    assert (10 * v + d) / 10 == v && (10 * v + d) % 10 == d;
  }

  lemma ZeroSpelled()
    ensures ToDecimal(0) == "0"
    ensures forall d: nat :: d < 10 ==> ToDecimal(d) == ['0' + d as char]
  {
  }

  lemma {:induction false} NoughtsSnoc(k: nat)
    ensures Noughts(k + 1) == Noughts(k) + "0"
  {
    if k > 0 {
      NoughtsSnoc(k - 1);
      assert "0" + (Noughts(k - 1) + "0") == ("0" + Noughts(k - 1)) + "0";
    } else {
      assert Noughts(0) == "" && Noughts(1) == "0" + "";
    }
  }

  /** A u32 is parsed from its numerals, and from nothing else. */
  lemma U32NumeralIff(s: string, n: nat)
    ensures ParseU32(s) == Some(n) <==> n < 0x1_0000_0000 && IsNumeral(s, n)
  {
    hide ToDecimal, DigitsValue;
    if ParseU32(s) == Some(n) {
      var plus := |s| > 1 && s[0] == '+';
      var digits := if plus then s[1..] else s;
      var zeros := DigitsSpell(digits);
      assert s == (if plus then "+" else "") + digits;
      assert Spells(s, plus, zeros, n);
    }
    if n < 0x1_0000_0000 && IsNumeral(s, n) {
      var plus: bool, zeros: nat :| Spells(s, plus, zeros, n);
      NoughtsAreDigits(zeros, ToDecimal(n));
      ValueOfDecimal(n);
      var digits := Noughts(zeros) + ToDecimal(n);
      if plus {
        assert s[1..] == digits;
      } else {
        assert s == digits && IsDigit(s[0]);
      }
    }
  }

  lemma NumeralCharacters(s: string, n: nat)
    requires IsNumeral(s, n)
    ensures |s| > 0 && forall i :: 0 <= i < |s| ==> s[i] == '+' || '0' <= s[i] <= '9'
  {
    hide ToDecimal, DigitsValue;
    var plus: bool, zeros: nat :| Spells(s, plus, zeros, n);
    NoughtsAreDigits(zeros, ToDecimal(n));
    var digits := Noughts(zeros) + ToDecimal(n);
    assert forall i :: 0 <= i < |digits| ==> IsDigit(digits[i]);
  }

  // ---------- Line ranges ----------

  /** The ways to write a range of 1-based lines, of which the first two numerals are given */
  predicate SpellsRange(range: string, x: string, y: string)
  {
    range == x + ":" + y || range == x + "-" + y || range == x + "-L" + y
  }

  ghost predicate IsRange(range: string, a: nat, b: nat)
  {
    || (a == b && IsNumeral(range, a + 1))
    || exists x, y :: SpellsRange(range, x, y) && IsNumeral(x, a + 1) && IsNumeral(y, b + 1)
  }

  function Bounds(range: string): (string, string)
  {
    match Cut(range, ':')
    case Some((a, b)) => (a, b)
    case None =>
      match Cut(range, '-')
      case Some((a, b)) => (a, if |b| > 0 && b[0] == 'L' then b[1..] else b)
      case None => (range, range)
  }

  lemma BoundsAreParsed(fragment: string)
    ensures var range := if |fragment| > 0 && fragment[0] == 'L' then fragment[1..] else fragment;
            var (x, y) := Bounds(range);
            ParseLineRange(fragment) ==
              if OneBased(x).Some? && OneBased(y).Some? then Some(Lines(OneBased(x).value, OneBased(y).value)) else None
  {
    hide Cut, OneBased;
    StripL(fragment);
    var range := if |fragment| > 0 && fragment[0] == 'L' then fragment[1..] else fragment;
    match Cut(range, '-') {
      case Some((_, b)) => StripL(b);
      case None =>
    }
  }

  lemma StripL(s: string)
    ensures StripPrefix(s, "L") == if |s| > 0 && s[0] == 'L' then Some(s[1..]) else None
  {
  }

  lemma OneBasedIff(s: string, a: nat)
    ensures OneBased(s) == Some(a) <==> a + 1 < 0x1_0000_0000 && IsNumeral(s, a + 1)
  {
    hide ParseU32, IsNumeral;
    U32NumeralIff(s, a + 1);
  }

  /** Both directions of one spelling */
  lemma {:induction false} CutParts(s: string, sep: char)
    ensures match Cut(s, sep)
            case None => sep !in s
            case Some((a, b)) => s == a + [sep] + b && sep !in a
  {
    if |s| > 0 && s[0] != sep {
      CutParts(s[1..], sep);
    }
  }

  lemma ColonBounds(x: string, y: string, a: nat)
    requires IsNumeral(x, a)
    ensures Bounds(x + ":" + y) == (x, y)
  {
    hide Cut, IsNumeral;
    NumeralCharacters(x, a);
    CutAtFirst(x, ':', y);
  }

  lemma DashBounds(x: string, y: string, a: nat, b: nat)
    requires IsNumeral(x, a) && IsNumeral(y, b)
    ensures Bounds(x + "-" + y) == (x, y) && Bounds(x + "-L" + y) == (x, y)
  {
    hide Cut, IsNumeral;
    NumeralCharacters(x, a);
    NumeralCharacters(y, b);
    CutAtFirst(x, '-', y);
    CutWithout(x + "-" + y, ':');
    assert x + "-L" + y == x + ['-'] + ("L" + y);
    CutAtFirst(x, '-', "L" + y);
    CutWithout(x + "-L" + y, ':');
  }

  lemma SingleBounds(x: string, a: nat)
    requires IsNumeral(x, a)
    ensures Bounds(x) == (x, x)
  {
    hide Cut, IsNumeral;
    NumeralCharacters(x, a);
    CutWithout(x, ':');
    CutWithout(x, '-');
  }

  lemma BoundsSpell(range: string)
    ensures var (x, y) := Bounds(range); SpellsRange(range, x, y) || (x == y == range)
  {
    hide Cut;
    CutParts(range, ':');
    CutParts(range, '-');
    match Cut(range, '-') {
      case Some((a, b)) =>
        if |b| > 0 && b[0] == 'L' {
          assert b == "L" + b[1..];
          assert a + ['-'] + ("L" + b[1..]) == a + "-L" + b[1..];
        }
      case None =>
    }
  }

  lemma RangeIff(range: string, a: nat, b: nat)
    ensures var (x, y) := Bounds(range);
            IsNumeral(x, a + 1) && IsNumeral(y, b + 1) && (a == b || x != y || SpellsRange(range, x, y))
            <==> IsRange(range, a, b)
  {
    hide IsNumeral, Bounds;
    var (x, y) := Bounds(range);
    BoundsSpell(range);
    if IsRange(range, a, b) {
      if a == b && IsNumeral(range, a + 1) {
        SingleBounds(range, a + 1);
      } else {
        var u, v :| SpellsRange(range, u, v) && IsNumeral(u, a + 1) && IsNumeral(v, b + 1);
        ColonBounds(u, v, a + 1);
        DashBounds(u, v, a + 1, b + 1);
      }
    }
  }

  /** A numeral spells one number. */
  lemma NumeralIsUnique(s: string, m: nat, n: nat)
    requires IsNumeral(s, m) && IsNumeral(s, n)
    ensures m == n
  {
    hide ToDecimal, DigitsValue;
    var p: bool, j: nat :| Spells(s, p, j, m);
    var q: bool, k: nat :| Spells(s, q, k, n);
    NoughtsAreDigits(j, ToDecimal(m));
    NoughtsAreDigits(k, ToDecimal(n));
    ValueOfDecimal(m);
    ValueOfDecimal(n);
    var a, b := Noughts(j) + ToDecimal(m), Noughts(k) + ToDecimal(n);
    assert IsDigit(a[0]) && IsDigit(b[0]);
    assert s[0] == (if p then '+' else a[0]) && s[0] == if q then '+' else b[0];
    assert a == if p then s[1..] else s;
    assert b == if q then s[1..] else s;
  }

  /** A fragment is a line range exactly in these spellings: with or without `L`, one numeral for one line, or two
      with a colon, a dash, or a dash and another `L` between them. */
  lemma LineRangeIff(fragment: string, a: nat, b: nat)
    ensures ParseLineRange(fragment) == Some(Lines(a, b)) <==>
            && a + 1 < 0x1_0000_0000 && b + 1 < 0x1_0000_0000
            && IsRange(if |fragment| > 0 && fragment[0] == 'L' then fragment[1..] else fragment, a, b)
  {
    hide IsNumeral, Bounds, ParseLineRange, OneBased;
    var range := if |fragment| > 0 && fragment[0] == 'L' then fragment[1..] else fragment;
    var (x, y) := Bounds(range);
    BoundsAreParsed(fragment);
    OneBasedIff(x, a);
    OneBasedIff(y, b);
    RangeIff(range, a, b);
    BoundsSpell(range);
    if IsNumeral(x, a + 1) && IsNumeral(y, b + 1) && x == y {
      NumeralIsUnique(x, a + 1, b + 1);
    }
  }

  lemma DecimalIsNumeral(n: nat)
    ensures IsNumeral(ToDecimal(n), n)
  {
    hide ToDecimal;
    assert Spells(ToDecimal(n), false, 0, n) by {
      assert Noughts(0) == "" && "" + ("" + ToDecimal(n)) == ToDecimal(n);
    }
  }

  lemma Prefixed(range: string, x: string, a: nat, b: nat)
    requires IsRange(range, a, b) && a + 1 < 0x1_0000_0000 && b + 1 < 0x1_0000_0000
    requires IsNumeral(x, a + 1) && x <= range
    ensures ParseLineRange("L" + range) == ParseLineRange(range) == Some(Lines(a, b))
  {
    hide IsRange, ParseLineRange, IsNumeral;
    LineRangeIff(range, a, b);
    LineRangeIff("L" + range, a, b);
    assert ("L" + range)[1..] == range;
    NumeralCharacters(x, a + 1);
    assert range[0] == x[0];
  }

  /** The spellings that people write, with plain decimals */
  lemma CommonSpellings(a: nat, b: nat)
    requires a + 1 < 0x1_0000_0000 && b + 1 < 0x1_0000_0000
    ensures var x, y := ToDecimal(a + 1), ToDecimal(b + 1);
            && ParseLineRange("L" + (x + ":" + y)) == ParseLineRange(x + ":" + y) == Some(Lines(a, b))
            && ParseLineRange("L" + (x + "-" + y)) == ParseLineRange(x + "-" + y) == Some(Lines(a, b))
            && ParseLineRange("L" + (x + "-L" + y)) == ParseLineRange(x + "-L" + y) == Some(Lines(a, b))
            && ParseLineRange("L" + x) == ParseLineRange(x) == Some(Lines(a, a))
  {
    hide ParseLineRange, ToDecimal, IsNumeral;
    var x, y := ToDecimal(a + 1), ToDecimal(b + 1);
    DecimalIsNumeral(a + 1);
    DecimalIsNumeral(b + 1);
    assert SpellsRange(x + ":" + y, x, y) && SpellsRange(x + "-" + y, x, y) && SpellsRange(x + "-L" + y, x, y);
    Prefixed(x + ":" + y, x, a, b);
    Prefixed(x + "-" + y, x, a, b);
    Prefixed(x + "-L" + y, x, a, b);
    Prefixed(x, x, a, a);
  }
}

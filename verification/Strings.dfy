/** Splitting at a separator and joining with it. */
module Strings {
  import opened Wrappers

  function Split(s: string, sep: char): (parts: seq<string>)
    ensures |parts| >= 1
  {
    if |s| == 0 then [""]
    else
      var rest := Split(s[1..], sep);
      if s[0] == sep then [""] + rest else [[s[0]] + rest[0]] + rest[1..]
  }

  function Join(parts: seq<string>, sep: char): string
  {
    if |parts| == 0 then ""
    else if |parts| == 1 then parts[0]
    else parts[0] + [sep] + Join(parts[1..], sep)
  }

  lemma {:induction false} SplitWithout(s: string, sep: char)
    requires sep !in s
    ensures Split(s, sep) == [s]
  {
    if |s| != 0 {
      SplitWithout(s[1..], sep);
      assert [s[0]] + s[1..] == s;
    }
  }

  lemma {:induction false} SplitAtFirst(s: string, sep: char, rest: string)
    requires sep !in s
    ensures Split(s + [sep] + rest, sep) == [s] + Split(rest, sep)
  {
    var all := s + [sep] + rest;
    if |s| == 0 {
      assert all[1..] == rest;
    } else {
      assert all[1..] == s[1..] + [sep] + rest;
      SplitAtFirst(s[1..], sep, rest);
      assert [s[0]] + s[1..] == s;
    }
  }

  /** Splitting undoes joining for parts without the separator. */
  lemma {:induction false} SplitOfJoin(parts: seq<string>, sep: char)
    requires |parts| >= 1 && forall i :: 0 <= i < |parts| ==> sep !in parts[i]
    ensures Split(Join(parts, sep), sep) == parts
    decreases |parts|
  {
    if |parts| == 1 {
      SplitWithout(parts[0], sep);
    } else {
      SplitOfJoin(parts[1..], sep);
      SplitAtFirst(parts[0], sep, Join(parts[1..], sep));
    }
  }

  lemma {:induction false} SplitOfConcat(a: string, sep: char, b: string)
    ensures Split(a + [sep] + b, sep) == Split(a, sep) + Split(b, sep)
  {
    var all := a + [sep] + b;
    if |a| == 0 {
      assert all[1..] == b;
    } else {
      assert all[1..] == a[1..] + [sep] + b;
      SplitOfConcat(a[1..], sep, b);
    }
  }

  /** What is before and after the first separator */
  function Cut(s: string, sep: char): Option<(string, string)>
  {
    if |s| == 0 then None
    else if s[0] == sep then Some(("", s[1..]))
    else
      match Cut(s[1..], sep)
      case None => None
      case Some((a, b)) => Some(([s[0]] + a, b))
  }

  lemma {:induction false} CutWithout(s: string, sep: char)
    requires sep !in s
    ensures Cut(s, sep) == None
  {
    if |s| != 0 {
      CutWithout(s[1..], sep);
    }
  }

  lemma {:induction false} CutAtFirst(a: string, sep: char, b: string)
    requires sep !in a
    ensures Cut(a + [sep] + b, sep) == Some((a, b))
  {
    var all := a + [sep] + b;
    if |a| == 0 {
      assert all[1..] == b;
    } else {
      assert all[1..] == a[1..] + [sep] + b;
      CutAtFirst(a[1..], sep, b);
      assert [a[0]] + a[1..] == a;
    }
  }

  function StripPrefix(s: string, prefix: string): (r: Option<string>)
    ensures r.Some? <==> prefix <= s
    ensures r.Some? ==> s == prefix + r.value
  {
    if prefix <= s then Some(s[|prefix|..]) else None
  }

  lemma NotAPrefix(prefix: string, s: string, i: nat)
    requires i < |prefix| && (i >= |s| || prefix[i] != s[i])
    ensures !(prefix <= s)
  {
  }
}

/** Finding the end of the YAML frontmatter of a skill file. */
module Frontmatter {
  import opened Wrappers
  import opened Strings

  /** Unicode white space, which `trim_start` removes */
  predicate IsWhitespace(c: char)
  {
    var n := c as int;
    9 <= n <= 13 || n in {32, 0x85, 0xA0, 0x1680, 0x2028, 0x2029, 0x202F, 0x205F, 0x3000} || 0x2000 <= n <= 0x200A
  }

  function TrimStart(s: string): string
  {
    if |s| > 0 && IsWhitespace(s[0]) then TrimStart(s[1..]) else s
  }

  // ---------- Candidates ----------

  /** The end of a closing line that starts at the position, if there is one */
  function CloserAt(s: string, start: nat): Option<nat>
  {
    if start + 3 > |s| then None
    else if s[start..start + 3] != "---" then None
    else
      var after := start + 3;
      if after == |s| then Some(after)
      else if s[after] == '\n' then Some(after + 1)
      else if after + 1 < |s| && s[after] == '\r' && s[after + 1] == '\n' then Some(after + 2)
      else None
  }

  function AsSeq(r: Option<nat>): seq<nat>
  {
    if r.Some? then [r.value] else []
  }

  function CandidatesFrom(s: string, i: nat): seq<nat>
    requires i <= |s|
    decreases |s| - i
  {
    if i == |s| then []
    else (if s[i] == '\n' then AsSeq(CloserAt(s, i + 1)) else []) + CandidatesFrom(s, i + 1)
  }

  lemma CandidatesStep(s: string, done: seq<nat>, i: nat)
    requires i < |s|
    ensures done + CandidatesFrom(s, i) ==
            (if s[i] == '\n' && CloserAt(s, i + 1).Some? then done + [CloserAt(s, i + 1).value] else done)
            + CandidatesFrom(s, i + 1)
  {
    hide CloserAt;
  }

  method FindCandidates(s: string) returns (candidates: seq<nat>)
    ensures candidates == CandidatesFrom(s, 0)
  {
    hide CandidatesFrom;
    candidates := [];
    var i := 0;
    while i < |s|
      invariant 0 <= i <= |s|
      invariant CandidatesFrom(s, 0) == candidates + CandidatesFrom(s, i)
    {
      CandidatesStep(s, candidates, i);
      i := i + 1;
      if s[i - 1] != '\n' {
        continue;
      }
      var lineStart := i;
      if lineStart + 3 > |s| {
        continue;
      }
      if s[lineStart..lineStart + 3] != "---" {
        continue;
      }
      var afterDashes := lineStart + 3;
      var end;
      if afterDashes == |s| {
        end := afterDashes;
      } else if s[afterDashes] == '\n' {
        end := afterDashes + 1;
      } else if afterDashes + 1 < |s| && s[afterDashes] == '\r' && s[afterDashes + 1] == '\n' {
        end := afterDashes + 2;
      } else {
        continue;
      }
      candidates := candidates + [end];
    }
    assert CandidatesFrom(s, |s|) == [] by {
      NoCandidatesAtEnd(s);
    }
    assert candidates + [] == candidates;
  }

  lemma NoCandidatesAtEnd(s: string)
    ensures CandidatesFrom(s, |s|) == []
  {
  }

  // ---------- The same by lines ----------

  /** The end of the first line if it is a closer: `---` before a line feed, with or without a
      carriage return, or at the end of the text */
  function FirstLineCloser(lines: seq<string>, offset: nat): seq<nat>
    requires |lines| >= 1
  {
    if lines[0] == "---" then [offset + if |lines| == 1 then 3 else 4]
    else if lines[0] == "---\r" && |lines| > 1 then [offset + 5]
    else []
  }

  /** The ends of all whole-line closers after the first line, in order */
  function LineClosers(lines: seq<string>, offset: nat): seq<nat>
    requires |lines| >= 1
  {
    if |lines| == 1 then []
    else
      var next := offset + |lines[0]| + 1;
      FirstLineCloser(lines[1..], next) + LineClosers(lines[1..], next)
  }

  function Shift(ns: seq<nat>, k: nat): (shifted: seq<nat>)
    ensures |shifted| == |ns|
  {
    seq(|ns|, i requires 0 <= i < |ns| => ns[i] + k)
  }

  lemma ShiftAppend(a: seq<nat>, b: seq<nat>, k: nat)
    ensures Shift(a + b, k) == Shift(a, k) + Shift(b, k)
  {
  }

  lemma {:induction false} NoNewlineNoCandidate(s: string, i: nat, n: nat)
    requires i <= n <= |s| && forall k :: i <= k < n ==> s[k] != '\n'
    ensures CandidatesFrom(s, i) == CandidatesFrom(s, n)
    decreases n - i
  {
    if i < n {
      NoNewlineNoCandidate(s, i + 1, n);
    }
  }

  lemma CloserShift(a: string, b: string, start: nat)
    ensures AsSeq(CloserAt(a + b, |a| + start)) == Shift(AsSeq(CloserAt(b, start)), |a|)
  {
    var s := a + b;
    if start + 3 <= |b| {
      assert s[|a| + start..|a| + start + 3] == b[start..start + 3];
    }
  }

  lemma {:induction false} CandidatesShift(a: string, b: string, i: nat)
    requires i <= |b|
    ensures CandidatesFrom(a + b, |a| + i) == Shift(CandidatesFrom(b, i), |a|)
    decreases |b| - i
  {
    hide CloserAt, Shift, AsSeq;
    if i < |b| {
      CandidatesShift(a, b, i + 1);
      CloserShift(a, b, i + 1);
      ShiftAppend(if b[i] == '\n' then AsSeq(CloserAt(b, i + 1)) else [], CandidatesFrom(b, i + 1), |a|);
      assert (a + b)[|a| + i] == b[i];
      ShiftNone(|a|);
    } else {
      ShiftNone(|a|);
    }
  }

  lemma ShiftNone(k: nat)
    ensures Shift([], k) == []
  {
  }

  /** A closer at the start of a text is its first line. */
  lemma CloserIsFirstLine(b: string)
    ensures AsSeq(CloserAt(b, 0)) == FirstLineCloser(Split(b, '\n'), 0)
  {
    var lines := Split(b, '\n');
    if '\n' !in b {
      SplitWithout(b, '\n');
      OnlyLineCases(b);
    } else {
      var l, rest := BeforeNewline(b);
      SplitAtFirst(l, '\n', rest);
      assert b[|l|] == '\n' && forall k :: 0 <= k < |l| ==> b[k] == l[k];
      FirstLineCases(b, l);
    }
  }

  lemma OnlyLineCases(b: string)
    requires '\n' !in b
    ensures CloserAt(b, 0) == if b == "---" then Some(3) else None
  {
    assert forall k :: 0 <= k < |b| ==> b[k] != '\n';
    if |b| == 3 {
      assert b[0..3] == b;
    }
  }

  lemma FirstLineCases(b: string, l: string)
    requires |l| < |b| && b[|l|] == '\n' && l == b[..|l|] && '\n' !in l
    ensures CloserAt(b, 0) == if l == "---" then Some(4) else if l == "---\r" then Some(5) else None
  {
    assert forall k :: 0 <= k < |l| ==> l[k] in l;
    if |l| == 3 {
      assert l == b[0..3];
    } else if |l| == 4 {
      assert l == b[0..3] + [b[3]];
      assert "---\r" == "---" + ['\r'];
    } else if |l| < 3 {
      assert |b| >= 3 ==> b[0..3][|l|] == '\n';
    }
  }

  lemma {:induction false} BeforeNewline(s: string) returns (a: string, b: string)
    requires '\n' in s
    ensures s == a + ['\n'] + b && '\n' !in a && a == s[..|a|]
  {
    if s[0] == '\n' {
      a, b := "", s[1..];
    } else {
      a, b := BeforeNewline(s[1..]);
      a := [s[0]] + a;
    }
  }

  lemma FirstLineShift(lines: seq<string>, offset: nat, k: nat)
    requires |lines| >= 1
    ensures FirstLineCloser(lines, offset + k) == Shift(FirstLineCloser(lines, offset), k)
  {
  }

  lemma {:induction false} LineClosersShift(lines: seq<string>, offset: nat, k: nat)
    requires |lines| >= 1
    ensures LineClosers(lines, offset + k) == Shift(LineClosers(lines, offset), k)
    decreases |lines|
  {
    hide FirstLineCloser;
    if |lines| > 1 {
      var next := offset + |lines[0]| + 1;
      LineClosersShift(lines[1..], next, k);
      FirstLineShift(lines[1..], next, k);
      ShiftAppend(FirstLineCloser(lines[1..], next), LineClosers(lines[1..], next), k);
    }
  }

  /** The byte scan finds exactly the ends of the whole-line closers after the first line. */
  lemma {:induction false} CandidatesAreLineClosers(s: string)
    ensures CandidatesFrom(s, 0) == LineClosers(Split(s, '\n'), 0)
    decreases |s|
  {
    hide CloserAt, FirstLineCloser;
    if '\n' !in s {
      SplitWithout(s, '\n');
      NoNewlineNoCandidate(s, 0, |s|);
    } else {
      var a, b := BeforeNewline(s);
      var n := |a| + 1;
      var lines := Split(b, '\n');
      SplitAtFirst(a, '\n', b);
      NoNewlineNoCandidate(s, 0, |a|);
      assert s == (a + ['\n']) + b && s[|a|] == '\n';
      CandidatesShift(a + ['\n'], b, 0);
      CloserShift(a + ['\n'], b, 0);
      CloserIsFirstLine(b);
      CandidatesAreLineClosers(b);
      FirstLineShift(lines, 0, n);
      LineClosersShift(lines, 0, n);
      assert ([a] + lines)[1..] == lines;
    }
  }

  lemma CloserInRange(s: string, start: nat)
    ensures CloserAt(s, start).Some? ==> start + 3 <= CloserAt(s, start).value <= |s|
  {
  }

  lemma {:induction false} CandidatesInRange(s: string, i: nat)
    requires i <= |s|
    ensures forall k :: 0 <= k < |CandidatesFrom(s, i)| ==> i + 4 <= CandidatesFrom(s, i)[k] <= |s|
    decreases |s| - i
  {
    hide CloserAt;
    if i < |s| {
      CloserInRange(s, i + 1);
      CandidatesInRange(s, i + 1);
    }
  }

  // ---------- The first accepted candidate ----------

  /** What the YAML parser makes of a prefix: no document, metadata, or an error */
  datatype Yaml<M> = NoDocument | Parsed(metadata: M) | Rejected(message: string)

  datatype FrontmatterError = MissingOpener | MissingCloser | InvalidYaml(last: Option<string>)

  /** The last error among the candidates */
  function LastRejection<M>(s: string, ends: seq<nat>, yaml: string -> Yaml<M>): Option<string>
    requires forall k :: 0 <= k < |ends| ==> ends[k] <= |s|
  {
    if |ends| == 0 then None
    else
      var n := |ends| - 1;
      match yaml(s[..ends[n]])
      case Rejected(message) => Some(message)
      case _ => LastRejection(s, ends[..n], yaml)
  }

  predicate Rejects<M>(s: string, end: nat, yaml: string -> Yaml<M>)
  {
    end <= |s| && yaml(s[..end]).Rejected?
  }

  /** It is the message of the last closer whose prefix is rejected, if any is. */
  lemma {:induction false} LastRejectionSpec<M>(s: string, ends: seq<nat>, yaml: string -> Yaml<M>)
    requires forall k :: 0 <= k < |ends| ==> ends[k] <= |s|
    ensures LastRejection(s, ends, yaml) == None <==> forall k :: 0 <= k < |ends| ==> !Rejects(s, ends[k], yaml)
    ensures forall k :: 0 <= k < |ends| && Rejects(s, ends[k], yaml)
                        && (forall j :: k < j < |ends| ==> !Rejects(s, ends[j], yaml)) ==>
                          LastRejection(s, ends, yaml) == Some(yaml(s[..ends[k]]).message)
  {
    if |ends| != 0 {
      var n := |ends| - 1;
      LastRejectionSpec(s, ends[..n], yaml);
      assert forall j :: 0 <= j < n ==> ends[..n][j] == ends[j];
    }
  }

  /** What is trimmed at the start is white space, and nothing of it is left. */
  lemma {:induction false} TrimStartSpec(s: string)
    ensures var t := TrimStart(s);
            && |t| <= |s| && t == s[|s| - |t|..] && (|t| > 0 ==> !IsSpaceCharacter(t[0]))
            && forall i :: 0 <= i < |s| - |t| ==> IsSpaceCharacter(s[i])
  {
    if |s| > 0 && IsWhitespace(s[0]) {
      TrimStartSpec(s[1..]);
      var t := TrimStart(s);
      assert forall i :: 0 < i < |s| - |t| ==> s[i] == s[1..][i - 1];
    }
  }

  /** The characters with the Unicode property White_Space */
  predicate IsSpaceCharacter(c: char)
  {
    || c in {' ', '\t', '\n', '\U{B}', '\U{C}', '\r', '\U{85}', '\U{A0}', '\U{1680}', '\U{2028}', '\U{2029}', 
             '\U{202F}', '\U{205F}', '\U{3000}'}
    || c in {'\U{2000}', '\U{2001}', '\U{2002}', '\U{2003}', '\U{2004}', '\U{2005}', '\U{2006}', '\U{2007}',
             '\U{2008}', '\U{2009}', '\U{200A}'}
  }

  predicate Accepts<M>(s: string, end: nat, yaml: string -> Yaml<M>)
  {
    end <= |s| && yaml(s[..end]).Parsed?
  }

  /** The k-th closer is the first whose prefix parses. */
  ghost predicate IsFirstAccepted<M>(s: string, ends: seq<nat>, k: nat, yaml: string -> Yaml<M>)
  {
    && k < |ends| && Accepts(s, ends[k], yaml)
    && forall j :: 0 <= j < k ==> !Accepts(s, ends[j], yaml)
  }

  /** The body follows the k-th closer, and the prefix parsed to the metadata. */
  ghost predicate IsResult<M>(s: string, ends: seq<nat>, k: nat, yaml: string -> Yaml<M>, metadata: M, body: string)
  {
    IsFirstAccepted(s, ends, k, yaml) && s == s[..ends[k]] + body && yaml(s[..ends[k]]) == Parsed(metadata)
  }

  ghost predicate NoneAccepted<M>(s: string, ends: seq<nat>, yaml: string -> Yaml<M>)
  {
    forall k :: 0 <= k < |ends| ==> ends[k] <= |s| && !Accepts(s, ends[k], yaml)
  }

  /** The metadata and the body after the first accepted closer: the accepted prefix and the body are
      the whole trimmed content. The errors say which step failed. */
  method ExtractFrontmatter<M>(content: string, yaml: string -> Yaml<M>)
    returns (r: Result<(M, string), FrontmatterError>)
    ensures var s := TrimStart(content);
            var ends := LineClosers(Split(s, '\n'), 0);
            match r
            case Ok((metadata, body)) => "---" <= s && (exists k: nat :: IsResult(s, ends, k, yaml, metadata, body))
            case Err(MissingOpener) => !("---" <= s)
            case Err(MissingCloser) => "---" <= s && ends == []
            case Err(InvalidYaml(last)) =>
              "---" <= s && ends != [] && NoneAccepted(s, ends, yaml) && last == LastRejection(s, ends, yaml)
  {
    hide LineClosers, Split, TrimStart, CandidatesFrom;
    var s := TrimStart(content);
    CandidatesAreLineClosers(s);
    CandidatesInRange(s, 0);
    if !("---" <= s) {
      return Err(MissingOpener);
    }
    var candidates := FindCandidates(s);
    if |candidates| == 0 {
      return Err(MissingCloser);
    }
    var lastError: Option<string> := None;
    var k := 0;
    while k < |candidates|
      invariant 0 <= k <= |candidates|
      invariant forall j :: 0 <= j < k ==> !Accepts(s, candidates[j], yaml)
      invariant lastError == LastRejection(s, candidates[..k], yaml)
    {
      assert candidates[..k + 1][..k] == candidates[..k];
      var end := candidates[k];
      match yaml(s[..end]) {
        case NoDocument =>
        case Parsed(metadata) =>
          assert IsResult(s, candidates, k, yaml, metadata, s[end..]);
          return Ok((metadata, s[end..]));
        case Rejected(message) => lastError := Some(message);
      }
      k := k + 1;
    }
    assert candidates[..k] == candidates;
    return Err(InvalidYaml(lastError));
  }
}

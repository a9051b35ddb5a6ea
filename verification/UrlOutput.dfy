/** What the path setter can output: no character that it escapes, and no dot segment. */
module UrlOutput {
  import opened Strings
  import opened PercentCode
  import opened UrlModel

  predicate IsDot(s: string) { IsSingleDot(s) || IsDoubleDot(s) }

  /** A segment as it can stand in a path */
  predicate IsOutput(segment: string)
  {
    '/' !in segment && !IsDot(segment) && forall i :: 0 <= i < |segment| ==> !InPathSet(segment[i])
  }

  lemma EscapeIsClean(c: char)
    ensures forall i :: 0 <= i < |Escape(c)| ==> !InPathSet(Escape(c)[i]) && Escape(c)[i] !in {'/', '\\'}
  {
  }

  lemma {:induction false} EncodedIsClean(s: string)
    ensures forall i :: 0 <= i < |EncodePath(s)| ==> !InPathSet(EncodePath(s)[i])
    ensures '/' !in s ==> '/' !in EncodePath(s)
    ensures '\\' !in s ==> '\\' !in EncodePath(s)
  {
    hide InPathSet, Escape;
    if |s| > 0 {
      EscapeIsClean(s[0]);
      EncodedIsClean(s[1..]);
    }
  }

  /** No escaped character is a dot. */
  lemma EscapeIsNoDot(c: char)
    requires c as int < 256 && InPathSet(c)
    ensures !IsEncodedDot(Escape(c))
  {
    EscapeDecodes(c, "");
    assert Escape(c) + "" == Escape(c);
  }

  lemma EncodedFront(s: string)
    requires |s| > 0 && InPathSet(s[0])
    ensures |EncodePath(s)| >= 3 && EncodePath(s)[..3] == Escape(s[0])
  {
  }

  lemma DotShape(dot: string)
    requires IsEncodedDot(dot)
    ensures (|dot| == 1 && dot[0] == '.') || (|dot| == 3 && dot[0] == '%' && dot[1] == '2' && dot[2] in {'e', 'E'})
  {
  }

  lemma FrontIsNotEscaped(s: string, dot: string, rest: string)
    requires IsBytes(s) && IsEncodedDot(dot) && EncodePath(s) == dot + rest
    ensures |s| > 0 && !InPathSet(s[0]) && s[0] == dot[0] && EncodePath(s[1..]) == dot[1..] + rest
  {
    hide EncodePath, InPathSet, IsEncodedDot, Escape;
    DotShape(dot);
    FirstEncoded(s);
    assert (dot + rest)[..|dot|] == dot && (dot + rest)[1..] == dot[1..] + rest;
    if InPathSet(s[0]) {
      EscapeIsNoDot(s[0]);
      EncodedFront(s);
    }
  }

  /** A hex digit in an encoded text stands for itself. */
  lemma Peel(s: string, digit: char, e: string)
    requires IsBytes(s) && EncodePath(s) == [digit] + e && digit in {'2', 'e', 'E'}
    ensures |s| > 0 && s[0] == digit && EncodePath(s[1..]) == e
  {
    assert EncodePath(s)[0] == digit && EncodePath(s)[1..] == e;
    FirstEncoded(s);
  }

  /** A dot at the front of an encoded text was already there. */
  lemma FrontDot(s: string, dot: string, rest: string)
    requires IsBytes(s) && IsEncodedDot(dot) && EncodePath(s) == dot + rest
    ensures |dot| <= |s| && s[..|dot|] == dot && EncodePath(s[|dot|..]) == rest
  {
    hide EncodePath, InPathSet, IsEncodedDot;
    DotShape(dot);
    FrontIsNotEscaped(s, dot, rest);
    if |dot| == 1 {
      assert dot[1..] + rest == rest && s[..1] == [s[0]] && dot == [dot[0]];
    } else {
      assert dot[1..] + rest == [dot[1]] + ([dot[2]] + rest);
      Peel(s[1..], dot[1], [dot[2]] + rest);
      assert s[1..][1..] == s[2..];
      Peel(s[2..], dot[2], rest);
      assert s[2..][1..] == s[3..] && s[..3] == [s[0], s[1], s[2]] && dot == [dot[0], dot[1], dot[2]];
    }
  }

  lemma WholeDot(s: string, dot: string)
    requires IsBytes(s) && IsEncodedDot(dot) && EncodePath(s) == dot
    ensures s == dot
  {
    hide EncodePath, IsEncodedDot;
    assert dot == dot + "";
    FrontDot(s, dot, "");
    FirstEncoded(s[|dot|..]);
  }

  lemma DoubleDotBack(s: string)
    requires IsBytes(s) && IsDoubleDot(EncodePath(s))
    ensures IsDoubleDot(s)
  {
    hide EncodePath, IsEncodedDot;
    var e := EncodePath(s);
    var k :| 0 <= k <= |e| && IsEncodedDot(e[..k]) && IsEncodedDot(e[k..]);
    assert e == e[..k] + e[k..];
    FrontDot(s, e[..k], e[k..]);
    WholeDot(s[k..], e[k..]);
  }

  lemma EncodedIsNoDot(s: string)
    requires IsBytes(s) && !IsDot(s)
    ensures !IsDot(EncodePath(s))
  {
    hide EncodePath, IsDoubleDot, IsEncodedDot;
    if IsSingleDot(EncodePath(s)) {
      WholeDot(s, EncodePath(s));
    } else if IsDoubleDot(EncodePath(s)) {
      DoubleDotBack(s);
    }
  }

  ghost predicate AllOutput(segments: seq<string>, file: bool)
  {
    forall i :: 0 <= i < |segments| ==> IsOutput(segments[i]) && (file ==> '\\' !in segments[i])
  }

  lemma DriveIsOutput(c: char)
    requires IsAsciiLetter(c)
    ensures IsOutput([c, ':']) && '\\' !in [c, ':']
  {
  }

  lemma EmptyIsOutput()
    ensures IsOutput("")
  {
  }

  lemma EncodedIsOutput(s: string)
    requires IsBytes(s) && '/' !in s && !IsDot(s)
    ensures IsOutput(EncodePath(s)) && ('\\' !in s ==> '\\' !in EncodePath(s))
  {
    hide EncodePath, InPathSet, IsDot;
    EncodedIsClean(s);
    EncodedIsNoDot(s);
  }

  lemma {:induction false} SegmentsAreOutput(segments: seq<string>, done: seq<string>, file: bool)
    requires AllOutput(done, file)
    requires forall i :: 0 <= i < |segments| ==> IsBytes(segments[i]) && '/' !in segments[i]
    requires file ==> forall i :: 0 <= i < |segments| ==> '\\' !in segments[i]
    ensures AllOutput(NormalSegments(segments, done, file), file)
    ensures |segments| > 0 || |done| > 0 ==> |NormalSegments(segments, done, file)| > 0
    decreases |segments|
  {
    hide IsOutput, IsSingleDot, IsDoubleDot, EncodePath, IsBytes;
    if |segments| != 0 {
      var segment, rest := segments[0], segments[1..];
      EmptyIsOutput();
      if IsDoubleDot(segment) {
        SegmentsAreOutput(rest, Shorten(done, file) + if |rest| == 0 then [""] else [], file);
      } else if IsSingleDot(segment) {
        SegmentsAreOutput(rest, done + if |rest| == 0 then [""] else [], file);
      } else if file && |done| == 0 && IsDrive(segment, '|') {
        DriveIsOutput(segment[0]);
        SegmentsAreOutput(rest, [[segment[0], ':']], file);
      } else {
        EncodedIsOutput(segment);
        SegmentsAreOutput(rest, done + [EncodePath(segment)], file);
      }
    }
  }

  lemma {:induction false} StripKeepsBytes(s: string)
    requires IsBytes(s)
    ensures IsBytes(StripControls(s))
  {
    if |s| > 0 {
      StripKeepsBytes(s[1..]);
    }
  }

  lemma {:induction false} SplitHasNoSeparator(s: string, sep: char)
    ensures forall i :: 0 <= i < |Split(s, sep)| ==> sep !in Split(s, sep)[i]
  {
    if |s| > 0 {
      SplitHasNoSeparator(s[1..], sep);
    }
  }

  lemma {:induction false} TrimmedIsOutput(s: string, file: bool)
    requires AllOutput(Split(s, '/'), file)
    ensures AllOutput(Split(TrimSlashes(s), '/'), file)
    ensures |TrimSlashes(s)| > 0 ==> TrimSlashes(s)[0] != '/'
  {
    hide IsOutput;
    if |s| > 0 && s[0] == '/' {
      var all, rest := Split(s, '/'), Split(s[1..], '/');
      assert forall i :: 0 <= i < |rest| ==> rest[i] == all[i + 1];
      TrimmedIsOutput(s[1..], file);
    }
  }

  /** What the setter does to the text behind a leading slash, before a file URL loses further slashes */
  function NormalBody(body: string, file: bool): string
  {
    Join(NormalSegments(Split(body, '/'), [], file), '/')
  }

  lemma NormalIsOutput(body: string, file: bool)
    requires IsBytes(body) && (file ==> '\\' !in body)
    ensures AllOutput(Split(NormalBody(body, file), '/'), file)
  {
    hide Split, Join, NormalSegments, IsOutput;
    SplitKeepsBytes(body, '/');
    SplitHasNoSeparator(body, '/');
    var parts := Split(body, '/');
    forall i | 0 <= i < |parts| && file
      ensures '\\' !in parts[i]
    {
      PartOf(body, '/', i, '\\');
    }
    SegmentsAreOutput(parts, [], file);
    var segments := NormalSegments(parts, [], file);
    OutputHasNoSlash(segments, file);
    SplitOfJoin(segments, '/');
  }

  lemma {:induction false} PartOf(s: string, sep: char, i: nat, c: char)
    requires i < |Split(s, sep)| && c !in s
    ensures c !in Split(s, sep)[i]
  {
    if |s| > 0 {
      PartOf(s[1..], sep, if i == 0 then 0 else if s[0] == sep then i - 1 else i, c);
    }
  }

  /** The segments of the setter's output are output segments; for a file URL they hold no backslash, and the
      first one is not empty. */
  lemma SetterOutput(p: string, file: bool)
    requires IsBytes(p)
    ensures var path := SetPath(p, file);
            && |path| > 0 && path[0] == '/' && AllOutput(Split(path[1..], '/'), file)
            && (file && |path| > 1 ==> path[1] != '/')
  {
    hide Split, Join, NormalSegments, IsOutput;
    var stripped := StripControls(p);
    StripKeepsBytes(p);
    hide StripControls;
    var slashed := if file then ForwardSlashes(stripped) else stripped;
    var body := if |slashed| > 0 && slashed[0] == '/' then slashed[1..] else slashed;
    assert IsBytes(body);
    NormalIsOutput(body, file);
    var path := "/" + NormalBody(body, file);
    assert path[1..] == NormalBody(body, file);
    if file {
      TrimmedIsOutput(path[1..], file);
    }
    assert SetPath(p, file) == if file then "/" + TrimSlashes(path) else path;
    assert SetPath(p, file)[1..] == if file then TrimSlashes(path) else path[1..];
  }

  lemma OutputHasNoSlash(segments: seq<string>, file: bool)
    requires AllOutput(segments, file)
    ensures forall i :: 0 <= i < |segments| ==> '/' !in segments[i]
  {
  }

  lemma {:induction false} SplitKeepsCharacters(s: string, sep: char, i: nat)
    requires i < |s| && s[i] != sep
    ensures exists j :: 0 <= j < |Split(s, sep)| && s[i] in Split(s, sep)[j]
  {
    var parts, rest := Split(s, sep), Split(s[1..], sep);
    if i == 0 {
      assert parts[0][0] == s[0];
    } else {
      SplitKeepsCharacters(s[1..], sep, i - 1);
      var j :| 0 <= j < |rest| && s[1..][i - 1] in rest[j];
      if s[0] == sep {
        assert parts[j + 1] == rest[j];
      } else if j == 0 {
        assert parts[0] == [s[0]] + rest[0];
      } else {
        assert parts[j] == rest[j];
      }
    }
  }

  lemma SlashIsClean()
    ensures !InPathSet('/')
  {
  }

  lemma OutputIsClean(s: string, file: bool)
    requires AllOutput(Split(s, '/'), file)
    ensures forall i :: 0 <= i < |s| ==> !InPathSet(s[i]) && (file ==> s[i] != '\\')
  {
    hide Split, IsDot, InPathSet;
    forall i | 0 <= i < |s|
      ensures !InPathSet(s[i]) && (file ==> s[i] != '\\')
    {
      if s[i] == '/' {
        SlashIsClean();
      } else {
        SplitKeepsCharacters(s, '/', i);
        var j :| 0 <= j < |Split(s, '/')| && s[i] in Split(s, '/')[j];
        assert IsOutput(Split(s, '/')[j]);
      }
    }
  }

  /** What stands in an output path behind some whole segments is output as well. */
  lemma OutputBehind(segment: string, rest: string, file: bool)
    requires '/' !in segment && AllOutput(Split(segment + ['/'] + rest, '/'), file)
    ensures AllOutput(Split(rest, '/'), file)
  {
    hide Split, IsOutput;
    SplitAtFirst(segment, '/', rest);
    var all := Split(segment + ['/'] + rest, '/');
    forall i | 0 <= i < |Split(rest, '/')|
      ensures IsOutput(Split(rest, '/')[i]) && (file ==> '\\' !in Split(rest, '/')[i])
    {
      assert all[i + 1] == Split(rest, '/')[i];
    }
  }

  lemma OutputHasNoDots(segments: seq<string>, file: bool)
    requires AllOutput(segments, file)
    ensures forall i :: 0 <= i < |segments| ==> !IsSingleDot(segments[i]) && !IsDoubleDot(segments[i])
  {
    hide InPathSet, IsSingleDot, IsDoubleDot;
    assert forall i :: 0 <= i < |segments| ==> IsOutput(segments[i]);
  }

  lemma MarksAreEscaped()
    ensures InPathSet('?') && InPathSet('#')
  {
  }
}

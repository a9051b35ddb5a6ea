/** Which paths survive the path setter of a file URL and percent-decoding: exactly the plain ones. */
module FilePaths {
  import opened Strings
  import opened PercentCode
  import opened UrlModel
  import opened UrlOutput
  import opened WindowsPath
  import opened Mention

  // ---------- Plain paths come back ----------

  lemma {:induction false} EncodedChars(s: string)
    requires IsBytes(s)
    ensures '?' !in EncodePath(s) && '#' !in EncodePath(s)
    ensures |s| > 0 ==> |EncodePath(s)| > 0 && (EncodePath(s)[|EncodePath(s)| - 1] == '/' <==> s[|s| - 1] == '/')
  {
    if |s| != 0 {
      EncodedChars(s[1..]);
      var first := if InPathSet(s[0]) then Escape(s[0]) else [s[0]];
      assert '?' !in first && '#' !in first;
      assert EncodePath(s) == first + EncodePath(s[1..]);
      if |s| == 1 {
        assert EncodePath(s[1..]) == [];
      }
    }
  }

  lemma {:induction false} SlashesKeepEscapes(s: string)
    ensures HasEscape(ForwardSlashes(s)) == HasEscape(s)
    decreases |s|
  {
    if |s| != 0 {
      var t := ForwardSlashes(s);
      SlashesKeepEscapes(s[1..]);
      assert t[1..] == ForwardSlashes(s[1..]);
      assert StartsWithEscape(t) == StartsWithEscape(s);
    }
  }

  /** The path of the file URL behind its leading slash, before percent-encoding */
  function Body(p: string, windows: bool): string
  {
    if windows then ForwardSlashes(p) else if |p| > 0 then p[1..] else ""
  }

  predicate IsNativeWindows(p: string)
  {
    |p| >= 3 && IsUpper(p[0]) && p[1] == ':' && p[2] == '\\' && '/' !in p
  }

  /** A rooted POSIX path without backslashes, or a native Windows path below an upper-case drive */
  predicate IsNativePath(p: string, windows: bool)
  {
    if windows then IsNativeWindows(p) else |p| >= 1 && p[0] == '/' && '\\' !in p
  }

  predicate IsPlainPath(p: string, windows: bool)
  {
    IsNativePath(p, windows) && IsBytes(p) && IsPlain(Body(p, windows), true)
  }

  /** The text behind the leading slash, which the setter adds below a drive */
  predicate IsRootedAt(p: string, q: string)
  {
    p == "/" + q || (p == q && |q| > 0 && IsAsciiLetter(q[0]))
  }

  function Encoded(q: string): string
  {
    TrimSlashes(NormalBody(ForwardSlashes(StripControls(q)), true))
  }

  lemma SetterOf(p: string, q: string)
    requires IsRootedAt(p, q)
    ensures SetPath(p, true) == "/" + Encoded(q)
  {
    hide Split, Join, NormalSegments;
    var body := ForwardSlashes(StripControls(q));
    if p == "/" + q {
      assert p[1..] == q;
      assert ForwardSlashes(StripControls(p)) == "/" + body;
    }
    var path := "/" + NormalBody(body, true);
    assert path[1..] == NormalBody(body, true);
  }

  lemma PlainEncoded(q: string)
    requires IsBytes(q) && IsPlain(ForwardSlashes(q), true)
    ensures Encoded(q) == EncodePath(ForwardSlashes(q))
  {
    hide EncodePath, Split, Join, NormalSegments, TrimSlashes, IsSingleDot, IsDoubleDot, IsDrive;
    var f := ForwardSlashes(q);
    assert IsBytes(f);
    assert forall i :: 0 <= i < |q| ==> f[i] == q[i] || q[i] == '\\';
    NothingStripped(q);
    PlainBody(f, true);
    TrimOnce(EncodePath(f));
  }

  lemma TrimOnce(e: string)
    ensures TrimSlashes("/" + e) == TrimSlashes(e)
  {
    assert ("/" + e)[1..] == e;
  }

  // ---------- Only plain paths come back ----------

  /** How long segments are when they are joined, each with a slash, as they are and after decoding */
  function TextLength(segments: seq<string>): nat
  {
    if |segments| == 0 then 0 else |segments[0]| + 1 + TextLength(segments[1..])
  }

  function DecodedLength(segments: seq<string>): nat
  {
    if |segments| == 0 then 0 else |Decode(segments[0])| + 1 + DecodedLength(segments[1..])
  }

  lemma {:induction false} DecodedLengthOfConcat(a: seq<string>, b: seq<string>)
    ensures DecodedLength(a + b) == DecodedLength(a) + DecodedLength(b)
  {
    hide Decode;
    if |a| == 0 {
      assert a + b == b;
    } else {
      assert (a + b)[1..] == a[1..] + b;
      DecodedLengthOfConcat(a[1..], b);
    }
  }

  lemma DecodedLengthOfLast(segments: seq<string>, last: string)
    ensures DecodedLength(segments + [last]) == DecodedLength(segments) + |Decode(last)| + 1
  {
    hide Decode;
    DecodedLengthOfConcat(segments, [last]);
    assert [last][1..] == [];
  }

  lemma ShorterIsShorter(segments: seq<string>, file: bool)
    ensures DecodedLength(Shorten(segments, file)) <= DecodedLength(segments)
  {
    if |segments| > 0 {
      DecodedLengthOfLast(segments[..|segments| - 1], segments[|segments| - 1]);
      assert segments[..|segments| - 1] + [segments[|segments| - 1]] == segments;
    }
  }

  lemma DotLength(s: string)
    requires IsDot(s)
    ensures |s| >= 1 && (IsDoubleDot(s) ==> |s| >= 2)
  {
  }

  lemma DriveLength(segment: string)
    requires IsDrive(segment, '|')
    ensures DecodedLength([[segment[0], ':']]) == 3 == |segment| + 1
  {
    var drive: string := [segment[0], ':'];
    EmptyLength();
    assert drive[1..][1..] == "" && [drive][1..] == [];
    assert Decode(drive[1..]) == drive[1..];
  }

  /** A dot at the end leaves an empty segment behind. */
  function Tail(rest: seq<string>): seq<string>
  {
    if |rest| == 0 then [""] else []
  }

  lemma TailLength(done: seq<string>, rest: seq<string>)
    ensures DecodedLength(done + Tail(rest)) <= DecodedLength(done) + 1
  {
    if |rest| == 0 {
      DecodedLengthOfLast(done, "");
      assert Decode("") == "";
    } else {
      assert done + [] == done;
    }
  }

  /** Normalising and decoding never makes a path longer, and a dot segment makes it shorter. */
  lemma {:induction false} SegmentsShrink(segments: seq<string>, done: seq<string>)
    requires forall i :: 0 <= i < |segments| ==> IsBytes(segments[i])
    ensures DecodedLength(NormalSegments(segments, done, true)) <= DecodedLength(done) + TextLength(segments)
    ensures (exists i :: 0 <= i < |segments| && IsDot(segments[i])) ==>
              DecodedLength(NormalSegments(segments, done, true)) < DecodedLength(done) + TextLength(segments)
    decreases |segments|
  {
    hide IsSingleDot, IsDoubleDot, EncodePath, IsBytes, Decode, Shorten, DecodedLength;
    if |segments| != 0 {
      var segment, rest := segments[0], segments[1..];
      if IsDoubleDot(segment) {
        DotLength(segment);
        ShorterIsShorter(done, true);
        TailLength(Shorten(done, true), rest);
        SegmentsShrink(rest, Shorten(done, true) + Tail(rest));
      } else if IsSingleDot(segment) {
        DotLength(segment);
        TailLength(done, rest);
        SegmentsShrink(rest, done + Tail(rest));
      } else {
        var next := if |done| == 0 && IsDrive(segment, '|') then [segment[0], ':'] else EncodePath(segment);
        if |done| == 0 && IsDrive(segment, '|') {
          DriveLength(segment);
          assert DecodedLength([]) == 0 by { EmptyLength(); }
          assert done + [next] == [next];
        } else {
          DecodedLengthOfLast(done, next);
          DecodeOfEncodeLength(segment);
        }
        SegmentsShrink(rest, done + [next]);
        assert forall i :: 0 < i < |segments| ==> segments[i] == rest[i - 1];
      }
    }
  }

  lemma EmptyLength()
    ensures DecodedLength([]) == 0
  {
  }

  lemma {:induction false} SplitLength(s: string)
    ensures TextLength(Split(s, '/')) == |s| + 1
  {
    if |s| > 0 {
      SplitLength(s[1..]);
    }
  }

  lemma SlashEndsEscape(a: string, b: string)
    requires |a| > 0
    ensures StartsWithEscape(a + ['/'] + b) <==> StartsWithEscape(a)
    ensures StartsWithEscape(a) ==> EscapedByte(a + ['/'] + b) == EscapedByte(a)
  {
  }

  lemma {:induction false} DecodeAroundSlash(a: string, b: string)
    ensures Decode(a + ['/'] + b) == Decode(a) + ['/'] + Decode(b)
    decreases |a|
  {
    hide StartsWithEscape;
    var s := a + ['/'] + b;
    if |a| == 0 {
      assert s == "/" + b;
      DecodeAfterSlash(b);
    } else {
      SlashEndsEscape(a, b);
      var n := if StartsWithEscape(a) then 3 else 1;
      EscapeLength(a);
      assert s[n..] == a[n..] + ['/'] + b;
      DecodeAroundSlash(a[n..], b);
    }
  }

  lemma EscapeLength(s: string)
    ensures StartsWithEscape(s) ==> |s| >= 3
  {
  }

  lemma DecodeAfterSlash(e: string)
    ensures Decode("/" + e) == "/" + Decode(e)
  {
    assert ("/" + e)[1..] == e;
  }

  lemma {:induction false} JoinLength(segments: seq<string>)
    requires |segments| > 0
    ensures |Decode(Join(segments, '/'))| + 1 == DecodedLength(segments)
  {
    hide Decode;
    if |segments| == 1 {
      EmptyLength();
      assert segments[1..] == [];
    } else {
      DecodeAroundSlash(segments[0], Join(segments[1..], '/'));
      JoinLength(segments[1..]);
    }
  }

  lemma {:induction false} TrimShrinks(s: string)
    ensures |Decode(TrimSlashes(s))| <= |Decode(s)|
    ensures |s| > 0 && s[0] == '/' ==> |Decode(TrimSlashes(s))| < |Decode(s)|
  {
    hide Decode;
    if |s| > 0 && s[0] == '/' {
      DecodeAfterSlash(s[1..]);
      assert "/" + s[1..] == s;
      TrimShrinks(s[1..]);
    }
  }

  lemma {:induction false} StripShrinks(s: string)
    ensures |StripControls(s)| <= |s|
    ensures |StripControls(s)| == |s| ==> StripControls(s) == s && forall i :: 0 <= i < |s| ==> !IsStripped(s[i])
  {
    hide IsStripped;
    if |s| > 0 {
      StripShrinks(s[1..]);
      if |StripControls(s)| == |s| {
        assert forall i :: 0 < i < |s| ==> s[i] == s[1..][i - 1];
      }
    }
  }

  predicate NoDots(segments: seq<string>)
  {
    forall i :: 0 <= i < |segments| ==> !IsDot(segments[i])
  }

  /** The length says that nothing was stripped, no dot segment resolved and no slash trimmed. */
  lemma BodyShrinks(q: string)
    requires IsBytes(q)
    ensures |Decode(Encoded(q))| <= |q|
    ensures |Decode(Encoded(q))| == |q| ==>
              && StripControls(q) == q && (forall i :: 0 <= i < |q| ==> !IsStripped(q[i]))
              && NoDots(Split(ForwardSlashes(q), '/'))
              && var e := NormalBody(ForwardSlashes(q), true); |e| > 0 ==> e[0] != '/'
  {
    hide Split, Join, NormalSegments, Decode, IsDot, TrimSlashes, StripControls, IsBytes;
    var f := ForwardSlashes(StripControls(q));
    StripShrinks(q);
    StripKeepsBytes(q);
    SlashesKeepBytes(StripControls(q));
    SplitKeepsBytes(f, '/');
    SplitLength(f);
    SegmentsShrink(Split(f, '/'), []);
    EmptyLength();
    StaysNonempty(Split(f, '/'), []);
    JoinLength(NormalSegments(Split(f, '/'), [], true));
    TrimShrinks(NormalBody(f, true));
  }

  lemma SlashesKeepBytes(s: string)
    requires IsBytes(s)
    ensures IsBytes(ForwardSlashes(s))
  {
  }

  lemma {:induction false} StaysNonempty(segments: seq<string>, done: seq<string>)
    requires |segments| > 0 || |done| > 0
    ensures |NormalSegments(segments, done, true)| > 0
    decreases |segments|
  {
    hide IsSingleDot, IsDoubleDot, EncodePath;
    if |segments| != 0 {
      var segment, rest := segments[0], segments[1..];
      if IsDoubleDot(segment) {
        StaysNonempty(rest, Shorten(done, true) + Tail(rest));
      } else if IsSingleDot(segment) {
        StaysNonempty(rest, done + Tail(rest));
      } else if |done| == 0 && IsDrive(segment, '|') {
        StaysNonempty(rest, [[segment[0], ':']]);
      } else {
        StaysNonempty(rest, done + [EncodePath(segment)]);
      }
    }
  }

  lemma {:induction false} FirstPart(s: string)
    ensures Split(s, '/')[0] <= s
  {
    if |s| > 0 {
      FirstPart(s[1..]);
    }
  }

  /** A drive written with `|` at the front gets a colon. */
  lemma DriveChanges(f: string)
    requires NoDots(Split(f, '/')) && IsDrive(Split(f, '/')[0], '|')
    ensures |f| >= 2 && f[1] == '|'
    ensures var e := NormalBody(f, true);
            |e| >= 2 && TrimSlashes(e) == e && e[1] == ':' && |Decode(e)| >= 2 && Decode(e)[1] == ':'
  {
    hide Split, Decode, EncodePath, IsDot;
    FirstPart(f);
    var parts := Split(f, '/');
    var drive, rest := [parts[0][0], ':'], parts[1..];
    NoDotsAhead(parts);
    hide IsDoubleDot;
    assert !IsSingleDot(parts[0]) && !IsDoubleDot(parts[0]);
    assert NormalSegments(parts, [], true) == NormalSegments(rest, [drive], true);
    PlainSegments(rest, [drive], true);
    var all := [drive] + EncodeEach(rest);
    assert all[1..] == EncodeEach(rest);
    var e := NormalBody(f, true);
    assert drive <= e;
    assert e == [drive[0]] + ([':'] + e[2..]);
    DecodeLetter(drive[0], [':'] + e[2..]);
    DecodeLetter(':', e[2..]);
  }

  lemma NoDotsAhead(parts: seq<string>)
    requires NoDots(parts)
    ensures forall i :: 0 <= i < |parts| ==> !IsSingleDot(parts[i]) && !IsDoubleDot(parts[i])
  {
    hide IsSingleDot, IsDoubleDot;
    assert forall i :: 0 <= i < |parts| ==> !IsDot(parts[i]);
  }

  lemma DecodeLetter(c: char, rest: string)
    requires c != '%'
    ensures Decode([c] + rest) == [c] + Decode(rest)
  {
    assert ([c] + rest)[1..] == rest;
  }

  /** Without dots and without such a drive the setter only encodes. */
  lemma OnlyEncoded(f: string)
    requires IsBytes(f) && NoDots(Split(f, '/')) && !IsDrive(Split(f, '/')[0], '|')
    ensures NormalBody(f, true) == EncodePath(f)
  {
    hide Split, Join, EncodePath, IsDrive, NormalSegments;
    NoDotsAhead(Split(f, '/'));
    hide IsSingleDot, IsDoubleDot;
    PlainSegments(Split(f, '/'), [], true);
    assert [] + EncodeEach(Split(f, '/')) == EncodeEach(Split(f, '/'));
    JoinEncoded(f);
  }

  /** A text that keeps its length and its second character through encoding and decoding is plain, and it
      has no escapes. */
  lemma PlainWhenKept(q: string)
    requires IsBytes(q) && |Decode(Encoded(q))| == |q| && (|q| >= 2 ==> Decode(Encoded(q))[1] == q[1])
    ensures IsPlain(ForwardSlashes(q), true) && !HasEscape(ForwardSlashes(q))
    ensures Decode(Encoded(q)) == ForwardSlashes(q)
  {
    hide Split, Join, NormalSegments, Decode, TrimSlashes, EncodePath, HasEscape, StripControls, IsDrive, IsDot,
        Encoded;
    BodyShrinks(q);
    var f := ForwardSlashes(q);
    assert Encoded(q) == TrimSlashes(NormalBody(f, true)) by { EncodedIs(q); }
    if IsDrive(Split(f, '/')[0], '|') {
      DriveChanges(f);
      assert false;
    }
    OnlyEncoded(f);
    NoDotsAhead(Split(f, '/'));
    FirstEncoded(f);
    assert IsPlain(f, true) by { hide IsSingleDot, IsDoubleDot; }
    PlainEncoded(q);
    DecodeUndoesEncodeIff(f);
    DecodeOfEncodeLength(f);
  }

  lemma EncodedIs(q: string)
    ensures Encoded(q) == TrimSlashes(NormalBody(ForwardSlashes(StripControls(q)), true))
  {
  }

  lemma {:induction false} NothingToEncode(s: string)
    requires forall i :: 0 <= i < |s| ==> !InPathSet(s[i])
    ensures IsBytes(s) && EncodePath(s) == s
  {
    if |s| != 0 {
      NothingToEncode(s[1..]);
    }
  }

  lemma BodyIsOutput(q: string)
    requires IsBytes(q)
    ensures AllOutput(Split(Encoded(q), '/'), true)
    ensures |Encoded(q)| > 0 ==> Encoded(q)[0] != '/'
  {
    hide Split, TrimSlashes, StripControls, NormalBody, AllOutput;
    StripKeepsBytes(q);
    var f := ForwardSlashes(StripControls(q));
    NormalIsOutput(f, true);
    TrimmedIsOutput(NormalBody(f, true), true);
  }

  /** A text that the setter does not change is plain. */
  lemma PlainWhenSame(q: string)
    requires IsBytes(q) && Encoded(q) == ForwardSlashes(q)
    ensures IsPlain(ForwardSlashes(q), true) && EncodePath(ForwardSlashes(q)) == ForwardSlashes(q)
  {
    hide Split, TrimSlashes, NormalBody, AllOutput, StripControls, EncodePath, InPathSet, IsDrive, IsDot, Encoded;
    var f := ForwardSlashes(q);
    BodyIsOutput(q);
    OutputIsClean(f, true);
    NothingToEncode(f);
    assert NoDots(Split(f, '/')) by { OutputIsDotless(Split(f, '/')); }
    forall i | 0 <= i < |f|
      ensures !IsStripped(q[i]) && !IsStripped(f[i])
    {
      StrippedIsEscaped(f[i]);
      BackslashIsKept();
    }
    NothingStripped(q);
    EncodedIs(q);
    if IsDrive(Split(f, '/')[0], '|') {
      DriveChanges(f);
      assert false;
    }
    NoDotsAhead(Split(f, '/'));
    assert IsPlain(f, true) by { hide IsSingleDot, IsDoubleDot; }
  }

  lemma OutputIsDotless(segments: seq<string>)
    requires AllOutput(segments, true)
    ensures NoDots(segments)
  {
    hide IsDot, InPathSet;
    assert forall i :: 0 <= i < |segments| ==> IsOutput(segments[i]);
  }

  lemma StrippedIsEscaped(c: char)
    ensures IsStripped(c) ==> InPathSet(c)
  {
  }

  lemma BackslashIsKept()
    ensures !IsStripped('\\')
  {
  }

  // ---------- Exactly the paths that come back ----------

  /** The text of a path is UTF-8, also with its ASCII backslashes replaced. */
  ghost predicate IsText(p: string, utf8: string -> bool)
  {
    IsBytes(p) && utf8(p) && utf8(ForwardSlashes(p))
  }

  /** A plain path without percent escapes, or one in which nothing is encoded and whose decoding fails */
  ghost predicate ComesBack(p: string, windows: bool, utf8: string -> bool)
  {
    && IsPlainPath(p, windows)
    && (!HasEscape(p) || (EncodePath(ForwardSlashes(p)) == ForwardSlashes(p) && !utf8(Decode(ForwardSlashes(p)))))
  }

  lemma EscapeAfterSlash(s: string)
    ensures HasEscape("/" + s) == HasEscape(s)
  {
    assert ("/" + s)[1..] == s;
  }

  lemma EncodePathSlash(s: string)
    ensures EncodePath("/" + s) == "/" + EncodePath(s)
  {
    assert ("/" + s)[1..] == s;
  }

  lemma OutputHasNoBackslash(q: string)
    requires IsBytes(q)
    ensures '\\' !in Encoded(q)
  {
    hide Split, Encoded;
    BodyIsOutput(q);
    OutputIsClean(Encoded(q), true);
  }

  /** What a POSIX parser makes of the path behind the first slash */
  function PosixText(q: string, utf8: string -> bool): string
  {
    if utf8("/" + Decode(Encoded(q))) then Decode(Encoded(q)) else Encoded(q)
  }

  lemma PosixComesBack(q: string, utf8: string -> bool)
    requires IsBytes(q) && utf8("/" + q)
    ensures ComesBack("/" + q, false, utf8) ==> PosixText(q, utf8) == q
  {
    hide Encoded, EncodePath, Decode, HasEscape, IsPlain;
    var p := "/" + q;
    EscapeAfterSlash(q);
    EncodePathSlash(q);
    DecodeAfterSlash(q);
    if ComesBack(p, false, utf8) {
      assert p[1..] == q;
      assert '\\' !in q && ForwardSlashes(q) == q && ForwardSlashes(p) == p;
      PlainEncoded(q);
      DecodeUndoesEncodeIff(q);
    }
  }

  lemma PosixIsPlain(q: string, utf8: string -> bool)
    requires IsBytes(q) && PosixText(q, utf8) == q
    ensures ComesBack("/" + q, false, utf8)
  {
    hide Encoded, EncodePath, Decode, HasEscape, IsPlain;
    var p := "/" + q;
    EscapeAfterSlash(q);
    EncodePathSlash(q);
    DecodeAfterSlash(q);
    if utf8("/" + Decode(Encoded(q))) {
      PlainWhenKept(q);
    } else {
      OutputHasNoBackslash(q);
      assert ForwardSlashes(q) == q;
      PlainWhenSame(q);
    }
    assert p[1..] == q && ForwardSlashes(p) == p;
  }

  lemma PosixPath(p: string, url: Url, utf8: string -> bool)
    requires IsText(p, utf8) && url.path == FileUrl(p).path
    ensures FilePath(url, false, utf8) == p <==> ComesBack(p, false, utf8)
  {
    hide SetPath, Encoded, Decode, ComesBack;
    SetterOutput(p, true);
    var e := url.path[1..];
    assert url.path == "/" + e;
    DecodeAfterSlash(e);
    if |p| > 0 && p[0] == '/' {
      var q := p[1..];
      assert p == "/" + q;
      SetterOf(p, q);
      PosixComesBack(q, utf8);
      if FilePath(url, false, utf8) == p {
        PosixIsPlain(q, utf8);
      }
    } else {
      assert !ComesBack(p, false, utf8) by { NotRooted(p, utf8); }
    }
  }

  lemma NotRooted(p: string, utf8: string -> bool)
    requires |p| == 0 || p[0] != '/'
    ensures !ComesBack(p, false, utf8)
  {
  }

  /** A drive at the front stays there, with something behind it. */
  lemma {:induction false} DriveStays(segments: seq<string>, done: seq<string>)
    requires |done| > 0 && IsDrive(done[0], ':')
    ensures var r := NormalSegments(segments, done, true);
            |r| > 0 && r[0] == done[0] && (|segments| > 0 || |done| > 1 ==> |r| > 1)
    decreases |segments|
  {
    hide IsSingleDot, IsDoubleDot, EncodePath, IsDrive;
    if |segments| != 0 {
      var segment, rest := segments[0], segments[1..];
      if IsDoubleDot(segment) {
        DriveStays(rest, Shorten(done, true) + Tail(rest));
      } else if IsSingleDot(segment) {
        DriveStays(rest, done + Tail(rest));
      } else {
        DriveStays(rest, done + [EncodePath(segment)]);
      }
    }
  }

  lemma DriveIsNoDot(c: char)
    requires IsUpper(c)
    ensures var drive := [c, ':'];
            && IsDrive(drive, ':') && !IsDrive(drive, '|') && !IsSingleDot(drive) && !IsDoubleDot(drive)
            && EncodePath(drive) == drive && '/' !in drive
  {
    NothingToEncode([c, ':']);
  }

  lemma FirstDrive(c: char, rest: string)
    requires IsUpper(c)
    ensures [c, ':', '/'] <= NormalBody([c, ':', '/'] + rest, true)
  {
    hide Split, EncodePath, IsDrive, IsSingleDot, IsDoubleDot;
    var drive := [c, ':'];
    DriveIsNoDot(c);
    assert [c, ':', '/'] + rest == drive + ['/'] + rest;
    SplitAtFirst(drive, '/', rest);
    var parts := [drive] + Split(rest, '/');
    assert parts[1..] == Split(rest, '/') && [] + [drive] == [drive];
    assert NormalSegments(parts, [], true) == NormalSegments(parts[1..], [drive], true);
    DriveStays(parts[1..], [drive]);
  }

  lemma {:induction false} StripKeepsFront(front: string, rest: string)
    requires forall i :: 0 <= i < |front| ==> !IsStripped(front[i])
    ensures StripControls(front + rest) == front + StripControls(rest)
    decreases |front|
  {
    if |front| == 0 {
      assert front + rest == rest;
    } else {
      assert (front + rest)[1..] == front[1..] + rest;
      StripKeepsFront(front[1..], rest);
    }
  }

  lemma EncodedDrive(p: string)
    requires IsNativeWindows(p)
    ensures [p[0], ':', '/'] <= Encoded(p)
  {
    hide StripControls, NormalBody;
    var front, rest := [p[0], ':', '\\'], p[3..];
    assert p == front + rest;
    StripKeepsFront(front, rest);
    assert ForwardSlashes(front + StripControls(rest)) == [p[0], ':', '/'] + ForwardSlashes(StripControls(rest));
    FirstDrive(p[0], ForwardSlashes(StripControls(rest)));
  }

  lemma DecodeDrive(c: char, rest: string)
    requires IsUpper(c)
    ensures Decode([c, ':', '/'] + rest) == [c, ':', '/'] + Decode(rest)
  {
    assert [c, ':', '/'] + rest == [c] + ([':'] + (['/'] + rest));
    DecodeLetter(c, [':'] + (['/'] + rest));
    DecodeLetter(':', ['/'] + rest);
    DecodeLetter('/', rest);
  }

  /** What a Windows parser makes of the path */
  function WindowsText(p: string, utf8: string -> bool): string
  {
    Native(if utf8(Decode(Encoded(p))) then Decode(Encoded(p)) else Encoded(p))
  }

  lemma NativeOfForward(p: string)
    requires IsNativeWindows(p)
    ensures Native(ForwardSlashes(p)) == p
  {
    hide Native;
    var rest := p[3..];
    assert ForwardSlashes(p) == [p[0], ':', '/'] + ForwardSlashes(rest);
    DriveStyle(p[0], '/', ForwardSlashes(rest));
    assert Backslashes(ForwardSlashes(rest)) == rest by {
      assert forall i :: 0 <= i < |rest| ==> rest[i] == p[i + 3];
    }
  }

  lemma WindowsComesBack(p: string, utf8: string -> bool)
    requires IsNativeWindows(p) && IsBytes(p) && utf8(ForwardSlashes(p))
    ensures ComesBack(p, true, utf8) ==> WindowsText(p, utf8) == p
  {
    hide Encoded, EncodePath, Decode, HasEscape, IsPlain, Native;
    NativeOfForward(p);
    SlashesKeepEscapes(p);
    if ComesBack(p, true, utf8) {
      PlainEncoded(p);
      DecodeUndoesEncodeIff(ForwardSlashes(p));
    }
  }

  /** A text below a drive that becomes the native path has its length, and is it if it has no backslash. */
  lemma NativeIs(p: string, e: string)
    requires IsNativeWindows(p) && [p[0], ':', '/'] <= e && Native(e) == p
    ensures |e| == |p| && ('\\' !in e ==> e == ForwardSlashes(p))
  {
    hide Native;
    var rest := e[3..];
    assert e == [p[0], ':', '/'] + rest;
    DriveStyle(p[0], '/', rest);
    assert forall i :: 0 <= i < |rest| ==> rest[i] == e[i + 3];
    if '\\' !in e {
      forall i | 0 <= i < |e|
        ensures e[i] == ForwardSlashes(p)[i]
      {
        if i >= 3 {
          assert p[i] == Backslashes(rest)[i - 3];
        }
      }
    }
  }

  lemma WindowsIsPlain(p: string, utf8: string -> bool)
    requires IsNativeWindows(p) && IsBytes(p) && WindowsText(p, utf8) == p
    ensures ComesBack(p, true, utf8)
  {
    hide Encoded, EncodePath, Decode, HasEscape, IsPlain, Native, ForwardSlashes;
    var e := Encoded(p);
    EncodedDrive(p);
    assert e == [p[0], ':', '/'] + e[3..];
    SlashesKeepEscapes(p);
    if utf8(Decode(e)) {
      DecodeDrive(p[0], e[3..]);
      NativeIs(p, Decode(e));
      PlainWhenKept(p);
    } else {
      OutputHasNoBackslash(p);
      NativeIs(p, e);
      PlainWhenSame(p);
    }
  }

  /** Native spelling never makes a path longer, and a first backslash is not its own. */
  lemma NativeShape(path: string)
    ensures |Native(path)| <= |path|
    ensures |path| > 0 && !IsSlash(path[0]) ==> |Native(path)| > 0 && Native(path)[0] != '\\'
  {
  }

  /** A rooted path loses its first separator on Windows. */
  lemma RootIsLost(p: string, utf8: string -> bool)
    requires IsBytes(p) && |p| > 0 && p[0] == '\\'
    ensures FilePath(FileUrl(p), true, utf8) != p
  {
    hide SetPath, Encoded, Decode, Native;
    var q := p[1..];
    assert ForwardSlashes(p) == ForwardSlashes("/" + q);
    SetterForgetsSlashes(p, "/" + q);
    SetterOf("/" + q, q);
    var e := Encoded(q);
    TrimOnce(e);
    BodyIsOutput(q);
    TrimNothing(e);
    OutputHasNoBackslash(q);
    BodyShrinks(q);
    NativeShape(Decode(e));
    NativeShape(e);
  }

  lemma TrimNothing(e: string)
    requires |e| > 0 ==> e[0] != '/'
    ensures TrimSlashes(e) == e
  {
  }

  lemma NativePath(p: string, utf8: string -> bool)
    requires IsText(p, utf8) && IsNativeWindows(p)
    ensures FilePath(FileUrl(p), true, utf8) == p <==> ComesBack(p, true, utf8)
  {
    hide SetPath, Encoded, Decode, ComesBack, Native;
    SetterOf(p, p);
    EncodedDrive(p);
    TrimOnce(Encoded(p));
    WindowsComesBack(p, utf8);
    if WindowsText(p, utf8) == p {
      WindowsIsPlain(p, utf8);
    }
  }

  /** A file URL gives its path back exactly when the path is plain and has no percent escape or, failing
      that, when nothing in it had to be encoded and its decoding is not UTF-8. */
  lemma FilePathTrip(p: string, url: Url, windows: bool, utf8: string -> bool)
    requires IsText(p, utf8) && (windows ==> IsAbsolute(p, true)) && url.path == FileUrl(p).path
    ensures FilePath(url, windows, utf8) == p <==> ComesBack(p, windows, utf8)
  {
    hide SetPath, Encoded, Decode, Native, HasEscape;
    if !windows {
      PosixPath(p, url, utf8);
    } else if IsNativeWindows(p) {
      NativePath(p, utf8);
    } else {
      var decoded := if utf8(Decode(TrimSlashes(url.path))) then Decode(TrimSlashes(url.path))
                     else TrimSlashes(url.path);
      NativeIsNormalForm(decoded);
      if p[0] == '\\' {
        RootIsLost(p, utf8);
      }
    }
  }

  // ---------- The printed URL ----------

  /** A directory is printed with a trailing separator, which the printer may write as a slash. */
  lemma SetterForgetsSlashes(p: string, printed: string)
    requires ForwardSlashes(printed) == ForwardSlashes(p)
    ensures SetPath(printed, true) == SetPath(p, true)
  {
    hide Split, Join, NormalSegments, TrimSlashes;
    StripThenSlash(p);
    StripThenSlash(printed);
  }

  lemma {:induction false} StripThenSlash(s: string)
    ensures ForwardSlashes(StripControls(s)) == StripControls(ForwardSlashes(s))
  {
    if |s| > 0 {
      StripThenSlash(s[1..]);
      var t := ForwardSlashes(s);
      assert t[1..] == ForwardSlashes(s[1..]);
      assert IsStripped(t[0]) == IsStripped(s[0]);
      assert StripControls(s) == (if IsStripped(s[0]) then [] else [s[0]]) + StripControls(s[1..]);
    }
  }

  lemma FileUrlIsWellFormed(p: string)
    requires IsBytes(p)
    ensures WellFormed(FileUrl(p))
  {
    hide SetPath, Split, InPathSet;
    var path := SetPath(p, true);
    SetterOutput(p, true);
    OutputIsClean(path[1..], true);
    MarksAreEscaped();
    assert forall i :: 1 <= i < |path| ==> path[i] == path[1..][i - 1];
  }

  predicate EndsWithSlash(s: string)
  {
    |s| > 0 && s[|s| - 1] == '/'
  }

  lemma PlainFileUrl(p: string, windows: bool)
    requires IsPlainPath(p, windows)
    ensures FileUrl(p).path == "/" + EncodePath(Body(p, windows))
    ensures EndsWithSlash(FileUrl(p).path) <==> EndsWithSlash(ForwardSlashes(p))
  {
    hide EncodePath, IsPlain, SetPath, Encoded;
    var q := if windows then p else p[1..];
    assert windows || (p == "/" + q && ForwardSlashes(q) == q && ForwardSlashes(p) == p);
    SetterOf(p, q);
    PlainEncoded(q);
    EncodedChars(ForwardSlashes(q));
    FirstEncoded(ForwardSlashes(q));
  }
}

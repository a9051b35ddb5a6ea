/** The part of the `url` crate that mentions rely on: splitting a serialized URL, the path setter
    and the query pairs, as the URL Standard (sections 4.4 and 5) defines them. */
module UrlModel {
  import opened Wrappers
  import opened Strings
  import opened PercentCode

  datatype Url = Url(scheme: string, host: string, path: string, query: Option<string>, fragment: Option<string>)

  function Serialize(url: Url): string
  {
    url.scheme + "://" + url.host + url.path
    + (if url.query.Some? then "?" + url.query.value else "")
    + (if url.fragment.Some? then "#" + url.fragment.value else "")
  }

  /** Both parts of a cut, the second one only if the separator occurs */
  function CutOptional(s: string, sep: char): (string, Option<string>)
  {
    match Cut(s, sep)
    case None => (s, None)
    case Some((a, b)) => (a, Some(b))
  }

  function ParseUrl(s: string): Option<Url>
  {
    match Cut(s, ':')
    case None => None
    case Some((scheme, rest)) =>
      match StripPrefix(rest, "//")
      case None => None
      case Some(body) =>
        var (beforeFragment, fragment) := CutOptional(body, '#');
        var (beforeQuery, query) := CutOptional(beforeFragment, '?');
        var (host, path) := CutOptional(beforeQuery, '/');
        Some(Url(scheme, host, if path.Some? then "/" + path.value else "", query, fragment))
  }

  predicate WellFormed(url: Url)
  {
    && ':' !in url.scheme
    && '/' !in url.host && '?' !in url.host && '#' !in url.host
    && (|url.path| > 0 ==> url.path[0] == '/')
    && '?' !in url.path && '#' !in url.path
    && (url.query.Some? ==> '#' !in url.query.value)
  }

  lemma CutOptionalOf(a: string, sep: char, b: Option<string>)
    requires sep !in a
    ensures CutOptional(a + if b.Some? then [sep] + b.value else "", sep) == (a, b)
  {
    if b.Some? {
      assert a + ([sep] + b.value) == a + [sep] + b.value;
      CutAtFirst(a, sep, b.value);
    } else {
      assert a + "" == a;
      CutWithout(a, sep);
    }
  }

  lemma ParseUrlOfSerialize(url: Url)
    requires WellFormed(url)
    ensures ParseUrl(Serialize(url)) == Some(url)
  {
    hide Cut, CutOptional;
    var pathRest := if |url.path| > 0 then Some(url.path[1..]) else None;
    var query := if url.query.Some? then "?" + url.query.value else "";
    var fragment := if url.fragment.Some? then "#" + url.fragment.value else "";
    var body := url.host + url.path + query + fragment;
    assert Serialize(url) == url.scheme + [':'] + ("//" + body);
    CutAtFirst(url.scheme, ':', "//" + body);
    assert ("//" + body)[2..] == body;
    CutOptionalOf(url.host + url.path + query, '#', url.fragment);
    CutOptionalOf(url.host + url.path, '?', url.query);
    assert url.path == if pathRest.Some? then ['/'] + pathRest.value else "";
    CutOptionalOf(url.host, '/', pathRest);
  }

  // ---------- The path setter ----------

  predicate IsStripped(c: char) { c == '\t' || c == '\n' || c == '\r' }

  function StripControls(s: string): string
  {
    if |s| == 0 then [] else (if IsStripped(s[0]) then [] else [s[0]]) + StripControls(s[1..])
  }

  function ForwardSlashes(s: string): (t: string)
    ensures |t| == |s| && '\\' !in t
    ensures forall i :: 0 <= i < |s| ==> t[i] == if s[i] == '\\' then '/' else s[i]
  {
    seq(|s|, i requires 0 <= i < |s| => if s[i] == '\\' then '/' else s[i])
  }

  predicate IsEncodedDot(s: string) { s == "." || s == "%2e" || s == "%2E" }

  predicate IsSingleDot(s: string) { IsEncodedDot(s) }

  predicate IsDoubleDot(s: string)
  {
    exists k :: 0 <= k <= |s| && IsEncodedDot(s[..k]) && IsEncodedDot(s[k..])
  }

  predicate IsAsciiLetter(c: char) { 'a' <= c <= 'z' || 'A' <= c <= 'Z' }

  predicate IsDrive(s: string, sep: char)
  {
    |s| == 2 && IsAsciiLetter(s[0]) && s[1] == sep
  }

  /** Removes the last segment; a file URL keeps its drive letter. */
  function Shorten(segments: seq<string>, file: bool): (shorter: seq<string>)
    ensures |shorter| <= |segments|
  {
    if |segments| == 0 || (file && |segments| == 1 && IsDrive(segments[0], ':')) then segments
    else segments[..|segments| - 1]
  }

  function NormalSegments(segments: seq<string>, done: seq<string>, file: bool): seq<string>
    decreases |segments|
  {
    if |segments| == 0 then done
    else
      var segment, rest := segments[0], segments[1..];
      if IsDoubleDot(segment) then
        NormalSegments(rest, Shorten(done, file) + if |rest| == 0 then [""] else [], file)
      else if IsSingleDot(segment) then
        NormalSegments(rest, done + if |rest| == 0 then [""] else [], file)
      else if file && |done| == 0 && IsDrive(segment, '|') then
        NormalSegments(rest, [[segment[0], ':']], file)
      else NormalSegments(rest, done + [EncodePath(segment)], file)
  }

  function TrimSlashes(s: string): string
  {
    if |s| > 0 && s[0] == '/' then TrimSlashes(s[1..]) else s
  }

  /** `Url::set_path`; a file URL reads a backslash as a slash and has no empty leading segment. */
  function SetPath(p: string, file: bool): string
  {
    var stripped := StripControls(p);
    var slashed := if file then ForwardSlashes(stripped) else stripped;
    var body := if |slashed| > 0 && slashed[0] == '/' then slashed[1..] else slashed;
    var path := "/" + Join(NormalSegments(Split(body, '/'), [], file), '/');
    if file then "/" + TrimSlashes(path) else path
  }

  lemma {:induction false} SplitKeepsBytes(s: string, sep: char)
    requires IsBytes(s)
    ensures forall i :: 0 <= i < |Split(s, sep)| ==> IsBytes(Split(s, sep)[i])
  {
    if |s| != 0 {
      SplitKeepsBytes(s[1..], sep);
    }
  }

  /** A path that the setter only percent-encodes: nothing stripped, no dot segment, no drive
      written with `|`, and for a file URL no second leading slash. */
  predicate IsPlain(body: string, file: bool)
  {
    && (forall i :: 0 <= i < |body| ==> !IsStripped(body[i]))
    && (forall i :: 0 <= i < |Split(body, '/')| ==>
          !IsSingleDot(Split(body, '/')[i]) && !IsDoubleDot(Split(body, '/')[i]))
    && (file ==> !IsDrive(Split(body, '/')[0], '|') && (|body| > 0 ==> body[0] != '/'))
  }

  lemma {:induction false} NothingStripped(s: string)
    requires forall i :: 0 <= i < |s| ==> !IsStripped(s[i])
    ensures StripControls(s) == s
  {
    if |s| != 0 {
      NothingStripped(s[1..]);
    }
  }

  function EncodeEach(segments: seq<string>): (encoded: seq<string>)
    ensures |encoded| == |segments|
  {
    if |segments| == 0 then [] else [EncodePath(segments[0])] + EncodeEach(segments[1..])
  }

  lemma {:induction false} PlainSegments(segments: seq<string>, done: seq<string>, file: bool)
    requires forall i :: 0 <= i < |segments| ==> !IsSingleDot(segments[i]) && !IsDoubleDot(segments[i])
    requires file && |segments| > 0 && |done| == 0 ==> !IsDrive(segments[0], '|')
    ensures NormalSegments(segments, done, file) == done + EncodeEach(segments)
    decreases |segments|
  {
    hide IsSingleDot, IsDoubleDot, IsDrive, EncodePath;
    if |segments| != 0 {
      PlainSegments(segments[1..], done + [EncodePath(segments[0])], file);
    }
  }

  lemma JoinHead(first: string, rest: seq<string>, sep: char)
    requires |rest| > 0
    ensures Join([first] + rest, sep) == first + [sep] + Join(rest, sep)
  {
    assert ([first] + rest)[1..] == rest;
  }

  lemma EncodeEachHead(first: string, rest: seq<string>)
    ensures EncodeEach([first] + rest) == [EncodePath(first)] + EncodeEach(rest)
  {
    assert ([first] + rest)[1..] == rest;
  }

  lemma EncodeAroundSlash(a: string, b: string)
    requires IsBytes(a) && IsBytes(b)
    ensures IsBytes(a + ['/'] + b) && EncodePath(a + ['/'] + b) == EncodePath(a) + ['/'] + EncodePath(b)
  {
    EncodePathAppend(a, "/" + b);
    EncodePathAppend("/", b);
    assert EncodePath("/") == "/" by {
      assert EncodePath("/"[1..]) == "";
    }
    assert a + ("/" + b) == a + ['/'] + b;
  }

  lemma {:induction false} JoinEncoded(s: string)
    requires IsBytes(s)
    ensures forall i :: 0 <= i < |Split(s, '/')| ==> IsBytes(Split(s, '/')[i])
    ensures Join(EncodeEach(Split(s, '/')), '/') == EncodePath(s)
    decreases |s|
  {
    hide EncodePath, Split;
    SplitKeepsBytes(s, '/');
    if '/' !in s {
      SplitWithout(s, '/');
      EncodeEachHead(s, []);
      assert [s] + [] == [s];
    } else {
      hide Join, EncodeEach;
      var a, b := AroundFirst(s, '/');
      SplitAtFirst(a, '/', b);
      assert forall i :: 0 <= i < |b| ==> b[i] == s[|a| + 1 + i];
      assert forall i :: 0 <= i < |a| ==> a[i] == s[i];
      JoinEncoded(b);
      EncodeAroundSlash(a, b);
      EncodeEachHead(a, Split(b, '/'));
      JoinHead(EncodePath(a), EncodeEach(Split(b, '/')), '/');
    }
  }

  lemma {:induction false} AroundFirst(s: string, sep: char) returns (a: string, b: string)
    requires sep in s
    ensures s == a + [sep] + b && sep !in a
  {
    if s[0] == sep {
      a, b := "", s[1..];
    } else {
      a, b := AroundFirst(s[1..], sep);
      a := [s[0]] + a;
    }
  }

  lemma EncodedStart(s: string)
    requires IsBytes(s) && |s| > 0
    ensures |EncodePath(s)| > 0 && (EncodePath(s)[0] == '/' <==> s[0] == '/')
  {
  }

  lemma PlainBody(body: string, file: bool)
    requires IsBytes(body) && IsPlain(body, file)
    ensures Join(NormalSegments(Split(body, '/'), [], file), '/') == EncodePath(body)
    ensures file ==> TrimSlashes("/" + EncodePath(body)) == EncodePath(body)
  {
    hide EncodePath, IsDrive, IsSingleDot, IsDoubleDot, Split, Join, NormalSegments;
    PlainSegments(Split(body, '/'), [], file);
    JoinEncoded(body);
    var e := EncodePath(body);
    assert [] + EncodeEach(Split(body, '/')) == EncodeEach(Split(body, '/'));
    assert ("/" + e)[1..] == e;
    if |body| > 0 {
      EncodedStart(body);
    } else {
      FirstEncoded(body);
    }
  }

  /** The path is the body, with or without a leading slash. */
  predicate IsPathWithBody(p: string, body: string)
  {
    p == "/" + body || (p == body && (|body| > 0 ==> body[0] != '/'))
  }

  lemma PlainIsNotStripped(p: string, body: string, file: bool)
    requires forall i :: 0 <= i < |body| ==> !IsStripped(body[i])
    requires IsPathWithBody(if file then ForwardSlashes(p) else p, body)
    ensures StripControls(p) == p
  {
    var slashed := if file then ForwardSlashes(p) else p;
    assert forall i :: 0 <= i < |p| ==> slashed[i] == p[i] || p[i] == '\\';
    if slashed == body {
      NothingStripped(p);
    } else {
      assert forall i :: 1 <= i < |p| ==> slashed[i] == body[i - 1];
      NothingStripped(p);
    }
  }

  /** On a plain path the setter is percent-encoding after a leading slash. */
  lemma SetPlainPath(p: string, body: string, file: bool)
    requires IsBytes(body) && IsPlain(body, file)
    requires IsPathWithBody(if file then ForwardSlashes(p) else p, body)
    ensures SetPath(p, file) == "/" + EncodePath(body)
  {
    PlainIsNotStripped(p, body, file);
    PlainBody(body, file);
    hide EncodePath, Split, Join, NormalSegments, StripControls, IsPlain;
    assert ("/" + body)[1..] == body;
    assert TrimSlashes("/" + EncodePath(body)) == EncodePath(body) || !file;
  }

  // ---------- Query pairs ----------

  function AppendPair(url: Url, key: string, value: string): Url
  {
    var pair := FormEncode(key) + "=" + FormEncode(value);
    url.(query := Some(if url.query.Some? && |url.query.value| > 0 then url.query.value + "&" + pair else pair))
  }

  function PairsOf(parts: seq<string>): seq<(string, string)>
  {
    if |parts| == 0 then []
    else
      (if |parts[0]| == 0 then []
       else
         match Cut(parts[0], '=')
         case None => [(FormDecode(parts[0]), "")]
         case Some((key, value)) => [(FormDecode(key), FormDecode(value))])
      + PairsOf(parts[1..])
  }

  function QueryPairs(url: Url): seq<(string, string)>
  {
    if url.query.None? then [] else PairsOf(Split(url.query.value, '&'))
  }

  lemma {:induction false} PairsOfConcat(a: seq<string>, b: seq<string>)
    ensures PairsOf(a + b) == PairsOf(a) + PairsOf(b)
    decreases |a|
  {
    hide Cut, FormDecode;
    if |a| == 0 {
      assert a + b == b;
    } else {
      assert (a + b)[1..] == a[1..] + b && (a + b)[0] == a[0];
      PairsOfConcat(a[1..], b);
    }
  }

  /** A pair that is appended is read back, after all earlier ones. */
  lemma QueryPairsOfAppend(url: Url, key: string, value: string)
    requires IsBytes(key) && IsBytes(value)
    ensures QueryPairs(AppendPair(url, key, value)) == QueryPairs(url) + [(key, value)]
    ensures url.query.None? || '#' !in url.query.value ==> '#' !in AppendPair(url, key, value).query.value
  {
    hide Cut, FormEncode, FormDecode, Split;
    FormRoundTrip(key);
    FormRoundTrip(value);
    var k, v := FormEncode(key), FormEncode(value);
    var pair := k + "=" + v;
    assert '&' !in pair && '#' !in pair;
    CutAtFirst(k, '=', v);
    SplitWithout(pair, '&');
    assert PairsOf([pair]) == [(key, value)] by {
      assert [pair][1..] == [];
    }
    if url.query.Some? {
      var q := url.query.value;
      if |q| > 0 {
        SplitOfConcat(q, '&', pair);
        PairsOfConcat(Split(q, '&'), [pair]);
      } else {
        SplitWithout(q, '&');
        assert PairsOf([""]) == [] by {
          assert [""][1..] == [];
        }
      }
    }
  }
}

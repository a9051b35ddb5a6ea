/** Parsing a printed mention gives the mention back. */
module MentionTrip {
  import opened Wrappers
  import opened Strings
  import opened Decimals
  import opened PercentCode
  import opened UrlModel
  import opened UrlOutput
  import opened WindowsPath
  import opened Mention
  import opened FilePaths

  // ---------- Numbers ----------

  lemma PrintNextIsOneBased(n: nat)
    requires n < U32_LIMIT
    ensures OneBased(PrintNext(n)) == if n + 1 < U32_LIMIT then Some(n) else None
    ensures AllDigits(PrintNext(n))
  {
    hide ToDecimal, ParseU32;
    var next := (n + 1) % U32_LIMIT;
    assert next == if n + 1 < U32_LIMIT then n + 1 else 0;
    U32RoundTrip(next);
  }

  /** The 1-based fragment is read back unless a line is the largest u32, whose successor wraps to 0. */
  lemma LineFragmentTrip(lines: Lines)
    requires lines.InU32()
    ensures ParseLineRange(LineFragment(lines)) ==
            if lines.start + 1 < U32_LIMIT && lines.end + 1 < U32_LIMIT then Some(lines) else None
  {
    hide PrintNext, OneBased, Cut;
    PrintNextIsOneBased(lines.start);
    PrintNextIsOneBased(lines.end);
    var a, b := PrintNext(lines.start), PrintNext(lines.end);
    assert LineFragment(lines) == "L" + (a + [':'] + b);
    assert LineFragment(lines)[1..] == a + [':'] + b;
    CutAtFirst(a, ':', b);
  }

  // ---------- Recognising the URL ----------

  ghost function ParsedUrl(url: Url, windows: bool, utf8: string -> bool): Parsed
  {
    if url.scheme == "file" then ParseFileUrl(url, Serialize(url), windows, utf8)
    else if url.scheme == "zed" then ParseZedUrl(url)
    else Mention(Fetch(url))
  }

  /** A printed URL is never taken for a bare path, and is split into its parts again. */
  lemma PrintedIsUrl(url: Url, windows: bool, utf8: string -> bool)
    requires WellFormed(url) && url.scheme in {"file", "zed", "http", "https"}
    ensures ParseMention(Serialize(url), windows, utf8) == ParsedUrl(url, windows, utf8)
  {
    hide ParseUrl, ParseFileUrl, ParseZedUrl, ContainsSchemeSeparator, WellFormed;
    var s := Serialize(url);
    assert s[0] == url.scheme[0] && s[1] == url.scheme[1];
    assert StripBackticks(s) == s;
    assert !IsAbsolute(s, windows);
    ParseUrlOfSerialize(url);
  }

  // ---------- Paths in zed URLs ----------

  lemma NotDots(s: string)
    requires |s| == 0 || s[0] !in {'.', '%'}
    ensures !IsSingleDot(s) && !IsDoubleDot(s)
  {
  }

  /** An id that the path setter leaves alone: no character to escape and no dot segment */
  predicate IsUrlSafe(id: string)
  {
    && (forall i :: 0 <= i < |id| ==> !InPathSet(id[i]))
    && (forall i :: 0 <= i < |Split(id, '/')| ==> !IsSingleDot(Split(id, '/')[i]) && !IsDoubleDot(Split(id, '/')[i]))
  }

  lemma SafePath(p: string)
    requires IsUrlSafe(p)
    ensures SetPath("/" + p, false) == "/" + p && '?' !in p && '#' !in p
  {
    hide SetPath, EncodePath, Split;
    NothingToEncode(p);
    SetPlainPath("/" + p, p, false);
  }

  lemma SafeUnder(segment: string, id: string)
    requires |segment| > 0 && segment[0] !in {'.', '%'} && '/' !in segment
    requires forall i :: 0 <= i < |segment| ==> !InPathSet(segment[i])
    requires IsUrlSafe(id)
    ensures IsUrlSafe(segment + ['/'] + id)
  {
    hide Split, InPathSet, IsSingleDot, IsDoubleDot;
    SplitAtFirst(segment, '/', id);
    NotDots(segment);
    var s := segment + ['/'] + id;
    forall i | 0 <= i < |s|
      ensures !InPathSet(s[i])
    {
      if i < |segment| {
        assert s[i] == segment[i];
      } else if i == |segment| {
        SlashIsSafe();
      } else {
        assert s[i] == id[i - |segment| - 1];
      }
    }
  }

  lemma SlashIsSafe()
    ensures !InPathSet('/')
  {
  }

  lemma SafeWord(word: string)
    requires |word| > 0 && word[0] !in {'.', '%'} && '/' !in word
    requires forall i :: 0 <= i < |word| ==> !InPathSet(word[i])
    ensures IsUrlSafe(word)
  {
    SplitWithout(word, '/');
    NotDots(word);
  }

  lemma AgentPath(word: string, path: string)
    requires word in {"diagnostics", "untitled-buffer", "skill"} && path == "/agent/" + word
    ensures SetPath(path, false) == path && '?' !in path && '#' !in path
  {
    hide SetPath, Split;
    SafeWord(word);
    SafeUnder("agent", word);
    assert "/" + ("agent" + ['/'] + word) == path;
    SafePath("agent" + ['/'] + word);
  }

  lemma AgentIdPath(kind: string, id: string)
    requires kind in {"thread", "rule"} && IsUrlSafe(id)
    ensures var path := "/agent/" + kind + "/" + id;
            SetPath(path, false) == path && '?' !in path && '#' !in path
  {
    hide SetPath, Split, IsUrlSafe;
    SafeUnder(kind, id);
    SafeUnder("agent", kind + ['/'] + id);
    assert "/" + ("agent" + ['/'] + (kind + ['/'] + id)) == "/agent/" + kind + "/" + id;
    SafePath("agent" + ['/'] + (kind + ['/'] + id));
  }

  // ---------- File URLs ----------

  /** What is known of a path: its text is UTF-8, and on Windows it is absolute. */
  ghost predicate IsPathText(p: string, windows: bool, utf8: string -> bool)
  {
    IsText(p, utf8) && (windows ==> IsAbsolute(p, true))
  }

  lemma FileUrlParses(p: string, windows: bool, utf8: string -> bool)
    requires IsBytes(p)
    ensures ParseMention(Serialize(FileUrl(p)), windows, utf8) ==
            var path := FilePath(FileUrl(p), windows, utf8);
            Mention(if EndsWithSlash(FileUrl(p).path) then Directory(path) else File(path))
  {
    hide SetPath, FilePath, Serialize, ParseMention, WellFormed, Split;
    var url := FileUrl(p);
    FileUrlIsWellFormed(p);
    SetterOutput(p, true);
    PrintedIsUrl(url, windows, utf8);
    PrintedEnd(url);
  }

  lemma PrintedEnd(url: Url)
    requires |url.path| > 0 && url.query == None && url.fragment == None
    ensures EndsWithSlash(Serialize(url)) <==> EndsWithSlash(url.path)
  {
  }

  /** A file comes back exactly when its path does and does not end in a separator. */
  lemma FileTripIff(p: string, windows: bool, utf8: string -> bool)
    requires IsPathText(p, windows, utf8)
    ensures ParseMention(Serialize(ToUri(File(p))), windows, utf8) == Mention(File(p)) <==>
            ComesBack(p, windows, utf8) && !EndsWithSlash(ForwardSlashes(p))
  {
    hide SetPath, FilePath, IsPlainPath, Serialize, ParseMention, EndsWithSlash, ForwardSlashes, HasEscape;
    FileUrlParses(p, windows, utf8);
    FilePathTrip(p, FileUrl(p), windows, utf8);
    if ComesBack(p, windows, utf8) {
      PlainFileUrl(p, windows);
    }
  }

  /** A directory is printed with a trailing separator, which stays. */
  function DirectoryPath(p: string, windows: bool): string
  {
    if |p| > 0 && IsSlash(p[|p| - 1]) then p else p + if windows then "\\" else "/"
  }

  lemma DirectoryEnd(p: string, windows: bool)
    requires IsNativePath(DirectoryPath(p, windows), windows)
    ensures EndsWithSlash(ForwardSlashes(DirectoryPath(p, windows)))
  {
  }

  /** A directory comes back, with its separator, exactly when its path does. */
  lemma DirectoryTrip(p: string, windows: bool, utf8: string -> bool)
    requires IsPathText(DirectoryPath(p, windows), windows, utf8)
    ensures ParseMention(Serialize(ToUri(Directory(p))), windows, utf8) == Mention(Directory(DirectoryPath(p, windows)))
            <==> ComesBack(DirectoryPath(p, windows), windows, utf8)
  {
    hide SetPath, FilePath, IsPlainPath, Serialize, ParseMention, EndsWithSlash, HasEscape;
    var d, printed := DirectoryPath(p, windows), WithTrailingSlash(p);
    assert ForwardSlashes(printed) == ForwardSlashes(d);
    hide ForwardSlashes;
    SetterForgetsSlashes(d, printed);
    assert ToUri(Directory(p)) == FileUrl(d);
    FileUrlParses(d, windows, utf8);
    FilePathTrip(d, FileUrl(d), windows, utf8);
    if ComesBack(d, windows, utf8) {
      PlainIsNative(d, windows);
      DirectoryEnd(p, windows);
      PlainFileUrl(d, windows);
    }
  }

  lemma PlainIsNative(p: string, windows: bool)
    requires IsPlainPath(p, windows)
    ensures IsNativePath(p, windows)
  {
  }

  lemma NoPairs(url: Url)
    requires url.query == None
    ensures QueryPairs(url) == []
  {
  }

  /** A symbol comes back exactly when its path does and neither line is the largest u32. */
  lemma SymbolTrip(p: string, name: string, lines: Lines, windows: bool, utf8: string -> bool)
    requires IsPathText(p, windows, utf8) && IsBytes(name) && lines.InU32()
    ensures ParseMention(Serialize(ToUri(Symbol(p, name, lines))), windows, utf8) == Mention(Symbol(p, name, lines))
            <==> ComesBack(p, windows, utf8) && lines.start + 1 < U32_LIMIT && lines.end + 1 < U32_LIMIT
  {
    hide SetPath, FilePath, ComesBack, Serialize, ParseMention, LineFragment, ParseLineRange, FormEncode, PairsOf;
    var base := FileUrl(p);
    var url := ToUri(Symbol(p, name, lines));
    FileUrlIsWellFormed(p);
    SymbolIsBytes();
    QueryPairsOfAppend(base, "symbol", name);
    NoPairs(base);
    assert QueryPairs(url) == [("symbol", name)];
    assert WellFormed(url);
    PrintedIsUrl(url, windows, utf8);
    FilePathTrip(p, url, windows, utf8);
    LineFragmentTrip(lines);
  }

  lemma SymbolIsBytes()
    ensures IsBytes("symbol") && IsBytes("column") && IsBytes("name") && IsBytes("path") && IsBytes("lines")
    ensures IsBytes("base") && IsBytes("source") && IsBytes("true") && IsBytes("false")
  {
  }

  lemma FlagsAreBytes()
    ensures IsBytes("include_warnings") && IsBytes("include_errors")
  {
  }

  lemma DigitsAreBytes(s: string)
    requires AllDigits(s)
    ensures IsBytes(s)
  {
  }

  function SelectionBase(path: Option<string>): Url
  {
    if path.Some? then FileUrl(path.value) else ZedUrl("/agent/untitled-buffer")
  }

  function ColumnPairs(column: Option<nat>): seq<(string, string)>
  {
    if column.Some? then [("column", PrintNext(column.value))] else []
  }

  /** The parts of a printed selection */
  lemma SelectionUrl(path: Option<string>, lines: Lines, column: Option<nat>)
    requires path.Some? ==> IsBytes(path.value)
    requires column.Some? ==> column.value < U32_LIMIT
    ensures var base, url := SelectionBase(path), ToUri(Selection(path, lines, column));
            && WellFormed(url) && url.scheme == base.scheme && url.path == base.path
            && url.fragment == Some(LineFragment(lines)) && QueryPairs(url) == ColumnPairs(column)
  {
    hide SetPath, LineFragment, FormEncode, PairsOf, PrintNext, OneBased;
    var base := SelectionBase(path);
    AgentPath("untitled-buffer", "/agent/untitled-buffer");
    UntitledDispatch();
    if path.Some? {
      FileUrlIsWellFormed(path.value);
    }
    NoPairs(base);
    if column.Some? {
      SymbolIsBytes();
      PrintNextIsOneBased(column.value);
      DigitsAreBytes(PrintNext(column.value));
      QueryPairsOfAppend(base, "column", PrintNext(column.value));
    }
  }

  lemma ColumnsParse(column: Option<nat>)
    requires column.Some? ==> column.value < U32_LIMIT
    ensures var pairs := ColumnPairs(column);
            && OnlyParams(pairs, ["symbol", "column"]) && OnlyParams(pairs, ["column"])
            && QueryParam(pairs, "symbol") == None
            && ParseColumn(QueryParam(pairs, "column")) ==
               if column.Some? && column.value + 1 < U32_LIMIT then column else None
  {
    hide PrintNext, OneBased;
    if column.Some? {
      PrintNextIsOneBased(column.value);
      ColumnPair(PrintNext(column.value));
    }
  }

  /** A selection comes back exactly when its path does and no line and no column is the largest u32. */
  lemma SelectionTrip(path: Option<string>, lines: Lines, column: Option<nat>, windows: bool, utf8: string -> bool)
    requires path.Some? ==> IsPathText(path.value, windows, utf8)
    requires lines.InU32() && (column.Some? ==> column.value < U32_LIMIT)
    ensures var m := Selection(path, lines, column);
            ParseMention(Serialize(ToUri(m)), windows, utf8) == Mention(m)
            <==> (path.Some? ==> ComesBack(path.value, windows, utf8))
                 && lines.start + 1 < U32_LIMIT && lines.end + 1 < U32_LIMIT
                 && (column.Some? ==> column.value + 1 < U32_LIMIT)
  {
    hide SetPath, FilePath, ComesBack, Serialize, ParseMention, LineFragment, ParseLineRange, ToUri,
         ColumnPairs, OnlyParams, QueryParam, ParseColumn, QueryPairs, WellFormed;
    var url := ToUri(Selection(path, lines, column));
    SelectionUrl(path, lines, column);
    PrintedIsUrl(url, windows, utf8);
    LineFragmentTrip(lines);
    ColumnsParse(column);
    if path.Some? {
      FilePathTrip(path.value, url, windows, utf8);
    } else {
      hide ParseZedUrl;
      ParseUntitled(url);
    }
  }

  lemma ColumnPair(value: string)
    ensures var pairs := [("column", value)];
            && OnlyParams(pairs, ["symbol", "column"]) && OnlyParams(pairs, ["column"])
            && QueryParam(pairs, "symbol") == None && QueryParam(pairs, "column") == Some(value)
  {
    assert "column"[0] == 'c' && "symbol"[0] == 's';
    assert ["symbol", "column"][1] == "column" && ["column"][0] == "column";
    assert [("column", value)][1..] == [];
  }

  lemma UntitledDispatch()
    ensures var path := "/agent/untitled-buffer"; path[0] == '/' && path[7] == 'u' && "/agent/untitled-buffer" <= path
  {
  }

  lemma ParseUntitled(url: Url)
    requires url.path == "/agent/untitled-buffer" && url.fragment.Some?
    ensures ParseZedUrl(url) ==
            if ParseLineRange(url.fragment.value).None? || !OnlyParams(QueryPairs(url), ["column"]) then Invalid
            else Mention(Selection(None, ParseLineRange(url.fragment.value).value,
                                   ParseColumn(QueryParam(QueryPairs(url), "column"))))
  {
    hide ParseLineRange, OnlyParams, QueryPairs, ParseColumn, QueryParam;
    NoEarlierPrefix(url.path, 'u');
  }

  // ---------- zed URLs ----------

  /** The prefixes under /agent/ that start with another letter do not capture the path. */
  lemma NoEarlierPrefix(path: string, letter: char)
    requires |path| >= 8 && path[7] == letter
    ensures letter != 't' ==> !("/agent/thread/" <= path) && !("/agent/terminal-selection" <= path)
    ensures letter != 'r' ==> !("/agent/rule/" <= path)
    ensures letter != 'd' ==> !("/agent/directory" <= path) && path != "/agent/diagnostics"
    ensures letter != 'p' ==> !("/agent/pasted-image" <= path)
    ensures letter != 'u' ==> !("/agent/untitled-buffer" <= path)
    ensures letter != 's' ==> !("/agent/symbol/" <= path) && !("/agent/selection" <= path)
    ensures letter != 'f' ==> !("/agent/file" <= path)
    ensures letter != 'g' ==> !("/agent/git-diff" <= path)
    ensures letter != 'm' ==> !("/agent/merge-conflict" <= path)
  {
    if path == "/agent/diagnostics" {
      assert path[7] == 'd';
    }
    assert "/agent/thread/"[7] == 't' && "/agent/terminal-selection"[7] == 't' && "/agent/rule/"[7] == 'r';
    assert "/agent/directory"[7] == 'd' && "/agent/pasted-image"[7] == 'p' && "/agent/untitled-buffer"[7] == 'u';
    assert "/agent/symbol/"[7] == 's' && "/agent/selection"[7] == 's' && "/agent/file"[7] == 'f';
    assert "/agent/git-diff"[7] == 'g' && "/agent/merge-conflict"[7] == 'm';
  }

  lemma PairTrip(path: string, key: string, value: string, windows: bool, utf8: string -> bool)
    requires IsBytes(key) && IsBytes(value)
    requires |path| > 0 && path[0] == '/' && '?' !in path && '#' !in path
    ensures var url := AppendPair(ZedUrl(path), key, value);
            && QueryPairs(url) == [(key, value)]
            && ParseMention(Serialize(url), windows, utf8) == ParseZedUrl(url)
  {
    hide Serialize, ParseMention, FormEncode, PairsOf, ParseZedUrl;
    QueryPairsOfAppend(ZedUrl(path), key, value);
    NoPairs(ZedUrl(path));
    PrintedIsUrl(AppendPair(ZedUrl(path), key, value), windows, utf8);
  }

  /** What the path setter puts behind the kind is always URL-safe. */
  lemma BehindIsSafe(kind: string, p: string, id: string)
    requires kind in {"thread", "rule"} && IsBytes(p) && SetPath(p, false) == "/agent/" + kind + "/" + id
    ensures IsUrlSafe(id)
  {
    hide SetPath, Split, IsDot, InPathSet;
    var path := SetPath(p, false);
    SetterOutput(p, false);
    assert path[1..] == "agent" + ['/'] + (kind + ['/'] + id);
    OutputBehind("agent", kind + ['/'] + id, false);
    OutputBehind(kind, id, false);
    OutputIsClean(id, false);
    assert forall i :: 0 <= i < |Split(id, '/')| ==> IsOutput(Split(id, '/')[i]);
    OutputHasNoDots(Split(id, '/'), false);
  }

  /** An id is printed below the kind, whatever it holds, and parsed with the name. */
  lemma IdParses(kind: string, id: string, name: string, windows: bool, utf8: string -> bool)
    requires kind in {"thread", "rule"} && IsBytes(id) && IsBytes(name)
    ensures var url := AppendPair(ZedUrl(SetPath("/agent/" + kind + "/" + id, false)), "name", name);
            ParseMention(Serialize(url), windows, utf8) == ParseZedUrl(url) && QueryPairs(url) == [("name", name)]
  {
    hide SetPath, Split, Serialize, ParseMention, ParseZedUrl, FormEncode, PairsOf, InPathSet, QueryPairs;
    var p := "/agent/" + kind + "/" + id;
    var path := SetPath(p, false);
    assert IsBytes(p);
    SetterOutput(p, false);
    OutputIsClean(path[1..], false);
    MarksAreEscaped();
    assert forall i :: 1 <= i < |path| ==> path[i] == path[1..][i - 1];
    SymbolIsBytes();
    PairTrip(path, "name", name, windows, utf8);
  }

  lemma {:induction false} DiagnosticsKind(pairs: seq<(string, string)>, errors: bool, warnings: bool)
    ensures var r := DiagnosticsOf(pairs, errors, warnings); r.Mention? ==> r.m.Diagnostics?
  {
    if |pairs| > 0 {
      DiagnosticsKind(pairs[1..], pairs[0].1 == "true", warnings);
      DiagnosticsKind(pairs[1..], errors, pairs[0].1 == "true");
    }
  }

  lemma {:induction false} SkillKind(
      pairs: seq<(string, string)>, name: Option<string>, source: Option<string>, path: Option<string>)
    ensures var r := SkillOf(pairs, name, source, path); r.Mention? ==> r.m.Skill?
  {
    if |pairs| > 0 {
      SkillKind(pairs[1..], Some(pairs[0].1), source, path);
      SkillKind(pairs[1..], name, Some(pairs[0].1), path);
      SkillKind(pairs[1..], name, source, Some(pairs[0].1));
    }
  }

  lemma ThreadParses(url: Url, id: string, name: string)
    requires QueryPairs(url) == [("name", name)]
    ensures ParseZedUrl(url) == Mention(Thread(id, name)) <==> "/agent/thread/" <= url.path && url.path[14..] == id
  {
    hide QueryPairs, ParseLineRange, DiagnosticsOf, SkillOf, ParseU32, OnlyParams, QueryParam, ParseColumn;
    DiagnosticsKind(QueryPairs(url), true, false);
    SkillKind(QueryPairs(url), None, None, None);
    assert |"/agent/thread/"| == 14;
  }

  lemma RuleParses(url: Url, uuid: string, name: string)
    requires QueryPairs(url) == [("name", name)]
    ensures ParseZedUrl(url) == Mention(Rule(UserUuid(uuid), name)) <==>
            "/agent/rule/" <= url.path && uuid == if |url.path| == 12 then DEFAULT_RULE_UUID else url.path[12..]
  {
    hide QueryPairs, ParseLineRange, DiagnosticsOf, SkillOf, ParseU32, OnlyParams, QueryParam, ParseColumn;
    DiagnosticsKind(QueryPairs(url), true, false);
    SkillKind(QueryPairs(url), None, None, None);
    assert |"/agent/rule/"| == 12 && "/agent/rule/"[7] == 'r' && "/agent/thread/"[7] == 't';
  }

  lemma DefaultCharacters()
    ensures |DEFAULT_RULE_UUID| > 0 && DEFAULT_RULE_UUID[0] == '0'
    ensures forall c :: c in DEFAULT_RULE_UUID ==> c == '0' || c == '-'
  {
  }

  lemma DefaultIsSafe()
    ensures IsUrlSafe(DEFAULT_RULE_UUID) && |DEFAULT_RULE_UUID| > 0
  {
    hide Split, IsSingleDot, IsDoubleDot;
    DefaultCharacters();
    SafeOfCharacters(DEFAULT_RULE_UUID);
  }

  lemma SafeOfCharacters(id: string)
    requires |id| > 0 && id[0] == '0' && forall c :: c in id ==> c == '0' || c == '-'
    ensures IsUrlSafe(id)
  {
    hide Split, IsSingleDot, IsDoubleDot;
    SplitWithout(id, '/');
    NotDots(id);
    forall i | 0 <= i < |id|
      ensures !InPathSet(id[i])
    {
      assert id[i] in id;
    }
  }

  /** A thread comes back if and only if its id is URL-safe. */
  lemma ThreadTrip(id: string, name: string, windows: bool, utf8: string -> bool)
    requires IsBytes(id) && IsBytes(name)
    ensures ParseMention(Serialize(ToUri(Thread(id, name))), windows, utf8) == Mention(Thread(id, name))
            <==> IsUrlSafe(id)
  {
    hide SetPath, Serialize, ParseMention, ParseZedUrl, FormEncode, PairsOf, IsUrlSafe, QueryPairs;
    var printed := "/agent/thread/" + id;
    assert printed == "/agent/" + "thread" + "/" + id && printed[14..] == id;
    var path := SetPath(printed, false);
    IdParses("thread", id, name, windows, utf8);
    ThreadParses(ToUri(Thread(id, name)), id, name);
    if IsUrlSafe(id) {
      AgentIdPath("thread", id);
    } else if "/agent/thread/" <= path && path[14..] == id {
      assert path == "/agent/" + "thread" + "/" + id;
      BehindIsSafe("thread", printed, id);
    }
  }

  /** A legacy rule keeps its id if and only if it is a nonempty uuid that the URL does not escape. */
  lemma RuleTrip(uuid: string, name: string, windows: bool, utf8: string -> bool)
    requires IsBytes(uuid) && IsBytes(name)
    ensures ParseMention(Serialize(ToUri(Rule(UserUuid(uuid), name))), windows, utf8)
              == Mention(Rule(UserUuid(uuid), name))
            <==> IsUrlSafe(uuid) && |uuid| > 0
  {
    hide SetPath, Serialize, ParseMention, ParseZedUrl, FormEncode, PairsOf, IsUrlSafe, QueryPairs;
    var printed := "/agent/rule/" + uuid;
    assert printed == "/agent/" + "rule" + "/" + uuid && printed[12..] == uuid;
    var path := SetPath(printed, false);
    IdParses("rule", uuid, name, windows, utf8);
    RuleParses(ToUri(Rule(UserUuid(uuid), name)), uuid, name);
    DefaultIsSafe();
    if IsUrlSafe(uuid) {
      AgentIdPath("rule", uuid);
    } else if "/agent/rule/" <= path && path[12..] == uuid {
      assert path == "/agent/" + "rule" + "/" + uuid;
      BehindIsSafe("rule", printed, uuid);
    }
  }

  lemma DiagnosticsTrip(errors: bool, warnings: bool, windows: bool, utf8: string -> bool)
    ensures ParseMention(Serialize(ToUri(Diagnostics(errors, warnings))), windows, utf8)
            == Mention(Diagnostics(errors, warnings))
  {
    hide SetPath, Serialize, ParseMention, FormEncode, PairsOf, QueryPairs, DiagnosticsOf, ParseZedUrl;
    AgentPath("diagnostics", "/agent/diagnostics");
    SymbolIsBytes();
    FlagsAreBytes();
    var base := ZedUrl("/agent/diagnostics");
    var second := if warnings then AppendPair(base, "include_warnings", "true") else base;
    var url := ToUri(Diagnostics(errors, warnings));
    NoPairs(base);
    QueryPairsOfAppend(base, "include_warnings", "true");
    QueryPairsOfAppend(second, "include_errors", "false");
    assert url == if errors then second else AppendPair(second, "include_errors", "false");
    assert base.path[0] == '/';
    assert WellFormed(url);
    PrintedIsUrl(url, windows, utf8);
    ParseZedDiagnostics(url);
    DiagnosticsPairs(QueryPairs(url), errors, warnings);
  }

  lemma ParseZedDiagnostics(url: Url)
    requires url.path == "/agent/diagnostics"
    ensures ParseZedUrl(url) == DiagnosticsOf(QueryPairs(url), true, false)
  {
    hide QueryPairs, DiagnosticsOf;
    NoEarlierPrefix(url.path, 'd');
  }

  lemma DiagnosticsPairs(pairs: seq<(string, string)>, errors: bool, warnings: bool)
    requires pairs == (if warnings then [("include_warnings", "true")] else [])
                      + (if errors then [] else [("include_errors", "false")])
    ensures DiagnosticsOf(pairs, true, false) == Mention(Diagnostics(errors, warnings))
  {
    assert "include_errors"[8] == 'e' && "include_warnings"[8] == 'w';
    assert "true"[0] == 't' && "false"[0] == 'f';
    var last := if warnings then pairs[1..] else pairs;
    assert last == if errors then [] else [("include_errors", "false")];
    assert !errors ==> last[1..] == [];
    assert DiagnosticsOf(last, true, warnings) == Mention(Diagnostics(errors, warnings));
  }

  lemma PastedImageTrip(name: string, windows: bool, utf8: string -> bool)
    requires IsBytes(name)
    ensures ParseMention(Serialize(ToUri(PastedImage(name))), windows, utf8) == Mention(PastedImage(name))
  {
    hide Serialize, ParseMention, FormEncode, QueryPairs, ParseZedUrl;
    SymbolIsBytes();
    PairTrip("/agent/pasted-image", "name", name, windows, utf8);
    ParseZedPastedImage(AppendPair(ZedUrl("/agent/pasted-image"), "name", name), name);
  }

  lemma ParseZedPastedImage(url: Url, value: string)
    requires url.path == "/agent/pasted-image" && QueryPairs(url) == [("name", value)]
    ensures ParseZedUrl(url) == Mention(PastedImage(value))
  {
    hide QueryPairs;
    NoEarlierPrefix(url.path, 'p');
  }

  lemma GitDiffTrip(base: string, windows: bool, utf8: string -> bool)
    requires IsBytes(base)
    ensures ParseMention(Serialize(ToUri(GitDiff(base))), windows, utf8) == Mention(GitDiff(base))
  {
    hide Serialize, ParseMention, FormEncode, QueryPairs, ParseZedUrl;
    SymbolIsBytes();
    PairTrip("/agent/git-diff", "base", base, windows, utf8);
    ParseZedGitDiff(AppendPair(ZedUrl("/agent/git-diff"), "base", base), base);
  }

  lemma ParseZedGitDiff(url: Url, value: string)
    requires url.path == "/agent/git-diff" && QueryPairs(url) == [("base", value)]
    ensures ParseZedUrl(url) == Mention(GitDiff(value))
  {
    hide QueryPairs;
    NoEarlierPrefix(url.path, 'g');
  }

  lemma MergeConflictTrip(p: string, windows: bool, utf8: string -> bool)
    requires IsBytes(p)
    ensures ParseMention(Serialize(ToUri(MergeConflict(p))), windows, utf8) == Mention(MergeConflict(p))
  {
    hide Serialize, ParseMention, FormEncode, QueryPairs, ParseZedUrl;
    SymbolIsBytes();
    PairTrip("/agent/merge-conflict", "path", p, windows, utf8);
    ParseZedMergeConflict(AppendPair(ZedUrl("/agent/merge-conflict"), "path", p), p);
  }

  lemma ParseZedMergeConflict(url: Url, value: string)
    requires url.path == "/agent/merge-conflict" && QueryPairs(url) == [("path", value)]
    ensures ParseZedUrl(url) == Mention(MergeConflict(value))
  {
    hide QueryPairs;
    NoEarlierPrefix(url.path, 'm');
  }

  lemma TerminalSelectionTrip(n: nat, windows: bool, utf8: string -> bool)
    requires n < U32_LIMIT
    ensures ParseMention(Serialize(ToUri(TerminalSelection(n))), windows, utf8) == Mention(TerminalSelection(n))
  {
    hide Serialize, ParseMention, FormEncode, QueryPairs, ToDecimal, ParseU32, ParseZedUrl;
    SymbolIsBytes();
    U32RoundTrip(n);
    DigitsAreBytes(ToDecimal(n));
    PairTrip("/agent/terminal-selection", "lines", ToDecimal(n), windows, utf8);
    ParseZedTerminal(AppendPair(ZedUrl("/agent/terminal-selection"), "lines", ToDecimal(n)), ToDecimal(n));
  }

  lemma ParseZedTerminal(url: Url, lines: string)
    requires url.path == "/agent/terminal-selection" && QueryPairs(url) == [("lines", lines)]
    ensures ParseZedUrl(url) == Mention(TerminalSelection(if ParseU32(lines).Some? then ParseU32(lines).value else 0))
  {
    hide QueryPairs, ParseU32;
    NoEarlierPrefix(url.path, 't');
    NotAPrefix("/agent/thread/", url.path, 8);
  }

  lemma SkillTrip(name: string, source: string, p: string, windows: bool, utf8: string -> bool)
    requires IsBytes(name) && IsBytes(source) && IsBytes(p)
    ensures ParseMention(Serialize(ToUri(Skill(name, source, p))), windows, utf8) == Mention(Skill(name, source, p))
  {
    hide SetPath, Serialize, ParseMention, FormEncode, PairsOf, QueryPairs, SkillOf, ParseZedUrl;
    AgentPath("skill", "/agent/skill");
    SymbolIsBytes();
    var base := ZedUrl("/agent/skill");
    var one := AppendPair(base, "name", name);
    var two := AppendPair(one, "source", source);
    var url := AppendPair(two, "path", p);
    NoPairs(base);
    QueryPairsOfAppend(base, "name", name);
    QueryPairsOfAppend(one, "source", source);
    QueryPairsOfAppend(two, "path", p);
    assert base.path[0] == '/';
    assert WellFormed(url);
    PrintedIsUrl(url, windows, utf8);
    ParseZedSkill(url);
    SkillPairs(name, source, p);
    assert QueryPairs(url) == [("name", name), ("source", source), ("path", p)];
  }

  lemma ParseZedSkill(url: Url)
    requires url.path == "/agent/skill"
    ensures ParseZedUrl(url) == SkillOf(QueryPairs(url), None, None, None)
  {
    hide QueryPairs, SkillOf;
    NoEarlierPrefix(url.path, 's');
    NotAPrefix("/agent/symbol/", "/agent/skill", 8);
    NotAPrefix("/agent/selection", "/agent/skill", 8);
  }

  lemma SkillPairs(name: string, source: string, p: string)
    ensures SkillOf([("name", name), ("source", source), ("path", p)], None, None, None)
            == Mention(Skill(name, source, p))
  {
    assert "name"[0] == 'n' && "source"[0] == 's' && "path"[0] == 'p';
    var third := [("path", p)];
    assert third[1..] == [];
    assert SkillOf(third, Some(name), Some(source), None) == Mention(Skill(name, source, p));
    var second := [("source", source), ("path", p)];
    assert second[1..] == third;
    assert SkillOf(second, Some(name), None, None) == Mention(Skill(name, source, p));
    var pairs := [("name", name), ("source", source), ("path", p)];
    assert pairs[1..] == second;
  }

  lemma FetchTrip(url: Url, windows: bool, utf8: string -> bool)
    requires WellFormed(url) && url.scheme in {"http", "https"}
    ensures ParseMention(Serialize(ToUri(Fetch(url))), windows, utf8) == Mention(Fetch(url))
  {
    hide Serialize, ParseMention, WellFormed;
    PrintedIsUrl(url, windows, utf8);
    assert "file"[0] == 'f' && "zed"[0] == 'z' && url.scheme[0] == 'h';
  }

  // ---------- Every mention ----------

  /** Line, column and count fields are u32, a fetched URL is one, and paths are text. */
  ghost predicate HasTypes(m: MentionUri, windows: bool, utf8: string -> bool)
  {
    StringsAreBytes(m) &&
    match m
    case File(p) => IsPathText(p, windows, utf8)
    case Directory(p) => IsPathText(DirectoryPath(p, windows), windows, utf8)
    case Symbol(p, _, lines) => IsPathText(p, windows, utf8) && lines.InU32()
    case Selection(p, lines, column) =>
      && (p.Some? ==> IsPathText(p.value, windows, utf8))
      && lines.InU32() && (column.Some? ==> column.value < U32_LIMIT)
    case TerminalSelection(n) => n < U32_LIMIT
    case Fetch(url) => WellFormed(url) && url.scheme in {"http", "https"}
    case _ => true
  }

  ghost predicate CanRoundTrip(m: MentionUri, windows: bool, utf8: string -> bool)
  {
    match m
    case File(p) => ComesBack(p, windows, utf8) && !EndsWithSlash(ForwardSlashes(p))
    case Directory(p) => ComesBack(DirectoryPath(p, windows), windows, utf8)
    case Symbol(p, _, lines) =>
      ComesBack(p, windows, utf8) && lines.start + 1 < U32_LIMIT && lines.end + 1 < U32_LIMIT
    case Selection(p, lines, column) =>
      && (p.Some? ==> ComesBack(p.value, windows, utf8))
      && lines.start + 1 < U32_LIMIT && lines.end + 1 < U32_LIMIT && (column.Some? ==> column.value + 1 < U32_LIMIT)
    case Thread(id, _) => IsUrlSafe(id)
    case Rule(id, _) => id.UserUuid? && |id.uuid| > 0 && IsUrlSafe(id.uuid)
    case _ => true
  }

  lemma OtherRuleIsLost(id: RuleId, name: string, windows: bool, utf8: string -> bool)
    requires id.OtherId? && IsBytes(RuleUuid(id)) && IsBytes(name)
    ensures ParseMention(Serialize(ToUri(Rule(id, name))), windows, utf8) != Mention(Rule(id, name))
  {
    hide SetPath, Serialize, ParseMention, ParseZedUrl, FormEncode, PairsOf, QueryPairs;
    var printed := "/agent/rule/" + RuleUuid(id);
    assert printed == "/agent/" + "rule" + "/" + RuleUuid(id);
    IdParses("rule", RuleUuid(id), name, windows, utf8);
    NoOtherRule(ToUri(Rule(id, name)));
  }

  lemma NoOtherRule(url: Url)
    ensures match ParseZedUrl(url) case Mention(Rule(id, _)) => id.UserUuid? case _ => true
  {
    hide QueryPairs, ParseLineRange, DiagnosticsOf, SkillOf, ParseU32, OnlyParams, QueryParam, ParseColumn, WithSingle;
    DiagnosticsKind(QueryPairs(url), true, false);
    SkillKind(QueryPairs(url), None, None, None);
  }

  /** Every variant, a directory with its trailing separator, comes back if and only if it meets the condition:
      the path is one that comes back, a file does not end in a separator, no line or column is the largest
      u32, and ids are URL-safe uuids. */
  lemma MentionRoundTripIff(m: MentionUri, windows: bool, utf8: string -> bool)
    requires HasTypes(m, windows, utf8)
    ensures ParseMention(Serialize(ToUri(m)), windows, utf8)
            == Mention(if m.Directory? then Directory(DirectoryPath(m.absPath, windows)) else m)
            <==> CanRoundTrip(m, windows, utf8)
  {
    hide ParseMention, Serialize, ToUri, IsPathText, ComesBack, IsUrlSafe, IsBytes, WellFormed, DirectoryPath,
        ForwardSlashes, EndsWithSlash;
    match m {
      case File(p) => FileTripIff(p, windows, utf8);
      case PastedImage(name) => PastedImageTrip(name, windows, utf8);
      case Directory(p) => DirectoryTrip(p, windows, utf8);
      case Symbol(p, name, lines) => SymbolTrip(p, name, lines, windows, utf8);
      case Thread(id, name) => ThreadTrip(id, name, windows, utf8);
      case Rule(id, name) =>
        if id.UserUuid? {
          RuleTrip(id.uuid, name, windows, utf8);
        } else {
          OtherRuleIsLost(id, name, windows, utf8);
        }
      case Diagnostics(errors, warnings) => DiagnosticsTrip(errors, warnings, windows, utf8);
      case Selection(p, lines, column) => SelectionTrip(p, lines, column, windows, utf8);
      case Fetch(url) => FetchTrip(url, windows, utf8);
      case TerminalSelection(n) => TerminalSelectionTrip(n, windows, utf8);
      case GitDiff(base) => GitDiffTrip(base, windows, utf8);
      case MergeConflict(p) => MergeConflictTrip(p, windows, utf8);
      case Skill(name, source, p) => SkillTrip(name, source, p, windows, utf8);
    }
  }
}

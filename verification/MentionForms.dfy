/** What the parser makes of mentions that the printer does not write: legacy URLs, defaults, other spellings,
    and input that is rejected. */
module MentionForms {
  import opened Wrappers
  import opened Strings
  import opened Decimals
  import opened PercentCode
  import opened UrlModel
  import opened Mention
  import opened LineRanges
  import opened FilePaths
  import opened MentionTrip

  // ---------- Around the URL ----------

  /** Backticks around the input do not matter. */
  lemma BackticksAreStripped(s: string, windows: bool, utf8: string -> bool)
    requires |s| > 0 && s[0] != '`'
    ensures ParseMention("`" + s + "`", windows, utf8) == ParseMention(s, windows, utf8)
  {
    hide IsAbsolute, ContainsSchemeSeparator, BareMention, ParseUrl, ParseFileUrl, ParseZedUrl;
    var t := "`" + s + "`";
    assert t[1..|t| - 1] == s;
    assert StripBackticks(t) == StripBackticks(s) == s;
  }

  lemma {:induction false} NoSeparatorIn(s: string)
    requires ':' !in s
    ensures !ContainsSchemeSeparator(s)
  {
    if |s| > 0 {
      NoSeparatorIn(s[1..]);
      assert s[0] in s;
    }
  }

  /** A rooted path is no URL; behind `#` it may have any spelling of a line range. */
  lemma BarePathParses(path: string, fragment: string, a: nat, b: nat, windows: bool, utf8: string -> bool)
    requires |path| > 0 && path[0] == '/' && '#' !in path && ':' !in path && ':' !in fragment && '`' !in path
    requires ParseLineRange(fragment) == Some(Lines(a, b))
    ensures ParseMention(path + "#" + fragment, windows, utf8) == Mention(Selection(Some(path), Lines(a, b), None))
    ensures ParseMention(path, windows, utf8) == BarePath(path)
  {
    hide ParseLineRange, Cut;
    var s := path + ['#'] + fragment;
    assert s[0] == '/' && path + "#" + fragment == s;
    NoSeparatorIn(s);
    NoSeparatorIn(path);
    CutAtFirst(path, '#', fragment);
    CutWithout(path, '#');
  }

  /** An http or https URL is a page to fetch, and any other scheme than these, file and zed is an error. */
  lemma OtherSchemes(url: Url, windows: bool, utf8: string -> bool)
    requires WellFormed(url) && |url.scheme| >= 2 && 'a' <= url.scheme[0] <= 'z' && 'a' <= url.scheme[1] <= 'z'
    requires url.scheme !in {"file", "zed"}
    ensures ParseMention(Serialize(url), windows, utf8) ==
            if url.scheme == "http" || url.scheme == "https" then Mention(Fetch(url)) else Invalid
  {
    hide ParseUrl, ParseFileUrl, ParseZedUrl, ContainsSchemeSeparator, WellFormed;
    var s := Serialize(url);
    assert s[0] == url.scheme[0] && s[1] == url.scheme[1];
    ParseUrlOfSerialize(url);
  }

  // ---------- File URLs ----------

  /** A fragment that is no line range means the second line. */
  lemma BadFragmentIsSecondLine(p: string, fragment: string, windows: bool, utf8: string -> bool)
    requires IsPathText(p, windows, utf8) && ComesBack(p, windows, utf8) && ParseLineRange(fragment) == None
    ensures ParseMention(Serialize(FileUrl(p).(fragment := Some(fragment))), windows, utf8)
            == Mention(Selection(Some(p), Lines(1, 1), None))
  {
    hide SetPath, FilePath, ComesBack, Serialize, ParseMention, ParseLineRange;
    var url := FileUrl(p).(fragment := Some(fragment));
    FileUrlIsWellFormed(p);
    PrintedIsUrl(url, windows, utf8);
    FilePathTrip(p, url, windows, utf8);
    NoPairs(url);
  }

  /** A parameter that a file URL with a fragment does not know is an error. */
  lemma UnknownParameter(p: string, key: string, value: string, fragment: string, windows: bool, utf8: string -> bool)
    requires IsBytes(p) && IsBytes(key) && IsBytes(value) && key !in ["symbol", "column"]
    ensures ParseMention(Serialize(AppendPair(FileUrl(p), key, value).(fragment := Some(fragment))), windows, utf8)
            == Invalid
  {
    hide SetPath, FilePath, Serialize, ParseMention, ParseLineRange, FormEncode, PairsOf;
    var url := AppendPair(FileUrl(p), key, value).(fragment := Some(fragment));
    FileUrlIsWellFormed(p);
    QueryPairsOfAppend(FileUrl(p), key, value);
    NoPairs(FileUrl(p));
    assert QueryPairs(url) == [(key, value)];
    PrintedIsUrl(url, windows, utf8);
    assert [(key, value)][0].0 == key;
  }

  // ---------- zed URLs ----------

  lemma ZedParses(url: Url, windows: bool, utf8: string -> bool)
    requires WellFormed(url) && url.scheme == "zed"
    ensures ParseMention(Serialize(url), windows, utf8) == ParseZedUrl(url)
  {
    hide Serialize, ParseMention, ParseZedUrl, ParseFileUrl;
    PrintedIsUrl(url, windows, utf8);
  }

  /** Files and directories with the path as a parameter */
  lemma PathParameter(p: string, windows: bool, utf8: string -> bool)
    requires IsBytes(p)
    ensures ParseMention(Serialize(AppendPair(ZedUrl("/agent/file"), "path", p)), windows, utf8) == Mention(File(p))
    ensures ParseMention(Serialize(AppendPair(ZedUrl("/agent/directory"), "path", p)), windows, utf8)
            == Mention(Directory(p))
  {
    hide Serialize, ParseMention, FormEncode, QueryPairs, ParseZedUrl;
    SymbolIsBytes();
    PairTrip("/agent/file", "path", p, windows, utf8);
    PairTrip("/agent/directory", "path", p, windows, utf8);
    FileDispatch(AppendPair(ZedUrl("/agent/file"), "path", p), p);
    DirectoryDispatch(AppendPair(ZedUrl("/agent/directory"), "path", p), p);
  }

  lemma FileDispatch(url: Url, p: string)
    requires url.path == "/agent/file" && QueryPairs(url) == [("path", p)]
    ensures ParseZedUrl(url) == Mention(File(p))
  {
    hide QueryPairs;
    NoEarlierPrefix(url.path, 'f');
  }

  lemma DirectoryDispatch(url: Url, p: string)
    requires url.path == "/agent/directory" && QueryPairs(url) == [("path", p)]
    ensures ParseZedUrl(url) == Mention(Directory(p))
  {
    hide QueryPairs;
    NoEarlierPrefix(url.path, 'd');
    NotAPrefix("/agent/diagnostics", url.path, 9);
  }

  /** A symbol with its name in the path, any spelling of its lines, and its file as a parameter */
  lemma SymbolParameter(name: string, p: string, fragment: string, a: nat, b: nat, windows: bool, utf8: string -> bool)
    requires IsBytes(p) && '?' !in name && '#' !in name && ParseLineRange(fragment) == Some(Lines(a, b))
    ensures var url := AppendPair(ZedUrl("/agent/symbol/" + name), "path", p).(fragment := Some(fragment));
            ParseMention(Serialize(url), windows, utf8) == Mention(Symbol(p, name, Lines(a, b)))
  {
    hide Serialize, ParseMention, FormEncode, QueryPairs, ParseZedUrl, ParseLineRange;
    SymbolIsBytes();
    var base := ZedUrl("/agent/symbol/" + name);
    var url := AppendPair(base, "path", p).(fragment := Some(fragment));
    QueryPairsOfAppend(base, "path", p);
    NoQuery(base);
    SamePairs(AppendPair(base, "path", p), url);
    assert url.path[0] == '/';
    ZedParses(url, windows, utf8);
    SymbolDispatch(url, name, p);
  }

  lemma NoQuery(url: Url)
    requires url.query == None
    ensures QueryPairs(url) == []
  {
  }

  lemma SamePairs(url: Url, other: Url)
    requires url.query == other.query
    ensures QueryPairs(url) == QueryPairs(other)
  {
  }

  lemma SymbolDispatch(url: Url, name: string, p: string)
    requires url.path == "/agent/symbol/" + name && QueryPairs(url) == [("path", p)]
    requires url.fragment.Some? && ParseLineRange(url.fragment.value).Some?
    ensures ParseZedUrl(url) == Mention(Symbol(p, name, ParseLineRange(url.fragment.value).value))
  {
    hide QueryPairs, ParseLineRange;
    NoEarlierPrefix(url.path, 's');
    assert |"/agent/symbol/"| == 14 && url.path[14..] == name;
  }

  /** A selection with its file as a parameter, and maybe a column */
  lemma SelectionParameter(p: string, column: Option<nat>, fragment: string, a: nat, b: nat, windows: bool,
                           utf8: string -> bool)
    requires IsBytes(p) && ParseLineRange(fragment) == Some(Lines(a, b))
    requires column.Some? ==> column.value + 1 < U32_LIMIT
    ensures var base := AppendPair(ZedUrl("/agent/selection"), "path", p);
            var full := if column.Some? then AppendPair(base, "column", PrintNext(column.value)) else base;
            ParseMention(Serialize(full.(fragment := Some(fragment))), windows, utf8)
            == Mention(Selection(Some(p), Lines(a, b), column))
  {
    hide Serialize, ParseMention, FormEncode, QueryPairs, ParseZedUrl, ParseLineRange, PrintNext, OneBased;
    SymbolIsBytes();
    var bare := ZedUrl("/agent/selection");
    var base := AppendPair(bare, "path", p);
    var full := if column.Some? then AppendPair(base, "column", PrintNext(column.value)) else base;
    var url := full.(fragment := Some(fragment));
    NoQuery(bare);
    QueryPairsOfAppend(bare, "path", p);
    if column.Some? {
      PrintNextIsOneBased(column.value);
      DigitsAreBytes(PrintNext(column.value));
      QueryPairsOfAppend(base, "column", PrintNext(column.value));
    }
    SamePairs(full, url);
    assert QueryPairs(url) == [("path", p)] + ColumnPairs(column);
    assert url.path[0] == '/';
    ZedParses(url, windows, utf8);
    SelectionPairs(p, column);
    SelectionDispatch(url, p);
  }

  lemma SelectionPairs(p: string, column: Option<nat>)
    requires column.Some? ==> column.value + 1 < U32_LIMIT
    ensures var pairs := [("path", p)] + ColumnPairs(column);
            && OnlyParams(pairs, ["path", "column"]) && QueryParam(pairs, "path") == Some(p)
            && ParseColumn(QueryParam(pairs, "column")) == column
  {
    hide PrintNext, OneBased;
    var pairs := [("path", p)] + ColumnPairs(column);
    assert "path"[0] == 'p' && "column"[0] == 'c';
    assert ["path", "column"][0] == "path" && ["path", "column"][1] == "column";
    assert pairs[1..] == ColumnPairs(column);
    if column.Some? {
      PrintNextIsOneBased(column.value);
    }
  }

  lemma SelectionDispatch(url: Url, p: string)
    requires url.path == "/agent/selection" && url.fragment.Some? && ParseLineRange(url.fragment.value).Some?
    requires OnlyParams(QueryPairs(url), ["path", "column"]) && QueryParam(QueryPairs(url), "path") == Some(p)
    ensures ParseZedUrl(url) ==
            Mention(Selection(Some(p), ParseLineRange(url.fragment.value).value,
                              ParseColumn(QueryParam(QueryPairs(url), "column"))))
  {
    hide QueryPairs, ParseLineRange, OnlyParams, QueryParam, ParseColumn;
    NoEarlierPrefix(url.path, 's');
    NotAPrefix("/agent/symbol/", url.path, 8);
  }

  /** What is meant when the parameter is missing */
  lemma Defaults(windows: bool, utf8: string -> bool)
    ensures ParseMention(Serialize(ZedUrl("/agent/pasted-image")), windows, utf8) == Mention(PastedImage("Image"))
    ensures ParseMention(Serialize(ZedUrl("/agent/git-diff")), windows, utf8) == Mention(GitDiff("main"))
    ensures ParseMention(Serialize(ZedUrl("/agent/merge-conflict")), windows, utf8) == Mention(MergeConflict(""))
    ensures ParseMention(Serialize(ZedUrl("/agent/terminal-selection")), windows, utf8) == Mention(TerminalSelection(0))
  {
    hide Serialize, ParseMention, ParseZedUrl, QueryPairs;
    forall path | path in {"/agent/pasted-image", "/agent/git-diff", "/agent/merge-conflict",
                           "/agent/terminal-selection"}
      ensures ParseMention(Serialize(ZedUrl(path)), windows, utf8) == ParseZedUrl(ZedUrl(path))
      ensures QueryPairs(ZedUrl(path)) == []
    {
      PathCharacters(path);
      NoQuery(ZedUrl(path));
      ZedParses(ZedUrl(path), windows, utf8);
    }
    DefaultImage(ZedUrl("/agent/pasted-image"));
    DefaultBase(ZedUrl("/agent/git-diff"));
    DefaultConflict(ZedUrl("/agent/merge-conflict"));
    DefaultCount(ZedUrl("/agent/terminal-selection"));
  }

  lemma PathCharacters(path: string)
    requires path in {"/agent/pasted-image", "/agent/git-diff", "/agent/merge-conflict", "/agent/terminal-selection"}
    ensures |path| > 0 && path[0] == '/' && '?' !in path && '#' !in path
  {
  }

  lemma DefaultImage(url: Url)
    requires url.path == "/agent/pasted-image" && QueryPairs(url) == []
    ensures ParseZedUrl(url) == Mention(PastedImage("Image"))
  {
    hide QueryPairs;
    NoEarlierPrefix(url.path, 'p');
  }

  lemma DefaultBase(url: Url)
    requires url.path == "/agent/git-diff" && QueryPairs(url) == []
    ensures ParseZedUrl(url) == Mention(GitDiff("main"))
  {
    hide QueryPairs;
    NoEarlierPrefix(url.path, 'g');
  }

  lemma DefaultConflict(url: Url)
    requires url.path == "/agent/merge-conflict" && QueryPairs(url) == []
    ensures ParseZedUrl(url) == Mention(MergeConflict(""))
  {
    hide QueryPairs;
    NoEarlierPrefix(url.path, 'm');
  }

  lemma DefaultCount(url: Url)
    requires url.path == "/agent/terminal-selection" && QueryPairs(url) == []
    ensures ParseZedUrl(url) == Mention(TerminalSelection(0))
  {
    hide QueryPairs, ParseU32;
    ParseZero();
    NoEarlierPrefix(url.path, 't');
    NotAPrefix("/agent/thread/", url.path, 8);
  }

  lemma ParseZero()
    ensures ParseU32("0") == Some(0)
  {
    assert "0"[..0] == "" && DigitsValue("0"[..0]) == 0;
  }

  /** A thread or a legacy rule needs a name, and nothing else. */
  lemma NameIsNeeded(url: Url)
    requires "/agent/thread/" <= url.path || "/agent/rule/" <= url.path
    ensures ParseZedUrl(url).Mention? <==> |QueryPairs(url)| == 1 && QueryPairs(url)[0].0 == "name"
    ensures ParseZedUrl(url).Mention? || ParseZedUrl(url) == Invalid
  {
    hide QueryPairs;
  }

  /** An empty rule id stands for the default rule. */
  lemma EmptyRuleIsDefault(name: string, windows: bool, utf8: string -> bool)
    requires IsBytes(name)
    ensures ParseMention(Serialize(ToUri(Rule(UserUuid(""), name))), windows, utf8)
            == Mention(Rule(UserUuid("00000000-0000-0000-0000-000000000000"), name))
  {
    hide SetPath, Serialize, ParseMention, ParseZedUrl, FormEncode, PairsOf, QueryPairs;
    assert "/agent/rule/" + "" == "/agent/" + "rule" + "/" + "";
    IdParses("rule", "", name, windows, utf8);
    SafeOfNothing();
    AgentIdPath("rule", "");
    RuleWithoutId(ToUri(Rule(UserUuid(""), name)), name);
  }

  lemma SafeOfNothing()
    ensures IsUrlSafe("")
  {
    assert Split("", '/') == [""];
  }

  lemma RuleWithoutId(url: Url, name: string)
    requires url.path == "/agent/rule/" && QueryPairs(url) == [("name", name)]
    ensures ParseZedUrl(url) == Mention(Rule(UserUuid("00000000-0000-0000-0000-000000000000"), name))
  {
    hide QueryPairs;
    NoEarlierPrefix(url.path, 'r');
    assert |"/agent/rule/"| == 12 && url.path[12..] == "";
  }

  // ---------- The printed text ----------

  /** A key or a value of lower-case letters and underscores is not encoded. */
  lemma {:induction false} PlainForm(s: string)
    requires forall i :: 0 <= i < |s| ==> 'a' <= s[i] <= 'z' || s[i] == '_'
    ensures FormEncode(s) == s
  {
    if |s| > 0 {
      PlainForm(s[1..]);
    }
  }

  lemma PlainKeys()
    ensures FormEncode("name") == "name" && FormEncode("symbol") == "symbol" && FormEncode("column") == "column"
    ensures FormEncode("lines") == "lines" && FormEncode("base") == "base" && FormEncode("path") == "path"
    ensures FormEncode("source") == "source" && FormEncode("include_warnings") == "include_warnings"
    ensures FormEncode("include_errors") == "include_errors" && FormEncode("true") == "true"
    ensures FormEncode("false") == "false"
  {
    hide FormEncode;
    PlainForm("name");
    PlainForm("symbol");
    PlainForm("column");
    PlainForm("lines");
    PlainForm("base");
    PlainForm("path");
    PlainForm("source");
    PlainForm("include_warnings");
    PlainForm("include_errors");
    PlainForm("true");
    PlainForm("false");
  }

  lemma ZedText(path: string, key: string, value: string)
    requires FormEncode(key) == key
    ensures Serialize(AppendPair(ZedUrl(path), key, value)) == "zed://" + path + "?" + key + "=" + FormEncode(value)
  {
    hide FormEncode;
    var url := AppendPair(ZedUrl(path), key, value);
    var pair := key + "=" + FormEncode(value);
    assert Serialize(url) == "zed" + "://" + "" + path + ("?" + pair) + "";
    assert "zed" + "://" + "" == "zed://";
    assert "zed://" + path + ("?" + pair) + "" == "zed://" + path + "?" + key + "=" + FormEncode(value);
  }

  /** What is printed for mentions with one parameter */
  lemma PrintedText(text: string, n: nat)
    ensures Serialize(ToUri(PastedImage(text))) ==
            "zed://" + "/agent/pasted-image" + "?" + "name" + "=" + FormEncode(text)
    ensures Serialize(ToUri(GitDiff(text))) == "zed://" + "/agent/git-diff" + "?" + "base" + "=" + FormEncode(text)
    ensures Serialize(ToUri(MergeConflict(text))) ==
            "zed://" + "/agent/merge-conflict" + "?" + "path" + "=" + FormEncode(text)
    ensures Serialize(ToUri(TerminalSelection(n))) ==
            "zed://" + "/agent/terminal-selection" + "?" + "lines" + "=" + FormEncode(ToDecimal(n))
  {
    hide FormEncode, ToDecimal, Serialize;
    PlainKeys();
    ZedText("/agent/pasted-image", "name", text);
    ZedText("/agent/git-diff", "base", text);
    ZedText("/agent/merge-conflict", "path", text);
    ZedText("/agent/terminal-selection", "lines", ToDecimal(n));
  }

  /** And for threads, whose ids are part of the path, */
  lemma PrintedId(id: string, name: string)
    requires IsUrlSafe(id)
    ensures Serialize(ToUri(Thread(id, name))) ==
            "zed://" + ("/agent/thread/" + id) + "?" + "name" + "=" + FormEncode(name)
  {
    hide FormEncode, SetPath, IsUrlSafe, Serialize;
    PlainKeys();
    AgentIdPath("thread", id);
    assert "/agent/" + "thread" + "/" + id == "/agent/thread/" + id;
    ZedText("/agent/thread/" + id, "name", name);
  }

  /** and for legacy rules */
  lemma PrintedRule(id: string, name: string)
    requires IsUrlSafe(id)
    ensures Serialize(ToUri(Rule(UserUuid(id), name))) ==
            "zed://" + ("/agent/rule/" + id) + "?" + "name" + "=" + FormEncode(name)
  {
    hide FormEncode, SetPath, IsUrlSafe, Serialize;
    PlainKeys();
    AgentIdPath("rule", id);
    assert "/agent/" + "rule" + "/" + id == "/agent/rule/" + id;
    ZedText("/agent/rule/" + id, "name", name);
  }

  /** Line ranges are printed with a colon, and 1-based. */
  lemma PrintedLines(lines: Lines)
    requires lines.start + 1 < U32_LIMIT && lines.end + 1 < U32_LIMIT
    ensures LineFragment(lines) == "L" + ToDecimal(lines.start + 1) + ":" + ToDecimal(lines.end + 1)
  {
    hide ToDecimal;
  }
}

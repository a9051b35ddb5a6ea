/** Mention URIs: the printer and the parser of the agent panel. */
module Mention {
  import opened Wrappers
  import opened Strings
  import opened Decimals
  import opened PercentCode
  import opened UrlModel
  import opened WindowsPath

  /** A 0-based inclusive line range of u32 values */
  datatype Lines = Lines(start: nat, end: nat) {
    predicate InU32() { start < U32_LIMIT && end < U32_LIMIT }
  }

  /** The opaque JSON id of a legacy rule: exactly `{"User": {"uuid": ..}}`, or anything else together
      with the string that looking up User.uuid in it finds. */
  datatype RuleId = UserUuid(uuid: string) | OtherId(found: Option<string>)

  datatype MentionUri =
    | File(absPath: string)
    | PastedImage(name: string)
    | Directory(absPath: string)
    | Symbol(absPath: string, name: string, lines: Lines)
    | Thread(id: string, name: string)
    | Rule(ruleId: RuleId, name: string)
    | Diagnostics(includeErrors: bool, includeWarnings: bool)
    | Selection(path: Option<string>, lines: Lines, column: Option<nat>)
    | Fetch(url: Url)
    | TerminalSelection(lineCount: nat)
    | GitDiff(baseRef: string)
    | MergeConflict(filePath: string)
    | Skill(name: string, source: string, absPath: string)

  /** A bare absolute path without a line range is handed to the position parser, which is not modelled. */
  datatype Parsed = Mention(m: MentionUri) | BarePath(path: string) | Invalid

  const DEFAULT_RULE_UUID := "00000000-0000-0000-0000-000000000000"

  // ---------- The printer ----------

  predicate StringsAreBytes(m: MentionUri)
  {
    match m
    case File(p) => IsBytes(p)
    case PastedImage(n) => IsBytes(n)
    case Directory(p) => IsBytes(p)
    case Symbol(p, n, _) => IsBytes(p) && IsBytes(n)
    case Thread(id, n) => IsBytes(id) && IsBytes(n)
    case Rule(id, n) => IsBytes(n) && IsBytes(RuleUuid(id))
    case Selection(p, _, _) => p.Some? ==> IsBytes(p.value)
    case GitDiff(b) => IsBytes(b)
    case MergeConflict(p) => IsBytes(p)
    case Skill(n, s, p) => IsBytes(n) && IsBytes(s) && IsBytes(p)
    case _ => true
  }

  function RuleUuid(id: RuleId): string
  {
    match id
    case UserUuid(uuid) => uuid
    case OtherId(found) => if found.Some? then found.value else ""
  }

  /** `line + 1` on a u32, printed */
  function PrintNext(n: nat): string
  {
    ToDecimal((n + 1) % U32_LIMIT)
  }

  function LineFragment(lines: Lines): string
  {
    "L" + PrintNext(lines.start) + ":" + PrintNext(lines.end)
  }

  function FileUrl(p: string): Url
  {
    Url("file", "", SetPath(p, true), None, None)
  }

  function ZedUrl(path: string): Url
  {
    Url("zed", "", path, None, None)
  }

  function WithTrailingSlash(p: string): string
  {
    if |p| > 0 && (p[|p| - 1] == '/' || p[|p| - 1] == '\\') then p else p + "/"
  }

  function ToUri(m: MentionUri): Url
  {
    match m
    case File(p) => FileUrl(p)
    case PastedImage(name) => AppendPair(ZedUrl("/agent/pasted-image"), "name", name)
    case Directory(p) => FileUrl(WithTrailingSlash(p))
    case Symbol(p, name, lines) => AppendPair(FileUrl(p), "symbol", name).(fragment := Some(LineFragment(lines)))
    case Selection(path, lines, column) =>
      var url := if path.Some? then FileUrl(path.value) else ZedUrl(SetPath("/agent/untitled-buffer", false));
      var withColumn := if column.Some? then AppendPair(url, "column", PrintNext(column.value)) else url;
      withColumn.(fragment := Some(LineFragment(lines)))
    case Thread(id, name) => AppendPair(ZedUrl(SetPath("/agent/thread/" + id, false)), "name", name)
    case Rule(id, name) => AppendPair(ZedUrl(SetPath("/agent/rule/" + RuleUuid(id), false)), "name", name)
    case Diagnostics(errors, warnings) =>
      var url := ZedUrl(SetPath("/agent/diagnostics", false));
      var withWarnings := if warnings then AppendPair(url, "include_warnings", "true") else url;
      if !errors then AppendPair(withWarnings, "include_errors", "false") else withWarnings
    case Fetch(url) => url
    case TerminalSelection(n) => AppendPair(ZedUrl("/agent/terminal-selection"), "lines", ToDecimal(n))
    case GitDiff(base) => AppendPair(ZedUrl("/agent/git-diff"), "base", base)
    case MergeConflict(p) => AppendPair(ZedUrl("/agent/merge-conflict"), "path", p)
    case Skill(name, source, p) =>
      var url := AppendPair(ZedUrl(SetPath("/agent/skill", false)), "name", name);
      AppendPair(AppendPair(url, "source", source), "path", p)
  }

  // ---------- The parser ----------

  function OneBased(s: string): Option<nat>
  {
    match ParseU32(s)
    case None => None
    case Some(n) => if n == 0 then None else Some(n - 1)
  }

  function ParseLineRange(fragment: string): Option<Lines>
  {
    var range := match StripPrefix(fragment, "L") case Some(r) => r case None => fragment;
    var (start, end) :=
      match Cut(range, ':')
      case Some((a, b)) => (a, b)
      case None =>
        match Cut(range, '-')
        case Some((a, b)) => (a, match StripPrefix(b, "L") case Some(r) => r case None => b)
        case None => (range, range);
    if OneBased(start).Some? && OneBased(end).Some? then Some(Lines(OneBased(start).value, OneBased(end).value))
        else None
  }

  function QueryParam(pairs: seq<(string, string)>, name: string): Option<string>
  {
    if |pairs| == 0 then None
    else if pairs[0].0 == name then Some(pairs[0].1)
    else QueryParam(pairs[1..], name)
  }

  predicate OnlyParams(pairs: seq<(string, string)>, allowed: seq<string>)
  {
    forall i :: 0 <= i < |pairs| ==> pairs[i].0 in allowed
  }

  /** No pair gives Some(None); a wrong name or several pairs are an error. */
  function SingleQueryParam(pairs: seq<(string, string)>, name: string): Option<Option<string>>
  {
    if |pairs| == 0 then Some(None)
    else if |pairs| == 1 && pairs[0].0 == name then Some(Some(pairs[0].1))
    else None
  }

  function ParseColumn(column: Option<string>): Option<nat>
  {
    if column.Some? then OneBased(column.value) else None
  }

  function StripBackticks(input: string): string
  {
    if |input| >= 2 && input[0] == '`' && input[|input| - 1] == '`' then input[1..|input| - 1] else input
  }

  predicate IsAbsolute(p: string, windows: bool)
  {
    (|p| > 0 && p[0] == '/')
    || (windows && ((|p| > 0 && p[0] == '\\') || (|p| >= 3 && HasDrive(p) && IsSlash(p[2]))))
  }

  predicate ContainsSchemeSeparator(s: string)
  {
    "://" <= s || (|s| > 0 && ContainsSchemeSeparator(s[1..]))
  }

  /** An absolute path, maybe with a fragment that is a line range */
  function BareMention(input: string): Parsed
  {
    match Cut(input, '#')
    case None => BarePath(input)
    case Some((path, fragment)) =>
      match ParseLineRange(fragment)
      case Some(lines) => Mention(Selection(Some(path), lines, None))
      case None => BarePath(path)
  }

  function ParseMention(input: string, windows: bool, utf8: string -> bool): Parsed
  {
    var stripped := StripBackticks(input);
    if IsAbsolute(stripped, windows) && !ContainsSchemeSeparator(stripped) then BareMention(stripped)
    else
      match ParseUrl(stripped)
      case None => Invalid
      case Some(url) =>
        if url.scheme == "file" then ParseFileUrl(url, stripped, windows, utf8)
        else if url.scheme == "zed" then ParseZedUrl(url)
        else if url.scheme == "http" || url.scheme == "https" then Mention(Fetch(url))
        else Invalid
  }

  function FilePath(url: Url, windows: bool, utf8: string -> bool): string
  {
    var trimmed := if windows then TrimSlashes(url.path) else url.path;
    var decoded := if utf8(Decode(trimmed)) then Decode(trimmed) else trimmed;
    if windows then Native(decoded) else decoded
  }

  function ParseFileUrl(url: Url, input: string, windows: bool, utf8: string -> bool): Parsed
  {
    var path, pairs := FilePath(url, windows, utf8), QueryPairs(url);
    if url.fragment.Some? then
      if !OnlyParams(pairs, ["symbol", "column"]) then Invalid
      else
        var lines := match ParseLineRange(url.fragment.value) case Some(r) => r case None => Lines(1, 1);
        match QueryParam(pairs, "symbol")
        case Some(name) => Mention(Symbol(path, name, lines))
        case None => Mention(Selection(Some(path), lines, ParseColumn(QueryParam(pairs, "column"))))
    else if |input| > 0 && input[|input| - 1] == '/' then Mention(Directory(path))
    else Mention(File(path))
  }

  function DiagnosticsOf(pairs: seq<(string, string)>, errors: bool, warnings: bool): Parsed
  {
    if |pairs| == 0 then Mention(Diagnostics(errors, warnings))
    else
      var (key, value) := pairs[0];
      if key == "include_warnings" then DiagnosticsOf(pairs[1..], errors, value == "true")
      else if key == "include_errors" then DiagnosticsOf(pairs[1..], value == "true", warnings)
      else Invalid
  }

  function SkillOf(pairs: seq<(string, string)>, name: Option<string>, source: Option<string>,
      path: Option<string>): Parsed
  {
    if |pairs| == 0 then
      if name.Some? && source.Some? && path.Some? then Mention(Skill(name.value, source.value, path.value)) else Invalid
    else
      var (key, value) := pairs[0];
      if key == "name" then if name.Some? then Invalid else SkillOf(pairs[1..], Some(value), source, path)
      else if key == "source" then if source.Some? then Invalid else SkillOf(pairs[1..], name, Some(value), path)
      else if key == "path" then if path.Some? then Invalid else SkillOf(pairs[1..], name, source, Some(value))
      else Invalid
  }

  /** The query loops of the parser fill mutable options. */
  method ParseSkill(pairs: seq<(string, string)>) returns (r: Parsed)
    ensures r == SkillOf(pairs, None, None, None)
  {
    var name: Option<string>, source: Option<string>, path: Option<string> := None, None, None;
    var i := 0;
    assert pairs[0..] == pairs;
    while i < |pairs|
      invariant 0 <= i <= |pairs|
      invariant SkillOf(pairs, None, None, None) == SkillOf(pairs[i..], name, source, path)
    {
      assert pairs[i..][0] == pairs[i] && pairs[i..][1..] == pairs[i + 1..];
      var (key, value) := pairs[i];
      if key == "name" {
        if name.Some? { return Invalid; }
        name := Some(value);
      } else if key == "source" {
        if source.Some? { return Invalid; }
        source := Some(value);
      } else if key == "path" {
        if path.Some? { return Invalid; }
        path := Some(value);
      } else {
        return Invalid;
      }
      i := i + 1;
    }
    return if name.Some? && source.Some? && path.Some? then Mention(Skill(name.value, source.value, path.value))
        else Invalid;
  }

  method ParseDiagnostics(pairs: seq<(string, string)>) returns (r: Parsed)
    ensures r == DiagnosticsOf(pairs, true, false)
  {
    var errors, warnings, i := true, false, 0;
    assert pairs[0..] == pairs;
    while i < |pairs|
      invariant 0 <= i <= |pairs|
      invariant DiagnosticsOf(pairs, true, false) == DiagnosticsOf(pairs[i..], errors, warnings)
    {
      assert pairs[i..][0] == pairs[i] && pairs[i..][1..] == pairs[i + 1..];
      var (key, value) := pairs[i];
      if key == "include_warnings" {
        warnings := value == "true";
      } else if key == "include_errors" {
        errors := value == "true";
      } else {
        return Invalid;
      }
      i := i + 1;
    }
    return Mention(Diagnostics(errors, warnings));
  }

  function WithSingle(pairs: seq<(string, string)>, name: string, default: Option<string>): Option<string>
  {
    match SingleQueryParam(pairs, name)
    case None => None
    case Some(None) => default
    case Some(Some(value)) => Some(value)
  }

  function ParseZedUrl(url: Url): Parsed
  {
    var path, pairs := url.path, QueryPairs(url);
    if "/agent/thread/" <= path then
      match WithSingle(pairs, "name", None)
      case None => Invalid
      case Some(name) => Mention(Thread(path[|"/agent/thread/"|..], name))
    else if "/agent/rule/" <= path then
      match WithSingle(pairs, "name", None)
      case None => Invalid
      case Some(name) =>
        var id := path[|"/agent/rule/"|..];
        Mention(Rule(UserUuid(if |id| == 0 then DEFAULT_RULE_UUID else id), name))
    else if path == "/agent/diagnostics" then DiagnosticsOf(pairs, true, false)
    else if "/agent/pasted-image" <= path then
      match WithSingle(pairs, "name", Some("Image"))
      case None => Invalid
      case Some(name) => Mention(PastedImage(name))
    else if "/agent/untitled-buffer" <= path then
      if url.fragment.None? || ParseLineRange(url.fragment.value).None? || !OnlyParams(pairs, ["column"]) then Invalid
      else Mention(Selection(None, ParseLineRange(url.fragment.value).value, ParseColumn(QueryParam(pairs, "column"))))
    else if "/agent/symbol/" <= path then
      if url.fragment.None? || ParseLineRange(url.fragment.value).None? then Invalid
      else
        match WithSingle(pairs, "path", None)
        case None => Invalid
        case Some(p) => Mention(Symbol(p, path[|"/agent/symbol/"|..], ParseLineRange(url.fragment.value).value))
    else if "/agent/file" <= path then
      match WithSingle(pairs, "path", None) case None => Invalid case Some(p) => Mention(File(p))
    else if "/agent/directory" <= path then
      match WithSingle(pairs, "path", None) case None => Invalid case Some(p) => Mention(Directory(p))
    else if "/agent/selection" <= path then
      if !OnlyParams(pairs, ["path", "column"]) || url.fragment.None? || ParseLineRange(url.fragment.value).None?
         || QueryParam(pairs, "path").None? then Invalid
      else Mention(Selection(QueryParam(pairs, "path"), ParseLineRange(url.fragment.value).value,
                             ParseColumn(QueryParam(pairs, "column"))))
    else if "/agent/terminal-selection" <= path then
      match WithSingle(pairs, "lines", Some("0"))
      case None => Invalid
      case Some(lines) => Mention(TerminalSelection(if ParseU32(lines).Some? then ParseU32(lines).value else 0))
    else if "/agent/git-diff" <= path then
      match WithSingle(pairs, "base", Some("main")) case None => Invalid case Some(base) => Mention(GitDiff(base))
    else if "/agent/merge-conflict" <= path then
      match WithSingle(pairs, "path", Some("")) case None => Invalid case Some(p) => Mention(MergeConflict(p))
    else if "/agent/skill" <= path then SkillOf(pairs, None, None, None)
    else Invalid
  }
}

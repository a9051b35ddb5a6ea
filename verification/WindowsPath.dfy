/** Native spelling of Windows-compatible paths: backslashes and an upper-case drive letter. */
module WindowsPath {
  import opened Wrappers

  predicate IsLower(c: char) { 'a' <= c <= 'z' }

  predicate IsUpper(c: char) { 'A' <= c <= 'Z' }

  predicate IsAlphabetic(c: char) { IsLower(c) || IsUpper(c) }

  predicate IsSlash(c: char) { c == '/' || c == '\\' }

  function ToUpper(c: char): char
  {
    if IsLower(c) then c - 32 as char else c
  }

  /** `replace('/', "\\")` */
  function Backslashes(s: string): (t: string)
    ensures |t| == |s| && '/' !in t
    ensures forall i :: 0 <= i < |s| ==> t[i] == if s[i] == '/' then '\\' else s[i]
  {
    seq(|s|, i requires 0 <= i < |s| => if s[i] == '/' then '\\' else s[i])
  }

  function JoinDrive(drive: char, rest: string): string
  {
    [ToUpper(drive), ':', '\\'] + Backslashes(rest)
  }

  predicate HasDrive(path: string)
  {
    |path| >= 2 && IsAlphabetic(path[0]) && path[1] == ':'
  }

  function ToNativeWindowsPath(path: string): Option<string>
  {
    if |path| >= 4 && path[0] == '/' && HasDrive(path[1..]) && IsSlash(path[3]) then
      Some(JoinDrive(path[1], path[4..]))
    else if |path| >= 3 && path[0] == '/' && IsLower(path[1]) && IsSlash(path[2]) then
      Some(JoinDrive(path[1], path[3..]))
    else if HasDrive(path) then
      if IsUpper(path[0]) && '/' !in path then None
      else Some([ToUpper(path[0]), ':'] + Backslashes(path[2..]))
    else if '/' in path then Some(Backslashes(path))
    else None
  }

  /** The path that callers go on with */
  function Native(path: string): string
  {
    match ToNativeWindowsPath(path)
    case Some(native) => native
    case None => path
  }

  predicate InNormalForm(path: string)
  {
    '/' !in path && (HasDrive(path) ==> IsUpper(path[0]))
  }

  /** No change is reported exactly for the normal forms, and they are what the function returns. */
  lemma NativeIsNormalForm(path: string)
    ensures InNormalForm(Native(path))
    ensures ToNativeWindowsPath(path) == None <==> InNormalForm(path)
    ensures ToNativeWindowsPath(path) == None <==> Native(path) == path
    ensures ToNativeWindowsPath(Native(path)) == None
  {
    hide JoinDrive;
    var n := Native(path);
    if |path| >= 4 && path[0] == '/' && HasDrive(path[1..]) && IsSlash(path[3]) {
      JoinedIsNormal(path[1], path[4..]);
    } else if |path| >= 3 && path[0] == '/' && IsLower(path[1]) && IsSlash(path[2]) {
      JoinedIsNormal(path[1], path[3..]);
    } else if HasDrive(path) {
      if ToNativeWindowsPath(path).Some? {
        assert '/' !in n;
      }
    } else if '/' in path {
      assert n[..] == Backslashes(path);
      assert |path| >= 2 ==> (n[1] == ':' <==> path[1] == ':');
    }
    NormalFormNeedsNothing(n);
  }

  lemma JoinedIsNormal(drive: char, rest: string)
    requires IsAlphabetic(drive)
    ensures InNormalForm(JoinDrive(drive, rest)) && JoinDrive(drive, rest)[0] != '/'
  {
  }

  lemma NormalFormNeedsNothing(path: string)
    requires InNormalForm(path)
    ensures ToNativeWindowsPath(path) == None
  {
    if |path| > 0 {
      assert path[0] in path;
    }
  }

  /** Every spelling of a path below a drive becomes the same native path. */
  lemma SpellingsAgree(drive: char, rest: string)
    requires IsLower(drive)
    ensures var upper := ToUpper(drive);
            var native := [upper, ':', '\\'] + Backslashes(rest);
            && (forall d :: d in [drive, upper] ==>
                  && Native(['/', d, ':', '/'] + rest) == native
                  && Native(['/', d, ':', '\\'] + rest) == native
                  && Native([d, ':', '/'] + rest) == native
                  && Native([d, ':', '\\'] + rest) == native)
            && Native(['/', drive, '/'] + rest) == native
            && Native(['/', drive, '\\'] + rest) == native
  {
    var upper := ToUpper(drive);
    forall d | d in [drive, upper]
      ensures Native(['/', d, ':', '/'] + rest) == JoinDrive(d, rest) == JoinDrive(drive, rest)
      ensures Native(['/', d, ':', '\\'] + rest) == JoinDrive(d, rest)
      ensures Native([d, ':', '/'] + rest) == JoinDrive(d, rest)
      ensures Native([d, ':', '\\'] + rest) == JoinDrive(d, rest)
    {
      UrlStyle(d, '/', rest);
      UrlStyle(d, '\\', rest);
      DriveStyle(d, '/', rest);
      DriveStyle(d, '\\', rest);
    }
    MsysStyle(drive, '/', rest);
    MsysStyle(drive, '\\', rest);
  }

  lemma UrlStyle(d: char, slash: char, rest: string)
    requires IsAlphabetic(d) && IsSlash(slash)
    ensures Native(['/', d, ':', slash] + rest) == JoinDrive(d, rest)
  {
    var path := ['/', d, ':', slash] + rest;
    assert path[4..] == rest;
  }

  lemma MsysStyle(d: char, slash: char, rest: string)
    requires IsLower(d) && IsSlash(slash)
    ensures Native(['/', d, slash] + rest) == JoinDrive(d, rest)
  {
    var path := ['/', d, slash] + rest;
    assert path[3..] == rest;
  }

  lemma DriveStyle(d: char, slash: char, rest: string)
    requires IsAlphabetic(d) && IsSlash(slash)
    ensures Native([d, ':', slash] + rest) == JoinDrive(d, rest)
  {
    hide Backslashes;
    var path := [d, ':', slash] + rest;
    BackslashesCons(slash, rest);
    assert path[2..] == [slash] + rest;
    assert [ToUpper(d), ':'] + (['\\'] + Backslashes(rest)) == JoinDrive(d, rest);
    if '/' !in path {
      assert forall i :: 0 <= i < |rest| ==> rest[i] == path[i + 3];
      assert Backslashes(rest) == rest;
    }
  }

  lemma BackslashesCons(c: char, rest: string)
    ensures Backslashes([c] + rest) == [if c == '/' then '\\' else c] + Backslashes(rest)
  {
  }

  /** Upper-case directories are not taken for drives: `/C/x` stays a rooted path. */
  lemma UpperCaseIsNoMsysDrive(d: char, rest: string)
    requires IsUpper(d)
    ensures Native(['/', d, '/'] + rest) == ['\\', d, '\\'] + Backslashes(rest)
  {
    var path := ['/', d, '/'] + rest;
    assert Backslashes(path) == ['\\', d, '\\'] + Backslashes(rest);
  }
}

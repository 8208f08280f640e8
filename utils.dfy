/**
 * The pure helpers of lib/utils.js: the first-truthy search `match`, the
 * path-shape check `isPath` (with the whitespace trim it starts with) and
 * the numeric check `isNum`. `isDirectory` and `isFile` are calls into the
 * file system and live in `Host.stat`.
 */
module Utils {
  import opened Types

  /*
   * match(a, f)
   */

  /**
   * The value `match` returns when it has already computed `last` and still
   * has to look at `a`: the first truthy `f(a[i])`, or the last `f` result
   * (or `last` itself when `a` is empty) if none is truthy.
   */
  function Matched<T, R>(a: seq<T>, f: T -> R, truthy: R -> bool, last: R): R
    decreases |a|
  {
    if |a| == 0 then last
    else
      var r := f(a[0]);
      if truthy(r) then r else Matched(a[1..], f, truthy, r)
  }

  /**
   * `match(a, f)`: calls `f` on the elements in order and stops at the first
   * truthy result; `none` plays the part of JavaScript's `null`.
   */
  method Match<T, R>(a: seq<T>, f: T -> R, truthy: R -> bool, none: R) returns (r: R, ghost calls: nat)
    ensures r == Matched(a, f, truthy, none)
    ensures calls <= |a| && (calls == 0 <==> |a| == 0)
    ensures calls == 0 ==> r == none
    ensures calls > 0 ==> r == f(a[calls - 1])
    ensures forall j :: 0 <= j < calls - 1 ==> !truthy(f(a[j]))
    ensures calls < |a| ==> truthy(r)
  {
    r, calls := none, 0;
    for i := 0 to |a|
      invariant calls == i
      invariant i == 0 ==> r == none
      invariant i > 0 ==> r == f(a[i - 1])
      invariant forall j :: 0 <= j < i ==> !truthy(f(a[j]))
      invariant Matched(a, f, truthy, none) == Matched(a[i..], f, truthy, r)
    {
      assert a[i..][1..] == a[i + 1..];
      r, calls := f(a[i]), calls + 1;
      if truthy(r) {
        return;
      }
    }
  }

  /**
   * What `match` promises: the result is `f` of the first element whose
   * `f` is truthy; when there is none it is the last `f` result, or `none`
   * for an empty array.
   */
  lemma {:induction false} MatchedFindsFirst<T, R>(a: seq<T>, f: T -> R, truthy: R -> bool, none: R, i: nat)
    requires i < |a| && truthy(f(a[i]))
    requires forall j :: 0 <= j < i ==> !truthy(f(a[j]))
    ensures Matched(a, f, truthy, none) == f(a[i])
  {
    if i > 0 {
      MatchedFindsFirst(a[1..], f, truthy, f(a[0]), i - 1);
    }
  }

  lemma {:induction false} MatchedWithoutHit<T, R>(a: seq<T>, f: T -> R, truthy: R -> bool, none: R)
    requires forall j :: 0 <= j < |a| ==> !truthy(f(a[j]))
    ensures Matched(a, f, truthy, none) == if |a| == 0 then none else f(a[|a| - 1])
  {
    if |a| > 0 {
      MatchedWithoutHit(a[1..], f, truthy, f(a[0]));
    }
  }

  /*
   * isPath(str)
   */

  /** The characters JavaScript's `\s` matches. */
  predicate IsSpace(c: char)
  {
    || '\t' <= c <= '\r' || c == ' ' || c == '\U{00A0}' || c == '\U{1680}'
    || '\U{2000}' <= c <= '\U{200A}' || c == '\U{2028}' || c == '\U{2029}'
    || c == '\U{202F}' || c == '\U{205F}' || c == '\U{3000}' || c == '\U{FEFF}'
  }

  /** `s` without its leading run of whitespace (the `^\s+` half of the trim). */
  function TrimStart(s: string): (r: string)
    ensures |r| <= |s| && r == s[|s| - |r|..]
    ensures forall k :: 0 <= k < |s| - |r| ==> IsSpace(s[k])
    ensures |r| > 0 ==> !IsSpace(r[0])
    decreases |s|
  {
    if |s| > 0 && IsSpace(s[0]) then TrimStart(s[1..]) else s
  }

  /** `s` without its trailing run of whitespace (the `\s+$` half of the trim). */
  function TrimEnd(s: string): (r: string)
    ensures |r| <= |s| && r == s[..|r|]
    ensures forall k :: |r| <= k < |s| ==> IsSpace(s[k])
    ensures |r| > 0 ==> !IsSpace(r[|r| - 1])
    decreases |s|
  {
    if |s| > 0 && IsSpace(s[|s| - 1]) then TrimEnd(s[..|s| - 1]) else s
  }

  /** `str.replace(/^\s+|\s+$/g, '')`. */
  function Trim(s: string): (r: string)
    ensures |r| > 0 ==> !IsSpace(r[0]) && !IsSpace(r[|r| - 1])
  {
    TrimEnd(TrimStart(s))
  }

  /** A string with no whitespace at either end is its own trim. */
  lemma TrimKeeps(s: string)
    requires |s| > 0 ==> !IsSpace(s[0]) && !IsSpace(s[|s| - 1])
    ensures Trim(s) == s
  {
    assert TrimStart(s) == s;
    assert TrimEnd(s) == s;
  }

  /** Trimming twice changes nothing more than trimming once. */
  lemma TrimIdempotent(s: string)
    ensures Trim(Trim(s)) == Trim(s)
  {
    TrimKeeps(Trim(s));
  }

  /** No character of `s` is in `banned`. */
  predicate NoneOf(s: string, banned: set<char>)
  {
    forall k :: 0 <= k < |s| ==> s[k] !in banned
  }

  /** `[^banned]+$` matched against the whole of `s`. */
  predicate RunWithout(s: string, banned: set<char>)
  {
    |s| > 0 && NoneOf(s, banned)
  }

  /** `^(\.{1,2}\/){0,1}[^banned]+$`: an optional `./` or `../`, then a run without `banned`. */
  predicate DotRelative(t: string, banned: set<char>)
  {
    || RunWithout(t, banned)
    || (|t| >= 2 && t[..2] == "./" && RunWithout(t[2..], banned))
    || (|t| >= 3 && t[..3] == "../" && RunWithout(t[3..], banned))
  }

  const Win32Reserved: set<char> := {':', '/', '*', '?', '|', '"', '<', '>'}

  predicate IsAsciiLetter(c: char)
  {
    'a' <= c <= 'z' || 'A' <= c <= 'Z'
  }

  /**
   * The win32 drive-letter pattern as lib/utils.js writes it. Its character
   * class is closed by the `]` right after the unescaped `[`, so the pattern
   * reads: a letter, `:`, a backslash, ONE character outside the class, the
   * literal text `{}` TAB CR LF, and a run of `]`.
   */
  predicate DrivePatternAsWritten(t: string)
  {
    && |t| >= 10
    && IsAsciiLetter(t[0]) && t[1] == ':' && t[2] == '\\'
    && t[3] !in {',', ':', ';', '/', '*', '?', '|', '!', '\'', '"', '<', '>', '['}
    && t[4..9] == "{}\t\r\n"
    && forall k :: 9 <= k < |t| ==> t[k] == ']'
  }

  /** The characters the drive-letter pattern evidently means to exclude after `X:\`. */
  const DriveReserved: set<char> :=
    {',', ':', ';', '/', '*', '?', '|', '!', '\'', '"', '<', '>', '[', ']', '{', '}', '\t', '\r', '\n'}

  /** The drive-letter pattern with its class closed where intended: `X:\` and a run without `DriveReserved`. */
  predicate DrivePattern(t: string)
  {
    |t| >= 3 && IsAsciiLetter(t[0]) && t[1] == ':' && t[2] == '\\' && RunWithout(t[3..], DriveReserved)
  }

  /** The POSIX branch of `isPath`: `^(\.{1,2}\/){0,1}[^:]+$` or `^\/[^:]+$`. */
  predicate PosixPathShape(t: string)
  {
    DotRelative(t, {':'}) || (|t| > 0 && t[0] == '/' && RunWithout(t[1..], {':'}))
  }

  /** The win32 branch of `isPath` as written. */
  predicate Win32PathShapeAsWritten(t: string)
  {
    DotRelative(t, Win32Reserved) || DrivePatternAsWritten(t)
  }

  /** The win32 branch of `isPath` with the drive-letter pattern corrected. */
  predicate Win32PathShape(t: string)
  {
    DotRelative(t, Win32Reserved) || DrivePattern(t)
  }

  /** `isPath(str)` exactly as lib/utils.js writes it; this is the `path` format the parser checks. */
  predicate IsPathAsWritten(s: string, platform: Platform)
  {
    if platform == Win32 then Win32PathShapeAsWritten(Trim(s)) else PosixPathShape(Trim(s))
  }

  /** `isPath(str)` with the win32 drive-letter pattern corrected: the evidently intended check, kept as a reference. */
  predicate IsPath(s: string, platform: Platform)
  {
    if platform == Win32 then Win32PathShape(Trim(s)) else PosixPathShape(Trim(s))
  }

  /** Surrounding whitespace never changes the verdict of `isPath`. */
  lemma IsPathIgnoresSurroundingSpace(s: string, platform: Platform)
    ensures IsPathAsWritten(s, platform) == IsPathAsWritten(Trim(s), platform)
    ensures IsPath(s, platform) == IsPath(Trim(s), platform)
  {
    TrimIdempotent(s);
  }

  /** The POSIX shapes are exactly the non-empty strings without `:`. */
  lemma {:induction false} PosixShapeIsColonFree(t: string)
    ensures PosixPathShape(t) <==> t != "" && NoneOf(t, {':'})
  {
    if |t| >= 2 && t[..2] == "./" && RunWithout(t[2..], {':'}) {
      assert forall k :: 2 <= k < |t| ==> t[k] == t[2..][k - 2];
    }
    if |t| >= 3 && t[..3] == "../" && RunWithout(t[3..], {':'}) {
      assert forall k :: 3 <= k < |t| ==> t[k] == t[3..][k - 3];
    }
    if |t| > 0 && t[0] == '/' && RunWithout(t[1..], {':'}) {
      assert forall k :: 1 <= k < |t| ==> t[k] == t[1..][k - 1];
    }
  }

  /** On POSIX systems `isPath` holds exactly of the strings that trim to something non-empty without `:`. */
  lemma PosixIsPath(s: string)
    ensures IsPathAsWritten(s, Posix) <==> Trim(s) != "" && NoneOf(Trim(s), {':'})
    ensures IsPath(s, Posix) <==> Trim(s) != "" && NoneOf(Trim(s), {':'})
  {
    PosixShapeIsColonFree(Trim(s));
  }

  /** A win32 relative path holds no `:` and no wildcard, and the POSIX branch accepts it too. */
  lemma {:induction false} Win32RelativeIsPosixShape(t: string)
    requires DotRelative(t, Win32Reserved)
    ensures NoneOf(t, {':', '*', '?', '|', '"', '<', '>'})
    ensures PosixPathShape(t)
  {
    if RunWithout(t, Win32Reserved) {
    } else if |t| >= 2 && t[..2] == "./" && RunWithout(t[2..], Win32Reserved) {
      assert forall k :: 2 <= k < |t| ==> t[k] == t[2..][k - 2];
    } else {
      assert forall k :: 3 <= k < |t| ==> t[k] == t[3..][k - 3];
    }
    PosixShapeIsColonFree(t);
  }

  /** The trimmed text starts like a drive path: a letter, `:` and a backslash. */
  predicate DriveRooted(t: string)
  {
    |t| >= 3 && IsAsciiLetter(t[0]) && t[1] == ':' && t[2] == '\\'
  }

  /**
   * The two readings of `isPath` differ only on win32 and only for text that
   * starts like a drive path: everywhere else the code as written already
   * gives the intended verdict.
   */
  lemma ReadingsAgreeOffDrive(s: string, platform: Platform)
    requires platform == Posix || !DriveRooted(Trim(s))
    ensures IsPathAsWritten(s, platform) == IsPath(s, platform)
  {
  }

  /** Text starting like a drive path is never a win32 relative path: it holds a `:`. */
  lemma DriveRootedNotRelative(t: string)
    requires DriveRooted(t)
    ensures !DotRelative(t, Win32Reserved)
  {
    assert t[1] in Win32Reserved;
    assert |t| >= 2 ==> t[..2][0] == t[0];
    assert |t| >= 3 ==> t[..3][0] == t[0];
  }

  /**
   * As written, the win32 check rejects every drive path unless the five
   * characters after `X:\?` are `{}` TAB CR LF: so every ordinary one.
   */
  lemma DriveRejectedAsWritten(t: string)
    requires DriveRooted(t) && !IsSpace(t[|t| - 1])
    requires |t| < 10 || t[4..9] != "{}\t\r\n"
    ensures !IsPathAsWritten(t, Win32)
  {
    TrimKeeps(t);
    DriveRootedNotRelative(t);
  }

  /** The corrected pattern accepts every drive-rooted name free of the reserved characters. */
  lemma DrivePathAccepted(drive: char, rest: string)
    requires IsAsciiLetter(drive) && RunWithout(rest, DriveReserved)
    requires !IsSpace(rest[|rest| - 1])
    ensures IsPath([drive, ':', '\\'] + rest, Win32)
  {
    var t := [drive, ':', '\\'] + rest;
    TrimKeeps(t);
    assert t[3..] == rest;
  }

  /** An ordinary drive path such as `C:\Users` is rejected as written and accepted once corrected. */
  lemma DrivePathRejectedAsWritten()
    ensures !IsPathAsWritten("C:\\Users", Win32)
    ensures IsPath("C:\\Users", Win32)
  {
    var rest := "Users";
    assert RunWithout(rest, DriveReserved);
    DrivePathAccepted('C', rest);
    var t := ['C', ':', '\\'] + rest;
    assert t == "C:\\Users";
    DriveRejectedAsWritten(t);
  }

  /** The text the pattern as written spells out passes the code as written and fails the corrected check. */
  lemma OddShapeAcceptedAsWritten(t: string)
    requires DrivePatternAsWritten(t)
    ensures IsPathAsWritten(t, Win32) && !IsPath(t, Win32)
  {
    assert t[|t| - 1] == ']';
    TrimKeeps(t);
    assert DriveRooted(t);
    DriveRootedNotRelative(t);
    assert t[4] == t[4..9][0] == '{';
    assert t[3..][1] == t[4];
  }

  /** ... so the odd text `C:\x{}` TAB CR LF `]` is accepted as written and rejected once corrected. */
  lemma OddTextAcceptedAsWritten()
    ensures IsPathAsWritten("C:\\x{}\t\r\n]", Win32)
    ensures !IsPath("C:\\x{}\t\r\n]", Win32)
  {
    var t := "C:\\x{}\t\r\n]";
    assert |t| == 10 && t[1] == ':' && t[2] == '\\' && t[3] == 'x' && t[9] == ']';
    assert t[4..9] == "{}\t\r\n";
    OddShapeAcceptedAsWritten(t);
  }

  /*
   * isNum(v)
   */

  /** `isNum(v)`: every number (NaN included), and a non-empty string whose `Number(v)` is not NaN. */
  predicate IsNum(v: Value, host: Host)
  {
    v.Num? || (Truthy(v) && v.Str? && !host.toNumber(v.s).NaN?)
  }

  /** The two kinds of value `isNum` accepts, and nothing else. */
  lemma IsNumCases(v: Value, host: Host)
    ensures IsNum(v, host) <==> v.Num? || (v.Str? && v.s != "" && !host.toNumber(v.s).NaN?)
  {
  }

  /** After the `num` coercion a value always passes `isNum`, whatever the token was. */
  lemma CoercedIsNum(v: Value, host: Host)
    ensures IsNum(Coerce(v, host), host)
  {
  }
}

/** Symbian paths as the filesystem reads them: a drive letter, separators of two
    kinds, components that ignore case, and the EKA2 rewrite of two prefixes.
    A character stands for one byte of the UTF-8 path. */
module Paths {
  import opened Options

  const DRIVES: nat := 26

  // ---- letters and case --------------------------------------------------

  predicate IsSeparator(c: char) {
    c == '\\' || c == '/'
  }

  function Lower(c: char): char {
    if 'A' <= c <= 'Z' then c + 32 as char else c
  }

  function Lowered(s: string): (r: string)
    ensures |r| == |s|
    ensures forall i | 0 <= i < |s| :: r[i] == Lower(s[i])
  {
    seq(|s|, i requires 0 <= i < |s| => Lower(s[i]))
  }

  function LoweredAll(names: seq<string>): (r: seq<string>)
    ensures |r| == |names|
    ensures forall i | 0 <= i < |names| :: r[i] == Lowered(names[i])
  {
    seq(|names|, i requires 0 <= i < |names| => Lowered(names[i]))
  }

  method ToLowered(s: string) returns (out: string)
    ensures out == Lowered(s)
  {
    out := s;
    for i := 0 to |s|
      invariant |out| == |s|
      invariant forall j | 0 <= j < i :: out[j] == Lower(s[j])
      invariant forall j | i <= j < |s| :: out[j] == s[j]
    {
      out := out[i := Lower(out[i])];
    }
  }

  // ---- components --------------------------------------------------------

  /** What a stored name looks like: not empty and holding no separator. */
  predicate IsName(s: string) {
    s != "" && forall i | 0 <= i < |s| :: !IsSeparator(s[i])
  }

  predicate AreNames(names: seq<string>) {
    forall i | 0 <= i < |names| :: IsName(names[i])
  }

  /** The length of the longest prefix holding no separator. */
  function RunLength(s: string): (n: nat)
    ensures n <= |s| && (s != "" && !IsSeparator(s[0]) ==> n > 0)
  {
    if s == "" || IsSeparator(s[0]) then 0 else 1 + RunLength(s[1..])
  }

  lemma {:induction false} RunLengthIs(s: string)
    ensures forall i | 0 <= i < RunLength(s) :: !IsSeparator(s[i])
    ensures RunLength(s) < |s| ==> IsSeparator(s[RunLength(s)])
  {
    if s != "" && !IsSeparator(s[0]) {
      RunLengthIs(s[1..]);
      forall i | 0 <= i < RunLength(s)
        ensures !IsSeparator(s[i])
      {
        assert i > 0 ==> s[i] == s[1..][i - 1];
      }
    }
  }

  /** The maximal separator-free runs of `s`, in order. */
  function Components(s: string): seq<string>
    decreases |s|
  {
    if s == "" then []
    else if IsSeparator(s[0]) then Components(s[1..])
    else [s[..RunLength(s)]] + Components(s[RunLength(s)..])
  }

  lemma {:induction false} ComponentsAreNames(s: string)
    ensures AreNames(Components(s))
    decreases |s|
  {
    if s == "" {
    } else if IsSeparator(s[0]) {
      ComponentsAreNames(s[1..]);
    } else {
      RunLengthIs(s);
      ComponentsAreNames(s[RunLength(s)..]);
    }
  }

  function DriveLetter(path: string): char {
    if |path| >= 2 && path[1] == ':' then Lower(path[0]) else '\0'
  }

  function AfterDrive(path: string): string {
    if |path| >= 2 && path[1] == ':' then path[2..] else path
  }

  lemma RunLengthOfRun(run: string, rest: string)
    requires forall i | 0 <= i < |run| :: !IsSeparator(run[i])
    requires rest == "" || IsSeparator(rest[0])
    ensures RunLength(run + rest) == |run|
  {
    RunLengthIs(run + rest);
    assert forall i | 0 <= i < |run| :: (run + rest)[i] == run[i];
    assert rest != "" ==> (run + rest)[|run|] == rest[0];
  }

  lemma ComponentsOfRun(run: string, rest: string)
    requires IsName(run)
    requires rest == "" || IsSeparator(rest[0])
    ensures Components(run + rest) == [run] + Components(rest)
  {
    RunLengthOfRun(run, rest);
    assert (run + rest)[0] == run[0];
    assert (run + rest)[..|run|] == run;
    assert (run + rest)[|run|..] == rest;
  }

  /** The components read so far, the one being read and the rest of the path make `whole`. */
  predicate Reading(whole: seq<string>, parts: seq<string>, current: string, path: string, at: nat) {
    at <= |path| && (current == "" || IsName(current)) && whole == parts + Components(current + path[at..])
  }

  lemma ReadOne(whole: seq<string>, parts: seq<string>, current: string, path: string, at: nat,
                nextParts: seq<string>, nextCurrent: string, next: nat)
    requires Reading(whole, parts, current, path, at) && at < |path| && next == at + 1
    requires nextParts == if IsSeparator(path[at]) && current != "" then parts + [current] else parts
    requires nextCurrent == if IsSeparator(path[at]) then "" else current + [path[at]]
    ensures Reading(whole, nextParts, nextCurrent, path, next)
  {
    var c, rest := path[at], path[at + 1..];
    assert path[at..] == [c] + rest;
    if IsSeparator(c) {
      ReadSeparator(parts, current, c, rest);
    } else {
      ReadLetter(current, c, rest);
    }
  }

  lemma ReadLetter(current: string, c: char, rest: string)
    requires (current == "" || IsName(current)) && !IsSeparator(c)
    ensures IsName(current + [c]) && current + ([c] + rest) == (current + [c]) + rest
  {
  }

  lemma ReadSeparator(parts: seq<string>, current: string, c: char, rest: string)
    requires (current == "" || IsName(current)) && IsSeparator(c)
    ensures parts + Components(current + ([c] + rest))
            == (if current != "" then parts + [current] else parts) + Components("" + rest)
  {
    assert ([c] + rest)[1..] == rest == "" + rest;
    if current == "" {
      assert current + ([c] + rest) == [c] + rest;
    } else {
      ComponentsOfRun(current, [c] + rest);
      assert parts + ([current] + Components(rest)) == (parts + [current]) + Components(rest);
    }
  }

  lemma ReadLast(parts: seq<string>, current: string, path: string)
    requires current == "" || IsName(current)
    ensures parts + Components(current + path[|path|..]) == if current == "" then parts else parts + [current]
  {
    assert current + path[|path|..] == current + "";
    if current != "" {
      ComponentsOfRun(current, "");
    }
  }

  method SplitPath(path: string) returns (ok: bool, letter: char, parts: seq<string>)
    ensures letter == DriveLetter(path)
    ensures parts == Components(AfterDrive(path))
    ensures ok <==> letter != '\0'
  {
    parts := [];
    letter := '\0';
    var at := 0;
    if |path| >= 2 && path[1] == ':' {
      letter := Lower(path[0]);
      at := 2;
    }
    var current := "";
    ghost var whole := Components(AfterDrive(path));
    assert AfterDrive(path) == current + path[at..] && [] + whole == whole;
    while at < |path|
      invariant Reading(whole, parts, current, path, at)
    {
      var c := path[at];
      ghost var wasParts, wasCurrent, was := parts, current, at;
      if IsSeparator(c) {
        if current != "" {
          parts := parts + [current];
          current := "";
        }
      } else {
        current := current + [c];
      }
      at := at + 1;
      ReadOne(whole, wasParts, wasCurrent, path, was, parts, current, at);
    }
    ReadLast(parts, current, path);
    if current != "" {
      parts := parts + [current];
    }
    ok := letter != '\0';
  }

  // ---- the EKA2 rewrite --------------------------------------------------

  /** Case and separator kind folded away, which is how two bytes of a path compare. */
  function Fold(c: char): char {
    if c == '/' then '\\' else Lower(c)
  }

  const LIBS: string := "\\system\\libs"
  const PROGRAMS: string := "\\system\\programs"
  const BIN: string := "\\sys\\bin"

  /** Whether the path goes on with `what` after its first two bytes. */
  predicate Continues(path: string, what: string) {
    |path| >= 2 + |what| && forall i | 0 <= i < |what| :: Fold(path[2 + i]) == Fold(what[i])
  }

  /** How many bytes of the path the rewrite replaces; 0 when it leaves the path alone. */
  function RewrittenLength(path: string): (n: nat)
    ensures n <= |path|
  {
    if Continues(path, LIBS) then 14 else if Continues(path, PROGRAMS) then 18 else 0
  }

  function RewriteForEka2(path: string): string {
    var n := RewrittenLength(path);
    if n == 0 then path else path[..2] + BIN + path[n..]
  }

  method Starts(path: string, what: string) returns (yes: bool)
    ensures yes <==> Continues(path, what)
  {
    if |path| < 2 + |what| {
      return false;
    }
    for i := 0 to |what|
      invariant forall j | 0 <= j < i :: Fold(path[2 + j]) == Fold(what[j])
    {
      var a, b := Lower(path[2 + i]), Lower(what[i]);
      if a == b || (a == '/' && b == '\\') || (a == '\\' && b == '/') {
        continue;
      }
      return false;
    }
    return true;
  }

  method Rewrite(path: string) returns (r: string)
    ensures r == RewriteForEka2(path)
  {
    if |path| < 14 {
      return path;
    }
    var libs := Starts(path, LIBS);
    if libs {
      return path[..2] + BIN + path[14..];
    }
    var programs := Starts(path, PROGRAMS);
    if programs {
      return path[..2] + BIN + path[18..];
    }
    return path;
  }

  // ---- spellings ---------------------------------------------------------

  /** The same path but for case and for which separator is written. */
  predicate Respelled(p: string, q: string) {
    |p| == |q| && forall i | 0 <= i < |p| :: Fold(p[i]) == Fold(q[i])
  }

  lemma RespelledRun(p: string, q: string)
    requires Respelled(p, q)
    ensures RunLength(p) == RunLength(q)
  {
    if p != "" && !IsSeparator(p[0]) {
      RespelledRun(p[1..], q[1..]);
    }
  }

  /** A path's components, lowercased, do not depend on its spelling. */
  lemma {:induction false} RespelledComponents(p: string, q: string)
    requires Respelled(p, q)
    ensures LoweredAll(Components(p)) == LoweredAll(Components(q))
    decreases |p|
  {
    if p == "" {
    } else if IsSeparator(p[0]) {
      RespelledComponents(p[1..], q[1..]);
    } else {
      RespelledRun(p, q);
      RunLengthIs(p);
      RunLengthIs(q);
      var n := RunLength(p);
      RespelledComponents(p[n..], q[n..]);
      assert Lowered(p[..n]) == Lowered(q[..n]);
    }
  }

  /** The rewrite treats two spellings of a path alike. */
  lemma RespelledRewrite(p: string, q: string)
    requires Respelled(p, q)
    ensures Respelled(RewriteForEka2(p), RewriteForEka2(q))
  {
    assert Continues(p, LIBS) <==> Continues(q, LIBS);
    assert Continues(p, PROGRAMS) <==> Continues(q, PROGRAMS);
  }

  /** The rewrite changes nothing before the third byte. */
  lemma RewriteKeepsDrive(path: string)
    ensures DriveLetter(RewriteForEka2(path)) == DriveLetter(path)
  {
    if RewrittenLength(path) != 0 {
      assert RewriteForEka2(path)[..2] == path[..2];
    }
  }

  lemma RewriteIdempotent(path: string)
    ensures RewriteForEka2(RewriteForEka2(path)) == RewriteForEka2(path)
  {
    var r := RewriteForEka2(path);
    if RewrittenLength(path) != 0 {
      assert r[2 + 4] == BIN[4] == '\\';
      assert LIBS[4] == PROGRAMS[4] == 't';
    }
  }

  // ---- where a path points -----------------------------------------------

  /** A drive and the names on the way down from its root, as the path spells them. */
  datatype Located = Located(drive: nat, names: seq<string>)

  /** Where a path points: none without a drive letter from a to z. */
  function Locate(eka2: bool, raw: string): (at: Option<Located>)
    ensures at.Some? ==> at.value.drive < DRIVES && AreNames(at.value.names)
  {
    var path := if eka2 then RewriteForEka2(raw) else raw;
    var drive := DriveLetter(path) as int - 'a' as int;
    ComponentsAreNames(AfterDrive(path));
    if DriveLetter(path) == '\0' || drive < 0 || drive >= DRIVES then None
    else Some(Located(drive, Components(AfterDrive(path))))
  }

  /** The drive is told by the letter before the rewrite. */
  lemma LetterIsDrive(eka2: bool, path: string)
    requires Locate(eka2, path).Some?
    ensures DriveLetter(path) as int - 'a' as int == Locate(eka2, path).value.drive
  {
    RewriteKeepsDrive(path);
  }

  /** So the rewrite leaves the drive. */
  lemma RewriteSameDrive(eka2: bool, path: string)
    ensures Locate(eka2, path).Some? <==> Locate(false, path).Some?
    ensures Locate(eka2, path).Some? ==> Locate(eka2, path).value.drive == Locate(false, path).value.drive
  {
    RewriteKeepsDrive(path);
  }

  /** Two locations the tree cannot tell apart. */
  predicate SamePlace(a: Option<Located>, b: Option<Located>) {
    match (a, b)
    case (Some(x), Some(y)) => x.drive == y.drive && LoweredAll(x.names) == LoweredAll(y.names)
    case (None, None) => true
    case _ => false
  }

  /** Case and the kind of separator never matter, before EKA2 or after it. */
  lemma RespelledSamePlace(eka2: bool, p: string, q: string)
    requires Respelled(p, q)
    ensures SamePlace(Locate(eka2, p), Locate(eka2, q))
  {
    RespelledRewrite(p, q);
    var p', q' := if eka2 then RewriteForEka2(p) else p, if eka2 then RewriteForEka2(q) else q;
    assert |p'| >= 2 ==> Fold(p'[1]) == Fold(q'[1]) && Fold(p'[0]) == Fold(q'[0]);
    RespelledComponents(AfterDrive(p'), AfterDrive(q'));
  }

  /** `path` with the separator at `i` written twice. */
  function Doubled(path: string, i: nat): string
    requires i < |path|
  {
    path[..i] + [path[i]] + path[i..]
  }

  lemma {:induction false} DoubledComponents(path: string, i: nat)
    requires i < |path| && IsSeparator(path[i])
    ensures Components(Doubled(path, i)) == Components(path)
    decreases |path|
  {
    var d := Doubled(path, i);
    if i == 0 {
      assert d[1..] == path;
    } else if IsSeparator(path[0]) {
      DoubledComponents(path[1..], i - 1);
      assert d[1..] == Doubled(path[1..], i - 1);
    } else {
      var n := RunLength(path);
      RunLengthAtMost(path, i);
      DoubledComponents(path[n..], i - n);
      DoubledAfterRun(path, i, n, d);
    }
  }

  lemma DoubledAfterRun(path: string, i: nat, n: nat, d: string)
    requires n <= i < |path| && n == RunLength(path) > 0 && IsSeparator(path[i]) && IsSeparator(path[n]) && d == Doubled(path, i)
    requires forall j | 0 <= j < n :: !IsSeparator(path[j])
    requires Components(Doubled(path[n..], i - n)) == Components(path[n..])
    ensures Components(d) == Components(path)
  {
    DoubledTail(path, i, n);
    ComponentsOfRun(path[..n], d[n..]);
  }

  lemma DoubledTail(path: string, i: nat, n: nat)
    requires n <= i < |path| && IsSeparator(path[i])
    ensures Doubled(path, i) == path[..n] + Doubled(path, i)[n..]
    ensures Doubled(path, i)[n..] == Doubled(path[n..], i - n)
    ensures IsSeparator(path[n]) ==> IsSeparator(Doubled(path, i)[n])
  {
  }

  lemma RunLengthAtMost(s: string, i: nat)
    requires i < |s| && IsSeparator(s[i])
    ensures RunLength(s) <= i
    ensures forall j | 0 <= j < RunLength(s) :: !IsSeparator(s[j])
    ensures IsSeparator(s[RunLength(s)])
  {
    RunLengthIs(s);
  }

  /** Writing a separator twice leaves the place the same exactly when it does not
      break the prefix that EKA2 rewrites. */
  lemma DoubledSamePlace(eka2: bool, path: string, i: nat)
    requires 2 <= i < |path| && IsSeparator(path[i])
    requires Locate(false, path).Some?
    ensures SamePlace(Locate(eka2, path), Locate(eka2, Doubled(path, i)))
            <==> !(eka2 && i < RewrittenLength(path))
  {
    DoubledLength(path, i);
    if eka2 && RewrittenLength(path) != 0 {
      if i < RewrittenLength(path) {
        BrokenPrefix(path);
        DoubledPlain(path, i);
      } else {
        DoubledPastPrefix(path, i);
      }
    } else {
      DoubledPlain(path, i);
    }
  }

  /** It does break it here: the second path has its first separator twice. */
  lemma DoubledPlaceDiffers()
    ensures var path := "c:\\system\\libs\\x";
            && Doubled(path, 2) == "c:\\\\system\\libs\\x"
            && !SamePlace(Locate(true, path), Locate(true, Doubled(path, 2)))
  {
    var path := "c:\\system\\libs\\x";
    DoubledSpelled(path);
    assert path == ['c', ':'] + (LIBS + "\\x");
    DoubledLibs(path, 'c');
  }

  lemma DoubledSpelled(path: string)
    requires path == "c:\\system\\libs\\x"
    ensures Doubled(path, 2) == "c:\\\\system\\libs\\x"
  {
    assert path[..2] == "c:" && path[2..] == "\\system\\libs\\x";
  }

  lemma DoubledLibs(path: string, c: char)
    requires 'a' <= c <= 'z' && path == [c, ':'] + (LIBS + "\\x")
    ensures !SamePlace(Locate(true, path), Locate(true, Doubled(path, 2)))
  {
    LibsPath(path, c);
    DoubledSamePlace(true, path, 2);
  }

  /** A path into the libraries' directory, on any drive. */
  lemma LibsPath(path: string, c: char)
    requires 'a' <= c <= 'z' && path == [c, ':'] + (LIBS + "\\x")
    ensures RewrittenLength(path) == 14 && Locate(false, path).Some?
  {
    var tail := LIBS + "\\x";
    assert forall i | 0 <= i < |LIBS| :: path[2 + i] == tail[i] == LIBS[i];
    assert path[0] == c && path[1] == ':';
  }

  /** The rewrite takes a path that it touches to another place, and every other nowhere. */
  lemma RewriteMovesExactly(eka2: bool, path: string)
    requires Locate(false, path).Some?
    ensures Locate(eka2, path).Some?
    ensures SamePlace(Locate(eka2, path), Locate(false, path)) <==> !(eka2 && RewrittenLength(path) != 0)
  {
    RewriteKeepsDrive(path);
    if eka2 && RewrittenLength(path) != 0 {
      BrokenPrefix(path);
    }
  }

  /** What the rewrite makes of a path lies below another directory of the drive. */
  lemma RewriteMovesTop(path: string)
    requires RewrittenLength(path) != 0 && Locate(false, path).Some?
    ensures Locate(true, path).Some?
    ensures var a, b := Locate(true, path).value.names, Locate(false, path).value.names;
            a != [] && b != [] && Lowered(a[0]) != Lowered(b[0])
  {
    RewriteKeepsDrive(path);
    FirstComponents(path);
    var a, b := Components(AfterDrive(RewriteForEka2(path))), Components(AfterDrive(path));
    assert |Lowered(a[0])| == 3 && |Lowered(b[0])| == 6;
  }

  /** The doubled path is rewritten only when the separator stands past the prefix. */
  lemma DoubledLength(path: string, i: nat)
    requires 2 <= i < |path| && IsSeparator(path[i])
    ensures RewrittenLength(Doubled(path, i)) == if i < RewrittenLength(path) then 0 else RewrittenLength(path)
  {
    DoubledContinues(path, i, LIBS);
    DoubledContinues(path, i, PROGRAMS);
  }

  /** Without a rewrite, doubling a separator changes nothing. */
  lemma DoubledPlain(path: string, i: nat)
    requires 2 <= i < |path| && IsSeparator(path[i]) && Locate(false, path).Some?
    ensures Locate(false, Doubled(path, i)) == Locate(false, path)
  {
    DoubledAfterDrive(path, i);
  }

  /** A path that would have been rewritten points elsewhere when it is not. */
  lemma BrokenPrefix(path: string)
    requires RewrittenLength(path) != 0 && Locate(false, path).Some?
    ensures !SamePlace(Locate(true, path), Locate(false, path))
  {
    FirstComponents(path);
    var a, b := Components(AfterDrive(path)), Components(AfterDrive(RewriteForEka2(path)));
    assert |LoweredAll(a)[0]| == 6 && |LoweredAll(b)[0]| == 3;
  }

  /** Past the rewritten prefix, the doubled separator is one the rewrite keeps. */
  lemma DoubledPastPrefix(path: string, i: nat)
    requires RewrittenLength(path) != 0 && RewrittenLength(path) <= i < |path|
    requires IsSeparator(path[i]) && path[1] == ':'
    requires RewrittenLength(Doubled(path, i)) == RewrittenLength(path)
    ensures SamePlace(Locate(true, path), Locate(true, Doubled(path, i)))
  {
    var n, d, r := RewrittenLength(path), Doubled(path, i), RewriteForEka2(path);
    var j := i - n + 2 + |BIN|;
    assert |r| == |path| - n + 2 + |BIN|;
    assert r[j] == path[i];
    assert r[1] == path[1];
    assert d[..2] == path[..2];
    assert d[n..] == path[n..i] + [path[i]] + path[i..];
    assert r[..j] == path[..2] + BIN + path[n..i];
    assert r[j..] == path[i..];
    assert RewriteForEka2(d) == Doubled(r, j);
    DoubledAfterDrive(r, j);
  }

  lemma DoubledAfterDrive(path: string, i: nat)
    requires 2 <= i < |path| && IsSeparator(path[i]) && path[1] == ':'
    ensures DriveLetter(Doubled(path, i)) == DriveLetter(path)
    ensures Components(AfterDrive(Doubled(path, i))) == Components(AfterDrive(path))
  {
    assert AfterDrive(Doubled(path, i)) == Doubled(path[2..], i - 2);
    DoubledComponents(path[2..], i - 2);
  }

  /** A prefix without adjacent separators survives the doubling exactly when it ends before it. */
  lemma DoubledContinues(path: string, i: nat, what: string)
    requires 2 <= i < |path| && IsSeparator(path[i])
    requires what == LIBS || what == PROGRAMS
    ensures Continues(Doubled(path, i), what) <==> Continues(path, what) && 2 + |what| <= i
  {
    var d := Doubled(path, i);
    assert forall k | 0 <= k <= i :: d[k] == path[k];
    assert d[i + 1] == path[i];
    var k := i - 2;
    assert Fold(d[2 + k]) == Fold(d[2 + (k + 1)]) == '\\';
    assert 0 <= k < |what| && Fold(what[k]) == '\\' ==> k == 0 || k == 7;
    assert k == 0 || k == 7 ==> Fold(what[k + 1]) == 's' || Fold(what[k + 1]) == 'l' || Fold(what[k + 1]) == 'p';
  }

  lemma FirstComponent(s: string, n: nat)
    requires 2 <= n < |s| && IsSeparator(s[0]) && IsSeparator(s[n]) && IsName(s[1..n])
    ensures Components(s) != [] && Components(s)[0] == s[1..n]
  {
    ComponentsOfRun(s[1..n], s[n..]);
    assert s[1..] == s[1..n] + s[n..];
  }

  lemma SharedPrefix(path: string)
    requires RewrittenLength(path) != 0
    ensures forall k | 0 <= k < 8 :: Fold(path[2 + k]) == "\\system\\"[k]
  {
    assert LIBS[..8] == PROGRAMS[..8] == "\\system\\";
    var what := if Continues(path, LIBS) then LIBS else PROGRAMS;
    assert forall k | 0 <= k < 8 :: Fold(path[2 + k]) == Fold(what[k]) && what[k] == what[..8][k];
    assert forall k | 0 <= k < 8 :: Fold("\\system\\"[k]) == "\\system\\"[k];
  }

  /** The rewrite changes the first component. */
  lemma FirstComponents(path: string)
    requires |path| >= 2 && path[1] == ':' && RewrittenLength(path) != 0
    ensures Components(AfterDrive(path)) != []
    ensures Components(AfterDrive(RewriteForEka2(path))) != []
    ensures |Components(AfterDrive(path))[0]| == 6
    ensures |Components(AfterDrive(RewriteForEka2(path)))[0]| == 3
  {
    SharedPrefix(path);
    SystemFirst(AfterDrive(path));
    SysFirst(RewriteForEka2(path)[2..]);
  }

  lemma SystemFirst(s: string)
    requires |s| >= 8 && forall k | 0 <= k < 8 :: Fold(s[k]) == "\\system\\"[k]
    ensures Components(s) != [] && |Components(s)[0]| == 6
  {
    var name := s[1..7];
    forall k | 0 <= k < 6
      ensures !IsSeparator(name[k])
    {
      assert Fold(name[k]) == Fold(s[1 + k]) == "\\system\\"[1 + k];
    }
    assert Fold(s[0]) == Fold(s[7]) == '\\';
    FirstComponent(s, 7);
  }

  lemma SysFirst(s: string)
    requires BIN <= s
    ensures Components(s) != [] && |Components(s)[0]| == 3
  {
    assert s[..8] == BIN;
    assert forall k | 0 <= k < 3 :: s[1..4][k] == BIN[1 + k];
    assert s[4] == BIN[4];
    FirstComponent(s, 4);
  }
}

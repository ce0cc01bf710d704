/** Where paths lead, told by character codes: which letters are drives, which characters are
    one, that a path put together from names is taken apart into them, and which paths EKA2
    leads elsewhere. */
module PathLaws {
  import opened Options
  import opened Paths
  import opened FlatTree

  // ---- characters --------------------------------------------------------

  /** Code `c` is a capital letter and `d` its small one. */
  predicate Capital(c: int, d: int) {
    65 <= c <= 90 && d == c + 32
  }

  predicate OneLetter(c: char, d: char) {
    c == d || Capital(c as int, d as int) || Capital(d as int, c as int)
  }

  /** The backslash and the slash. */
  predicate Separates(c: char) {
    c as int == 92 || c as int == 47
  }

  predicate Alike(c: char, d: char) {
    OneLetter(c, d) || (Separates(c) && Separates(d))
  }

  lemma LowerAlike(c: char, d: char)
    ensures Lower(c) == Lower(d) <==> OneLetter(c, d)
  {
  }

  lemma FoldAlike(c: char, d: char)
    ensures Fold(c) == Fold(d) <==> Alike(c, d)
  {
  }

  /** Two names are one when they are equal but for the case of their letters. */
  predicate OneName(p: string, q: string) {
    |p| == |q| && forall i | 0 <= i < |p| :: OneLetter(p[i], q[i])
  }

  lemma LoweredAlike(p: string, q: string)
    ensures Lowered(p) == Lowered(q) <==> OneName(p, q)
  {
    if |p| == |q| {
      forall i | 0 <= i < |p|
        ensures Lowered(p)[i] == Lowered(q)[i] <==> OneLetter(p[i], q[i])
      {
        LowerAlike(p[i], q[i]);
      }
    }
    assert |Lowered(p)| == |p| && |Lowered(q)| == |q|;
  }

  /** Two locations are one place exactly when the drives are equal and the names pairwise one. */
  lemma OnePlaceExactly(a: Located, b: Located)
    ensures KeyOf(a) == KeyOf(b)
            <==> a.drive == b.drive && |a.names| == |b.names| && forall i | 0 <= i < |a.names| :: OneName(a.names[i], b.names[i])
  {
    BelowInjective(a.drive, a.names, b.drive, b.names);
    if |a.names| == |b.names| {
      forall i | 0 <= i < |a.names|
        ensures LoweredAll(a.names)[i] == LoweredAll(b.names)[i] <==> OneName(a.names[i], b.names[i])
      {
        LoweredAlike(a.names[i], b.names[i]);
      }
    }
    assert |LoweredAll(a.names)| == |a.names| && |LoweredAll(b.names)| == |b.names|;
  }

  // ---- drives ------------------------------------------------------------

  /** The letter of a drive, capital or small. */
  function LetterOf(drive: nat, capital: bool): char
    requires drive < 26
  {
    if capital then (65 + drive) as char else (97 + drive) as char
  }

  predicate NamesDrive(path: string, drive: nat) {
    && |path| >= 2 && path[1] as int == 58
    && (path[0] as int == 65 + drive || path[0] as int == 97 + drive)
  }

  /** A path leads somewhere exactly when it begins with one of the 26 letters and a colon, and
      then to the drive of that letter, before EKA2 and after it. */
  lemma DriveExactly(eka2: bool, path: string, drive: nat)
    requires drive < 26
    ensures NamesDrive(path, drive) <==> Locate(eka2, path).Some? && Locate(eka2, path).value.drive == drive
  {
    RewriteSameDrive(eka2, path);
    LowerAlike(if |path| > 0 then path[0] else 'a', LetterOf(drive, false));
  }

  // ---- names -------------------------------------------------------------

  predicate IsPlain(name: string) {
    name != "" && forall i | 0 <= i < |name| :: !Separates(name[i])
  }

  /** Separators of either kind, any number of them. */
  predicate IsGap(gap: string) {
    forall i | 0 <= i < |gap| :: Separates(gap[i])
  }

  /** Each name with its gap before it, and a gap at the end. */
  function Joined(names: seq<string>, gaps: seq<string>): string
    requires |gaps| == |names| + 1
  {
    if names == [] then gaps[0] else gaps[0] + (names[0] + Joined(names[1..], gaps[1..]))
  }

  /** Names, and gaps that keep them apart: only the first and the last may be empty. */
  predicate AllPlain(names: seq<string>, gaps: seq<string>)
    requires |gaps| == |names| + 1
  {
    && IsGap(gaps[0])
    && (names != [] ==> IsPlain(names[0]) && AllPlain(names[1..], gaps[1..]) && (|names| > 1 ==> gaps[1] != ""))
  }

  lemma {:induction false} GapSkipped(gap: string, rest: string)
    requires IsGap(gap)
    ensures Components(gap + rest) == Components(rest)
  {
    if gap == "" {
      assert gap + rest == rest;
    } else {
      assert (gap + rest)[0] == gap[0] && (gap + rest)[1..] == gap[1..] + rest;
      GapSkipped(gap[1..], rest);
    }
  }

  /** What follows a name begins with a separator, when anything does. */
  lemma GapFollows(names: seq<string>, gaps: seq<string>)
    requires |gaps| == |names| + 1 && AllPlain(names, gaps) && (names != [] ==> gaps[0] != "")
    ensures Joined(names, gaps) != "" ==> Separates(Joined(names, gaps)[0])
  {
  }

  lemma {:induction false} JoinedSplits(names: seq<string>, gaps: seq<string>)
    requires |gaps| == |names| + 1 && AllPlain(names, gaps)
    ensures Components(Joined(names, gaps)) == names
  {
    if names == [] {
      GapSkipped(gaps[0], "");
      assert gaps[0] + "" == gaps[0];
    } else {
      var rest := Joined(names[1..], gaps[1..]);
      JoinedSplits(names[1..], gaps[1..]);
      GapFollows(names[1..], gaps[1..]);
      ComponentsOfRun(names[0], rest);
      GapSkipped(gaps[0], names[0] + rest);
      assert names == [names[0]] + names[1..];
    }
  }

  /** A path put together from a drive and names, with separators of either kind between them
      and any number of them, leads to that drive and those names. */
  lemma JoinedLeads(drive: nat, capital: bool, names: seq<string>, gaps: seq<string>)
    requires drive < 26 && |gaps| == |names| + 1 && AllPlain(names, gaps)
    ensures Locate(false, [LetterOf(drive, capital), ':'] + Joined(names, gaps)) == Some(Located(drive, names))
  {
    var tail := Joined(names, gaps);
    var path := [LetterOf(drive, capital), ':'] + tail;
    assert path[0] == LetterOf(drive, capital) && path[1] == ':' && path[2..] == tail;
    DriveExactly(false, path, drive);
    JoinedSplits(names, gaps);
  }

  // ---- the paths EKA2 leads elsewhere ------------------------------------

  /** After the drive the path goes on with `what`, whatever its case and separators. */
  predicate GoesOn(path: string, what: string) {
    |path| >= 2 + |what| && forall i | 0 <= i < |what| :: Alike(path[2 + i], what[i])
  }

  lemma ContinuesAlike(path: string, what: string)
    ensures Continues(path, what) <==> GoesOn(path, what)
  {
    forall i | 0 <= i < |what| && |path| >= 2 + |what|
      ensures Fold(path[2 + i]) == Fold(what[i]) <==> Alike(path[2 + i], what[i])
    {
      FoldAlike(path[2 + i], what[i]);
    }
  }

  /** A path below \system\libs or \system\programs leads where the same path below \sys\bin
      leads; any other leads where it says. */
  lemma RewriteLeads(path: string)
    ensures GoesOn(path, "\\system\\libs") ==>
              Locate(true, path) == Locate(false, path[..2] + "\\sys\\bin" + path[14..])
    ensures GoesOn(path, "\\system\\programs") ==>
              Locate(true, path) == Locate(false, path[..2] + "\\sys\\bin" + path[18..])
    ensures !GoesOn(path, "\\system\\libs") && !GoesOn(path, "\\system\\programs") ==>
              Locate(true, path) == Locate(false, path)
  {
    ContinuesAlike(path, "\\system\\libs");
    ContinuesAlike(path, "\\system\\programs");
    OnlyOneGoesOn(path);
  }

  lemma OnlyOneGoesOn(path: string)
    ensures !(GoesOn(path, "\\system\\libs") && GoesOn(path, "\\system\\programs"))
  {
    assert "\\system\\libs"[8] == 'l' && "\\system\\programs"[8] == 'p';
    assert GoesOn(path, "\\system\\libs") ==> Alike(path[10], 'l');
    assert GoesOn(path, "\\system\\programs") ==> Alike(path[10], 'p');
  }
}

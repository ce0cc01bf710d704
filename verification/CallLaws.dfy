/** What a call on a path does, told by the path's letters and the names in it. */
module CallLaws {
  import opened Options
  import opened Paths
  import opened FlatTree
  import opened TreeLaws
  import opened MemoryFileSystem
  import opened OpenHandles
  import opened OperationLaws
  import PL = PathLaws

  // ---- paths -------------------------------------------------------------

  /** How a path is spelled: its drive's letter, capital or small, its names, and the separators
      around them. */
  datatype Spelling = Spelling(drive: nat, capital: bool, names: seq<string>, gaps: seq<string>) {
    predicate Sound() {
      drive < 26 && |gaps| == |names| + 1 && PL.AllPlain(names, gaps)
    }

    function At(): Located {
      Located(drive, names)
    }
  }

  function Path(s: Spelling): string
    requires s.Sound()
  {
    [PL.LetterOf(s.drive, s.capital), ':'] + PL.Joined(s.names, s.gaps)
  }

  /** The path is not one of those EKA2 leads elsewhere, or the machine is not EKA2. */
  predicate Straight(eka2: bool, s: Spelling)
    requires s.Sound()
  {
    eka2 ==> !PL.GoesOn(Path(s), "\\system\\libs") && !PL.GoesOn(Path(s), "\\system\\programs")
  }

  lemma Leads(eka2: bool, s: Spelling)
    requires s.Sound() && Straight(eka2, s)
    ensures Locate(eka2, Path(s)) == Some(s.At())
  {
    PL.JoinedLeads(s.drive, s.capital, s.names, s.gaps);
    if eka2 {
      PL.RewriteLeads(Path(s));
    }
  }

  predicate IsProtectedDrive(d: Desk, drive: nat) {
    drive < |d.isProtected| && d.isProtected[drive]
  }

  // ---- calls that make, delete and rename --------------------------------

  /** Making a directory: done when the path has a last name and the names before it lead
      somewhere, and then a directory stands there, under that name as spelled. */
  lemma MakesOne(d: Desk, eka2: bool, s: Spelling, next: Desk)
    requires s.Sound() && Straight(eka2, s) && next == After(d, eka2, MakeOne(Path(s)))
    ensures next.files == d.files && next.isProtected == d.isProtected
    ensures Given(d, eka2, MakeOne(Path(s))) == Done(HasParent(d.tree, Some(s.At())))
    ensures if HasParent(d.tree, Some(s.At())) then
              var k := KeyOf(s.At());
              && k in next.tree && next.tree[k].isDir && next.tree[k].name == s.names[|s.names| - 1]
              && SameBut(d.tree, next.tree, k)
            else next.tree == d.tree
  {
    Leads(eka2, s);
    RunOne(d.tree, OpOf(d, eka2, MakeOne(Path(s)))[0]);
    CreatesDirectory(d.tree, Some(s.At()));
  }

  /** Making all on the way: done on a mounted drive, and then each name of the path, as it is
      spelled, leads to a directory, whatever EKA2 would make of the path. */
  lemma MakesAll(d: Desk, eka2: bool, s: Spelling, next: Desk, n: nat)
    requires s.Sound() && next == After(d, eka2, MakeAll(Path(s))) && 0 < n <= |s.names|
    ensures next.files == d.files && next.isProtected == d.isProtected
    ensures Given(d, eka2, MakeAll(Path(s))) == Done(Root(s.drive) in d.tree)
    ensures if Root(s.drive) in d.tree then Way(s.At(), n) in next.tree && next.tree[Way(s.At(), n)].isDir
            else next.tree == d.tree
  {
    Leads(false, s);
    RunOne(d.tree, OpOf(d, eka2, MakeAll(Path(s)))[0]);
    CreatesTheWay(d.tree, Some(s.At()), n);
  }

  /** Something is there that can be deleted: it has a name, and is no directory that holds some. */
  ghost predicate Deletable(m: Flat, at: Located) {
    at.names != [] && KeyOf(at) in m && !(m[KeyOf(at)].isDir && HoldsSome(m, KeyOf(at)))
  }

  lemma Deletes(d: Desk, eka2: bool, s: Spelling, next: Desk, q: Key)
    requires Rooted(d.tree) && s.Sound() && Straight(eka2, s) && next == After(d, eka2, DeletePath(Path(s)))
    ensures next.files == d.files && next.isProtected == d.isProtected
    ensures Given(d, eka2, DeletePath(Path(s))) == Done(Deletable(d.tree, s.At()))
    ensures if Deletable(d.tree, s.At()) && Under(KeyOf(s.At()), q) then q !in next.tree else SameAt(d.tree, next.tree, q)
  {
    Leads(eka2, s);
    RunOne(d.tree, OpOf(d, eka2, DeletePath(Path(s)))[0]);
    DeletesExactly(d.tree, Some(s.At()), q);
  }

  /** Something is there that can be renamed, and the new path can be named. */
  predicate Renamable(m: Flat, from: Located, to: Located) {
    from.names != [] && KeyOf(from) in m && HasParent(m, Some(to))
  }

  /** What stood at `from` stands at `to`, under that name, and no longer at `from`. */
  predicate HasMoved(m: Flat, t: Flat, from: Key, to: Key, name: string) {
    && from in m && to in t && t[to] == m[from].(name := name)
    && (from in t ==> Under(to, from))
  }

  /** The renaming call from one path to another, answered and done. */
  ghost predicate RenamedTo(d: Desk, eka2: bool, from: string, to: string, f: Located, t: Located, next: Desk) {
    && next.files == d.files && next.isProtected == d.isProtected
    && Given(d, eka2, RenamePath(from, to)) == Done(Renamable(d.tree, f, t))
    && if Renamable(d.tree, f, t) then HasMoved(d.tree, next.tree, KeyOf(f), KeyOf(t), t.names[|t.names| - 1])
       else next.tree == d.tree
  }

  /** Renaming: what stood at the old path stands at the new one, under its last name as spelled,
      and no longer at the old one. */
  lemma Renames(d: Desk, eka2: bool, s: Spelling, t: Spelling, next: Desk)
    requires Rooted(d.tree) && s.Sound() && t.Sound() && Straight(eka2, s) && Straight(eka2, t)
    requires next == After(d, eka2, RenamePath(Path(s), Path(t))) && !Under(KeyOf(s.At()), KeyOf(t.At()))
    ensures RenamedTo(d, eka2, Path(s), Path(t), s.At(), t.At(), next)
  {
    Leads(eka2, s);
    Leads(eka2, t);
    RenameCall(d, eka2, Path(s), Path(t), s.At(), t.At(), next);
  }

  lemma RenameCall(d: Desk, eka2: bool, from: string, to: string, f: Located, t: Located, next: Desk)
    requires Rooted(d.tree) && Locate(eka2, from) == Some(f) && Locate(eka2, to) == Some(t)
    requires next == After(d, eka2, RenamePath(from, to)) && !Under(KeyOf(f), KeyOf(t))
    ensures RenamedTo(d, eka2, from, to, f, t, next)
  {
    RunOne(d.tree, Rename(Some(f), Some(t)));
    RenameMoves(d.tree, f, t, KeyOf(f), KeyOf(t));
  }

  lemma RenameMoves(m: Flat, s: Located, t: Located, from: Key, to: Key)
    requires Rooted(m) && from == KeyOf(s) && to == KeyOf(t) && !Under(from, to)
    ensures Replace(m, Some(s), Some(t)).ok <==> Renamable(m, s, t)
    ensures if Renamable(m, s, t) then HasMoved(m, Replace(m, Some(s), Some(t)).tree, from, to, t.names[|t.names| - 1])
            else Replace(m, Some(s), Some(t)).tree == m
  {
    RenamesExactly(m, Some(s), Some(t));
    if Renamable(m, s, t) {
      ReplaceDone(m, Some(s), Some(t));
      CarriedAt(m, from, to, from);
    }
  }

  // ---- opening -----------------------------------------------------------

  /** Opening what is there: refused when it is a directory, or would be written and is a
      package's or on a protected drive. A handle stands at the end when it appends, else at the
      start. */
  lemma OpensThere(d: Desk, eka2: bool, s: Spelling, mode: Mode, next: Desk)
    requires s.Sound() && Straight(eka2, s) && KeyOf(s.At()) in d.tree && next == After(d, eka2, OpenPath(Path(s), mode))
    ensures var e := d.tree[KeyOf(s.At())];
            var ok := !e.isDir && (MayWrite(mode) ==> e.fixed.None? && !IsProtectedDrive(d, s.drive));
            && Given(d, eka2, OpenPath(Path(s), mode)) == Done(ok)
            && next.files == if ok then d.files + [Handle(KeyOf(s.At()), mode, if mode.append then |e.Content()| else 0)]
                             else d.files
  {
    Leads(eka2, s);
    var at := Some(s.At());
    RunOne(d.tree, OpOf(d, eka2, OpenPath(Path(s), mode))[0]);
    OpensExactly(d.tree, at, mode, IsProtected(d, at));
    if OpenFile(d.tree, at, mode, IsProtected(d, at)).ok {
      OpeningLeaves(d.tree, at, mode, IsProtected(d, at));
    }
  }

  /** Opening what is not there makes it when the mode writes, the drive is not protected and the
      names before the last lead somewhere. */
  lemma OpensNew(d: Desk, eka2: bool, s: Spelling, mode: Mode, next: Desk)
    requires s.Sound() && Straight(eka2, s) && KeyOf(s.At()) !in d.tree && next == After(d, eka2, OpenPath(Path(s), mode))
    ensures var ok := mode.write && !IsProtectedDrive(d, s.drive) && HasParent(d.tree, Some(s.At()));
            && Given(d, eka2, OpenPath(Path(s), mode)) == Done(ok)
            && next.files == (if ok then d.files + [Handle(KeyOf(s.At()), mode, 0)] else d.files)
            && next.tree == if ok then d.tree[KeyOf(s.At()) := Entry(s.names[|s.names| - 1], false, [], None)] else d.tree
  {
    Leads(eka2, s);
    var at := Some(s.At());
    RunOne(d.tree, OpOf(d, eka2, OpenPath(Path(s), mode))[0]);
    OpensExactly(d.tree, at, mode, IsProtected(d, at));
  }

  // ---- drives ------------------------------------------------------------

  /** Mounting a drive that is not mounted gives it its root and its protection, and no other drive;
      mounting one that is does nothing at all. */
  lemma Mounts(d: Desk, eka2: bool, drive: nat, media: Media, isProtected: bool, next: Desk, other: nat)
    requires drive < |d.isProtected| && other < |d.isProtected| && next == After(d, eka2, MountOne(drive, media, isProtected))
    ensures Given(d, eka2, MountOne(drive, media, isProtected)) == Done(Root(drive) !in d.tree)
    ensures Root(drive) in d.tree ==> next == d
    ensures Root(drive) !in d.tree ==>
              && Root(drive) in next.tree && SameBut(d.tree, next.tree, Root(drive)) && next.files == d.files
              && |next.isProtected| == |d.isProtected|
              && next.isProtected[other] == if other == drive then isProtected else d.isProtected[other]
  {
    RunOne(d.tree, OpOf(d, eka2, MountOne(drive, media, isProtected))[0]);
    MountsExactly(d.tree, drive);
  }

  /** Unmounting takes what is on the drive. */
  lemma Unmounts(d: Desk, eka2: bool, drive: nat, next: Desk, q: Key)
    requires next == After(d, eka2, UnmountOne(drive))
    ensures Given(d, eka2, UnmountOne(drive)) == Done(Root(drive) in d.tree)
    ensures next.files == d.files && next.isProtected == d.isProtected
    ensures if Root(drive) in d.tree && DriveOf(q) == drive then q !in next.tree else SameAt(d.tree, next.tree, q)
  {
    RunOne(d.tree, OpOf(d, eka2, UnmountOne(drive))[0]);
    UnmountsExactly(d.tree, drive, q);
  }

  /** Closing a file takes its handle away; those opened before it and after it stay, in order. */
  lemma Closes(d: Desk, eka2: bool, i: nat, j: nat)
    requires i < |d.files| && j < |d.files| - 1
    ensures var next := After(d, eka2, CloseFile(i));
            next.tree == d.tree && |next.files| == |d.files| - 1 && next.files[j] == d.files[if j < i then j else j + 1]
  {
  }
}

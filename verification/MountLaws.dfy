/** What mounting a package leaves: its files, each reading as its record's bytes, the
    directories on the way to them, and nothing else. */
module MountLaws {
  import opened Options
  import opened Paths
  import opened Words
  import opened FlatTree
  import opened Package
  import opened PackageLaws
  import opened TreeLaws

  // ---- one file laid -----------------------------------------------------

  /** The way down to a place is made of the places it lies under. */
  lemma {:induction false} ChainIsAncestors(at: Located, q: Key)
    ensures q in Chain(at) <==> q.Child? && Under(q, KeyOf(at))
    decreases |at.names|
  {
    if at.names == [] {
      assert KeyOf(at) == Root(at.drive);
    } else {
      var n := |at.names| - 1;
      var above := at.(names := at.names[..n]);
      assert at.names[..n + 1] == at.names;
      ChainStep(at, n);
      ChainIsAncestors(above, q);
      assert KeyOf(at).parent == KeyOf(above);
    }
  }

  /** What laying a file does at each place. */
  lemma LayAt(m: Flat, at: Located, file: Slice, q: Key)
    requires at.names != []
    ensures var k, r := KeyOf(at), Lay(m, at, file);
            && (q == k ==> q in r && !r[q].isDir && r[q].fixed == Some(file))
            && (q != k && q.Child? && Under(q, k) ==> q in r && r[q].isDir)
            && (!(q.Child? && Under(q, k)) ==> SameAt(m, r, q))
  {
    var above := at.(names := at.names[..|at.names| - 1]);
    ChainIsAncestors(above, q);
    ChainIsAncestors(at, q);
    KeyOfChild(at);
    assert KeyOf(at).parent == KeyOf(above);
    if q in Chain(above) {
      assert AllDirectories(m, above)[q] == AsDirectory(m, above, q);
    }
  }

  // ---- all of them -------------------------------------------------------

  function RecordKey(drive: nat, convert: Converter, r: Record): Key {
    KeyOf(Located(drive, RecordNames(convert, r.path)))
  }

  /** The records name files, none of them the same as another or above it. */
  ghost predicate FilesApart(drive: nat, convert: Converter, rs: seq<Record>) {
    && (forall i | 0 <= i < |rs| :: RecordNames(convert, rs[i].path) != [])
    && (forall i, j | 0 <= i < |rs| && 0 <= j < |rs| && i != j ::
          !Under(RecordKey(drive, convert, rs[i]), RecordKey(drive, convert, rs[j])))
  }

  /** Some record's file is at `q` or below it. */
  ghost predicate LeadsToFile(drive: nat, convert: Converter, rs: seq<Record>, q: Key) {
    exists i: nat :: LeadsTo(drive, convert, rs, q, i)
  }

  predicate LeadsTo(drive: nat, convert: Converter, rs: seq<Record>, q: Key, i: nat) {
    i < |rs| && Under(q, RecordKey(drive, convert, rs[i]))
  }

  ghost predicate IsFile(drive: nat, convert: Converter, rs: seq<Record>, q: Key) {
    exists i: nat :: IsFileOf(drive, convert, rs, q, i)
  }

  predicate IsFileOf(drive: nat, convert: Converter, rs: seq<Record>, q: Key, i: nat) {
    i < |rs| && q == RecordKey(drive, convert, rs[i])
  }

  /** At `q` there is what the records' files and the directories above them make of `m`, no more. */
  ghost predicate HoldsFilesAt(m: Flat, t: Flat, drive: nat, convert: Converter, rs: seq<Record>, q: Key) {
    && (q.Child? && Under(Root(drive), q) ==> (q in t <==> LeadsToFile(drive, convert, rs, q)))
    && (q.Child? && q in t && Under(Root(drive), q) ==> (t[q].isDir <==> !IsFile(drive, convert, rs, q)))
    && (!(q.Child? && Under(Root(drive), q)) ==> SameAt(m, t, q))
  }

  ghost predicate AllLaidAt(m: Flat, drive: nat, convert: Converter, package: seq<Byte>, rs: seq<Record>, q: Key) {
    HoldsFilesAt(m, LayAll(m, drive, convert, package, rs), drive, convert, rs, q)
  }

  /** At every place: the files and what leads to them are there, and nothing else is new. */
  lemma {:induction false} LaidAt(m: Flat, drive: nat, convert: Converter, package: seq<Byte>, rs: seq<Record>, q: Key)
    requires FilesApart(drive, convert, rs)
    requires Under(Root(drive), q) && q.Child? ==> q !in m
    ensures AllLaidAt(m, drive, convert, package, rs, q)
    decreases |rs|
  {
    if rs != [] {
      FewerApart(drive, convert, rs);
      LaidAt(m, drive, convert, package, rs[..|rs| - 1], q);
      OneMoreAt(m, drive, convert, package, rs, q);
    }
  }

  lemma OneMoreAt(m: Flat, drive: nat, convert: Converter, package: seq<Byte>, rs: seq<Record>, q: Key)
    requires rs != [] && FilesApart(drive, convert, rs)
    requires AllLaidAt(m, drive, convert, package, rs[..|rs| - 1], q)
    ensures AllLaidAt(m, drive, convert, package, rs, q)
  {
    var n := |rs| - 1;
    var before, r := LayAll(m, drive, convert, package, rs[..n]), rs[n];
    var at, k := Located(drive, RecordNames(convert, r.path)), RecordKey(drive, convert, r);
    LayAt(before, at, Slice(package, r.start, r.size), q);
    UnderBelow(Root(drive), at.names);
    OneMoreLeads(drive, convert, rs, n, q);
    OneMoreFile(drive, convert, rs, n, q);
    if Under(q, k) && q.Child? && !Under(Root(drive), q) {
      Apart(q, Root(drive), k);
    }
    if IsFile(drive, convert, rs[..n], q) {
      var i: nat :| IsFileOf(drive, convert, rs[..n], q, i);
      assert !Under(RecordKey(drive, convert, rs[i]), RecordKey(drive, convert, rs[n]));
    }
  }

  lemma FewerApart(drive: nat, convert: Converter, rs: seq<Record>)
    requires rs != [] && FilesApart(drive, convert, rs)
    ensures FilesApart(drive, convert, rs[..|rs| - 1])
  {
  }

  lemma SameRecord(drive: nat, convert: Converter, rs: seq<Record>, n: nat, q: Key, i: nat)
    requires i < n <= |rs|
    ensures LeadsTo(drive, convert, rs[..n], q, i) <==> LeadsTo(drive, convert, rs, q, i)
    ensures IsFileOf(drive, convert, rs[..n], q, i) <==> IsFileOf(drive, convert, rs, q, i)
  {
    assert rs[..n][i] == rs[i];
  }

  lemma LeadsOn(drive: nat, convert: Converter, few: seq<Record>, rs: seq<Record>, q: Key, i: nat)
    requires |few| <= |rs| && few == rs[..|few|] && i < |few|
    ensures LeadsTo(drive, convert, few, q, i) ==> LeadsToFile(drive, convert, rs, q)
    ensures LeadsTo(drive, convert, rs, q, i) ==> LeadsToFile(drive, convert, few, q)
  {
    SameRecord(drive, convert, rs, |few|, q, i);
  }

  lemma LeadsAmongMore(drive: nat, convert: Converter, few: seq<Record>, rs: seq<Record>, q: Key)
    requires |few| <= |rs| && few == rs[..|few|] && LeadsToFile(drive, convert, few, q)
    ensures LeadsToFile(drive, convert, rs, q)
  {
    var i: nat :| LeadsTo(drive, convert, few, q, i);
    LeadsOn(drive, convert, few, rs, q, i);
  }

  lemma LeadsAmongFewer(drive: nat, convert: Converter, few: seq<Record>, rs: seq<Record>, q: Key)
    requires |rs| == |few| + 1 && few == rs[..|few|] && LeadsToFile(drive, convert, rs, q)
    ensures LeadsToFile(drive, convert, few, q) || LeadsTo(drive, convert, rs, q, |few|)
  {
    var i: nat :| LeadsTo(drive, convert, rs, q, i);
    if i < |few| {
      LeadsOn(drive, convert, few, rs, q, i);
    }
  }

  lemma OneMoreLeads(drive: nat, convert: Converter, rs: seq<Record>, n: nat, q: Key)
    requires |rs| == n + 1
    ensures LeadsToFile(drive, convert, rs, q) <==> LeadsToFile(drive, convert, rs[..n], q) || LeadsTo(drive, convert, rs, q, n)
  {
    if LeadsToFile(drive, convert, rs[..n], q) {
      LeadsAmongMore(drive, convert, rs[..n], rs, q);
    } else if LeadsToFile(drive, convert, rs, q) {
      LeadsAmongFewer(drive, convert, rs[..n], rs, q);
    }
  }

  lemma IsFileOn(drive: nat, convert: Converter, few: seq<Record>, rs: seq<Record>, q: Key, i: nat)
    requires |few| <= |rs| && few == rs[..|few|] && i < |few|
    ensures IsFileOf(drive, convert, few, q, i) ==> IsFile(drive, convert, rs, q)
    ensures IsFileOf(drive, convert, rs, q, i) ==> IsFile(drive, convert, few, q)
  {
    SameRecord(drive, convert, rs, |few|, q, i);
  }

  lemma IsFileAmongMore(drive: nat, convert: Converter, few: seq<Record>, rs: seq<Record>, q: Key)
    requires |few| <= |rs| && few == rs[..|few|] && IsFile(drive, convert, few, q)
    ensures IsFile(drive, convert, rs, q)
  {
    var i: nat :| IsFileOf(drive, convert, few, q, i);
    IsFileOn(drive, convert, few, rs, q, i);
  }

  lemma IsFileAmongFewer(drive: nat, convert: Converter, few: seq<Record>, rs: seq<Record>, q: Key)
    requires |rs| == |few| + 1 && few == rs[..|few|] && IsFile(drive, convert, rs, q)
    ensures IsFile(drive, convert, few, q) || IsFileOf(drive, convert, rs, q, |few|)
  {
    var i: nat :| IsFileOf(drive, convert, rs, q, i);
    if i < |few| {
      IsFileOn(drive, convert, few, rs, q, i);
    }
  }

  lemma OneMoreFile(drive: nat, convert: Converter, rs: seq<Record>, n: nat, q: Key)
    requires |rs| == n + 1
    ensures IsFile(drive, convert, rs, q) <==> IsFile(drive, convert, rs[..n], q) || IsFileOf(drive, convert, rs, q, n)
  {
    if IsFile(drive, convert, rs[..n], q) {
      IsFileAmongMore(drive, convert, rs[..n], rs, q);
    } else if IsFile(drive, convert, rs, q) {
      IsFileAmongFewer(drive, convert, rs[..n], rs, q);
    }
  }

  /** The place holds a file that is that slice. */
  predicate IsSlice(t: Flat, k: Key, file: Slice) {
    k in t && !t[k].isDir && t[k].fixed == Some(file)
  }

  function SliceOf(package: seq<Byte>, r: Record): Slice {
    Slice(package, r.start, r.size)
  }

  lemma SliceLaid(m: Flat, at: Located, file: Slice, k: Key, other: Slice)
    requires at.names != [] && (k == KeyOf(at) ==> other == file)
    requires k != KeyOf(at) ==> !Under(k, KeyOf(at)) && IsSlice(m, k, other)
    ensures IsSlice(Lay(m, at, file), k, other)
  {
    LayAt(m, at, file, k);
  }

  /** Where record `i` names, laying the records left the slice it gives. */
  predicate Laid(m: Flat, drive: nat, convert: Converter, package: seq<Byte>, rs: seq<Record>, i: nat)
    requires i < |rs|
  {
    IsSlice(LayAll(m, drive, convert, package, rs), RecordKey(drive, convert, rs[i]), SliceOf(package, rs[i]))
  }

  /** One record more keeps the slices that are not in its way, and adds its own. */
  lemma RecordLaid(m: Flat, drive: nat, convert: Converter, package: seq<Byte>, rs: seq<Record>, i: nat)
    requires i < |rs| && RecordNames(convert, rs[|rs| - 1].path) != []
    requires i < |rs| - 1 ==>
               && !Under(RecordKey(drive, convert, rs[i]), RecordKey(drive, convert, rs[|rs| - 1]))
               && Laid(m, drive, convert, package, rs[..|rs| - 1], i)
    ensures Laid(m, drive, convert, package, rs, i)
  {
    var n := |rs| - 1;
    assert i < n ==> rs[..n][i] == rs[i];
    SliceLaid(LayAll(m, drive, convert, package, rs[..n]), Located(drive, RecordNames(convert, rs[n].path)),
              SliceOf(package, rs[n]), RecordKey(drive, convert, rs[i]), SliceOf(package, rs[i]));
  }

  /** Each file is the slice its record gave. */
  lemma {:induction false} LaidSlices(m: Flat, drive: nat, convert: Converter, package: seq<Byte>, rs: seq<Record>, i: nat)
    requires FilesApart(drive, convert, rs) && i < |rs|
    ensures Laid(m, drive, convert, package, rs, i)
    decreases |rs|
  {
    if i < |rs| - 1 {
      FewerApart(drive, convert, rs);
      LaidSlices(m, drive, convert, package, rs[..|rs| - 1], i);
    }
    RecordLaid(m, drive, convert, package, rs, i);
  }

  lemma {:induction false} CountAll(convert: Converter, rs: seq<Record>)
    requires forall i | 0 <= i < |rs| :: RecordNames(convert, rs[i].path) != []
    ensures FileCount(convert, rs) == |rs|
    decreases |rs|
  {
    if rs != [] {
      CountAll(convert, rs[..|rs| - 1]);
    }
  }

  // ---- the round trip ----------------------------------------------------

  function FileKey(drive: nat, convert: Converter, f: PackageFile): Key {
    KeyOf(Located(drive, RecordNames(convert, f.path)))
  }

  /** The files have names, and no file's place is another's or above it. */
  ghost predicate Mountable(drive: nat, convert: Converter, files: seq<PackageFile>) {
    && (forall i | 0 <= i < |files| :: RecordNames(convert, files[i].path) != [])
    && (forall i, j | 0 <= i < |files| && 0 <= j < |files| && i != j ::
          !Under(FileKey(drive, convert, files[i]), FileKey(drive, convert, files[j])))
  }

  /** The first three units of a path, its drive, are dropped whatever they are, and a path that
      ends with them names nothing. */
  lemma DriveIsDropped(convert: Converter, drive: seq<Unit>, rest: seq<Unit>)
    ensures |drive| == 3 && rest != [] ==> RecordNames(convert, drive + rest) == Components(Lowered(convert(rest)))
    ensures |drive| <= 3 ==> RecordNames(convert, drive) == []
  {
    assert |drive| == 3 ==> (drive + rest)[3..] == rest;
  }

  /** The names a record gives hold no capital letter, whatever the path's case. */
  lemma NamesAreSmall(convert: Converter, path: seq<Unit>, i: nat, j: nat)
    requires i < |RecordNames(convert, path)| && j < |RecordNames(convert, path)[i]|
    ensures !(65 <= RecordNames(convert, path)[i][j] as int <= 90)
  {
    SmallComponents(Lowered(convert(path[3..])), i, j);
  }

  lemma {:induction false} SmallComponents(s: string, i: nat, j: nat)
    requires (forall k | 0 <= k < |s| :: !(65 <= s[k] as int <= 90)) && i < |Components(s)| && j < |Components(s)[i]|
    ensures !(65 <= Components(s)[i][j] as int <= 90)
    decreases |s|
  {
    if IsSeparator(s[0]) {
      SmallComponents(s[1..], i, j);
    } else if i > 0 {
      SmallComponents(s[RunLength(s)..], i - 1, j);
    }
  }

  /** A new file is laid under the last of those names, and one that was there keeps its own. */
  lemma LaidName(m: Flat, at: Located, file: Slice)
    requires at.names != []
    ensures KeyOf(at) in Lay(m, at, file)
    ensures Lay(m, at, file)[KeyOf(at)].name == if KeyOf(at) in m then m[KeyOf(at)].name else at.names[|at.names| - 1]
  {
    var above := at.(names := at.names[..|at.names| - 1]);
    ChainIsAncestors(above, KeyOf(at));
    KeyOfChild(at);
    NotUnderParent(KeyOf(at));
  }

  function DrivePath(drive: nat, relative: string): string
    requires drive < DRIVES
  {
    [('a' as int + drive) as char, ':', '\\'] + relative
  }

  lemma DrivePathLocated(drive: nat, relative: string)
    requires drive < DRIVES
    ensures Locate(false, DrivePath(drive, relative)) == Some(Located(drive, Components(relative)))
  {
    var path, c := DrivePath(drive, relative), ('a' as int + drive) as char;
    assert path[0] == c && path[1] == ':' && path[2..] == ['\\'] + relative;
    assert DriveLetter(path) == c && AfterDrive(path) == ['\\'] + relative;
    LeadingSeparator(relative);
  }

  lemma LeadingSeparator(s: string)
    ensures Components(['\\'] + s) == Components(s)
  {
    assert (['\\'] + s)[1..] == s;
  }

  lemma SameLowered(p: string, q: string)
    requires Lowered(p) == Lowered(q)
    ensures LoweredAll(Components(p)) == LoweredAll(Components(Lowered(q)))
  {
    forall i | 0 <= i < |p|
      ensures Fold(p[i]) == Fold(Lowered(q)[i])
    {
      assert Lower(p[i]) == Lowered(p)[i] == Lowered(q)[i];
    }
    RespelledComponents(p, Lowered(q));
  }

  /** The file's path on the drive it was mounted on leads to its place, however its case is
      spelled, exactly when EKA2 does not rewrite that path. */
  lemma FilePath(eka2: bool, drive: nat, convert: Converter, f: PackageFile, relative: string)
    requires drive < DRIVES && |f.path| > 3 && Lowered(relative) == Lowered(convert(f.path[3..]))
    ensures var path := DrivePath(drive, relative);
            && Locate(eka2, path).Some?
            && (KeyOf(Locate(eka2, path).value) == FileKey(drive, convert, f)
                <==> !(eka2 && RewrittenLength(path) != 0))
  {
    var path := DrivePath(drive, relative);
    PlainFilePath(drive, convert, f, relative);
    RewriteMovesExactly(eka2, path);
    SamePlaceSameKey(Locate(eka2, path), Locate(false, path));
  }

  lemma PlainFilePath(drive: nat, convert: Converter, f: PackageFile, relative: string)
    requires drive < DRIVES && |f.path| > 3 && Lowered(relative) == Lowered(convert(f.path[3..]))
    ensures var at := Locate(false, DrivePath(drive, relative));
            at.Some? && KeyOf(at.value) == FileKey(drive, convert, f)
  {
    DrivePathLocated(drive, relative);
    SameLowered(relative, convert(f.path[3..]));
    BelowInjective(drive, Components(relative), drive, RecordNames(convert, f.path));
  }

  /** So a library that a package holds is not found at its path on the phones that mount packages. */
  lemma LibraryElsewhere(convert: Converter, f: PackageFile)
    requires |f.path| > 3 && convert(f.path[3..]) == "system\\libs\\x"
    ensures var at := Locate(true, "z:\\system\\libs\\x");
            at.Some? && KeyOf(at.value) != FileKey(25, convert, f)
  {
    var path, relative := "z:\\system\\libs\\x", "system\\libs\\x";
    assert DrivePath(25, relative) == path;
    assert path == ['z', ':'] + (LIBS + "\\x");
    LibsPath(path, 'z');
    FilePath(true, 25, convert, f, relative);
  }

  lemma {:induction false} RecordsKeepPaths(files: seq<PackageFile>, at: nat, i: nat)
    requires i < |files|
    ensures RecordsOf(files, at)[i].path == files[i].path && RecordsOf(files, at)[i].size == |files[i].data|
    decreases |files|
  {
    if i > 0 {
      RecordsKeepPaths(files[1..], at + |files[0].record|, i - 1);
    }
  }

  lemma MountableApart(drive: nat, convert: Converter, files: seq<PackageFile>, at: nat, k: nat)
    requires Mountable(drive, convert, files) && k <= |files|
    ensures FilesApart(drive, convert, RecordsOf(files, at)[..k])
  {
    var rs := RecordsOf(files, at)[..k];
    forall i | 0 <= i < k
      ensures rs[i].path == files[i].path
    {
      RecordsKeepPaths(files, at, i);
    }
    assert forall i | 0 <= i < k :: RecordKey(drive, convert, rs[i]) == FileKey(drive, convert, files[i]);
  }

  /** The bytes a header and the files' records make, cut off after the header and `n` more. */
  function CutPackage(header: seq<Byte>, files: seq<PackageFile>, n: nat): seq<Byte>
    requires n <= |EncodeAll(files)|
  {
    header + EncodeAll(files)[..n]
  }

  lemma MountReads(header: seq<Byte>, files: seq<PackageFile>, n: nat)
    requires IsHeader(header) && AllEncode(files) && n <= |EncodeAll(files)|
    ensures var p, k := CutPackage(header, files, n), Complete(files, n);
            && HeaderEnd(p) == Some(|header|) && Holds(p, |header|, files)
            && Records(p, |header|) == RecordsOf(files, |header|)[..k]
  {
    var p := CutPackage(header, files, n);
    HeaderRead(header, EncodeAll(files)[..n]);
    assert p[|header|..] == EncodeAll(files)[..n];
    CutRecords(p, |header|, files);
  }

  /** At file `i`'s place there is a file that reads as its bytes. */
  predicate GivesBack(t: Flat, drive: nat, convert: Converter, files: seq<PackageFile>, i: nat)
    requires i < |files|
  {
    var k := FileKey(drive, convert, files[i]);
    k in t && !t[k].isDir && t[k].Sound() && t[k].Content() == files[i].data
  }

  /** Mounting the package answers how many of the files are complete, and gives back file `i` if it is. */
  predicate MountGives(m: Flat, drive: nat, convert: Converter, p: seq<Byte>, files: seq<PackageFile>, complete: nat, i: nat)
    requires complete <= |files|
  {
    var out := Mount(m, drive, convert, p);
    out.answer == complete && (i < complete ==> GivesBack(out.tree, drive, convert, files, i))
  }

  lemma AllCounted(drive: nat, convert: Converter, files: seq<PackageFile>, at: nat, k: nat)
    requires Mountable(drive, convert, files) && k <= |files|
    ensures FileCount(convert, RecordsOf(files, at)[..k]) == k
  {
    MountableApart(drive, convert, files, at, k);
    CountAll(convert, RecordsOf(files, at)[..k]);
  }

  /** Mounting a package, whole or cut off, gives exactly its complete files back:
      as many as are counted, each reading as its own bytes. */
  lemma MountGivesFiles(m: Flat, drive: nat, convert: Converter, header: seq<Byte>, files: seq<PackageFile>, n: nat, i: nat)
    requires IsHeader(header) && AllEncode(files) && n <= |EncodeAll(files)| && Mountable(drive, convert, files)
    requires Root(drive) !in m
    ensures MountGives(m, drive, convert, CutPackage(header, files, n), files, Complete(files, n), i)
  {
    var p, k := CutPackage(header, files, n), Complete(files, n);
    var rs := RecordsOf(files, |header|)[..k];
    MountReads(header, files, n);
    AllCounted(drive, convert, files, |header|, k);
    if i < k {
      MountedFile(m[Root(drive) := ROOT], drive, convert, p, |header|, files, i, k);
    }
    MountLays(m, drive, convert, p, |header|, rs, files, k, i);
  }

  lemma MountLays(m: Flat, drive: nat, convert: Converter, p: seq<Byte>, at: nat, rs: seq<Record>,
                  files: seq<PackageFile>, complete: nat, i: nat)
    requires Root(drive) !in m && HeaderEnd(p) == Some(at) && Records(p, at) == rs
    requires FileCount(convert, rs) == complete <= |files|
    requires i < complete ==> LaidBack(m[Root(drive) := ROOT], drive, convert, p, rs, files, i)
    ensures MountGives(m, drive, convert, p, files, complete, i)
  {
  }

  predicate LaidBack(m: Flat, drive: nat, convert: Converter, p: seq<Byte>, rs: seq<Record>, files: seq<PackageFile>, i: nat)
    requires i < |files|
  {
    GivesBack(LayAll(m, drive, convert, p, rs), drive, convert, files, i)
  }

  lemma MountedFile(m: Flat, drive: nat, convert: Converter, p: seq<Byte>, at: nat, files: seq<PackageFile>, i: nat, k: nat)
    requires AllEncode(files) && Holds(p, at, files) && i < k == Complete(files, |p| - at) && Mountable(drive, convert, files)
    ensures LaidBack(m, drive, convert, p, RecordsOf(files, at)[..k], files, i)
  {
    var rs := RecordsOf(files, at)[..k];
    assert rs[i] == RecordsOf(files, at)[i];
    RecordsKeepPaths(files, at, i);
    SlicesHoldData(p, at, files, i);
    MountableApart(drive, convert, files, at, k);
    LaidReads(m, drive, convert, p, rs, files, i);
  }

  lemma LaidReads(m: Flat, drive: nat, convert: Converter, p: seq<Byte>, rs: seq<Record>, files: seq<PackageFile>, i: nat)
    requires FilesApart(drive, convert, rs) && i < |rs| && i < |files| && rs[i].path == files[i].path
    requires rs[i].start + rs[i].size <= |p| && p[rs[i].start..rs[i].start + rs[i].size] == files[i].data
    ensures LaidBack(m, drive, convert, p, rs, files, i)
  {
    LaidSlices(m, drive, convert, p, rs, i);
    SliceReads(LayAll(m, drive, convert, p, rs), drive, convert, p, rs[i], files, i);
  }

  lemma SliceReads(t: Flat, drive: nat, convert: Converter, p: seq<Byte>, r: Record, files: seq<PackageFile>, i: nat)
    requires i < |files| && r.path == files[i].path
    requires r.start + r.size <= |p| && p[r.start..r.start + r.size] == files[i].data
    requires IsSlice(t, RecordKey(drive, convert, r), SliceOf(p, r))
    ensures GivesBack(t, drive, convert, files, i)
  {
  }

  /** And nothing else: on the drive only those files and the directories that lead to
      them, off the drive everything as it was. */
  lemma MountGivesNothingElse(m: Flat, drive: nat, convert: Converter, header: seq<Byte>, files: seq<PackageFile>, n: nat, q: Key)
    requires IsHeader(header) && AllEncode(files) && n <= |EncodeAll(files)| && Mountable(drive, convert, files)
    requires Rooted(m) && Root(drive) !in m
    ensures var t, rs := Mount(m, drive, convert, CutPackage(header, files, n)).tree, RecordsOf(files, |header|)[..Complete(files, n)];
            && (q.Child? && Under(Root(drive), q) ==>
                  && (q in t <==> LeadsToFile(drive, convert, rs, q))
                  && (q in t ==> (t[q].isDir <==> !IsFile(drive, convert, rs, q))))
            && (!Under(Root(drive), q) ==> SameAt(m, t, q))
  {
    var p := CutPackage(header, files, n);
    MountReads(header, files, n);
    MountableApart(drive, convert, files, |header|, Complete(files, n));
    if q in m {
      AbsentAbove(m, Root(drive), q);
    }
    LaidAt(m[Root(drive) := ROOT], drive, convert, p, Records(p, |header|), q);
  }

  // ---- a package file and the tree's shape -------------------------------

  /** Laying a file keeps files from holding entries exactly when nothing lay below it. */
  lemma LayKeepsTidy(m: Flat, at: Located, file: Slice)
    requires Rooted(m) && Tidy(m) && at.names != [] && Root(at.drive) in m
    ensures Tidy(Lay(m, at, file)) <==> !HasChildren(m, KeyOf(at))
  {
    var k, r := KeyOf(at), Lay(m, at, file);
    LayAt(m, at, file, k);
    if HasChildren(m, k) {
      var q :| q in m && q.Child? && q.parent == k;
      LayAt(m, at, file, q);
      NotUnderParent(q);
      if Under(q, k) {
        UnderDepth(q, k);
      }
      assert !TidyAt(r, q);
    } else {
      assert RootedAt(m, Root(at.drive));
      forall q
        ensures TidyAt(r, q)
      {
        LayAt(m, at, file, q);
        assert TidyAt(m, q);
        if q.Child? {
          LayAt(m, at, file, q.parent);
          UnderBelow(Root(at.drive), at.names);
          if Under(q, k) {
            UnderTransitive(q.parent, q, k);
            Apart(q.parent, Root(at.drive), k);
            NotUnderParent(q);
          }
        }
      }
    }
  }
}

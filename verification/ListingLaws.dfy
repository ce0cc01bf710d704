/** What a listing shows, told by the attribute bits and the bytes of the files: which of the
    matching children, in which order, and what a path to list asks for. */
module ListingLaws {
  import opened Paths
  import opened Words
  import opened FlatTree
  import opened MemoryFileSystem
  import opened Package
  import opened DirectoryListing
  import opened DirectoryOrder
  import PL = PathLaws

  // ---- the children that are wanted --------------------------------------

  predicate Matching(q: Query, name: string) {
    q.platform.matches(Lowered(name), Lowered(q.filter))
  }

  predicate IsDirIn(tree: Flat, dir: Key, name: string) {
    Child(dir, Lowered(name)) in tree && tree[Child(dir, Lowered(name))].isDir
  }

  /** The word of four bytes, the first one lowest. */
  function WordAt(content: seq<Byte>, at: nat): nat
    requires at + 4 <= |content|
  {
    var a: int, b: int, c: int, d: int := content[at], content[at + 1], content[at + 2], content[at + 3];
    a + 0x100 * b + 0x1_0000 * c + 0x100_0000 * d
  }

  /** The file begins with the three UIDs asked for; a UID of 0 asks for nothing. */
  predicate HasUids(uid: Uid, content: seq<Byte>) {
    && |content| >= 12
    && (uid.uid1 == 0 || WordAt(content, 0) == uid.uid1)
    && (uid.uid2 == 0 || WordAt(content, 4) == uid.uid2)
    && (uid.uid3 == 0 || WordAt(content, 8) == uid.uid3)
  }

  predicate HasUidsIn(q: Query, tree: Flat, dir: Key, name: string) {
    Child(dir, Lowered(name)) in tree && HasUids(q.uid, tree[Child(dir, Lowered(name))].Content())
  }

  function Directories(q: Query, tree: Flat, dir: Key): string -> bool {
    (name: string) => Matching(q, name) && IsDirIn(tree, dir, name)
  }

  function Files(q: Query, tree: Flat, dir: Key): string -> bool {
    (name: string) => Matching(q, name) && !IsDirIn(tree, dir, name)
  }

  function Everything(q: Query): string -> bool {
    (name: string) => Matching(q, name)
  }

  function WithUids(q: Query, tree: Flat, dir: Key, directories: bool): string -> bool {
    (name: string) =>
      Matching(q, name) && if IsDirIn(tree, dir, name) then directories else HasUidsIn(q, tree, dir, name)
  }

  function Filtered(names: seq<string>, wanted: string -> bool): seq<string> {
    if names == [] then [] else (if wanted(names[0]) then [names[0]] else []) + Filtered(names[1..], wanted)
  }

  predicate AllIn(tree: Flat, dir: Key, names: seq<string>) {
    names == [] || (Child(dir, Lowered(names[0])) in tree && AllIn(tree, dir, names[1..]))
  }

  lemma {:induction false} FilteredIn(tree: Flat, dir: Key, names: seq<string>, wanted: string -> bool)
    requires AllIn(tree, dir, names)
    ensures AllIn(tree, dir, Filtered(names, wanted))
  {
    if names != [] {
      FilteredIn(tree, dir, names[1..], wanted);
      var rest := Filtered(names[1..], wanted);
      assert ([names[0]] + rest)[1..] == rest && [] + rest == rest;
    }
  }

  /** Kind, size, joined path and protection of each of the names. */
  function InfosOf(q: Query, tree: Flat, dir: Key, isProtected: bool, names: seq<string>): seq<EntryInfo>
    requires AllIn(tree, dir, names)
  {
    if names == [] then []
    else
      var e := tree[Child(dir, Lowered(names[0]))];
      [EntryInfo(e.isDir, if e.isDir then 0 else |e.Content()|, q.platform.addPath(q.path, names[0]), isProtected)]
      + InfosOf(q, tree, dir, isProtected, names[1..])
  }

  /** Exactly the names that are wanted are listed, in their order. */
  ghost predicate ListsOnly(q: Query, tree: Flat, dir: Key, isProtected: bool, names: seq<string>, wanted: string -> bool)
    requires forall i | 0 <= i < |names| :: Child(dir, Lowered(names[i])) in tree
  {
    && AllIn(tree, dir, Filtered(names, wanted))
    && ChildListing(q, tree, dir, isProtected, names) == InfosOf(q, tree, dir, isProtected, Filtered(names, wanted))
  }

  lemma {:induction false} ListsWanted(q: Query, tree: Flat, dir: Key, isProtected: bool, names: seq<string>,
                                          wanted: string -> bool)
    requires forall i | 0 <= i < |names| :: Child(dir, Lowered(names[i])) in tree
    requires forall i | 0 <= i < |names| ::
               wanted(names[i]) <==> Matching(q, names[i]) && Passes(q, tree[Child(dir, Lowered(names[i]))])
    ensures ListsOnly(q, tree, dir, isProtected, names, wanted)
    decreases |names|
  {
    if names != [] {
      ListsWanted(q, tree, dir, isProtected, names[1..], wanted);
      var rest := Filtered(names[1..], wanted);
      assert ([names[0]] + rest)[1..] == rest && [] + rest == rest;
    }
  }

  /** Asked for directories alone, a listing shows exactly the matching directories. */
  lemma ListsDirectories(q: Query, tree: Flat, dir: Key, isProtected: bool, names: seq<string>)
    requires q.attributes.includeDir && !q.attributes.includeFile
    requires forall i | 0 <= i < |names| :: Child(dir, Lowered(names[i])) in tree
    ensures ListsOnly(q, tree, dir, isProtected, names, Directories(q, tree, dir))
  {
    ListsWanted(q, tree, dir, isProtected, names, Directories(q, tree, dir));
  }

  /** Asked for files alone and no UIDs, exactly the matching files. */
  lemma ListsFiles(q: Query, tree: Flat, dir: Key, isProtected: bool, names: seq<string>)
    requires q.attributes.includeFile && !q.attributes.includeDir && !q.attributes.allowUid
    requires forall i | 0 <= i < |names| :: Child(dir, Lowered(names[i])) in tree
    ensures ListsOnly(q, tree, dir, isProtected, names, Files(q, tree, dir))
  {
    ListsWanted(q, tree, dir, isProtected, names, Files(q, tree, dir));
  }

  /** Asked for both and no UIDs, or for nothing in particular, everything that matches. */
  lemma ListsEverything(q: Query, tree: Flat, dir: Key, isProtected: bool, names: seq<string>)
    requires (q.attributes.includeDir && q.attributes.includeFile && !q.attributes.allowUid)
             || q.attributes == Attributes(false, false, false, false)
    requires forall i | 0 <= i < |names| :: Child(dir, Lowered(names[i])) in tree
    ensures ListsOnly(q, tree, dir, isProtected, names, Everything(q))
  {
    ListsWanted(q, tree, dir, isProtected, names, Everything(q));
  }

  /** Asked for something else and neither of the two, nothing. */
  lemma {:induction false} ListsNothing(q: Query, tree: Flat, dir: Key, isProtected: bool, names: seq<string>)
    requires !q.attributes.includeDir && !q.attributes.includeFile && (q.attributes.allowUid || q.attributes.other)
    requires forall i | 0 <= i < |names| :: Child(dir, Lowered(names[i])) in tree
    ensures ChildListing(q, tree, dir, isProtected, names) == []
    decreases |names|
  {
    if names != [] {
      ListsNothing(q, tree, dir, isProtected, names[1..]);
    }
  }

  lemma UidsExactly(uid: Uid, content: seq<Byte>)
    ensures UidMatches(uid, content) <==> HasUids(uid, content)
  {
    if |content| >= 12 {
      WordOfFour(content, 0);
      WordOfFour(content, 4);
      WordOfFour(content, 8);
    }
  }

  lemma WordOfFour(content: seq<Byte>, at: nat)
    requires at + 4 <= |content|
    ensures Word(content[at..at + 4]) == WordAt(content, at)
  {
    var w := content[at..at + 4];
    var x, y, z := w[1..], w[1..][1..], w[1..][1..][1..];
    assert w[0] == content[at] && x[0] == content[at + 1] && y[0] == content[at + 2] && z[0] == content[at + 3];
    assert z[1..] == [];
    WordStep(w);
    WordStep(x);
    WordStep(y);
    WordStep(z);
  }

  lemma WordStep(bytes: seq<Byte>)
    requires bytes != []
    ensures Word(bytes) == bytes[0] + 256 * Word(bytes[1..])
  {
  }

  /** Asked for UIDs, the files that begin with them, and the directories as without. */
  lemma ListsUids(q: Query, tree: Flat, dir: Key, isProtected: bool, names: seq<string>)
    requires q.attributes.includeFile && q.attributes.allowUid
    requires forall i | 0 <= i < |names| :: Child(dir, Lowered(names[i])) in tree
    ensures ListsOnly(q, tree, dir, isProtected, names, WithUids(q, tree, dir, q.attributes.includeDir))
  {
    forall i | 0 <= i < |names|
      ensures WithUids(q, tree, dir, q.attributes.includeDir)(names[i])
              <==> Matching(q, names[i]) && Passes(q, tree[Child(dir, Lowered(names[i]))])
    {
      UidsExactly(q.uid, tree[Child(dir, Lowered(names[i]))].Content());
    }
    ListsWanted(q, tree, dir, isProtected, names, WithUids(q, tree, dir, q.attributes.includeDir));
  }

  // ---- the order ---------------------------------------------------------

  /** The first string is the beginning of the second, or has the lower code where they first differ. */
  ghost predicate ComesFirst(a: string, b: string, n: nat) {
    && n <= |a| && n < |b| && a[..n] == b[..n] && (n == |a| || a[n] as int < b[n] as int)
  }

  lemma {:induction false} LessExactly(a: string, b: string)
    ensures Less(a, b) <==> exists n: nat :: ComesFirst(a, b, n)
  {
    if a == "" || b == "" || a[0] != b[0] {
      assert Less(a, b) ==> ComesFirst(a, b, 0);
    } else {
      LessExactly(a[1..], b[1..]);
      if n: nat :| ComesFirst(a[1..], b[1..], n) {
        assert a[..n + 1] == [a[0]] + a[1..][..n] && b[..n + 1] == [b[0]] + b[1..][..n];
        assert ComesFirst(a, b, n + 1);
      }
      if n: nat :| ComesFirst(a, b, n) {
        assert n > 0;
        assert a[1..][..n - 1] == a[..n][1..] && b[1..][..n - 1] == b[..n][1..];
        assert ComesFirst(a[1..], b[1..], n - 1);
      }
    }
  }

  // ---- the path to list --------------------------------------------------

  /** What follows the last separator is the filter, and what is before it the directory. */
  lemma LastNameFilters(head: string, separator: char, filter: string)
    requires PL.Separates(separator) && PL.IsPlain(filter)
    ensures DirectoryPart(head + [separator] + filter) == head + [separator]
    ensures FilterPart(head + [separator] + filter) == filter
  {
    var path := head + [separator] + filter;
    LastIs(path, |head|);
  }

  lemma {:induction false} LastIs(s: string, i: nat)
    requires i < |s| && PL.Separates(s[i]) && forall j | i < j < |s| :: !PL.Separates(s[j])
    ensures LastSeparator(s) == i
    decreases |s|
  {
    if i < |s| - 1 {
      LastIs(s[..|s| - 1], i);
    }
  }

  /** A path that ends in a separator, or has none, is all directory, and every name passes. */
  lemma WholePathLists(path: string)
    requires (path != "" && PL.Separates(path[|path| - 1])) || forall i | 0 <= i < |path| :: !PL.Separates(path[i])
    ensures DirectoryPart(path) == path && FilterPart(path) == "*"
  {
  }
}

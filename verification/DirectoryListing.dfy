/** Listing a directory: the names taken when it is opened, each looked up and filtered
    when its turn comes, with a one-entry look-ahead. */
module DirectoryListing {
  import opened Options
  import opened Paths
  import opened Words
  import opened FlatTree
  import opened Package
  import opened MemoryFileSystem
  import opened DirectoryOrder

  /** What the emulator supplies: matching a wildcard and joining a path. */
  datatype Platform = Platform(matches: (string, string) -> bool, addPath: (string, string) -> string)

  /** The listing's attribute word: three bits that matter here, and whether any other is set. */
  datatype Attributes = Attributes(includeDir: bool, includeFile: bool, allowUid: bool, other: bool) {
    predicate IsNone() {
      !includeDir && !includeFile && !allowUid && !other
    }
  }

  datatype Uid = Uid(uid1: nat, uid2: nat, uid3: nat)

  /** What a listing asks for: below which path, under which filter, UIDs and attributes. */
  datatype Query = Query(platform: Platform, path: string, filter: string, uid: Uid, attributes: Attributes)

  /** Whether the first three words of a file are the UIDs asked for; zero asks for nothing. */
  predicate UidMatches(uid: Uid, content: seq<Byte>) {
    && |content| >= 12
    && (uid.uid1 == 0 || uid.uid1 == Word(content[0..4]))
    && (uid.uid2 == 0 || uid.uid2 == Word(content[4..8]))
    && (uid.uid3 == 0 || uid.uid3 == Word(content[8..12]))
  }

  /** Whether an entry passes the attribute and UID tests. */
  predicate Passes(q: Query, e: Entry) {
    && (q.attributes.IsNone() || (if e.isDir then q.attributes.includeDir else q.attributes.includeFile))
    && (q.attributes.includeFile && q.attributes.allowUid && !e.isDir ==> UidMatches(q.uid, e.Content()))
  }

  /** What looking up one name yields. */
  function Test(q: Query, tree: Flat, drives: seq<Drive>, eka2: bool, name: string): Option<EntryInfo> {
    var full := q.platform.addPath(q.path, name);
    var info := InfoAt(tree, drives, Locate(eka2, full), full);
    if q.platform.matches(Lowered(name), Lowered(q.filter)) && info.Some?
       && Passes(q, tree[KeyOf(Locate(eka2, full).value)])
    then info else None
  }

  /** What the names yield, one after the other. */
  function Listing(q: Query, tree: Flat, drives: seq<Drive>, eka2: bool, names: seq<string>): seq<EntryInfo> {
    if names == [] then []
    else
      var first := Test(q, tree, drives, eka2, names[0]);
      (if first.Some? then [first.value] else []) + Listing(q, tree, drives, eka2, names[1..])
  }

  /** The names of everything that lies in a directory, each once, in the order of the
      lowercased names. */
  ghost predicate ListsChildren(tree: Flat, dir: Key, names: seq<string>) {
    var keys := LoweredAll(names);
    && Sorted(keys)
    && (forall c :: c in keys <==> Child(dir, c) in tree)
    && (forall i | 0 <= i < |names| :: Child(dir, keys[i]) in tree && names[i] == tree[Child(dir, keys[i])].name)
  }

  lemma ChildrenTaken(fs: FileSystem, node: MemoryNode, keys: seq<string>, taken: seq<string>)
    requires fs.Valid() && node.place in fs.tree && node.place in fs.index && fs.index[node.place] == node
    requires Sorted(keys) && Elements(keys) == node.children.Keys && |taken| == |keys|
    requires forall j | 0 <= j < |keys| :: keys[j] in node.children && taken[j] == node.children[keys[j]].name
    ensures ListsChildren(fs.tree, node.place, taken)
  {
    forall i | 0 <= i < |keys|
      ensures Child(node.place, keys[i]) in fs.tree && Lowered(taken[i]) == keys[i]
      ensures taken[i] == fs.tree[Child(node.place, keys[i])].name
    {
      assert fs.At(Child(node.place, keys[i])) && fs.At(node.place);
    }
    assert LoweredAll(taken) == keys;
    forall c
      ensures c in keys <==> Child(node.place, c) in fs.tree
    {
      assert fs.At(Child(node.place, c)) && fs.At(node.place);
      assert c in keys <==> c in Elements(keys);
    }
  }

  /** There is one such list, so the order in which the children were made leaves no trace. */
  lemma OneListing(tree: Flat, dir: Key, a: seq<string>, b: seq<string>)
    requires ListsChildren(tree, dir, a) && ListsChildren(tree, dir, b)
    ensures a == b
  {
    assert Elements(LoweredAll(a)) == Elements(LoweredAll(b));
    SortedUnique(LoweredAll(a), LoweredAll(b));
    assert |a| == |LoweredAll(a)| == |b|;
    forall i | 0 <= i < |a|
      ensures a[i] == b[i]
    {
      assert LoweredAll(a)[i] == LoweredAll(b)[i];
    }
  }

  // ---- a listing shows the directory's own children ----------------------

  /** What joining a path and a name owes: the place of that name below the path's place. */
  ghost predicate Joins(p: Platform, path: string, dir: Located) {
    forall name | IsName(name) :: Locate(false, p.addPath(path, name)) == Some(dir.(names := dir.names + [name]))
  }

  /** A child that matches and passes, straight from the tree. */
  function ChildEntry(q: Query, tree: Flat, dir: Key, isProtected: bool, name: string): Option<EntryInfo>
    requires Child(dir, Lowered(name)) in tree
  {
    var e := tree[Child(dir, Lowered(name))];
    if q.platform.matches(Lowered(name), Lowered(q.filter)) && Passes(q, e) then
      Some(EntryInfo(e.isDir, if e.isDir then 0 else |e.Content()|, q.platform.addPath(q.path, name), isProtected))
    else None
  }

  /** The children that match and pass. */
  function ChildListing(q: Query, tree: Flat, dir: Key, isProtected: bool, names: seq<string>): seq<EntryInfo>
    requires forall i | 0 <= i < |names| :: Child(dir, Lowered(names[i])) in tree
  {
    if names == [] then []
    else
      var first := ChildEntry(q, tree, dir, isProtected, names[0]);
      (if first.Some? then [first.value] else []) + ChildListing(q, tree, dir, isProtected, names[1..])
  }

  /** The path of a name leads to the child of that name exactly when EKA2 does not rewrite it. */
  lemma LookedUpExactly(p: Platform, path: string, eka2: bool, dir: Located, name: string)
    requires Joins(p, path, dir) && IsName(name)
    ensures var full := p.addPath(path, name);
            && Locate(eka2, full).Some?
            && (KeyOf(Locate(eka2, full).value) == Child(KeyOf(dir), Lowered(name))
                <==> !(eka2 && RewrittenLength(full) != 0))
  {
    var full, at := p.addPath(path, name), dir.(names := dir.names + [name]);
    assert at.names[..|at.names| - 1] == dir.names;
    assert KeyOf(at) == Child(KeyOf(dir), Lowered(name));
    assert Locate(false, full) == Some(at);
    RewriteMovesExactly(eka2, full);
    SamePlaceSameKey(Locate(eka2, full), Locate(false, full));
  }

  /** No name's path is one that EKA2 rewrites. */
  predicate NoneRewritten(p: Platform, path: string, eka2: bool, names: seq<string>) {
    forall i | 0 <= i < |names| :: !(eka2 && RewrittenLength(p.addPath(path, names[i])) != 0)
  }

  lemma OneChild(q: Query, tree: Flat, drives: seq<Drive>, eka2: bool, dir: Located, name: string)
    requires Joins(q.platform, q.path, dir) && dir.drive < |drives| && IsName(name)
    requires !(eka2 && RewrittenLength(q.platform.addPath(q.path, name)) != 0) && Child(KeyOf(dir), Lowered(name)) in tree
    ensures Test(q, tree, drives, eka2, name) == ChildEntry(q, tree, KeyOf(dir), drives[dir.drive].isProtected, name)
  {
    LookedUpExactly(q.platform, q.path, eka2, dir, name);
    assert Locate(false, q.platform.addPath(q.path, name)) == Some(dir.(names := dir.names + [name]));
  }

  /** Then on an unchanged tree each child that matches and passes comes back once. */
  lemma {:induction false} ListingShowsChildren(q: Query, tree: Flat, drives: seq<Drive>, eka2: bool, dir: Located, names: seq<string>)
    requires Joins(q.platform, q.path, dir) && dir.drive < |drives| && NoneRewritten(q.platform, q.path, eka2, names)
    requires forall i | 0 <= i < |names| :: IsName(names[i]) && Child(KeyOf(dir), Lowered(names[i])) in tree
    ensures Listing(q, tree, drives, eka2, names)
            == ChildListing(q, tree, KeyOf(dir), drives[dir.drive].isProtected, names)
    decreases |names|
  {
    if names != [] {
      OneChild(q, tree, drives, eka2, dir, names[0]);
      ListingShowsChildren(q, tree, drives, eka2, dir, names[1..]);
    }
  }

  /** The libraries' directory is not found where it is listed: its path is rewritten. */
  lemma LibsListedElsewhere(p: Platform, path: string, dir: Located, name: string)
    requires Joins(p, path, dir) && IsName(name) && p.addPath(path, name) == "c:\\system\\libs"
    ensures var at := Locate(true, p.addPath(path, name));
            at.Some? && KeyOf(at.value) != Child(KeyOf(dir), Lowered(name))
  {
    LibsItself(p.addPath(path, name), ['c', ':']);
    LookedUpExactly(p, path, true, dir, name);
  }

  lemma LibsItself(full: string, drive: string)
    requires |drive| == 2 && full == drive + LIBS
    ensures RewrittenLength(full) == 14
  {
    assert forall i | 0 <= i < |LIBS| :: full[2 + i] == LIBS[i];
  }

  // ---- any order of peeking and taking -----------------------------------

  datatype Call = Peek | Next

  /** What the takes answer in a run of peeks and takes, as the two methods promise it. */
  function Answers(remaining: seq<EntryInfo>, calls: seq<Call>): seq<Option<EntryInfo>> {
    if calls == [] then []
    else if calls[0].Peek? then Answers(remaining, calls[1..])
    else [Head(remaining)] + Answers(Tail(remaining), calls[1..])
  }

  function Takes(calls: seq<Call>): nat {
    if calls == [] then 0 else Takes(calls[1..]) + (if calls[0].Next? then 1 else 0)
  }

  /** The takes answer the entries in order and then nothing, wherever the peeks stand. */
  lemma {:induction false} PeeksLeaveNoTrace(remaining: seq<EntryInfo>, calls: seq<Call>, i: nat)
    requires i < Takes(calls)
    ensures |Answers(remaining, calls)| == Takes(calls)
    ensures Answers(remaining, calls)[i] == if i < |remaining| then Some(remaining[i]) else None
    decreases |calls|
  {
    if calls[0].Peek? {
      PeeksLeaveNoTrace(remaining, calls[1..], i);
    } else if i > 0 {
      PeeksLeaveNoTrace(Tail(remaining), calls[1..], i - 1);
    } else {
      AnswersLength(Tail(remaining), calls[1..]);
    }
  }

  lemma {:induction false} AnswersLength(remaining: seq<EntryInfo>, calls: seq<Call>)
    ensures |Answers(remaining, calls)| == Takes(calls)
    decreases |calls|
  {
    if calls != [] {
      AnswersLength(if calls[0].Peek? then remaining else Tail(remaining), calls[1..]);
    }
  }

  function Head<T>(s: seq<T>): Option<T> {
    if s == [] then None else Some(s[0])
  }

  function Tail<T>(s: seq<T>): seq<T> {
    if s == [] then [] else s[1..]
  }

  lemma FirstTwelve(found: seq<Byte>, content: seq<Byte>, uid: Uid)
    requires |found| == 12 <= |content| && found == content[0..12]
    ensures UidMatches(uid, content) <==> UidMatches(uid, found)
  {
    assert content[0..4] == found[0..4] && content[4..8] == found[4..8] && content[8..12] == found[8..12];
  }

  lemma OneName(q: Query, tree: Flat, drives: seq<Drive>, eka2: bool, names: seq<string>, at: nat)
    requires at < |names|
    ensures var first, rest := Test(q, tree, drives, eka2, names[at]), Listing(q, tree, drives, eka2, names[at + 1..]);
            && (first.Some? ==> Listing(q, tree, drives, eka2, names[at..]) == [first.value] + rest)
            && (first.None? ==> Listing(q, tree, drives, eka2, names[at..]) == rest)
  {
    assert names[at..][0] == names[at] && names[at..][1..] == names[at + 1..];
  }

  lemma FromTheStart(q: Query, tree: Flat, drives: seq<Drive>, eka2: bool, names: seq<string>)
    ensures Listing(q, tree, drives, eka2, names[0..]) == Listing(q, tree, drives, eka2, names)
  {
    assert names[0..] == names;
  }

  /** The stored names of a directory's children, in the order of its children map. */
  method NamesIn(fs: FileSystem, node: MemoryNode) returns (taken: seq<string>)
    requires fs.Valid() && node.place in fs.tree && node.place in fs.index && fs.index[node.place] == node
    ensures ListsChildren(fs.tree, node.place, taken)
  {
    var keys := InOrder(node.children.Keys);
    taken := [];
    for i := 0 to |keys|
      invariant |taken| == i
      invariant forall j | 0 <= j < i :: keys[j] in node.children && taken[j] == node.children[keys[j]].name
    {
      assert keys[i] in Elements(keys);
      taken := taken + [node.children[keys[i]].name];
    }
    ChildrenTaken(fs, node, keys, taken);
  }

  class MemoryDirectory {
    const fs: FileSystem
    const query: Query
    const names: seq<string>
    var at: nat
    var peeking: bool
    var peeked: Option<EntryInfo>

    constructor (fs: FileSystem, node: MemoryNode, query: Query)
      requires fs.Valid() && node.place in fs.tree && node.place in fs.index && fs.index[node.place] == node
      ensures this.fs == fs && this.query == query && at == 0 && !peeking && peeked.None?
      ensures ListsChildren(fs.tree, node.place, names)
    {
      var taken := NamesIn(fs, node);
      this.fs, this.query, names := fs, query, taken;
      at, peeking, peeked := 0, false, None;
    }

    /** What the names still to come yield. */
    ghost function Rest(): seq<EntryInfo>
      requires at <= |names|
      reads this, fs
    {
      Listing(query, fs.tree, fs.drives, fs.eka2, names[at..])
    }

    /** A look-ahead that found nothing has come to the end. */
    ghost predicate Consistent()
      reads this, fs
    {
      at <= |names| && (peeking && peeked.None? ==> Rest() == [])
    }

    /** The entries still to come. */
    ghost function Remaining(): seq<EntryInfo>
      requires at <= |names|
      reads this, fs
    {
      (if peeking && peeked.Some? then [peeked.value] else []) + Rest()
    }

    method GetNextEntry() returns (info: Option<EntryInfo>)
      requires fs.Valid() && Consistent()
      modifies this
      ensures Consistent() && info == Head(old(Remaining())) && Remaining() == Tail(old(Remaining()))
      ensures !peeking && (info.None? ==> Rest() == [])
    {
      if peeking {
        peeking := false;
        return peeked;
      }
      assert Remaining() == Rest();
      info := Search();
      assert Remaining() == Rest();
    }

    /** Goes through the names up to the first that passes. */
    method Search() returns (info: Option<EntryInfo>)
      requires fs.Valid() && at <= |names|
      modifies this`at
      ensures at <= |names| && info == Head(old(Rest())) && Rest() == Tail(old(Rest()))
    {
      ghost var rest := Rest();
      while at < |names|
        invariant at <= |names| && Rest() == rest
      {
        var name := names[at];
        OneName(query, fs.tree, fs.drives, fs.eka2, names, at);
        at := at + 1;
        info := TestOne(name);
        if info.Some? {
          return info;
        }
      }
      return None;
    }

    /** Looks one name up and puts it through the tests. */
    method TestOne(name: string) returns (info: Option<EntryInfo>)
      requires fs.Valid()
      ensures info == Test(query, fs.tree, fs.drives, fs.eka2, name)
    {
      if !query.platform.matches(Lowered(name), Lowered(query.filter)) {
        return None;
      }
      var full := query.platform.addPath(query.path, name);
      var node := fs.Resolve(full);
      ghost var where := Locate(fs.eka2, full);
      if where.Some? {
        assert fs.At(KeyOf(where.value));
      }
      if node == null {
        return None;
      }
      if !query.attributes.IsNone() {
        if !query.attributes.includeDir && node.isDir {
          return None;
        }
        if !query.attributes.includeFile && !node.isDir {
          return None;
        }
      }
      info := fs.GetEntryInfo(full);
      if info.None? {
        return None;
      }
      if query.attributes.includeFile && query.attributes.allowUid && !node.isDir {
        var matching := ReadUid(full);
        if !matching {
          return None;
        }
      }
    }

    /** Opens the file for reading and compares its first twelve bytes. */
    method ReadUid(full: string) returns (matching: bool)
      requires fs.Valid() && Present(fs.tree, Locate(fs.eka2, full)) && !fs.tree[KeyOf(Locate(fs.eka2, full).value)].isDir
      ensures matching == UidMatches(query.uid, fs.tree[KeyOf(Locate(fs.eka2, full).value)].Content())
    {
      ghost var k := KeyOf(Locate(fs.eka2, full).value);
      var handle := fs.OpenFile(full, Mode(true, false, false));
      assert fs.At(k);
      if handle == null {
        return false;
      }
      var found := new Byte[12];
      var n := handle.ReadFile(found, 1, 12);
      if n != 12 {
        return false;
      }
      FirstTwelve(found[..], fs.tree[k].Content(), query.uid);
      var uid1, uid2, uid3 := Word(found[..][0..4]), Word(found[..][4..8]), Word(found[..][8..12]);
      return !((query.uid.uid1 != 0 && query.uid.uid1 != uid1)
               || (query.uid.uid2 != 0 && query.uid.uid2 != uid2)
               || (query.uid.uid3 != 0 && query.uid.uid3 != uid3));
    }

    method PeekNextEntry() returns (info: Option<EntryInfo>)
      requires fs.Valid() && Consistent()
      modifies this
      ensures Consistent() && info == Head(old(Remaining())) && Remaining() == old(Remaining())
    {
      if !peeking {
        peeked := GetNextEntry();
        peeking := true;
      }
      return peeked;
    }
  }

  /** Plays the calls on the listing: whatever stands where, the takes answer what remained, in order. */
  method Play(listing: MemoryDirectory, calls: seq<Call>) returns (answers: seq<Option<EntryInfo>>)
    requires listing.fs.Valid() && listing.Consistent()
    modifies listing
    ensures listing.Consistent() && answers == Answers(old(listing.Remaining()), calls)
  {
    answers := [];
    for i := 0 to |calls|
      invariant listing.Consistent()
      invariant answers + Answers(listing.Remaining(), calls[i..]) == Answers(old(listing.Remaining()), calls)
    {
      assert calls[i..][0] == calls[i] && calls[i..][1..] == calls[i + 1..];
      match calls[i] {
        case Peek => var _ := listing.PeekNextEntry();
        case Next =>
          var info := listing.GetNextEntry();
          answers := answers + [info];
      }
    }
  }

  /** The index of the last separator, or -1. */
  function LastSeparator(s: string): (i: int)
    ensures -1 <= i < |s| && (i >= 0 ==> IsSeparator(s[i]))
    ensures forall j | i < j < |s| :: !IsSeparator(s[j])
  {
    if s == "" then -1
    else if IsSeparator(s[|s| - 1]) then |s| - 1
    else LastSeparator(s[..|s| - 1])
  }

  /** The directory's path and the filter: the last component, unless the path ends in a separator. */
  function DirectoryPart(path: string): string {
    var last := LastSeparator(path);
    if last >= 0 && last != |path| - 1 then path[..last + 1] else path
  }

  function FilterPart(path: string): string {
    var last := LastSeparator(path);
    if last >= 0 && last != |path| - 1 then path[last + 1..] else "*"
  }

  predicate IsDirectoryAt(tree: Flat, at: Option<Located>) {
    Present(tree, at) && tree[KeyOf(at.value)].isDir
  }

  /** The listing is at its start, of all that lies in the directory. */
  ghost predicate Starts(listing: MemoryDirectory, fs: FileSystem, dir: Key, query: Query)
    reads listing, listing.fs, fs
  {
    && listing.Consistent() && listing.fs == fs && listing.query == query
    && ListsChildren(fs.tree, dir, listing.names)
    && listing.Remaining() == Listing(query, fs.tree, fs.drives, fs.eka2, listing.names)
  }

  method OpenDirectory(fs: FileSystem, platform: Platform, path: string, uid: Uid, attributes: Attributes)
    returns (listing: MemoryDirectory?)
    requires fs.Valid()
    ensures listing != null <==> IsDirectoryAt(fs.tree, Locate(fs.eka2, DirectoryPart(path)))
    ensures listing != null ==>
              && fresh(listing)
              && Starts(listing, fs, KeyOf(Locate(fs.eka2, DirectoryPart(path)).value),
                        Query(platform, DirectoryPart(path), FilterPart(path), uid, attributes))
  {
    var utf8, filter := path, "*";
    var last := LastSeparator(utf8);
    if last != -1 && last != |utf8| - 1 {
      filter := utf8[last + 1..];
      utf8 := utf8[..last + 1];
    }
    listing := ListDirectory(fs, Query(platform, utf8, filter, uid, attributes));
  }

  method ListDirectory(fs: FileSystem, query: Query) returns (listing: MemoryDirectory?)
    requires fs.Valid()
    ensures listing != null <==> IsDirectoryAt(fs.tree, Locate(fs.eka2, query.path))
    ensures listing != null ==> fresh(listing) && Starts(listing, fs, KeyOf(Locate(fs.eka2, query.path).value), query)
  {
    var node := fs.Resolve(query.path);
    ghost var at := Locate(fs.eka2, query.path);
    if at.Some? {
      assert fs.At(KeyOf(at.value));
    }
    if node == null || !node.isDir {
      return null;
    }
    listing := new MemoryDirectory(fs, node, query);
    FromTheStart(query, fs.tree, fs.drives, fs.eka2, listing.names);
  }
}

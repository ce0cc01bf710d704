/** The filesystem as the program holds it: nodes that are changed in place, each
    holding its children by lowercased name. Every method answers and leaves exactly
    what its operation on the flat map says. */
module MemoryFileSystem {
  import opened Options
  import opened Paths
  import opened Words
  import opened FlatTree
  import opened Package
  import FileBytes

  class MemoryNode {
    var name: string
    var isDir: bool
    var children: map<string, MemoryNode>
    var bytes: seq<Byte>
    var fixed: Option<Slice>

    /** Where the node stands. */
    ghost var place: Key

    constructor (ghost place: Key, name: string)
      ensures this.place == place && children == map[]
      ensures AsEntry() == Entry(name, false, [], None)
    {
      this.name, isDir, children, bytes, fixed := name, false, map[], [], None;
      this.place := place;
    }

    function AsEntry(): Entry
      reads this
    {
      Entry(name, isDir, bytes, fixed)
    }

    /** The bytes of a file, wherever they live. */
    function Content(): seq<Byte>
      reads this
    {
      AsEntry().Content()
    }

    /** Assigns the fields that make up the entry. */
    method Assign(e: Entry)
      modifies this
      ensures AsEntry() == e && children == old(children) && place == old(place)
    {
      name, isDir, bytes, fixed := e.name, e.isDir, e.bytes, e.fixed;
    }
  }

  datatype Media = Physical | Rom

  datatype Drive = Drive(mounted: bool, media: Media, isProtected: bool)

  datatype EntryInfo = EntryInfo(isDir: bool, size: nat, path: string, isProtected: bool)

  function InfoAt(tree: Flat, drives: seq<Drive>, at: Option<Located>, path: string): (info: Option<EntryInfo>)
    ensures info.Some? ==> Present(tree, at)
  {
    if !Present(tree, at) || at.value.drive >= |drives| then None
    else
      var e := tree[KeyOf(at.value)];
      Some(EntryInfo(e.isDir, if e.isDir then 0 else |e.Content()|, path, drives[at.value.drive].isProtected))
  }

  lemma InfoThere(tree: Flat, drives: seq<Drive>, at: Located, path: string)
    requires KeyOf(at) in tree && at.drive < |drives|
    ensures var e := tree[KeyOf(at)];
            InfoAt(tree, drives, Some(at), path)
            == Some(EntryInfo(e.isDir, if e.isDir then 0 else |e.Content()|, path, drives[at.drive].isProtected))
  {
  }

  class FileSystem {
    const roots: seq<MemoryNode>
    var drives: seq<Drive>
    var eka2: bool
    var packages: seq<seq<Byte>>

    /** Which node stands at which place, the roots of unmounted drives included. */
    ghost var index: map<Key, MemoryNode>

    /** What the filesystem means: the entries of the mounted drives by place. */
    ghost var tree: Flat

    ghost predicate Valid()
      reads `drives, `index, `tree, index.Values
    {
      |roots| == |drives| == DRIVES && forall k {:trigger At(k)} :: At(k)
    }

    /** The roots stand where they should; an unmounted one holds nothing. */
    ghost predicate RootAt(d: nat)
      requires |roots| == |drives| == DRIVES && Root(d) in index
      reads `drives, `index, index[Root(d)]
    {
      && d < DRIVES && index[Root(d)] == roots[d] && roots[d].AsEntry() == ROOT
      && (!drives[d].mounted ==> roots[d].children == map[])
    }

    /** A node's parent holds it under its lowercased name. */
    ghost predicate ChildAt(p: Key, c: string)
      requires Child(p, c) in index
      reads `drives, `index, `tree, index.Values
    {
      && p in index && c in index[p].children && index[p].children[c] == index[Child(p, c)]
      && IsName(index[Child(p, c)].name) && Lowered(index[Child(p, c)].name) == c
    }

    /** Everything the filesystem keeps about one place. */
    ghost predicate At(k: Key)
      requires |roots| == |drives| == DRIVES
      reads `drives, `index, `tree, index.Values
    {
      && (k in index ==> index[k].place == k && index[k].AsEntry().Sound())
      && (k in index ==> match k case Root(d) => RootAt(d) case Child(p, c) => ChildAt(p, c))
      && (k.Root? && k.drive < DRIVES ==> k in index)
      && (k.Child? && k.parent in index && k.name in index[k.parent].children ==> k in index)
      && (k in tree <==> k in index && (k.Root? ==> k.drive < DRIVES && drives[k.drive].mounted))
      && (k in tree ==> tree[k] == index[k].AsEntry())
    }

    constructor ()
      ensures Valid() && fresh(index.Values) && tree == map[] && packages == [] && !eka2
    {
      var nodes: seq<MemoryNode> := [];
      ghost var places: map<Key, MemoryNode> := map[];
      while |nodes| < DRIVES
        invariant |nodes| <= DRIVES
        invariant forall d: nat | d < |nodes| :: fresh(nodes[d]) && nodes[d].AsEntry() == ROOT && nodes[d].children == map[]
        invariant forall k :: k in places <==> k.Root? && k.drive < |nodes|
        invariant forall d: nat | d < |nodes| :: Root(d) in places && places[Root(d)] == nodes[d]
        invariant forall d: nat | d < |nodes| :: nodes[d].place == Root(d)
      {
        var node := new MemoryNode(Root(|nodes|), "");
        node.isDir := true;
        places := places[Root(|nodes|) := node];
        nodes := nodes + [node];
      }
      roots := nodes;
      drives := seq(DRIVES, _ => Drive(false, Physical, false));
      eka2, packages := false, [];
      index := places;
      tree := map[];
    }

    /** The names the nodes carry are the ones they are held under. */
    lemma TreeIsRooted()
      requires Valid()
      ensures Rooted(tree)
    {
      forall k
        ensures RootedAt(tree, k)
      {
        assert At(k);
        if k.Child? {
          assert At(k.parent);
          assert k in tree ==> tree[k].name == index[k].name;
        }
      }
    }

    // ---- finding a node --------------------------------------------------

    ghost function Find(at: Option<Located>): (node: MemoryNode?)
      requires Valid()
      reads this, index.Values
      ensures node != null <==> Present(tree, at)
    {
      if Present(tree, at) then
        assert At(KeyOf(at.value));
        index[KeyOf(at.value)]
      else null
    }

    /** Walks down from a drive's root by the given names. */
    method Walk(drive: nat, names: seq<string>) returns (node: MemoryNode?)
      requires Valid() && drive < DRIVES && drives[drive].mounted
      ensures node == Find(Some(Located(drive, names)))
    {
      var at := roots[drive];
      ghost var k := Root(drive);
      assert At(k);
      assert names[..|names|] == names;
      for i := 0 to |names|
        invariant k == Below(Root(drive), names[..i])
        invariant k in tree && k in index && index[k] == at
      {
        var part := ToLowered(names[i]);
        assert names[..i + 1][..i] == names[..i];
        assert At(k) && At(Child(k, part));
        if part !in at.children {
          MissingBelow(drive, names, i + 1);
          return null;
        }
        k := Child(k, part);
        at := at.children[part];
      }
      return at;
    }

    /** Nothing lies below a place that is not there. */
    lemma MissingBelow(drive: nat, names: seq<string>, n: nat)
      requires Valid() && n <= |names|
      requires Below(Root(drive), names[..n]) !in tree
      ensures Below(Root(drive), names) !in tree
      decreases |names|
    {
      if n < |names| {
        var shorter := names[..|names| - 1];
        assert shorter[..n] == names[..n];
        MissingBelow(drive, shorter, n);
        var k := Below(Root(drive), names);
        assert At(k) && At(k.parent);
      } else {
        assert names[..n] == names;
      }
    }

    /** The drive and the names a path gives, when it names a mounted drive. */
    method Place(raw: string, rewritten: bool) returns (ok: bool, drive: nat, parts: seq<string>)
      requires Valid()
      ensures ok ==> drive < DRIVES && drives[drive].mounted && Locate(rewritten, raw) == Some(Located(drive, parts))
      ensures !ok ==> (Locate(rewritten, raw).None? || !drives[Locate(rewritten, raw).value.drive].mounted)
    {
      var path := raw;
      if rewritten {
        path := Rewrite(raw);
      }
      var letter;
      ok, letter, parts := SplitPath(path);
      var drv := letter as int - 'a' as int;
      if !ok || drv < 0 || drv >= |roots| || !drives[drv].mounted {
        return false, 0, [];
      }
      return true, drv, parts;
    }

    /** A drive that is not mounted shows nothing. */
    lemma NotShown(drive: nat, names: seq<string>)
      requires Valid() && drive < DRIVES && !drives[drive].mounted
      ensures Below(Root(drive), names) !in tree
    {
      assert At(Root(drive));
      assert names[..0] == [];
      MissingBelow(drive, names, 0);
    }

    method Resolve(raw: string) returns (node: MemoryNode?)
      requires Valid()
      ensures node == Find(Locate(eka2, raw))
    {
      var ok, drive, parts := Place(raw, eka2);
      if !ok {
        NothingThere(Locate(eka2, raw));
        return null;
      }
      node := Walk(drive, parts);
    }

    method ResolveParent(raw: string) returns (node: MemoryNode?, leaf: string)
      requires Valid()
      ensures var at := Locate(eka2, raw);
              if CanName(tree, at) then
                ParentKey(at.value) in index && node == index[ParentKey(at.value)] && leaf == Leaf(at.value)
              else node == null
    {
      var ok, drive, parts := Place(raw, eka2);
      if !ok || parts == [] {
        if !ok {
          NothingThere(Locate(eka2, raw));
        }
        return null, "";
      }
      leaf := parts[|parts| - 1];
      assert At(Below(Root(drive), parts[..|parts| - 1]));
      node := Walk(drive, parts[..|parts| - 1]);
    }

    // ---- changing one node -----------------------------------------------

    /** Every place that had a node has the same one: what points at it stays good. */
    twostate predicate NodesStay()
      reads `index
    {
      forall k {:trigger k in index} | k in old(index) :: k in index && index[k] == old(index)[k]
    }

    /** A new node linked under `k` leaves a valid tree with one more entry. */
    twostate lemma ChildMade(at: MemoryNode, new k: Key, new leaf: string, new node: MemoryNode)
      requires old(Valid()) && k in old(tree) && k in old(index) && old(index)[k] == at && IsName(leaf)
      requires drives == old(drives) && node.place == Child(k, Lowered(leaf)) && node.children == map[]
      requires Child(k, Lowered(leaf)) !in old(index)
      requires index == old(index)[Child(k, Lowered(leaf)) := node]
      requires tree == old(tree)[Child(k, Lowered(leaf)) := node.AsEntry()]
      requires node.AsEntry() == Entry(leaf, false, [], None)
      requires forall n | n in old(index).Values && n != at :: unchanged(n)
      requires at.AsEntry() == old(at.AsEntry()) && at.place == old(at.place)
      requires at.children == old(at.children)[Lowered(leaf) := node]
      ensures Valid()
    {
      forall q
        ensures At(q)
      {
        assert old(At(q)) && old(At(k));
        assert q in old(index) ==> index[q] in old(index).Values;
        if q.Child? {
          assert old(At(q.parent));
          assert q.parent in old(index) ==> index[q.parent] in old(index).Values;
        }
        assert node.name == node.AsEntry().name;
      }
    }

    /** Links a new node under `at`. */
    method MakeChild(at: MemoryNode, ghost k: Key, leaf: string) returns (node: MemoryNode)
      requires Valid() && k in tree && k in index && index[k] == at
      requires Lowered(leaf) !in at.children && IsName(leaf)
      modifies this`index, this`tree, at`children
      ensures Valid() && fresh(node) && Child(k, Lowered(leaf)) !in old(tree) && NodesStay()
      ensures index == old(index)[Child(k, Lowered(leaf)) := node]
      ensures tree == old(tree)[Child(k, Lowered(leaf)) := Entry(leaf, false, [], None)]
    {
      ghost var c := Child(k, Lowered(leaf));
      assert At(k) && At(c);
      node := new MemoryNode(c, leaf);
      var key := ToLowered(leaf);
      at.children := at.children[key := node];
      index, tree := index[c := node], tree[c := node.AsEntry()];
      ChildMade(at, k, leaf, node);
    }

    /** The entry under `leaf`, made when there is none: the children map's own lookup. */
    method FindOrMake(at: MemoryNode, ghost k: Key, leaf: string) returns (node: MemoryNode)
      requires Valid() && k in tree && k in index && index[k] == at && IsName(leaf)
      modifies this`index, this`tree, at`children
      ensures Valid() && (node in old(index.Values) || fresh(node)) && NodesStay()
      ensures index == old(index)[Child(k, Lowered(leaf)) := node]
      ensures Child(k, Lowered(leaf)) in old(tree) ==> tree == old(tree)
      ensures Child(k, Lowered(leaf)) !in old(tree) ==>
                tree == old(tree)[Child(k, Lowered(leaf)) := Entry(leaf, false, [], None)]
    {
      var key := ToLowered(leaf);
      assert At(k) && At(Child(k, key));
      if key in at.children {
        node := at.children[key];
      } else {
        node := MakeChild(at, k, leaf);
      }
    }

    /** The entry at `c` changed, and nothing else. */
    twostate lemma EntryChanged(node: MemoryNode, new c: Key)
      requires old(Valid()) && c in old(tree) && c in old(index) && old(index)[c] == node && c.Child?
      requires index == old(index) && drives == old(drives) && tree == old(tree)[c := node.AsEntry()]
      requires forall n | n in old(index).Values && n != node :: unchanged(n)
      requires node.children == old(node.children) && node.place == old(node.place)
      requires Lowered(node.name) == c.name && IsName(node.name) && node.AsEntry().Sound()
      ensures Valid()
    {
      forall q
        ensures At(q)
      {
        assert old(At(q)) && old(At(c));
        assert q in old(index) ==> index[q] in old(index).Values;
        if q.Child? {
          assert old(At(q.parent));
          assert q.parent in old(index) ==> index[q.parent] in old(index).Values;
        }
      }
    }

    /** Assigns the fields of the node at `c`. */
    method Update(node: MemoryNode, ghost c: Key, e: Entry)
      requires Valid() && c in tree && c in index && c.Child? && index[c] == node
      requires Lowered(e.name) == c.name && IsName(e.name) && e.Sound()
      modifies this`tree, node
      ensures Valid() && node.AsEntry() == e && node.children == old(node.children)
      ensures tree == old(tree)[c := e]
    {
      node.Assign(e);
      tree := tree[c := e];
      assert node.name == node.AsEntry().name;
      EntryChanged(node, c);
    }

    // ---- the operations --------------------------------------------------

    method CreateDirectory(path: string) returns (ok: bool)
      requires Valid()
      modifies this`index, this`tree, index.Values
      ensures Valid() && fresh(index.Values - old(index.Values)) && NodesStay()
      ensures Outcome(ok, tree) == FlatTree.CreateDirectory(old(tree), Locate(eka2, path))
    {
      var parent, leaf := ResolveParent(path);
      if parent == null {
        return false;
      }
      ghost var at := Locate(eka2, path).value;
      var created := FindOrMake(parent, ParentKey(at), leaf);
      assert At(KeyOf(at));
      Update(created, KeyOf(at), created.AsEntry().(name := leaf, isDir := true));
      ok := true;
    }

    /** One step on the way down: the entry under `part`, made or kept, and whether it is a directory. */
    method StepDown(at: MemoryNode, ghost k: Key, part: string, isDir: bool) returns (child: MemoryNode)
      requires Valid() && k in tree && k in index && index[k] == at && IsName(part)
      modifies this`index, this`tree, index.Values
      ensures Valid() && fresh(index.Values - old(index.Values)) && NodesStay() && drives == old(drives)
      ensures var c := Child(k, Lowered(part));
              && index == old(index)[c := child] && c in tree
              && tree == old(tree)[c := if c in old(tree) then old(tree)[c].(isDir := isDir) else Entry(part, isDir, [], None)]
    {
      child := FindOrMake(at, k, part);
      ghost var c := Child(k, Lowered(part));
      assert At(c);
      Update(child, c, child.AsEntry().(isDir := isDir));
    }

    method CreateDirectories(path: string) returns (ok: bool)
      requires Valid()
      modifies this`index, this`tree, index.Values
      ensures Valid() && fresh(index.Values - old(index.Values)) && NodesStay()
      ensures Outcome(ok, tree) == FlatTree.CreateDirectories(old(tree), Locate(false, path))
    {
      var drive, parts;
      ok, drive, parts := Place(path, false);
      if !ok {
        if Locate(false, path).Some? {
          NotShown(Locate(false, path).value.drive, []);
        }
        return false;
      }
      assert At(Root(drive));
      MakeParts(drive, parts);
    }

    /** Goes down by the names, and makes or keeps a directory at each. */
    method MakeParts(drive: nat, parts: seq<string>)
      requires Valid() && drive < DRIVES && drives[drive].mounted && AreNames(parts)
      modifies this`index, this`tree, index.Values
      ensures Valid() && fresh(index.Values - old(index.Values)) && NodesStay()
      ensures tree == AllDirectories(old(tree), Located(drive, parts))
    {
      assert At(Root(drive));
      var node := roots[drive];
      ghost var k, at := Root(drive), Located(drive, parts);
      for i := 0 to |parts|
        invariant Valid() && fresh(index.Values - old(index.Values)) && NodesStay() && drives == old(drives)
        invariant k == Below(Root(drive), parts[..i]) && k in tree && k in index && index[k] == node
        invariant DirectoriesTo(old(tree), at, i, tree)
      {
        BelowStep(Root(drive), parts, i);
        ghost var c, was := Below(Root(drive), parts[..i + 1]), tree;
        node := StepDown(node, k, parts[i], true);
        DirectoriesOnward(old(tree), at, i, was, tree, c);
        k := c;
      }
      assert parts[..|parts|] == parts;
    }

    // ---- taking entries away ---------------------------------------------

    /** Erasing `c` from its parent's children drops everything under it. */
    twostate lemma Dropped(at: MemoryNode, new c: Key)
      requires old(Valid()) && c in old(tree) && c.Child?
      requires c.parent in old(index) && old(index)[c.parent] == at && drives == old(drives)
      requires index == Without(old(index), c) && tree == Without(old(tree), c)
      requires forall n | n in old(index).Values && n != at :: unchanged(n)
      requires at.AsEntry() == old(at.AsEntry()) && at.place == old(at.place)
      requires at.children == old(at.children) - {c.name}
      ensures Valid()
    {
      forall q
        ensures At(q)
      {
        assert old(At(q)) && old(At(c.parent));
        assert q in old(index) ==> old(index)[q] in old(index).Values;
        assert q.Root? ==> !Under(c, q);
        if q.Child? {
          assert old(At(q.parent));
          assert q.parent in old(index) ==> old(index)[q.parent] in old(index).Values;
        }
      }
    }

    /** A node's children map tells whether anything lies in it. */
    lemma ChildrenShown(c: Key)
      requires Valid() && c in tree && c in index
      ensures HasChildren(tree, c) <==> index[c].children != map[]
    {
      if HasChildren(tree, c) {
        var q :| q in tree && q.Child? && q.parent == c;
        assert At(q);
      }
      if index[c].children != map[] {
        assert exists name :: name in index[c].children;
        var name :| name in index[c].children;
        assert At(Child(c, name));
      }
    }

    method DeleteEntry(path: string) returns (ok: bool)
      requires Valid()
      modifies this`index, this`tree, index.Values
      ensures Valid() && index.Values <= old(index.Values)
      ensures Outcome(ok, tree) == Delete(old(tree), Locate(eka2, path))
      ensures index == if ok then Without(old(index), KeyOf(Locate(eka2, path).value)) else old(index)
    {
      var parent, leaf := ResolveParent(path);
      if parent == null {
        return false;
      }
      ghost var c := KeyOf(Locate(eka2, path).value);
      var key := ToLowered(leaf);
      assert At(c) && At(c.parent);
      if key !in parent.children {
        return false;
      }
      var found := parent.children[key];
      ChildrenShown(c);
      if found.isDir && found.children != map[] {
        return false;
      }
      EraseChild(parent, key, c);
      ok := true;
    }

    /** Erases one entry from its parent's children, and with it all that lay below. */
    method EraseChild(parent: MemoryNode, key: string, ghost c: Key)
      requires Valid() && c in tree && c.Child? && key == c.name
      requires c.parent in index && index[c.parent] == parent
      modifies this`index, this`tree, parent`children
      ensures Valid() && index == Without(old(index), c) && tree == Without(old(tree), c)
    {
      parent.children := parent.children - {key};
      index, tree := Without(index, c), Without(tree, c);
      Dropped(parent, c);
    }

    // ---- drives ----------------------------------------------------------

    method MountEmpty(drive: nat, media: Media, isProtected: bool) returns (ok: bool)
      requires Valid() && drive < DRIVES
      modifies this`drives, this`tree, roots[drive]
      ensures Valid()
      ensures Outcome(ok, tree) == FlatTree.MountEmpty(old(tree), drive)
      ensures drives == if ok then old(drives)[drive := Drive(true, media, isProtected)] else old(drives)
    {
      assert At(Root(drive));
      if drives[drive].mounted {
        return false;
      }
      drives := drives[drive := Drive(true, media, isProtected)];
      roots[drive].isDir := true;
      tree := tree[Root(drive) := ROOT];
      DriveChanged(drive);
      ok := true;
    }

    /** A drive's root comes into view; nothing lay below it. */
    twostate lemma DriveChanged(new drive: nat)
      requires old(Valid()) && drive < DRIVES == |drives| == |roots| && !old(drives)[drive].mounted
      requires drives[drive].mounted && forall d: nat | d < DRIVES && d != drive :: drives[d] == old(drives)[d]
      requires index == old(index) && tree == old(tree)[Root(drive) := ROOT]
      requires forall n | n in old(index).Values && n != roots[drive] :: unchanged(n)
      requires roots[drive].AsEntry() == old(roots[drive].AsEntry())
      requires roots[drive].place == old(roots[drive].place) && roots[drive].children == old(roots[drive].children)
      ensures Valid()
    {
      forall q
        ensures At(q)
      {
        assert old(At(q)) && old(At(Root(drive)));
        assert q in index ==> index[q] in old(index).Values;
        if q.Child? {
          assert old(At(q.parent));
          assert q.parent in index ==> index[q.parent] in old(index).Values;
        }
      }
    }

    method Unmount(drive: nat) returns (ok: bool)
      requires Valid() && drive < DRIVES
      modifies this`drives, this`index, this`tree, roots[drive]
      ensures Valid() && index.Values <= old(index.Values)
      ensures Outcome(ok, tree) == FlatTree.Unmount(old(tree), drive)
      ensures index == if ok then Without(old(index), Root(drive))[Root(drive) := roots[drive]] else old(index)
      ensures drives == if ok then old(drives)[drive := old(drives)[drive].(mounted := false)] else old(drives)
    {
      assert At(Root(drive));
      if !drives[drive].mounted {
        return false;
      }
      drives := drives[drive := drives[drive].(mounted := false)];
      roots[drive].children := map[];
      index, tree := Without(index, Root(drive))[Root(drive) := roots[drive]], Without(tree, Root(drive));
      Cleared(drive);
      ok := true;
    }

    twostate lemma Cleared(new drive: nat)
      requires old(Valid()) && drive < DRIVES == |drives| == |roots|
      requires !drives[drive].mounted && forall d: nat | d < DRIVES && d != drive :: drives[d] == old(drives)[d]
      requires index == Without(old(index), Root(drive))[Root(drive) := roots[drive]]
      requires tree == Without(old(tree), Root(drive))
      requires forall n | n in old(index).Values && n != roots[drive] :: unchanged(n)
      requires roots[drive].AsEntry() == old(roots[drive].AsEntry())
      requires roots[drive].place == old(roots[drive].place) && roots[drive].children == map[]
      ensures Valid()
    {
      forall q
        ensures At(q)
      {
        assert old(At(q)) && old(At(Root(drive)));
        assert q in old(index) ==> old(index)[q] in old(index).Values;
        assert q.Root? && Under(Root(drive), q) ==> q == Root(drive);
        if q.Child? {
          assert old(At(q.parent));
          assert q.parent in old(index) ==> old(index)[q.parent] in old(index).Values;
        }
      }
    }

    // ---- renaming --------------------------------------------------------

    /** Where what stands at `q` after the move stood before it. */
    ghost function Source(from: Key, to: Key, q: Key): Key {
      if Under(to, q) then Rebase(to, from, q) else q
    }

    /** The children of `k` once `from` is erased and `moved` stored at `to`. */
    ghost function ChildrenAfter(k: Key, children: map<string, MemoryNode>, from: Key, to: Key, moved: MemoryNode): map<string, MemoryNode>
      requires from.Child? && to.Child?
    {
      var erased := if k == from.parent then children - {from.name} else children;
      if k == to.parent then erased[to.name := moved] else erased
    }

    lemma ChildKept(p: Key, c: string, children: map<string, MemoryNode>, from: Key, to: Key, moved: MemoryNode)
      requires from.Child? && to.Child? && Child(p, c) != from && Child(p, c) != to
      ensures var after := ChildrenAfter(p, children, from, to, moved);
              (c in after <==> c in children) && (c in children ==> after[c] == children[c])
    {
    }

    /** A subtree carried from one parent to another, under a new name. */
    twostate predicate Carrying(new moved: MemoryNode, new from: Key, new to: Key, new leaf: string)
      requires from.Child? && to.Child?
      reads this, index.Values
    {
      && |roots| == |drives| == DRIVES && drives == old(drives)
      && from in old(tree) && to.parent in old(tree) && from in old(index) && old(index)[from] == moved
      && (to == from || !Under(from, to)) && IsName(leaf) && Lowered(leaf) == to.name
      && index == Carried(old(index), from, to)
      && tree == Carried(old(tree), from, to)[to := old(tree)[from].(name := leaf)]
      && (forall q {:trigger KeptAt(moved, from, to, leaf, q)} | q in index :: KeptAt(moved, from, to, leaf, q))
    }

    twostate predicate KeptAt(new moved: MemoryNode, new from: Key, new to: Key, new leaf: string, new q: Key)
      requires from.Child? && to.Child? && q in index && from in old(tree)
      reads this, index.Values
    {
      var s := Source(from, to, q);
      && s in old(index) && index[q].place == q
      && index[q].AsEntry() == (if q == to then old(tree)[from].(name := leaf) else old(index[s].AsEntry()))
      && index[q].children == (if Under(to, q) then old(index[s].children)
                               else ChildrenAfter(q, old(index[q].children), from, to, moved))
    }

    /** Where the move left `to` itself. */
    twostate lemma MovedTop(new moved: MemoryNode, new from: Key, new to: Key, new leaf: string)
      requires from.Child? && to.Child?
      requires Carrying(moved, from, to, leaf)
      requires old(Valid())
      ensures At(to)
    {
      assert old(At(from)) && old(At(to.parent));
      UnderParent(to);
      CarriedAt(old(index), from, to, to);
      CarriedAt(old(index), from, to, to.parent);
      assert to in index && to.parent in index;
      assert KeptAt(moved, from, to, leaf, to) && KeptAt(moved, from, to, leaf, to.parent);
      assert index[to].AsEntry().name == index[to].name;
    }

    twostate lemma MovedBelow(new moved: MemoryNode, new from: Key, new to: Key, new leaf: string, new q: Key)
      requires from.Child? && to.Child?
      requires Carrying(moved, from, to, leaf)
      requires old(Valid())
      requires q != to && Under(to, q)
      ensures At(q)
    {
      var s, p := Rebase(to, from, q), Rebase(to, from, q.parent);
      assert s == Child(p, q.name);
      assert old(At(s)) && old(At(p));
      CarriedAt(old(index), from, to, q);
      CarriedAt(old(index), from, to, q.parent);
      CarriedAt(old(tree), from, to, q);
      if q in index {
        assert KeptAt(moved, from, to, leaf, q);
        assert index[q].AsEntry().name == index[q].name;
      }
      if q.parent in index {
        assert KeptAt(moved, from, to, leaf, q.parent);
      }
    }

    /** A place outside the moved subtree shows what its node has. */
    twostate lemma MovedShown(new moved: MemoryNode, new from: Key, new to: Key, new leaf: string, new q: Key)
      requires from.Child? && to.Child? && q.Child?
      requires Carrying(moved, from, to, leaf)
      requires old(Valid())
      requires !Under(to, q)
      ensures (q in tree <==> q in index) && (q in tree ==> tree[q] == index[q].AsEntry())
    {
      assert old(At(q));
      CarriedAt(old(index), from, to, q);
      CarriedAt(old(tree), from, to, q);
      if q in index {
        assert KeptAt(moved, from, to, leaf, q);
      }
    }

    /** What a place outside the moved subtree holds has a node. */
    twostate lemma MovedHeld(new moved: MemoryNode, new from: Key, new to: Key, new leaf: string, new p: Key, new c: string)
      requires from.Child? && to.Child?
      requires Carrying(moved, from, to, leaf)
      requires old(Valid())
      requires !Under(to, Child(p, c))
      ensures p in index && c in index[p].children ==> Child(p, c) in index
    {
      var q := Child(p, c);
      assert old(At(q)) && !Under(to, p);
      CarriedAt(old(index), from, to, q);
      CarriedAt(old(index), from, to, p);
      if p in index {
        assert KeptAt(moved, from, to, leaf, p);
        assert c in index[p].children ==> c in old(index[p].children) && q != from;
      }
    }

    /** A node outside the moved subtree keeps its place and its name. */
    twostate lemma MovedNamed(new moved: MemoryNode, new from: Key, new to: Key, new leaf: string, new p: Key, new c: string)
      requires from.Child? && to.Child?
      requires Carrying(moved, from, to, leaf)
      requires old(Valid())
      requires !Under(to, Child(p, c))
      requires Child(p, c) in index
      ensures var n := index[Child(p, c)];
              n.place == Child(p, c) && n.AsEntry().Sound() && IsName(n.name) && Lowered(n.name) == c
    {
      var q := Child(p, c);
      assert old(At(q)) && KeptAt(moved, from, to, leaf, q);
      assert index[q].AsEntry().name == index[q].name;
    }

    /** And is held by its parent. */
    twostate lemma MovedLinked(new moved: MemoryNode, new from: Key, new to: Key, new leaf: string, new p: Key, new c: string)
      requires from.Child? && to.Child?
      requires Carrying(moved, from, to, leaf)
      requires old(Valid())
      requires !Under(to, Child(p, c))
      requires Child(p, c) in index
      ensures p in index && c in index[p].children && index[p].children[c] == index[Child(p, c)]
    {
      var q := Child(p, c);
      assert old(At(q));
      CarriedParent(old(index), from, to, p, c);
      CarriedAt(old(index), from, to, q);
      ChildKept(p, c, old(index[p].children), from, to, moved);
      assert KeptAt(moved, from, to, leaf, p);
    }

    /** A place outside the moved subtree, and what lies in it. */
    twostate lemma MovedAside(new moved: MemoryNode, new from: Key, new to: Key, new leaf: string, new p: Key, new c: string)
      requires from.Child? && to.Child?
      requires Carrying(moved, from, to, leaf)
      requires old(Valid())
      requires !Under(to, Child(p, c))
      ensures At(Child(p, c))
    {
      MovedShown(moved, from, to, leaf, Child(p, c));
      MovedHeld(moved, from, to, leaf, p, c);
      if Child(p, c) in index {
        MovedNamed(moved, from, to, leaf, p, c);
        MovedLinked(moved, from, to, leaf, p, c);
      }
    }

    twostate lemma MovedRoot(new moved: MemoryNode, new from: Key, new to: Key, new leaf: string, new d: nat)
      requires from.Child? && to.Child?
      requires Carrying(moved, from, to, leaf)
      requires old(Valid())
      ensures At(Root(d))
    {
      var q := Root(d);
      assert old(At(q)) && !Under(to, q) && !Under(from, q) && old(At(from)) && old(At(from.parent));
      CarriedAt(old(index), from, to, q);
      CarriedAt(old(tree), from, to, q);
      if q in index {
        assert KeptAt(moved, from, to, leaf, q);
      }
    }

    lemma UnderParent(k: Key)
      requires k.Child?
      ensures Under(k, k) && !Under(k, k.parent)
    {
      if Under(k, k.parent) {
        UnderDepth(k, k.parent);
      }
    }

    twostate lemma Moved(new moved: MemoryNode, new from: Key, new to: Key, new leaf: string)
      requires from.Child? && to.Child?
      requires Carrying(moved, from, to, leaf)
      requires old(Valid())
      ensures Valid()
    {
      forall q
        ensures At(q)
      {
        if q == to {
          MovedTop(moved, from, to, leaf);
        } else if Under(to, q) {
          MovedBelow(moved, from, to, leaf, q);
        } else {
          match q {
            case Root(d) => MovedRoot(moved, from, to, leaf, d);
            case Child(p, c) => MovedAside(moved, from, to, leaf, p, c);
          }
        }
      }
    }

    /** What the move does to one node, told from where it stood. */
    twostate predicate Rehomed(n: MemoryNode, new moved: MemoryNode, new from: Key, new to: Key, new leaf: string)
      requires from.Child? && to.Child?
      reads n
    {
      var k := old(n.place);
      && n.place == (if Under(from, k) then Rebase(from, to, k) else k)
      && n.AsEntry() == (if k == from then old(n.AsEntry()).(name := leaf) else old(n.AsEntry()))
      && n.children == ChildrenAfter(k, old(n.children), from, to, moved)
    }

    twostate lemma KeptFrom(new moved: MemoryNode, new from: Key, new to: Key, new leaf: string, new q: Key)
      requires from.Child? && to.Child? && (to == from || !Under(from, to))
      requires old(Valid()) && from in old(tree) && from in old(index) && old(index)[from] == moved
      requires index == Carried(old(index), from, to) && q in index
      requires forall n {:trigger Rehomed(n, moved, from, to, leaf)} | n in old(index).Values :: Rehomed(n, moved, from, to, leaf)
      ensures KeptAt(moved, from, to, leaf, q)
    {
      CarriedAt(old(index), from, to, q);
      var s := Source(from, to, q);
      assert old(At(s)) && old(At(from));
      var n := old(index)[s];
      assert n in old(index).Values && Rehomed(n, moved, from, to, leaf);
      UnderParent(from);
      if Under(to, q) {
        RebaseInverse(to, from, q);
        assert Under(from, to.parent) ==> Under(from, to);
      }
    }

    /** Erases the node from one children map, renames it, and stores it in another. */
    method Relink(fromParent: MemoryNode, fromKey: string, toParent: MemoryNode, toLeaf: string,
                  moved: MemoryNode, ghost from: Key, ghost to: Key)
      requires Valid() && from.Child? && to.Child? && from in index && index[from] == moved
      requires from.parent in index && index[from.parent] == fromParent && fromKey == from.name
      requires to.parent in index && index[to.parent] == toParent && Lowered(toLeaf) == to.name
      modifies index.Values
      ensures forall n {:trigger Rehomed(n, moved, from, to, toLeaf)} | n in index.Values :: Rehomed(n, moved, from, to, toLeaf)
    {
      assert At(from) && At(from.parent) && At(to.parent);
      AllAtTheirPlaces();
      moved.name := toLeaf;
      fromParent.children := fromParent.children - {fromKey};
      var toKey := ToLowered(toLeaf);
      toParent.children := toParent.children[toKey := moved];
      label linked:
      forall n | n in index.Values {
        n.place := if Under(from, n.place) then Rebase(from, to, n.place) else n.place;
      }
      forall n | n in index.Values
        ensures Rehomed(n, moved, from, to, toLeaf)
      {
        assert n.children == old@linked(n.children) && n.AsEntry() == old@linked(n.AsEntry());
        assert n == fromParent <==> old(n.place) == from.parent;
        assert n == toParent <==> old(n.place) == to.parent;
        assert n == moved <==> old(n.place) == from;
      }
    }

    lemma AllAtTheirPlaces()
      requires Valid()
      ensures forall n | n in index.Values :: n.place in index && index[n.place] == n
    {
      forall n | n in index.Values
        ensures n.place in index && index[n.place] == n
      {
        var k :| k in index && index[k] == n;
        assert At(k);
      }
    }

    method Replace(oldPath: string, newPath: string) returns (ok: bool)
      requires Valid()
      // a directory cannot be moved into itself
      requires FlatTree.Replace(tree, Locate(eka2, oldPath), Locate(eka2, newPath)).ok ==>
                 KeyOf(Locate(eka2, oldPath).value) == KeyOf(Locate(eka2, newPath).value)
                 || !Under(KeyOf(Locate(eka2, oldPath).value), KeyOf(Locate(eka2, newPath).value))
      modifies this`index, this`tree, index.Values
      ensures Valid() && index.Values <= old(index.Values)
      ensures Outcome(ok, tree) == FlatTree.Replace(old(tree), Locate(eka2, oldPath), Locate(eka2, newPath))
      ensures index == if ok then Carried(old(index), KeyOf(Locate(eka2, oldPath).value), KeyOf(Locate(eka2, newPath).value))
                       else old(index)
    {
      var fromParent, fromLeaf := ResolveParent(oldPath);
      if fromParent == null {
        return false;
      }
      ghost var from := KeyOf(Locate(eka2, oldPath).value);
      var fromKey := ToLowered(fromLeaf);
      assert At(from) && At(from.parent);
      if fromKey !in fromParent.children {
        return false;
      }
      var moved := fromParent.children[fromKey];
      var toParent, toLeaf := ResolveParent(newPath);
      if toParent == null {
        return false;
      }
      ReplaceDone(tree, Locate(eka2, oldPath), Locate(eka2, newPath));
      Carry(fromParent, fromKey, toParent, toLeaf, moved, from, KeyOf(Locate(eka2, newPath).value));
      ok := true;
    }

    /** Relinking keeps the tree valid and carries the entries. */
    method Carry(fromParent: MemoryNode, fromKey: string, toParent: MemoryNode, toLeaf: string,
                 moved: MemoryNode, ghost from: Key, ghost to: Key)
      requires Valid() && from.Child? && to.Child? && from in tree && from in index && index[from] == moved
      requires from.parent in index && index[from.parent] == fromParent && fromKey == from.name
      requires to.parent in tree && to.parent in index && index[to.parent] == toParent
      requires (to == from || !Under(from, to)) && IsName(toLeaf) && Lowered(toLeaf) == to.name
      modifies this`index, this`tree, index.Values
      ensures Valid() && index.Values <= old(index.Values)
      ensures tree == Carried(old(tree), from, to)[to := old(tree)[from].(name := toLeaf)]
      ensures index == Carried(old(index), from, to)
    {
      Relink(fromParent, fromKey, toParent, toLeaf, moved, from, to);
      ghost var after := Carried(old(index), from, to);
      index, tree := after, Carried(old(tree), from, to)[to := old(tree)[from].(name := toLeaf)];
      assert index == after;
      forall q | q in index
        ensures KeptAt(moved, from, to, toLeaf, q) && index[q] in old(index).Values
      {
        CarriedAt(old(index), from, to, q);
        KeptFrom(moved, from, to, toLeaf, q);
      }
      Moved(moved, from, to, toLeaf);
    }

    // ---- opening files ---------------------------------------------------

    method OpenFile(path: string, mode: Mode) returns (handle: MemoryFile?)
      requires Valid()
      modifies (if mode.write then {this} + index.Values else {})
      ensures Valid() && drives == old(drives) && eka2 == old(eka2) && packages == old(packages)
      ensures fresh(index.Values - old(index.Values)) && NodesStay()
      ensures var at := Locate(eka2, path);
              Outcome(handle != null, tree)
              == FlatTree.OpenFile(old(tree), at, mode, at.Some? && old(drives)[at.value.drive].isProtected)
      ensures handle != null ==> fresh(handle) && handle.fs == this && handle.mode == mode && handle.Attached()
                                 && handle.node.place == KeyOf(Locate(eka2, path).value)
                                 && handle.position == if mode.append then |handle.node.Content()| else 0
    {
      var ok, drive, parts := Place(path, false);
      RewriteSameDrive(eka2, path);
      if !ok {
        NothingThere(Locate(eka2, path));
        return null;
      }
      if (mode.write || mode.append) && drives[drive].isProtected {
        return null;
      }
      var node := FindOrCreate(path, mode);
      if node == null {
        return null;
      }
      handle := OpenNode(node, KeyOf(Locate(eka2, path).value), mode);
    }

    /** What the path resolves to, or a new file there when the mode writes. */
    method FindOrCreate(path: string, mode: Mode) returns (node: MemoryNode?)
      requires Valid()
      modifies (if mode.write then {this} + index.Values else {})
      ensures Valid() && drives == old(drives) && eka2 == old(eka2) && packages == old(packages)
      ensures fresh(index.Values - old(index.Values)) && NodesStay()
      ensures var at := Locate(eka2, path);
              && (node != null <==> Present(old(tree), at) || (mode.write && CanName(old(tree), at)))
              && (node != null ==> KeyOf(at.value) in tree && KeyOf(at.value) in index && index[KeyOf(at.value)] == node)
              && tree == if node == null || Present(old(tree), at) then old(tree)
                         else old(tree)[KeyOf(at.value) := Entry(Leaf(at.value), false, [], None)]
    {
      ghost var at := Locate(eka2, path);
      if at.Some? {
        assert At(KeyOf(at.value));
      }
      node := Resolve(path);
      if node == null && mode.write {
        node := CreateFile(path);
      }
    }

    /** A handle on a node, unless it is a directory or not the machine's to change. */
    method OpenNode(node: MemoryNode, ghost k: Key, mode: Mode) returns (handle: MemoryFile?)
      requires Valid() && k in tree && k in index && index[k] == node
      modifies if mode.write then {this, node} else {}
      ensures Valid() && drives == old(drives) && eka2 == old(eka2) && packages == old(packages) && index == old(index)
      ensures (handle != null) == Opens(old(tree)[k], mode)
      ensures tree == if handle != null && Empties(mode) then old(tree)[k := old(tree)[k].(bytes := [])] else old(tree)
      ensures handle != null ==> fresh(handle) && handle.fs == this && handle.node == node && handle.mode == mode
                                 && node.place == k && k.Child? && handle.position == if mode.append then |node.Content()| else 0
    {
      assert At(k);
      if node.isDir {
        return null;
      }
      if node.fixed.Some? && (mode.write || mode.append) {
        return null;
      }
      if mode.write && !mode.read && !mode.append {
        Update(node, k, node.AsEntry().(bytes := []));
        assert At(k);
      }
      handle := new MemoryFile(this, node, mode);
    }

    /** A path onto a drive that is not mounted finds and names nothing. */
    lemma NothingThere(at: Option<Located>)
      requires Valid() && (at.Some? ==> at.value.drive < DRIVES && !drives[at.value.drive].mounted)
      ensures !Present(tree, at) && !CanName(tree, at)
    {
      if at.Some? {
        NotShown(at.value.drive, at.value.names);
        if at.value.names != [] {
          NotShown(at.value.drive, at.value.names[..|at.value.names| - 1]);
        }
      }
    }

    /** A new empty file, when what it would lie in is there. */
    method CreateFile(path: string) returns (node: MemoryNode?)
      requires Valid() && !Present(tree, Locate(eka2, path))
      modifies this`index, this`tree, index.Values
      ensures Valid() && fresh(index.Values - old(index.Values)) && NodesStay()
      ensures var at := Locate(eka2, path);
              if CanName(old(tree), at) then
                var k := KeyOf(at.value);
                && node != null && k in index && index[k] == node
                && tree == old(tree)[k := Entry(Leaf(at.value), false, [], None)]
              else node == null && tree == old(tree)
    {
      var parent, leaf := ResolveParent(path);
      if parent == null {
        return null;
      }
      node := FindOrMake(parent, ParentKey(Locate(eka2, path).value), leaf);
    }

    // ---- reading whole files and directories -----------------------------

    method ReadWhole(path: string) returns (out: Option<seq<Byte>>)
      requires Valid()
      ensures var at := Locate(eka2, path);
              out == if Present(tree, at) && !tree[KeyOf(at.value)].isDir
                     then Some(tree[KeyOf(at.value)].Content()) else None
    {
      var node := Resolve(path);
      ghost var at := Locate(eka2, path);
      if at.Some? {
        assert At(KeyOf(at.value));
      }
      if node == null || node.isDir {
        return None;
      }
      return Some(node.Content());
    }

    method GetEntryInfo(path: string) returns (info: Option<EntryInfo>)
      requires Valid()
      ensures info == InfoAt(tree, drives, Locate(eka2, path), path)
    {
      var node := Resolve(path);
      ghost var at := Locate(eka2, path);
      if node == null {
        return None;
      }
      assert At(KeyOf(at.value)) && tree[KeyOf(at.value)] == node.AsEntry();
      LetterIsDrive(eka2, path);
      InfoThere(tree, drives, at.value, path);
      var letter := DriveLetter(path);
      var size := if node.isDir then 0 else |node.Content()|;
      return Some(EntryInfo(node.isDir, size, path, drives[letter as int - 'a' as int].isProtected));
    }

    // ---- mounting a package ----------------------------------------------

    /** Makes directories on the way and the entry the names end in, which is no directory. */
    method MakeWay(drive: nat, parts: seq<string>) returns (node: MemoryNode)
      requires Valid() && Root(drive) in tree && parts != [] && AreNames(parts)
      modifies this`index, this`tree, index.Values
      ensures Valid() && fresh(index.Values - old(index.Values)) && NodesStay() && drives == old(drives)
      ensures EntryLaid(old(tree), Located(drive, parts), tree)
      ensures var k := KeyOf(Located(drive, parts)); k in tree && k in index && index[k] == node
    {
      assert At(Root(drive));
      node := roots[drive];
      ghost var k, at := Root(drive), Located(drive, parts);
      for i := 0 to |parts|
        invariant Valid() && fresh(index.Values - old(index.Values)) && NodesStay() && drives == old(drives)
        invariant k == Below(Root(drive), parts[..i]) && k in tree && k in index && index[k] == node
        invariant WayTo(old(tree), at, i, tree)
      {
        BelowStep(Root(drive), parts, i);
        ghost var c, was := Below(Root(drive), parts[..i + 1]), tree;
        node := StepDown(node, k, parts[i], i + 1 < |parts|);
        WayOnward(old(tree), at, i, was, tree, c);
        k := c;
      }
      assert parts[..|parts|] == parts;
    }

    /** Lays one record's file at its place. */
    method LayRecord(drive: nat, parts: seq<string>, file: Slice)
      requires Valid() && Root(drive) in tree && parts != [] && AreNames(parts) && file.Inside()
      modifies this`index, this`tree, index.Values
      ensures Valid() && fresh(index.Values - old(index.Values)) && NodesStay() && drives == old(drives)
      ensures IsLaid(old(tree), Located(drive, parts), file, tree) && Root(drive) in tree
    {
      assert At(Root(drive));
      var node := MakeWay(drive, parts);
      ghost var k, made := KeyOf(Located(drive, parts)), tree;
      assert At(k) && At(Root(drive));
      Update(node, k, node.AsEntry().(fixed := Some(file)));
      BytesAfterEntry(old(tree), Located(drive, parts), file, made, tree);
      assert At(Root(drive));
    }

    method MountRpkg(drive: nat, package: seq<Byte>, convert: Converter) returns (answer: int)
      requires Valid() && drive < DRIVES
      modifies this, index.Values
      ensures Valid() && fresh(index.Values - old(index.Values)) && NodesStay() && eka2 == old(eka2)
      ensures MountOutcome(answer, tree) == Mount(old(tree), drive, convert, package)
      ensures answer == -1 ==> packages == old(packages) && drives == old(drives)
      ensures answer >= 0 ==> packages == old(packages) + [package] && drives == old(drives)[drive := Drive(true, Rom, true)]
    {
      var end := HeaderEnd(package);
      if end.None? {
        return -1;
      }
      assert At(Root(drive));
      var mounted := MountEmpty(drive, Rom, true);
      if !mounted {
        return -1;
      }
      packages := packages + [package];
      answer := LayRecords(drive, package, end.value, convert);
    }

    /** Lays the package's records, one after the other, up to the first that is cut off. */
    method LayRecords(drive: nat, package: seq<Byte>, start: nat, convert: Converter) returns (files: nat)
      requires Valid() && Root(drive) in tree && start <= |package|
      modifies this`index, this`tree, index.Values
      ensures Valid() && fresh(index.Values - old(index.Values)) && NodesStay() && drives == old(drives)
      ensures HasLaid(old(tree), drive, convert, package, Records(package, start), tree, files)
    {
      ghost var before, done := tree, [];
      var cursor := start;
      files := 0;
      AtStart(before, drive, convert, package, start);
      while true
        invariant Valid() && fresh(index.Values - old(index.Values)) && NodesStay() && drives == old(drives) && Root(drive) in tree
        invariant cursor <= |package| && Midway(before, drive, convert, package, start, done, cursor, tree, files)
        decreases |package| - cursor
      {
        var record := TakeRecord(package, cursor);
        if record.None? {
          AtEnd(before, drive, convert, package, start, done, cursor, tree, files);
          break;
        }
        files, cursor, done := LayOne(drive, package, record.value, convert, files, before, start, done, cursor);
      }
    }

    /** Lays one record, if it names a file, and counts it; answers where the next one starts. */
    method LayOne(drive: nat, package: seq<Byte>, r: Record, convert: Converter, files: nat,
                  ghost before: Flat, ghost start: nat, ghost done: seq<Record>, ghost at: nat)
      returns (counted: nat, stop: nat, ghost laid: seq<Record>)
      requires Valid() && Root(drive) in tree && start <= |package| && at <= |package| && RecordAt(package, at) == Some(r)
      requires Midway(before, drive, convert, package, start, done, at, tree, files)
      modifies this`index, this`tree, index.Values
      ensures Valid() && fresh(index.Values - old(index.Values)) && NodesStay() && drives == old(drives) && Root(drive) in tree
      ensures at < stop <= |package| && Midway(before, drive, convert, package, start, laid, stop, tree, counted)
    {
      ghost var was := tree;
      var parts := PackageNames(r.path, convert);
      counted := files;
      if parts != [] {
        LayRecord(drive, parts, Slice(package, r.start, r.size));
        counted := counted + 1;
      }
      stop, laid := r.start + r.size, done + [r];
      Onward(before, drive, convert, package, start, done, at, was, files, r, tree, counted, laid, stop);
    }
  }

  /** Reads the record at `at`, unless the package is cut off before its end. */
  method TakeRecord(package: seq<Byte>, at: nat) returns (r: Option<Record>)
    requires at <= |package|
    ensures r == RecordAt(package, at)
  {
    var cursor := at;
    if |package| - cursor < 24 {
      return None;
    }
    var units := Word(package[cursor + 16..cursor + 24]);
    cursor := cursor + 24;
    if |package| - cursor < units * 2 + 8 {
      return None;
    }
    var path := Units(package[cursor..cursor + units * 2]);
    cursor := cursor + units * 2;
    var size := Word(package[cursor..cursor + 8]);
    cursor := cursor + 8;
    if |package| - cursor < size {
      return None;
    }
    return Some(Record(path, cursor, size));
  }

  /** The names of a record's path: its drive dropped, the rest lowercased. */
  method PackageNames(path: seq<Unit>, convert: Converter) returns (parts: seq<string>)
    ensures parts == RecordNames(convert, path)
  {
    var relative := "";
    if |path| > 3 {
      relative := ToLowered(convert(path[3..]));
    }
    var ok, letter;
    ok, letter, parts := SplitPath("z:\\" + relative);
    assert AfterDrive("z:\\" + relative)[1..] == relative;
  }

  /** Copies the bytes to the start of the caller's buffer. */
  method CopyOut(out: array<Byte>, bytes: seq<Byte>)
    requires |bytes| <= out.Length
    modifies out
    ensures out[..|bytes|] == bytes && forall i | |bytes| <= i < out.Length :: out[i] == old(out[i])
  {
    forall i | 0 <= i < |bytes| {
      out[i] := bytes[i];
    }
  }

  // ---- an open file ------------------------------------------------------

  /** A handle: a node, and where in it the next read or write goes. */
  lemma ReadIs(s: FileBytes.FileState, n: nat, want: nat)
    requires want == FileBytes.Available(s, n)
    ensures FileBytes.Read(s, n) == if want == 0 then ([], s)
                                    else (s.bytes[s.position..s.position + want], s.(position := s.position + want))
  {
  }

  class MemoryFile {
    const node: MemoryNode
    const mode: Mode
    ghost const fs: FileSystem
    var position: nat

    constructor (ghost fs: FileSystem, node: MemoryNode, mode: Mode)
      ensures this.fs == fs && this.node == node && this.mode == mode
      ensures position == if mode.append then |node.Content()| else 0
    {
      this.fs, this.node, this.mode := fs, node, mode;
      position := 0;
      if mode.append {
        position := |node.Content()|;
      }
    }

    /** The filesystem is sound and the node still stands in it. */
    ghost predicate Attached()
      reads node, fs, fs.index.Values
    {
      && fs.Valid() && node.place in fs.tree && node.place.Child?
      && node.place in fs.index && fs.index[node.place] == node
    }

    /** The bytes and the position, as one growable array has them. */
    ghost function State(): FileBytes.FileState
      reads this, node
    {
      FileBytes.FileState(node.Content(), position)
    }

    /** A handle stays good over any call that leaves its file where it was. */
    twostate lemma StaysAttached()
      requires old(Attached()) && fs.Valid()
      requires old(node.place) in fs.tree && old(node.place) in fs.index
      requires fs.index[old(node.place)] == old(fs.index)[old(node.place)]
      ensures Attached() && node.place == old(node.place)
    {
      assert fs.At(old(node.place));
    }

    /** Whether the file takes writes. */
    predicate Writable()
      reads node
    {
      (mode.write || mode.append) && node.fixed.None?
    }

    method WriteFile(data: seq<Byte>, size: nat, count: nat) returns (n: nat)
      requires Attached() && |data| >= size * count
      modifies this`position, node, fs`tree
      ensures Attached() && node.place == old(node.place)
      ensures old(Writable()) ==> n == size * count && State() == FileBytes.Write(old(State()), data[..n])
      ensures !old(Writable()) ==> n == 0 && State() == old(State()) && node.bytes == old(node.bytes)
      ensures fs.tree == old(fs.tree)[node.place := node.AsEntry()]
      ensures node.AsEntry() == old(node.AsEntry()).(bytes := node.bytes)
    {
      assert fs.At(node.place);
      if (!mode.write && !mode.append) || node.fixed.Some? {
        return 0;
      }
      var total := size * count;
      ghost var before := node.bytes;
      var bytes := node.bytes;
      if |bytes| < position + total {
        bytes := FileBytes.Resized(bytes, position + total);
      }
      bytes := bytes[..position] + data[..total] + bytes[position + total..];
      assert bytes == FileBytes.Overwrite(before, position, data[..total]);
      SetBytes(bytes);
      position := position + total;
      return total;
    }

    /** Stores the file's bytes in its node. */
    method SetBytes(bytes: seq<Byte>)
      requires Attached()
      modifies node, fs`tree
      ensures Attached() && node.place == old(node.place)
      ensures node.AsEntry() == old(node.AsEntry()).(bytes := bytes)
      ensures fs.tree == old(fs.tree)[node.place := node.AsEntry()]
    {
      ghost var k := node.place;
      assert fs.At(k);
      node.bytes := bytes;
      fs.tree := fs.tree[k := node.AsEntry()];
      fs.EntryChanged(node, k);
    }

    method ReadFile(out: array<Byte>, size: nat, count: nat) returns (n: nat)
      requires Attached() && out.Length >= size * count
      modifies this`position, out
      ensures n <= out.Length && FileBytes.Read(old(State()), size * count) == (out[..n], State())
      ensures forall i | n <= i < out.Length :: out[i] == old(out[i])
      ensures Attached()
    {
      assert fs.At(node.place);
      var bytes := node.Content();
      var left := |bytes| - (if position < |bytes| then position else |bytes|);
      var want := size * count;
      if want > left {
        want := left;
      }
      ReadIs(State(), size * count, want);
      if want == 0 {
        return 0;
      }
      CopyOut(out, bytes[position..position + want]);
      position := position + want;
      return want;
    }

    method Resize(size: nat) returns (ok: bool)
      requires Attached()
      modifies node, fs`tree
      ensures Attached() && node.place == old(node.place) && ok == old(node.fixed.None?)
      ensures node.AsEntry() == if ok then old(node.AsEntry()).(bytes := FileBytes.Resized(old(node.bytes), size))
                                else old(node.AsEntry())
      ensures fs.tree == old(fs.tree)[node.place := node.AsEntry()]
    {
      assert fs.At(node.place);
      if node.fixed.Some? {
        return false;
      }
      SetBytes(FileBytes.Resized(node.bytes, size));
      return true;
    }

    /** Positions and answers are 64 bits wide; a refused kind of seek answers all ones. */
    method Seek(offset: int, from: SeekMode) returns (answer: nat)
      modifies this`position
      ensures position == SoughtIn(|node.Content()|, old(position), offset, from)
      ensures answer == if from.Address? then TWO_64 - 1 else position
    {
      match from {
        case Begin => position := offset % TWO_64;
        case Current => position := (position + offset) % TWO_64;
        case End => position := (|node.Content()| + offset) % TWO_64;
        case Address =>
          position := offset % TWO_64;
          return TWO_64 - 1;
      }
      return position;
    }
  }

  datatype SeekMode = Begin | Current | End | Address

  /** Where a seek goes in a file of that length, in 64 bits. */
  function SoughtIn(length: nat, position: nat, offset: int, from: SeekMode): nat {
    (match from case Begin => offset
                case Current => position + offset
                case End => length + offset
                case Address => offset) % TWO_64
  }
}
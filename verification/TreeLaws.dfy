/** What every operation keeps, what it may touch, and what one call undoes,
    over every run of operations on the flat map. */
module TreeLaws {
  import opened Options
  import opened Paths
  import opened Words
  import opened FlatTree
  import FileBytes

  /** The calls that change the tree. `Store` is a write or a resize through a handle. */
  datatype Op =
    | Open(at: Option<Located>, mode: Mode, isProtected: bool)
    | MakeDirectory(at: Option<Located>)
    | MakeDirectories(at: Option<Located>)
    | Remove(at: Option<Located>)
    | Rename(from: Option<Located>, to: Option<Located>)
    | Store(k: Key, bytes: seq<Byte>)
    | AddDrive(drive: nat)
    | DropDrive(drive: nat)

  predicate SaneAt(at: Option<Located>) {
    at.Some? ==> AreNames(at.value.names)
  }

  /** What the callers owe: names as a path gives them, and no directory renamed into itself. */
  predicate Sane(op: Op) {
    match op
    case Open(at, _, _) => SaneAt(at)
    case MakeDirectory(at) => SaneAt(at)
    case MakeDirectories(at) => SaneAt(at)
    case Remove(at) => SaneAt(at)
    case Rename(from, to) =>
      && SaneAt(from) && SaneAt(to)
      && (from.Some? && to.Some? ==>
            KeyOf(from.value) == KeyOf(to.value) || !Under(KeyOf(from.value), KeyOf(to.value)))
    case Store(k, _) => k.Child?
    case AddDrive(_) => true
    case DropDrive(_) => true
  }

  /** A handle stores bytes in an entry that is the machine's own, even one since made a directory. */
  function StoreBytes(m: Flat, k: Key, bytes: seq<Byte>): Outcome {
    if k in m && m[k].fixed.None? then Outcome(true, m[k := m[k].(bytes := bytes)])
    else Outcome(false, m)
  }

  ghost function Step(m: Flat, op: Op): Outcome {
    match op
    case Open(at, mode, isProtected) => OpenFile(m, at, mode, isProtected)
    case MakeDirectory(at) => CreateDirectory(m, at)
    case MakeDirectories(at) => CreateDirectories(m, at)
    case Remove(at) => Delete(m, at)
    case Rename(from, to) => Replace(m, from, to)
    case Store(k, bytes) => StoreBytes(m, k, bytes)
    case AddDrive(drive) => MountEmpty(m, drive)
    case DropDrive(drive) => Unmount(m, drive)
  }

  ghost function Run(m: Flat, ops: seq<Op>): Flat
    decreases |ops|
  {
    if ops == [] then m else Run(Step(m, ops[0]).tree, ops[1..])
  }

  // ---- the shape of the tree ---------------------------------------------

  lemma KeyOfChild(at: Located)
    requires at.names != []
    ensures KeyOf(at) == Child(ParentKey(at), Lowered(Leaf(at)))
  {
  }

  lemma ChainKeepsRooted(m: Flat, at: Located)
    requires Rooted(m) && AreNames(at.names) && Root(at.drive) in m
    ensures Rooted(AllDirectories(m, at))
  {
    forall k
      ensures RootedAt(AllDirectories(m, at), k)
    {
      assert RootedAt(m, k);
      if k in Chain(at) {
        ChainParent(at, k);
        assert AllDirectories(m, at)[k] == AsDirectory(m, at, k);
      }
    }
  }

  /** A place on the way down lies in the place before it, or in the root. */
  lemma ChainParent(at: Located, k: Key)
    requires k in Chain(at)
    ensures k.Child? && 1 <= Depth(k) <= |at.names| && k.name == Lowered(at.names[Depth(k) - 1])
    ensures k.parent in Chain(at) || k.parent == Root(at.drive)
  {
    BelowDepthOnChain(at, k);
    var n := Depth(k);
    assert at.names[..n][..n - 1] == at.names[..n - 1];
    assert n > 1 ==> Below(Root(at.drive), at.names[..n - 1]) in Chain(at);
  }

  lemma CarriedKeepsRooted(m: Flat, from: Key, to: Key, leaf: string)
    requires Rooted(m) && from.Child? && to.Child? && from in m && to.parent in m
    requires (to == from || !Under(from, to)) && IsName(leaf) && Lowered(leaf) == to.name
    ensures Rooted(Carried(m, from, to)[to := m[from].(name := leaf)])
  {
    var r := Carried(m, from, to)[to := m[from].(name := leaf)];
    CarriedAt(m, from, to, to.parent);
    NotUnderParent(to);
    assert RootedAt(m, from);
    forall k
      ensures RootedAt(r, k)
    {
      CarriedAt(m, from, to, k);
      assert RootedAt(m, k);
      if Under(to, k) {
        assert RootedAt(m, Rebase(to, from, k));
      }
      if k.Child? {
        CarriedAt(m, from, to, k.parent);
      }
    }
  }

  lemma NotUnderParent(k: Key)
    requires k.Child?
    ensures !Under(k, k.parent)
  {
    if Under(k, k.parent) {
      UnderDepth(k, k.parent);
    }
  }

  lemma AddKeepsRooted(m: Flat, k: Key, e: Entry)
    requires Rooted(m) && k.Child? && k.parent in m && Lowered(e.name) == k.name && IsName(e.name) && e.Sound()
    ensures Rooted(m[k := e])
  {
    var r := m[k := e];
    forall q
      ensures RootedAt(r, q)
    {
      assert RootedAt(m, q);
    }
  }

  lemma WithoutKeepsRooted(m: Flat, k: Key)
    requires Rooted(m)
    ensures Rooted(Without(m, k))
  {
    forall q
      ensures RootedAt(Without(m, k), q)
    {
      assert RootedAt(m, q);
    }
  }

  /** Every entry keeps lying in something, under the lowercased form of its name. */
  lemma StepKeepsRooted(m: Flat, op: Op)
    requires Rooted(m) && Sane(op)
    ensures Rooted(Step(m, op).tree)
  {
    match op {
      case Open(at, mode, isProtected) => OpenKeepsRooted(m, at, mode, isProtected);
      case MakeDirectory(at) =>
        if CanName(m, at) {
          KeyOfChild(at.value);
          assert RootedAt(m, KeyOf(at.value));
          AddKeepsRooted(m, KeyOf(at.value), Step(m, op).tree[KeyOf(at.value)]);
        }
      case MakeDirectories(at) =>
        if at.Some? && Root(at.value.drive) in m {
          ChainKeepsRooted(m, at.value);
        }
      case Remove(at) =>
        if Step(m, op).ok {
          WithoutKeepsRooted(m, KeyOf(at.value));
        }
      case Rename(from, to) =>
        if Step(m, op).ok {
          KeyOfChild(from.value);
          KeyOfChild(to.value);
          CarriedKeepsRooted(m, KeyOf(from.value), KeyOf(to.value), Leaf(to.value));
        }
      case Store(k, bytes) =>
        if Step(m, op).ok {
          assert RootedAt(m, k);
          AddKeepsRooted(m, k, m[k].(bytes := bytes));
        }
      case AddDrive(drive) =>
        forall q
          ensures RootedAt(Step(m, op).tree, q)
        {
          assert RootedAt(m, q);
        }
      case DropDrive(drive) => WithoutKeepsRooted(m, Root(drive));
    }
  }

  lemma OpenKeepsRooted(m: Flat, at: Option<Located>, mode: Mode, isProtected: bool)
    requires Rooted(m) && SaneAt(at)
    ensures Rooted(OpenFile(m, at, mode, isProtected).tree)
  {
    if at.Some? {
      var k := KeyOf(at.value);
      assert RootedAt(m, k);
      if k in m && Opens(m[k], mode) && Empties(mode) {
        AddKeepsRooted(m, k, m[k].(bytes := []));
      } else if CanName(m, at) {
        KeyOfChild(at.value);
        AddKeepsRooted(m, k, Entry(Leaf(at.value), false, [], None));
      }
    }
  }

  lemma {:induction false} RunKeepsRooted(m: Flat, ops: seq<Op>)
    requires Rooted(m) && forall i | 0 <= i < |ops| :: Sane(ops[i])
    ensures Rooted(Run(m, ops))
    decreases |ops|
  {
    if ops != [] {
      StepKeepsRooted(m, ops[0]);
      RunKeepsRooted(Step(m, ops[0]).tree, ops[1..]);
    }
  }

  // ---- what a call may touch ---------------------------------------------

  /** The places a call names. */
  predicate Named(op: Op, q: Key) {
    match op
    case Open(at, _, _) => at.Some? && q == KeyOf(at.value)
    case MakeDirectory(at) => at.Some? && q == KeyOf(at.value)
    case MakeDirectories(at) => at.Some? && q in Chain(at.value)
    case Remove(at) => at.Some? && Under(KeyOf(at.value), q)
    case Rename(from, to) => from.Some? && to.Some? && (Under(KeyOf(from.value), q) || Under(KeyOf(to.value), q))
    case Store(k, _) => q == k
    case AddDrive(drive) => q == Root(drive)
    case DropDrive(drive) => Under(Root(drive), q)
  }

  ghost predicate SameAt(m: Flat, r: Flat, q: Key) {
    (q in m <==> q in r) && (q in m ==> r[q] == m[q])
  }

  lemma SameEverywhere(m: Flat, r: Flat)
    requires forall q {:trigger SameAt(m, r, q)} :: SameAt(m, r, q)
    ensures m == r
  {
    forall q
      ensures q in m <==> q in r
      ensures q in m ==> r[q] == m[q]
    {
      assert SameAt(m, r, q);
    }
  }

  /** A call changes only what it names, and a refused one nothing. */
  lemma StepTouchesOnlyNamed(m: Flat, op: Op, q: Key)
    ensures !Named(op, q) ==> SameAt(m, Step(m, op).tree, q)
    ensures !Step(m, op).ok ==> Step(m, op).tree == m
  {
    match op {
      case Rename(from, to) =>
        if Step(m, op).ok && !Named(op, q) {
          CarriedAt(m, KeyOf(from.value), KeyOf(to.value), q);
        }
      case _ =>
    }
  }

  /** What no call of a run names is as it was. */
  lemma {:induction false} RunTouchesOnlyNamed(m: Flat, ops: seq<Op>, q: Key)
    requires forall i | 0 <= i < |ops| :: !Named(ops[i], q)
    ensures SameAt(m, Run(m, ops), q)
    decreases |ops|
  {
    if ops != [] {
      StepTouchesOnlyNamed(m, ops[0], q);
      RunTouchesOnlyNamed(Step(m, ops[0]).tree, ops[1..], q);
    }
  }

  // ---- directories -------------------------------------------------------

  predicate TidyAt(m: Flat, k: Key) {
    k in m && k.Child? ==> k.parent in m && m[k.parent].isDir
  }

  /** Only directories hold anything. */
  ghost predicate Tidy(m: Flat) {
    forall k {:trigger TidyAt(m, k)} :: TidyAt(m, k)
  }

  /** The call puts an entry into something that is not a directory: the code never looks. A new
      file is put there when it may be written, can be named and is not there yet; a directory
      when it can be named; a renamed entry when it is there and its new place can be named. */
  predicate PutsIntoFile(m: Flat, op: Op) {
    match op
    case Open(at, mode, isProtected) =>
      !isProtected && mode.write && CanName(m, at) && !Present(m, at) && !m[ParentKey(at.value)].isDir
    case MakeDirectory(at) => CanName(m, at) && !m[ParentKey(at.value)].isDir
    case Rename(from, to) => CanName(m, from) && Present(m, from) && CanName(m, to) && !m[ParentKey(to.value)].isDir
    case _ => false
  }

  lemma ChainKeepsTidy(m: Flat, at: Located)
    requires Rooted(m) && Tidy(m) && Root(at.drive) in m
    ensures Tidy(AllDirectories(m, at))
  {
    var r := AllDirectories(m, at);
    assert RootedAt(m, Root(at.drive));
    forall k
      ensures TidyAt(r, k)
    {
      assert TidyAt(m, k);
      if k in Chain(at) {
        ChainParent(at, k);
      }
      if k.Child? && k.parent in Chain(at) {
        assert r[k.parent] == AsDirectory(m, at, k.parent);
      } else if Root(at.drive) in Chain(at) {
        ChainParent(at, Root(at.drive));
      }
    }
  }

  lemma CarriedKeepsTidy(m: Flat, from: Key, to: Key, leaf: string)
    requires Tidy(m) && from.Child? && to.Child? && from in m && to.parent in m
    requires to == from || !Under(from, to)
    ensures Tidy(Carried(m, from, to)[to := m[from].(name := leaf)]) <==> m[to.parent].isDir
  {
    var r := Carried(m, from, to)[to := m[from].(name := leaf)];
    NotUnderParent(to);
    CarriedAt(m, from, to, to.parent);
    CarriedAt(m, from, to, to);
    if m[to.parent].isDir {
      forall k
        ensures TidyAt(r, k)
      {
        CarriedAt(m, from, to, k);
        assert TidyAt(m, k);
        if Under(to, k) {
          assert TidyAt(m, Rebase(to, from, k));
        }
        if k.Child? {
          CarriedAt(m, from, to, k.parent);
        }
      }
    } else {
      assert !TidyAt(r, to);
    }
  }

  /** Exactly which calls keep files from holding entries. */
  lemma StepKeepsTidy(m: Flat, op: Op)
    requires Rooted(m) && Tidy(m) && Sane(op)
    ensures Tidy(Step(m, op).tree) <==> !PutsIntoFile(m, op)
  {
    var r := Step(m, op).tree;
    match op {
      case Open(at, mode, _) =>
        if Step(m, op).ok && !Present(m, at) {
          KeyOfChild(at.value);
          AddKeepsTidy(m, KeyOf(at.value), Entry(Leaf(at.value), false, [], None));
        } else if Step(m, op).ok {
          ChangeKeepsTidy(m, KeyOf(at.value), m[KeyOf(at.value)].(bytes := []));
        }
      case MakeDirectory(at) =>
        if CanName(m, at) {
          KeyOfChild(at.value);
          AddKeepsTidy(m, KeyOf(at.value), r[KeyOf(at.value)]);
        }
      case MakeDirectories(at) =>
        if Step(m, op).ok {
          ChainKeepsTidy(m, at.value);
        }
      case Remove(at) =>
        if Step(m, op).ok {
          WithoutKeepsTidy(m, KeyOf(at.value));
        }
      case Rename(from, to) =>
        if Step(m, op).ok {
          KeyOfChild(from.value);
          KeyOfChild(to.value);
          CarriedKeepsTidy(m, KeyOf(from.value), KeyOf(to.value), Leaf(to.value));
        }
      case DropDrive(drive) => WithoutKeepsTidy(m, Root(drive));
      case AddDrive(drive) => ChangeKeepsTidy(m, Root(drive), ROOT);
      case Store(k, bytes) =>
        if Step(m, op).ok {
          ChangeKeepsTidy(m, k, m[k].(bytes := bytes));
        }
    }
  }

  /** No call of the run puts an entry into a file, in the tree it finds. */
  ghost predicate NonePutsIntoFile(m: Flat, ops: seq<Op>)
    decreases |ops|
  {
    ops == [] || (!PutsIntoFile(m, ops[0]) && NonePutsIntoFile(Step(m, ops[0]).tree, ops[1..]))
  }

  /** After any run of other calls still only directories hold anything. */
  lemma {:induction false} RunKeepsTidy(m: Flat, ops: seq<Op>)
    requires Rooted(m) && Tidy(m) && NonePutsIntoFile(m, ops) && forall i | 0 <= i < |ops| :: Sane(ops[i])
    ensures Tidy(Run(m, ops))
    decreases |ops|
  {
    if ops != [] {
      StepKeepsRooted(m, ops[0]);
      StepKeepsTidy(m, ops[0]);
      RunKeepsTidy(Step(m, ops[0]).tree, ops[1..]);
    }
  }

  /** The files C:\a and C:\c, and a place below the first. */
  predicate TwoFiles(m: Flat, at: Located, from: Located) {
    && m == map[Root(2) := ROOT, Child(Root(2), "a") := Entry("a", false, [], None),
                Child(Root(2), "c") := Entry("c", false, [], None)]
    && at == Located(2, ["a", "b"]) && from == Located(2, ["c"])
  }

  lemma TwoFilesTidy(m: Flat, at: Located, from: Located)
    requires TwoFiles(m, at, from)
    ensures Rooted(m) && Tidy(m)
  {
    assert Lowered("a") == "a" && Lowered("c") == "c";
    assert IsName("a") && IsName("c");
    assert forall k :: RootedAt(m, k) && TidyAt(m, k);
  }

  lemma TwoFilesKeys(m: Flat, at: Located, from: Located)
    requires TwoFiles(m, at, from)
    ensures AreNames(at.names) && AreNames(from.names)
    ensures ParentKey(at) == Child(Root(2), "a") && ParentKey(from) == Root(2)
    ensures KeyOf(from) == Child(Root(2), "c") && KeyOf(at) == Child(Child(Root(2), "a"), "b")
    ensures !Under(KeyOf(from), KeyOf(at))
  {
    assert Lowered("a") == "a" && Lowered("b") == "b" && Lowered("c") == "c";
    assert at.names[..1] == ["a"] && ["a"][..0] == [] && from.names[..0] == [];
  }

  /** Such calls are there: below the file C:\a each of the three puts an entry. */
  lemma FilesCanHoldEntries(m: Flat, at: Located, from: Located)
    requires TwoFiles(m, at, from)
    ensures Rooted(m) && Tidy(m)
    ensures !Tidy(Step(m, Open(Some(at), Mode(true, true, false), false)).tree)
    ensures !Tidy(Step(m, MakeDirectory(Some(at))).tree)
    ensures !Tidy(Step(m, Rename(Some(from), Some(at))).tree)
  {
    TwoFilesTidy(m, at, from);
    TwoFilesKeys(m, at, from);
    StepKeepsTidy(m, Open(Some(at), Mode(true, true, false), false));
    StepKeepsTidy(m, MakeDirectory(Some(at)));
    StepKeepsTidy(m, Rename(Some(from), Some(at)));
  }

  lemma WithoutKeepsTidy(m: Flat, k: Key)
    requires Tidy(m)
    ensures Tidy(Without(m, k))
  {
    forall q
      ensures TidyAt(Without(m, k), q)
    {
      assert TidyAt(m, q);
    }
  }

  /** Changing an entry without making a directory a file keeps a tidy tree tidy. */
  lemma ChangeKeepsTidy(m: Flat, k: Key, e: Entry)
    requires Tidy(m) && (k in m && m[k].isDir ==> e.isDir) && (k in m || k.Root?)
    ensures Tidy(m[k := e])
  {
    var r := m[k := e];
    forall q
      ensures TidyAt(r, q)
    {
      assert TidyAt(m, q);
    }
  }

  lemma AddKeepsTidy(m: Flat, k: Key, e: Entry)
    requires Tidy(m) && k.Child? && k.parent in m && (k in m ==> e.isDir)
    ensures Tidy(m[k := e]) <==> m[k.parent].isDir
  {
    NotUnderParent(k);
    var r := m[k := e];
    if m[k.parent].isDir {
      forall q
        ensures TidyAt(r, q)
      {
        assert TidyAt(m, q);
      }
    } else {
      assert !TidyAt(r, k);
    }
  }

  /** On a tidy tree deleting takes away one entry, never what lies below it. */
  lemma DeleteTakesOne(m: Flat, at: Option<Located>)
    requires Tidy(m) && Delete(m, at).ok
    ensures Delete(m, at).tree == m - {KeyOf(at.value)}
  {
    var k := KeyOf(at.value);
    forall q | q in m && Under(k, q)
      ensures q == k
    {
      NothingBelow(m, k, q);
    }
  }

  lemma {:induction false} NothingBelow(m: Flat, k: Key, q: Key)
    requires Tidy(m) && k in m && !(m[k].isDir && HasChildren(m, k)) && q in m && Under(k, q)
    ensures q == k
  {
    if q != k {
      assert TidyAt(m, q);
      NothingBelow(m, k, q.parent);
    }
  }

  /** In any tree: exactly when nothing lay in it. A file that holds entries takes them along. */
  lemma DeleteTakesOneExactly(m: Flat, at: Option<Located>)
    requires Rooted(m) && Delete(m, at).ok
    ensures Delete(m, at).tree == m - {KeyOf(at.value)} <==> !HasChildren(m, KeyOf(at.value))
  {
    var k := KeyOf(at.value);
    if HasChildren(m, k) {
      var q :| q in m && q.Child? && q.parent == k;
      NotUnderParent(q);
      assert Under(k, q) && q in m - {k} && q !in Delete(m, at).tree;
    } else {
      forall q | q in m && Under(k, q)
        ensures q == k
      {
        NothingIn(m, k, q);
      }
      assert Delete(m, at).tree == m - {k};
    }
  }

  lemma {:induction false} NothingIn(m: Flat, k: Key, q: Key)
    requires Rooted(m) && !HasChildren(m, k) && q in m && Under(k, q)
    ensures q == k
    decreases Depth(q)
  {
    if q != k {
      assert RootedAt(m, q);
      NothingIn(m, k, q.parent);
    }
  }

  // ---- directories along a path ------------------------------------------

  predicate IsDirectory(m: Flat, at: Option<Located>) {
    Present(m, at) && m[KeyOf(at.value)].isDir
  }

  /** The directories are made where the path points before it is rewritten. So the path that
      was just created leads to a directory exactly when EKA2 does not rewrite it, or one was
      already there where it does. */
  lemma CreatedResolves(m: Flat, eka2: bool, path: string)
    requires Rooted(m) && CreateDirectories(m, Locate(false, path)).ok
    ensures IsDirectory(CreateDirectories(m, Locate(false, path)).tree, Locate(eka2, path))
            <==> !(eka2 && RewrittenLength(path) != 0) || IsDirectory(m, Locate(eka2, path))
  {
    var moved := eka2 && RewrittenLength(path) != 0;
    if moved {
      RewriteMovesTop(path);
    }
    CreatedAt(m, Locate(false, path).value, Locate(eka2, path).value, moved);
  }

  lemma CreatedAt(m: Flat, at: Located, where: Located, moved: bool)
    requires Rooted(m) && Root(at.drive) in m
    requires if moved then at.names != [] && where.names != [] && Lowered(where.names[0]) != Lowered(at.names[0]) else where == at
    ensures IsDirectory(AllDirectories(m, at), Some(where)) <==> !moved || IsDirectory(m, Some(where))
  {
    if moved {
      OffChain(m, at, where);
    } else {
      ChainEnd(m, at);
    }
  }

  lemma OffChain(m: Flat, at: Located, other: Located)
    requires at.names != [] && other.names != [] && Lowered(other.names[0]) != Lowered(at.names[0])
    ensures IsDirectory(AllDirectories(m, at), Some(other)) <==> IsDirectory(m, Some(other))
  {
    NotOnChain(at, other);
  }

  /** The directory the path names is there now. */
  lemma ChainEnd(m: Flat, at: Located)
    requires Rooted(m) && Root(at.drive) in m
    ensures IsDirectory(AllDirectories(m, at), Some(at))
  {
    if at.names == [] {
      assert RootedAt(m, KeyOf(at));
      BelowDepth(Root(at.drive), at.names);
    } else {
      assert at.names[..|at.names|] == at.names;
      assert KeyOf(at) in Chain(at) && AllDirectories(m, at)[KeyOf(at)] == AsDirectory(m, at, KeyOf(at));
    }
  }

  /** A place below another directory of the root is not on the way. */
  lemma NotOnChain(at: Located, other: Located)
    requires at.names != [] && other.names != [] && Lowered(other.names[0]) != Lowered(at.names[0])
    ensures KeyOf(other) !in Chain(at)
  {
    forall n | 1 <= n <= |at.names|
      ensures Below(Root(at.drive), at.names[..n]) != KeyOf(other)
    {
      BelowInjective(at.drive, at.names[..n], other.drive, other.names);
      assert LoweredAll(at.names[..n])[0] == Lowered(at.names[0]) && LoweredAll(other.names)[0] == Lowered(other.names[0]);
    }
  }

  /** The libraries' directory of a bare drive: made, and not found again. */
  lemma CreatedElsewhere(m: Flat)
    requires m == map[Root(2) := ROOT]
    ensures var path := "c:\\system\\libs\\x";
            var out := CreateDirectories(m, Locate(false, path));
            out.ok && Locate(true, path).Some? && !Present(out.tree, Locate(true, path))
  {
    var path := "c:\\system\\libs\\x";
    assert path == ['c', ':'] + (LIBS + "\\x");
    LibsPath(path, 'c');
    LibsDrive(path);
    RewriteMovesTop(path);
    var at, other := Locate(false, path).value, Locate(true, path).value;
    NotOnChain(at, other);
    BelowDepth(Root(other.drive), other.names);
  }

  lemma LibsDrive(path: string)
    requires path == "c:\\system\\libs\\x" && Locate(false, path).Some?
    ensures Locate(false, path).value.drive == 2
  {
    assert path[0] == 'c' && path[1] == ':';
  }

  // ---- renaming ----------------------------------------------------------

  /** What resolved under the old path resolves to the same under the new one. */
  lemma RenameCarries(m: Flat, from: Located, to: Located, names: seq<string>)
    requires Replace(m, Some(from), Some(to)).ok
    ensures var r := Replace(m, Some(from), Some(to)).tree;
            var here, there := Below(KeyOf(from), names), Below(KeyOf(to), names);
            && (there in r <==> here in m)
            && (here in m ==> r[there] == if names == [] then m[here].(name := Leaf(to)) else m[here])
  {
    var f, t := KeyOf(from), KeyOf(to);
    RebaseBelow(t, f, names);
    CarriedAt(m, f, t, Below(t, names));
    BelowDepth(t, names);
  }

  /** Of two places apart from each other, the old one is empty after the move. */
  lemma RenameLeavesNothing(m: Flat, from: Located, to: Located, q: Key)
    requires Replace(m, Some(from), Some(to)).ok
    requires !Under(KeyOf(to), KeyOf(from)) && !Under(KeyOf(from), KeyOf(to)) && Under(KeyOf(from), q)
    ensures q !in Replace(m, Some(from), Some(to)).tree
  {
    CarriedAt(m, KeyOf(from), KeyOf(to), q);
    if Under(KeyOf(to), q) {
      Apart(KeyOf(from), KeyOf(to), q);
    }
  }

  lemma {:induction false} Apart(a: Key, b: Key, q: Key)
    requires Under(a, q) && Under(b, q)
    ensures Under(a, b) || Under(b, a)
  {
    if q != a && q != b {
      Apart(a, b, q.parent);
    }
  }

  /** Renaming to another spelling of the same path changes the stored name alone. */
  lemma RenameRespells(m: Flat, from: Located, to: Located)
    requires Replace(m, Some(from), Some(to)).ok && KeyOf(from) == KeyOf(to)
    ensures Replace(m, Some(from), Some(to)).tree == m[KeyOf(from) := m[KeyOf(from)].(name := Leaf(to))]
  {
    var f := KeyOf(from);
    forall q
      ensures SameAt(m, Carried(m, f, f), q)
    {
      CarriedAt(m, f, f, q);
      if Under(f, q) {
        RebaseSame(f, q);
      }
    }
    SameEverywhere(m, Carried(m, f, f));
  }

  lemma {:induction false} RebaseSame(f: Key, q: Key)
    requires Under(f, q)
    ensures Rebase(f, f, q) == q
  {
    if q != f {
      RebaseSame(f, q.parent);
    }
  }

  // ---- what one call undoes ----------------------------------------------

  /** Deleting what was just created gives the tree back. */
  lemma CreateThenDelete(m: Flat, at: Option<Located>, asDirectory: bool, mode: Mode)
    requires Rooted(m) && CanName(m, at) && !Present(m, at) && (asDirectory || mode.write)
    ensures var made := if asDirectory then CreateDirectory(m, at) else OpenFile(m, at, mode, false);
            made.ok && Delete(made.tree, at) == Outcome(true, m)
  {
    var k := KeyOf(at.value);
    KeyOfChild(at.value);
    NotUnderParent(k);
    AddThenDrop(m, k, Entry(Leaf(at.value), asDirectory, [], None));
  }

  lemma AddThenDrop(m: Flat, k: Key, e: Entry)
    requires Rooted(m) && k !in m
    ensures !HasChildren(m[k := e], k) && Without(m[k := e], k) == m
  {
    forall q | q in m
      ensures !Under(k, q) && (q.Child? ==> q.parent != k)
    {
      AbsentAbove(m, k, q);
    }
    assert k.Child? ==> k.parent != k by {
      if k.Child? {
        NotUnderParent(k);
      }
    }
  }

  lemma {:induction false} AbsentAbove(m: Flat, k: Key, q: Key)
    requires Rooted(m) && k !in m && q in m
    ensures !Under(k, q)
  {
    assert RootedAt(m, q);
    if q.Child? {
      AbsentAbove(m, k, q.parent);
    }
  }

  /** Renaming back undoes a rename to a free place, but for the stored name's spelling. */
  lemma RenameThenBack(m: Flat, from: Located, to: Located)
    requires Rooted(m) && Replace(m, Some(from), Some(to)).ok
    requires !Present(m, Some(to)) && !Under(KeyOf(from), KeyOf(to))
    ensures var there := Replace(m, Some(from), Some(to)).tree;
            Replace(there, Some(to), Some(from))
            == Outcome(true, m[KeyOf(from) := m[KeyOf(from)].(name := Leaf(from))])
  {
    var f, t := KeyOf(from), KeyOf(to);
    KeyOfChild(from);
    KeyOfChild(to);
    assert ParentKey(from) == f.parent && ParentKey(to) == t.parent;
    AbsentAbove(m, t, f.parent);
    NotUnderParent(f);
    CarriedAt(m, f, t, t);
    CarriedAt(m, f, t, f.parent);
    CarriedAt(m, f, t, t.parent);
    assert Under(f, t.parent) ==> Under(f, t);
    NotUnderParent(t);
    CarriedBack(m, f, t, m[f].(name := Leaf(to)), Leaf(from));
  }

  lemma CarriedBack(m: Flat, f: Key, t: Key, e: Entry, leaf: string)
    requires Rooted(m) && f in m && t !in m && !Under(f, t) && e == m[f].(name := e.name)
    ensures Carried(Carried(m, f, t)[t := e], t, f)[f := e.(name := leaf)] == m[f := m[f].(name := leaf)]
  {
    var again, before := Carried(Carried(m, f, t)[t := e], t, f)[f := e.(name := leaf)], m[f := m[f].(name := leaf)];
    forall q
      ensures SameAt(before, again, q)
    {
      BackAt(m, f, t, e, q);
    }
    SameEverywhere(before, again);
  }

  /** Carried to a free place and back, every place but the carried top is as it was. */
  lemma BackAt(m: Flat, f: Key, t: Key, e: Entry, q: Key)
    requires Rooted(m) && f in m && t !in m && !Under(f, t)
    ensures f in Carried(Carried(m, f, t)[t := e], t, f)
    ensures q != f ==> SameAt(m, Carried(Carried(m, f, t)[t := e], t, f), q)
  {
    CarriedAt(m, f, t, t);
    CarriedAt(Carried(m, f, t)[t := e], t, f, q);
    CarriedAt(Carried(m, f, t)[t := e], t, f, f);
    if Under(f, q) {
      RebaseInverse(f, t, q);
      CarriedAt(m, f, t, Rebase(f, t, q));
    } else {
      CarriedAt(m, f, t, q);
      if q in m {
        AbsentAbove(m, t, q);
      }
    }
  }

  // ---- writing through an opened file ------------------------------------

  /** Writing at once through a file just opened: appended, over its start, or all there is. */
  lemma OpenThenWrite(m: Flat, at: Option<Located>, mode: Mode, data: seq<Byte>)
    requires Present(m, at) && (mode.write || mode.append) && OpenFile(m, at, mode, false).ok
    ensures var k, open, before := KeyOf(at.value), OpenFile(m, at, mode, false).tree, m[KeyOf(at.value)].Content();
            var position := if mode.append then |open[k].Content()| else 0;
            var r := StoreBytes(open, k, FileBytes.Write(FileBytes.FileState(open[k].Content(), position), data).bytes);
            && r.ok
            && r.tree[k].Content() == if mode.append then before + data
                                      else if mode.read && |data| < |before| then data + before[|data|..]
                                      else data
  {
    if mode.append || mode.read {
      OverwriteEnds(m[KeyOf(at.value)].Content(), data);
    } else {
      OverwriteEnds([], data);
    }
  }

  lemma OverwriteEnds(before: seq<Byte>, data: seq<Byte>)
    ensures FileBytes.Overwrite(before, |before|, data) == before + data
    ensures FileBytes.Overwrite(before, 0, data) == if |data| < |before| then data + before[|data|..] else data
  {
  }

  // ---- package files -----------------------------------------------------

  /** Opening and storing, in any order, never change a file of a package. */
  lemma {:induction false} PackageFileStays(m: Flat, ops: seq<Op>, k: Key)
    requires k in m && m[k].fixed.Some? && !m[k].isDir
    requires forall i | 0 <= i < |ops| :: ops[i].Open? || ops[i].Store?
    ensures k in Run(m, ops) && Run(m, ops)[k] == m[k]
    decreases |ops|
  {
    if ops != [] {
      var r := Step(m, ops[0]).tree;
      assert k in r && r[k] == m[k];
      PackageFileStays(r, ops[1..], k);
    }
  }
}

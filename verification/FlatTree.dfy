/** What the filesystem's tree means: one flat map from the place of an entry to the
    entry. Every operation is stated here on the map, without walking anything. */
module FlatTree {
  import opened Options
  import opened Paths
  import opened Words

  // ---- places ------------------------------------------------------------

  /** Where an entry is: a drive's root, or a lowercased name below another place. */
  datatype Key = Root(drive: nat) | Child(parent: Key, name: string)

  function Depth(k: Key): nat {
    match k
    case Root(_) => 0
    case Child(p, _) => 1 + Depth(p)
  }

  /** `k` is `top` or lies below it. */
  predicate Under(top: Key, k: Key) {
    k == top || (k.Child? && Under(top, k.parent))
  }

  function Below(k: Key, names: seq<string>): Key
    decreases |names|
  {
    if names == [] then k
    else Child(Below(k, names[..|names| - 1]), Lowered(names[|names| - 1]))
  }

  function KeyOf(at: Located): Key {
    Below(Root(at.drive), at.names)
  }

  /** The place `k` has once `from` is carried to `to` with everything below it. */
  function Rebase(from: Key, to: Key, k: Key): Key
    requires Under(from, k)
  {
    if k == from then to else Child(Rebase(from, to, k.parent), k.name)
  }

  lemma {:induction false} UnderDepth(top: Key, k: Key)
    requires Under(top, k)
    ensures Depth(top) <= Depth(k)
    ensures Depth(top) == Depth(k) ==> top == k
  {
    if k != top {
      UnderDepth(top, k.parent);
    }
  }

  lemma {:induction false} UnderTransitive(a: Key, b: Key, c: Key)
    requires Under(a, b) && Under(b, c)
    ensures Under(a, c)
  {
    if b != c {
      UnderTransitive(a, b, c.parent);
    }
  }

  /** Carrying there and back loses nothing. */
  lemma {:induction false} RebaseInverse(from: Key, to: Key, k: Key)
    requires Under(from, k)
    ensures Under(to, Rebase(from, to, k))
    ensures Rebase(to, from, Rebase(from, to, k)) == k
    ensures Rebase(from, to, k) == to ==> k == from
  {
    if k != from {
      RebaseInverse(from, to, k.parent);
      UnderDepth(to, Rebase(from, to, k.parent));
    }
  }

  lemma {:induction false} UnderBelow(k: Key, names: seq<string>)
    ensures Under(k, Below(k, names))
    decreases |names|
  {
    if names != [] {
      UnderBelow(k, names[..|names| - 1]);
    }
  }

  /** The same names lead from `to` to where the carried place went. */
  lemma {:induction false} RebaseBelow(from: Key, to: Key, names: seq<string>)
    ensures Under(from, Below(from, names))
    ensures Rebase(from, to, Below(from, names)) == Below(to, names)
    decreases |names|
  {
    UnderBelow(from, names);
    if names != [] {
      RebaseBelow(from, to, names[..|names| - 1]);
      UnderBelow(from, names[..|names| - 1]);
      UnderDepth(from, Below(from, names[..|names| - 1]));
    }
  }

  lemma {:induction false} BelowDepth(k: Key, names: seq<string>)
    ensures Depth(Below(k, names)) == Depth(k) + |names|
    decreases |names|
  {
    if names != [] {
      BelowDepth(k, names[..|names| - 1]);
    }
  }

  /** Places are the same exactly when drive and lowercased names are. */
  lemma {:induction false} BelowInjective(d: nat, a: seq<string>, e: nat, b: seq<string>)
    ensures Below(Root(d), a) == Below(Root(e), b) <==> d == e && LoweredAll(a) == LoweredAll(b)
    decreases |a|
  {
    BelowDepth(Root(d), a);
    BelowDepth(Root(e), b);
    if |a| == |b| && a != [] {
      var n := |a| - 1;
      BelowInjective(d, a[..n], e, b[..n]);
      assert LoweredAll(a) == LoweredAll(a[..n]) + [Lowered(a[n])];
      assert LoweredAll(b) == LoweredAll(b[..n]) + [Lowered(b[n])];
    }
  }

  /** Two spellings of a path are one place in the tree. */
  lemma SamePlaceSameKey(p: Option<Located>, q: Option<Located>)
    requires p.Some? && q.Some?
    ensures SamePlace(p, q) <==> KeyOf(p.value) == KeyOf(q.value)
  {
    BelowInjective(p.value.drive, p.value.names, q.value.drive, q.value.names);
  }

  // ---- entries -----------------------------------------------------------

  /** A run of bytes inside a package held whole: nothing writes through it. */
  datatype Slice = Slice(buffer: seq<Byte>, start: nat, size: nat) {
    predicate Inside() {
      start + size <= |buffer|
    }

    function Bytes(): seq<Byte>
      requires Inside()
    {
      buffer[start..start + size]
    }
  }

  datatype Entry = Entry(name: string, isDir: bool, bytes: seq<Byte>, fixed: Option<Slice>) {
    predicate Sound() {
      fixed.Some? ==> fixed.value.Inside()
    }

    /** What the entry reads as: the package's bytes, or the machine's. */
    function Content(): seq<Byte> {
      if fixed.Some? && fixed.value.Inside() then fixed.value.Bytes() else bytes
    }
  }

  const ROOT: Entry := Entry("", true, [], None)

  type Flat = map<Key, Entry>

  /** An entry lies in something, under the lowercased form of its name; a root is bare. */
  predicate RootedAt(m: Flat, k: Key) {
    k in m ==>
      && m[k].Sound()
      && match k
         case Root(_) => m[k] == ROOT
         case Child(parent, name) => parent in m && Lowered(m[k].name) == name && IsName(m[k].name)
  }

  ghost predicate Rooted(m: Flat) {
    forall k {:trigger RootedAt(m, k)} :: RootedAt(m, k)
  }

  predicate HasChildren(m: Flat, k: Key) {
    exists q | q in m :: q.Child? && q.parent == k
  }

  // ---- carrying and dropping subtrees ------------------------------------

  function Without<V>(m: map<Key, V>, top: Key): (r: map<Key, V>)
    ensures forall k :: k in r <==> k in m && !Under(top, k)
    ensures forall k | k in r :: r[k] == m[k]
  {
    map k | k in m && !Under(top, k) :: m[k]
  }

  /** The map once everything under `from` is carried to `to`, over what stood there. */
  ghost function Carried<V>(m: map<Key, V>, from: Key, to: Key): map<Key, V> {
    (map q | q in m && !Under(from, q) && !Under(to, q) :: m[q])
    + (map q | q in Landing(m, from, to) :: LandedFrom(m, from, to, q); m[Rebase(to, from, q)])
  }

  ghost function Landing<V>(m: map<Key, V>, from: Key, to: Key): set<Key> {
    set k | k in m && Under(from, k) :: Rebase(from, to, k)
  }

  lemma LandedFrom<V>(m: map<Key, V>, from: Key, to: Key, q: Key)
    ensures q in Landing(m, from, to) <==> Under(to, q) && Rebase(to, from, q) in m
  {
    if q in Landing(m, from, to) {
      var k :| k in m && Under(from, k) && Rebase(from, to, k) == q;
      RebaseInverse(from, to, k);
    }
    if Under(to, q) && Rebase(to, from, q) in m {
      RebaseInverse(to, from, q);
      assert Rebase(from, to, Rebase(to, from, q)) in Landing(m, from, to);
    }
  }

  /** What stands at `q` after the move, and where it stood before. */
  lemma CarriedAt<V>(m: map<Key, V>, from: Key, to: Key, q: Key)
    ensures Under(to, q) ==> (q in Carried(m, from, to) <==> Rebase(to, from, q) in m)
    ensures !Under(to, q) ==> (q in Carried(m, from, to) <==> q in m && !Under(from, q))
    ensures q in Carried(m, from, to) ==>
              Carried(m, from, to)[q] == if Under(to, q) then m[Rebase(to, from, q)] else m[q]
  {
    LandedFrom(m, from, to, q);
  }

  /** Outside the moved subtree what stays keeps what it lies in. */
  lemma CarriedParent<V>(m: map<Key, V>, from: Key, to: Key, p: Key, c: string)
    requires Child(p, c) in Carried(m, from, to) && !Under(to, Child(p, c))
    ensures !Under(to, p) && Child(p, c) in m && (p in m ==> p in Carried(m, from, to))
  {
    CarriedAt(m, from, to, Child(p, c));
    CarriedAt(m, from, to, p);
    assert Under(from, p) ==> Under(from, Child(p, c));
  }

  // ---- the operations, on the flat map -----------------------------------

  function ParentKey(at: Located): Key
    requires at.names != []
  {
    Below(Root(at.drive), at.names[..|at.names| - 1])
  }

  function Leaf(at: Located): string
    requires at.names != []
  {
    at.names[|at.names| - 1]
  }

  /** The place can be named: it is not a root and what it would lie in is there. */
  predicate CanName(m: Flat, at: Option<Located>) {
    at.Some? && at.value.names != [] && ParentKey(at.value) in m
  }

  predicate Present(m: Flat, at: Option<Located>) {
    at.Some? && KeyOf(at.value) in m
  }

  /** What a call answers and what it leaves. */
  datatype Outcome = Outcome(ok: bool, tree: Flat)

  function CreateDirectory(m: Flat, at: Option<Located>): Outcome {
    if !CanName(m, at) then Outcome(false, m)
    else
      var k := KeyOf(at.value);
      var before := if k in m then m[k] else Entry("", false, [], None);
      Outcome(true, m[k := before.(name := Leaf(at.value), isDir := true)])
  }

  lemma BelowStep(k: Key, names: seq<string>, i: nat)
    requires i < |names|
    ensures Below(k, names[..i + 1]) == Child(Below(k, names[..i]), Lowered(names[i]))
  {
    assert names[..i + 1][..i] == names[..i];
  }

  /** Every place on the way down to `at`, the drive's root left out. */
  function Chain(at: Located): set<Key> {
    set n | 1 <= n <= |at.names| :: Below(Root(at.drive), at.names[..n])
  }

  function AsDirectory(m: Flat, at: Located, k: Key): Entry
    requires k in Chain(at)
  {
    BelowDepthOnChain(at, k);
    if k in m then m[k].(isDir := true) else Entry(at.names[Depth(k) - 1], true, [], None)
  }

  lemma BelowDepthOnChain(at: Located, k: Key)
    requires k in Chain(at)
    ensures 1 <= Depth(k) <= |at.names| && k == Below(Root(at.drive), at.names[..Depth(k)])
  {
    var n :| 1 <= n <= |at.names| && k == Below(Root(at.drive), at.names[..n]);
    BelowDepth(Root(at.drive), at.names[..n]);
  }

  function AllDirectories(m: Flat, at: Located): Flat {
    m + map k | k in Chain(at) :: AsDirectory(m, at, k)
  }

  function CreateDirectories(m: Flat, at: Option<Located>): Outcome {
    if at.None? || Root(at.value.drive) !in m then Outcome(false, m)
    else Outcome(true, AllDirectories(m, at.value))
  }

  function Delete(m: Flat, at: Option<Located>): Outcome {
    if !CanName(m, at) || !Present(m, at) then Outcome(false, m)
    else
      var k := KeyOf(at.value);
      if m[k].isDir && HasChildren(m, k) then Outcome(false, m)
      else Outcome(true, Without(m, k))
  }

  /** Renaming carries the subtree over whatever stood at the new place and gives it its new name. */
  ghost function Replace(m: Flat, from: Option<Located>, to: Option<Located>): Outcome {
    if !CanName(m, from) || !Present(m, from) || !CanName(m, to) then Outcome(false, m)
    else
      var f, t := KeyOf(from.value), KeyOf(to.value);
      Outcome(true, Carried(m, f, t)[t := m[f].(name := Leaf(to.value))])
  }

  lemma ReplaceDone(m: Flat, from: Option<Located>, to: Option<Located>)
    requires CanName(m, from) && Present(m, from) && CanName(m, to)
    ensures var f, t := KeyOf(from.value), KeyOf(to.value);
            Replace(m, from, to) == Outcome(true, Carried(m, f, t)[t := m[f].(name := Leaf(to.value))])
  {
  }

  datatype Mode = Mode(read: bool, write: bool, append: bool)

  /** Whether an existing entry can be opened, and whether opening empties it. */
  predicate Opens(e: Entry, mode: Mode) {
    !e.isDir && !(e.fixed.Some? && (mode.write || mode.append))
  }

  predicate Empties(mode: Mode) {
    mode.write && !mode.read && !mode.append
  }

  function OpenFile(m: Flat, at: Option<Located>, mode: Mode, isProtected: bool): Outcome {
    if isProtected && (mode.write || mode.append) then Outcome(false, m)
    else if Present(m, at) then
      var k := KeyOf(at.value);
      if !Opens(m[k], mode) then Outcome(false, m)
      else Outcome(true, if Empties(mode) then m[k := m[k].(bytes := [])] else m)
    else if mode.write && CanName(m, at) then
      Outcome(true, m[KeyOf(at.value) := Entry(Leaf(at.value), false, [], None)])
    else Outcome(false, m)
  }

  function Unmount(m: Flat, drive: nat): Outcome {
    if Root(drive) !in m then Outcome(false, m) else Outcome(true, Without(m, Root(drive)))
  }

  function MountEmpty(m: Flat, drive: nat): Outcome {
    if Root(drive) in m then Outcome(false, m) else Outcome(true, m[Root(drive) := ROOT])
  }

  // ---- the chain, one name at a time -------------------------------------

  lemma ChainStep(at: Located, n: nat)
    requires n < |at.names|
    ensures var k := Below(Root(at.drive), at.names[..n + 1]);
            && Chain(at.(names := at.names[..n + 1])) == Chain(at.(names := at.names[..n])) + {k}
            && k !in Chain(at.(names := at.names[..n])) && Depth(k) == n + 1
  {
    var longer, shorter := at.(names := at.names[..n + 1]), at.(names := at.names[..n]);
    forall j | 1 <= j <= n + 1
      ensures longer.names[..j] == at.names[..j] && (j <= n ==> shorter.names[..j] == at.names[..j])
    {
    }
    BelowDepth(Root(at.drive), at.names[..n + 1]);
    var k := Below(Root(at.drive), at.names[..n + 1]);
    if k in Chain(shorter) {
      BelowDepthOnChain(shorter, k);
    }
    forall q
      ensures q in Chain(longer) <==> q in Chain(shorter) || q == k
    {
      if q in Chain(longer) {
        BelowDepthOnChain(longer, q);
        assert q == Below(Root(at.drive), at.names[..Depth(q)]);
        assert Depth(q) <= n ==> shorter.names[..Depth(q)] == at.names[..Depth(q)];
      }
      if q in Chain(shorter) {
        BelowDepthOnChain(shorter, q);
        assert longer.names[..Depth(q)] == at.names[..Depth(q)] == shorter.names[..Depth(q)];
      }
      if q == k {
        assert longer.names[..n + 1] == at.names[..n + 1];
      }
    }
  }

  /** Only the names matter, so a longer way down treats the shorter one's places alike. */
  lemma AsDirectoryOnLonger(m: Flat, at: Located, n: nat, k: Key)
    requires n < |at.names|
    requires k in Chain(at.(names := at.names[..n])) && k in Chain(at.(names := at.names[..n + 1]))
    ensures AsDirectory(m, at.(names := at.names[..n + 1]), k) == AsDirectory(m, at.(names := at.names[..n]), k)
  {
    BelowDepthOnChain(at.(names := at.names[..n]), k);
    assert at.names[..n][Depth(k) - 1] == at.names[..n + 1][Depth(k) - 1];
  }

  /** One more name on the way down makes or converts one more entry. */
  lemma AllDirectoriesStep(m: Flat, at: Located, n: nat, k: Key)
    requires n < |at.names| && k == Below(Root(at.drive), at.names[..n + 1])
    ensures var before := AllDirectories(m, at.(names := at.names[..n]));
            && (k in before <==> k in m) && (k in m ==> before[k] == m[k])
            && AllDirectories(m, at.(names := at.names[..n + 1]))
               == before[k := if k in before then before[k].(isDir := true) else Entry(at.names[n], true, [], None)]
  {
    ChainStep(at, n);
    var longer, shorter := at.(names := at.names[..n + 1]), at.(names := at.names[..n]);
    var before, after := AllDirectories(m, shorter), AllDirectories(m, longer);
    assert after[k] == AsDirectory(m, longer, k);
    forall q | q in Chain(shorter)
      ensures after[q] == before[q]
    {
      AsDirectoryOnLonger(m, at, n, q);
      assert after[q] == AsDirectory(m, longer, q);
    }
    SameButOne(before, after, k);
  }

  lemma SameButOne(before: Flat, after: Flat, k: Key)
    requires after.Keys == before.Keys + {k}
    requires forall q | q in before && q != k :: after[q] == before[q]
    ensures after == before[k := after[k]]
  {
  }

  /** The tree once the first `n` names of the way down are directories. */
  predicate DirectoriesTo(m: Flat, at: Located, n: nat, t: Flat)
    requires n <= |at.names|
  {
    t == AllDirectories(m, at.(names := at.names[..n]))
  }

  lemma DirectoriesOnward(m: Flat, at: Located, n: nat, t: Flat, next: Flat, k: Key)
    requires n < |at.names| && k == Below(Root(at.drive), at.names[..n + 1]) && DirectoriesTo(m, at, n, t)
    requires next == t[k := if k in t then t[k].(isDir := true) else Entry(at.names[n], true, [], None)]
    ensures DirectoriesTo(m, at, n + 1, next)
  {
    AllDirectoriesStep(m, at, n, k);
  }
}

/** What each operation on the tree answers and leaves, told of the entries at places and not of
    the operation's own steps. */
module OperationLaws {
  import opened Options
  import opened Paths
  import opened FlatTree

  /** The place of the first `n` names on the way to a location. */
  function Way(at: Located, n: nat): Key
    requires n <= |at.names|
  {
    KeyOf(Located(at.drive, at.names[..n]))
  }

  /** The last name can be held by something: there is one, and what it would lie in is there. */
  predicate HasParent(m: Flat, at: Option<Located>) {
    at.Some? && at.value.names != [] && Way(at.value, |at.value.names| - 1) in m
  }

  predicate IsThere(m: Flat, at: Option<Located>) {
    at.Some? && KeyOf(at.value) in m
  }

  /** Elsewhere everything is as it was. */
  ghost predicate SameBut(m: Flat, t: Flat, k: Key) {
    forall q | q != k :: (q in t <==> q in m) && (q in m ==> t[q] == m[q])
  }

  // ---- directories -------------------------------------------------------

  /** What is created is a directory under its name as spelled: a new one is empty, an entry
      that was there keeps its bytes, its slice and what lies below it. */
  lemma CreatesDirectory(m: Flat, at: Option<Located>)
    ensures CreateDirectory(m, at).ok <==> HasParent(m, at)
    ensures !CreateDirectory(m, at).ok ==> CreateDirectory(m, at).tree == m
    ensures CreateDirectory(m, at).ok ==>
              var t, k := CreateDirectory(m, at).tree, KeyOf(at.value);
              && k in t && t[k].isDir && t[k].name == at.value.names[|at.value.names| - 1]
              && (k in m ==> t[k].bytes == m[k].bytes && t[k].fixed == m[k].fixed)
              && (k !in m ==> t[k].bytes == [] && t[k].fixed.None?)
              && SameBut(m, t, k)
  {
  }

  /** Every place on the way is a directory then. One that was there keeps its name, bytes and
      slice; a new one is empty, under its name as spelled. Nothing else changes. */
  lemma CreatesTheWay(m: Flat, at: Option<Located>, n: nat)
    requires at.Some? ==> n <= |at.value.names|
    ensures CreateDirectories(m, at).ok <==> at.Some? && Root(at.value.drive) in m
    ensures !CreateDirectories(m, at).ok ==> CreateDirectories(m, at).tree == m
    ensures CreateDirectories(m, at).ok && n > 0 ==>
              var t, k := CreateDirectories(m, at).tree, Way(at.value, n);
              && k in t && t[k].isDir
              && (k in m ==> t[k] == m[k].(isDir := true))
              && (k !in m ==> t[k] == Entry(at.value.names[n - 1], true, [], None))
  {
    if CreateDirectories(m, at).ok && n > 0 {
      MadeOnTheWay(m, at.value, n, Way(at.value, n));
    }
  }

  lemma MadeOnTheWay(m: Flat, at: Located, n: nat, k: Key)
    requires 0 < n <= |at.names| && k == Way(at, n)
    ensures k in AllDirectories(m, at)
    ensures AllDirectories(m, at)[k] == if k in m then m[k].(isDir := true) else Entry(at.names[n - 1], true, [], None)
  {
    assert k in Chain(at);
    DepthOfWay(at, n);
    assert AllDirectories(m, at)[k] == AsDirectory(m, at, k);
  }

  lemma DepthOfWay(at: Located, n: nat)
    requires n <= |at.names|
    ensures Depth(Way(at, n)) == n
  {
    BelowDepth(Root(at.drive), at.names[..n]);
  }

  lemma CreatesOnlyTheWay(m: Flat, at: Option<Located>, q: Key)
    requires at.Some? ==> forall n | 0 < n <= |at.value.names| :: q != Way(at.value, n)
    ensures var t := CreateDirectories(m, at).tree; (q in t <==> q in m) && (q in m ==> t[q] == m[q])
  {
    if at.Some? {
      assert forall n | 1 <= n <= |at.value.names| :: Below(Root(at.value.drive), at.value.names[..n]) == Way(at.value, n);
    }
  }

  // ---- deleting and renaming ---------------------------------------------

  /** Something lies directly in the place. */
  ghost predicate HoldsSome(m: Flat, k: Key) {
    exists name :: Child(k, name) in m
  }

  lemma HoldsExactly(m: Flat, k: Key)
    ensures HasChildren(m, k) <==> HoldsSome(m, k)
  {
    if HasChildren(m, k) {
      var q :| q in m && q.Child? && q.parent == k;
      assert Child(k, q.name) in m;
    }
    if HoldsSome(m, k) {
      var name :| Child(k, name) in m;
      assert Child(k, name).Child? && Child(k, name).parent == k;
    }
  }

  /** What has a name and is there goes, unless it is a directory that holds something: the entry
      and all below it, and nothing else. */
  lemma DeletesExactly(m: Flat, at: Option<Located>, q: Key)
    requires Rooted(m)
    ensures Delete(m, at).ok <==>
              at.Some? && at.value.names != [] && IsThere(m, at)
              && !(m[KeyOf(at.value)].isDir && HoldsSome(m, KeyOf(at.value)))
    ensures !Delete(m, at).ok ==> Delete(m, at).tree == m
    ensures Delete(m, at).ok ==>
              var t := Delete(m, at).tree;
              if Under(KeyOf(at.value), q) then q !in t else (q in t <==> q in m) && (q in m ==> t[q] == m[q])
  {
    if at.Some? && at.value.names != [] && IsThere(m, at) {
      assert RootedAt(m, KeyOf(at.value));
      HoldsExactly(m, KeyOf(at.value));
    }
  }

  /** A rename is done exactly when the old path has a name and is there and the new one has a
      name and something to lie in, whatever stands at the new path. */
  lemma RenamesExactly(m: Flat, from: Option<Located>, to: Option<Located>)
    requires Rooted(m)
    ensures Replace(m, from, to).ok <==>
              from.Some? && from.value.names != [] && IsThere(m, from) && HasParent(m, to)
    ensures !Replace(m, from, to).ok ==> Replace(m, from, to).tree == m
    ensures Replace(m, from, to).ok ==>
              var t, k := Replace(m, from, to).tree, KeyOf(to.value);
              k in t && t[k] == m[KeyOf(from.value)].(name := to.value.names[|to.value.names| - 1])
  {
    if from.Some? && from.value.names != [] && IsThere(m, from) {
      assert RootedAt(m, KeyOf(from.value));
    }
  }

  // ---- opening -----------------------------------------------------------

  predicate MayWrite(mode: Mode) {
    mode.write || mode.append
  }

  /** What is there is opened unless it is a directory, or would be written and is a package's or
      on a protected drive. What is not there is made when the mode writes, the drive is not
      protected and there is something for it to lie in. */
  lemma OpensExactly(m: Flat, at: Option<Located>, mode: Mode, isProtected: bool)
    ensures IsThere(m, at) ==>
              (OpenFile(m, at, mode, isProtected).ok <==>
               var e := m[KeyOf(at.value)]; !e.isDir && (MayWrite(mode) ==> e.fixed.None? && !isProtected))
    ensures !IsThere(m, at) ==>
              (OpenFile(m, at, mode, isProtected).ok <==> mode.write && !isProtected && HasParent(m, at))
    ensures !OpenFile(m, at, mode, isProtected).ok ==> OpenFile(m, at, mode, isProtected).tree == m
  {
  }

  /** Opening for writing alone empties a file, any other opening leaves it; a new file is empty,
      under its name as spelled. Nothing else changes. */
  lemma OpeningLeaves(m: Flat, at: Option<Located>, mode: Mode, isProtected: bool)
    requires OpenFile(m, at, mode, isProtected).ok
    ensures var t, k := OpenFile(m, at, mode, isProtected).tree, KeyOf(at.value);
            && k in t && SameBut(m, t, k)
            && (k in m ==> t[k] == if mode == Mode(false, true, false) then m[k].(bytes := []) else m[k])
            && (k !in m ==> t[k] == Entry(at.value.names[|at.value.names| - 1], false, [], None))
  {
  }

  // ---- drives ------------------------------------------------------------

  function DriveOf(k: Key): nat {
    match k
    case Root(drive) => drive
    case Child(parent, _) => DriveOf(parent)
  }

  lemma {:induction false} UnderRootExactly(drive: nat, k: Key)
    ensures Under(Root(drive), k) <==> DriveOf(k) == drive
  {
    if k.Child? {
      UnderRootExactly(drive, k.parent);
    }
  }

  /** A drive is mounted once: its root is there then, a bare directory, and nothing else changes. */
  lemma MountsExactly(m: Flat, drive: nat)
    ensures MountEmpty(m, drive).ok <==> Root(drive) !in m
    ensures !MountEmpty(m, drive).ok ==> MountEmpty(m, drive).tree == m
    ensures MountEmpty(m, drive).ok ==>
              var t := MountEmpty(m, drive).tree;
              Root(drive) in t && t[Root(drive)] == Entry("", true, [], None) && SameBut(m, t, Root(drive))
  {
  }

  /** Unmounting takes everything on the drive and nothing else. */
  lemma UnmountsExactly(m: Flat, drive: nat, q: Key)
    ensures Unmount(m, drive).ok <==> Root(drive) in m
    ensures !Unmount(m, drive).ok ==> Unmount(m, drive).tree == m
    ensures Unmount(m, drive).ok ==>
              var t := Unmount(m, drive).tree;
              if DriveOf(q) == drive then q !in t else (q in t <==> q in m) && (q in m ==> t[q] == m[q])
  {
    UnderRootExactly(drive, q);
  }
}

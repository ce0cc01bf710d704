/** The patch script: the series is tried on a scratch copy of HEAD's files, and the working
    tree is either pristine and gets it, or must be exactly what it leaves. */
module PatchSeries {
  import opened Options

  type File = string
  type Content = seq<char>
  type Tree = map<File, Content>

  /** A patch applies to a tree or it does not. */
  type Patch = Tree -> Option<Tree>

  /** Two trees have the same of these files, with the same content. */
  ghost predicate Agree(t: Tree, u: Tree, files: seq<File>) {
    forall f | f in files :: SameFile(t, u, f)
  }

  predicate SameFile(t: Tree, u: Tree, f: File) {
    (f in t <==> f in u) && (f in t ==> t[f] == u[f])
  }

  ghost predicate AgreeElsewhere(t: Tree, u: Tree, files: seq<File>) {
    forall f | f !in files :: SameFile(t, u, f)
  }

  /** A patch reads and writes only the touched files. */
  ghost predicate Local(p: Patch, touched: seq<File>) {
    && (forall t: Tree, u: Tree {:trigger p(t), p(u)} | Agree(t, u, touched) ::
          (p(t).Some? <==> p(u).Some?) && (p(t).Some? ==> Agree(p(t).value, p(u).value, touched)))
    && (forall t: Tree {:trigger p(t)} | p(t).Some? :: AgreeElsewhere(t, p(t).value, touched))
  }

  ghost predicate AllLocal(patches: seq<Patch>, touched: seq<File>) {
    forall i | 0 <= i < |patches| :: Local(patches[i], touched)
  }

  /** The whole series, in order; none when some patch does not apply. */
  function Series(patches: seq<Patch>, t: Tree): Option<Tree> {
    if patches == [] then Some(t)
    else match patches[0](t)
         case None => None
         case Some(next) => Series(patches[1..], next)
  }

  /** The touched files as HEAD has them. */
  function HeadFiles(head: Tree, touched: seq<File>): Tree {
    map f | f in touched && f in head :: head[f]
  }

  // ---- the series is local too -------------------------------------------

  lemma AgreeSteps(t: Tree, u: Tree, v: Tree, files: seq<File>)
    requires AgreeElsewhere(t, u, files) && AgreeElsewhere(u, v, files)
    ensures AgreeElsewhere(t, v, files)
  {
    forall f | f !in files
      ensures SameFile(t, v, f)
    {
      assert SameFile(t, u, f) && SameFile(u, v, f);
    }
  }

  lemma {:induction false} SeriesIsLocal(patches: seq<Patch>, t: Tree, u: Tree, touched: seq<File>)
    requires AllLocal(patches, touched) && Agree(t, u, touched)
    ensures Series(patches, t).Some? <==> Series(patches, u).Some?
    ensures Series(patches, t).Some? ==>
              Agree(Series(patches, t).value, Series(patches, u).value, touched)
              && AgreeElsewhere(t, Series(patches, t).value, touched)
    decreases |patches|
  {
    if patches != [] {
      assert Local(patches[0], touched);
      if patches[0](t).Some? {
        assert patches[0](u).Some?;
        var t', u' := patches[0](t).value, patches[0](u).value;
        assert AllLocal(patches[1..], touched) by {
          assert forall i {:trigger patches[1..][i]} | 0 <= i < |patches[1..]| :: patches[1..][i] == patches[i + 1];
        }
        SeriesIsLocal(patches[1..], t', u', touched);
        if Series(patches, t).Some? {
          AgreeSteps(t, t', Series(patches, t).value, touched);
        }
      }
    }
  }

  // ---- what the script comes to ------------------------------------------

  /** Whether the script succeeds on a tree. */
  ghost predicate Succeeds(head: Tree, t: Tree, patches: seq<Patch>, touched: seq<File>) {
    var final := Series(patches, HeadFiles(head, touched));
    final.Some? && (Agree(t, HeadFiles(head, touched), touched) || Agree(t, final.value, touched))
  }

  /** What the script leaves of a tree. */
  ghost predicate Leaves(head: Tree, t: Tree, after: Tree, patches: seq<Patch>, touched: seq<File>) {
    if Succeeds(head, t, patches, touched) then
      && Agree(after, Series(patches, HeadFiles(head, touched)).value, touched)
      && AgreeElsewhere(t, after, touched)
    else after == t
  }

  class WorkingTree {
    var files: Tree

    constructor (files: Tree)
      ensures this.files == files
    {
      this.files := files;
    }

    /** All or nothing: the touched files become, or already are, exactly what the series
        makes of HEAD's, or nothing changes and the script fails. */
    method ApplyPatches(head: Tree, patches: seq<Patch>, touched: seq<File>) returns (ok: bool)
      requires AllLocal(patches, touched)
      modifies this
      ensures ok <==> Succeeds(head, old(files), patches, touched)
      ensures Leaves(head, old(files), files, patches, touched)
      ensures !Agree(old(files), HeadFiles(head, touched), touched) ==> files == old(files)
    {
      var scratch := ScratchCopy(head, touched);
      ghost var start := scratch;
      var pristine := SameFiles(scratch, touched);
      for i := 0 to |patches|
        invariant Series(patches[i..], scratch) == Series(patches, start)
      {
        assert patches[i..][0] == patches[i] && patches[i..][1..] == patches[i + 1..];
        match patches[i](scratch) {
          case None => return false;
          case Some(next) => scratch := next;
        }
      }
      assert Series(patches, start) == Some(scratch);
      if pristine {
        SeriesIsLocal(patches, files, start, touched);
        ApplyAll(patches);
        return true;
      }
      ok := SameFiles(scratch, touched);
      assert AgreeElsewhere(files, files, touched);
    }

    /** Applies the patches to the tree itself, which must not stop half way. */
    method ApplyAll(patches: seq<Patch>)
      requires Series(patches, files).Some?
      modifies this
      ensures files == Series(patches, old(files)).value
    {
      for i := 0 to |patches|
        invariant Series(patches[i..], files) == Series(patches, old(files))
      {
        assert patches[i..][0] == patches[i] && patches[i..][1..] == patches[i + 1..];
        files := patches[i](files).value;
      }
    }

    /** Compares the touched files with a scratch copy, up to the first that differs. */
    method SameFiles(scratch: Tree, touched: seq<File>) returns (same: bool)
      ensures same <==> Agree(files, scratch, touched)
    {
      for i := 0 to |touched|
        invariant forall j | 0 <= j < i :: SameFile(files, scratch, touched[j])
      {
        var f := touched[i];
        if f in scratch {
          if f !in files || files[f] != scratch[f] {
            assert !SameFile(files, scratch, f);
            return false;
          }
        } else if f in files {
          assert !SameFile(files, scratch, f);
          return false;
        }
      }
      return true;
    }
  }

  method ScratchCopy(head: Tree, touched: seq<File>) returns (scratch: Tree)
    ensures scratch == HeadFiles(head, touched)
    ensures forall f :: f in scratch <==> f in touched && f in head
    ensures forall f | f in scratch :: scratch[f] == head[f]
  {
    scratch := map[];
    for i := 0 to |touched|
      invariant scratch == HeadFiles(head, touched[..i])
    {
      var f := touched[i];
      assert forall g :: g in touched[..i + 1] <==> g in touched[..i] || g == f;
      if f in head {
        scratch := scratch[f := head[f]];
      }
    }
    assert touched[..|touched|] == touched;
  }

  /** The patches are applied in their order: those of the front first, those of the back to what
      they leave. */
  lemma {:induction false} SeriesInOrder(front: seq<Patch>, back: seq<Patch>, t: Tree)
    ensures Series(front + back, t) == match Series(front, t) case None => None case Some(u) => Series(back, u)
    decreases |front|
  {
    if front == [] {
      assert front + back == back;
    } else {
      assert (front + back)[1..] == front[1..] + back && (front + back)[0] == front[0];
      if front[0](t).Some? {
        SeriesInOrder(front[1..], back, front[0](t).value);
      }
    }
  }

  /** On a tree that has the touched files as HEAD does, the script succeeds exactly when the series
      applies to that tree, and leaves what it makes of it. */
  lemma FirstRunApplies(head: Tree, t: Tree, after: Tree, patches: seq<Patch>, touched: seq<File>)
    requires AllLocal(patches, touched) && Agree(t, head, touched) && Leaves(head, t, after, patches, touched)
    ensures Succeeds(head, t, patches, touched) <==> Series(patches, t).Some?
    ensures after == if Series(patches, t).Some? then Series(patches, t).value else t
  {
    var start := HeadFiles(head, touched);
    forall f | f in touched
      ensures SameFile(t, start, f)
    {
      assert SameFile(t, head, f);
    }
    SeriesIsLocal(patches, t, start, touched);
    if Series(patches, t).Some? {
      var final := Series(patches, t).value;
      forall f
        ensures SameFile(after, final, f)
      {
        if f in touched {
          assert SameFile(after, Series(patches, start).value, f) && SameFile(final, Series(patches, start).value, f);
        } else {
          assert SameFile(t, after, f) && SameFile(t, final, f);
        }
      }
      SameTree(after, final);
    }
  }

  /** A second run after a success succeeds and changes nothing. */
  lemma SecondRunChangesNothing(head: Tree, t: Tree, after: Tree, again: Tree, patches: seq<Patch>, touched: seq<File>)
    requires Succeeds(head, t, patches, touched) && Leaves(head, t, after, patches, touched)
    requires Leaves(head, after, again, patches, touched)
    ensures Succeeds(head, after, patches, touched) && again == after
  {
    var final := Series(patches, HeadFiles(head, touched)).value;
    forall f
      ensures SameFile(after, again, f)
    {
      if f in touched {
        assert SameFile(after, final, f) && SameFile(again, final, f);
      } else {
        assert SameFile(after, again, f);
      }
    }
    SameTree(after, again);
  }

  lemma SameTree(t: Tree, u: Tree)
    requires forall f :: SameFile(t, u, f)
    ensures t == u
  {
    assert forall f :: f in t <==> f in u by {
      forall f
        ensures f in t <==> f in u
      {
        assert SameFile(t, u, f);
      }
    }
    assert forall f | f in t :: SameFile(t, u, f);
  }
}

/** Which packages leave a tree in which a file holds entries. */
module MountShape {
  import opened Options
  import opened Paths
  import opened Words
  import opened FlatTree
  import opened Package
  import opened TreeLaws
  import opened MountLaws

  // ---- what the records name ---------------------------------------------

  predicate NamesFile(convert: Converter, r: Record) {
    RecordNames(convert, r.path) != []
  }

  predicate Beneath(top: Key, k: Key) {
    top != k && Under(top, k)
  }

  /** Some record's file is at `q` or beneath it. */
  predicate Touched(drive: nat, convert: Converter, rs: seq<Record>, q: Key)
    decreases |rs|
  {
    rs != [] && (TouchedBy(drive, convert, rs[|rs| - 1], q) || Touched(drive, convert, rs[..|rs| - 1], q))
  }

  predicate TouchedBy(drive: nat, convert: Converter, r: Record, q: Key) {
    NamesFile(convert, r) && Under(q, RecordKey(drive, convert, r))
  }

  /** The last record at `q` or beneath it is at `q`. */
  predicate EndsAsFile(drive: nat, convert: Converter, rs: seq<Record>, q: Key)
    decreases |rs|
  {
    rs != [] &&
    if TouchedBy(drive, convert, rs[|rs| - 1], q) then q == RecordKey(drive, convert, rs[|rs| - 1])
    else EndsAsFile(drive, convert, rs[..|rs| - 1], q)
  }

  predicate HasBeneath(drive: nat, convert: Converter, rs: seq<Record>, q: Key)
    decreases |rs|
  {
    rs != [] && (BeneathBy(drive, convert, rs[|rs| - 1], q) || HasBeneath(drive, convert, rs[..|rs| - 1], q))
  }

  predicate BeneathBy(drive: nat, convert: Converter, r: Record, q: Key) {
    NamesFile(convert, r) && Beneath(q, RecordKey(drive, convert, r))
  }

  // ---- what laying them leaves at a place --------------------------------

  predicate ShapedAt(m: Flat, t: Flat, drive: nat, convert: Converter, rs: seq<Record>, q: Key) {
    if q.Child? && Under(Root(drive), q) then
      && (q in t <==> Touched(drive, convert, rs, q))
      && (q in t ==> (t[q].isDir <==> !EndsAsFile(drive, convert, rs, q)))
    else
      (q in t <==> q in m) && (q in t ==> t[q] == m[q])
  }

  predicate LaidShape(m: Flat, drive: nat, convert: Converter, package: seq<Byte>, rs: seq<Record>, q: Key) {
    ShapedAt(m, LayAll(m, drive, convert, package, rs), drive, convert, rs, q)
  }

  lemma OneMoreShape(m: Flat, drive: nat, convert: Converter, package: seq<Byte>, rs: seq<Record>, q: Key)
    requires rs != [] && LaidShape(m, drive, convert, package, rs[..|rs| - 1], q)
    ensures LaidShape(m, drive, convert, package, rs, q)
  {
    var n := |rs| - 1;
    var before, r := LayAll(m, drive, convert, package, rs[..n]), rs[n];
    var at, k := Located(drive, RecordNames(convert, r.path)), RecordKey(drive, convert, r);
    if at.names != [] {
      LayAt(before, at, Slice(package, r.start, r.size), q);
      UnderBelow(Root(drive), at.names);
      if Under(q, k) && q.Child? && !Under(Root(drive), q) {
        Apart(q, Root(drive), k);
      }
    }
  }

  /** Record `j` is the last at `q`. */
  predicate LastAt(drive: nat, convert: Converter, rs: seq<Record>, q: Key, j: nat)
    requires j < |rs|
  {
    && NamesFile(convert, rs[j]) && RecordKey(drive, convert, rs[j]) == q
    && forall i | j < i < |rs| :: NamesFile(convert, rs[i]) ==> RecordKey(drive, convert, rs[i]) != q
  }

  predicate SlicedAt(m: Flat, drive: nat, convert: Converter, package: seq<Byte>, rs: seq<Record>, q: Key, slice: Slice) {
    var t := LayAll(m, drive, convert, package, rs);
    q in t && t[q].fixed == Some(slice)
  }

  /** For any records: a place that some are at has the slice of the last of them, whatever was
      there, even once a later record makes it a directory. */
  lemma {:induction false} BytesAt(m: Flat, drive: nat, convert: Converter, package: seq<Byte>, rs: seq<Record>, q: Key, j: nat)
    requires j < |rs| && LastAt(drive, convert, rs, q, j)
    ensures SlicedAt(m, drive, convert, package, rs, q, SliceOf(package, rs[j]))
    decreases |rs|
  {
    var n := |rs| - 1;
    if j < n {
      BytesAt(m, drive, convert, package, rs[..n], q, j);
    }
    OneMoreSlice(m, drive, convert, package, rs, q, SliceOf(package, rs[j]));
  }

  lemma OneMoreSlice(m: Flat, drive: nat, convert: Converter, package: seq<Byte>, rs: seq<Record>, q: Key, slice: Slice)
    requires rs != []
    requires var r := rs[|rs| - 1];
             if NamesFile(convert, r) && RecordKey(drive, convert, r) == q then slice == SliceOf(package, r)
             else SlicedAt(m, drive, convert, package, rs[..|rs| - 1], q, slice)
    ensures SlicedAt(m, drive, convert, package, rs, q, slice)
  {
    var n := |rs| - 1;
    var before, at := LayAll(m, drive, convert, package, rs[..n]), Located(drive, RecordNames(convert, rs[n].path));
    if at.names != [] {
      LaySlices(before, at, SliceOf(package, rs[n]), q);
    }
  }

  /** Laying a file changes no other entry's slice. */
  lemma LaySlices(m: Flat, at: Located, file: Slice, q: Key)
    requires at.names != []
    ensures var r := Lay(m, at, file);
            if q == KeyOf(at) then q in r && r[q].fixed == Some(file)
            else q in m ==> q in r && r[q].fixed == m[q].fixed
  {
    LayAt(m, at, file, q);
    var above := at.(names := at.names[..|at.names| - 1]);
    if q in Chain(above) {
      assert AllDirectories(m, above)[q] == AsDirectory(m, above, q);
    }
  }

  /** At every place of a drive that was bare: what the records touch is there, a file where
      the last that touches it is at it, and elsewhere everything is as it was. */
  lemma {:induction false} ShapeAt(m: Flat, drive: nat, convert: Converter, package: seq<Byte>, rs: seq<Record>, q: Key)
    requires Under(Root(drive), q) && q.Child? ==> q !in m
    ensures LaidShape(m, drive, convert, package, rs, q)
    decreases |rs|
  {
    if rs != [] {
      ShapeAt(m, drive, convert, package, rs[..|rs| - 1], q);
      OneMoreShape(m, drive, convert, package, rs, q);
    }
  }

  // ---- a file over entries -----------------------------------------------

  /** A record lays a file over another's, and no later one makes its place a directory again. */
  ghost predicate Buries(drive: nat, convert: Converter, rs: seq<Record>) {
    exists i: nat, j: nat :: BuriesAt(drive, convert, rs, i, j)
  }

  ghost predicate BuriesAt(drive: nat, convert: Converter, rs: seq<Record>, i: nat, j: nat) {
    && i < |rs| && j < |rs| && NamesFile(convert, rs[j])
    && BeneathBy(drive, convert, rs[i], RecordKey(drive, convert, rs[j]))
    && (forall l: nat {:trigger StaysFile(drive, convert, rs, j, l)} :: StaysFile(drive, convert, rs, j, l))
  }

  predicate StaysFile(drive: nat, convert: Converter, rs: seq<Record>, j: nat, l: nat) {
    j < l < |rs| ==> !BeneathBy(drive, convert, rs[l], RecordKey(drive, convert, rs[j]))
  }

  lemma {:induction false} WhoIsBeneath(drive: nat, convert: Converter, rs: seq<Record>, q: Key) returns (i: nat)
    requires HasBeneath(drive, convert, rs, q)
    ensures i < |rs| && BeneathBy(drive, convert, rs[i], q)
    decreases |rs|
  {
    i := |rs| - 1;
    if !BeneathBy(drive, convert, rs[i], q) {
      i := WhoIsBeneath(drive, convert, rs[..|rs| - 1], q);
    }
  }

  lemma {:induction false} SomeoneBeneath(drive: nat, convert: Converter, rs: seq<Record>, q: Key, i: nat)
    requires i < |rs| && BeneathBy(drive, convert, rs[i], q)
    ensures HasBeneath(drive, convert, rs, q)
    decreases |rs|
  {
    if i < |rs| - 1 {
      SomeoneBeneath(drive, convert, rs[..|rs| - 1], q, i);
    }
  }

  lemma {:induction false} WhoEnds(drive: nat, convert: Converter, rs: seq<Record>, q: Key) returns (j: nat)
    requires EndsAsFile(drive, convert, rs, q)
    ensures j < |rs| && NamesFile(convert, rs[j]) && RecordKey(drive, convert, rs[j]) == q
    ensures forall l: nat {:trigger StaysFile(drive, convert, rs, j, l)} :: StaysFile(drive, convert, rs, j, l)
    decreases |rs|
  {
    var n := |rs| - 1;
    j := n;
    if !TouchedBy(drive, convert, rs[n], q) {
      j := WhoEnds(drive, convert, rs[..n], q);
      forall l: nat
        ensures StaysFile(drive, convert, rs, j, l)
      {
        assert StaysFile(drive, convert, rs[..n], j, l);
      }
    }
  }

  lemma {:induction false} EndsThere(drive: nat, convert: Converter, rs: seq<Record>, q: Key, j: nat)
    requires j < |rs| && NamesFile(convert, rs[j]) && RecordKey(drive, convert, rs[j]) == q
    requires forall l: nat {:trigger StaysFile(drive, convert, rs, j, l)} :: StaysFile(drive, convert, rs, j, l)
    ensures EndsAsFile(drive, convert, rs, q)
    decreases |rs|
  {
    var n := |rs| - 1;
    if j < n {
      assert StaysFile(drive, convert, rs, j, n);
      forall l: nat
        ensures StaysFile(drive, convert, rs[..n], j, l)
      {
        assert StaysFile(drive, convert, rs, j, l);
      }
      EndsThere(drive, convert, rs[..n], q, j);
    }
  }

  /** Some place ends as a file and has something beneath it. */
  ghost predicate BuriedSomewhere(drive: nat, convert: Converter, rs: seq<Record>) {
    exists q :: BuriedAt(drive, convert, rs, q)
  }

  predicate BuriedAt(drive: nat, convert: Converter, rs: seq<Record>, q: Key) {
    EndsAsFile(drive, convert, rs, q) && HasBeneath(drive, convert, rs, q)
  }

  lemma BuriesIsBuried(drive: nat, convert: Converter, rs: seq<Record>)
    ensures Buries(drive, convert, rs) <==> BuriedSomewhere(drive, convert, rs)
  {
    if Buries(drive, convert, rs) {
      var i: nat, j: nat :| BuriesAt(drive, convert, rs, i, j);
      var q := RecordKey(drive, convert, rs[j]);
      EndsThere(drive, convert, rs, q, j);
      SomeoneBeneath(drive, convert, rs, q, i);
      assert BuriedAt(drive, convert, rs, q);
    }
    if BuriedSomewhere(drive, convert, rs) {
      var q :| BuriedAt(drive, convert, rs, q);
      var j := WhoEnds(drive, convert, rs, q);
      var i := WhoIsBeneath(drive, convert, rs, q);
      assert BuriesAt(drive, convert, rs, i, j);
    }
  }

  // ---- the tree's shape --------------------------------------------------

  /** Going up from something touched, or down towards it, is touched too. */
  lemma {:induction false} ParentTouched(drive: nat, convert: Converter, rs: seq<Record>, q: Key)
    requires q.Child? && Touched(drive, convert, rs, q)
    ensures HasBeneath(drive, convert, rs, q.parent) && Touched(drive, convert, rs, q.parent)
    decreases |rs|
  {
    var r := rs[|rs| - 1];
    if TouchedBy(drive, convert, r, q) {
      UnderParentToo(q, RecordKey(drive, convert, r));
    } else {
      ParentTouched(drive, convert, rs[..|rs| - 1], q);
    }
  }

  lemma UnderParentToo(q: Key, k: Key)
    requires q.Child? && Under(q, k)
    ensures Beneath(q.parent, k)
  {
    UnderTransitive(q.parent, q, k);
    NotUnderParent(q);
  }

  lemma {:induction false} TowardsBeneath(top: Key, k: Key) returns (q: Key)
    requires Beneath(top, k)
    ensures q.Child? && q.parent == top && Under(q, k)
  {
    if k.parent == top {
      q := k;
    } else {
      q := TowardsBeneath(top, k.parent);
    }
  }

  lemma {:induction false} TouchedIf(drive: nat, convert: Converter, rs: seq<Record>, q: Key, i: nat)
    requires i < |rs| && TouchedBy(drive, convert, rs[i], q)
    ensures Touched(drive, convert, rs, q)
    decreases |rs|
  {
    if i < |rs| - 1 {
      TouchedIf(drive, convert, rs[..|rs| - 1], q, i);
    }
  }

  lemma {:induction false} EndsTouched(drive: nat, convert: Converter, rs: seq<Record>, q: Key)
    requires EndsAsFile(drive, convert, rs, q)
    ensures Touched(drive, convert, rs, q)
    decreases |rs|
  {
    if !TouchedBy(drive, convert, rs[|rs| - 1], q) {
      EndsTouched(drive, convert, rs[..|rs| - 1], q);
    }
  }

  lemma TouchedOnDrive(drive: nat, convert: Converter, r: Record, q: Key)
    requires TouchedBy(drive, convert, r, q) && q.Child?
    ensures Under(Root(drive), q)
  {
    UnderBelow(Root(drive), RecordNames(convert, r.path));
    Apart(q, Root(drive), RecordKey(drive, convert, r));
  }

  /** Nothing lies on a drive that is not mounted. */
  lemma BareDrive(m: Flat, drive: nat, q: Key)
    requires Rooted(m) && Root(drive) !in m
    ensures Under(Root(drive), q) && q.Child? ==> q !in m[Root(drive) := ROOT]
  {
    if q in m {
      AbsentAbove(m, Root(drive), q);
    }
  }

  lemma TidyFromShape(m: Flat, t: Flat, drive: nat, convert: Converter, rs: seq<Record>, k: Key)
    requires Tidy(m) && k.Child? && !BuriedSomewhere(drive, convert, rs)
    requires ShapedAt(m[Root(drive) := ROOT], t, drive, convert, rs, k)
    requires ShapedAt(m[Root(drive) := ROOT], t, drive, convert, rs, k.parent)
    ensures TidyAt(t, k)
  {
    assert TidyAt(m, k);
    assert Under(Root(drive), k) <==> Under(Root(drive), k.parent);
    if k in t && Under(Root(drive), k) {
      ParentTouched(drive, convert, rs, k);
      assert !BuriedAt(drive, convert, rs, k.parent);
    }
  }

  lemma TidyUnlessBuried(m: Flat, drive: nat, convert: Converter, package: seq<Byte>, rs: seq<Record>, k: Key)
    requires Rooted(m) && Tidy(m) && Root(drive) !in m && !BuriedSomewhere(drive, convert, rs)
    ensures TidyAt(LayAll(m[Root(drive) := ROOT], drive, convert, package, rs), k)
  {
    var bare := m[Root(drive) := ROOT];
    if k.Child? {
      BareDrive(m, drive, k);
      BareDrive(m, drive, k.parent);
      ShapeAt(bare, drive, convert, package, rs, k);
      ShapeAt(bare, drive, convert, package, rs, k.parent);
      TidyFromShape(m, LayAll(bare, drive, convert, package, rs), drive, convert, rs, k);
    }
  }

  lemma BuriedIsUntidy(m: Flat, drive: nat, convert: Converter, package: seq<Byte>, rs: seq<Record>, q: Key)
    requires Rooted(m) && Root(drive) !in m && BuriedAt(drive, convert, rs, q)
    ensures !Tidy(LayAll(m[Root(drive) := ROOT], drive, convert, package, rs))
  {
    var bare := m[Root(drive) := ROOT];
    var i := WhoIsBeneath(drive, convert, rs, q);
    var j := WhoEnds(drive, convert, rs, q);
    var c := TowardsBeneath(q, RecordKey(drive, convert, rs[i]));
    UnderBelow(Root(drive), RecordNames(convert, rs[j].path));
    TouchedOnDrive(drive, convert, rs[i], c);
    TouchedIf(drive, convert, rs, c, i);
    EndsTouched(drive, convert, rs, q);
    BareDrive(m, drive, c);
    BareDrive(m, drive, q);
    ShapeAt(bare, drive, convert, package, rs, c);
    ShapeAt(bare, drive, convert, package, rs, q);
    assert !TidyAt(LayAll(bare, drive, convert, package, rs), c);
  }

  /** Mounting a package keeps files from holding entries exactly when no record lays a file over
      another's for good. */
  lemma MountKeepsTidy(m: Flat, drive: nat, convert: Converter, package: seq<Byte>)
    requires Rooted(m) && Tidy(m)
    ensures var out := Mount(m, drive, convert, package);
            Tidy(out.tree)
            <==> out.answer == -1 || !Buries(drive, convert, Records(package, HeaderEnd(package).value))
  {
    if HeaderEnd(package).Some? && Root(drive) !in m {
      var rs := Records(package, HeaderEnd(package).value);
      BuriesIsBuried(drive, convert, rs);
      if BuriedSomewhere(drive, convert, rs) {
        var q :| BuriedAt(drive, convert, rs, q);
        BuriedIsUntidy(m, drive, convert, package, rs, q);
      } else {
        var t := LayAll(m[Root(drive) := ROOT], drive, convert, package, rs);
        forall k
          ensures TidyAt(t, k)
        {
          TidyUnlessBuried(m, drive, convert, package, rs, k);
        }
      }
    }
  }

  /** Such packages are there: a file in a directory, and then a file in the directory's place. */
  lemma FileOverDirectory(drive: nat, convert: Converter, inner: Record, outer: Record)
    requires RecordNames(convert, inner.path) == ["a", "b"] && RecordNames(convert, outer.path) == ["a"]
    ensures Buries(drive, convert, [inner, outer]) && !Buries(drive, convert, [outer, inner])
  {
    assert ["a", "b"][..1] == ["a"];
    var top, below := RecordKey(drive, convert, outer), RecordKey(drive, convert, inner);
    assert below.parent == top;
    NotUnderParent(below);
    assert forall l: nat :: StaysFile(drive, convert, [inner, outer], 1, l);
    assert BeneathBy(drive, convert, [inner, outer][0], top);
    assert BuriesAt(drive, convert, [inner, outer], 0, 1);
    forall i: nat, j: nat
      ensures !BuriesAt(drive, convert, [outer, inner], i, j)
    {
      assert !StaysFile(drive, convert, [outer, inner], 0, 1);
    }
  }
}

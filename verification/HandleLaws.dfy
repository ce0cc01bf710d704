/** What is read after a seek, where an appended write lands, and what a protected drive keeps,
    over calls on open files. */
module HandleLaws {
  import opened Paths
  import opened Words
  import opened FlatTree
  import opened TreeLaws
  import opened MemoryFileSystem
  import opened OpenHandles
  import FileBytes
  import OL = OperationLaws

  /** The bytes of the file a handle is open on. */
  function BytesOf(d: Desk, i: nat): seq<Byte>
    requires i < |d.files| && d.files[i].key in d.tree
  {
    d.tree[d.files[i].key].Content()
  }

  predicate OpenOn(d: Desk, i: nat) {
    i < |d.files| && d.files[i].key in d.tree
  }

  function Least(a: nat, b: nat): nat {
    if a < b then a else b
  }

  // ---- seeking and reading -----------------------------------------------

  /** A seek to `p` leaves all but that position, and a read from `p` gives what stands there. */
  lemma SeekIs(d: Desk, eka2: bool, i: nat, offset: int, from: SeekMode, p: nat)
    requires OpenOn(d, i) && p == SoughtIn(|BytesOf(d, i)|, d.files[i].position, offset, from)
    ensures After(d, eka2, SeekTo(i, offset, from)) == d.(files := d.files[i := d.files[i].(position := p)])
    ensures !from.Address? ==> Given(d, eka2, SeekTo(i, offset, from)) == Answer.At(p)
  {
  }

  lemma ReadIs(d: Desk, eka2: bool, i: nat, n: nat)
    requires OpenOn(d, i) && d.files[i].position <= |BytesOf(d, i)|
    ensures var p, b := d.files[i].position, BytesOf(d, i);
            && Given(d, eka2, ReadFrom(i, n)) == Bytes(b[p..Least(p + n, |b|)])
            && After(d, eka2, ReadFrom(i, n)) == d.(files := d.files[i := d.files[i].(position := Least(p + n, |b|))])
  {
    var p, b := d.files[i].position, BytesOf(d, i);
    assert b[p..p] == [];
    assert d.files[i := d.files[i]] == d.files;
  }

  /** From the beginning: what is read next is what stands there. */
  lemma SeekFromBegin(d: Desk, eka2: bool, i: nat, p: nat, n: nat)
    requires OpenOn(d, i) && p <= |BytesOf(d, i)| < 0x1_0000_0000_0000_0000
    ensures Given(d, eka2, SeekTo(i, p, Begin)) == Answer.At(p)
    ensures Given(After(d, eka2, SeekTo(i, p, Begin)), eka2, ReadFrom(i, n))
            == Bytes(BytesOf(d, i)[p..Least(p + n, |BytesOf(d, i)|)])
  {
    SeekIs(d, eka2, i, p, Begin, p);
    ReadIs(After(d, eka2, SeekTo(i, p, Begin)), eka2, i, n);
  }

  /** From the end: the last bytes of the file. */
  lemma SeekFromEnd(d: Desk, eka2: bool, i: nat, n: nat)
    requires OpenOn(d, i) && n <= |BytesOf(d, i)| < 0x1_0000_0000_0000_0000
    ensures Given(d, eka2, SeekTo(i, 0 - n, End)) == Answer.At(|BytesOf(d, i)| - n)
    ensures Given(After(d, eka2, SeekTo(i, 0 - n, End)), eka2, ReadFrom(i, n)) == Bytes(BytesOf(d, i)[|BytesOf(d, i)| - n..])
  {
    var b := BytesOf(d, i);
    SeekIs(d, eka2, i, 0 - n, End, |b| - n);
    ReadIs(After(d, eka2, SeekTo(i, 0 - n, End)), eka2, i, n);
    assert b[|b| - n..|b|] == b[|b| - n..];
  }

  /** From where it is: going back by what was read reads it again. */
  lemma SeekFromHere(d: Desk, eka2: bool, i: nat, n: nat, got: nat)
    requires OpenOn(d, i) && d.files[i].position <= |BytesOf(d, i)| < 0x1_0000_0000_0000_0000
    requires got == |Given(d, eka2, ReadFrom(i, n)).bytes|
    ensures var read := After(d, eka2, ReadFrom(i, n));
            && Given(read, eka2, SeekTo(i, 0 - got, Current)) == Answer.At(d.files[i].position)
            && Given(After(read, eka2, SeekTo(i, 0 - got, Current)), eka2, ReadFrom(i, n)) == Given(d, eka2, ReadFrom(i, n))
  {
    ReadIs(d, eka2, i, n);
    var read := After(d, eka2, ReadFrom(i, n));
    SeekIs(read, eka2, i, 0 - got, Current, d.files[i].position);
    ReadIs(After(read, eka2, SeekTo(i, 0 - got, Current)), eka2, i, n);
  }

  /** Asking where the file lies in memory is refused with all ones, and the position is set. */
  lemma SeekRefused(d: Desk, eka2: bool, i: nat, offset: nat)
    requires OpenOn(d, i) && offset < 0x1_0000_0000_0000_0000
    ensures Given(d, eka2, SeekTo(i, offset, Address)) == Answer.At(0xFFFF_FFFF_FFFF_FFFF)
    ensures After(d, eka2, SeekTo(i, offset, Address)).files[i].position == offset
  {
  }

  /** At the end and past it there is nothing to read. */
  lemma NothingPastEnd(d: Desk, eka2: bool, i: nat, n: nat)
    requires OpenOn(d, i) && d.files[i].position >= |BytesOf(d, i)|
    ensures Given(d, eka2, ReadFrom(i, n)) == Bytes([])
  {
  }

  // ---- writing and resizing ----------------------------------------------

  /** The entry is the machine's own and the handle may write. */
  predicate WritesOn(d: Desk, i: nat) {
    OpenOn(d, i) && d.tree[d.files[i].key].fixed.None? && (d.files[i].mode.write || d.files[i].mode.append)
  }

  /** A write puts its bytes where the handle stands; what was there before and after stays, and
      a gap it leaves behind the old end is zeros. */
  lemma WritesExactly(d: Desk, eka2: bool, i: nat, data: seq<Byte>, j: nat)
    requires WritesOn(d, i)
    ensures var p, was, t, k := d.files[i].position, BytesOf(d, i), After(d, eka2, WriteTo(i, data)).tree, d.files[i].key;
            && k in t && |t[k].bytes| == (if p + |data| > |was| then p + |data| else |was|)
            && (j < |t[k].bytes| ==>
                  t[k].bytes[j] == if p <= j < p + |data| then data[j - p] else if j < |was| then was[j] else 0)
  {
    WriteIs(d, eka2, i, data);
  }

  /** A resize keeps the bytes up to the new size and fills what is new with zeros. */
  lemma ResizesExactly(d: Desk, eka2: bool, i: nat, size: nat, j: nat)
    requires OpenOn(d, i) && d.tree[d.files[i].key].fixed.None? && j < size
    ensures var t, k := After(d, eka2, ResizeTo(i, size)).tree, d.files[i].key;
            && k in t && |t[k].bytes| == size
            && t[k].bytes[j] == if j < |BytesOf(d, i)| then BytesOf(d, i)[j] else 0
  {
    RunOne(d.tree, OpOf(d, eka2, ResizeTo(i, size))[0]);
  }

  // ---- appending ---------------------------------------------------------

  /** Opened for appending, the first write lands at the end of the file. */
  lemma AppendsAtEnd(d: Desk, eka2: bool, path: string, mode: Mode, data: seq<Byte>, k: Key)
    requires mode.append && OL.IsThere(d.tree, Locate(eka2, path)) && k == KeyOf(Locate(eka2, path).value)
    requires !d.tree[k].isDir && d.tree[k].fixed.None? && !IsProtected(d, Locate(eka2, path))
    ensures var open := After(d, eka2, OpenPath(path, mode));
            var written := After(open, eka2, WriteTo(|d.files|, data)).tree;
            |open.files| == |d.files| + 1 && k in written && written[k].bytes == d.tree[k].bytes + data
  {
    var open := After(d, eka2, OpenPath(path, mode));
    OpensToAppend(d, eka2, path, mode, k, open);
    WriteIs(open, eka2, |d.files|, data);
    AppendedBytes(d.tree[k].bytes, data);
  }

  lemma OpensToAppend(d: Desk, eka2: bool, path: string, mode: Mode, k: Key, open: Desk)
    requires mode.append && OL.IsThere(d.tree, Locate(eka2, path)) && k == KeyOf(Locate(eka2, path).value)
    requires !d.tree[k].isDir && d.tree[k].fixed.None? && !IsProtected(d, Locate(eka2, path))
    requires open == After(d, eka2, OpenPath(path, mode))
    ensures open == d.(files := d.files + [Handle(k, mode, |d.tree[k].bytes|)])
  {
    RunOne(d.tree, OpOf(d, eka2, OpenPath(path, mode))[0]);
  }

  lemma AppendedBytes(bytes: seq<Byte>, data: seq<Byte>)
    ensures FileBytes.Write(FileBytes.FileState(bytes, |bytes|), data).bytes == bytes + data
  {
  }

  // ---- a protected drive -------------------------------------------------

  /** The drive takes no writes, and no handle that may write is open on it. */
  predicate WriteProof(d: Desk, drive: nat) {
    && drive < |d.isProtected| && d.isProtected[drive]
    && forall i | 0 <= i < |d.files| :: OL.DriveOf(d.files[i].key) == drive ==> !d.files[i].mode.write && !d.files[i].mode.append
  }

  ghost predicate SameOnDrive(m: Flat, t: Flat, drive: nat) {
    forall k | OL.DriveOf(k) == drive :: (k in t <==> k in m) && (k in m ==> t[k] == m[k])
  }

  /** Files are opened, read, written, sought in, resized and closed. */
  predicate OnFiles(call: Call) {
    call.OpenPath? || call.WriteTo? || call.ReadFrom? || call.SeekTo? || call.ResizeTo? || call.CloseFile?
  }

  /** The call gives a file on the drive another size, one that is not a package's. */
  predicate ChangesSize(d: Desk, call: Call, drive: nat) {
    && call.ResizeTo? && OpenOn(d, call.file) && OL.DriveOf(d.files[call.file].key) == drive
    && d.tree[d.files[call.file].key].fixed.None? && |d.tree[d.files[call.file].key].bytes| != call.size
  }

  lemma {:induction false} DriveOfBelow(k: Key, names: seq<string>)
    ensures OL.DriveOf(Below(k, names)) == OL.DriveOf(k)
    decreases |names|
  {
    if names != [] {
      DriveOfBelow(k, names[..|names| - 1]);
    }
  }

  /** On a protected drive a call on files changes something exactly when it changes a file's size. */
  lemma ProtectedExactly(d: Desk, eka2: bool, call: Call, drive: nat, next: Desk)
    requires WriteProof(d, drive) && OnFiles(call) && next == After(d, eka2, call)
    ensures WriteProof(next, drive)
    ensures SameOnDrive(d.tree, next.tree, drive) <==> !ChangesSize(d, call, drive)
  {
    if call.OpenPath? {
      ProtectedOpen(d, eka2, call, drive, next);
    } else {
      ProtectedHandles(d, eka2, call, drive, next.files);
      if call.ResizeTo? {
        ProtectedResize(d, eka2, call.file, call.size, drive, next.tree);
      } else {
        ProtectedTree(d, eka2, call, drive);
      }
    }
  }

  lemma ProtectedResize(d: Desk, eka2: bool, i: nat, size: nat, drive: nat, t: Flat)
    requires t == After(d, eka2, ResizeTo(i, size)).tree
    ensures SameOnDrive(d.tree, t, drive) <==> !ChangesSize(d, ResizeTo(i, size), drive)
  {
    if OpenOn(d, i) && d.tree[d.files[i].key].fixed.None? {
      var k := d.files[i].key;
      var bytes := FileBytes.Resized(d.tree[k].bytes, size);
      ResizeStores(d, eka2, i, size, bytes);
      StoreIs(d.tree, k, bytes);
      assert t == d.tree[k := d.tree[k].(bytes := bytes)];
      assert |bytes| == size && (size == |d.tree[k].bytes| ==> bytes == d.tree[k].bytes);
    } else {
      assert OpOf(d, eka2, ResizeTo(i, size)) == [];
    }
  }

  lemma ResizeStores(d: Desk, eka2: bool, i: nat, size: nat, bytes: seq<Byte>)
    requires OpenOn(d, i) && d.tree[d.files[i].key].fixed.None? && bytes == FileBytes.Resized(d.tree[d.files[i].key].bytes, size)
    ensures OpOf(d, eka2, ResizeTo(i, size)) == [Store(d.files[i].key, bytes)]
  {
  }

  lemma ProtectedTree(d: Desk, eka2: bool, call: Call, drive: nat)
    requires WriteProof(d, drive) && OnFiles(call) && !call.OpenPath? && !call.ResizeTo?
    ensures SameOnDrive(d.tree, After(d, eka2, call).tree, drive)
  {
    var ops := OpOf(d, eka2, call);
    StoresElsewhere(d, eka2, call, drive);
    if ops != [] {
      StoreLeaves(d.tree, ops[0], drive);
    }
  }

  lemma StoresElsewhere(d: Desk, eka2: bool, call: Call, drive: nat)
    requires WriteProof(d, drive) && OnFiles(call) && !call.OpenPath? && !call.ResizeTo?
    ensures var ops := OpOf(d, eka2, call); ops == [] || (ops == [ops[0]] && ops[0].Store? && OL.DriveOf(ops[0].k) != drive)
  {
  }

  lemma StoreLeaves(m: Flat, op: Op, drive: nat)
    requires op.Store? && OL.DriveOf(op.k) != drive
    ensures SameOnDrive(m, Run(m, [op]), drive)
  {
    RunOne(m, op);
  }

  lemma ProtectedHandles(d: Desk, eka2: bool, call: Call, drive: nat, files: seq<Handle>)
    requires WriteProof(d, drive) && OnFiles(call) && !call.OpenPath? && files == FilesAfter(d, eka2, call)
    ensures WriteProof(d.(files := files), drive)
  {
    if call.CloseFile? {
      assert forall h | h in files :: h in d.files;
    } else {
      assert |files| == |d.files|;
      assert forall i | 0 <= i < |files| :: files[i].key == d.files[i].key && files[i].mode == d.files[i].mode;
    }
  }

  lemma ProtectedOpen(d: Desk, eka2: bool, call: Call, drive: nat, next: Desk)
    requires WriteProof(d, drive) && call.OpenPath? && next == After(d, eka2, call)
    ensures SameOnDrive(d.tree, next.tree, drive) && WriteProof(next, drive)
  {
    var at, mode := Locate(eka2, call.path), call.mode;
    RunOne(d.tree, OpOf(d, eka2, call)[0]);
    OL.OpensExactly(d.tree, at, mode, IsProtected(d, at));
    if OpenFile(d.tree, at, mode, IsProtected(d, at)).ok {
      OL.OpeningLeaves(d.tree, at, mode, IsProtected(d, at));
      DriveOfBelow(Root(at.value.drive), at.value.names);
    }
  }

  ghost predicate LeavesAllSizes(d: Desk, eka2: bool, calls: seq<Call>, drive: nat)
    decreases |calls|
  {
    calls == []
    || (OnFiles(calls[0]) && !ChangesSize(d, calls[0], drive)
        && LeavesAllSizes(After(d, eka2, calls[0]), eka2, calls[1..], drive))
  }

  /** Over any run of such calls nothing on a protected drive changes. */
  lemma {:induction false} ProtectedStays(d: Desk, eka2: bool, calls: seq<Call>, drive: nat)
    requires WriteProof(d, drive) && LeavesAllSizes(d, eka2, calls, drive)
    ensures SameOnDrive(d.tree, AfterAll(d, eka2, calls).tree, drive)
    decreases |calls|
  {
    if calls != [] {
      var next := After(d, eka2, calls[0]);
      ProtectedExactly(d, eka2, calls[0], drive, next);
      ProtectedStays(next, eka2, calls[1..], drive);
    }
  }

  /** Resizing asks neither the mode nor the drive: a file opened for reading on a protected drive
      can be cut. */
  lemma ProtectedIsResized(d: Desk, eka2: bool, i: nat, drive: nat)
    requires OpenOn(d, i) && WriteProof(d, drive) && OL.DriveOf(d.files[i].key) == drive
    requires d.tree[d.files[i].key].fixed.None? && d.tree[d.files[i].key].bytes != []
    ensures var t, k := After(d, eka2, ResizeTo(i, 0)).tree, d.files[i].key;
            k in t && t[k].bytes == [] && !SameOnDrive(d.tree, t, drive)
  {
    ResizesAway(d, eka2, i, d.files[i].key);
    ProtectedResize(d, eka2, i, 0, drive, After(d, eka2, ResizeTo(i, 0)).tree);
  }

  lemma ResizesAway(d: Desk, eka2: bool, i: nat, k: Key)
    requires OpenOn(d, i) && k == d.files[i].key && d.tree[k].fixed.None?
    ensures After(d, eka2, ResizeTo(i, 0)).tree == d.tree[k := d.tree[k].(bytes := [])]
  {
    ResizeStores(d, eka2, i, 0, []);
    StoreIs(d.tree, k, []);
  }
}

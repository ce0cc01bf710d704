/** The filesystem together with the files open on it, over runs of calls: what the handles
    read and write between calls on paths, and that it is a run of the flat map. */
module OpenHandles {
  import opened Options
  import opened Paths
  import opened Words
  import opened FlatTree
  import opened TreeLaws
  import opened MemoryFileSystem
  import FileBytes

  datatype Handle = Handle(key: Key, mode: Mode, position: nat)

  /** The tree, the open files in the order they were opened, and which drives take no writes. */
  datatype Desk = Desk(tree: Flat, files: seq<Handle>, isProtected: seq<bool>)

  datatype Call =
    | OpenPath(path: string, mode: Mode)
    | MakeOne(path: string)
    | MakeAll(path: string)
    | DeletePath(path: string)
    | RenamePath(oldPath: string, newPath: string)
    | WriteTo(file: nat, data: seq<Byte>)
    | ReadFrom(file: nat, count: nat)
    | ResizeTo(file: nat, size: nat)
    | SeekTo(file: nat, offset: int, from: SeekMode)
    | CloseFile(file: nat)
    | MountOne(drive: nat, media: Media, isProtected: bool)
    | UnmountOne(drive: nat)

  /** What a call answers: whether it was done, bytes and how many, or a position. */
  datatype Answer = Done(ok: bool) | Wrote(n: nat) | Bytes(bytes: seq<Byte>) | At(position: nat)

  predicate IsProtected(d: Desk, at: Option<Located>) {
    at.Some? && at.value.drive < |d.isProtected| && d.isProtected[at.value.drive]
  }

  function Flags(drives: seq<Drive>): seq<bool> {
    seq(|drives|, i requires 0 <= i < |drives| => drives[i].isProtected)
  }

  /** What a handle's file reads as. */
  function Behind(d: Desk, h: Handle): FileBytes.FileState {
    FileBytes.FileState(if h.key in d.tree then d.tree[h.key].Content() else [], h.position)
  }

  predicate Takes(d: Desk, h: Handle) {
    (h.mode.write || h.mode.append) && h.key in d.tree && d.tree[h.key].fixed.None?
  }

  /** The operation of the flat map that a call is, if it is one. */
  function OpOf(d: Desk, eka2: bool, call: Call): seq<Op> {
    match call
    case OpenPath(path, mode) => [Open(Locate(eka2, path), mode, IsProtected(d, Locate(eka2, path)))]
    case MakeOne(path) => [MakeDirectory(Locate(eka2, path))]
    case MakeAll(path) => [MakeDirectories(Locate(false, path))]
    case DeletePath(path) => [Remove(Locate(eka2, path))]
    case RenamePath(oldPath, newPath) => [Rename(Locate(eka2, oldPath), Locate(eka2, newPath))]
    case WriteTo(i, data) =>
      if i < |d.files| && Takes(d, d.files[i]) then
        [Store(d.files[i].key, FileBytes.Write(Behind(d, d.files[i]), data).bytes)]
      else []
    case ResizeTo(i, size) =>
      if i < |d.files| && d.files[i].key in d.tree && d.tree[d.files[i].key].fixed.None? then
        [Store(d.files[i].key, FileBytes.Resized(d.tree[d.files[i].key].bytes, size))]
      else []
    case MountOne(drive, _, _) => [AddDrive(drive)]
    case UnmountOne(drive) => [DropDrive(drive)]
    case _ => []
  }

  /** Where a seek leaves a handle, in 64 bits. */
  function Sought(d: Desk, h: Handle, offset: int, from: SeekMode): nat {
    SoughtIn(|Behind(d, h).bytes|, h.position, offset, from)
  }

  /** The open files after a call, in the tree it leaves. */
  function FilesAfter(d: Desk, eka2: bool, call: Call): seq<Handle> {
    match call
    case OpenPath(path, mode) =>
      var at := Locate(eka2, path);
      var out := OpenFile(d.tree, at, mode, IsProtected(d, at));
      if out.ok && at.Some? && KeyOf(at.value) in out.tree then
        d.files + [Handle(KeyOf(at.value), mode, if mode.append then |out.tree[KeyOf(at.value)].Content()| else 0)]
      else d.files
    case WriteTo(i, data) =>
      if i < |d.files| && Takes(d, d.files[i]) then d.files[i := d.files[i].(position := d.files[i].position + |data|)]
      else d.files
    case ReadFrom(i, count) =>
      if i < |d.files| then d.files[i := d.files[i].(position := FileBytes.Read(Behind(d, d.files[i]), count).1.position)]
      else d.files
    case SeekTo(i, offset, from) =>
      if i < |d.files| then d.files[i := d.files[i].(position := Sought(d, d.files[i], offset, from))] else d.files
    case CloseFile(i) => if i < |d.files| then d.files[..i] + d.files[i + 1..] else d.files
    case _ => d.files
  }

  /** A drive's protection is set when it is mounted. */
  function ProtectedAfter(d: Desk, call: Call): seq<bool> {
    if call.MountOne? && call.drive < |d.isProtected| && Root(call.drive) !in d.tree then
      d.isProtected[call.drive := call.isProtected]
    else d.isProtected
  }

  ghost function After(d: Desk, eka2: bool, call: Call): Desk {
    Desk(Run(d.tree, OpOf(d, eka2, call)), FilesAfter(d, eka2, call), ProtectedAfter(d, call))
  }

  /** What a call answers. A refused kind of seek answers all ones. */
  ghost function Given(d: Desk, eka2: bool, call: Call): Answer {
    match call
    case ReadFrom(i, count) => Bytes(if i < |d.files| then FileBytes.Read(Behind(d, d.files[i]), count).0 else [])
    case WriteTo(i, data) => Wrote(if OpOf(d, eka2, call) != [] then |data| else 0)
    case SeekTo(i, offset, from) =>
      Answer.At(if i < |d.files| && !from.Address? then Sought(d, d.files[i], offset, from) else TWO_64 - 1)
    case CloseFile(_) => Done(true)
    case _ => Done(OpOf(d, eka2, call) != [] && Step(d.tree, OpOf(d, eka2, call)[0]).ok)
  }

  /** What the callers owe: a handle is one of the open files, nothing is taken away or moved
      while it is open, no directory is moved into itself, and a write ends inside 64 bits. A
      call that is refused owes nothing. */
  ghost predicate Owed(d: Desk, eka2: bool, call: Call) {
    match call
    case DeletePath(_) => OwedIfDone(d, OpOf(d, eka2, call)[0])
    case RenamePath(_, _) => OwedIfDone(d, OpOf(d, eka2, call)[0])
    case WriteTo(i, data) => i < |d.files| && d.files[i].position + |data| < TWO_64
    case ReadFrom(i, _) => i < |d.files|
    case ResizeTo(i, _) => i < |d.files|
    case SeekTo(i, _, _) => i < |d.files|
    case CloseFile(i) => i < |d.files|
    case MountOne(drive, _, _) => drive < DRIVES
    case UnmountOne(drive) => drive < DRIVES && OwedIfDone(d, DropDrive(drive))
    case _ => true
  }

  ghost predicate OwedIfDone(d: Desk, op: Op) {
    Step(d.tree, op).ok ==> NoneNamed(d, op) && Sane(op)
  }

  predicate NoneNamed(d: Desk, op: Op) {
    forall i | 0 <= i < |d.files| :: !Named(op, d.files[i].key)
  }

  lemma RunOne(m: Flat, op: Op)
    ensures Run(m, [op]) == Step(m, op).tree
  {
    assert [op][1..] == [];
  }

  // ---- runs of calls -----------------------------------------------------

  ghost function AfterAll(d: Desk, eka2: bool, calls: seq<Call>): Desk
    decreases |calls|
  {
    if calls == [] then d else AfterAll(After(d, eka2, calls[0]), eka2, calls[1..])
  }

  ghost predicate OwedAll(d: Desk, eka2: bool, calls: seq<Call>)
    decreases |calls|
  {
    calls == [] || (Owed(d, eka2, calls[0]) && OwedAll(After(d, eka2, calls[0]), eka2, calls[1..]))
  }

  /** What the calls of a run answer, one after the other. */
  ghost function GivenAll(d: Desk, eka2: bool, calls: seq<Call>): seq<Answer>
    decreases |calls|
  {
    if calls == [] then [] else [Given(d, eka2, calls[0])] + GivenAll(After(d, eka2, calls[0]), eka2, calls[1..])
  }

  /** So far the calls gave `given`, and the rest of them leads where all of them lead. */
  ghost predicate OnTheWay(start: Desk, eka2: bool, calls: seq<Call>, now: Desk, rest: seq<Call>, given: seq<Answer>) {
    && OwedAll(now, eka2, rest)
    && AfterAll(now, eka2, rest) == AfterAll(start, eka2, calls)
    && given + GivenAll(now, eka2, rest) == GivenAll(start, eka2, calls)
  }

  lemma OneCallOn(start: Desk, eka2: bool, calls: seq<Call>, now: Desk, i: nat, given: seq<Answer>,
                  next: Desk, j: nat, more: seq<Answer>)
    requires i < |calls| && j == i + 1 && OnTheWay(start, eka2, calls, now, calls[i..], given)
    requires next == After(now, eka2, calls[i]) && more == given + [Given(now, eka2, calls[i])]
    ensures OnTheWay(start, eka2, calls, next, calls[j..], more)
  {
    assert calls[i..][1..] == calls[j..] && calls[i..][0] == calls[i];
    var rest := GivenAll(next, eka2, calls[j..]);
    assert given + ([Given(now, eka2, calls[i])] + rest) == more + rest;
  }

  ghost function OpsOf(d: Desk, eka2: bool, calls: seq<Call>): seq<Op>
    decreases |calls|
  {
    if calls == [] then [] else OpOf(d, eka2, calls[0]) + OpsOf(After(d, eka2, calls[0]), eka2, calls[1..])
  }

  lemma {:induction false} RunBoth(m: Flat, a: seq<Op>, b: seq<Op>)
    ensures Run(m, a + b) == Run(Run(m, a), b)
    decreases |a|
  {
    if a == [] {
      assert a + b == b;
    } else {
      assert (a + b)[1..] == a[1..] + b;
      RunBoth(Step(m, a[0]).tree, a[1..], b);
    }
  }

  ghost predicate IsTreeRun(d: Desk, eka2: bool, calls: seq<Call>) {
    AfterAll(d, eka2, calls).tree == Run(d.tree, OpsOf(d, eka2, calls))
  }

  /** What a run of calls does to the tree is a run of its operations, so their laws hold of it. */
  lemma {:induction false} CallsAreOperations(d: Desk, eka2: bool, calls: seq<Call>)
    ensures IsTreeRun(d, eka2, calls)
    decreases |calls|
  {
    if calls != [] {
      var next := After(d, eka2, calls[0]);
      CallsAreOperations(next, eka2, calls[1..]);
      RunBoth(d.tree, OpOf(d, eka2, calls[0]), OpsOf(next, eka2, calls[1..]));
    }
  }

  /** Files are opened, read, written, resized, sought in and closed; nothing else is done. */
  predicate OnlyFiles(calls: seq<Call>) {
    forall i | 0 <= i < |calls| ::
      calls[i].OpenPath? || calls[i].WriteTo? || calls[i].ReadFrom? || calls[i].ResizeTo? || calls[i].SeekTo?
      || calls[i].CloseFile?
  }

  predicate IsFileOp(ops: seq<Op>, i: nat) {
    i < |ops| ==> ops[i].Open? || ops[i].Store?
  }

  lemma {:induction false} OnlyFileOps(d: Desk, eka2: bool, calls: seq<Call>, i: nat)
    requires OnlyFiles(calls)
    ensures IsFileOp(OpsOf(d, eka2, calls), i)
    decreases |calls|
  {
    if calls != [] {
      var first := OpOf(d, eka2, calls[0]);
      if i >= |first| {
        OnlyFileOps(After(d, eka2, calls[0]), eka2, calls[1..], i - |first|);
      }
    }
  }

  /** Through any handles, whatever is opened, read, written, resized, sought and closed between,
      a package's file stays what it is. */
  lemma CallsKeepPackageFile(d: Desk, eka2: bool, calls: seq<Call>, k: Key)
    requires OnlyFiles(calls) && k in d.tree && d.tree[k].fixed.Some? && !d.tree[k].isDir
    ensures var after := AfterAll(d, eka2, calls).tree;
            k in after && after[k] == d.tree[k]
  {
    var ops := OpsOf(d, eka2, calls);
    CallsAreOperations(d, eka2, calls);
    forall i | 0 <= i < |ops|
      ensures ops[i].Open? || ops[i].Store?
    {
      OnlyFileOps(d, eka2, calls, i);
    }
    PackageFileStays(d.tree, ops, k);
  }

  // ---- one file is one growable array ------------------------------------

  predicate OnAFile(call: Call) {
    call.WriteTo? || call.ReadFrom? || call.ResizeTo? || call.SeekTo? || call.CloseFile?
  }

  predicate OnFiles(calls: seq<Call>) {
    calls == [] || (OnAFile(calls[0]) && OnFiles(calls[1..]))
  }

  /** A growable array with a position for each handle that is open on it; the other handles
      have none. A package's file does not grow. */
  datatype Cursor = Cursor(mayWrite: bool, position: nat)
  datatype Shared = Shared(bytes: seq<Byte>, grows: bool, cursors: seq<Option<Cursor>>)

  /** What a call through a handle does to the array and the handle's position, and its answer. */
  function ArrayStep(f: FileBytes.FileState, call: Call, mayWrite: bool, grows: bool): (FileBytes.FileState, Answer)
    requires OnAFile(call)
  {
    match call
    case WriteTo(_, data) => if mayWrite && grows then (FileBytes.Write(f, data), Wrote(|data|)) else (f, Wrote(0))
    case ReadFrom(_, count) => (FileBytes.Read(f, count).1, Bytes(FileBytes.Read(f, count).0))
    case ResizeTo(_, size) => (if grows then f.(bytes := FileBytes.Resized(f.bytes, size)) else f, Done(grows))
    case SeekTo(_, offset, from) =>
      var to := SoughtIn(|f.bytes|, f.position, offset, from);
      (f.(position := to), Answer.At(if from.Address? then TWO_64 - 1 else to))
    case CloseFile(_) => (f, Done(true))
  }

  /** Only the handles on the array matter to it. */
  function SharedStep(f: Shared, call: Call): (Shared, Option<Answer>)
    requires OnAFile(call)
  {
    if call.file >= |f.cursors| then (f, None)
    else
      var i, c := call.file, f.cursors[call.file];
      var left := if call.CloseFile? then f.cursors[..i] + f.cursors[i + 1..] else f.cursors;
      if c.None? then (f.(cursors := left), None)
      else
        var (next, answer) := ArrayStep(FileBytes.FileState(f.bytes, c.value.position), call, c.value.mayWrite, f.grows);
        (Shared(next.bytes, f.grows,
                if call.CloseFile? then left else left[i := Some(c.value.(position := next.position))]), Some(answer))
  }

  function SharedRun(f: Shared, calls: seq<Call>): (Shared, seq<Option<Answer>>)
    requires OnFiles(calls)
    decreases |calls|
  {
    if calls == [] then (f, [])
    else
      var (next, answer) := SharedStep(f, calls[0]);
      var (end, answers) := SharedRun(next, calls[1..]);
      (end, [answer] + answers)
  }

  /** The calls answer what the array tells, where it tells something. */
  predicate Agree(told: seq<Option<Answer>>, answers: seq<Answer>) {
    if told == [] then answers == []
    else answers != [] && (told[0].Some? ==> told[0].value == answers[0]) && Agree(told[1..], answers[1..])
  }

  function CursorOf(h: Handle, k: Key): Option<Cursor> {
    if h.key == k then Some(Cursor(h.mode.write || h.mode.append, h.position)) else None
  }

  function CursorsOf(files: seq<Handle>, k: Key): (cursors: seq<Option<Cursor>>)
    ensures |cursors| == |files| && forall i | 0 <= i < |files| :: cursors[i] == CursorOf(files[i], k)
  {
    seq(|files|, i requires 0 <= i < |files| => CursorOf(files[i], k))
  }

  /** A file and the handles open on it. */
  function SharedOf(d: Desk, k: Key): Shared
    requires k in d.tree
  {
    Shared(d.tree[k].Content(), d.tree[k].fixed.None?, CursorsOf(d.files, k))
  }

  /** What a call leaves in a file and in the handles on it. */
  predicate StepShared(d: Desk, call: Call, k: Key, next: Desk, answer: Answer)
    requires k in d.tree && OnAFile(call)
  {
    && k in next.tree && SharedOf(next, k) == SharedStep(SharedOf(d, k), call).0
    && var told := SharedStep(SharedOf(d, k), call).1; told.Some? ==> told.value == answer
  }

  lemma FileAfter(d: Desk, eka2: bool, call: Call, k: Key)
    requires OnAFile(call) && k in d.tree
    ensures var next := After(d, eka2, call).tree;
            && k in next && next[k].fixed == d.tree[k].fixed
            && next[k].Content() == SharedStep(SharedOf(d, k), call).0.bytes
  {
    var ops := OpOf(d, eka2, call);
    if ops != [] {
      StoredIn(d.tree, ops[0], k);
    }
  }

  lemma StoredIn(m: Flat, op: Op, k: Key)
    requires op.Store? && k in m && op.k in m && m[op.k].fixed.None?
    ensures k in Run(m, [op]) && Run(m, [op])[k] == if k == op.k then m[k].(bytes := op.bytes) else m[k]
  {
    RunOne(m, op);
  }

  lemma HandlesAfter(d: Desk, eka2: bool, call: Call, k: Key, files: seq<Handle>)
    requires OnAFile(call) && k in d.tree && files == FilesAfter(d, eka2, call)
    ensures CursorsOf(files, k) == SharedStep(SharedOf(d, k), call).0.cursors
  {
    if call.file >= |d.files| {
    } else if call.CloseFile? {
      assert CursorsOf(files, k) == CursorsOf(d.files, k)[..call.file] + CursorsOf(d.files, k)[call.file + 1..];
    } else {
      HandleMoves(d, eka2, call, k, files);
    }
  }

  lemma HandleMoves(d: Desk, eka2: bool, call: Call, k: Key, files: seq<Handle>)
    requires OnAFile(call) && !call.CloseFile? && call.file < |d.files| && k in d.tree && files == FilesAfter(d, eka2, call)
    ensures CursorsOf(files, k) == SharedStep(SharedOf(d, k), call).0.cursors
  {
    var h := d.files[call.file];
    assert |files| == |d.files| && forall j | 0 <= j < |files| && j != call.file :: files[j] == d.files[j];
    OneHandleMoves(d, eka2, call, k, h, files[call.file]);
  }

  lemma OneHandleMoves(d: Desk, eka2: bool, call: Call, k: Key, h: Handle, moved: Handle)
    requires OnAFile(call) && !call.CloseFile? && call.file < |d.files| && k in d.tree && h == d.files[call.file]
    requires moved == FilesAfter(d, eka2, call)[call.file]
    ensures CursorOf(moved, k)
            == if h.key == k then
                 var f := FileBytes.FileState(d.tree[k].Content(), h.position);
                 Some(Cursor(h.mode.write || h.mode.append,
                             ArrayStep(f, call, h.mode.write || h.mode.append, d.tree[k].fixed.None?).0.position))
               else None
  {
  }

  lemma AnswerAfter(d: Desk, eka2: bool, call: Call, k: Key)
    requires OnAFile(call) && k in d.tree
    ensures var told := SharedStep(SharedOf(d, k), call).1; told.Some? ==> told.value == Given(d, eka2, call)
  {
    var ops := OpOf(d, eka2, call);
    if ops != [] {
      RunOne(d.tree, ops[0]);
    }
  }

  lemma OneStep(d: Desk, eka2: bool, call: Call, k: Key, next: Desk)
    requires OnAFile(call) && k in d.tree && next == After(d, eka2, call)
    ensures StepShared(d, call, k, next, Given(d, eka2, call))
  {
    FileAfter(d, eka2, call, k);
    HandlesAfter(d, eka2, call, k, next.files);
    AnswerAfter(d, eka2, call, k);
  }

  ghost predicate IsArray(d: Desk, eka2: bool, calls: seq<Call>, k: Key)
    requires k in d.tree && OnFiles(calls)
  {
    var after, (end, told) := AfterAll(d, eka2, calls), SharedRun(SharedOf(d, k), calls);
    k in after.tree && SharedOf(after, k) == end && Agree(told, GivenAll(d, eka2, calls))
  }

  /** Any run of seeks, reads, writes, resizes and closes, through any handles on any files: each
      file goes the way of one growable array with a position for each handle on it. */
  lemma {:induction false} FileIsArray(d: Desk, eka2: bool, calls: seq<Call>, k: Key)
    requires k in d.tree && OnFiles(calls)
    ensures IsArray(d, eka2, calls, k)
    decreases |calls|
  {
    if calls != [] {
      var next := After(d, eka2, calls[0]);
      OneStep(d, eka2, calls[0], k, next);
      FileIsArray(next, eka2, calls[1..], k);
      FirstOfArray(d, eka2, calls, k, next);
    }
  }

  lemma FirstOfArray(d: Desk, eka2: bool, calls: seq<Call>, k: Key, next: Desk)
    requires calls != [] && k in d.tree && OnFiles(calls) && next == After(d, eka2, calls[0])
    requires StepShared(d, calls[0], k, next, Given(d, eka2, calls[0])) && IsArray(next, eka2, calls[1..], k)
    ensures IsArray(d, eka2, calls, k)
  {
    var rest, first := GivenAll(next, eka2, calls[1..]), Given(d, eka2, calls[0]);
    var told, one := SharedRun(SharedOf(next, k), calls[1..]).1, SharedStep(SharedOf(d, k), calls[0]).1;
    assert GivenAll(d, eka2, calls) == [first] + rest && ([first] + rest)[1..] == rest;
    assert SharedRun(SharedOf(d, k), calls).1 == [one] + told && ([one] + told)[1..] == told;
  }

  // ---- a file made and taken away ----------------------------------------

  /** A path that can be opened for writing and is not there, with nothing open at its place. */
  predicate IsFree(d: Desk, at: Option<Located>) {
    CanName(d.tree, at) && !Present(d.tree, at) && !IsProtected(d, at) && NoneNamed(d, Remove(at))
  }

  /** The desk once the path was opened as a new file and some bytes were stored in it. */
  function Made(d: Desk, at: Located, mode: Mode, data: seq<Byte>): Desk
    requires at.names != []
  {
    Desk(d.tree[KeyOf(at) := Entry(Leaf(at), false, data, None)], d.files + [Handle(KeyOf(at), mode, |data|)], d.isProtected)
  }

  lemma OpensNew(d: Desk, eka2: bool, path: string, mode: Mode)
    requires mode.write && IsFree(d, Locate(eka2, path))
    ensures After(d, eka2, OpenPath(path, mode)) == Made(d, Locate(eka2, path).value, mode, [])
  {
    RunOne(d.tree, OpOf(d, eka2, OpenPath(path, mode))[0]);
  }

  lemma WritesNew(d: Desk, eka2: bool, at: Located, mode: Mode, data: seq<Byte>)
    requires mode.write && at.names != []
    ensures After(Made(d, at, mode, []), eka2, WriteTo(|d.files|, data)) == Made(d, at, mode, data)
  {
    var now, call := Made(d, at, mode, []), WriteTo(|d.files|, data);
    WriteToNew(now, Made(d, at, mode, data).files, eka2, d.files, Handle(KeyOf(at), mode, 0), data);
    RunOne(now.tree, Store(KeyOf(at), data));
  }

  lemma WriteToNew(now: Desk, written: seq<Handle>, eka2: bool, files: seq<Handle>, h: Handle, data: seq<Byte>)
    requires now.files == files + [h] && h.mode.write && h.position == 0
    requires h.key in now.tree && now.tree[h.key].fixed.None? && now.tree[h.key].bytes == []
    requires written == files + [h.(position := |data|)]
    ensures OpOf(now, eka2, WriteTo(|files|, data)) == [Store(h.key, data)]
    ensures FilesAfter(now, eka2, WriteTo(|files|, data)) == written
  {
    assert now.files[|files|] == h && Takes(now, h);
    assert Behind(now, h) == FileBytes.FileState([], 0);
    WriteToEmpty(data);
    LastReplaced(files, h, h.(position := |data|));
  }

  lemma WriteToEmpty(data: seq<Byte>)
    ensures FileBytes.Write(FileBytes.FileState([], 0), data).bytes == data
  {
  }

  lemma LastReplaced(files: seq<Handle>, h: Handle, moved: Handle)
    ensures (files + [h])[|files| := moved] == files + [moved]
  {
  }

  lemma ClosesNew(d: Desk, eka2: bool, at: Located, mode: Mode, data: seq<Byte>)
    requires at.names != []
    ensures After(Made(d, at, mode, data), eka2, CloseFile(|d.files|)) == Made(d, at, mode, data).(files := d.files)
  {
    var files := Made(d, at, mode, data).files;
    assert files[..|d.files|] + files[|d.files| + 1..] == d.files;
  }

  lemma DeletesNew(d: Desk, eka2: bool, path: string, mode: Mode, data: seq<Byte>)
    requires Rooted(d.tree) && IsFree(d, Locate(eka2, path))
    ensures var closed := Made(d, Locate(eka2, path).value, mode, data).(files := d.files);
            Owed(closed, eka2, DeletePath(path)) && After(closed, eka2, DeletePath(path)) == d
  {
    var at := Locate(eka2, path);
    var closed := Made(d, at.value, mode, data).(files := d.files);
    KeyOfChild(at.value);
    NotUnderParent(KeyOf(at.value));
    AddThenDrop(d.tree, KeyOf(at.value), Entry(Leaf(at.value), false, data, None));
    RunOne(closed.tree, Remove(at));
    assert forall i | 0 <= i < |closed.files| :: closed.files[i] == d.files[i];
  }

  function MakeAndDelete(d: Desk, path: string, mode: Mode, data: seq<Byte>): seq<Call> {
    [OpenPath(path, mode), WriteTo(|d.files|, data), CloseFile(|d.files|), DeletePath(path)]
  }

  /** Opened, written, closed and deleted, a new file leaves no trace. */
  lemma MadeAndGone(d: Desk, eka2: bool, path: string, mode: Mode, data: seq<Byte>)
    requires Rooted(d.tree) && mode.write && IsFree(d, Locate(eka2, path)) && |data| < TWO_64
    ensures OwedAll(d, eka2, MakeAndDelete(d, path, mode, data))
    ensures AfterAll(d, eka2, MakeAndDelete(d, path, mode, data)) == d
  {
    var calls, at := MakeAndDelete(d, path, mode, data), Locate(eka2, path).value;
    OpensNew(d, eka2, path, mode);
    WritesNew(d, eka2, at, mode, data);
    ClosesNew(d, eka2, at, mode, data);
    DeletesNew(d, eka2, path, mode, data);
    FourCalls(d, Made(d, at, mode, []), Made(d, at, mode, data), Made(d, at, mode, data).(files := d.files), d, eka2, calls);
  }

  lemma FourCalls(a: Desk, b: Desk, c: Desk, d: Desk, e: Desk, eka2: bool, calls: seq<Call>)
    requires |calls| == 4 && Owed(a, eka2, calls[0]) && b == After(a, eka2, calls[0])
    requires Owed(b, eka2, calls[1]) && c == After(b, eka2, calls[1])
    requires Owed(c, eka2, calls[2]) && d == After(c, eka2, calls[2])
    requires Owed(d, eka2, calls[3]) && e == After(d, eka2, calls[3])
    ensures OwedAll(a, eka2, calls) && AfterAll(a, eka2, calls) == e
  {
    var one, two, three := calls[1..], calls[1..][1..], calls[1..][1..][1..];
    assert three[1..] == [];
    assert OwedAll(d, eka2, three) && AfterAll(d, eka2, three) == e;
    assert OwedAll(c, eka2, two) && AfterAll(c, eka2, two) == e;
    assert OwedAll(b, eka2, one) && AfterAll(b, eka2, one) == e;
  }

  lemma WriteIs(d: Desk, eka2: bool, i: nat, data: seq<Byte>)
    requires i < |d.files|
    ensures var call, h := WriteTo(i, data), d.files[i];
            if Takes(d, h) then
              && After(d, eka2, call)
                 == Desk(d.tree[h.key := d.tree[h.key].(bytes := FileBytes.Write(Behind(d, h), data).bytes)],
                         d.files[i := h.(position := h.position + |data|)], d.isProtected)
              && Given(d, eka2, call) == Wrote(|data|)
            else After(d, eka2, call) == d && Given(d, eka2, call) == Wrote(0)
  {
    var h := d.files[i];
    if Takes(d, h) {
      var bytes := FileBytes.Write(Behind(d, h), data).bytes;
      WriteStores(d, eka2, i, data, h, bytes);
      WriteTaken(d, eka2, i, data, h, bytes);
    } else {
      WriteRefused(d, eka2, i, data);
    }
  }

  lemma WriteStores(d: Desk, eka2: bool, i: nat, data: seq<Byte>, h: Handle, bytes: seq<Byte>)
    requires i < |d.files| && h == d.files[i] && Takes(d, h) && bytes == FileBytes.Write(Behind(d, h), data).bytes
    ensures OpOf(d, eka2, WriteTo(i, data)) == [Store(h.key, bytes)]
  {
  }

  lemma WriteTaken(d: Desk, eka2: bool, i: nat, data: seq<Byte>, h: Handle, bytes: seq<Byte>)
    requires i < |d.files| && h == d.files[i] && Takes(d, h) && OpOf(d, eka2, WriteTo(i, data)) == [Store(h.key, bytes)]
    ensures Given(d, eka2, WriteTo(i, data)) == Wrote(|data|)
    ensures After(d, eka2, WriteTo(i, data))
            == Desk(d.tree[h.key := d.tree[h.key].(bytes := bytes)], d.files[i := h.(position := h.position + |data|)], d.isProtected)
  {
    StoreIs(d.tree, h.key, bytes);
    WriteMoves(d, eka2, i, data, h);
    AfterIs(d, eka2, WriteTo(i, data), [Store(h.key, bytes)], d.files[i := h.(position := h.position + |data|)],
            d.tree[h.key := d.tree[h.key].(bytes := bytes)]);
  }

  lemma WriteMoves(d: Desk, eka2: bool, i: nat, data: seq<Byte>, h: Handle)
    requires i < |d.files| && h == d.files[i] && Takes(d, h)
    ensures FilesAfter(d, eka2, WriteTo(i, data)) == d.files[i := h.(position := h.position + |data|)]
  {
  }

  lemma AfterIs(d: Desk, eka2: bool, call: Call, ops: seq<Op>, files: seq<Handle>, tree: Flat)
    requires ops == OpOf(d, eka2, call) && files == FilesAfter(d, eka2, call) && tree == Run(d.tree, ops) && !call.MountOne?
    ensures After(d, eka2, call) == Desk(tree, files, d.isProtected)
  {
  }

  lemma WriteRefused(d: Desk, eka2: bool, i: nat, data: seq<Byte>)
    requires i < |d.files| && !Takes(d, d.files[i])
    ensures After(d, eka2, WriteTo(i, data)) == d && Given(d, eka2, WriteTo(i, data)) == Wrote(0)
  {
    assert OpOf(d, eka2, WriteTo(i, data)) == [];
  }

  lemma StoreIs(m: Flat, k: Key, bytes: seq<Byte>)
    requires k in m && m[k].fixed.None?
    ensures Run(m, [Store(k, bytes)]) == m[k := m[k].(bytes := bytes)]
  {
    RunOne(m, Store(k, bytes));
  }

  lemma RenameIs(d: Desk, eka2: bool, oldPath: string, newPath: string, op: Op)
    requires op == Rename(Locate(eka2, oldPath), Locate(eka2, newPath))
    ensures Owed(d, eka2, RenamePath(oldPath, newPath)) <==> OwedIfDone(d, op)
    ensures Given(d, eka2, RenamePath(oldPath, newPath)) == Done(Replace(d.tree, op.from, op.to).ok)
    ensures After(d, eka2, RenamePath(oldPath, newPath)) == d.(tree := Replace(d.tree, op.from, op.to).tree)
  {
    RunOne(d.tree, op);
  }

  /** A rename leaves what it does not name, entries and nodes. */
  lemma CarriedApart<V>(nodes: map<Key, V>, after: map<Key, V>, m: Flat, t: Flat, op: Op)
    requires op.Rename? && Replace(m, op.from, op.to) == Outcome(true, t)
    requires after == Carried(nodes, KeyOf(op.from.value), KeyOf(op.to.value))
    ensures forall k {:trigger Named(op, k)} | k in m && k in nodes && !Named(op, k) ::
              k in t && k in after && after[k] == nodes[k]
  {
    forall k {:trigger Named(op, k)} | k in m && k in nodes && !Named(op, k)
      ensures k in t && k in after && after[k] == nodes[k]
    {
      CarriedAt(nodes, KeyOf(op.from.value), KeyOf(op.to.value), k);
      CarriedAt(m, KeyOf(op.from.value), KeyOf(op.to.value), k);
    }
  }

  class Session {
    const fs: FileSystem
    var files: seq<MemoryFile>

    constructor (fs: FileSystem)
      requires fs.Valid()
      ensures Valid() && this.fs == fs && View() == Desk(fs.tree, [], Flags(fs.drives))
    {
      this.fs, files := fs, [];
    }

    ghost predicate Valid()
      reads this, fs, fs.index.Values, files, set f | f in files :: f.node
    {
      && fs.Valid()
      && (forall i {:trigger FileAt(i)} :: FileAt(i))
      && (forall i, j | 0 <= i < j < |files| :: files[i] != files[j])
    }

    ghost predicate FileAt(i: int)
      reads this, fs, fs.index.Values, files, set f | f in files :: f.node
    {
      0 <= i < |files| ==> files[i].fs == fs && files[i].Attached()
    }

    ghost function HandleOf(f: MemoryFile): Handle
      reads f, f.node
    {
      Handle(f.node.place, f.mode, f.position)
    }

    ghost function View(): Desk
      reads this, fs, files, set f | f in files :: f.node
    {
      Desk(fs.tree, seq(|files|, i requires 0 <= i < |files| reads this, files, set f | f in files :: f.node => HandleOf(files[i])),
           Flags(fs.drives))
    }

    /** Calls that leave the open files where they are leave them open. */
    twostate lemma AllStay()
      requires old(Valid()) && fs.Valid() && files == old(files)
      requires forall i {:trigger files[i]} | 0 <= i < |files| ::
                 var k := old(files[i].node.place);
                 k in fs.tree && k in fs.index && k in old(fs.index) && fs.index[k] == old(fs.index)[k]
      ensures Valid()
      ensures forall i {:trigger files[i]} | 0 <= i < |files| ::
                HandleOf(files[i]) == old(HandleOf(files[i])).(position := files[i].position)
    {
      forall i
        ensures FileAt(i)
        ensures 0 <= i < |files| ==> HandleOf(files[i]) == old(HandleOf(files[i])).(position := files[i].position)
      {
        if 0 <= i < |files| {
          assert old(FileAt(i));
          files[i].StaysAttached();
        }
      }
    }

    /** Nodes that stay and entries that stay keep every open file open. */
    twostate lemma AllKept()
      requires old(Valid()) && fs.Valid() && files == old(files) && fs.NodesStay()
      requires forall k | k in old(fs.tree) :: k in fs.tree
      requires forall i | 0 <= i < |files| :: files[i].position == old(files[i].position)
      ensures Valid() && View().files == old(View()).files
    {
      forall i | 0 <= i < |files|
        ensures var k := old(files[i].node.place);
                k in fs.tree && k in fs.index && k in old(fs.index) && fs.index[k] == old(fs.index)[k]
      {
        assert old(FileAt(i));
      }
      AllStay();
      assert forall i | 0 <= i < |files| :: HandleOf(files[i]) == old(HandleOf(files[i]));
    }

    method MakeOne(path: string) returns (ok: bool)
      requires Valid()
      modifies this, fs, fs.index.Values
      ensures Valid() && fs.eka2 == old(fs.eka2) && files == old(files)
      ensures fresh(fs.index.Values - old(fs.index.Values))
      ensures View() == After(old(View()), old(fs.eka2), Call.MakeOne(path))
      ensures Done(ok) == Given(old(View()), old(fs.eka2), Call.MakeOne(path))
    {
      ok := fs.CreateDirectory(path);
      AllKept();
      RunOne(old(fs.tree), MakeDirectory(Locate(fs.eka2, path)));
    }

    method MakeAll(path: string) returns (ok: bool)
      requires Valid()
      modifies this, fs, fs.index.Values
      ensures Valid() && fs.eka2 == old(fs.eka2) && files == old(files)
      ensures fresh(fs.index.Values - old(fs.index.Values))
      ensures View() == After(old(View()), old(fs.eka2), Call.MakeAll(path))
      ensures Done(ok) == Given(old(View()), old(fs.eka2), Call.MakeAll(path))
    {
      ok := fs.CreateDirectories(path);
      AllKept();
      RunOne(old(fs.tree), MakeDirectories(Locate(false, path)));
    }

    /** Every place that is not named keeps its entry and its node. */
    twostate lemma UnnamedStay(op: Op)
      requires old(Valid()) && fs.Valid() && files == old(files)
      requires NoneNamed(old(View()), op)
      requires forall k {:trigger Named(op, k)} | k in old(fs.tree) && k in old(fs.index) && !Named(op, k) ::
                 k in fs.tree && k in fs.index && fs.index[k] == old(fs.index)[k]
      requires forall i | 0 <= i < |files| :: files[i].position == old(files[i].position)
      ensures Valid() && View().files == old(View()).files
    {
      forall i | 0 <= i < |files|
        ensures var k := old(files[i].node.place);
                k in fs.tree && k in fs.index && k in old(fs.index) && fs.index[k] == old(fs.index)[k]
      {
        assert old(FileAt(i));
        assert old(View().files[i]) == old(HandleOf(files[i]));
        assert !Named(op, old(View().files[i]).key);
      }
      AllStay();
      assert forall i | 0 <= i < |files| :: HandleOf(files[i]) == old(HandleOf(files[i]));
    }

    method Delete(path: string) returns (ok: bool)
      requires Valid() && Owed(View(), fs.eka2, DeletePath(path))
      modifies this, fs, fs.index.Values
      ensures Valid() && fs.eka2 == old(fs.eka2) && files == old(files)
      ensures fresh(fs.index.Values - old(fs.index.Values))
      ensures View() == After(old(View()), old(fs.eka2), DeletePath(path))
      ensures Done(ok) == Given(old(View()), old(fs.eka2), DeletePath(path))
    {
      ghost var op := Remove(Locate(fs.eka2, path));
      ok := fs.DeleteEntry(path);
      if ok {
        UnnamedStay(op);
      } else {
        AllKept();
      }
      RunOne(old(fs.tree), op);
    }

    /** A rename that names no open file, or is refused, leaves the open files open. */
    twostate lemma RenamedStay(new op: Op, new ok: bool)
      requires old(Valid()) && fs.Valid() && files == old(files) && op.Rename?
      requires Outcome(ok, fs.tree) == Replace(old(fs.tree), op.from, op.to) && (ok ==> NoneNamed(old(View()), op))
      requires fs.index == if ok then Carried(old(fs.index), KeyOf(op.from.value), KeyOf(op.to.value)) else old(fs.index)
      requires forall i | 0 <= i < |files| :: files[i].position == old(files[i].position)
      ensures Valid() && View().files == old(View()).files
    {
      if ok {
        CarriedApart(old(fs.index), fs.index, old(fs.tree), fs.tree, op);
        UnnamedStay(op);
      } else {
        AllKept();
      }
    }

    method Rename(oldPath: string, newPath: string) returns (ok: bool)
      requires Valid() && Owed(View(), fs.eka2, RenamePath(oldPath, newPath))
      modifies this, fs, fs.index.Values
      ensures Valid() && fs.eka2 == old(fs.eka2) && files == old(files)
      ensures fresh(fs.index.Values - old(fs.index.Values))
      ensures View() == After(old(View()), old(fs.eka2), RenamePath(oldPath, newPath))
      ensures Done(ok) == Given(old(View()), old(fs.eka2), RenamePath(oldPath, newPath))
    {
      ghost var d, op := View(), Op.Rename(Locate(fs.eka2, oldPath), Locate(fs.eka2, newPath));
      RenameIs(d, fs.eka2, oldPath, newPath, op);
      ok := fs.Replace(oldPath, newPath);
      RenamedStay(op, ok);
    }

    /** Opens the path; the handle is not among the open files yet. */
    method Fetch(path: string, mode: Mode) returns (handle: MemoryFile?)
      requires Valid()
      modifies this, fs, fs.index.Values
      ensures Valid() && fs.eka2 == old(fs.eka2) && files == old(files)
      ensures fresh(fs.index.Values - old(fs.index.Values)) && View().files == old(View()).files
      ensures View().isProtected == old(View()).isProtected
      ensures var at := Locate(fs.eka2, path);
              && Outcome(handle != null, fs.tree) == OpenFile(old(fs.tree), at, mode, IsProtected(old(View()), at))
              && (handle != null ==>
                    && fresh(handle) && handle.fs == fs && handle.Attached() && at.Some? && KeyOf(at.value) in fs.tree
                    && HandleOf(handle) == Handle(KeyOf(at.value), mode,
                                                  if mode.append then |fs.tree[KeyOf(at.value)].Content()| else 0))
    {
      handle := fs.OpenFile(path, mode);
      AllKept();
      if handle != null {
        assert fs.At(handle.node.place);
      }
    }

    /** A refused open leaves everything; another adds a handle. */
    method Open(path: string, mode: Mode) returns (ok: bool)
      requires Valid()
      modifies this, fs, fs.index.Values
      ensures Valid() && fs.eka2 == old(fs.eka2)
      ensures fresh(fs.index.Values - old(fs.index.Values)) && forall f | f in files :: f in old(files) || fresh(f)
      ensures View() == After(old(View()), old(fs.eka2), OpenPath(path, mode))
      ensures ok == (|files| > |old(files)|)
      ensures Done(ok) == Given(old(View()), old(fs.eka2), OpenPath(path, mode))
    {
      var handle := Fetch(path, mode);
      ghost var op := OpOf(old(View()), old(fs.eka2), OpenPath(path, mode))[0];
      RunOne(old(fs.tree), op);
      ok := handle != null;
      assert Outcome(ok, fs.tree) == Step(old(fs.tree), op);
      if ok {
        assert forall i | 0 <= i < |files| :: files[i] != handle;
        AddFile(handle);
      }
    }

    method AddFile(handle: MemoryFile)
      requires Valid() && handle.fs == fs && handle.Attached() && forall i | 0 <= i < |files| :: files[i] != handle
      modifies this`files
      ensures Valid() && files == old(files) + [handle]
      ensures View().files == old(View()).files + [HandleOf(handle)]
      ensures View().isProtected == old(View()).isProtected
    {
      ghost var before := files;
      files := files + [handle];
      forall i
        ensures FileAt(i)
      {
        if 0 <= i < |before| {
          assert old(FileAt(i)) && files[i] == before[i];
        }
      }
      assert forall i | 0 <= i < |before| :: HandleOf(files[i]) == old(View()).files[i];
    }

    /** What a write or a resize through one handle leaves of all. */
    twostate lemma OneStored(file: nat)
      requires old(Valid()) && fs.Valid() && files == old(files) && file < |files|
      requires fs.index == old(fs.index) && (forall k | k in old(fs.tree) :: k in fs.tree)
      requires forall i | 0 <= i < |files| && i != file :: files[i].position == old(files[i].position)
      ensures Valid()
      ensures View().files == old(View()).files[file := old(View()).files[file].(position := files[file].position)]
    {
      forall i | 0 <= i < |files|
        ensures var k := old(files[i].node.place);
                k in fs.tree && k in fs.index && k in old(fs.index) && fs.index[k] == old(fs.index)[k]
      {
        assert old(FileAt(i));
      }
      AllStay();
      assert forall i | 0 <= i < |files| ::
          HandleOf(files[i]) == old(HandleOf(files[i])).(position := files[i].position);
    }

    method Write(file: nat, data: seq<Byte>) returns (n: nat)
      requires Valid() && file < |files|
      modifies files[file], fs`tree, files[file].node
      ensures Valid() && fs.eka2 == old(fs.eka2) && files == old(files) && fs.index == old(fs.index)
      ensures View() == After(old(View()), old(fs.eka2), WriteTo(file, data))
      ensures Wrote(n) == Given(old(View()), old(fs.eka2), WriteTo(file, data))
    {
      ghost var d: Desk := View();
      assert FileAt(file) && d.files[file] == HandleOf(files[file]);
      assert fs.At(files[file].node.place);
      n := files[file].WriteFile(data, 1, |data|);
      assert data[..|data|] == data;
      OneStored(file);
      WriteIs(d, fs.eka2, file, data);
      if !Takes(d, d.files[file]) {
        assert View().files == d.files;
        assert fs.tree == d.tree;
      }
    }

    method Read(file: nat, count: nat) returns (bytes: seq<Byte>)
      requires Valid() && file < |files|
      modifies files[file]
      ensures Valid() && fs.eka2 == old(fs.eka2) && files == old(files) && fs.index == old(fs.index)
      ensures View() == After(old(View()), old(fs.eka2), ReadFrom(file, count))
      ensures Bytes(bytes) == Given(old(View()), old(fs.eka2), ReadFrom(file, count))
    {
      ghost var d: Desk := View();
      assert FileAt(file) && d.files[file] == HandleOf(files[file]);
      assert fs.At(files[file].node.place);
      var out := new Byte[count];
      var n := files[file].ReadFile(out, 1, count);
      bytes := out[..n];
      OneStored(file);
    }

    method Resize(file: nat, size: nat) returns (ok: bool)
      requires Valid() && file < |files|
      modifies fs`tree, files[file].node
      ensures Valid() && fs.eka2 == old(fs.eka2) && files == old(files) && fs.index == old(fs.index)
      ensures View() == After(old(View()), old(fs.eka2), ResizeTo(file, size))
      ensures Done(ok) == Given(old(View()), old(fs.eka2), ResizeTo(file, size))
    {
      ghost var d: Desk := View();
      assert FileAt(file) && d.files[file] == HandleOf(files[file]);
      assert fs.At(files[file].node.place);
      ok := files[file].Resize(size);
      OneStored(file);
      if ok {
        RunOne(old(fs.tree), OpOf(d, fs.eka2, ResizeTo(file, size))[0]);
      }
    }

    method Seek(file: nat, offset: int, from: SeekMode) returns (answer: nat)
      requires Valid() && file < |files|
      modifies files[file]
      ensures Valid() && fs.eka2 == old(fs.eka2) && files == old(files) && fs.index == old(fs.index)
      ensures View() == After(old(View()), old(fs.eka2), SeekTo(file, offset, from))
      ensures Answer.At(answer) == Given(old(View()), old(fs.eka2), SeekTo(file, offset, from))
    {
      ghost var d: Desk := View();
      assert FileAt(file) && d.files[file] == HandleOf(files[file]);
      assert fs.At(files[file].node.place);
      answer := files[file].Seek(offset, from);
      OneStored(file);
    }

    method Mount(drive: nat, media: Media, isProtected: bool) returns (ok: bool)
      requires Valid() && drive < DRIVES
      modifies this, fs, fs.index.Values
      ensures Valid() && fs.eka2 == old(fs.eka2) && files == old(files)
      ensures fresh(fs.index.Values - old(fs.index.Values))
      ensures View() == After(old(View()), old(fs.eka2), MountOne(drive, media, isProtected))
      ensures Done(ok) == Given(old(View()), old(fs.eka2), MountOne(drive, media, isProtected))
    {
      assert fs.At(Root(drive));
      ok := fs.MountEmpty(drive, media, isProtected);
      AllKept();
      RunOne(old(fs.tree), AddDrive(drive));
    }

    method Unmount(drive: nat) returns (ok: bool)
      requires Valid() && Owed(View(), fs.eka2, UnmountOne(drive))
      modifies this, fs, fs.index.Values
      ensures Valid() && fs.eka2 == old(fs.eka2) && files == old(files)
      ensures fresh(fs.index.Values - old(fs.index.Values))
      ensures View() == After(old(View()), old(fs.eka2), UnmountOne(drive))
      ensures Done(ok) == Given(old(View()), old(fs.eka2), UnmountOne(drive))
    {
      assert fs.At(Root(drive));
      ok := fs.Unmount(drive);
      if ok {
        UnnamedStay(DropDrive(drive));
      } else {
        AllKept();
      }
      RunOne(old(fs.tree), DropDrive(drive));
    }

    /** Closing leaves the file and the other handles as they are. */
    method Close(file: nat) returns (ok: bool)
      requires Valid() && file < |files|
      modifies this`files
      ensures Valid() && files == old(files[..file] + files[file + 1..])
      ensures View() == After(old(View()), fs.eka2, CloseFile(file)) && Done(ok) == Given(old(View()), fs.eka2, CloseFile(file))
    {
      files := files[..file] + files[file + 1..];
      OneLess(file);
      ok := true;
    }

    twostate lemma OneLess(new file: nat)
      requires old(Valid()) && file < |old(files)| && files == old(files)[..file] + old(files)[file + 1..]
      requires fs.Valid() && fs.tree == old(fs.tree) && fs.drives == old(fs.drives) && fs.index == old(fs.index)
      requires forall f | f in old(files) :: unchanged(f) && unchanged(f.node)
      ensures Valid()
      ensures View() == Desk(fs.tree, old(View()).files[..file] + old(View()).files[file + 1..], old(View()).isProtected)
    {
      forall i
        ensures FileAt(i)
        ensures 0 <= i < |files| ==> HandleOf(files[i]) == (old(View()).files[..file] + old(View()).files[file + 1..])[i]
      {
        if 0 <= i < |files| {
          var j := if i < file then i else i + 1;
          assert files[i] == old(files)[j] && old(FileAt(j));
        }
      }
    }

    /** All that a run of calls may change. */
    ghost function Reached(): set<object>
      reads this, fs
    {
      {this, fs} + fs.index.Values + set f | f in files
    }

    /** One call, whichever it is. */
    method Do(call: Call) returns (given: Answer)
      requires Valid() && Owed(View(), fs.eka2, call)
      modifies Reached()
      ensures Valid() && fs.eka2 == old(fs.eka2) && fresh(Reached() - old(Reached()))
      ensures View() == After(old(View()), old(fs.eka2), call) && given == Given(old(View()), old(fs.eka2), call)
    {
      if call.WriteTo? || call.ReadFrom? || call.ResizeTo? || call.SeekTo? {
        given := DoFile(call);
      } else if call.MountOne? || call.UnmountOne? || call.CloseFile? {
        var ok := DoDrive(call);
        given := Done(ok);
      } else {
        var ok := DoPath(call);
        given := Done(ok);
      }
    }

    /** One call on a drive, or the end of a file. */
    method DoDrive(call: Call) returns (ok: bool)
      requires Valid() && Owed(View(), fs.eka2, call)
      requires call.MountOne? || call.UnmountOne? || call.CloseFile?
      modifies Reached()
      ensures Valid() && fs.eka2 == old(fs.eka2) && fresh(Reached() - old(Reached()))
      ensures View() == After(old(View()), old(fs.eka2), call) && Done(ok) == Given(old(View()), old(fs.eka2), call)
    {
      match call {
        case MountOne(drive, media, isProtected) => ok := Mount(drive, media, isProtected);
        case UnmountOne(drive) => ok := Unmount(drive);
        case CloseFile(file) => ok := Close(file);
      }
    }

    /** One call on a path. */
    method DoPath(call: Call) returns (ok: bool)
      requires Valid() && Owed(View(), fs.eka2, call)
      requires call.OpenPath? || call.MakeOne? || call.MakeAll? || call.DeletePath? || call.RenamePath?
      modifies Reached()
      ensures Valid() && fs.eka2 == old(fs.eka2) && fresh(Reached() - old(Reached()))
      ensures View() == After(old(View()), old(fs.eka2), call) && Done(ok) == Given(old(View()), old(fs.eka2), call)
    {
      match call {
        case OpenPath(path, mode) => ok := Open(path, mode);
        case MakeOne(path) => ok := MakeOne(path);
        case MakeAll(path) => ok := MakeAll(path);
        case DeletePath(path) => ok := Delete(path);
        case RenamePath(oldPath, newPath) => ok := Rename(oldPath, newPath);
      }
    }

    /** One call on an open file. */
    method DoFile(call: Call) returns (given: Answer)
      requires Valid() && Owed(View(), fs.eka2, call)
      requires call.WriteTo? || call.ReadFrom? || call.ResizeTo? || call.SeekTo?
      modifies Reached()
      ensures Valid() && fs.eka2 == old(fs.eka2) && fresh(Reached() - old(Reached()))
      ensures View() == After(old(View()), old(fs.eka2), call) && given == Given(old(View()), old(fs.eka2), call)
    {
      match call {
        case WriteTo(file, data) =>
          assert FileAt(file);
          var n := Write(file, data);
          given := Wrote(n);
        case ReadFrom(file, count) =>
          var bytes := Read(file, count);
          given := Bytes(bytes);
        case ResizeTo(file, size) =>
          assert FileAt(file);
          var ok := Resize(file, size);
          given := Done(ok);
        case SeekTo(file, offset, from) =>
          var answer := Seek(file, offset, from);
          given := Answer.At(answer);
      }
    }

    /** The next call of a run. */
    method DoNext(ghost start: Desk, calls: seq<Call>, i: nat, given: seq<Answer>) returns (more: seq<Answer>)
      requires Valid() && i < |calls| && OnTheWay(start, fs.eka2, calls, View(), calls[i..], given)
      modifies Reached()
      ensures Valid() && fs.eka2 == old(fs.eka2) && fresh(Reached() - old(Reached()))
      ensures OnTheWay(start, fs.eka2, calls, View(), calls[i + 1..], more)
    {
      ghost var now := View();
      assert calls[i..][0] == calls[i];
      var answer := Do(calls[i]);
      more := given + [answer];
      OneCallOn(start, fs.eka2, calls, now, i, given, View(), i + 1, more);
    }

    /** Any run of calls leaves the tree and the handles, and gives the answers, that the flat map says. */
    method Play(calls: seq<Call>) returns (given: seq<Answer>)
      requires Valid() && OwedAll(View(), fs.eka2, calls)
      modifies Reached()
      ensures Valid() && fs.eka2 == old(fs.eka2) && fresh(Reached() - old(Reached()))
      ensures View() == AfterAll(old(View()), old(fs.eka2), calls)
      ensures given == GivenAll(old(View()), old(fs.eka2), calls)
    {
      given := [];
      ghost var start := View();
      assert calls[0..] == calls;
      for i := 0 to |calls|
        invariant Valid() && fs.eka2 == old(fs.eka2) && fresh(Reached() - old(Reached()))
        invariant OnTheWay(start, fs.eka2, calls, View(), calls[i..], given)
      {
        given := DoNext(start, calls, i, given);
      }
    }
  }
}

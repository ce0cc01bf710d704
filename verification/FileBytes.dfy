/** One growable byte array with a position: what an open file of the machine's means. */
module FileBytes {
  import opened Words

  function Zeros(n: nat): (z: seq<Byte>)
    ensures |z| == n && forall i | 0 <= i < n :: z[i] == 0
  {
    seq<Byte>(n, _ => 0)
  }

  /** The array cut or zero-filled to `n` bytes. */
  function Resized(bytes: seq<Byte>, n: nat): (r: seq<Byte>)
    ensures |r| == n
    ensures forall i | 0 <= i < n :: r[i] == if i < |bytes| then bytes[i] else 0
  {
    if n <= |bytes| then bytes[..n] else bytes + Zeros(n - |bytes|)
  }

  predicate IsOverwrite(bytes: seq<Byte>, at: nat, data: seq<Byte>, r: seq<Byte>) {
    && |r| == (if |bytes| < at + |data| then at + |data| else |bytes|)
    && (forall i | 0 <= i < |r| ::
          r[i] == if at <= i < at + |data| then data[i - at] else if i < |bytes| then bytes[i] else 0)
  }

  /** The array with `data` stored at `at`, zero-filled up to there when it was shorter. */
  function Overwrite(bytes: seq<Byte>, at: nat, data: seq<Byte>): (r: seq<Byte>)
    ensures IsOverwrite(bytes, at, data, r)
  {
    var n := if |bytes| < at + |data| then at + |data| else |bytes|;
    seq(n, i requires 0 <= i < n =>
      if at <= i < at + |data| then data[i - at] else if i < |bytes| then bytes[i] else 0)
  }

  datatype FileState = FileState(bytes: seq<Byte>, position: nat)

  function Write(s: FileState, data: seq<Byte>): FileState {
    FileState(Overwrite(s.bytes, s.position, data), s.position + |data|)
  }

  /** How many of `n` bytes there are to read. */
  function Available(s: FileState, n: nat): nat {
    var left := if s.position < |s.bytes| then |s.bytes| - s.position else 0;
    if n < left then n else left
  }

  function Read(s: FileState, n: nat): (r: (seq<Byte>, FileState))
    ensures |r.0| == Available(s, n)
  {
    var k := Available(s, n);
    if k == 0 then ([], s) else (s.bytes[s.position..s.position + k], s.(position := s.position + k))
  }

  // ---- runs of reads and writes ------------------------------------------

  function Flatten(chunks: seq<seq<Byte>>): seq<Byte> {
    if chunks == [] then [] else chunks[0] + Flatten(chunks[1..])
  }

  function Total(sizes: seq<nat>): nat {
    if sizes == [] then 0 else sizes[0] + Total(sizes[1..])
  }

  function WriteEach(s: FileState, chunks: seq<seq<Byte>>): FileState
    decreases |chunks|
  {
    if chunks == [] then s else WriteEach(Write(s, chunks[0]), chunks[1..])
  }

  function ReadEach(s: FileState, sizes: seq<nat>): (seq<Byte>, FileState)
    decreases |sizes|
  {
    if sizes == [] then ([], s)
    else
      var first := Read(s, sizes[0]);
      var rest := ReadEach(first.1, sizes[1..]);
      (first.0 + rest.0, rest.1)
  }

  lemma WriteTwice(s: FileState, a: seq<Byte>, b: seq<Byte>)
    ensures Write(Write(s, a), b) == Write(s, a + b)
  {
    var once := Write(s, a);
    var twice, whole := Write(once, b), Write(s, a + b);
    TwiceIsOnce(s.bytes, s.position, a, b, once.bytes, twice.bytes, whole.bytes);
  }

  lemma TwiceIsOnce(bytes: seq<Byte>, at: nat, a: seq<Byte>, b: seq<Byte>, once: seq<Byte>, twice: seq<Byte>, whole: seq<Byte>)
    requires IsOverwrite(bytes, at, a, once) && IsOverwrite(once, at + |a|, b, twice) && IsOverwrite(bytes, at, a + b, whole)
    ensures twice == whole
  {
    assert |twice| == |whole|;
    forall i | 0 <= i < |whole|
      ensures twice[i] == whole[i]
    {
      assert i < |once| ==> once[i] == if at <= i < at + |a| then a[i - at] else if i < |bytes| then bytes[i] else 0;
    }
  }

  /** How a write is cut into chunks leaves no trace. */
  lemma {:induction false} ChunkedWrite(s: FileState, chunks: seq<seq<Byte>>)
    requires chunks != []
    ensures WriteEach(s, chunks) == Write(s, Flatten(chunks))
    decreases |chunks|
  {
    if |chunks| == 1 {
      assert Flatten(chunks) == chunks[0];
      assert WriteEach(Write(s, chunks[0]), []) == Write(s, chunks[0]);
    } else {
      ChunkedWrite(Write(s, chunks[0]), chunks[1..]);
      WriteTwice(s, chunks[0], Flatten(chunks[1..]));
    }
  }

  lemma ReadTwice(s: FileState, a: nat, b: nat)
    ensures Read(s, a).0 + Read(Read(s, a).1, b).0 == Read(s, a + b).0
    ensures Read(Read(s, a).1, b).1 == Read(s, a + b).1
  {
  }

  /** How a read is cut into chunks leaves no trace. */
  lemma {:induction false} ChunkedRead(s: FileState, sizes: seq<nat>)
    ensures ReadEach(s, sizes) == Read(s, Total(sizes))
    decreases |sizes|
  {
    if sizes != [] {
      var first := Read(s, sizes[0]);
      ChunkedRead(first.1, sizes[1..]);
      ReadTwice(s, sizes[0], Total(sizes[1..]));
    }
  }

  /** What chunks of one cut wrote, chunks of any other cut read back. */
  lemma WriteThenRead(s: FileState, chunks: seq<seq<Byte>>, sizes: seq<nat>)
    requires chunks != [] && Total(sizes) == |Flatten(chunks)|
    ensures ReadEach(WriteEach(s, chunks).(position := s.position), sizes).0 == Flatten(chunks)
    ensures ReadEach(WriteEach(s, chunks).(position := s.position), sizes).1 == WriteEach(s, chunks)
  {
    ChunkedWrite(s, chunks);
    ChunkedRead(WriteEach(s, chunks).(position := s.position), sizes);
    ReadBack(s, Flatten(chunks));
  }

  lemma ReadBack(s: FileState, data: seq<Byte>)
    ensures Read(Write(s, data).(position := s.position), |data|) == (data, Write(s, data))
  {
    var w := Write(s, data);
    if data != [] {
      Stored(s.bytes, s.position, data, w.bytes);
    }
  }

  lemma Stored(bytes: seq<Byte>, at: nat, data: seq<Byte>, r: seq<Byte>)
    requires IsOverwrite(bytes, at, data, r)
    ensures at + |data| <= |r| && r[at..at + |data|] == data
  {
    forall i | 0 <= i < |data|
      ensures r[at..at + |data|][i] == data[i]
    {
      assert r[at + i] == data[i];
    }
  }
}

/** Mounting a package undoes its encoding; of one cut off anywhere, exactly the
    complete records are mounted; the files are disjoint slices of it. */
module PackageLaws {
  import opened Options
  import opened Words
  import opened Package

  // ---- encoded records ---------------------------------------------------

  /** A file of a package, with the bytes of its record. */
  datatype PackageFile = PackageFile(path: seq<Unit>, data: seq<Byte>, record: seq<Byte>) {
    /** Where the data starts within the record. */
    function DataAt(): nat {
      32 + 2 * |path|
    }

    /** The record says what the file is; its attributes and time may say anything. */
    predicate Encodes() {
      && |record| == DataAt() + |data|
      && Word(record[16..24]) == |path|
      && Units(record[24..DataAt() - 8]) == path
      && Word(record[DataAt() - 8..DataAt()]) == |data|
      && record[DataAt()..] == data
    }
  }

  function EncodeUnits(path: seq<Unit>): (bytes: seq<Byte>)
    ensures |bytes| == 2 * |path|
  {
    if path == [] then [] else [path[0] % 256, path[0] / 256] + EncodeUnits(path[1..])
  }

  /** The record an encoder writes. */
  function Encode(attributes: nat, time: nat, path: seq<Unit>, data: seq<Byte>): seq<Byte> {
    EncodeWord(attributes, 8) + EncodeWord(time, 8) + EncodeWord(|path|, 8)
    + EncodeUnits(path) + EncodeWord(|data|, 8) + data
  }

  lemma {:induction false} UnitsOfEncoded(path: seq<Unit>)
    ensures Units(EncodeUnits(path)) == path
  {
    if path != [] {
      var rest := EncodeUnits(path[1..]);
      UnitsOfEncoded(path[1..]);
      forall i | 0 <= i < |path|
        ensures Units(EncodeUnits(path))[i] == path[i]
      {
        if i > 0 {
          assert EncodeUnits(path)[2 * i] == rest[2 * (i - 1)] && EncodeUnits(path)[2 * i + 1] == rest[2 * (i - 1) + 1];
          assert Units(rest)[i - 1] == path[1..][i - 1];
        }
      }
    }
  }

  lemma LongWord(n: nat)
    requires n < 0x1_0000_0000_0000_0000
    ensures Word(EncodeWord(n, 8)) == n
  {
    assert Power256(4) == 0x1_0000_0000;
    assert Power256(8) == 0x1_0000_0000_0000_0000;
    WordOfEncoded(n, 8);
  }

  /** Whatever is encoded can be read back from its record. */
  lemma EncodeEncodes(attributes: nat, time: nat, path: seq<Unit>, data: seq<Byte>)
    requires |path| < 0x1_0000_0000_0000_0000 && |data| < 0x1_0000_0000_0000_0000
    ensures PackageFile(path, data, Encode(attributes, time, path, data)).Encodes()
  {
    var e := Encode(attributes, time, path, data);
    LongWord(|path|);
    LongWord(|data|);
    UnitsOfEncoded(path);
    Concatenated(EncodeWord(attributes, 8) + EncodeWord(time, 8), EncodeWord(|path|, 8), EncodeUnits(path),
                 EncodeWord(|data|, 8), data);
    assert |e| == 32 + 2 * |path| + |data| && e[16..24] == EncodeWord(|path|, 8);
  }

  lemma Concatenated(a: seq<Byte>, b: seq<Byte>, c: seq<Byte>, d: seq<Byte>, e: seq<Byte>)
    ensures var r := a + b + c + d + e;
            var i := |a| + |b|;
            && r[|a|..i] == b && r[i..i + |c|] == c && r[i + |c|..i + |c| + |d|] == d && r[i + |c| + |d|..] == e
  {
  }

  // ---- the header --------------------------------------------------------

  /** A header of either format; the second carries its own size, 32. */
  predicate IsHeader(h: seq<Byte>) {
    && |h| >= 24 && MagicWord(h, 0) == 'R' as nat && MagicWord(h, 1) == 'P' as nat && MagicWord(h, 2) == 'K' as nat
    && ((MagicWord(h, 3) == 'G' as nat && |h| == 24)
        || (MagicWord(h, 3) == '2' as nat && |h| == 32 && Word(h[24..28]) == 32))
  }

  lemma HeaderRead(h: seq<Byte>, rest: seq<Byte>)
    requires IsHeader(h)
    ensures HeaderEnd(h + rest) == Some(|h|)
  {
    assert forall i, j | 0 <= i <= j <= |h| :: (h + rest)[i..j] == h[i..j];
  }

  /** And nothing else is accepted: where a header is read, one stands. */
  lemma HeaderExactly(p: seq<Byte>, n: nat)
    ensures HeaderEnd(p) == Some(n) <==> n <= |p| && IsHeader(p[..n])
  {
    if n <= |p| {
      assert p[..n] + p[n..] == p;
      if HeaderEnd(p) == Some(n) {
        assert forall i, j | 0 <= i <= j <= n :: p[..n][i..j] == p[i..j];
      }
      if IsHeader(p[..n]) {
        HeaderRead(p[..n], p[n..]);
      }
    }
  }

  /** Such headers exist, in both formats. */
  lemma HeaderExists(version: seq<Byte>)
    requires |version| == 8
    ensures IsHeader([82, 0, 0, 0, 80, 0, 0, 0, 75, 0, 0, 0, 71, 0, 0, 0] + version)
    ensures IsHeader([82, 0, 0, 0, 80, 0, 0, 0, 75, 0, 0, 0, 50, 0, 0, 0] + version + [32, 0, 0, 0, 0, 0, 0, 0])
  {
    forall last: Byte, tail: seq<Byte>
      ensures var h := [82, 0, 0, 0, 80, 0, 0, 0, 75, 0, 0, 0, last, 0, 0, 0] + version + tail;
              && h[0..4] == [82, 0, 0, 0] && h[4..8] == [80, 0, 0, 0] && h[8..12] == [75, 0, 0, 0]
              && h[12..16] == [last, 0, 0, 0] && h[24..] == tail
    {
    }
    SmallWord(82);
    SmallWord(80);
    SmallWord(75);
    SmallWord(71);
    SmallWord(50);
    SmallWord(32);
    var first := [82, 0, 0, 0, 80, 0, 0, 0, 75, 0, 0, 0, 71, 0, 0, 0] + version;
    assert first + [] == first;
    var second := [82, 0, 0, 0, 80, 0, 0, 0, 75, 0, 0, 0, 50, 0, 0, 0] + version + [32, 0, 0, 0, 0, 0, 0, 0];
    assert second[24..28] == second[24..][..4] == [32, 0, 0, 0];
  }

  lemma SmallWord(n: Byte)
    ensures Word([n, 0, 0, 0]) == n
  {
    assert Word([0]) == 0;
    assert [0, 0][1..] == [0] && [0, 0, 0][1..] == [0, 0] && [n, 0, 0, 0][1..] == [0, 0, 0];
  }

  // ---- reading one record ------------------------------------------------

  function RecordOf(f: PackageFile, at: nat): Record {
    Record(f.path, at + f.DataAt(), |f.data|)
  }

  lemma SliceOfSlice(p: seq<Byte>, at: nat, e: seq<Byte>, n: nat, i: nat, j: nat)
    requires at + n <= |p| && n <= |e| && p[at..at + n] == e[..n] && i <= j <= n
    ensures p[at + i..at + j] == e[i..j]
  {
    forall k | 0 <= k < j - i
      ensures p[at + i..at + j][k] == e[i..j][k]
    {
      assert p[at..at + n][i + k] == e[..n][i + k];
    }
  }

  /** A complete record is read for what it encodes. */
  lemma RecordRead(p: seq<Byte>, at: nat, f: PackageFile)
    requires f.Encodes() && at + |f.record| <= |p| && p[at..at + |f.record|] == f.record
    ensures RecordAt(p, at) == Some(RecordOf(f, at))
    ensures p[at + f.DataAt()..at + |f.record|] == f.data
  {
    var e, n := f.record, |f.record|;
    assert e[..n] == e && e[f.DataAt()..n] == f.data;
    SliceOfSlice(p, at, e, n, 16, 24);
    SliceOfSlice(p, at, e, n, 24, f.DataAt() - 8);
    SliceOfSlice(p, at, e, n, f.DataAt() - 8, f.DataAt());
    SliceOfSlice(p, at, e, n, f.DataAt(), n);
  }

  /** A record cut off anywhere before its end is not read. */
  lemma CutRecordRefused(p: seq<Byte>, at: nat, f: PackageFile)
    requires f.Encodes() && at <= |p| < at + |f.record| && p[at..] == f.record[..|p| - at]
    ensures RecordAt(p, at) == None
  {
    var e, n := f.record, |p| - at;
    assert p[at..at + n] == e[..n];
    if n >= 24 {
      SliceOfSlice(p, at, e, n, 16, 24);
      if n >= f.DataAt() {
        SliceOfSlice(p, at, e, n, f.DataAt() - 8, f.DataAt());
      }
    }
  }

  // ---- reading all of them -----------------------------------------------

  predicate EncodesAt(files: seq<PackageFile>, i: nat) {
    i < |files| ==> files[i].Encodes()
  }

  ghost predicate AllEncode(files: seq<PackageFile>) {
    forall i: nat {:trigger EncodesAt(files, i)} :: EncodesAt(files, i)
  }

  lemma AllButFirst(files: seq<PackageFile>)
    requires AllEncode(files) && files != []
    ensures AllEncode(files[1..]) && files[0].Encodes()
  {
    assert EncodesAt(files, 0);
    forall i: nat
      ensures EncodesAt(files[1..], i)
    {
      assert EncodesAt(files, i + 1);
    }
  }

  function EncodeAll(files: seq<PackageFile>): seq<Byte> {
    if files == [] then [] else files[0].record + EncodeAll(files[1..])
  }

  function RecordsOf(files: seq<PackageFile>, at: nat): (r: seq<Record>)
    ensures |r| == |files|
  {
    if files == [] then [] else [RecordOf(files[0], at)] + RecordsOf(files[1..], at + |files[0].record|)
  }

  /** How many of the files lie wholly within the first `n` bytes of their encoding. */
  function Complete(files: seq<PackageFile>, n: nat): (k: nat)
    ensures k <= |files|
  {
    if files == [] || n < |files[0].record| then 0 else 1 + Complete(files[1..], n - |files[0].record|)
  }

  /** From `at` on, the package holds the files' records, perhaps cut off. */
  predicate Holds(p: seq<Byte>, at: nat, files: seq<PackageFile>) {
    at <= |p| <= at + |EncodeAll(files)| && p[at..] == EncodeAll(files)[..|p| - at]
  }

  lemma HoldsFirst(p: seq<Byte>, at: nat, files: seq<PackageFile>)
    requires Holds(p, at, files) && files != []
    ensures |p| < at + |files[0].record| ==> p[at..] == files[0].record[..|p| - at]
    ensures at + |files[0].record| <= |p| ==>
              p[at..at + |files[0].record|] == files[0].record && Holds(p, at + |files[0].record|, files[1..])
  {
    var first, rest, n := files[0].record, EncodeAll(files[1..]), |p| - at;
    if |first| <= n {
      assert (first + rest)[..n][..|first|] == first;
      assert (first + rest)[..n][|first|..] == rest[..n - |first|];
      assert p[at..][..|first|] == p[at..at + |first|];
      assert p[at..][|first|..] == p[at + |first|..];
    } else {
      assert (first + rest)[..n] == first[..n];
    }
  }

  lemma FirstRecord(p: seq<Byte>, at: nat, files: seq<PackageFile>)
    requires AllEncode(files) && Holds(p, at, files) && files != []
    ensures if |p| < at + |files[0].record| then Records(p, at) == []
            else Records(p, at) == [RecordOf(files[0], at)] + Records(p, at + |files[0].record|)
                 && Holds(p, at + |files[0].record|, files[1..]) && AllEncode(files[1..])
  {
    HoldsFirst(p, at, files);
    AllButFirst(files);
    if |p| < at + |files[0].record| {
      CutRecordRefused(p, at, files[0]);
    } else {
      RecordRead(p, at, files[0]);
    }
  }

  /** Exactly the files' complete records are read. */
  predicate ReadsComplete(p: seq<Byte>, at: nat, files: seq<PackageFile>)
    requires at <= |p|
  {
    Records(p, at) == RecordsOf(files, at)[..Complete(files, |p| - at)]
  }

  lemma FirstReads(p: seq<Byte>, at: nat, files: seq<PackageFile>)
    requires AllEncode(files) && Holds(p, at, files) && files != []
    requires at + |files[0].record| <= |p| ==> ReadsComplete(p, at + |files[0].record|, files[1..])
    ensures ReadsComplete(p, at, files)
  {
    FirstRecord(p, at, files);
  }

  /** Exactly the complete records of a package, cut off anywhere, are read. */
  lemma {:induction false} CutRecords(p: seq<Byte>, at: nat, files: seq<PackageFile>)
    requires AllEncode(files) && Holds(p, at, files)
    ensures ReadsComplete(p, at, files)
    decreases |files|
  {
    if files == [] {
      assert p[at..] == [];
    } else {
      FirstRecord(p, at, files);
      if |p| >= at + |files[0].record| {
        CutRecords(p, at + |files[0].record|, files[1..]);
      }
      FirstReads(p, at, files);
    }
  }

  /** Record `i` is file `i`'s: its path, and as a slice of the package its bytes. */
  predicate HoldsData(p: seq<Byte>, at: nat, files: seq<PackageFile>, i: nat)
    requires i < |files|
  {
    var r := RecordsOf(files, at)[i];
    r.path == files[i].path && r.start + r.size <= |p| && p[r.start..r.start + r.size] == files[i].data
  }

  /** Each complete record's slice holds its file's bytes. */
  lemma {:induction false} SlicesHoldData(p: seq<Byte>, at: nat, files: seq<PackageFile>, i: nat)
    requires AllEncode(files) && Holds(p, at, files) && i < Complete(files, |p| - at)
    ensures HoldsData(p, at, files, i)
    decreases |files|
  {
    HoldsFirst(p, at, files);
    AllButFirst(files);
    if i == 0 {
      RecordRead(p, at, files[0]);
    } else {
      SlicesHoldData(p, at + |files[0].record|, files[1..], i - 1);
    }
  }

  /** Of any package whatever, the records are slices inside it, one after the other. */
  lemma {:induction false} SlicesApart(package: seq<Byte>, at: nat, i: nat, j: nat)
    requires at <= |package| && i < j < |Records(package, at)|
    ensures var r, s := Records(package, at)[i], Records(package, at)[j];
            at <= r.start && r.start + r.size < s.start && s.start + s.size <= |package|
    decreases |package| - at
  {
    var r := RecordAt(package, at).value;
    if i > 0 {
      SlicesApart(package, r.start + r.size, i - 1, j - 1);
    } else {
      SlicesAfter(package, r.start + r.size, j - 1);
    }
  }

  lemma {:induction false} SlicesAfter(package: seq<Byte>, at: nat, j: nat)
    requires at <= |package| && j < |Records(package, at)|
    ensures at < Records(package, at)[j].start
    ensures Records(package, at)[j].start + Records(package, at)[j].size <= |package|
    decreases |package| - at
  {
    if j > 0 {
      var r := RecordAt(package, at).value;
      SlicesAfter(package, r.start + r.size, j - 1);
    }
  }
}

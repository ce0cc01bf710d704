/** An RPKG, the dump of a phone's ROFS: a header and then records, each a path and
    the file's bytes. Words are little-endian. */
module Package {
  import opened Options
  import opened Paths
  import opened Words
  import opened FlatTree

  // ---- words -------------------------------------------------------------

  function Word(bytes: seq<Byte>): nat {
    if bytes == [] then 0 else bytes[0] + 256 * Word(bytes[1..])
  }

  function EncodeWord(n: nat, width: nat): (bytes: seq<Byte>)
    ensures |bytes| == width
  {
    if width == 0 then [] else [n % 256] + EncodeWord(n / 256, width - 1)
  }

  function Power256(width: nat): nat {
    if width == 0 then 1 else 256 * Power256(width - 1)
  }

  lemma {:induction false} WordOfEncoded(n: nat, width: nat)
    requires n < Power256(width)
    ensures Word(EncodeWord(n, width)) == n
  {
    if width != 0 {
      assert n / 256 < Power256(width - 1);
      WordOfEncoded(n / 256, width - 1);
      assert EncodeWord(n, width)[1..] == EncodeWord(n / 256, width - 1);
    }
  }

  /** One 16-bit unit of a path. */
  type Unit = u: int | 0 <= u < 0x10000

  function UnitOf(low: Byte, high: Byte): Unit {
    var h: int := high;
    low + 256 * h
  }

  function Units(bytes: seq<Byte>): (units: seq<Unit>)
    requires |bytes| % 2 == 0
    ensures |units| == |bytes| / 2
  {
    seq<Unit>(|bytes| / 2, i requires 0 <= i < |bytes| / 2 => UnitOf(bytes[2 * i], bytes[2 * i + 1]))
  }

  // ---- the header --------------------------------------------------------

  function MagicWord(package: seq<Byte>, i: nat): nat
    requires 4 * i + 4 <= |package|
  {
    Word(package[4 * i..4 * i + 4])
  }

  /** Where the records start; none when it is not an RPKG. */
  function HeaderEnd(package: seq<Byte>): (end: Option<nat>)
    ensures end.Some? ==> end.value <= |package|
  {
    if |package| < 16 || MagicWord(package, 0) != 'R' as nat || MagicWord(package, 1) != 'P' as nat
       || MagicWord(package, 2) != 'K' as nat || (MagicWord(package, 3) != 'G' as nat && MagicWord(package, 3) != '2' as nat)
    then None
    else if |package| < 24 then None
    else if MagicWord(package, 3) == 'G' as nat then Some(24)
    else if |package| < 32 || Word(package[24..28]) != 32 then None
    else Some(32)
  }

  // ---- the records -------------------------------------------------------

  datatype Record = Record(path: seq<Unit>, start: nat, size: nat)

  /** The record that starts at `at`, with where it ends; none when it is cut off. */
  function RecordAt(package: seq<Byte>, at: nat): (r: Option<Record>)
    requires at <= |package|
    ensures r.Some? ==> at + 32 <= r.value.start && r.value.start + r.value.size <= |package|
  {
    if |package| - at < 24 then None
    else
      var units := Word(package[at + 16..at + 24]);
      var cursor := at + 24;
      if |package| - cursor < units * 2 + 8 then None
      else
        var path := Units(package[cursor..cursor + units * 2]);
        var start := cursor + units * 2 + 8;
        var size := Word(package[start - 8..start]);
        if |package| - start < size then None else Some(Record(path, start, size))
  }

  /** The complete records from `at` on, up to the first that is cut off. */
  function Records(package: seq<Byte>, at: nat): seq<Record>
    requires at <= |package|
    decreases |package| - at
  {
    match RecordAt(package, at)
    case None => []
    case Some(r) => [r] + Records(package, r.start + r.size)
  }

  /** `done` has been read of the records from `start` on, and `at` is the place after it. */
  predicate HasRead(package: seq<Byte>, start: nat, done: seq<Record>, at: nat)
    requires start <= |package| && at <= |package|
  {
    Records(package, start) == done + Records(package, at)
  }

  lemma OneMoreRead(package: seq<Byte>, start: nat, done: seq<Record>, at: nat, r: Record, more: seq<Record>, stop: nat)
    requires start <= |package| && at <= |package| && RecordAt(package, at) == Some(r)
    requires HasRead(package, start, done, at) && more == done + [r] && stop == r.start + r.size
    ensures stop <= |package| && HasRead(package, start, more, stop)
  {
    assert done + ([r] + Records(package, stop)) == more + Records(package, stop);
  }

  // ---- what a record does to the tree ------------------------------------

  /** How the emulator turns a path's units into bytes. */
  type Converter = seq<Unit> -> string

  /** The names a record's path gives: the drive dropped, the rest lowercased. */
  function RecordNames(convert: Converter, path: seq<Unit>): (names: seq<string>)
    ensures AreNames(names)
  {
    if |path| > 3 then
      ComponentsAreNames(Lowered(convert(path[3..])));
      Components(Lowered(convert(path[3..])))
    else []
  }

  /** The tree with a file of the package laid at `at`, and directories on the way. */
  function Lay(m: Flat, at: Located, file: Slice): Flat {
    if at.names == [] then m
    else
      var k := KeyOf(at);
      var above := AllDirectories(m, at.(names := at.names[..|at.names| - 1]));
      var before := if k in above then above[k] else Entry(Leaf(at), false, [], None);
      above[k := before.(isDir := false, fixed := Some(file))]
  }

  /** The tree once the directories and the file's own entry are there, but not its bytes. */
  predicate EntryLaid(m: Flat, at: Located, t: Flat)
    requires at.names != []
  {
    var n, k := |at.names| - 1, KeyOf(at);
    var above := AllDirectories(m, at.(names := at.names[..n]));
    t == above[k := if k in above then above[k].(isDir := false) else Entry(at.names[n], false, [], None)]
  }

  lemma EntryAfterDirectories(m: Flat, at: Located, t: Flat, next: Flat)
    requires at.names != [] && DirectoriesTo(m, at, |at.names| - 1, t)
    requires var k := KeyOf(at);
             next == t[k := if k in t then t[k].(isDir := false) else Entry(at.names[|at.names| - 1], false, [], None)]
    ensures EntryLaid(m, at, next)
  {
  }

  /** The tree after `n` names of the way: directories, and with the last name the entry. */
  predicate WayTo(m: Flat, at: Located, n: nat, t: Flat)
    requires n <= |at.names| && at.names != []
  {
    if n < |at.names| then DirectoriesTo(m, at, n, t) else EntryLaid(m, at, t)
  }

  lemma WayOnward(m: Flat, at: Located, n: nat, t: Flat, next: Flat, k: Key)
    requires n < |at.names| && k == Below(Root(at.drive), at.names[..n + 1]) && WayTo(m, at, n, t)
    requires next == t[k := if k in t then t[k].(isDir := n + 1 < |at.names|)
                            else Entry(at.names[n], n + 1 < |at.names|, [], None)]
    ensures WayTo(m, at, n + 1, next)
  {
    if n + 1 < |at.names| {
      DirectoriesOnward(m, at, n, t, next, k);
    } else {
      assert at.names[..n + 1] == at.names;
      EntryAfterDirectories(m, at, t, next);
    }
  }

  /** And once it has its bytes. */
  predicate IsLaid(m: Flat, at: Located, file: Slice, t: Flat) {
    t == Lay(m, at, file)
  }

  lemma BytesAfterEntry(m: Flat, at: Located, file: Slice, t: Flat, next: Flat)
    requires at.names != [] && EntryLaid(m, at, t) && KeyOf(at) in t
    requires next == t[KeyOf(at) := t[KeyOf(at)].(fixed := Some(file))]
    ensures IsLaid(m, at, file, next)
  {
  }

  function LayAll(m: Flat, drive: nat, convert: Converter, package: seq<Byte>, records: seq<Record>): Flat
    decreases |records|
  {
    if records == [] then m
    else
      var r := records[|records| - 1];
      Lay(LayAll(m, drive, convert, package, records[..|records| - 1]),
          Located(drive, RecordNames(convert, r.path)), Slice(package, r.start, r.size))
  }

  /** How many of the records name a file. */
  function FileCount(convert: Converter, records: seq<Record>): (n: nat)
    ensures n <= |records|
    decreases |records|
  {
    if records == [] then 0
    else
      FileCount(convert, records[..|records| - 1])
      + (if RecordNames(convert, records[|records| - 1].path) == [] then 0 else 1)
  }

  /** The tree and the count of files after the records were laid on `m`. */
  predicate HasLaid(m: Flat, drive: nat, convert: Converter, package: seq<Byte>, records: seq<Record>, t: Flat, files: nat) {
    t == LayAll(m, drive, convert, package, records) && files == FileCount(convert, records)
  }

  lemma OneMoreLaid(m: Flat, drive: nat, convert: Converter, package: seq<Byte>, records: seq<Record>, t: Flat, files: nat,
                    r: Record, laid: Flat, counted: nat, more: seq<Record>)
    requires HasLaid(m, drive, convert, package, records, t, files) && more == records + [r]
    requires IsLaid(t, Located(drive, RecordNames(convert, r.path)), Slice(package, r.start, r.size), laid)
    requires counted == files + (if RecordNames(convert, r.path) == [] then 0 else 1)
    ensures HasLaid(m, drive, convert, package, more, laid, counted)
  {
    assert more[..|records|] == records;
  }

  /** What holds between two records: the ones done are those before `at`, and were laid. */
  predicate Midway(m: Flat, drive: nat, convert: Converter, package: seq<Byte>, start: nat, done: seq<Record>,
                   at: nat, t: Flat, files: nat)
    requires start <= |package| && at <= |package|
  {
    HasRead(package, start, done, at) && HasLaid(m, drive, convert, package, done, t, files)
  }

  lemma AtStart(m: Flat, drive: nat, convert: Converter, package: seq<Byte>, start: nat)
    requires start <= |package|
    ensures Midway(m, drive, convert, package, start, [], start, m, 0)
  {
  }

  lemma Onward(m: Flat, drive: nat, convert: Converter, package: seq<Byte>, start: nat, done: seq<Record>,
               at: nat, t: Flat, files: nat, r: Record, laid: Flat, counted: nat, more: seq<Record>, stop: nat)
    requires more == done + [r] && stop == r.start + r.size
    requires start <= |package| && at <= |package| && RecordAt(package, at) == Some(r)
    requires Midway(m, drive, convert, package, start, done, at, t, files)
    requires IsLaid(t, Located(drive, RecordNames(convert, r.path)), Slice(package, r.start, r.size), laid)
    requires counted == files + (if RecordNames(convert, r.path) == [] then 0 else 1)
    ensures stop <= |package| && Midway(m, drive, convert, package, start, more, stop, laid, counted)
  {
    OneMoreRead(package, start, done, at, r, more, stop);
    OneMoreLaid(m, drive, convert, package, done, t, files, r, laid, counted, more);
  }

  lemma AtEnd(m: Flat, drive: nat, convert: Converter, package: seq<Byte>, start: nat, done: seq<Record>,
              at: nat, t: Flat, files: nat)
    requires start <= |package| && at <= |package| && RecordAt(package, at).None?
    requires Midway(m, drive, convert, package, start, done, at, t, files)
    ensures HasLaid(m, drive, convert, package, Records(package, start), t, files)
  {
    assert done + [] == done;
  }

  /** What mounting a package answers, -1 or the number of files, and what it leaves. */
  datatype MountOutcome = MountOutcome(answer: int, tree: Flat)

  function Mount(m: Flat, drive: nat, convert: Converter, package: seq<Byte>): MountOutcome {
    if HeaderEnd(package).None? || Root(drive) in m then MountOutcome(-1, m)
    else
      var records := Records(package, HeaderEnd(package).value);
      MountOutcome(FileCount(convert, records), LayAll(m[Root(drive) := ROOT], drive, convert, package, records))
  }
}

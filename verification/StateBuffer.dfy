/** The driver's savestate buffer: written at its end, doubled when full, read from a
    position of its own. */
module StateBuffer {
  import opened Words
  import FileBytes

  class StateBuf {
    var p: array?<Byte>
    var len: nat
    var cap: nat
    var pos: nat

    /** How many bytes growing has ever had to move. */
    ghost var moved: nat

    ghost predicate Valid()
      reads this
    {
      && len <= cap && moved <= cap
      && (p == null ==> cap == 0) && (p != null ==> p.Length == cap)
    }

    /** The state saved so far. */
    ghost function Contents(): seq<Byte>
      requires Valid()
      reads this, p
    {
      if p == null then [] else p[..len]
    }

    /** What is left to load, as a file open on the saved state has it. */
    ghost function State(): FileBytes.FileState
      requires Valid()
      reads this, p
    {
      FileBytes.FileState(Contents(), pos)
    }

    constructor ()
      ensures Valid() && Contents() == [] && pos == 0
    {
      p, len, cap, pos, moved := null, 0, 0, 0, 0;
    }

    /** Appends all of the bytes, or, when memory runs out, none of them. */
    method StateWrite(d: seq<Byte>, memoryLeft: bool) returns (answer: int)
      requires Valid()
      modifies this, p
      ensures Valid() && pos == old(pos) && (p == old(p) || fresh(p))
      ensures answer == (if memoryLeft || old(len) + |d| <= old(cap) then 0 else -1)
      ensures answer == 0 ==> Contents() == old(Contents()) + d
      ensures answer != 0 ==> Contents() == old(Contents()) && p == old(p) && cap == old(cap)
    {
      if len + |d| > cap {
        var want := (len + |d|) * 2;
        if !memoryLeft {
          return -1;
        }
        Grow(want);
      }
      label grown:
      if p != null {
        forall i | 0 <= i < |d| {
          p[len + i] := d[i];
        }
        assert p[..len] == old@grown(p[..len]);
        assert p[..len + |d|] == p[..len] + d;
      }
      len := len + |d|;
      return 0;
    }

    /** Moves the bytes into a larger block. */
    method Grow(want: nat)
      requires Valid() && want >= 2 * len && want > cap + len
      modifies this`p, this`cap, this`moved
      ensures Valid() && cap == want && p != null && fresh(p) && Contents() == old(Contents())
    {
      var q := new Byte[want];
      if p != null {
        forall i | 0 <= i < len {
          q[i] := p[i];
        }
        assert q[..len] == p[..len];
      }
      p, cap, moved := q, want, moved + len;
    }

    method StateRead(d: array<Byte>, n: nat) returns (got: nat)
      requires Valid() && pos <= len && d != p && n <= d.Length
      modifies this`pos, d
      ensures Valid() && Contents() == old(Contents()) && pos <= len && got <= n
      ensures FileBytes.Read(old(State()), n) == (d[..got], State())
      ensures forall i | got <= i < d.Length :: d[i] == old(d[i])
    {
      var left := len - pos;
      got := if n > left then left else n;
      if p != null {
        forall i | 0 <= i < got {
          d[i] := p[pos + i];
        }
        assert forall i | 0 <= i < got :: d[i] == p[pos + i];
        assert d[..got] == p[..len][pos..pos + got];
      }
      pos := pos + got;
    }

    /** A new save starts over in the memory there is. */
    method StartSave()
      requires Valid()
      modifies this`len
      ensures Valid() && Contents() == []
    {
      len := 0;
    }

    method StartLoad()
      requires Valid()
      modifies this`pos
      ensures Valid() && State() == FileBytes.FileState(Contents(), 0)
    {
      pos := 0;
    }
  }

  /** Saved in any pieces and loaded in any others, the state comes back. */
  lemma {:induction false} SaveThenLoad(chunks: seq<seq<Byte>>, sizes: seq<nat>)
    requires FileBytes.Total(sizes) >= |FileBytes.Flatten(chunks)|
    ensures FileBytes.ReadEach(FileBytes.FileState(Saved([], chunks), 0), sizes).0 == FileBytes.Flatten(chunks)
  {
    SavedIsFlat([], chunks);
    var all := FileBytes.Flatten(chunks);
    assert [] + all == all;
    FileBytes.ChunkedRead(FileBytes.FileState(all, 0), sizes);
    assert all[0..|all|] == all;
  }

  /** What saving the chunks one after the other leaves. */
  function Saved(contents: seq<Byte>, chunks: seq<seq<Byte>>): seq<Byte>
    decreases |chunks|
  {
    if chunks == [] then contents else Saved(contents + chunks[0], chunks[1..])
  }

  lemma {:induction false} SavedIsFlat(contents: seq<Byte>, chunks: seq<seq<Byte>>)
    ensures Saved(contents, chunks) == contents + FileBytes.Flatten(chunks)
    decreases |chunks|
  {
    if chunks != [] {
      SavedIsFlat(contents + chunks[0], chunks[1..]);
      assert contents + chunks[0] + FileBytes.Flatten(chunks[1..]) == contents + (chunks[0] + FileBytes.Flatten(chunks[1..]));
    }
  }

  // ---- on a buffer -------------------------------------------------------

  lemma {:induction false} SavedOneMore(contents: seq<Byte>, chunks: seq<seq<Byte>>, n: nat, m: nat)
    requires n < |chunks| && m == n + 1
    ensures Saved(contents, chunks[..m]) == Saved(contents, chunks[..n]) + chunks[n]
    decreases n
  {
    assert chunks[..m][1..] == chunks[1..][..n];
    if n == 0 {
      assert chunks[..n] == [];
    } else {
      assert chunks[..n][1..] == chunks[1..][..n - 1];
      SavedOneMore(contents + chunks[0], chunks[1..], n - 1, n);
    }
  }

  /** Saves the chunks into the buffer, up to the first that memory refuses. */
  method SaveAll(b: StateBuf, chunks: seq<seq<Byte>>, memoryLeft: seq<bool>) returns (saved: nat)
    requires b.Valid() && |memoryLeft| == |chunks|
    modifies b, b.p
    ensures b.Valid() && (b.p == old(b.p) || fresh(b.p)) && saved <= |chunks|
    ensures b.Contents() == Saved([], chunks[..saved])
    ensures saved < |chunks| ==> !memoryLeft[saved]
  {
    b.StartSave();
    saved := 0;
    while saved < |chunks|
      invariant b.Valid() && (b.p == old(b.p) || fresh(b.p)) && saved <= |chunks|
      invariant b.Contents() == Saved([], chunks[..saved])
    {
      var answer := b.StateWrite(chunks[saved], memoryLeft[saved]);
      if answer != 0 {
        return;
      }
      SavedOneMore([], chunks, saved, saved + 1);
      saved := saved + 1;
    }
  }

  /** Loads from the buffer in pieces of the given sizes. */
  method LoadAll(b: StateBuf, sizes: seq<nat>) returns (loaded: seq<Byte>)
    requires b.Valid()
    modifies b`pos
    ensures b.Valid() && b.Contents() == old(b.Contents())
    ensures loaded == FileBytes.ReadEach(FileBytes.FileState(b.Contents(), 0), sizes).0
  {
    b.StartLoad();
    loaded := [];
    ghost var start := b.State();
    assert sizes[0..] == sizes;
    for i := 0 to |sizes|
      invariant b.Valid() && b.pos <= b.len && b.Contents() == start.bytes
      invariant LoadsOn(start, sizes, loaded, b.State(), sizes[i..])
    {
      ghost var before, now := loaded, b.State();
      var piece := new Byte[sizes[i]];
      var got := b.StateRead(piece, sizes[i]);
      loaded := loaded + piece[..got];
      OnePieceOn(start, sizes, before, now, i, i + 1, loaded, b.State());
    }
  }

  /** So far this was loaded, and the other pieces load the rest of what all of them load. */
  ghost predicate LoadsOn(start: FileBytes.FileState, sizes: seq<nat>, loaded: seq<Byte>, now: FileBytes.FileState, rest: seq<nat>) {
    loaded + FileBytes.ReadEach(now, rest).0 == FileBytes.ReadEach(start, sizes).0
  }

  lemma OnePieceOn(start: FileBytes.FileState, sizes: seq<nat>, loaded: seq<Byte>, now: FileBytes.FileState, i: nat, j: nat,
                   more: seq<Byte>, next: FileBytes.FileState)
    requires i < |sizes| && j == i + 1 && LoadsOn(start, sizes, loaded, now, sizes[i..])
    requires FileBytes.Read(now, sizes[i]).1 == next && more == loaded + FileBytes.Read(now, sizes[i]).0
    ensures LoadsOn(start, sizes, more, next, sizes[j..])
  {
    assert sizes[i..][0] == sizes[i] && sizes[i..][1..] == sizes[j..];
  }

  /** What is saved in any pieces and loaded in any others comes back, unless memory ran out. */
  method SaveAndLoad(b: StateBuf, chunks: seq<seq<Byte>>, memoryLeft: seq<bool>, sizes: seq<nat>)
    returns (saved: nat, loaded: seq<Byte>)
    requires b.Valid() && |memoryLeft| == |chunks|
    modifies b, b.p
    ensures b.Valid() && (b.p == old(b.p) || fresh(b.p)) && saved <= |chunks|
    ensures saved < |chunks| ==> !memoryLeft[saved]
    ensures FileBytes.Total(sizes) >= |FileBytes.Flatten(chunks[..saved])| ==> loaded == FileBytes.Flatten(chunks[..saved])
  {
    saved := SaveAll(b, chunks, memoryLeft);
    loaded := LoadAll(b, sizes);
    if FileBytes.Total(sizes) >= |FileBytes.Flatten(chunks[..saved])| {
      SaveThenLoad(chunks[..saved], sizes);
    }
  }
}

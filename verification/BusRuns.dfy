/** Runs of accesses to the bus while the game maps pages and stores in them: the translation
    that is kept never shows. */
module BusRuns {
  import opened Words
  import opened MemoryBus

  /** The memory as it is without a kept translation: which frame each page shows, and what
      the frames hold. Two pages may show one frame. */
  datatype Memory = Memory(started: bool, inited: bool, shown: map<Address, nat>, frames: seq<seq<Byte>>) {
    predicate Sound() {
      && (forall i | 0 <= i < |frames| :: |frames[i]| == PAGE)
      && (forall p | p in shown :: shown[p] < |frames|)
    }
  }

  datatype Call =
    | Peek(bus: int, addr: int)
    | Poke(bus: int, addr: int, value: int)
    | ReadRun(bus: int, addr: int, len: int)
    | Start
    | Up
    | MapNew(page: Address, content: seq<Byte>)
    | MapShared(page: Address, frame: nat)
    | Stores(frame: nat, offset: nat, byte: Byte)

  /** The frame an address reads, none in the lowest page and where nothing is mapped. */
  predicate IsMapped(m: Memory, addr: Address) {
    PageOf(addr) != 0 && PageOf(addr) in m.shown
  }

  function ByteOf(m: Memory, addr: Address): Byte
    requires m.Sound()
  {
    if IsMapped(m, addr) then m.frames[m.shown[PageOf(addr)]][OffsetOf(addr)] else 0
  }

  predicate OnBus(m: Memory, bus: int, addr: int) {
    m.inited && bus == 0 && 0 <= addr < BUS_SIZE
  }

  function BusByteOf(m: Memory, bus: int, addr: int): Byte
    requires m.Sound()
  {
    if OnBus(m, bus, addr) then ByteOf(m, addr) else 0
  }

  function Stored(m: Memory, frame: nat, offset: nat, value: Byte): Memory
    requires m.Sound() && frame < |m.frames| && offset < PAGE
  {
    var held: seq<Byte> := m.frames[frame][offset := value];
    m.(frames := m.frames[frame := held])
  }

  /** A run wholly inside the bus is its bytes; any other is zeros. */
  function RunByte(m: Memory, bus: int, addr: int, n: nat, i: nat): Byte
    requires m.Sound() && i < n
  {
    if addr >= 0 && addr + n <= BUS_SIZE then BusByteOf(m, bus, addr + i) else 0
  }

  function RunOf(m: Memory, bus: int, addr: int, n: nat): seq<Byte>
    requires m.Sound()
  {
    seq(n, i requires 0 <= i < n => RunByte(m, bus, addr, n, i))
  }

  /** What a call gives: one byte, a run of them, or none. */
  function Given(m: Memory, call: Call): seq<Byte>
    requires m.Sound()
  {
    match call
    case Peek(bus, addr) => [BusByteOf(m, bus, addr)]
    case ReadRun(bus, addr, len) =>
      RunOf(m, bus, addr, RunLength(len))
    case _ => []
  }

  /** The kernel maps whole pages where none is, once there is memory. */
  predicate Owed(m: Memory, call: Call) {
    match call
    case MapNew(page, content) => m.started && page !in m.shown && page % PAGE == 0 && |content| == PAGE
    case MapShared(page, frame) => m.started && page !in m.shown && page % PAGE == 0 && frame < |m.frames|
    case Stores(frame, offset, _) => frame < |m.frames| && offset < PAGE
    case _ => true
  }

  function After(m: Memory, call: Call): (r: Memory)
    requires m.Sound() && Owed(m, call)
    ensures r.Sound()
  {
    match call
    case Poke(bus, addr, value) =>
      if OnBus(m, bus, addr) && IsMapped(m, addr) then Stored(m, m.shown[PageOf(addr)], OffsetOf(addr), value % 256) else m
    case Start => m.(started := true)
    case Up => m.(inited := true)
    case MapNew(page, content) => m.(shown := m.shown[page := |m.frames|], frames := m.frames + [content])
    case MapShared(page, frame) => m.(shown := m.shown[page := frame])
    case Stores(frame, offset, byte) => Stored(m, frame, offset, byte)
    case _ => m
  }

  predicate OwedAll(m: Memory, calls: seq<Call>)
    requires m.Sound()
    decreases |calls|
  {
    calls == [] || (Owed(m, calls[0]) && OwedAll(After(m, calls[0]), calls[1..]))
  }

  function AfterAll(m: Memory, calls: seq<Call>): Memory
    requires m.Sound() && OwedAll(m, calls)
    decreases |calls|
  {
    if calls == [] then m else AfterAll(After(m, calls[0]), calls[1..])
  }

  function GivenAll(m: Memory, calls: seq<Call>): seq<seq<Byte>>
    requires m.Sound() && OwedAll(m, calls)
    decreases |calls|
  {
    if calls == [] then [] else [Given(m, calls[0])] + GivenAll(After(m, calls[0]), calls[1..])
  }

  /** So far the calls gave `given`, and the rest of them leads where all of them lead. */
  predicate OnTheWay(start: Memory, calls: seq<Call>, now: Memory, rest: seq<Call>, given: seq<seq<Byte>>) {
    && start.Sound() && now.Sound() && OwedAll(start, calls) && OwedAll(now, rest)
    && AfterAll(now, rest) == AfterAll(start, calls)
    && given + GivenAll(now, rest) == GivenAll(start, calls)
  }

  lemma OneCallOn(start: Memory, calls: seq<Call>, now: Memory, i: nat, given: seq<seq<Byte>>, next: Memory, more: seq<seq<Byte>>)
    requires i < |calls| && OnTheWay(start, calls, now, calls[i..], given) && Owed(now, calls[i])
    requires next == After(now, calls[i]) && more == given + [Given(now, calls[i])]
    ensures OnTheWay(start, calls, next, calls[i + 1..], more)
  {
    assert calls[i..][1..] == calls[i + 1..] && calls[i..][0] == calls[i];
    var rest := GivenAll(next, calls[i + 1..]);
    assert given + ([Given(now, calls[i])] + rest) == more + rest;
  }

  // ---- told by numbers ---------------------------------------------------

  /** A page is 4096 bytes: what an address in it reads is the frame's byte that far in. */
  lemma PagesExactly(m: Memory, page: nat, offset: nat)
    requires m.Sound() && page % 4096 == 0 && offset < 4096 && page + offset < 0x1_0000_0000
    ensures ByteOf(m, page + offset) == if page != 0 && page in m.shown then m.frames[m.shown[page]][offset] else 0
  {
  }

  /** The bus is the first 67108864 addresses of bus 0; the lowest 4096 of them are never memory. */
  lemma BusExactly(m: Memory, bus: int, addr: int)
    requires m.Sound()
    ensures Given(m, Peek(bus, addr))
            == [if m.inited && bus == 0 && 4096 <= addr < 67108864 then ByteOf(m, addr) else 0]
  {
  }

  /** Until the machine is up the bus reads as 0 everywhere, and then as its memory. */
  lemma BusComesUp(m: Memory, addr: int)
    requires m.Sound() && 0 <= addr < 67108864
    ensures !m.inited ==> Given(m, Peek(0, addr)) == [0] && After(m, Poke(0, addr, 1)) == m
    ensures Given(After(m, Up), Peek(0, addr)) == [ByteOf(m, addr)]
  {
  }

  /** A page mapped while the machine runs reads as what it holds, and a store of the game's as what
      was stored, from then on. */
  lemma SeenAtOnce(m: Memory, page: nat, content: seq<Byte>, offset: nat, byte: Byte)
    requires 0 < page < 67108864 && offset < 4096 && m.Sound() && m.inited && Owed(m, MapNew(page, content))
    ensures var mapped := After(m, MapNew(page, content));
            && Given(mapped, Peek(0, page + offset)) == [content[offset]]
            && Given(After(mapped, Stores(|m.frames|, offset, byte)), Peek(0, page + offset)) == [byte]
  {
    PagesExactly(After(m, MapNew(page, content)), page, offset);
  }

  /** A run is what peeking gives byte by byte, 65536 bytes at most, when all of it lies inside. */
  lemma RunExactly(m: Memory, addr: int, len: int, i: nat)
    requires m.Sound()
    ensures |Given(m, ReadRun(0, addr, len))| == if len < 0 then 0 else if len > 65536 then 65536 else len
    ensures i < |Given(m, ReadRun(0, addr, len))| ==>
              var n := |Given(m, ReadRun(0, addr, len))|;
              [Given(m, ReadRun(0, addr, len))[i]]
              == if addr >= 0 && addr + n <= 67108864 then Given(m, Peek(0, addr + i)) else [0]
  {
  }

  /** A poke is seen at its own address and at every other that shows the same byte of memory,
      and nowhere else; what is stored is the value's low byte. */
  lemma PokedThenPeeked(m: Memory, addr: int, value: int, at: int)
    requires m.Sound() && m.inited && 4096 <= addr < 67108864 && 4096 <= at < 67108864
    requires addr - addr % 4096 in m.shown && at - at % 4096 in m.shown
    ensures Given(After(m, Poke(0, addr, value)), Peek(0, at))
            == if m.shown[at - at % 4096] == m.shown[addr - addr % 4096] && at % 4096 == addr % 4096 then [value % 256]
               else Given(m, Peek(0, at))
  {
  }

  /** A bus, and the host's memory behind the frames. */
  class Session {
    const bus: Bus
    var frames: seq<array<Byte>>
    ghost var shown: map<Address, nat>

    constructor (bus: Bus)
      requires bus.Valid() && bus.machine.pages == map[]
      ensures Valid() && this.bus == bus && View() == Memory(bus.machine.hasMemory, bus.inited, map[], [])
    {
      this.bus, frames, shown := bus, [], map[];
    }

    ghost predicate Valid()
      reads this, bus, bus.machine
    {
      && bus.Valid() && shown.Keys == bus.machine.pages.Keys
      && (forall p | p in shown :: shown[p] < |frames| && bus.machine.pages[p] == frames[shown[p]])
      && (forall i | 0 <= i < |frames| :: frames[i].Length == PAGE && frames[i] != bus.run)
      && (forall i, j | 0 <= i < j < |frames| :: frames[i] != frames[j])
    }

    ghost function View(): (m: Memory)
      requires Valid()
      reads this, bus, bus.machine, frames
      ensures m.Sound()
    {
      Memory(bus.machine.hasMemory, bus.inited, shown,
             seq(|frames|, i requires 0 <= i < |frames| reads this, frames => frames[i][..]))
    }

    /** The page tables and the frames tell of one memory. */
    lemma SameByte(addr: Address)
      requires Valid()
      ensures bus.machine.ByteAt(addr) == ByteOf(View(), addr)
    {
    }

    /** All that a run of calls may change. */
    ghost function Reached(): set<object>
      reads this, bus
    {
      {this, bus, bus.machine, bus.run} + set f | f in frames
    }

    method PeekOnce(on: int, addr: int) returns (b: Byte)
      requires Valid()
      modifies bus.machine
      ensures Valid() && View() == old(View()) && [b] == Given(View(), Peek(on, addr)) && frames == old(frames)
    {
      b := bus.PeekBus(on, addr);
      if OnBus(View(), on, addr) {
        SameByte(addr);
      }
    }

    method ReadOnce(on: int, addr: int, len: int) returns (bytes: seq<Byte>)
      requires Valid()
      modifies bus.machine, bus.run
      ensures Valid() && View() == old(View()) && bytes == Given(View(), ReadRun(on, addr, len)) && frames == old(frames)
    {
      var out := bus.ReadBus(on, addr, len);
      bytes := out[..RunLength(len)];
      assert forall i | 0 <= i < |frames| :: frames[i][..] == old(frames[i][..]);
      ghost var n: nat := RunLength(len);
      if addr >= 0 && addr + n <= BUS_SIZE {
        forall i: nat | i < n
          ensures bytes[i] == BusByteOf(View(), on, addr + i)
        {
          SameByte(addr + i);
        }
      }
      assert bytes == RunOf(View(), on, addr, n);
    }

    method PokeOnce(on: int, addr: int, value: int)
      requires Valid()
      modifies bus.machine, set f | f in frames
      ensures Valid() && View() == After(old(View()), Poke(on, addr, value)) && frames == old(frames)
    {
      ghost var before := View();
      assert forall h | h in bus.machine.pages.Values :: h in frames;
      bus.PokeBus(on, addr, value);
      Poked(before, on, addr, value);
    }

    twostate lemma Poked(new before: Memory, new on: int, new addr: int, new value: int)
      requires old(Valid()) && Valid() && before == old(View()) && frames == old(frames) && shown == old(shown)
      requires bus.inited == old(bus.inited) && bus.machine.hasMemory == old(bus.machine.hasMemory)
      requires bus.machine.pages == old(bus.machine.pages)
      requires forall f | f in frames && f !in bus.machine.pages.Values :: f[..] == old(f[..])
      requires forall h | h in bus.machine.pages.Values ::
                 h[..] == if bus.inited && on == 0 && 0 <= addr < BUS_SIZE && bus.machine.Host(addr) == h
                          then old(h[..])[OffsetOf(addr) := value % 256] else old(h[..])
      ensures View() == After(before, Poke(on, addr, value))
    {
      var now, after := View(), After(before, Poke(on, addr, value));
      assert |now.frames| == |after.frames|;
      forall i | 0 <= i < |frames|
        ensures now.frames[i] == after.frames[i]
      {
        assert now.frames[i] == frames[i][..] && before.frames[i] == old(frames[i][..]);
      }
      assert now.frames == after.frames;
    }

    method StoreOnce(frame: nat, offset: nat, byte: Byte)
      requires Valid() && frame < |frames| && offset < PAGE
      modifies frames[frame]
      ensures Valid() && View() == After(old(View()), Stores(frame, offset, byte)) && frames == old(frames)
    {
      ghost var after := After(View(), Stores(frame, offset, byte));
      frames[frame][offset] := byte;
      assert forall i | 0 <= i < |frames| :: frames[i][..] == after.frames[i];
      assert View().frames == after.frames;
    }

    /** Maps a page over a frame that is there. */
    method ShowOnce(page: Address, frame: nat)
      requires Valid() && Owed(View(), MapShared(page, frame))
      modifies this`shown, bus.machine
      ensures Valid() && View() == After(old(View()), MapShared(page, frame)) && frames == old(frames)
    {
      bus.machine.MapPage(page, frames[frame]);
      shown := shown[page := frame];
      assert View().frames == old(View()).frames;
    }

    method FrameOf(content: seq<Byte>) returns (host: array<Byte>)
      ensures fresh(host) && host[..] == content
    {
      host := new Byte[|content|];
      forall i | 0 <= i < |content| {
        host[i] := content[i];
      }
    }

    /** Maps a page over memory of its own. */
    method MapOnce(page: Address, content: seq<Byte>)
      requires Valid() && Owed(View(), MapNew(page, content))
      modifies this, bus.machine
      ensures Valid() && View() == After(old(View()), MapNew(page, content))
      ensures |frames| == |old(frames)| + 1 && frames[..|old(frames)|] == old(frames) && fresh(frames[|old(frames)|])
    {
      ghost var before, n := View(), |frames|;
      var host := FrameOf(content);
      frames := frames + [host];
      bus.machine.MapPage(page, host);
      shown := shown[page := n];
      FrameAdded(before, page, content, host);
    }

    twostate lemma FrameAdded(new before: Memory, new page: Address, new content: seq<Byte>, new host: array<Byte>)
      requires old(Valid()) && Valid() && before == old(View()) && Owed(before, MapNew(page, content))
      requires frames == old(frames) + [host] && shown == old(shown)[page := |old(frames)|] && host[..] == content
      requires bus.inited == old(bus.inited) && bus.machine.hasMemory == old(bus.machine.hasMemory)
      requires forall i | 0 <= i < |old(frames)| :: frames[i][..] == old(frames[i][..])
      ensures View() == After(before, MapNew(page, content))
    {
      var after := before.frames + [content];
      assert forall i | 0 <= i < |frames| :: frames[i][..] == after[i];
      assert View().frames == after;
    }

    /** One call, whichever it is. */
    method Do(call: Call) returns (given: seq<Byte>)
      requires Valid() && Owed(View(), call)
      modifies Reached()
      ensures Valid() && fresh(Reached() - old(Reached()))
      ensures View() == After(old(View()), call) && given == Given(old(View()), call)
    {
      given := [];
      if call.Peek? || call.Poke? || call.ReadRun? {
        given := DoAccess(call);
      } else {
        DoMapping(call);
      }
    }

    /** One access of a tool's. */
    method DoAccess(call: Call) returns (given: seq<Byte>)
      requires Valid() && Owed(View(), call) && (call.Peek? || call.Poke? || call.ReadRun?)
      modifies Reached()
      ensures Valid() && fresh(Reached() - old(Reached()))
      ensures View() == After(old(View()), call) && given == Given(old(View()), call)
    {
      given := [];
      match call {
        case Peek(on, addr) =>
          var b := PeekOnce(on, addr);
          given := [b];
        case Poke(on, addr, value) => PokeOnce(on, addr, value);
        case ReadRun(on, addr, len) => given := ReadOnce(on, addr, len);
      }
    }

    /** One step of the machine's own. */
    method DoMapping(call: Call)
      requires Valid() && Owed(View(), call) && !call.Peek? && !call.Poke? && !call.ReadRun?
      modifies Reached()
      ensures Valid() && fresh(Reached() - old(Reached()))
      ensures View() == After(old(View()), call)
    {
      match call {
        case Start => bus.machine.StartMemory();
        case Up => bus.inited := true;
        case MapNew(page, content) => MapOnce(page, content);
        case MapShared(page, frame) => ShowOnce(page, frame);
        case Stores(frame, offset, byte) => StoreOnce(frame, offset, byte);
      }
    }

    /** Any run of accesses and mappings gives and leaves what the memory alone says. */
    method Play(calls: seq<Call>) returns (given: seq<seq<Byte>>)
      requires Valid() && OwedAll(View(), calls)
      modifies Reached()
      ensures Valid() && fresh(Reached() - old(Reached()))
      ensures View() == AfterAll(old(View()), calls) && given == GivenAll(old(View()), calls)
    {
      given := [];
      ghost var start := View();
      assert calls[0..] == calls;
      for i := 0 to |calls|
        invariant Valid() && fresh(Reached() - old(Reached()))
        invariant OnTheWay(start, calls, View(), calls[i..], given)
      {
        ghost var now, before := View(), given;
        assert calls[i..][0] == calls[i];
        var one := Do(calls[i]);
        given := given + [one];
        OneCallOn(start, calls, now, i, before, View(), given);
      }
    }
  }
}

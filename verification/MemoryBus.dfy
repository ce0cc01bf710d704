/** The game's memory as an address space: each access resolved through the page tables,
    with the last translation kept. */
module MemoryBus {
  import opened Words

  type Address = a: int | 0 <= a < 0x1_0000_0000

  const PAGE: int := 0x1000

  function PageOf(addr: Address): Address {
    addr - addr % PAGE
  }

  function OffsetOf(addr: Address): (o: int)
    ensures 0 <= o < PAGE
  {
    addr % PAGE
  }

  function Plus(addr: Address, n: nat): Address {
    (addr + n) % 0x1_0000_0000
  }

  class Machine {
    /** The page tables of the game's address space: the host's memory behind each page.
        Two pages may share memory. */
    var pages: map<Address, array<Byte>>
    /** Whether there is a memory system at all. */
    var hasMemory: bool
    var cachedPage: Address
    var cachedHost: array?<Byte>

    ghost predicate Valid()
      reads this
    {
      && (forall p | p in pages :: pages[p].Length == PAGE)
      && (!hasMemory ==> pages == map[])
      && (cachedHost != null ==> cachedPage != 0 && cachedPage in pages && pages[cachedPage] == cachedHost)
    }

    constructor ()
      ensures Valid() && pages == map[] && !hasMemory
    {
      pages, hasMemory, cachedPage, cachedHost := map[], false, 0xFFFF_FFFF, null;
    }

    /** What the page tables say stands behind an address; the lowest page is never memory. */
    function Host(addr: Address): array?<Byte>
      reads this
    {
      if PageOf(addr) != 0 && PageOf(addr) in pages then pages[PageOf(addr)] else null
    }

    /** What an address reads as: unmapped memory reads as zero. */
    function ByteAt(addr: Address): Byte
      requires Valid()
      reads this, Host(addr)
    {
      if Host(addr) == null then 0 else Host(addr)[OffsetOf(addr)]
    }

    /** The memory system appears, with nothing mapped. */
    method StartMemory()
      requires Valid()
      modifies this`hasMemory
      ensures Valid() && hasMemory
    {
      hasMemory := true;
    }

    /** The kernel maps a page that was not mapped. */
    method MapPage(page: Address, host: array<Byte>)
      requires Valid() && hasMemory && page !in pages && page % PAGE == 0 && host.Length == PAGE
      modifies this`pages
      ensures Valid() && pages == old(pages)[page := host]
    {
      pages := pages[page := host];
    }

    /** What the page tables give, from the kept translation when it is for this page. */
    method ResolveUser(addr: Address) returns (host: array?<Byte>)
      requires Valid()
      modifies this`cachedPage, this`cachedHost
      ensures Valid() && host == Host(addr) && (host != null ==> host.Length == PAGE)
    {
      var page := PageOf(addr);
      if page == cachedPage && cachedHost != null {
        return cachedHost;
      }
      if !hasMemory || page == 0 {
        return null;
      }
      if page !in pages {
        cachedPage, cachedHost := 0xFFFF_FFFF, null;
        return null;
      }
      cachedPage, cachedHost := page, pages[page];
      return cachedHost;
    }

    method PeekUser(addr: Address) returns (b: Byte)
      requires Valid()
      modifies this`cachedPage, this`cachedHost
      ensures Valid() && b == ByteAt(addr)
    {
      var host := ResolveUser(addr);
      return if host != null then host[OffsetOf(addr)] else 0;
    }

    /** A write to unmapped memory is swallowed; any other is seen wherever the memory is shared. */
    method PokeUser(addr: Address, value: Byte)
      requires Valid()
      modifies this`cachedPage, this`cachedHost, Host(addr)
      ensures Valid()
      ensures forall a: Address ::
                ByteAt(a) == if Host(addr) != null && Host(a) == Host(addr) && OffsetOf(a) == OffsetOf(addr)
                             then value else old(ByteAt(a))
      ensures Host(addr) != null ==> Host(addr)[..] == old(Host(addr)[..])[OffsetOf(addr) := value]
    {
      var host := ResolveUser(addr);
      if host != null {
        host[OffsetOf(addr)] := value;
      }
    }

    /** A run of the address space, a page per lookup: byte for byte what peeking gives. */
    method ReadUser(addr: Address, out: array<Byte>, len: nat)
      requires Valid() && len <= out.Length && out !in pages.Values
      modifies this`cachedPage, this`cachedHost, out
      ensures Valid()
      ensures forall i | 0 <= i < len :: out[i] == ByteAt(Plus(addr, i))
      ensures forall i | len <= i < out.Length :: out[i] == old(out[i])
    {
      var done := 0;
      var at := addr;
      PlusNothing(addr);
      while done < len
        invariant 0 <= done <= len && at == Plus(addr, done) && Valid()
        invariant forall i | 0 <= i < done :: out[i] == ByteAt(Plus(addr, i))
        invariant forall i | len <= i < out.Length :: out[i] == old(out[i])
      {
        var inPage := PAGE - OffsetOf(at);
        var left := len - done;
        var n := if left < inPage then left else inPage;
        ReadInPage(at, out, done, n);
        PlusOnward(addr, done, at, n);
        at := Plus(at, n);
        done := done + n;
      }
    }

    /** Fills `n` bytes of the buffer from one page. */
    method ReadInPage(at: Address, out: array<Byte>, done: nat, n: nat)
      requires Valid() && OffsetOf(at) + n <= PAGE && done + n <= out.Length && out !in pages.Values
      modifies this`cachedPage, this`cachedHost, out
      ensures Valid()
      ensures forall i | done <= i < done + n :: out[i] == ByteAt(Plus(at, i - done))
      ensures forall i | 0 <= i < out.Length && !(done <= i < done + n) :: out[i] == old(out[i])
    {
      var host := ResolveUser(at);
      forall i: nat | i < n
        ensures PageOf(Plus(at, i)) == PageOf(at) && OffsetOf(Plus(at, i)) == OffsetOf(at) + i
      {
        SamePage(at, i);
      }
      assert host != out;
      if host != null {
        forall i | done <= i < done + n {
          out[i] := host[OffsetOf(at) + (i - done)];
        }
      } else {
        forall i | done <= i < done + n {
          out[i] := 0;
        }
      }
    }
  }

  lemma SamePage(at: Address, i: nat)
    requires OffsetOf(at) + i < PAGE
    ensures Plus(at, i) == at + i && PageOf(Plus(at, i)) == PageOf(at) && OffsetOf(Plus(at, i)) == OffsetOf(at) + i
  {
  }

  lemma PlusNothing(addr: Address)
    ensures Plus(addr, 0) == addr
  {
  }

  lemma PlusTwice(addr: Address, m: nat, n: nat)
    ensures Plus(Plus(addr, m), n) == Plus(addr, m + n)
  {
  }

  lemma PlusOnward(addr: Address, done: nat, at: Address, n: nat)
    requires at == Plus(addr, done)
    ensures Plus(at, n) == Plus(addr, done + n)
    ensures forall i | done <= i < done + n :: Plus(addr, i) == Plus(at, i - done)
  {
    PlusTwice(addr, done, n);
    forall i | done <= i < done + n
      ensures Plus(addr, i) == Plus(at, i - done)
    {
      PlusTwice(addr, done, i - done);
    }
  }

  // ---- the exported bus --------------------------------------------------

  const BUS_SIZE: int := 0x0400_0000
  const RUN: int := 65536

  /** How much of a run is answered: never more than the buffer holds. */
  function RunLength(len: int): (n: nat)
    ensures n <= RUN
  {
    if len < 0 then 0 else if len > RUN then RUN else len
  }

  class Bus {
    const machine: Machine
    const run: array<Byte>
    var inited: bool

    ghost predicate Valid()
      reads this, machine
    {
      machine.Valid() && run.Length == RUN && run !in machine.pages.Values
    }

    constructor (machine: Machine, inited: bool)
      requires machine.Valid()
      ensures Valid() && this.machine == machine && this.inited == inited && fresh(run)
    {
      this.machine, this.inited := machine, inited;
      run := new Byte[RUN];
      new;
      assert forall p | p in machine.pages :: allocated(machine.pages[p]);
    }

    /** What one access of the bus gives: zero outside it or before the machine is up. */
    function BusByte(bus: int, addr: int): Byte
      requires Valid()
      reads this, machine, machine.pages.Values
    {
      if !inited || bus != 0 || addr < 0 || addr >= BUS_SIZE then 0 else machine.ByteAt(addr)
    }

    method PeekBus(bus: int, addr: int) returns (b: Byte)
      requires Valid()
      modifies machine`cachedPage, machine`cachedHost
      ensures Valid() && b == BusByte(bus, addr)
    {
      if !inited || bus != 0 || addr < 0 || addr >= BUS_SIZE {
        return 0;
      }
      b := machine.PeekUser(addr);
    }

    /** A run wholly inside the bus is what peeking answers byte by byte; one that is not is zeros. */
    method ReadBus(bus: int, addr: int, len: int) returns (out: array<Byte>)
      requires Valid()
      modifies machine`cachedPage, machine`cachedHost, run
      ensures Valid() && out == run
      ensures forall i | 0 <= i < RunLength(len) ::
                out[i] == if addr >= 0 && addr + RunLength(len) <= BUS_SIZE then BusByte(bus, addr + i) else 0
      ensures forall i | RunLength(len) <= i < RUN :: out[i] == old(run[i])
    {
      var n := len;
      if n < 0 {
        n := 0;
      }
      if n > RUN {
        n := RUN;
      }
      if !inited || bus != 0 || addr < 0 || addr + n > BUS_SIZE {
        forall i | 0 <= i < n {
          run[i] := 0;
        }
        return run;
      }
      machine.ReadUser(addr, run, n);
      assert forall i | 0 <= i < n :: Plus(addr, i) == addr + i;
      return run;
    }

    method PokeBus(bus: int, addr: int, value: int)
      requires Valid()
      modifies machine`cachedPage, machine`cachedHost, machine.pages.Values
      ensures Valid()
      ensures forall a: Address ::
                machine.ByteAt(a)
                == if inited && bus == 0 && 0 <= addr < BUS_SIZE && machine.Host(addr) != null
                      && machine.Host(a) == machine.Host(addr) && OffsetOf(a) == OffsetOf(addr)
                   then value % 256 else old(machine.ByteAt(a))
      ensures forall h | h in machine.pages.Values ::
                h[..] == if inited && bus == 0 && 0 <= addr < BUS_SIZE && machine.Host(addr) == h
                         then old(h[..])[OffsetOf(addr) := value % 256] else old(h[..])
    {
      if !inited || bus != 0 || addr < 0 || addr >= BUS_SIZE {
        return;
      }
      machine.PokeUser(addr, value % 256);
    }
  }
}

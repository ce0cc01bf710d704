/** The machine's step loop: run the emulator, fire the timers, and buy idle time by
    jumping to the next deadline, until the clock has moved as far as asked. */
module StepLoop {
  import opened Options
  import opened Division
  import VC = VirtualClock
  import opened Endings
  import opened Words

  /** How many instructions one call of the emulator's loop ran: a 32-bit report. */
  type Report = n: nat | n < TWO_32

  /** What the loop cannot see into: the emulator's own loop, which runs some instructions
      or none, and its timers, which fire what is due and answer the time to the next
      deadline. Both may do anything to the world. A machine that is not runnable has no
      loop to call. */
  datatype Behaviour<!T> = Behaviour(runnable: bool, loop: (T, nat) -> (T, Report), advance: (T, nat) -> (T, Option<nat>))

  datatype State<T> = State(world: T, clock: VC.Clock)

  /** Room for one report at one instruction per second past any target. */
  const ROOM: nat := (TWO_32 - 1) * 1_000_000 + 1

  /** The target leaves room for a report past it, when anything is there to report. */
  predicate HasRoom(runnable: bool, target: nat) {
    target < TWO_64 && (runnable ==> target + ROOM <= TWO_64)
  }

  /** The clock is bound to come to the target, with room past it. A machine without a loop
      reports nothing, and every clock comes to its target. */
  ghost predicate Fits(runnable: bool, c: VC.Clock, target: nat) {
    c.Sound() && HasRoom(runnable, target) && (runnable ==> Ends(c, target))
  }

  /** What one pass leaves, and what it did to the clock. */
  datatype Pass<T> = Pass(state: State<T>, event: VC.Event)

  function Jump(next: Option<nat>, remaining: nat): (us: nat)
    ensures us <= remaining && (remaining > 0 ==> us > 0)
  {
    var jump := match next case Some(us) => (if us < 1 then 1 else us) case None => remaining;
    if jump < remaining then jump else remaining
  }

  /** What the emulator's loop does, when there is one to call. */
  function Slice<T>(b: Behaviour<T>, s: State<T>): (T, Report) {
    if b.runnable then b.loop(s.world, s.clock.now) else (s.world, 0)
  }

  function Spent(c: VC.Clock, n: Report): VC.Clock
    requires c.Sound()
  {
    if n != 0 then VC.Spend(c, n) else c
  }

  function OnePass<T>(b: Behaviour<T>, s: State<T>, target: nat): Pass<T>
    requires s.clock.Sound() && s.clock.now < target
  {
    var (ranWorld, n) := Slice(b, s);
    var c := Spent(s.clock, n);
    var (world, next) := b.advance(ranWorld, c.now);
    if n != 0 then Pass(State(world, c), VC.Ran(n))
    else
      var us := Jump(next, target - c.now);
      Pass(State(world, VC.Advance(c, us)), VC.Idled(us))
  }

  // ---- why it ends -------------------------------------------------------

  /** How far there is to go: in time, then in wraps of the owed sum, then in remainder. */
  function Left(c: VC.Clock, target: nat): nat {
    if c.now < target then target - c.now else 0
  }

  function Wraps(c: VC.Clock): nat {
    WrapsLeft(c.remainder, c.rate)
  }

  predicate Falls(before: VC.Clock, after: VC.Clock, target: nat) {
    Left(after, target) < Left(before, target)
    || (Left(after, target) == Left(before, target)
        && (Wraps(after) < Wraps(before)
            || (Wraps(after) == Wraps(before) && after.rate - after.remainder < before.rate - before.remainder)))
  }

  /** The same in one number, where no sum wraps: millionths of an instruction's price. */
  function ToGo(c: VC.Clock, target: nat): nat
    requires c.Sound()
  {
    if c.now < target then Price(target - c.now, c.rate) - c.remainder else 0
  }

  function Price(us: nat, rate: nat): (p: nat)
    ensures us > 0 ==> p >= rate
  {
    us * rate
  }

  /** What a report of `n` leaves: what it was worth, or, when the sum wraps, the same time
      and a lower remainder. */
  predicate Paid(c: VC.Clock, d: VC.Clock, n: nat) {
    && d.rate == c.rate && d.now >= c.now
    && if VC.Owed(c.remainder, n) < TWO_64 then Price(d.now - c.now, d.rate) + d.remainder == VC.Owed(c.remainder, n)
       else d.now == c.now && d.remainder == VC.Owed(c.remainder, n) - TWO_64
  }

  /** Running or idling, a pass moves the clock by exactly what it was worth, and never back. */
  lemma PassMoves<T>(b: Behaviour<T>, s: State<T>, target: nat)
    requires s.clock.Sound() && s.clock.now < target && HasRoom(b.runnable, target)
    ensures var p := OnePass(b, s, target);
            var c := p.state.clock;
            && c.Sound() && c.rate == s.clock.rate && c.now >= s.clock.now
            && c == VC.Apply(s.clock, p.event)
            && match p.event
               case Ran(n) => b.runnable && 0 < n < TWO_32 && Paid(s.clock, c, n)
               case Idled(us) => 0 < us <= target - s.clock.now && c.now == s.clock.now + us && c.remainder == s.clock.remainder
  {
    var n := Slice(b, s).1;
    if n != 0 {
      SpendPays(s.clock, n, target);
    } else {
      IdleMoves(s.clock, OnePass(b, s, target).event.us, target);
    }
  }

  lemma IdleMoves(c: VC.Clock, us: nat, target: nat)
    requires c.Sound() && target < TWO_64 && c.now + us <= target
    ensures VC.Advance(c, us) == c.(now := c.now + us) && VC.Advance(c, us).Sound()
  {
    DivisionUnique(c.now + us, 0, c.now + us, TWO_64);
  }

  /** And a clock that was bound to come to the target still is. */
  lemma PassKeeps<T>(b: Behaviour<T>, s: State<T>, target: nat)
    requires Fits(b.runnable, s.clock, target) && s.clock.now < target
    ensures Fits(b.runnable, OnePass(b, s, target).state.clock, target)
  {
    PassMoves(b, s, target);
    var p := OnePass(b, s, target);
    if p.event.Ran? {
      PaidEnds(s.clock, p.state.clock, p.event.instructions, target);
    }
  }

  lemma SpendPays(c: VC.Clock, n: nat, target: nat)
    requires c.Sound() && c.now < target && target + ROOM <= TWO_64 && n < TWO_32
    ensures Paid(c, VC.Spend(c, n), n)
  {
    var owed := VC.Owed(c.remainder, n);
    if owed < TWO_64 {
      VC.SpendExact(c, n, owed);
      SpendPlain(c, n, target, owed, VC.Spend(c, n));
    } else {
      SpendWrapped(c, n, owed, VC.Spend(c, n));
    }
  }

  lemma SpendPlain(c: VC.Clock, n: nat, target: nat, owed: nat, d: VC.Clock)
    requires c.Sound() && c.now < target && target + ROOM <= TWO_64 && n < TWO_32
    requires owed == VC.Owed(c.remainder, n) < TWO_64
    requires d == VC.Clock(c.epoch, (c.now + owed / c.rate) % TWO_64, c.rate, owed % c.rate, (c.instructions + n) % TWO_64)
    ensures Paid(c, d, n)
  {
    SpentMoves(c.now, d.now, c.remainder, d.remainder, owed, n, c.rate, target);
  }

  lemma SpendWrapped(c: VC.Clock, n: nat, owed: nat, d: VC.Clock)
    requires c.Sound() && n < TWO_32 && owed == VC.Owed(c.remainder, n) && owed >= TWO_64 && d == VC.Spend(c, n)
    ensures d.now == c.now && d.remainder == owed - TWO_64 && d.rate == c.rate
  {
    WrappedReport(c.remainder, c.rate, n);
    NowKept(c.now, owed % TWO_64 / c.rate);
  }

  lemma NowKept(now: nat, bought: nat)
    requires now < TWO_64 && bought == 0
    ensures (now + bought) % TWO_64 == now
  {
    DivisionUnique(now, 0, now, TWO_64);
  }

  lemma PaidEnds(c: VC.Clock, d: VC.Clock, n: nat, target: nat)
    requires c.Sound() && Ends(c, target) && Paid(c, d, n)
    ensures Ends(d, target)
  {
    if VC.Owed(c.remainder, n) < TWO_64 {
      EndsKept(c, d, target, d.now - c.now, n * LAPS);
    } else {
      EndsKept(c, d, target, 0, n * LAPS - TWO_64 / SHARED);
    }
  }

  lemma SpentMoves(now: nat, later: nat, remainder: nat, left: nat, owed: nat, n: nat, rate: nat, target: nat)
    requires remainder < rate && owed == VC.Owed(remainder, n) && n < TWO_32 && now < target && target + ROOM <= TWO_64
    requires later == (now + owed / rate) % TWO_64 && left == owed % rate
    ensures later >= now && Price(later - now, rate) + left == owed
  {
    Bought(owed, remainder, n, rate);
    DivisionUnique(now + owed / rate, 0, now + owed / rate, TWO_64);
  }

  lemma Bought(owed: nat, remainder: nat, n: nat, rate: nat)
    requires remainder < rate && owed == VC.Owed(remainder, n) && n < TWO_32
    ensures Price(owed / rate, rate) + owed % rate == owed
    ensures owed / rate <= ROOM
  {
    Divided(owed, rate);
    MultipleGrows(owed / rate, rate);
  }

  lemma {:induction false} MultipleGrows(q: nat, rate: nat)
    requires rate > 0
    ensures q > 0 ==> q * rate >= rate + (q - 1)
  {
    if q > 1 {
      MultipleGrows(q - 1, rate);
      SumTimes(q - 1, 1, rate);
    }
  }

  lemma PaidFalls(c: VC.Clock, d: VC.Clock, n: nat, target: nat)
    requires c.Sound() && d.Sound() && Ends(c, target) && c.now < target && 0 < n < TWO_32 && Paid(c, d, n)
    ensures Falls(c, d, target)
  {
    if VC.Owed(c.remainder, n) >= TWO_64 {
      assert StopsAfter(c.remainder, c.rate, 0);
      WrapsFall(c.remainder, c.rate, n);
    } else if d.now == c.now {
      ReportKeepsWraps(c.remainder, d.remainder, c.rate, n);
    }
  }

  /** What is left to go strictly falls on every pass, whatever the machine does. */
  lemma PassFalls<T>(b: Behaviour<T>, s: State<T>, target: nat)
    requires Fits(b.runnable, s.clock, target) && s.clock.now < target
    ensures Fits(b.runnable, OnePass(b, s, target).state.clock, target)
    ensures Falls(s.clock, OnePass(b, s, target).state.clock, target)
  {
    PassMoves(b, s, target);
    PassKeeps(b, s, target);
    var p := OnePass(b, s, target);
    if p.event.Ran? {
      PaidFalls(s.clock, p.state.clock, p.event.instructions, target);
    }
  }

  /** On a pass whose sum fits the one number falls: (target - now) * rate - remainder. */
  lemma PriceFalls<T>(b: Behaviour<T>, s: State<T>, target: nat)
    requires s.clock.Sound() && s.clock.now < target && HasRoom(b.runnable, target)
    requires VC.Owed(s.clock.remainder, Slice(b, s).1) < TWO_64
    ensures ToGo(OnePass(b, s, target).state.clock, target) < ToGo(s.clock, target)
  {
    PassMoves(b, s, target);
    var c, d := s.clock, OnePass(b, s, target).state.clock;
    if d.now < target {
      PriceOfSum(d.now - c.now, target - d.now, c.rate);
    }
  }

  lemma PriceOfSum(a: nat, b: nat, rate: nat)
    ensures Price(a + b, rate) == Price(a, rate) + Price(b, rate)
  {
    SumTimes(a, b, rate);
  }

  // ---- the whole run -----------------------------------------------------

  /** Where the run ended, and what each pass did to the clock. */
  datatype Ended<T> = Ended(state: State<T>, events: seq<VC.Event>)

  function Loop<T>(b: Behaviour<T>, s: State<T>, target: nat): Ended<T>
    requires Fits(b.runnable, s.clock, target)
    decreases Left(s.clock, target), Wraps(s.clock), s.clock.rate - s.clock.remainder
  {
    if s.clock.now >= target then Ended(s, [])
    else
      PassFalls(b, s, target);
      var p := OnePass(b, s, target);
      var rest := Loop(b, p.state, target);
      Ended(rest.state, [p.event] + rest.events)
  }

  lemma FirstPass<T>(b: Behaviour<T>, s: State<T>, target: nat, next: State<T>)
    requires Fits(b.runnable, s.clock, target) && s.clock.now < target && next == OnePass(b, s, target).state
    ensures Fits(b.runnable, next.clock, target) && Falls(s.clock, next.clock, target)
    ensures Loop(b, s, target).state == Loop(b, next, target).state
    ensures |Loop(b, s, target).events| == 1 + |Loop(b, next, target).events|
  {
    PassFalls(b, s, target);
  }

  /** On exit the target is reached: exactly when the last pass idled, and otherwise
      overshot by no more than the last report bought. */
  lemma {:induction false} ExitLaw<T>(b: Behaviour<T>, s: State<T>, target: nat)
    requires Fits(b.runnable, s.clock, target) && s.clock.now <= target
    ensures var out := Loop(b, s, target);
            var c := out.state.clock;
            && c.now >= target && Fits(b.runnable, c, target)
            && (out.events == [] <==> s.clock.now == target)
            && (out.events != [] ==>
                  match out.events[|out.events| - 1]
                  case Idled(_) => c.now == target
                  case Ran(n) => c.now - target <= n * 1_000_000 / c.rate)
    decreases Left(s.clock, target), Wraps(s.clock), s.clock.rate - s.clock.remainder
  {
    if s.clock.now < target {
      PassMoves(b, s, target);
      PassFalls(b, s, target);
      var p := OnePass(b, s, target);
      if p.state.clock.now < target {
        ExitLaw(b, p.state, target);
      } else if p.event.Ran? {
        Overshoot(s.clock, p.state.clock, p.event.instructions, target);
      }
      var rest := Loop(b, p.state, target).events;
      assert rest != [] ==> ([p.event] + rest)[|rest|] == rest[|rest| - 1];
    }
  }

  lemma Overshoot(c: VC.Clock, d: VC.Clock, n: nat, target: nat)
    requires c.Sound() && d.Sound() && c.rate == d.rate && c.now < target <= d.now
    requires Paid(c, d, n)
    ensures d.now - target <= n * 1_000_000 / d.rate
  {
    var over := d.now - target;
    PriceOfSum(over, target - c.now, d.rate);
    assert Price(over, d.rate) <= n * 1_000_000;
    QuotientAtLeast(over, n * 1_000_000, d.rate);
  }

  /** The run is a run of the clock: all its laws hold of it. */
  lemma {:induction false} LoopIsClockRun<T>(b: Behaviour<T>, s: State<T>, target: nat)
    requires Fits(b.runnable, s.clock, target)
    ensures var out := Loop(b, s, target);
            VC.Reports(out.events) && out.state.clock == VC.Run(s.clock, out.events)
    decreases Left(s.clock, target), Wraps(s.clock), s.clock.rate - s.clock.remainder
  {
    if s.clock.now < target {
      PassMoves(b, s, target);
      PassFalls(b, s, target);
      var p := OnePass(b, s, target);
      LoopIsClockRun(b, p.state, target);
      var rest := Loop(b, p.state, target).events;
      assert ([p.event] + rest)[1..] == rest;
    }
  }

  // ---- cutting the time --------------------------------------------------

  /** The state in which the run to `target` idles over `mid`: a pass that starts before it
      and ends after it. */
  function JumpedFrom<T>(b: Behaviour<T>, s: State<T>, mid: nat, target: nat): (r: Option<State<T>>)
    requires Fits(b.runnable, s.clock, target)
    ensures r.Some? ==>
              && Fits(b.runnable, r.value.clock, target) && r.value.clock.now < mid && r.value.clock.now < target
              && JumpsOver(b, r.value, mid, target)
    decreases Left(s.clock, target), Wraps(s.clock), s.clock.rate - s.clock.remainder
  {
    if s.clock.now >= mid || s.clock.now >= target then None
    else if JumpsOver(b, s, mid, target) then Some(s)
    else
      PassFalls(b, s, target);
      JumpedFrom(b, OnePass(b, s, target).state, mid, target)
  }

  predicate JumpsOver<T>(b: Behaviour<T>, s: State<T>, mid: nat, target: nat)
    requires Fits(b.runnable, s.clock, target) && s.clock.now < target
  {
    OnePass(b, s, target).event.Idled? && OnePass(b, s, target).state.clock.now > mid
  }

  /** Where the jump is broken off when the time is cut at `mid`. */
  function BrokenOff<T>(b: Behaviour<T>, s: State<T>, mid: nat, target: nat): State<T>
    requires Fits(b.runnable, s.clock, target) && s.clock.now < target
  {
    State(OnePass(b, s, target).state.world, s.clock.(now := mid))
  }

  /** A cut leaves a pass alone unless the pass idles over it, and that pass it breaks off. */
  lemma PassUnderCut<T>(b: Behaviour<T>, s: State<T>, mid: nat, target: nat)
    requires Fits(b.runnable, s.clock, target) && s.clock.now < mid <= target
    ensures Fits(b.runnable, s.clock, mid)
    ensures OnePass(b, s, mid).state
            == if JumpsOver(b, s, mid, target) then BrokenOff(b, s, mid, target) else OnePass(b, s, target).state
  {
    var n := Slice(b, s).1;
    if n == 0 {
      IdleMoves(s.clock, OnePass(b, s, mid).event.us, mid);
      IdleMoves(s.clock, OnePass(b, s, target).event.us, target);
    }
  }

  /** The run stopped at `mid` on its way to `target`. */
  ghost predicate StopsAsSaid<T>(b: Behaviour<T>, s: State<T>, mid: nat, target: nat)
    requires Fits(b.runnable, s.clock, target) && mid <= target
  {
    match JumpedFrom(b, s, mid, target)
    case None =>
      && Fits(b.runnable, Loop(b, s, mid).state.clock, target)
      && Loop(b, Loop(b, s, mid).state, target).state == Loop(b, s, target).state
    case Some(from) =>
      && Loop(b, s, mid).state == BrokenOff(b, from, mid, target)
      && Loop(b, s, target).state == Loop(b, OnePass(b, from, target).state, target).state
  }

  lemma StopsLater<T>(b: Behaviour<T>, s: State<T>, mid: nat, target: nat, next: State<T>)
    requires Fits(b.runnable, s.clock, target) && s.clock.now < mid <= target && !JumpsOver(b, s, mid, target)
    requires next == OnePass(b, s, target).state && Fits(b.runnable, next.clock, target) && StopsAsSaid(b, next, mid, target)
    ensures StopsAsSaid(b, s, mid, target)
  {
    PassUnderCut(b, s, mid, target);
    FirstPass(b, s, mid, next);
    FirstPass(b, s, target, next);
  }

  lemma StopsHere<T>(b: Behaviour<T>, s: State<T>, mid: nat, target: nat)
    requires Fits(b.runnable, s.clock, target) && s.clock.now < mid <= target && JumpsOver(b, s, mid, target)
    ensures StopsAsSaid(b, s, mid, target)
  {
    PassUnderCut(b, s, mid, target);
    FirstPass(b, s, mid, BrokenOff(b, s, mid, target));
    FirstPass(b, s, target, OnePass(b, s, target).state);
  }

  /** Where a run stops when it is cut, whatever the emulator's loop and timers do. */
  lemma {:induction false} WhereCutsStop<T>(b: Behaviour<T>, s: State<T>, mid: nat, target: nat)
    requires Fits(b.runnable, s.clock, target) && mid <= target
    ensures StopsAsSaid(b, s, mid, target)
    decreases Left(s.clock, target), Wraps(s.clock), s.clock.rate - s.clock.remainder
  {
    if s.clock.now < mid {
      if JumpsOver(b, s, mid, target) {
        StopsHere(b, s, mid, target);
      } else {
        var next := OnePass(b, s, target).state;
        PassFalls(b, s, target);
        WhereCutsStop(b, next, mid, target);
        StopsLater(b, s, mid, target, next);
      }
    }
  }

  /** Stopping at `mid` on the way to `target` changes nothing. */
  ghost predicate CutNeutral<T>(b: Behaviour<T>, s: State<T>, mid: nat, target: nat)
    requires Fits(b.runnable, s.clock, target) && mid <= target
  {
    && Fits(b.runnable, Loop(b, s, mid).state.clock, target)
    && Loop(b, Loop(b, s, mid).state, target).state == Loop(b, s, target).state
  }

  /** A cut that no idle pass jumps over is neutral. One that is jumped over is neutral exactly
      when the machine goes on alike from the middle of the jump and from its end. */
  lemma CutNeutralExactly<T>(b: Behaviour<T>, s: State<T>, mid: nat, target: nat)
    requires Fits(b.runnable, s.clock, target) && mid <= target
    ensures match JumpedFrom(b, s, mid, target)
            case None => CutNeutral(b, s, mid, target)
            case Some(from) =>
              CutNeutral(b, s, mid, target)
              <==> Loop(b, BrokenOff(b, from, mid, target), target).state
                   == Loop(b, OnePass(b, from, target).state, target).state
  {
    WhereCutsStop(b, s, mid, target);
  }

  /** In the middle of the jump nothing is there to do: the emulator's loop runs nothing,
      nothing is due, and the next deadline is the one the jump was making for. */
  predicate QuietAt<T(==)>(b: Behaviour<T>, from: State<T>, mid: nat, target: nat)
    requires Fits(b.runnable, from.clock, target) && from.clock.now < mid <= target
  {
    var s, end := BrokenOff(b, from, mid, target), OnePass(b, from, target).state.clock.now;
    && Slice(b, s) == (s.world, 0)
    && b.advance(s.world, mid).0 == s.world
    && mid + Jump(b.advance(s.world, mid).1, target - mid) == end
  }

  lemma QuietPass<T>(b: Behaviour<T>, from: State<T>, mid: nat, target: nat)
    requires Fits(b.runnable, from.clock, target) && from.clock.now < mid <= target
    requires JumpsOver(b, from, mid, target) && QuietAt(b, from, mid, target)
    ensures mid < target && OnePass(b, BrokenOff(b, from, mid, target), target).state == OnePass(b, from, target).state
  {
    var s := BrokenOff(b, from, mid, target);
    PassMoves(b, from, target);
    IdleMoves(s.clock, OnePass(b, s, target).event.us, target);
    IdleMoves(from.clock, OnePass(b, from, target).event.us, target);
  }

  /** So a cut is neutral when no idle pass jumps over it or the machine is quiet there. */
  lemma QuietCutNeutral<T>(b: Behaviour<T>, s: State<T>, mid: nat, target: nat)
    requires Fits(b.runnable, s.clock, target) && mid <= target
    requires var from := JumpedFrom(b, s, mid, target);
             from.Some? ==> QuietAt(b, from.value, mid, target)
    ensures CutNeutral(b, s, mid, target)
  {
    CutNeutralExactly(b, s, mid, target);
    var from := JumpedFrom(b, s, mid, target);
    if from.Some? {
      QuietPass(b, from.value, mid, target);
      FirstPass(b, BrokenOff(b, from.value, mid, target), target, OnePass(b, from.value, target).state);
    }
  }

  // ---- the machine -------------------------------------------------------

  class Machine<T> {
    const behaviour: Behaviour<T>
    const clock: VC.VirtualClock
    var world: T
    var sliceInstructions: nat

    constructor (behaviour: Behaviour<T>, clock: VC.VirtualClock, world: T)
      ensures this.behaviour == behaviour && this.clock == clock && this.world == world && sliceInstructions == 0
    {
      this.behaviour, this.clock, this.world := behaviour, clock, world;
      sliceInstructions := 0;
    }

    function Now(): State<T>
      reads this, clock
    {
      State(world, clock.State())
    }

    /** The emulator's report: counted for the slice and paid for in time. */
    method Ticks(n: Report)
      requires clock.State().Sound()
      modifies this`sliceInstructions, clock
      ensures sliceInstructions == old(sliceInstructions) + n
      ensures clock.State() == VC.Spend(old(clock.State()), n) && clock.State().Sound()
    {
      sliceInstructions := sliceInstructions + n;
      clock.SpendInstructions(n);
    }

    /** One pass: the emulator's loop when there is one, the timers, and an idle jump when nothing ran. */
    method PassOnce(target: nat)
      requires Fits(behaviour.runnable, clock.State(), target) && clock.now < target
      modifies this, clock
      ensures Now() == OnePass(behaviour, old(Now()), target).state
      ensures sliceInstructions == match OnePass(behaviour, old(Now()), target).event case Ran(n) => n case Idled(_) => 0
    {
      ghost var before := Now();
      PassMoves(behaviour, before, target);
      sliceInstructions := 0;
      if behaviour.runnable {
        var (ranWorld, n) := behaviour.loop(world, clock.now);
        world := ranWorld;
        if n != 0 {
          Ticks(n);
        }
      }
      var (fired, next) := behaviour.advance(world, clock.now);
      world := fired;
      if sliceInstructions != 0 {
        return;
      }
      var remaining := target - clock.now;
      var jump := match next case Some(us) => (if us < 1 then 1 else us) case None => remaining;
      clock.AdvanceUs(if jump < remaining then jump else remaining);
    }

    /** A target past 64 bits wraps, and with it before the clock there is nothing to do. */
    method RunForUs(us: nat) returns (loops: nat)
      requires Fits(behaviour.runnable, clock.State(), (clock.now + us) % TWO_64)
      modifies this, clock
      ensures Now() == Loop(behaviour, old(Now()), (old(clock.now) + us) % TWO_64).state
      ensures loops == if behaviour.runnable then |Loop(behaviour, old(Now()), (old(clock.now) + us) % TWO_64).events| else 0
    {
      var target := (clock.now + us) % TWO_64;
      loops := 0;
      ghost var passes := 0;
      ghost var whole := Loop(behaviour, Now(), target);
      while clock.now < target
        invariant Fits(behaviour.runnable, clock.State(), target)
        invariant ComesTo(behaviour, Now(), target, whole, passes)
        invariant loops == if behaviour.runnable then passes else 0
        decreases Left(clock.State(), target), Wraps(clock.State()), clock.rate - clock.remainder
      {
        ghost var before := Now();
        ghost var after, one := OnePass(behaviour, before, target).state, passes + 1;
        OnePassLess(behaviour, before, target, whole, passes, after, one);
        PassOnce(target);
        if behaviour.runnable {
          loops := loops + 1;
        }
        passes := one;
      }
    }
  }

  /** After so many passes, the rest of the way comes to the same end. */
  predicate ComesTo<T(==)>(b: Behaviour<T>, s: State<T>, target: nat, whole: Ended<T>, passes: nat)
    requires Fits(b.runnable, s.clock, target)
  {
    Loop(b, s, target).state == whole.state && passes + |Loop(b, s, target).events| == |whole.events|
  }

  lemma OnePassLess<T>(b: Behaviour<T>, s: State<T>, target: nat, whole: Ended<T>, passes: nat, next: State<T>, one: nat)
    requires Fits(b.runnable, s.clock, target) && s.clock.now < target && ComesTo(b, s, target, whole, passes)
    requires next == OnePass(b, s, target).state && one == passes + 1
    ensures Fits(b.runnable, next.clock, target) && Falls(s.clock, next.clock, target)
    ensures ComesTo(b, next, target, whole, one)
  {
    FirstPass(b, s, target, next);
  }
}

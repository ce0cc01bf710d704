/** A machine that runs instructions and has timers: what comes due while a slice runs fires when
    the slice is paid for, late by no more than the slice bought. */
module BusyMachine {
  import opened Division
  import VC = VirtualClock
  import opened StepLoop
  import opened Words
  import opened EmptyMachine

  /** What the emulator's loop works on, and the timers. */
  datatype World<W> = World(world: W, timers: Timers)

  /** A loop that may run anything, and timers that fire what is due. */
  function Busy<W>(loop: (W, nat) -> (W, Report), react: Reaction): Behaviour<World<W>> {
    Behaviour(true,
              (w: World<W>, now: nat) => var (ran, n) := loop(w.world, now); (World(ran, w.timers), n),
              (w: World<W>, now: nat) => var (fired, next) := Advance(w.timers, now, react); (World(w.world, fired), next))
  }

  /** Before a pass: nothing waits that was due before, but for what the last pass set at once. */
  predicate Ready(queue: seq<Waiting>, now: nat) {
    queue == []
    || ((if queue[0].atOnce then queue[0].due <= now <= queue[0].due + 1 else queue[0].due >= now)
        && Ready(queue[1..], now))
  }

  /** Fired no earlier than due, and late by at most `late`; what was set at once, by one more. */
  predicate LateBy(log: seq<Fired>, late: nat) {
    log == [] || (log[0].due <= log[0].at <= log[0].due + late + (if log[0].atOnce then 1 else 0) && LateBy(log[1..], late))
  }

  /** No slice bought more than that, as far as whole microseconds go. */
  predicate Buys(events: seq<VC.Event>, rate: nat, late: nat)
    requires rate > 0
  {
    events == []
    || ((events[0].Ran? ==> events[0].instructions * 1_000_000 / rate + 1 <= late) && Buys(events[1..], rate, late))
  }

  // ---- one firing --------------------------------------------------------

  lemma {:induction false} LateByAppend(a: seq<Fired>, b: seq<Fired>, late: nat)
    requires LateBy(a, late) && LateBy(b, late)
    ensures LateBy(a + b, late)
  {
    if a == [] {
      assert a + b == b;
    } else {
      assert (a + b)[1..] == a[1..] + b;
      LateByAppend(a[1..], b, late);
    }
  }

  lemma {:induction false} FiringLate(queue: seq<Waiting>, began: nat, now: nat, late: nat)
    requires Ready(queue, began) && began <= now <= began + late
    ensures LateBy(FiredNow(queue, now), late)
    decreases |queue|
  {
    if queue != [] {
      FiringLate(queue[1..], began, now, late);
      FiredFirst(queue, now);
      if queue[0].due <= now {
        assert FiredNow(queue, now)[1..] == FiredNow(queue[1..], now);
      }
    }
  }

  lemma {:induction false} KeptAhead(queue: seq<Waiting>, began: nat, now: nat)
    requires Ready(queue, began) && began <= now
    ensures Ahead(NotDue(queue, now), now)
    decreases |queue|
  {
    if queue != [] {
      KeptAhead(queue[1..], began, now);
      AheadAppend(if queue[0].due > now then [queue[0]] else [], NotDue(queue[1..], now), now);
    }
  }

  /** After the firing nothing waits that was due by then, but for what it set at once. */
  lemma FiringAhead(t: Timers, began: nat, now: nat, react: Reaction)
    requires Ready(t.queue, began) && began <= now
    ensures Ahead(Fire(t, now, react).queue, now)
  {
    KeptAhead(t.queue, began, now);
    ScheduledAhead(t.queue, now, react);
    AheadAppend(NotDue(t.queue, now), Scheduled(t.queue, now, react), now);
  }

  lemma {:induction false} AheadIsReady(queue: seq<Waiting>, now: nat)
    requires Ahead(queue, now)
    ensures Ready(queue, now)
  {
    if queue != [] {
      AheadIsReady(queue[1..], now);
    }
  }

  lemma {:induction false} InTimeIsReady(queue: seq<Waiting>, now: nat)
    requires InTime(queue, now)
    ensures Ready(queue, now)
  {
    if queue != [] {
      InTimeIsReady(queue[1..], now);
    }
  }

  // ---- one pass ----------------------------------------------------------

  /** What a slice of `n` buys is its worth and at most one more for the remainder. */
  lemma SliceBuys(c: VC.Clock, d: VC.Clock, n: nat)
    requires c.Sound() && Paid(c, d, n)
    ensures c.now <= d.now <= c.now + (n * 1_000_000 / c.rate + 1)
  {
    if VC.Owed(c.remainder, n) < TWO_64 && d.now > c.now {
      PriceOfSum(d.now - c.now - 1, 1, c.rate);
      QuotientAtLeast(d.now - c.now - 1, n * 1_000_000, c.rate);
    } else {
      Divided(n * 1_000_000, c.rate);
    }
  }

  /** The time on the clock when the timers are looked at. */
  function FiresAt<W>(p: Pass<World<W>>, began: nat): nat {
    if p.event.Ran? then p.state.clock.now else began
  }

  /** The firing of a pass, and what it leaves. */
  ghost predicate Fires<W>(s: State<World<W>>, p: Pass<World<W>>, react: Reaction) {
    var at := FiresAt(p, s.clock.now);
    && p.state.world.timers.log == s.world.timers.log + FiredNow(s.world.timers.queue, at)
    && Ahead(p.state.world.timers.queue, at) && Ready(p.state.world.timers.queue, p.state.clock.now)
    && forall w :: Balanced(s.world.timers.queue, p.state.world.timers.queue, FiredNow(s.world.timers.queue, at), react, w)
  }

  /** On each pass everything due by the time the slice has bought fires, and nothing else. */
  lemma PassFires<W>(loop: (W, nat) -> (W, Report), react: Reaction, s: State<World<W>>, target: nat, p: Pass<World<W>>)
    requires s.clock.Sound() && s.clock.now < target && HasRoom(true, target) && Ready(s.world.timers.queue, s.clock.now)
    requires p == OnePass(Busy(loop, react), s, target)
    ensures Fires(s, p, react)
  {
    PassMoves(Busy(loop, react), s, target);
    var at, t := FiresAt(p, s.clock.now), s.world.timers;
    assert p.state.world.timers == Fire(t, at, react);
    FiringAhead(t, s.clock.now, at, react);
    if p.event.Ran? {
      AheadIsReady(p.state.world.timers.queue, at);
    } else {
      NotPast(p.state.world.timers.queue, at, target);
      InTimeIsReady(p.state.world.timers.queue, p.state.clock.now);
    }
    forall w
      ensures Balanced(t.queue, p.state.world.timers.queue, FiredNow(t.queue, at), react, w)
    {
      FireBalanced(t, at, react, w);
    }
  }

  lemma PassLate<W>(loop: (W, nat) -> (W, Report), react: Reaction, s: State<World<W>>, target: nat,
                    p: Pass<World<W>>, late: nat)
    requires s.clock.Sound() && s.clock.now < target && HasRoom(true, target) && Ready(s.world.timers.queue, s.clock.now)
    requires p == OnePass(Busy(loop, react), s, target)
    requires p.event.Ran? ==> p.event.instructions * 1_000_000 / s.clock.rate + 1 <= late
    ensures LateBy(FiredNow(s.world.timers.queue, FiresAt(p, s.clock.now)), late)
  {
    PassMoves(Busy(loop, react), s, target);
    if p.event.Ran? {
      SliceBuys(s.clock, p.state.clock, p.event.instructions);
    }
    FiringLate(s.world.timers.queue, s.clock.now, FiresAt(p, s.clock.now), late);
  }

  // ---- the run -----------------------------------------------------------

  /** The run adds those firings to the log, none later than that; nothing overdue is left; and
      of each event, what waits and what fired is what waited and what was set. */
  ghost predicate RunsOnTime<W>(s: State<World<W>>, end: State<World<W>>, react: Reaction, fired: seq<Fired>, late: nat) {
    && end.world.timers.log == s.world.timers.log + fired && LateBy(fired, late)
    && Ready(end.world.timers.queue, end.clock.now)
    && forall w :: Balanced(s.world.timers.queue, end.world.timers.queue, fired, react, w)
  }

  lemma OnTimeTwice<W>(a: State<World<W>>, b: State<World<W>>, c: State<World<W>>, react: Reaction,
                       first: seq<Fired>, later: seq<Fired>, late: nat)
    requires RunsOnTime(a, b, react, first, late) && RunsOnTime(b, c, react, later, late)
    ensures RunsOnTime(a, c, react, first + later, late)
  {
    LateByAppend(first, later, late);
    Regroup(a.world.timers.log, first, later);
    forall w
      ensures Balanced(a.world.timers.queue, c.world.timers.queue, first + later, react, w)
    {
      BalancedTwice(a.world.timers.queue, b.world.timers.queue, c.world.timers.queue, first, later, react, w);
    }
  }

  /** Whatever the emulator's loop runs: every event that comes due fires, once, never early and
      late by no more than the longest slice bought, and on time on the microsecond where the
      machine only idles. */
  lemma {:induction false} BusyOnTime<W>(loop: (W, nat) -> (W, Report), react: Reaction, s: State<World<W>>,
                                            target: nat, late: nat)
    returns (fired: seq<Fired>)
    requires Fits(true, s.clock, target) && Ready(s.world.timers.queue, s.clock.now)
    requires Buys(Loop(Busy(loop, react), s, target).events, s.clock.rate, late)
    ensures RunsOnTime(s, Loop(Busy(loop, react), s, target).state, react, fired, late)
    decreases Left(s.clock, target), Wraps(s.clock), s.clock.rate - s.clock.remainder
  {
    if s.clock.now >= target {
      fired := [];
      assert s.world.timers.log + [] == s.world.timers.log;
    } else {
      var b := Busy(loop, react);
      var p := OnePass(b, s, target);
      FirstEvents(b, s, target, p);
      PassFires(loop, react, s, target, p);
      PassLate(loop, react, s, target, p, late);
      var first := FiredNow(s.world.timers.queue, FiresAt(p, s.clock.now));
      var later := BusyOnTime(loop, react, p.state, target, late);
      fired := first + later;
      OnTimeTwice(s, p.state, Loop(b, p.state, target).state, react, first, later, late);
    }
  }

  /** So what was due before the end has fired, as often as it was asked for. */
  lemma DueHasFired<W>(s: State<World<W>>, end: State<World<W>>, react: Reaction, fired: seq<Fired>, late: nat, w: Waiting)
    requires RunsOnTime(s, end, react, fired, late) && When(w.due, w.atOnce) < end.clock.now
    ensures Count(Waited(fired), w) == Asked(s.world.timers.queue, fired, react, w)
  {
    NoneOverdue(end.world.timers.queue, end.clock.now, w);
    assert Balanced(s.world.timers.queue, end.world.timers.queue, fired, react, w);
  }

  lemma {:induction false} NoneOverdue(queue: seq<Waiting>, now: nat, w: Waiting)
    requires Ready(queue, now) && When(w.due, w.atOnce) < now
    ensures Count(queue, w) == 0
  {
    if queue != [] {
      NoneOverdue(queue[1..], now, w);
    }
  }

  lemma FirstEvents<T>(b: Behaviour<T>, s: State<T>, target: nat, p: Pass<T>)
    requires Fits(b.runnable, s.clock, target) && s.clock.now < target && p == OnePass(b, s, target)
    ensures Fits(b.runnable, p.state.clock, target) && Falls(s.clock, p.state.clock, target) && p.state.clock.rate == s.clock.rate
    ensures Loop(b, s, target).state == Loop(b, p.state, target).state
    ensures Loop(b, s, target).events != [] && Loop(b, s, target).events[0] == p.event
    ensures Loop(b, s, target).events[1..] == Loop(b, p.state, target).events
  {
    PassMoves(b, s, target);
    PassFalls(b, s, target);
    var rest := Loop(b, p.state, target).events;
    assert ([p.event] + rest)[1..] == rest;
  }
}

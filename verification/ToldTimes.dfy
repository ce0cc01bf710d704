/** What time a machine is told: its loop the time a pass begins at, its timers the time the
    slice has bought. */
module ToldTimes {
  import VC = VirtualClock
  import opened StepLoop

  /** A world that keeps the times its loop and its timers were told. */
  datatype Told<T> = Told(world: T, toLoop: seq<nat>, toTimers: seq<nat>)

  /** Any machine, with the times kept. */
  function Recording<T>(b: Behaviour<T>): Behaviour<Told<T>> {
    Behaviour(b.runnable,
              (w: Told<T>, now: nat) =>
                var (ran, n) := b.loop(w.world, now);
                (Told(ran, w.toLoop + [now], w.toTimers), n),
              (w: Told<T>, now: nat) =>
                var (fired, next) := b.advance(w.world, now);
                (Told(fired, w.toLoop, w.toTimers + [now]), next))
  }

  /** The clock's time when each pass begins, from what the passes did to the clock. */
  function Begins(c: VC.Clock, events: seq<VC.Event>): seq<nat>
    requires c.Sound()
    decreases |events|
  {
    if events == [] then [] else [c.now] + Begins(VC.Apply(c, events[0]), events[1..])
  }

  /** The clock's time on each pass once its report is paid: after what a slice ran has moved the
      clock, and before an idle jump moves it. */
  function Bought(c: VC.Clock, events: seq<VC.Event>): seq<nat>
    requires c.Sound()
    decreases |events|
  {
    if events == [] then []
    else
      var after := VC.Apply(c, events[0]);
      [if events[0].Ran? then after.now else c.now] + Bought(after, events[1..])
  }

  /** The run with the times kept: told exactly these times, and otherwise the same run. */
  ghost predicate ToldSo<T>(b: Behaviour<T>, s: State<T>, target: nat, toLoop: seq<nat>, toTimers: seq<nat>)
    requires Fits(b.runnable, s.clock, target)
  {
    var plain := Loop(b, s, target);
    var kept := Loop(Recording(b), State(Told(s.world, toLoop, toTimers), s.clock), target);
    && kept.events == plain.events
    && kept.state == State(Told(plain.state.world,
                                toLoop + (if b.runnable then Begins(s.clock, plain.events) else []),
                                toTimers + Bought(s.clock, plain.events)),
                           plain.state.clock)
  }

  lemma PassTold<T>(b: Behaviour<T>, s: State<T>, target: nat, toLoop: seq<nat>, toTimers: seq<nat>)
    requires s.clock.Sound() && s.clock.now < target && HasRoom(b.runnable, target)
    ensures var p := OnePass(b, s, target);
            OnePass(Recording(b), State(Told(s.world, toLoop, toTimers), s.clock), target)
            == Pass(State(Told(p.state.world, toLoop + (if b.runnable then [s.clock.now] else []),
                               toTimers + [if p.event.Ran? then p.state.clock.now else s.clock.now]),
                          p.state.clock), p.event)
  {
    assert toLoop + [] == toLoop;
  }

  lemma Regroup(a: seq<nat>, b: seq<nat>, c: seq<nat>)
    ensures (a + b) + c == a + (b + c)
  {
  }

  lemma FirstTold<T>(b: Behaviour<T>, s: State<T>, target: nat, toLoop: seq<nat>, toTimers: seq<nat>,
                     p: Pass<T>, began: seq<nat>, at: nat)
    requires Fits(b.runnable, s.clock, target) && s.clock.now < target && p == OnePass(b, s, target)
    requires began == (if b.runnable then [s.clock.now] else []) && at == if p.event.Ran? then p.state.clock.now else s.clock.now
    requires Fits(b.runnable, p.state.clock, target) && ToldSo(b, p.state, target, toLoop + began, toTimers + [at])
    ensures ToldSo(b, s, target, toLoop, toTimers)
  {
    PassTold(b, s, target, toLoop, toTimers);
    PassMoves(b, s, target);
    PassFalls(b, s, target);
    var rest := Loop(b, p.state, target);
    assert ([p.event] + rest.events)[1..] == rest.events;
    Regroup(toTimers, [at], Bought(p.state.clock, rest.events));
    if b.runnable {
      Regroup(toLoop, began, Begins(p.state.clock, rest.events));
    } else {
      assert toLoop + began == toLoop;
    }
  }

  /** Over any run of any machine: on each pass the loop is told when the pass begins, and the
      timers are told the time after whatever was run has been paid for. */
  lemma {:induction false} TimesTold<T>(b: Behaviour<T>, s: State<T>, target: nat, toLoop: seq<nat>, toTimers: seq<nat>)
    requires Fits(b.runnable, s.clock, target)
    ensures ToldSo(b, s, target, toLoop, toTimers)
    decreases Left(s.clock, target), Wraps(s.clock), s.clock.rate - s.clock.remainder
  {
    if s.clock.now < target {
      var p := OnePass(b, s, target);
      var began := if b.runnable then [s.clock.now] else [];
      var at := if p.event.Ran? then p.state.clock.now else s.clock.now;
      PassFalls(b, s, target);
      TimesTold(b, p.state, target, toLoop + began, toTimers + [at]);
      FirstTold(b, s, target, toLoop, toTimers, p, began, at);
    } else {
      assert toLoop + [] == toLoop && toTimers + [] == toTimers;
    }
  }
}

/** A machine with no device runs nothing: its time is all idle jumps, and its timers
    must fire as if time had passed continuously, however the time is cut into calls. */
module EmptyMachine {
  import opened Options
  import VC = VirtualClock
  import opened StepLoop

  /** A timer event waiting for its deadline, and one that fired, with the time it did. An
      event that a firing sets with no delay at all is marked: it is due at once, and the
      pass that sets it is over with what was due. */
  datatype Waiting = Waiting(due: nat, event: nat, atOnce: bool)
  datatype Fired = Fired(event: nat, due: nat, atOnce: bool, at: nat)

  datatype Timers = Timers(queue: seq<Waiting>, log: seq<Fired>)

  /** What firing an event schedules: events some microseconds on, or at once. */
  type Reaction = (nat, nat) -> seq<(nat, nat)>

  /** When an event fires: at its deadline, and a microsecond after it when it was set at once. */
  function When(due: nat, atOnce: bool): nat {
    if atOnce then due + 1 else due
  }

  // ---- firing what is due ------------------------------------------------

  function Set(delay: nat, event: nat, now: nat): Waiting {
    Waiting(now + delay, event, delay == 0)
  }

  function Later(scheduled: seq<(nat, nat)>, now: nat): seq<Waiting> {
    if scheduled == [] then [] else [Set(scheduled[0].0, scheduled[0].1, now)] + Later(scheduled[1..], now)
  }

  function NotDue(queue: seq<Waiting>, now: nat): seq<Waiting> {
    if queue == [] then []
    else (if queue[0].due > now then [queue[0]] else []) + NotDue(queue[1..], now)
  }

  function Firing(w: Waiting, now: nat): Fired {
    Fired(w.event, w.due, w.atOnce, now)
  }

  function FiredNow(queue: seq<Waiting>, now: nat): seq<Fired> {
    if queue == [] then []
    else (if queue[0].due <= now then [Firing(queue[0], now)] else []) + FiredNow(queue[1..], now)
  }

  function Scheduled(queue: seq<Waiting>, now: nat, react: Reaction): seq<Waiting> {
    if queue == [] then []
    else (if queue[0].due <= now then Later(react(queue[0].event, now), now) else []) + Scheduled(queue[1..], now, react)
  }

  /** Fires everything due; what the firings schedule waits behind the rest. */
  function Fire(t: Timers, now: nat, react: Reaction): Timers {
    Timers(NotDue(t.queue, now) + Scheduled(t.queue, now, react), t.log + FiredNow(t.queue, now))
  }

  /** Nothing in the queue is due before the given time. */
  predicate NoneBefore(queue: seq<Waiting>, time: nat) {
    queue == [] || (queue[0].due >= time && NoneBefore(queue[1..], time))
  }

  lemma {:induction false} NoneBeforeAppend(a: seq<Waiting>, b: seq<Waiting>, time: nat)
    ensures NoneBefore(a + b, time) <==> NoneBefore(a, time) && NoneBefore(b, time)
    decreases |a|
  {
    if a == [] {
      assert a + b == b;
    } else {
      assert (a + b)[1..] == a[1..] + b;
      NoneBeforeAppend(a[1..], b, time);
    }
  }

  /** After a pass at `now`: due later, or set at once in this pass. */
  predicate Ahead(queue: seq<Waiting>, now: nat) {
    queue == [] || ((if queue[0].atOnce then queue[0].due == now else queue[0].due > now) && Ahead(queue[1..], now))
  }

  /** Before a pass at `now`: not overdue, or set at once in the pass before. */
  predicate InTime(queue: seq<Waiting>, now: nat) {
    queue == [] || ((if queue[0].atOnce then queue[0].due + 1 == now else queue[0].due >= now) && InTime(queue[1..], now))
  }

  lemma {:induction false} AheadAppend(a: seq<Waiting>, b: seq<Waiting>, now: nat)
    requires Ahead(a, now) && Ahead(b, now)
    ensures Ahead(a + b, now)
    decreases |a|
  {
    if a == [] {
      assert a + b == b;
    } else {
      assert (a + b)[1..] == a[1..] + b;
      AheadAppend(a[1..], b, now);
    }
  }

  lemma {:induction false} LaterAhead(scheduled: seq<(nat, nat)>, now: nat)
    ensures Ahead(Later(scheduled, now), now)
  {
    if scheduled != [] {
      LaterAhead(scheduled[1..], now);
    }
  }

  lemma FireAhead(t: Timers, now: nat, react: Reaction)
    requires InTime(t.queue, now)
    ensures Ahead(Fire(t, now, react).queue, now)
  {
    NotDueAhead(t.queue, now);
    ScheduledAhead(t.queue, now, react);
    AheadAppend(NotDue(t.queue, now), Scheduled(t.queue, now, react), now);
  }

  lemma {:induction false} NotDueAhead(queue: seq<Waiting>, now: nat)
    requires InTime(queue, now)
    ensures Ahead(NotDue(queue, now), now)
    decreases |queue|
  {
    if queue != [] {
      NotDueAhead(queue[1..], now);
      AheadAppend(if queue[0].due > now then [queue[0]] else [], NotDue(queue[1..], now), now);
    }
  }

  lemma {:induction false} ScheduledAhead(queue: seq<Waiting>, now: nat, react: Reaction)
    ensures Ahead(Scheduled(queue, now, react), now)
    decreases |queue|
  {
    if queue != [] {
      ScheduledAhead(queue[1..], now, react);
      LaterAhead(react(queue[0].event, now), now);
      AheadAppend(if queue[0].due <= now then Later(react(queue[0].event, now), now) else [],
                  Scheduled(queue[1..], now, react), now);
    }
  }

  function Earliest(queue: seq<Waiting>): nat
    requires queue != []
  {
    if |queue| == 1 then queue[0].due
    else
      var rest := Earliest(queue[1..]);
      if queue[0].due < rest then queue[0].due else rest
  }

  lemma {:induction false} EarliestBounds(queue: seq<Waiting>, time: nat)
    requires queue != []
    ensures NoneBefore(queue, time) <==> time <= Earliest(queue)
  {
    if |queue| > 1 {
      EarliestBounds(queue[1..], time);
    }
  }

  /** The time to the next deadline, none when nothing waits. */
  function Next(queue: seq<Waiting>, now: nat): Option<nat> {
    if queue == [] then None else Some(if Earliest(queue) > now then Earliest(queue) - now else 0)
  }

  function Advance(t: Timers, now: nat, react: Reaction): (Timers, Option<nat>) {
    var fired := Fire(t, now, react);
    (fired, Next(fired.queue, now))
  }

  /** The machine the step loop sees: no loop to call, and these timers. */
  function Empty(react: Reaction): Behaviour<Timers> {
    Behaviour(false, (t: Timers, now: nat) => (t, 0), (t: Timers, now: nat) => Advance(t, now, react))
  }

  // ---- the run -----------------------------------------------------------

  function Run(t: Timers, now: nat, target: nat, react: Reaction): Timers
    decreases target - now
  {
    if now >= target then t
    else
      var (fired, next) := Advance(t, now, react);
      Run(fired, now + Jump(next, target - now), target, react)
  }

  predicate LoopRuns(t: Timers, c: VC.Clock, target: nat, react: Reaction)
    requires Fits(false, c, target)
  {
    Loop(Empty(react), State(t, c), target).state == State(Run(t, c.now, target, react), c.(now := target))
  }

  lemma FirstFiring(t: Timers, now: nat, target: nat, react: Reaction, fired: Timers)
    requires now < target && fired == Fire(t, now, react)
    ensures Run(t, now, target, react) == Run(fired, now + Jump(Next(fired.queue, now), target - now), target, react)
  {
  }

  lemma EmptyPass(t: Timers, c: VC.Clock, target: nat, react: Reaction, fired: Timers, next: nat)
    requires Fits(false, c, target) && c.now < target && fired == Fire(t, c.now, react)
    requires next == c.now + Jump(Next(fired.queue, c.now), target - c.now)
    ensures OnePass(Empty(react), State(t, c), target).state == State(fired, c.(now := next))
  {
    IdleMoves(c, next - c.now, target);
  }

  /** The step loop on an empty machine is that run, and ends exactly on the target. */
  lemma {:induction false} LoopIsRun(t: Timers, c: VC.Clock, target: nat, react: Reaction)
    requires Fits(false, c, target) && c.now <= target
    ensures LoopRuns(t, c, target, react)
    decreases target - c.now
  {
    if c.now < target {
      var fired := Fire(t, c.now, react);
      var next := c.now + Jump(Next(fired.queue, c.now), target - c.now);
      EmptyPass(t, c, target, react, fired, next);
      FirstPass(Empty(react), State(t, c), target, State(fired, c.(now := next)));
      FirstFiring(t, c.now, target, react, fired);
      LoopIsRun(fired, c.(now := next), target, react);
    }
  }

  // ---- cutting the time --------------------------------------------------

  lemma {:induction false} NothingDue(queue: seq<Waiting>, now: nat, react: Reaction)
    requires NoneBefore(queue, now + 1)
    ensures NotDue(queue, now) == queue && Scheduled(queue, now, react) == [] && FiredNow(queue, now) == []
    decreases |queue|
  {
    if queue != [] {
      NothingDue(queue[1..], now, react);
    }
  }

  lemma NothingFires(t: Timers, now: nat, react: Reaction)
    requires NoneBefore(t.queue, now + 1)
    ensures Fire(t, now, react) == t
  {
    NothingDue(t.queue, now, react);
  }

  /** When the next deadline is after `mid`, nothing is there to do at `mid`. */
  lemma NotDueYet(t: Timers, now: nat, mid: nat, target: nat, react: Reaction)
    requires now < mid <= target && now + Jump(Next(t.queue, now), target - now) > mid
    ensures Fire(t, mid, react) == t
    ensures mid + Jump(Next(t.queue, mid), target - mid) == now + Jump(Next(t.queue, now), target - now)
  {
    if t.queue != [] {
      EarliestBounds(t.queue, mid + 1);
    }
    NothingFires(t, mid, react);
  }

  /** Wherever the empty machine idles over, it is quiet there. */
  lemma EmptyQuiet(from: State<Timers>, mid: nat, target: nat, react: Reaction)
    requires Fits(false, from.clock, target) && from.clock.now < mid <= target
    requires JumpsOver(Empty(react), from, mid, target)
    ensures QuietAt(Empty(react), from, mid, target)
  {
    var now, fired := from.clock.now, Fire(from.world, from.clock.now, react);
    EmptyPass(from.world, from.clock, target, react, fired, now + Jump(Next(fired.queue, now), target - now));
    NotDueYet(fired, now, mid, target, react);
  }

  /** Stopping anywhere on the way changes nothing: not what fired, not when, not what waits. */
  lemma EmptyCutNeutral(t: Timers, c: VC.Clock, mid: nat, target: nat, react: Reaction)
    requires Fits(false, c, target) && c.now <= mid <= target
    ensures CutNeutral(Empty(react), State(t, c), mid, target)
  {
    var from := JumpedFrom(Empty(react), State(t, c), mid, target);
    if from.Some? {
      EmptyQuiet(from.value, mid, target, react);
    }
    QuietCutNeutral(Empty(react), State(t, c), mid, target);
  }

  /** Nor does it in the run of firings and jumps. */
  predicate RunMeets(t: Timers, now: nat, mid: nat, target: nat, react: Reaction) {
    Run(Run(t, now, mid, react), mid, target, react) == Run(t, now, target, react)
  }

  lemma RunCut(t: Timers, c: VC.Clock, mid: nat, target: nat, react: Reaction)
    requires Fits(false, c, target) && c.now <= mid <= target
    ensures RunMeets(t, c.now, mid, target, react)
  {
    EmptyCutNeutral(t, c, mid, target, react);
    RunsMeet(t, c, mid, target, react);
  }

  lemma RunsMeet(t: Timers, c: VC.Clock, mid: nat, target: nat, react: Reaction)
    requires Fits(false, c, target) && c.now <= mid <= target && CutNeutral(Empty(react), State(t, c), mid, target)
    ensures RunMeets(t, c.now, mid, target, react)
  {
    LoopIsRun(t, c, mid, react);
    LoopIsRun(t, c, target, react);
    LoopIsRun(Run(t, c.now, mid, react), c.(now := mid), target, react);
  }

  function Total(cuts: seq<nat>): nat {
    if cuts == [] then 0 else cuts[0] + Total(cuts[1..])
  }

  /** One call of the step loop on the empty machine. */
  function Call(t: Timers, c: VC.Clock, us: nat, react: Reaction): (s: State<Timers>)
    requires Fits(false, c, c.now + us)
    ensures s == State(Run(t, c.now, c.now + us, react), c.(now := c.now + us))
  {
    LoopIsRun(t, c, c.now + us, react);
    Loop(Empty(react), State(t, c), c.now + us).state
  }

  /** One call after the other, each for its share of the time. */
  function Calls(t: Timers, c: VC.Clock, cuts: seq<nat>, react: Reaction): State<Timers>
    requires Fits(false, c, c.now + Total(cuts))
    decreases |cuts|
  {
    if cuts == [] then State(t, c)
    else
      var s := Call(t, c, cuts[0], react);
      Calls(s.world, s.clock, cuts[1..], react)
  }

  /** The calls leave what one run through all of the time leaves, with the clock at its end. */
  predicate AsOneRun(t: Timers, c: VC.Clock, cuts: seq<nat>, react: Reaction)
    requires Fits(false, c, c.now + Total(cuts))
  {
    var end := c.now + Total(cuts);
    Calls(t, c, cuts, react) == State(Run(t, c.now, end, react), c.(now := end))
  }

  lemma CutsNeutral(t: Timers, c: VC.Clock, cuts: seq<nat>, react: Reaction)
    requires Fits(false, c, c.now + Total(cuts))
    ensures AsOneRun(t, c, cuts, react)
  {
    CutsEnd(t, c, cuts, react, Run(t, c.now, c.now + Total(cuts), react));
  }

  predicate RunIs(t: Timers, now: nat, target: nat, react: Reaction, end: Timers) {
    Run(t, now, target, react) == end
  }

  predicate CallsAre(t: Timers, c: VC.Clock, cuts: seq<nat>, react: Reaction, end: State<Timers>)
    requires Fits(false, c, c.now + Total(cuts))
  {
    Calls(t, c, cuts, react) == end
  }

  lemma {:induction false} CutsEnd(t: Timers, c: VC.Clock, cuts: seq<nat>, react: Reaction, end: Timers)
    requires Fits(false, c, c.now + Total(cuts)) && RunIs(t, c.now, c.now + Total(cuts), react, end)
    ensures CallsAre(t, c, cuts, react, State(end, c.(now := c.now + Total(cuts))))
    decreases |cuts|
  {
    if cuts != [] {
      var mid := c.now + cuts[0];
      var middle, later := Run(t, c.now, mid, react), c.(now := mid);
      RunCut(t, c, mid, c.now + Total(cuts), react);
      Met(t, c.now, mid, c.now + Total(cuts), react, middle, end);
      CutsEnd(middle, later, cuts[1..], react, end);
      FirstCall(t, c, cuts, react, middle, later, State(end, c.(now := c.now + Total(cuts))));
    }
  }

  lemma Met(t: Timers, now: nat, mid: nat, target: nat, react: Reaction, middle: Timers, end: Timers)
    requires RunMeets(t, now, mid, target, react) && middle == Run(t, now, mid, react) && RunIs(t, now, target, react, end)
    ensures RunIs(middle, mid, target, react, end)
  {
  }

  lemma FirstCall(t: Timers, c: VC.Clock, cuts: seq<nat>, react: Reaction, middle: Timers, later: VC.Clock, end: State<Timers>)
    requires cuts != [] && Fits(false, c, c.now + Total(cuts)) && later == c.(now := c.now + cuts[0])
    requires middle == Run(t, c.now, later.now, react) && CallsAre(middle, later, cuts[1..], react, end)
    ensures CallsAre(t, c, cuts, react, end)
  {
    assert Call(t, c, cuts[0], react) == State(middle, later);
  }

  /** How the time was cut never matters. */
  lemma SameCalls(t: Timers, c: VC.Clock, cuts: seq<nat>, others: seq<nat>, react: Reaction)
    requires Total(cuts) == Total(others) && Fits(false, c, c.now + Total(cuts))
    ensures Calls(t, c, cuts, react) == Calls(t, c, others, react)
  {
    CutsNeutral(t, c, cuts, react);
    CutsNeutral(t, c, others, react);
  }

  // ---- never late --------------------------------------------------------

  predicate OnTime(log: seq<Fired>) {
    forall i | 0 <= i < |log| :: log[i].at == When(log[i].due, log[i].atOnce)
  }

  lemma {:induction false} FiredOnTime(queue: seq<Waiting>, now: nat)
    requires InTime(queue, now)
    ensures OnTime(FiredNow(queue, now))
  {
    if queue != [] {
      FiredOnTime(queue[1..], now);
    }
  }

  /** The next pass starts with nothing overdue: when something was set at once, it is
      the next microsecond. */
  lemma NotPast(queue: seq<Waiting>, now: nat, target: nat)
    requires now < target && Ahead(queue, now)
    ensures InTime(queue, now + Jump(Next(queue, now), target - now))
  {
    var next := now + Jump(Next(queue, now), target - now);
    if queue != [] && next > now + 1 {
      EarliestBounds(queue, next);
    }
    AheadInTime(queue, now, next);
  }

  lemma {:induction false} AheadInTime(queue: seq<Waiting>, now: nat, next: nat)
    requires Ahead(queue, now) && now < next && (next == now + 1 || NoneBefore(queue, next))
    ensures InTime(queue, next)
  {
    if queue != [] {
      AheadInTime(queue[1..], now, next);
    }
  }

  predicate StaysInTime(t: Timers, now: nat, target: nat, react: Reaction) {
    InTime(Run(t, now, target, react).queue, target)
  }

  lemma {:induction false} StaysOrdered(t: Timers, now: nat, target: nat, react: Reaction)
    requires now <= target && InTime(t.queue, now)
    ensures StaysInTime(t, now, target, react)
    decreases target - now
  {
    if now < target {
      var fired := Fire(t, now, react);
      var next := now + Jump(Next(fired.queue, now), target - now);
      FireAhead(t, now, react);
      NotPast(fired.queue, now, target);
      StaysOrdered(fired, next, target, react);
      FirstFiring(t, now, target, react, fired);
    }
  }

  predicate StaysOnTime(t: Timers, now: nat, target: nat, react: Reaction) {
    OnTime(Run(t, now, target, react).log)
  }

  /** Every event fires exactly at its deadline, or a microsecond after when a firing set it
      at once, and at the end none that was to fire before the end still waits. */
  lemma {:induction false} NeverLate(t: Timers, now: nat, target: nat, react: Reaction)
    requires now <= target && InTime(t.queue, now) && OnTime(t.log)
    ensures StaysOnTime(t, now, target, react) && StaysInTime(t, now, target, react)
    decreases target - now
  {
    StaysOrdered(t, now, target, react);
    if now < target {
      var fired := Fire(t, now, react);
      var next := now + Jump(Next(fired.queue, now), target - now);
      FireAhead(t, now, react);
      FiredOnTime(t.queue, now);
      NotPast(fired.queue, now, target);
      NeverLate(fired, next, target, react);
      FirstFiring(t, now, target, react, fired);
    }
  }

  /** A pass over one waiting timer. */
  lemma FireAlone(w: Waiting, log: seq<Fired>, now: nat, react: Reaction)
    ensures Fire(Timers([w], log), now, react)
            == if w.due <= now then Timers(Later(react(w.event, now), now), log + [Firing(w, now)]) else Timers([w], log)
  {
    var queue := [w];
    assert queue[1..] == [];
    assert NotDue(queue, now) == if w.due <= now then [] else queue;
    assert Scheduled(queue, now, react) == if w.due <= now then Later(react(w.event, now), now) else [];
    assert FiredNow(queue, now) == if w.due <= now then [Firing(w, now)] else [];
  }

  /** One event, and another that its firing sets at once. */
  function Chain(): Reaction {
    (event: nat, now: nat) => if event == 1 then [(0, 2)] else []
  }

  lemma ChainSets(event: nat, now: nat)
    ensures Later(Chain()(event, now), now) == if event == 1 then [Waiting(now, 2, true)] else []
  {
    assert Chain()(event, now) == if event == 1 then [(0, 2)] else [];
  }

  lemma ChainFires(start: nat, first: Waiting, second: Waiting)
    requires first == Waiting(start, 1, false) && second == Waiting(start, 2, true)
    ensures Fire(Timers([first], []), start, Chain()) == Timers([second], [Firing(first, start)])
    ensures Fire(Timers([second], [Firing(first, start)]), start + 1, Chain())
            == Timers([], [Firing(first, start), Firing(second, start + 1)])
  {
    ChainSets(1, start);
    ChainSets(2, start + 1);
    FireAlone(first, [], start, Chain());
    FireAlone(second, [Firing(first, start)], start + 1, Chain());
    assert [] + [Firing(first, start)] == [Firing(first, start)];
  }

  /** It comes a microsecond later, with the next pass. */
  lemma AtOnceIsLate(start: nat, end: nat)
    requires end > start + 1
    ensures Run(Timers([Waiting(start, 1, false)], []), start, end, Chain())
            == Timers([], [Fired(1, start, false, start), Fired(2, start, true, start + 1)])
  {
    var first, second := Waiting(start, 1, false), Waiting(start, 2, true);
    var one, two := Timers([second], [Firing(first, start)]), Timers([], [Firing(first, start), Firing(second, start + 1)]);
    ChainFires(start, first, second);
    FirstFiring(Timers([first], []), start, end, Chain(), one);
    FirstFiring(one, start + 1, end, Chain(), two);
    assert Run(two, end, end, Chain()) == two;
  }

  /** So over any calls of the step loop. */
  lemma CallsNeverLate(t: Timers, c: VC.Clock, cuts: seq<nat>, react: Reaction)
    requires Fits(false, c, c.now + Total(cuts)) && InTime(t.queue, c.now) && OnTime(t.log)
    ensures CallsOnTime(t, c, cuts, react)
  {
    CutsNeutral(t, c, cuts, react);
    NeverLate(t, c.now, c.now + Total(cuts), react);
    RunOnTime(t, c, cuts, react, Run(t, c.now, c.now + Total(cuts), react));
  }

  predicate CallsOnTime(t: Timers, c: VC.Clock, cuts: seq<nat>, react: Reaction)
    requires Fits(false, c, c.now + Total(cuts))
  {
    EndsOnTime(Calls(t, c, cuts, react), c, c.now + Total(cuts))
  }

  lemma RunOnTime(t: Timers, c: VC.Clock, cuts: seq<nat>, react: Reaction, end: Timers)
    requires Fits(false, c, c.now + Total(cuts)) && AsOneRun(t, c, cuts, react) && end == Run(t, c.now, c.now + Total(cuts), react)
    requires OnTime(end.log) && InTime(end.queue, c.now + Total(cuts))
    ensures CallsOnTime(t, c, cuts, react)
  {
  }

  /** Everything fired at its deadline, nothing overdue waits, and the clock is at the end. */
  predicate EndsOnTime(end: State<Timers>, start: VC.Clock, target: nat) {
    OnTime(end.world.log) && InTime(end.world.queue, target) && end.clock == start.(now := target)
  }

  // ---- every event once --------------------------------------------------

  /** The events a log says fired, as they waited. */
  function Waited(log: seq<Fired>): seq<Waiting> {
    if log == [] then [] else [Waiting(log[0].due, log[0].event, log[0].atOnce)] + Waited(log[1..])
  }

  /** The events the firings of a log set. */
  function SetBy(log: seq<Fired>, react: Reaction): seq<Waiting> {
    if log == [] then [] else Later(react(log[0].event, log[0].at), log[0].at) + SetBy(log[1..], react)
  }

  /** How often an event waits in a queue. */
  function Count(queue: seq<Waiting>, w: Waiting): nat {
    if queue == [] then 0 else (if queue[0] == w then 1 else 0) + Count(queue[1..], w)
  }

  lemma {:induction false} CountAppend(a: seq<Waiting>, b: seq<Waiting>, w: Waiting)
    ensures Count(a + b, w) == Count(a, w) + Count(b, w)
  {
    if a == [] {
      assert a + b == b;
    } else {
      assert (a + b)[1..] == a[1..] + b;
      CountAppend(a[1..], b, w);
    }
  }

  lemma {:induction false} CountIsMembership(queue: seq<Waiting>, w: Waiting)
    ensures Count(queue, w) == multiset(queue)[w]
  {
    if queue != [] {
      assert queue == [queue[0]] + queue[1..];
      CountIsMembership(queue[1..], w);
    }
  }

  lemma {:induction false} WaitedAppend(a: seq<Fired>, b: seq<Fired>)
    ensures Waited(a + b) == Waited(a) + Waited(b)
  {
    if a == [] {
      assert a + b == b;
    } else {
      assert (a + b)[1..] == a[1..] + b;
      WaitedAppend(a[1..], b);
    }
  }

  lemma {:induction false} SetByAppend(a: seq<Fired>, b: seq<Fired>, react: Reaction)
    ensures SetBy(a + b, react) == SetBy(a, react) + SetBy(b, react)
  {
    if a == [] {
      assert a + b == b;
    } else {
      assert (a + b)[1..] == a[1..] + b;
      SetByAppend(a[1..], b, react);
    }
  }

  lemma FiredFirst(queue: seq<Waiting>, now: nat)
    requires queue != []
    ensures queue[0].due <= now ==>
              FiredNow(queue, now) == [Firing(queue[0], now)] + FiredNow(queue[1..], now)
              && NotDue(queue, now) == NotDue(queue[1..], now)
    ensures queue[0].due > now ==>
              FiredNow(queue, now) == FiredNow(queue[1..], now) && NotDue(queue, now) == [queue[0]] + NotDue(queue[1..], now)
  {
  }

  lemma {:induction false} FiringsSet(queue: seq<Waiting>, now: nat, react: Reaction)
    ensures SetBy(FiredNow(queue, now), react) == Scheduled(queue, now, react)
    decreases |queue|
  {
    if queue != [] {
      FiringsSet(queue[1..], now, react);
      FiredFirst(queue, now);
      if queue[0].due <= now {
        assert FiredNow(queue, now)[1..] == FiredNow(queue[1..], now);
      } else {
        assert Scheduled(queue, now, react) == Scheduled(queue[1..], now, react);
      }
    }
  }

  lemma {:induction false} FiredOrNot(queue: seq<Waiting>, now: nat, w: Waiting)
    ensures Count(NotDue(queue, now), w) + Count(Waited(FiredNow(queue, now)), w) == Count(queue, w)
    decreases |queue|
  {
    if queue != [] {
      FiredOrNot(queue[1..], now, w);
      FiredFirst(queue, now);
      if queue[0].due <= now {
        WaitedAppend([Firing(queue[0], now)], FiredNow(queue[1..], now));
        assert Waited([Firing(queue[0], now)]) == [queue[0]];
        CountAppend([queue[0]], Waited(FiredNow(queue[1..], now)), w);
      } else {
        CountAppend([queue[0]], NotDue(queue[1..], now), w);
      }
      CountAppend([queue[0]], queue[1..], w);
      assert queue == [queue[0]] + queue[1..];
    }
  }

  /** Of each event, what waits at the end and what fired on the way is what waited at the
      start and what the firings set. */
  predicate Balanced(before: seq<Waiting>, after: seq<Waiting>, fired: seq<Fired>, react: Reaction, w: Waiting) {
    Count(after, w) + Count(Waited(fired), w) == Count(before, w) + Count(SetBy(fired, react), w)
  }

  lemma FireBalanced(t: Timers, now: nat, react: Reaction, w: Waiting)
    ensures Balanced(t.queue, Fire(t, now, react).queue, FiredNow(t.queue, now), react, w)
  {
    FiredOrNot(t.queue, now, w);
    FiringsSet(t.queue, now, react);
    CountAppend(NotDue(t.queue, now), Scheduled(t.queue, now, react), w);
  }

  lemma BalancedTwice(a: seq<Waiting>, b: seq<Waiting>, c: seq<Waiting>, first: seq<Fired>, later: seq<Fired>,
                      react: Reaction, w: Waiting)
    requires Balanced(a, b, first, react, w) && Balanced(b, c, later, react, w)
    ensures Balanced(a, c, first + later, react, w)
  {
    WaitedAppend(first, later);
    SetByAppend(first, later, react);
    CountAppend(Waited(first), Waited(later), w);
    CountAppend(SetBy(first, react), SetBy(later, react), w);
  }

  /** What fired between two times: on time, and each event once. */
  function FiredBetween(t: Timers, now: nat, target: nat, react: Reaction): seq<Fired>
    decreases target - now
  {
    if now >= target then []
    else
      var fired := Fire(t, now, react);
      FiredNow(t.queue, now) + FiredBetween(fired, now + Jump(Next(fired.queue, now), target - now), target, react)
  }

  /** The log of a run is what was in it and what fired between. */
  predicate Logs(t: Timers, now: nat, target: nat, react: Reaction) {
    Run(t, now, target, react).log == t.log + FiredBetween(t, now, target, react)
  }

  predicate BetweenIs(t: Timers, now: nat, target: nat, react: Reaction, log: seq<Fired>) {
    FiredBetween(t, now, target, react) == log
  }

  lemma FirstBetween(t: Timers, now: nat, target: nat, react: Reaction, fired: Timers, next: nat, later: seq<Fired>)
    requires now < target && fired == Fire(t, now, react)
    requires next == now + Jump(Next(fired.queue, now), target - now) && BetweenIs(fired, next, target, react, later)
    ensures BetweenIs(t, now, target, react, FiredNow(t.queue, now) + later)
  {
  }

  lemma OnePassLogs(t: Timers, now: nat, target: nat, react: Reaction, fired: Timers, next: nat)
    requires now < target && fired == Fire(t, now, react)
    requires next == now + Jump(Next(fired.queue, now), target - now) && Logs(fired, next, target, react)
    ensures Logs(t, now, target, react)
  {
    FirstFiring(t, now, target, react, fired);
    FirstBetween(t, now, target, react, fired, next, FiredBetween(fired, next, target, react));
    Regroup(t.log, FiredNow(t.queue, now), FiredBetween(fired, next, target, react));
  }

  lemma Regroup(a: seq<Fired>, b: seq<Fired>, c: seq<Fired>)
    ensures (a + b) + c == a + (b + c)
  {
  }

  lemma {:induction false} RunLogs(t: Timers, now: nat, target: nat, react: Reaction)
    ensures Logs(t, now, target, react)
    decreases target - now
  {
    if now < target {
      var fired := Fire(t, now, react);
      var next := now + Jump(Next(fired.queue, now), target - now);
      RunLogs(fired, next, target, react);
      OnePassLogs(t, now, target, react, fired, next);
    }
  }

  predicate RunBalances(t: Timers, now: nat, target: nat, react: Reaction, w: Waiting) {
    Balanced(t.queue, Run(t, now, target, react).queue, FiredBetween(t, now, target, react), react, w)
  }

  lemma OnePassBalances(t: Timers, now: nat, target: nat, react: Reaction, w: Waiting, fired: Timers, next: nat)
    requires now < target && fired == Fire(t, now, react)
    requires next == now + Jump(Next(fired.queue, now), target - now) && RunBalances(fired, next, target, react, w)
    ensures RunBalances(t, now, target, react, w)
  {
    FireBalanced(t, now, react, w);
    FirstFiring(t, now, target, react, fired);
    BalancedTwice(t.queue, fired.queue, Run(fired, next, target, react).queue,
                  FiredNow(t.queue, now), FiredBetween(fired, next, target, react), react, w);
  }

  lemma {:induction false} RunBalanced(t: Timers, now: nat, target: nat, react: Reaction, w: Waiting)
    ensures RunBalances(t, now, target, react, w)
    decreases target - now
  {
    if now < target {
      var fired := Fire(t, now, react);
      var next := now + Jump(Next(fired.queue, now), target - now);
      RunBalanced(fired, next, target, react, w);
      OnePassBalances(t, now, target, react, w, fired, next);
    }
  }

  predicate FiredBefore(log: seq<Fired>, target: nat) {
    log == [] || (log[0].at == When(log[0].due, log[0].atOnce) < target && FiredBefore(log[1..], target))
  }

  lemma {:induction false} FiredBeforeAppend(a: seq<Fired>, b: seq<Fired>, target: nat)
    requires FiredBefore(a, target) && FiredBefore(b, target)
    ensures FiredBefore(a + b, target)
  {
    if a == [] {
      assert a + b == b;
    } else {
      assert (a + b)[1..] == a[1..] + b;
      FiredBeforeAppend(a[1..], b, target);
    }
  }

  lemma {:induction false} FiredNowBefore(queue: seq<Waiting>, now: nat, target: nat)
    requires InTime(queue, now) && now < target
    ensures FiredBefore(FiredNow(queue, now), target)
  {
    if queue != [] {
      FiredNowBefore(queue[1..], now, target);
      FiredFirst(queue, now);
      if queue[0].due <= now {
        assert FiredNow(queue, now)[1..] == FiredNow(queue[1..], now);
      }
    }
  }

  predicate BetweenOnTime(t: Timers, now: nat, target: nat, react: Reaction) {
    FiredBefore(FiredBetween(t, now, target, react), target)
  }

  lemma OnePassOnTime(t: Timers, now: nat, target: nat, react: Reaction, fired: Timers, next: nat)
    requires now < target && fired == Fire(t, now, react) && InTime(t.queue, now)
    requires next == now + Jump(Next(fired.queue, now), target - now) && BetweenOnTime(fired, next, target, react)
    ensures BetweenOnTime(t, now, target, react)
  {
    FiredNowBefore(t.queue, now, target);
    FiredBeforeAppend(FiredNow(t.queue, now), FiredBetween(fired, next, target, react), target);
  }

  lemma {:induction false} FiredBetweenBefore(t: Timers, now: nat, target: nat, react: Reaction)
    requires now <= target && InTime(t.queue, now)
    ensures BetweenOnTime(t, now, target, react)
    decreases target - now
  {
    if now < target {
      var fired := Fire(t, now, react);
      var next := now + Jump(Next(fired.queue, now), target - now);
      FireAhead(t, now, react);
      NotPast(fired.queue, now, target);
      FiredBetweenBefore(fired, next, target, react);
      OnePassOnTime(t, now, target, react, fired, next);
    }
  }

  lemma {:induction false} NotFired(log: seq<Fired>, target: nat, w: Waiting)
    requires FiredBefore(log, target) && When(w.due, w.atOnce) >= target
    ensures Count(Waited(log), w) == 0
  {
    if log != [] {
      NotFired(log[1..], target, w);
    }
  }

  lemma {:induction false} NotWaiting(queue: seq<Waiting>, target: nat, w: Waiting)
    requires InTime(queue, target) && When(w.due, w.atOnce) < target
    ensures Count(queue, w) == 0
  {
    if queue != [] {
      NotWaiting(queue[1..], target, w);
    }
  }

  /** How often an event is asked for: as it waits, and by the firings. */
  function Asked(queue: seq<Waiting>, fired: seq<Fired>, react: Reaction, w: Waiting): nat {
    Count(queue, w) + Count(SetBy(fired, react), w)
  }

  /** Each event asked for has fired when it was due before the end, and otherwise it waits:
      as often as it was asked for and no more. */
  predicate EachOnce(before: seq<Waiting>, after: seq<Waiting>, fired: seq<Fired>, react: Reaction, target: nat, w: Waiting) {
    && FiredBefore(fired, target)
    && Count(Waited(fired), w) == (if When(w.due, w.atOnce) < target then Asked(before, fired, react, w) else 0)
    && Count(after, w) == (if When(w.due, w.atOnce) < target then 0 else Asked(before, fired, react, w))
  }

  lemma EachFiresOnce(t: Timers, now: nat, target: nat, react: Reaction, w: Waiting)
    requires now <= target && InTime(t.queue, now)
    ensures EachOnce(t.queue, Run(t, now, target, react).queue, FiredBetween(t, now, target, react), react, target, w)
  {
    RunBalanced(t, now, target, react, w);
    FiredBetweenBefore(t, now, target, react);
    StaysOrdered(t, now, target, react);
    BalancedOnce(t.queue, Run(t, now, target, react).queue, FiredBetween(t, now, target, react), react, target, w);
  }

  lemma BalancedOnce(before: seq<Waiting>, after: seq<Waiting>, fired: seq<Fired>, react: Reaction, target: nat, w: Waiting)
    requires Balanced(before, after, fired, react, w) && FiredBefore(fired, target) && InTime(after, target)
    ensures EachOnce(before, after, fired, react, target, w)
  {
    if When(w.due, w.atOnce) < target {
      NotWaiting(after, target, w);
    } else {
      NotFired(fired, target, w);
    }
  }

  lemma {:induction false} InLog(log: seq<Fired>, target: nat, w: Waiting)
    requires FiredBefore(log, target) && Count(Waited(log), w) > 0
    ensures Firing(w, When(w.due, w.atOnce)) in log
  {
    if Waiting(log[0].due, log[0].event, log[0].atOnce) != w {
      assert Waited(log)[1..] == Waited(log[1..]);
      InLog(log[1..], target, w);
    }
  }

  /** Over any calls: the log grows by firings at their deadlines, each event asked for once. */
  lemma CallsFireOnce(t: Timers, c: VC.Clock, cuts: seq<nat>, react: Reaction, w: Waiting) returns (fired: seq<Fired>)
    requires Fits(false, c, c.now + Total(cuts)) && InTime(t.queue, c.now)
    ensures Calls(t, c, cuts, react).world.log == t.log + fired
    ensures EachOnce(t.queue, Calls(t, c, cuts, react).world.queue, fired, react, c.now + Total(cuts), w)
  {
    var target := c.now + Total(cuts);
    fired := FiredBetween(t, c.now, target, react);
    CutsNeutral(t, c, cuts, react);
    RunLogs(t, c.now, target, react);
    EachFiresOnce(t, c.now, target, react, w);
  }

  /** The event fired at its deadline when that was before the end, and otherwise still waits. */
  predicate FiresOrWaits(end: Timers, target: nat, w: Waiting) {
    if When(w.due, w.atOnce) < target then Firing(w, When(w.due, w.atOnce)) in end.log else w in end.queue
  }

  lemma OnceFires(before: Timers, end: Timers, fired: seq<Fired>, react: Reaction, target: nat, w: Waiting)
    requires end.log == before.log + fired && EachOnce(before.queue, end.queue, fired, react, target, w) && w in before.queue
    ensures FiresOrWaits(end, target, w)
  {
    CountIsMembership(before.queue, w);
    CountIsMembership(end.queue, w);
    if When(w.due, w.atOnce) < target {
      InLog(fired, target, w);
    }
  }

  predicate NotLost(t: Timers, c: VC.Clock, cuts: seq<nat>, react: Reaction, w: Waiting)
    requires Fits(false, c, c.now + Total(cuts))
  {
    FiresOrWaits(Calls(t, c, cuts, react).world, c.now + Total(cuts), w)
  }

  /** So no event that waits is lost. */
  lemma EachFires(t: Timers, c: VC.Clock, cuts: seq<nat>, react: Reaction, w: Waiting)
    requires Fits(false, c, c.now + Total(cuts)) && InTime(t.queue, c.now) && w in t.queue
    ensures NotLost(t, c, cuts, react, w)
  {
    var fired := CallsFireOnce(t, c, cuts, react, w);
    OnceFires(t, Calls(t, c, cuts, react).world, fired, react, c.now + Total(cuts), w);
  }

  // ---- a machine with a thread is not neutral to cuts --------------------

  /** A thread that sleeps until a timer due at 10 wakes it, then runs five instructions. */
  datatype Sleeper = Sleeper(armed: bool, awake: bool, ranAt: Option<nat>)

  function Sleeping(): Behaviour<Sleeper> {
    Behaviour(true,
              (s: Sleeper, now: nat) => if s.awake then (Sleeper(s.armed, false, Some(now)), 5) else (s, 0),
              (s: Sleeper, now: nat) =>
                if !s.armed then (s, None)
                else if now < 10 then (s, Some(10 - now))
                else (Sleeper(false, true, s.ranAt), None))
  }

  /** The passes of the two ways: the thread is woken at 10 and the pass jumps on at once. */
  lemma SleepingPasses(asleep: Sleeper, woken: Sleeper, c: VC.Clock, target: nat)
    requires asleep == Sleeper(true, false, None) && woken == Sleeper(false, true, None)
    requires c == VC.Start(0, 1_000_000) && target in {15, 20}
    ensures OnePass(Sleeping(), State(asleep, c), target).state == State(asleep, c.(now := 10))
    ensures OnePass(Sleeping(), State(asleep, c.(now := 10)), target).state == State(woken, c.(now := target))
  {
  }

  lemma WokenRuns(woken: Sleeper, c: VC.Clock)
    requires woken == Sleeper(false, true, None) && c == VC.Start(0, 1_000_000).(now := 15)
    ensures OnePass(Sleeping(), State(woken, c), 20).state.world.ranAt == Some(15)
    ensures OnePass(Sleeping(), State(woken, c), 20).state.clock.now == 20
  {
    assert VC.Spend(c, 5).now == 20;
  }

  lemma SleepingLoop(asleep: Sleeper, woken: Sleeper, c: VC.Clock, target: nat)
    requires asleep == Sleeper(true, false, None) && woken == Sleeper(false, true, None)
    requires c == VC.Start(0, 1_000_000) && target in {15, 20}
    ensures Fits(true, c, target) && Loop(Sleeping(), State(asleep, c), target).state == State(woken, c.(now := target))
  {
    SleepingPasses(asleep, woken, c, target);
    FirstPass(Sleeping(), State(asleep, c), target, State(asleep, c.(now := 10)));
    FirstPass(Sleeping(), State(asleep, c.(now := 10)), target, State(woken, c.(now := target)));
  }

  /** The timers fire after the emulator's loop, so a thread woken in an idle slice runs only
      after the next jump: asked for 20 microseconds at once it has not run, asked for 15
      and then 5 it ran at 15. */
  lemma CutsMatterWithThreads(s: State<Sleeper>)
    requires s == State(Sleeper(true, false, None), VC.Start(0, 1_000_000))
    ensures Loop(Sleeping(), s, 20).state.world.ranAt == None
    ensures Fits(true, Loop(Sleeping(), s, 15).state.clock, 20)
            && Loop(Sleeping(), Loop(Sleeping(), s, 15).state, 20).state.world.ranAt == Some(15)
    ensures !CutNeutral(Sleeping(), s, 15, 20)
  {
    var woken, at15 := Sleeper(false, true, None), s.clock.(now := 15);
    SleepingLoop(s.world, woken, s.clock, 15);
    SleepingLoop(s.world, woken, s.clock, 20);
    WokenRuns(woken, at15);
    FirstPass(Sleeping(), State(woken, at15), 20, OnePass(Sleeping(), State(woken, at15), 20).state);
  }
}

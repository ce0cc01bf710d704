/** A timer that sets itself again, on a machine with no device and among any other timers. */
module PeriodicTimer {
  import opened Division
  import VC = VirtualClock
  import opened StepLoop
  import opened EmptyMachine

  // ---- alone in the queue ------------------------------------------------

  type Delay = d: nat | d > 0 witness 1

  /** The timer check: each firing schedules the next one a period on. */
  function Periodic(period: Delay, event: nat): Reaction {
    (e: nat, now: nat) => [(period, event)]
  }

  /** The firings at `due`, a period later, and so on, `n` of them. */
  function Firings(event: nat, due: nat, period: nat, n: nat): (log: seq<Fired>)
    ensures |log| == n
    decreases n
  {
    if n == 0 then [] else [Fired(event, due, false, due)] + Firings(event, due + period, period, n - 1)
  }

  /** How many deadlines `due`, `due + period`, ... lie before the target. */
  function Before(due: nat, period: Delay, target: nat): nat
    decreases if due < target then target - due else 0
  {
    if due >= target then 0 else 1 + Before(due + period, period, target)
  }

  /** A pass over the one waiting timer. */
  lemma PeriodicPass(event: nat, period: Delay, now: nat, due: nat, log: seq<Fired>)
    requires now <= due
    ensures var t := Timers([Waiting(due, event, false)], log);
            Fire(t, now, Periodic(period, event))
            == if due == now then Timers([Waiting(due + period, event, false)], log + [Fired(event, due, false, due)]) else t
  {
    var react := Periodic(period, event);
    FireAlone(Waiting(due, event, false), log, now, react);
    assert react(event, now)[1..] == [];
    assert Later(react(event, now), now) == [Waiting(now + period, event, false)];
  }

  /** It moves to the deadline, or from the deadline to the next. */
  lemma PeriodicStep(event: nat, period: Delay, now: nat, due: nat, log: seq<Fired>, target: nat, next: nat,
                     fired: seq<Fired>, later: nat)
    requires now <= due && now < target && next == (if due == now then due + period else due)
    requires fired == (if due == now then log + [Fired(event, due, false, due)] else log)
    requires later == if next < target then next else target
    ensures Run(Timers([Waiting(due, event, false)], log), now, target, Periodic(period, event))
            == Run(Timers([Waiting(next, event, false)], fired), later, target, Periodic(period, event))
  {
    PeriodicPass(event, period, now, due, log);
    NextOfOne(now, next, target, event, later);
    FirstFiring(Timers([Waiting(due, event, false)], log), now, target, Periodic(period, event),
                Timers([Waiting(next, event, false)], fired));
  }

  lemma NextOfOne(now: nat, next: nat, target: nat, event: nat, later: nat)
    requires now < next && now < target && later == if next < target then next else target
    ensures now + Jump(Next([Waiting(next, event, false)], now), target - now) == later
  {
  }

  /** The run of one periodic timer: one firing for each deadline before the target. */
  lemma {:induction false} PeriodicRun(event: nat, period: Delay, now: nat, due: nat, log: seq<Fired>, target: nat)
    requires now <= due && now <= target
    ensures Run(Timers([Waiting(due, event, false)], log), now, target, Periodic(period, event)).log
            == log + Firings(event, due, period, Before(due, period, target))
    decreases target - now
  {
    if now < target {
      var next := if due == now then due + period else due;
      var fired := if due == now then log + [Fired(event, due, false, due)] else log;
      var later := if next < target then next else target;
      PeriodicStep(event, period, now, due, log, target, next, fired, later);
      PeriodicRun(event, period, later, next, fired, target);
      if due == now {
        MoreFirings(event, due, period, target, log);
      }
    }
  }

  lemma MoreFirings(event: nat, due: nat, period: Delay, target: nat, log: seq<Fired>)
    requires due < target
    ensures (log + [Fired(event, due, false, due)]) + Firings(event, due + period, period, Before(due + period, period, target))
            == log + Firings(event, due, period, Before(due, period, target))
  {
  }

  lemma {:induction false} BeforeCounts(due: nat, period: Delay, target: nat)
    ensures Before(due, period, target) == if due >= target then 0 else (target - 1 - due) / period + 1
    decreases if due < target then target - due else 0
  {
    if due < target {
      BeforeCounts(due + period, period, target);
      OnePeriodLess(target - 1 - due, period);
    }
  }

  lemma OnePeriodLess(left: nat, period: Delay)
    ensures left / period == if left < period then 0 else (left - period) / period + 1
  {
    if left < period {
      DivisionUnique(left, 0, left, period);
    } else {
      DivisionUnique(period, 1, 0, period);
      DivideTwice(period, left - period, period);
    }
  }

  // ---- among other timers ------------------------------------------------

  /** What concerns one event of a queue, a log, and what a firing sets. */
  function OnlyWaiting(queue: seq<Waiting>, event: nat): seq<Waiting> {
    if queue == [] then [] else (if queue[0].event == event then [queue[0]] else []) + OnlyWaiting(queue[1..], event)
  }

  function OnlyFired(log: seq<Fired>, event: nat): seq<Fired> {
    if log == [] then [] else (if log[0].event == event then [log[0]] else []) + OnlyFired(log[1..], event)
  }

  function OnlySet(scheduled: seq<(nat, nat)>, event: nat): seq<(nat, nat)> {
    if scheduled == [] then []
    else (if scheduled[0].1 == event then [scheduled[0]] else []) + OnlySet(scheduled[1..], event)
  }

  function Only(t: Timers, event: nat): Timers {
    Timers(OnlyWaiting(t.queue, event), OnlyFired(t.log, event))
  }

  /** The event sets itself again a period on, once, and no other event sets it. */
  ghost predicate SetsItself(react: Reaction, event: nat, period: Delay) {
    forall e, now: nat :: OnlySet(react(e, now), event) == if e == event then [(period, event)] else []
  }

  lemma {:induction false} OnlyWaitingAppend(a: seq<Waiting>, b: seq<Waiting>, event: nat)
    ensures OnlyWaiting(a + b, event) == OnlyWaiting(a, event) + OnlyWaiting(b, event)
  {
    if a == [] {
      assert a + b == b;
    } else {
      assert (a + b)[1..] == a[1..] + b;
      OnlyWaitingAppend(a[1..], b, event);
      var first := if a[0].event == event then [a[0]] else [];
      assert first + (OnlyWaiting(a[1..], event) + OnlyWaiting(b, event))
             == (first + OnlyWaiting(a[1..], event)) + OnlyWaiting(b, event);
    }
  }

  lemma {:induction false} OnlyFiredAppend(a: seq<Fired>, b: seq<Fired>, event: nat)
    ensures OnlyFired(a + b, event) == OnlyFired(a, event) + OnlyFired(b, event)
  {
    if a == [] {
      assert a + b == b;
    } else {
      assert (a + b)[1..] == a[1..] + b;
      OnlyFiredAppend(a[1..], b, event);
      var first := if a[0].event == event then [a[0]] else [];
      assert first + (OnlyFired(a[1..], event) + OnlyFired(b, event)) == (first + OnlyFired(a[1..], event)) + OnlyFired(b, event);
    }
  }

  lemma {:induction false} OnlyLater(scheduled: seq<(nat, nat)>, now: nat, event: nat)
    ensures OnlyWaiting(Later(scheduled, now), event) == Later(OnlySet(scheduled, event), now)
  {
    if scheduled != [] {
      OnlyLater(scheduled[1..], now, event);
      var first := Set(scheduled[0].0, scheduled[0].1, now);
      assert Later(scheduled, now)[1..] == Later(scheduled[1..], now);
      assert Later(scheduled, now)[0] == first;
      if scheduled[0].1 == event {
        assert OnlySet(scheduled, event)[1..] == OnlySet(scheduled[1..], event);
        assert OnlySet(scheduled, event)[0] == scheduled[0];
      } else {
        assert OnlySet(scheduled, event) == OnlySet(scheduled[1..], event);
      }
    }
  }

  lemma {:induction false} OnlyNotDue(queue: seq<Waiting>, now: nat, event: nat)
    ensures OnlyWaiting(NotDue(queue, now), event) == NotDue(OnlyWaiting(queue, event), now)
    decreases |queue|
  {
    if queue != [] {
      OnlyNotDue(queue[1..], now, event);
      FiredFirst(queue, now);
      if queue[0].due > now {
        assert NotDue(queue, now)[1..] == NotDue(queue[1..], now);
      }
      if queue[0].event == event {
        FiredFirst(OnlyWaiting(queue, event), now);
        assert OnlyWaiting(queue, event)[1..] == OnlyWaiting(queue[1..], event);
      } else {
        assert OnlyWaiting(queue, event) == OnlyWaiting(queue[1..], event);
      }
    }
  }

  lemma {:induction false} OnlyFiredNow(queue: seq<Waiting>, now: nat, event: nat)
    ensures OnlyFired(FiredNow(queue, now), event) == FiredNow(OnlyWaiting(queue, event), now)
    decreases |queue|
  {
    if queue != [] {
      OnlyFiredNow(queue[1..], now, event);
      FiredFirst(queue, now);
      if queue[0].due <= now {
        assert FiredNow(queue, now)[1..] == FiredNow(queue[1..], now);
      }
      if queue[0].event == event {
        FiredFirst(OnlyWaiting(queue, event), now);
        assert OnlyWaiting(queue, event)[1..] == OnlyWaiting(queue[1..], event);
      } else {
        assert OnlyWaiting(queue, event) == OnlyWaiting(queue[1..], event);
      }
    }
  }

  lemma ScheduledFirst(queue: seq<Waiting>, now: nat, react: Reaction)
    requires queue != []
    ensures queue[0].due <= now ==>
              Scheduled(queue, now, react) == Later(react(queue[0].event, now), now) + Scheduled(queue[1..], now, react)
    ensures queue[0].due > now ==> Scheduled(queue, now, react) == Scheduled(queue[1..], now, react)
  {
  }

  lemma {:induction false} OnlyScheduled(queue: seq<Waiting>, now: nat, react: Reaction, event: nat, period: Delay)
    requires SetsItself(react, event, period)
    ensures OnlyWaiting(Scheduled(queue, now, react), event)
            == Scheduled(OnlyWaiting(queue, event), now, Periodic(period, event))
    decreases |queue|
  {
    if queue != [] {
      var rest := queue[1..];
      OnlyScheduled(rest, now, react, event, period);
      ScheduledFirst(queue, now, react);
      if queue[0].due <= now {
        OnlyWaitingAppend(Later(react(queue[0].event, now), now), Scheduled(rest, now, react), event);
        OnlyLater(react(queue[0].event, now), now, event);
        assert OnlySet(react(queue[0].event, now), event) == if queue[0].event == event then [(period, event)] else [];
      }
      if queue[0].event == event {
        ScheduledFirst(OnlyWaiting(queue, event), now, Periodic(period, event));
        assert OnlyWaiting(queue, event)[1..] == OnlyWaiting(rest, event);
      } else {
        assert OnlyWaiting(queue, event) == OnlyWaiting(rest, event);
      }
    }
  }

  /** A firing of all timers is, for the one event, its firing alone. */
  lemma OnlyFire(t: Timers, now: nat, react: Reaction, event: nat, period: Delay)
    requires SetsItself(react, event, period)
    ensures Only(Fire(t, now, react), event) == Fire(Only(t, event), now, Periodic(period, event))
  {
    OnlyNotDue(t.queue, now, event);
    OnlyScheduled(t.queue, now, react, event, period);
    OnlyWaitingAppend(NotDue(t.queue, now), Scheduled(t.queue, now, react), event);
    OnlyFiredNow(t.queue, now, event);
    OnlyFiredAppend(t.log, FiredNow(t.queue, now), event);
  }

  lemma {:induction false} OnlyNoneBefore(queue: seq<Waiting>, event: nat, time: nat)
    requires NoneBefore(queue, time)
    ensures NoneBefore(OnlyWaiting(queue, event), time)
  {
    if queue != [] {
      OnlyNoneBefore(queue[1..], event, time);
      NoneBeforeAppend(if queue[0].event == event then [queue[0]] else [], OnlyWaiting(queue[1..], event), time);
    }
  }

  /** After a firing of the one event it waits for a later deadline: its period is not 0. */
  lemma PeriodicAfter(queue: seq<Waiting>, now: nat, period: Delay, event: nat)
    ensures NoneBefore(NotDue(queue, now) + Scheduled(queue, now, Periodic(period, event)), now + 1)
  {
    PeriodicPartsAfter(queue, now, period, event);
    NoneBeforeAppend(NotDue(queue, now), Scheduled(queue, now, Periodic(period, event)), now + 1);
  }

  lemma {:induction false} PeriodicPartsAfter(queue: seq<Waiting>, now: nat, period: Delay, event: nat)
    ensures NoneBefore(NotDue(queue, now), now + 1) && NoneBefore(Scheduled(queue, now, Periodic(period, event)), now + 1)
    decreases |queue|
  {
    if queue != [] {
      var rest := queue[1..];
      PeriodicPartsAfter(rest, now, period, event);
      var again: seq<Waiting> := [Waiting(now + period, event, false)];
      assert again[1..] == [];
      PeriodicLater(now, period, event);
      ScheduledFirst(queue, now, Periodic(period, event));
      FiredFirst(queue, now);
      NoneBeforeAppend(again, Scheduled(rest, now, Periodic(period, event)), now + 1);
    }
  }

  lemma PeriodicLater(now: nat, period: Delay, event: nat)
    ensures forall e: nat :: Later(Periodic(period, event)(e, now), now) == [Waiting(now + period, event, false)]
  {
    var once: seq<(nat, nat)> := [(period, event)];
    assert once[1..] == [];
    assert Later(once, now) == [Waiting(now + period, event, false)];
  }

  /** Up to the next pass of all timers nothing of the one event is due. */
  lemma OnlyNotPast(queue: seq<Waiting>, now: nat, target: nat, event: nat, next: nat)
    requires now < target && next == now + Jump(Next(queue, now), target - now)
    requires NoneBefore(OnlyWaiting(queue, event), now + 1)
    ensures NoneBefore(OnlyWaiting(queue, event), next)
  {
    if next > now + 1 {
      if queue != [] {
        EarliestBounds(queue, next);
      }
      OnlyNoneBefore(queue, event, next);
    }
  }

  /** Up to the next pass of all timers, the one event alone does what it does in this pass. */
  lemma OnlyUntil(t: Timers, now: nat, next: nat, react: Reaction)
    requires now < next && NoneBefore(Fire(t, now, react).queue, next)
    ensures Run(t, now, next, react) == Fire(t, now, react)
  {
    var fired := Fire(t, now, react);
    FirstFiring(t, now, next, react, fired);
    if fired.queue != [] {
      EarliestBounds(fired.queue, next);
    }
  }

  predicate OnlyRuns(t: Timers, now: nat, target: nat, react: Reaction, event: nat, period: Delay) {
    Only(Run(t, now, target, react), event) == Run(Only(t, event), now, target, Periodic(period, event))
  }

  predicate OnlyComesTo(t: Timers, now: nat, next: nat, event: nat, period: Delay, fired: Timers) {
    Run(Only(t, event), now, next, Periodic(period, event)) == Only(fired, event)
  }

  lemma OnlyThisPass(t: Timers, now: nat, target: nat, react: Reaction, event: nat, period: Delay, fired: Timers, next: nat)
    requires now < target && fired == Fire(t, now, react) && SetsItself(react, event, period)
    requires next == now + Jump(Next(fired.queue, now), target - now)
    ensures OnlyComesTo(t, now, next, event, period, fired)
  {
    OnlyFire(t, now, react, event, period);
    PeriodicAfter(Only(t, event).queue, now, period, event);
    OnlyNotPast(fired.queue, now, target, event, next);
    OnlyUntil(Only(t, event), now, next, Periodic(period, event));
  }

  lemma OnlyOnePass(t: Timers, c: VC.Clock, target: nat, react: Reaction, event: nat, period: Delay, fired: Timers, next: nat)
    requires Fits(false, c, target) && c.now < target && fired == Fire(t, c.now, react) && SetsItself(react, event, period)
    requires next == c.now + Jump(Next(fired.queue, c.now), target - c.now) && OnlyRuns(fired, next, target, react, event, period)
    ensures OnlyRuns(t, c.now, target, react, event, period)
  {
    OnlyThisPass(t, c.now, target, react, event, period, fired, next);
    RunCut(Only(t, event), c, next, target, Periodic(period, event));
    OnlyJoined(t, c.now, target, react, event, period, fired, next);
  }

  lemma OnlyJoined(t: Timers, now: nat, target: nat, react: Reaction, event: nat, period: Delay, fired: Timers, next: nat)
    requires now < target && fired == Fire(t, now, react) && next == now + Jump(Next(fired.queue, now), target - now)
    requires OnlyComesTo(t, now, next, event, period, fired)
    requires RunMeets(Only(t, event), now, next, target, Periodic(period, event)) && OnlyRuns(fired, next, target, react, event, period)
    ensures OnlyRuns(t, now, target, react, event, period)
  {
    FirstFiring(t, now, target, react, fired);
  }

  /** What the one event does among all timers is what it does alone. */
  lemma {:induction false} OnlyRun(t: Timers, c: VC.Clock, target: nat, react: Reaction, event: nat, period: Delay)
    requires Fits(false, c, target) && c.now <= target && SetsItself(react, event, period)
    ensures OnlyRuns(t, c.now, target, react, event, period)
    decreases target - c.now
  {
    if c.now < target {
      var fired := Fire(t, c.now, react);
      var next := c.now + Jump(Next(fired.queue, c.now), target - c.now);
      OnlyRun(fired, c.(now := next), target, react, event, period);
      OnlyOnePass(t, c, target, react, event, period, fired, next);
    }
  }

  // ---- the count ---------------------------------------------------------

  /** Over the calls the event fires `n` times, each at its deadline, whatever else fires. */
  predicate HasFired(t: Timers, react: Reaction, event: nat, period: Delay, c: VC.Clock, cuts: seq<nat>, n: nat)
    requires Fits(false, c, c.now + Total(cuts))
  {
    OnlyFired(Calls(t, c, cuts, react).world.log, event)
    == OnlyFired(t.log, event) + Firings(event, c.now + period, period, n)
  }

  predicate RunFires(t: Timers, react: Reaction, event: nat, period: Delay, now: nat, end: nat, n: nat) {
    OnlyFired(Run(t, now, end, react).log, event) == OnlyFired(t.log, event) + Firings(event, now + period, period, n)
  }

  lemma CallsFired(t: Timers, react: Reaction, event: nat, period: Delay, c: VC.Clock, cuts: seq<nat>, n: nat)
    requires Fits(false, c, c.now + Total(cuts)) && AsOneRun(t, c, cuts, react)
    requires RunFires(t, react, event, period, c.now, c.now + Total(cuts), n)
    ensures HasFired(t, react, event, period, c, cuts, n)
  {
  }

  lemma CountedRun(t: Timers, react: Reaction, event: nat, period: Delay, c: VC.Clock, end: nat, n: nat)
    requires SetsItself(react, event, period) && OnlyWaiting(t.queue, event) == [Waiting(c.now + period, event, false)]
    requires c.now < end && Fits(false, c, end) && n == Before(c.now + period, period, end)
    ensures RunFires(t, react, event, period, c.now, end, n)
  {
    OnlyRun(t, c, end, react, event, period);
    PeriodicRun(event, period, c.now, c.now + period, OnlyFired(t.log, event), end);
  }

  lemma PeriodsIn(now: nat, total: nat, period: Delay, n: nat)
    requires total > 0 && n == (total - 1) / period
    ensures n == Before(now + period, period, now + total)
  {
    BeforeCounts(now + period, period, now + total);
    OnePeriodLess(total - 1, period);
  }

  /** A timer of period `p` set now among any others has fired (T - 1) / p times after T
      microseconds, each time exactly at its deadline, however T is cut into calls. */
  lemma PeriodicCount(t: Timers, react: Reaction, event: nat, period: Delay, c: VC.Clock, cuts: seq<nat>)
    requires SetsItself(react, event, period) && OnlyWaiting(t.queue, event) == [Waiting(c.now + period, event, false)]
    requires Total(cuts) > 0 && Fits(false, c, c.now + Total(cuts))
    ensures HasFired(t, react, event, period, c, cuts, (Total(cuts) - 1) / period)
  {
    var n := (Total(cuts) - 1) / period;
    PeriodsIn(c.now, Total(cuts), period, n);
    CountedCalls(t, react, event, period, c, cuts, n);
  }

  lemma CountedCalls(t: Timers, react: Reaction, event: nat, period: Delay, c: VC.Clock, cuts: seq<nat>, n: nat)
    requires SetsItself(react, event, period) && OnlyWaiting(t.queue, event) == [Waiting(c.now + period, event, false)]
    requires Total(cuts) > 0 && Fits(false, c, c.now + Total(cuts)) && n == Before(c.now + period, period, c.now + Total(cuts))
    ensures HasFired(t, react, event, period, c, cuts, n)
  {
    CutsNeutral(t, c, cuts, react);
    CountedRun(t, react, event, period, c, c.now + Total(cuts), n);
    CallsFired(t, react, event, period, c, cuts, n);
  }

  /** A timer check, and whatever the other events set as long as it is not the check. */
  lemma AloneSetsItself(event: nat, period: Delay)
    ensures SetsItself((e: nat, now: nat) => if e == event then [(period, event)] else [], event, period)
  {
    var once: seq<(nat, nat)> := [(period, event)];
    assert once[1..] == [];
    assert OnlySet(once, event) == [once[0]] + OnlySet(once[1..], event);
  }

  /** Every millisecond over sixty frames of a sixtieth of a second: 999 firings. */
  lemma DocumentedCount(t: Timers, react: Reaction, event: nat, c: VC.Clock, cuts: seq<nat>)
    requires SetsItself(react, event, 1000) && OnlyWaiting(t.queue, event) == [Waiting(c.now + 1000, event, false)]
    requires Total(cuts) == 60 * (1_000_000 / 60) && Fits(false, c, c.now + Total(cuts)) && t.log == []
    ensures |OnlyFired(Calls(t, c, cuts, react).world.log, event)| == 999
  {
    PeriodicCount(t, react, event, 1000, c, cuts);
  }
}

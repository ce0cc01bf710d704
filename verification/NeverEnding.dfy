/** When the step loop need not end: a machine that chooses its reports so that the owed sum
    wraps whenever a microsecond would be due can hold the clock for ever, exactly when
    the clock is not bound to come to its target. */
module NeverEnding {
  import opened Options
  import opened Division
  import opened Words
  import VC = VirtualClock
  import opened Endings
  import opened StepLoop

  /** After `k` passes the target is still ahead. */
  predicate StillGoing<T>(b: Behaviour<T>, s: State<T>, target: nat, k: nat)
    decreases k
  {
    && s.clock.Sound() && s.clock.now < target
    && (k == 0 || StillGoing(b, OnePass(b, s, target).state, target, k - 1))
  }

  ghost predicate NeverEnds<T>(b: Behaviour<T>, s: State<T>, target: nat) {
    forall k: nat :: StillGoing(b, s, target, k)
  }

  // ---- every machine ends ------------------------------------------------

  /** A loop bound to end has ended after as many passes as it has events. */
  lemma {:induction false} DoneAfterEvents<T>(b: Behaviour<T>, s: State<T>, target: nat)
    requires Fits(b.runnable, s.clock, target)
    ensures !StillGoing(b, s, target, |Loop(b, s, target).events|)
    decreases Left(s.clock, target), Wraps(s.clock), s.clock.rate - s.clock.remainder
  {
    if s.clock.now < target {
      var next := OnePass(b, s, target).state;
      FirstPass(b, s, target, next);
      DoneAfterEvents(b, next, target);
    }
  }

  lemma NoneEndless<T>(b: Behaviour<T>, s: State<T>, target: nat)
    requires Fits(b.runnable, s.clock, target)
    ensures !NeverEnds(b, s, target)
  {
    DoneAfterEvents(b, s, target);
  }

  // ---- a machine that does not -------------------------------------------

  /** The longest report where it wraps and time can be lost for ever, else one instruction. */
  function StubbornReport(c: VC.Clock): Report {
    if !Stops(c.remainder, c.rate) && c.remainder + VC.FULL >= TWO_64 then TWO_32 - 1 else 1
  }

  /** A machine that keeps its own copy of the clock and reports what holds it back. */
  function Stubborn(): Behaviour<VC.Clock> {
    Behaviour(true,
              (c: VC.Clock, now: nat) =>
                if c.Sound() then (VC.Spend(c, StubbornReport(c)), StubbornReport(c)) else (c, 0),
              (c: VC.Clock, now: nat) => (c, None))
  }

  lemma StubbornPass(c: VC.Clock, target: nat)
    requires c.Sound() && c.now < target
    ensures var d := VC.Spend(c, StubbornReport(c)); OnePass(Stubborn(), State(c, c), target).state == State(d, d)
  {
  }

  /** A remainder that one instruction takes over the rate is at the brink or above. */
  lemma AtTheBrink(remainder: nat, rate: nat)
    requires remainder + MILLION >= rate
    ensures remainder >= Brink(remainder, rate)
  {
    BrinkShares(remainder, rate);
  }

  /** Of a rate close to the wrap a sum buys at most one microsecond. */
  lemma OneAtMost(bought: nat, left: nat, rate: nat, owed: nat)
    requires Price(bought, rate) + left == owed < 2 * rate && left < rate
    ensures if owed < rate then bought == 0 && left == owed else bought == 1 && left == owed - rate
  {
    if bought >= 2 {
      ProductMonotone(2, bought, rate);
    }
    if bought == 0 {
      assert Price(bought, rate) == 0;
    } else if bought == 1 {
      assert Price(bought, rate) == rate;
    }
  }

  /** While it does not stop here, the machine buys nothing and keeps the share. */
  lemma HeldBack(c: VC.Clock, d: VC.Clock, target: nat)
    requires c.Sound() && c.now < target && target + ROOM <= TWO_64 && !Stops(c.remainder, c.rate)
    requires d == VC.Spend(c, StubbornReport(c))
    ensures d.now == c.now && d.rate == c.rate && !Stops(d.remainder, d.rate)
  {
    var n := StubbornReport(c);
    SpendPays(c, n, target);
    if n == 1 {
      if c.remainder + MILLION >= c.rate {
        AtTheBrink(c.remainder, c.rate);
      }
      OneAtMost(d.now - c.now, d.remainder, c.rate, VC.Owed(c.remainder, 1));
      SameBrink(c.remainder, d.remainder, c.rate, LAPS);
    } else {
      SameBrink(c.remainder, d.remainder, c.rate, (TWO_32 - 1) * LAPS - TWO_64 / SHARED);
    }
  }

  /** While it stops here but not some microseconds on, the machine makes for that time. */
  lemma GoesOn(c: VC.Clock, d: VC.Clock, target: nat, us: nat) returns (more: nat)
    requires c.Sound() && c.now < target && target + ROOM <= TWO_64 && Stops(c.remainder, c.rate)
    requires !StopsAfter(c.remainder, c.rate, us) && d == VC.Spend(c, StubbornReport(c))
    ensures d.rate == c.rate && d.now + more == c.now + us && !StopsAfter(d.remainder, d.rate, more)
  {
    SpendPays(c, 1, target);
    OneAtMost(d.now - c.now, d.remainder, c.rate, VC.Owed(c.remainder, 1));
    assert StopsAfter(c.remainder, c.rate, 0);
    more := us - (d.now - c.now);
    StopsShifted(c.remainder, d.remainder, c.rate, more, d.now - c.now, LAPS);
  }

  lemma StubbornStays(c: VC.Clock, target: nat)
    requires c.Sound() && target + ROOM <= TWO_64 && !Ends(c, target)
    ensures c.now < target && !Ends(VC.Spend(c, StubbornReport(c)), target)
  {
    var us: nat :| c.now + us < target && !StopsAfter(c.remainder, c.rate, us);
    var d := VC.Spend(c, StubbornReport(c));
    if Stops(c.remainder, c.rate) {
      var more := GoesOn(c, d, target, us);
      assert !StopsAfter(d.remainder, d.rate, more);
    } else {
      HeldBack(c, d, target);
      assert !StopsAfter(d.remainder, d.rate, 0);
    }
  }

  lemma {:induction false} StubbornGoesOn(c: VC.Clock, target: nat, k: nat)
    requires c.Sound() && target + ROOM <= TWO_64 && !Ends(c, target)
    ensures StillGoing(Stubborn(), State(c, c), target, k)
    decreases k
  {
    StubbornStays(c, target);
    if k > 0 {
      StubbornPass(c, target);
      StubbornGoesOn(VC.Spend(c, StubbornReport(c)), target, k - 1);
    }
  }

  /** From any clock, and for any target that leaves room for a report: every machine's loop ends
      exactly when the stubborn one's does, which is exactly when the clock is bound to. */
  lemma EndsExactly(c: VC.Clock, target: nat)
    requires c.Sound() && target + ROOM <= TWO_64
    ensures NeverEnds(Stubborn(), State(c, c), target) <==> !Ends(c, target)
  {
    if Ends(c, target) {
      NoneEndless(Stubborn(), State(c, c), target);
    } else {
      forall k: nat
        ensures StillGoing(Stubborn(), State(c, c), target, k)
      {
        StubbornGoesOn(c, target, k);
      }
    }
  }

  // ---- from the start ----------------------------------------------------

  /** Some microseconds on, the remainder's share is the highest the rate allows. */
  lemma HighestShare(rate: nat) returns (us: nat)
    requires 0 < rate
    ensures us < 64 && Brink(0 - us * rate, rate) == rate - MILLION + SHARED - Gcd(rate, 64)
  {
    var x, y := Bezout(rate, 64);
    var g := Gcd(rate, 64);
    GcdDivides(rate, 64);
    var m := x % 64;
    us := if m == 0 then 63 else m - 1;
    var laps := (us + 1 - x) / 64;
    assert us + 1 == x + laps * 64;
    ShareOf(rate, us, x, y, g, laps);
    Divided(64, g);
    MultipleFar(64 / g, g);
  }

  lemma ShareOf(rate: nat, us: nat, x: int, y: int, g: nat, laps: int)
    requires x * rate + y * 64 == g && us + 1 == x + laps * 64 && 0 < g <= 64
    ensures (0 - us * rate - rate) % 64 == 64 - g
  {
    SumTimes(us, 1, rate);
    SumTimes(x, laps * 64, rate);
    assert (laps * 64) * rate == (laps * rate) * 64;
    assert 0 - us * rate - rate == 64 - g + (y - laps * rate - 1) * 64;
  }

  /** Over the bound by as much as the highest share wants. */
  lemma OverTheBound(rate: nat, g: nat)
    requires 0 < g <= 64 && rate % g == 0 && 64 % g == 0 && rate + VC.FULL > TWO_64 + MILLION - SHARED
    ensures rate + VC.FULL >= TWO_64 + MILLION - SHARED + g
  {
    Divided(rate, g);
    Divided(64, g);
    var p, q := rate / g, 64 / g;
    var bound := TWO_64 + MILLION - SHARED - VC.FULL;
    var r := bound / 64;
    assert bound == r * 64;
    assert r * (q * g) == (r * q) * g;
    DifferenceTimes(p, r * q, g);
    MultipleFar(p - r * q, g);
  }

  /** A clock from its start is bound to end on the way to every target exactly up to this rate. */
  lemma StartEndsExactly(epoch: nat, rate: nat)
    requires 0 < rate < TWO_64 && epoch + 64 + ROOM <= TWO_64
    ensures rate + VC.FULL <= TWO_64 + MILLION - SHARED
            <==> forall target: nat {:trigger Ends(VC.Start(epoch, rate), target)} | target + ROOM <= TWO_64 ::
                   Ends(VC.Start(epoch, rate), target)
  {
    if rate + VC.FULL <= TWO_64 + MILLION - SHARED {
      forall target: nat | target + ROOM <= TWO_64
        ensures Ends(VC.Start(epoch, rate), target)
      {
        LowRateEnds(VC.Start(epoch, rate), target);
      }
    } else {
      var us := HighestShare(rate);
      GcdDivides(rate, 64);
      OverTheBound(rate, Gcd(rate, 64));
      assert !StopsAfter(0, rate, us);
      assert !Ends(VC.Start(epoch, rate), epoch + 64);
    }
  }

  /** At the highest rate it takes no cunning: full reports, one on each pass, never move the clock. */
  lemma {:induction false} FullReportsStandStill(c: VC.Clock, k: nat)
    requires c.Sound() && c.rate == TWO_64 - 1 && c.remainder % 2 == 0
    ensures VC.Run(c, VC.Copies(VC.Ran(TWO_32 - 1), k)).now == c.now
    decreases k
  {
    if k > 0 {
      FullReportStandsStill(c);
      FullReportsStandStill(VC.Spend(c, TWO_32 - 1), k - 1);
      assert VC.Copies(VC.Ran(TWO_32 - 1), k)[1..] == VC.Copies(VC.Ran(TWO_32 - 1), k - 1);
    }
  }

  lemma FullReportStandsStill(c: VC.Clock)
    requires c.Sound() && c.rate == TWO_64 - 1 && c.remainder % 2 == 0
    ensures var d := VC.Spend(c, TWO_32 - 1); d.now == c.now && d.rate == c.rate && d.remainder % 2 == 0
  {
    var owed := VC.Owed(c.remainder, TWO_32 - 1);
    DivisionUnique(c.now, 0, c.now, TWO_64);
    if owed < TWO_64 {
      DivisionUnique(owed, 0, owed, TWO_64);
      DivisionUnique(owed, 0, owed, TWO_64 - 1);
    } else {
      WrappedReport(c.remainder, c.rate, TWO_32 - 1);
    }
  }
}

/** Whether the clock must come to its target however the instructions are reported: the
    arithmetic of remainders when the owed sum may wrap at 64 bits. A wrap loses time, so
    reports chosen to wrap can hold the clock still; they can for ever unless the
    remainder comes to a place from which no report reaches the wrap. */
module Endings {
  import opened Division
  import opened Words
  import VC = VirtualClock

  const MILLION: int := 1_000_000

  /** What 2^64 and a million share; a wrap and a report leave the remainder modulo it. */
  const SHARED: int := 64

  /** A million over what is shared, and the inverse of 2^64 over it modulo that. */
  const LAPS: int := 15625
  const INVERSE: int := 11479

  /** The least remainder, among those a run of reports can reach without a microsecond,
      from which the smallest report would buy one. */
  function Brink(remainder: int, rate: nat): int {
    rate - MILLION + (remainder - rate) % SHARED
  }

  /** From there not even the longest report wraps. */
  predicate Stops(remainder: int, rate: nat) {
    Brink(remainder, rate) + VC.FULL < TWO_64
  }

  /** It stops once `us` more microseconds were bought. */
  predicate StopsAfter(remainder: nat, rate: nat, us: nat) {
    Stops(remainder - us * rate, rate)
  }

  /** It stops at every time on the way to the target. */
  ghost predicate Ends(c: VC.Clock, target: nat) {
    forall us: nat {:trigger StopsAfter(c.remainder, c.rate, us)} | c.now + us < target :: StopsAfter(c.remainder, c.rate, us)
  }

  // ---- remainders modulo what is shared ----------------------------------

  lemma SameShare(a: int, b: int, k: int)
    requires a == b + k * SHARED
    ensures a % SHARED == b % SHARED
  {
  }

  lemma SameBrink(remainder: int, left: int, rate: nat, k: int)
    requires left == remainder + k * SHARED
    ensures Brink(left, rate) == Brink(remainder, rate)
  {
    SameShare(left - rate, remainder - rate, k);
  }

  /** A report that buys `bought` microseconds, wrapped or not, leaves what stops later where it was. */
  lemma StopsShifted(remainder: nat, left: nat, rate: nat, us: nat, bought: nat, k: int)
    requires left == remainder - bought * rate + k * SHARED
    ensures StopsAfter(left, rate, us) <==> StopsAfter(remainder, rate, bought + us)
  {
    SumTimes(bought, us, rate);
    SameBrink(remainder - (bought + us) * rate, left - us * rate, rate, k);
  }

  // ---- how many wraps are left -------------------------------------------

  /** The wraps still to come before the remainder stands, modulo a million, at the brink. */
  function WrapsLeft(remainder: int, rate: nat): nat {
    (remainder - Brink(remainder, rate)) / SHARED * INVERSE % LAPS
  }

  lemma BrinkShares(remainder: int, rate: nat)
    ensures (remainder - Brink(remainder, rate)) % SHARED == 0
    ensures remainder - Brink(remainder, rate) == (remainder - Brink(remainder, rate)) / SHARED * SHARED
  {
    var d := remainder - rate;
    assert remainder - Brink(remainder, rate) == d - d % SHARED + MILLION;
    assert d - d % SHARED == d / SHARED * SHARED;
    assert MILLION == LAPS * SHARED;
  }

  /** A plain report leaves them as they are. */
  lemma ReportKeepsWraps(remainder: int, left: int, rate: nat, n: nat)
    requires left == remainder + n * MILLION
    ensures WrapsLeft(left, rate) == WrapsLeft(remainder, rate) && Brink(left, rate) == Brink(remainder, rate)
  {
    SameBrink(remainder, left, rate, n * LAPS);
    BrinkShares(remainder, rate);
    BrinkShares(left, rate);
    var a := (remainder - Brink(remainder, rate)) / SHARED;
    assert (left - Brink(left, rate)) / SHARED == a + n * LAPS;
    SameLap(a * INVERSE, (a + n * LAPS) * INVERSE, n * INVERSE);
  }

  lemma SameLap(a: int, b: int, k: int)
    requires b == a + k * LAPS
    ensures a % LAPS == b % LAPS
  {
  }

  /** A wrapped report takes one of them off. */
  lemma WrapTakesOne(remainder: int, left: int, rate: nat, n: nat)
    requires left == remainder + n * MILLION - TWO_64 && WrapsLeft(remainder, rate) > 0
    ensures WrapsLeft(left, rate) == WrapsLeft(remainder, rate) - 1 && Brink(left, rate) == Brink(remainder, rate)
  {
    var share := TWO_64 / SHARED;
    SameBrink(remainder, left, rate, n * LAPS - share);
    BrinkShares(remainder, rate);
    BrinkShares(left, rate);
    var a := (remainder - Brink(remainder, rate)) / SHARED;
    assert (left - Brink(left, rate)) / SHARED == a + n * LAPS - share;
    assert share * INVERSE == 1 + 211750175222111943 * LAPS;
    SameLap(a * INVERSE - 1, (a + n * LAPS - share) * INVERSE, n * INVERSE - 211750175222111943);
    OneLess(a * INVERSE);
  }

  lemma OneLess(a: int)
    requires a % LAPS > 0
    ensures (a - 1) % LAPS == a % LAPS - 1
  {
  }

  /** With none left the remainder is at the brink or a million and more below it. */
  lemma NoneLeft(remainder: nat, rate: nat)
    requires remainder < rate && WrapsLeft(remainder, rate) == 0
    ensures remainder <= Brink(remainder, rate)
  {
    BrinkShares(remainder, rate);
    var a := (remainder - Brink(remainder, rate)) / SHARED;
    var s := a * INVERSE / LAPS;
    assert a * INVERSE == s * LAPS;
    assert a == (s * 8619 - a * 6332) * LAPS;
    assert remainder - Brink(remainder, rate) == (s * 8619 - a * 6332) * MILLION;
  }

  // ---- one report --------------------------------------------------------

  /** A report that the sum's width cannot hold buys nothing, and lowers the remainder. */
  lemma WrappedReport(remainder: nat, rate: nat, n: nat)
    requires remainder < rate < TWO_64 && n < TWO_32 && VC.Owed(remainder, n) >= TWO_64
    ensures var owed := VC.Owed(remainder, n) % TWO_64;
            && owed == remainder + n * MILLION - TWO_64 < remainder
            && owed / rate == 0 && owed % rate == owed
  {
    var owed := VC.Owed(remainder, n);
    DivisionUnique(owed, 1, owed - TWO_64, TWO_64);
    DivisionUnique(owed - TWO_64, 0, owed - TWO_64, rate);
  }

  /** Where it stops, only a report with wraps left before it can wrap, and it takes one off. */
  lemma WrapsFall(remainder: nat, rate: nat, n: nat)
    requires remainder < rate < TWO_64 && n < TWO_32 && VC.Owed(remainder, n) >= TWO_64 && Stops(remainder, rate)
    ensures WrapsLeft(remainder, rate) > 0
    ensures WrapsLeft(remainder + n * MILLION - TWO_64, rate) == WrapsLeft(remainder, rate) - 1
  {
    if WrapsLeft(remainder, rate) == 0 {
      NoneLeft(remainder, rate);
    } else {
      WrapTakesOne(remainder, remainder + n * MILLION - TWO_64, rate, n);
    }
  }

  // ---- every sum that fits, and every rate that is low enough ------------

  /** A clock that goes on from another, some microseconds bought and the share kept, ends too. */
  lemma EndsKept(c: VC.Clock, d: VC.Clock, target: nat, bought: nat, k: int)
    requires Ends(c, target) && d.rate == c.rate && d.now == c.now + bought
    requires d.remainder == c.remainder - bought * c.rate + k * SHARED
    ensures Ends(d, target)
  {
    forall us: nat | d.now + us < target
      ensures StopsAfter(d.remainder, d.rate, us)
    {
      StopsShifted(c.remainder, d.remainder, c.rate, us, bought, k);
      assert StopsAfter(c.remainder, c.rate, bought + us);
    }
  }

  /** Below the bound the clock ends from anywhere. */
  lemma LowRateEnds(c: VC.Clock, target: nat)
    requires c.rate + VC.FULL <= TWO_64 + MILLION - SHARED
    ensures Ends(c, target)
  {
  }

  /** So does a clock whose sums never wrap. */
  lemma RoomyEnds(c: VC.Clock, target: nat)
    requires c.Sound() && VC.Roomy(c)
    ensures Ends(c, target)
  {
    var g := VC.Grain(c.rate);
    Divided(1_000_000, g);
    if g == 1_000_000 {
      forall us: nat
        ensures StopsAfter(c.remainder, c.rate, us)
      {
        Divided(c.rate, g);
        MillionsShare(c.remainder, c.rate / g, us, c.rate);
      }
    } else {
      HalfAMillion(g, 1_000_000 / g);
    }
  }

  lemma HalfAMillion(g: nat, q: nat)
    requires 0 < g != 1_000_000 && 1_000_000 == q * g
    ensures g <= 500_000
  {
    if q >= 2 {
      ProductMonotone(2, q, g);
    }
  }

  lemma MillionsShare(remainder: nat, p: nat, us: nat, rate: nat)
    requires rate == p * 1_000_000
    ensures (remainder - us * rate - rate) % SHARED <= remainder % 1_000_000
  {
    SumTimes(us, 1, rate);
    var k := (us + 1) * p;
    assert (us + 1) * rate == k * 1_000_000;
    SameShare(remainder - us * rate - rate, remainder, -k * LAPS);
    assert remainder % SHARED == remainder % 1_000_000 % SHARED by {
      SameShare(remainder, remainder % 1_000_000, remainder / 1_000_000 * LAPS);
    }
  }
}

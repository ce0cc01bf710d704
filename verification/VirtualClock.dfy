/** The machine's clock: time bought with instructions at a declared rate, and idle time
    bought outright. Counts are 64 bits wide and wrap. */
module VirtualClock {
  import opened Division
  import opened Words

  /** What the longest report is owed for. */
  const FULL: nat := (TWO_32 - 1) * 1_000_000

  datatype Clock = Clock(epoch: nat, now: nat, rate: nat, remainder: nat, instructions: nat) {
    predicate Sound() {
      0 < rate < TWO_64 && remainder < rate && epoch < TWO_64 && now < TWO_64 && instructions < TWO_64
    }
  }

  function Start(epoch: nat, rate: nat): Clock {
    Clock(epoch, epoch, if rate == 0 then 1 else rate, 0, 0)
  }

  function Advance(c: Clock, us: nat): Clock {
    c.(now := (c.now + us) % TWO_64)
  }

  /** Instructions are owed for in millionths of the rate, with what was left over before. */
  function Owed(remainder: nat, n: nat): nat {
    remainder + n * 1_000_000
  }

  function Spend(c: Clock, n: nat): Clock
    requires c.Sound()
  {
    var owed := Owed(c.remainder, n) % TWO_64;
    c.(now := (c.now + owed / c.rate) % TWO_64, remainder := owed % c.rate, instructions := (c.instructions + n) % TWO_64)
  }

  lemma SpendSound(c: Clock, n: nat, owed: nat, bought: nat, left: nat, d: Clock)
    requires c.Sound() && owed == Owed(c.remainder, n) % TWO_64 && bought == owed / c.rate && left == owed % c.rate
    requires d == Clock(c.epoch, (c.now + bought) % TWO_64, c.rate, left, (c.instructions + n) % TWO_64)
    ensures Spend(c, n) == d && d.Sound()
  {
    Divided(owed, c.rate);
    PaidSound(c, n, bought, left, d);
  }

  lemma PaidSound(c: Clock, n: nat, bought: nat, left: nat, d: Clock)
    requires c.Sound() && left < c.rate
    requires d == Clock(c.epoch, (c.now + bought) % TWO_64, c.rate, left, (c.instructions + n) % TWO_64)
    ensures d.Sound()
  {
  }

  class VirtualClock {
    const epoch: nat
    const rate: nat
    var now: nat
    var remainder: nat
    var instructions: nat

    function State(): Clock
      reads this
    {
      Clock(epoch, now, rate, remainder, instructions)
    }

    constructor (epoch: nat, rate: nat)
      requires epoch < TWO_64 && rate < TWO_64
      ensures State() == Start(epoch, rate) && State().Sound()
    {
      this.epoch, now, remainder, instructions := epoch, epoch, 0, 0;
      this.rate := if rate != 0 then rate else 1;
    }

    method AdvanceUs(us: nat)
      requires State().Sound()
      modifies this
      ensures State() == Advance(old(State()), us) && State().Sound()
    {
      now := (now + us) % TWO_64;
    }

    method SpendInstructions(n: nat)
      requires State().Sound() && n < TWO_32
      modifies this
      ensures State() == Spend(old(State()), n) && State().Sound()
    {
      var owed := (remainder + n * 1_000_000) % TWO_64;
      Divided(owed, rate);
      var bought, left: nat := owed / rate, owed % rate;
      ghost var before := State();
      instructions := (instructions + n) % TWO_64;
      now := (now + bought) % TWO_64;
      remainder := left;
      SpendSound(before, n, owed, bought, left, State());
    }

    method ElapsedUs() returns (us: nat)
      requires State().Sound()
      ensures us < TWO_64 && (us + epoch) % TWO_64 == now
    {
      us := (now - epoch) % TWO_64;
    }
  }

  // ---- what any run of calls amounts to ----------------------------------

  datatype Event = Ran(instructions: nat) | Idled(us: nat)

  function Apply(c: Clock, e: Event): Clock
    requires c.Sound()
  {
    match e
    case Ran(n) => Spend(c, n)
    case Idled(us) => Advance(c, us)
  }

  predicate Reports(es: seq<Event>) {
    forall i | 0 <= i < |es| && es[i].Ran? :: es[i].instructions < TWO_32
  }

  function Run(c: Clock, es: seq<Event>): (r: Clock)
    requires c.Sound()
    ensures r.Sound()
    decreases |es|
  {
    if es == [] then c else Run(Apply(c, es[0]), es[1..])
  }

  function TotalInstructions(es: seq<Event>): nat {
    if es == [] then 0 else (if es[0].Ran? then es[0].instructions else 0) + TotalInstructions(es[1..])
  }

  function TotalIdle(es: seq<Event>): nat {
    if es == [] then 0 else (if es[0].Idled? then es[0].us else 0) + TotalIdle(es[1..])
  }

  /** No sum of the run leaves 64 bits. */
  predicate RunFits(c: Clock, es: seq<Event>)
    requires c.Sound()
    decreases |es|
  {
    es == [] || ((es[0].Ran? ==> Owed(c.remainder, es[0].instructions) < TWO_64) && RunFits(Apply(c, es[0]), es[1..]))
  }

  lemma WrapTwice(a: nat, b: nat)
    ensures (a % TWO_64 + b) % TWO_64 == (a + b) % TWO_64
  {
    DivideTwice(a, b, TWO_64);
  }

  /** The clock after so many instructions and so much idling, as if each came in one call. */
  function After(c: Clock, instructions: nat, idle: nat): Clock
    requires c.Sound()
  {
    var bought := Owed(c.remainder, instructions);
    Clock(c.epoch, (c.now + idle + bought / c.rate) % TWO_64, c.rate, bought % c.rate, (c.instructions + instructions) % TWO_64)
  }

  lemma AfterNothing(c: Clock)
    requires c.Sound()
    ensures After(c, 0, 0) == c
  {
    DivisionUnique(c.remainder, 0, c.remainder, c.rate);
  }

  lemma AfterIdle(c: Clock, us: nat, instructions: nat, idle: nat)
    requires c.Sound()
    ensures After(Advance(c, us), instructions, idle) == After(c, instructions, us + idle)
  {
    NowAfterIdle(c.now, us, idle, Owed(c.remainder, instructions) / c.rate);
  }

  lemma NowAfterIdle(now: nat, us: nat, idle: nat, bought: nat)
    ensures ((now + us) % TWO_64 + idle + bought) % TWO_64 == (now + (us + idle) + bought) % TWO_64
  {
    WrapTwice(now + us, idle + bought);
  }

  lemma NowAfterRun(now: nat, idle: nat, a: nat, b: nat, d: nat, bought: nat, left: nat, next: nat, carried: nat, whole: nat)
    requires left < d && a == bought * d + left && next == (now + bought) % TWO_64
    requires carried == left + b && whole == a + b
    ensures (next + idle + carried / d) % TWO_64 == (now + idle + whole / d) % TWO_64
    ensures carried % d == whole % d
  {
    DivisionUnique(a, bought, left, d);
    DivideTwice(a, b, d);
    WrapTwice(now + bought, idle + carried / d);
  }

  /** Two clocks come to the same time, and to the same count. */
  predicate TimesMeet(c: Clock, s: Clock, idle: nat, carried: nat, whole: nat)
    requires c.rate > 0
  {
    (s.now + idle + carried / c.rate) % TWO_64 == (c.now + idle + whole / c.rate) % TWO_64 && carried % c.rate == whole % c.rate
  }

  predicate CountsMeet(c: Clock, s: Clock, n: nat, more: nat) {
    (s.instructions + more) % TWO_64 == (c.instructions + n + more) % TWO_64
  }

  lemma CountAfterRun(c: Clock, s: Clock, n: nat, more: nat)
    requires s.instructions == (c.instructions + n) % TWO_64
    ensures CountsMeet(c, s, n, more)
  {
    WrapTwice(c.instructions + n, more);
  }

  lemma OwedIsExact(remainder: nat, n: nat)
    requires Owed(remainder, n) < TWO_64
    ensures Owed(remainder, n) % TWO_64 == Owed(remainder, n)
  {
    DivisionUnique(Owed(remainder, n), 0, Owed(remainder, n), TWO_64);
  }

  lemma SpendExact(c: Clock, n: nat, owed: nat)
    requires c.Sound() && owed == Owed(c.remainder, n) < TWO_64
    ensures Spend(c, n)
            == Clock(c.epoch, (c.now + owed / c.rate) % TWO_64, c.rate, owed % c.rate, (c.instructions + n) % TWO_64)
  {
    OwedIsExact(c.remainder, n);
  }

  lemma AfterReport(c: Clock, s: Clock, n: nat, instructions: nat, idle: nat)
    requires c.Sound() && Owed(c.remainder, n) < TWO_64 && s == Spend(c, n)
    ensures s.Sound() && After(s, instructions, idle) == After(c, n + instructions, idle)
  {
    var owed := Owed(c.remainder, n);
    var carried, whole := TimeAfterReport(c, s, n, instructions, idle, owed);
    CountAfterRun(c, s, n, instructions);
    AfterMeets(c, s, n, instructions, idle, carried, whole);
  }

  lemma TimeAfterReport(c: Clock, s: Clock, n: nat, instructions: nat, idle: nat, owed: nat) returns (carried: nat, whole: nat)
    requires c.Sound() && owed == Owed(c.remainder, n) < TWO_64 && s == Spend(c, n)
    ensures s.Sound() && s.epoch == c.epoch && s.rate == c.rate && s.instructions == (c.instructions + n) % TWO_64
    ensures carried == Owed(s.remainder, instructions) && whole == Owed(c.remainder, n + instructions)
    ensures TimesMeet(c, s, idle, carried, whole)
  {
    var bought, left := Parts(owed, c.rate);
    OwedIsExact(c.remainder, n);
    SpendSound(c, n, owed, bought, left, Clock(c.epoch, (c.now + bought) % TWO_64, c.rate, left, (c.instructions + n) % TWO_64));
    carried, whole := left + instructions * 1_000_000, owed + instructions * 1_000_000;
    TimeAfterRun(c, s, instructions, idle, owed, bought, left, carried, whole);
  }

  lemma TimeAfterRun(c: Clock, s: Clock, instructions: nat, idle: nat, a: nat, bought: nat, left: nat, carried: nat, whole: nat)
    requires left < c.rate && a == bought * c.rate + left && s.now == (c.now + bought) % TWO_64
    requires carried == left + instructions * 1_000_000 && whole == a + instructions * 1_000_000
    ensures TimesMeet(c, s, idle, carried, whole)
  {
    NowAfterRun(c.now, idle, a, instructions * 1_000_000, c.rate, bought, left, s.now, carried, whole);
  }

  lemma AfterMeets(c: Clock, s: Clock, n: nat, instructions: nat, idle: nat, carried: nat, whole: nat)
    requires c.Sound() && s.Sound() && s.epoch == c.epoch && s.rate == c.rate
    requires carried == Owed(s.remainder, instructions) && whole == Owed(c.remainder, n + instructions)
    requires TimesMeet(c, s, idle, carried, whole) && CountsMeet(c, s, n, instructions)
    ensures After(s, instructions, idle) == After(c, n + instructions, idle)
  {
    AfterOwed(s, instructions, idle, carried);
    AfterOwed(c, n + instructions, idle, whole);
  }

  lemma AfterOwed(c: Clock, instructions: nat, idle: nat, owed: nat)
    requires c.Sound() && owed == Owed(c.remainder, instructions)
    ensures After(c, instructions, idle)
            == Clock(c.epoch, (c.now + idle + owed / c.rate) % TWO_64, c.rate, owed % c.rate, (c.instructions + instructions) % TWO_64)
  {
  }

  /** The run leaves the epoch, the idle time, and what all the instructions bought, as if
      spent in one call; the fraction left over is kept. */
  predicate AsOneCall(c: Clock, es: seq<Event>)
    requires c.Sound()
  {
    Run(c, es) == After(c, TotalInstructions(es), TotalIdle(es))
  }

  lemma RanFirst(c: Clock, s: Clock, n: nat, es: seq<Event>)
    requires c.Sound() && es != [] && es[0] == Ran(n) && s == Apply(c, es[0])
    requires AsOneCall(s, es[1..])
    requires After(s, TotalInstructions(es[1..]), TotalIdle(es[1..])) == After(c, n + TotalInstructions(es[1..]), TotalIdle(es[1..]))
    ensures AsOneCall(c, es)
  {
  }

  lemma IdledFirst(c: Clock, us: nat, es: seq<Event>)
    requires c.Sound() && es != [] && es[0] == Idled(us) && AsOneCall(Advance(c, us), es[1..])
    ensures AsOneCall(c, es)
  {
    AfterIdle(c, us, TotalInstructions(es[1..]), TotalIdle(es[1..]));
  }

  /** For every interleaving whose sums fit 64 bits, the split into calls is no matter. */
  lemma {:induction false} ClockLaw(c: Clock, es: seq<Event>)
    requires c.Sound() && RunFits(c, es)
    ensures AsOneCall(c, es)
    decreases |es|
  {
    if es == [] {
      AfterNothing(c);
    } else {
      ClockLaw(Apply(c, es[0]), es[1..]);
      match es[0] {
        case Ran(n) =>
          AfterReport(c, Spend(c, n), n, TotalInstructions(es[1..]), TotalIdle(es[1..]));
          RanFirst(c, Spend(c, n), n, es);
        case Idled(us) => IdledFirst(c, us, es);
      }
    }
  }

  // ---- which sums fit ----------------------------------------------------

  /** No run of 32-bit reports from this clock ever makes a sum leave 64 bits. */
  ghost predicate NeverWraps(c: Clock)
    requires c.Sound()
  {
    forall es {:trigger RunFits(c, es)} | Reports(es) :: RunFits(c, es)
  }

  /** What every remainder the clock can reach shares with the one it has: its rest modulo
      this divisor. */
  function Grain(rate: nat): (g: nat)
    requires rate > 0
    ensures 0 < g <= rate && rate % g == 0 && 1_000_000 % g == 0
  {
    GcdDivides(rate, 1_000_000);
    Gcd(rate, 1_000_000)
  }

  /** The largest remainder the clock can reach leaves room for the longest report. */
  predicate Roomy(c: Clock)
    requires c.Sound()
  {
    c.rate - Grain(c.rate) + c.remainder % Grain(c.rate) + FULL < TWO_64
  }

  lemma RemainderAtMost(remainder: nat, rate: nat, g: nat)
    requires remainder < rate && 0 < g && rate % g == 0
    ensures remainder <= rate - g + remainder % g
  {
    Divided(remainder, g);
    Divided(rate, g);
    var q, p := remainder / g, rate / g;
    if q >= p {
      ProductMonotone(p, q, g);
    }
    ProductMonotone(q + 1, p, g);
    SumTimes(q, 1, g);
  }

  lemma RoomyOwed(c: Clock, n: nat)
    requires c.Sound() && Roomy(c) && n < TWO_32
    ensures Owed(c.remainder, n) < TWO_64
  {
    RemainderAtMost(c.remainder, c.rate, Grain(c.rate));
  }

  /** Taking out multiples of the grain leaves the rest. */
  lemma RestKept(a: nat, b: nat, k: nat, l: nat, g: nat)
    requires 0 < g && a + k * g == b + l * g
    ensures a % g == b % g
  {
    PlusMultiple(a, k, g);
    PlusMultiple(b, l, g);
  }

  lemma PlusMultiple(a: nat, k: nat, g: nat)
    requires 0 < g
    ensures (a + k * g) % g == a % g
  {
    Divided(a, g);
    SumTimes(a / g, k, g);
    DivisionUnique(a + k * g, a / g + k, a % g, g);
  }

  lemma SpendKeepsRest(remainder: nat, n: nat, rate: nat, g: nat)
    requires 0 < rate && 0 < g && rate % g == 0 && 1_000_000 % g == 0
    ensures Owed(remainder, n) % rate % g == remainder % g
  {
    var owed, p, m := Owed(remainder, n), rate / g, 1_000_000 / g;
    var k := owed / rate;
    Divided(owed, rate);
    Divided(rate, g);
    Divided(1_000_000, g);
    Regroup(k, p, g, rate);
    Regroup(n, m, g, 1_000_000);
    RestKept(owed % rate, remainder, k * p, n * m, g);
  }

  lemma Regroup(k: nat, p: nat, g: nat, whole: nat)
    requires whole == p * g
    ensures (k * p) * g == k * whole
  {
  }

  lemma RoomyKept(c: Clock, e: Event)
    requires c.Sound() && Roomy(c) && (e.Ran? ==> e.instructions < TWO_32)
    ensures Roomy(Apply(c, e)) && Apply(c, e).rate == c.rate
  {
    if e.Ran? {
      RoomyOwed(c, e.instructions);
      OwedIsExact(c.remainder, e.instructions);
      SpendKeepsRest(c.remainder, e.instructions, c.rate, Grain(c.rate));
    }
  }

  lemma {:induction false} RoomyRunFits(c: Clock, es: seq<Event>)
    requires c.Sound() && Roomy(c) && Reports(es)
    ensures RunFits(c, es)
    decreases |es|
  {
    if es != [] {
      ReportsRest(es);
      if es[0].Ran? {
        RoomyOwed(c, es[0].instructions);
      }
      RoomyKept(c, es[0]);
      RoomyRunFits(Apply(c, es[0]), es[1..]);
    }
  }

  lemma ReportsRest(es: seq<Event>)
    requires Reports(es) && es != []
    ensures Reports(es[1..])
  {
    assert forall i {:trigger es[1..][i]} | 0 <= i < |es[1..]| :: es[1..][i] == es[i + 1];
  }

  // ---- and which do not --------------------------------------------------

  function Copies(e: Event, k: nat): (es: seq<Event>)
    ensures |es| == k && forall i | 0 <= i < k :: es[i] == e
  {
    if k == 0 then [] else [e] + Copies(e, k - 1)
  }

  lemma {:induction false} CopiesTotal(e: Event, k: nat)
    ensures TotalInstructions(Copies(e, k)) == if e.Ran? then k * e.instructions else 0
    ensures TotalIdle(Copies(e, k)) == if e.Idled? then k * e.us else 0
  {
    if k > 0 {
      CopiesTotal(e, k - 1);
      assert Copies(e, k)[1..] == Copies(e, k - 1);
      SumTimes(k - 1, 1, if e.Ran? then e.instructions else e.us);
    }
  }

  lemma {:induction false} RunFitsBoth(c: Clock, es: seq<Event>, fs: seq<Event>)
    requires c.Sound()
    ensures RunFits(c, es + fs) <==> RunFits(c, es) && RunFits(Run(c, es), fs)
    ensures Run(c, es + fs) == Run(Run(c, es), fs)
    decreases |es|
  {
    if es == [] {
      assert es + fs == fs;
    } else {
      assert (es + fs)[1..] == es[1..] + fs;
      RunFitsBoth(Apply(c, es[0]), es[1..], fs);
    }
  }

  /** So many single instructions leave any remainder that shares the rest. */
  lemma Reached(remainder: nat, rate: nat) returns (k: nat)
    requires remainder < rate
    ensures var g := Grain(rate); Owed(remainder, k) % rate == rate - g + remainder % g
  {
    var g, q := Grain(rate), remainder / Grain(rate);
    var x, y := Bezout(rate, 1_000_000);
    Divided(remainder, g);
    k := (-(q + 1) * y) % rate;
    var w := (-(q + 1) * y) / rate;
    ReachedAt(remainder, rate, g, q, x, y, k, w);
    var z := (q + 1) * x - w * 1_000_000 - 1;
    var m := rate - g + remainder % g;
    assert Owed(remainder, k) == z * rate + m;
    assert 0 <= m < rate by {
      RemainderAtMost(remainder, rate, g);
    }
    if z < 0 {
      MultipleFar(z, rate);
    }
    DivisionUnique(Owed(remainder, k), z, m, rate);
  }

  lemma ReachedAt(remainder: nat, rate: nat, g: nat, q: nat, x: int, y: int, k: nat, w: int)
    requires 0 < g && remainder == q * g + remainder % g && x * rate + y * 1_000_000 == g
    requires -(q + 1) * y == w * rate + k
    ensures Owed(remainder, k) == ((q + 1) * x - w * 1_000_000 - 1) * rate + (rate - g + remainder % g)
  {
    var a := q + 1;
    assert a * (x * rate + y * 1_000_000) == a * g;
    assert a * (x * rate + y * 1_000_000) == (a * x) * rate + (a * y) * 1_000_000;
    assert a * g == q * g + g;
    assert k * 1_000_000 == -(a * y) * 1_000_000 - (w * 1_000_000) * rate;
    assert (a * x - w * 1_000_000 - 1) * rate == (a * x) * rate - (w * 1_000_000) * rate - rate;
  }

  /** From any clock, the sums of every run fit exactly when the largest remainder it can
      reach leaves room for the longest report. */
  lemma OwedFits(c: Clock)
    requires c.Sound()
    ensures NeverWraps(c) <==> Roomy(c)
  {
    if Roomy(c) {
      forall es | Reports(es)
        ensures RunFits(c, es)
      {
        RoomyRunFits(c, es);
      }
    } else {
      var k := Reached(c.remainder, c.rate);
      var es, last := Copies(Ran(1), k), [Ran(TWO_32 - 1)];
      assert Reports(es + last);
      RunFitsBoth(c, es, last);
      if RunFits(c, es) {
        ClockLaw(c, es);
        CopiesTotal(Ran(1), k);
        assert !RunFits(Run(c, es), last);
      }
    }
  }

  /** A clock from its start: the rate less its greatest common divisor with a million. */
  lemma StartFits(epoch: nat, rate: nat)
    requires epoch < TWO_64 && 0 < rate < TWO_64
    ensures NeverWraps(Start(epoch, rate)) <==> rate - Gcd(rate, 1_000_000) + FULL < TWO_64
  {
    OwedFits(Start(epoch, rate));
    DivisionUnique(0, 0, 0, Grain(rate));
  }

  lemma {:induction false} FullReports(c: Clock, k: nat)
    requires c.Sound() && c.rate == TWO_64 - 1 && c.remainder + k * FULL < c.rate
    ensures RunFits(c, Copies(Ran(TWO_32 - 1), k))
    ensures Run(c, Copies(Ran(TWO_32 - 1), k)).remainder == c.remainder + k * FULL
    ensures Run(c, Copies(Ran(TWO_32 - 1), k)).now == c.now && Run(c, Copies(Ran(TWO_32 - 1), k)).rate == c.rate
    decreases k
  {
    if k > 0 {
      FullReport(c);
      FullReports(Spend(c, TWO_32 - 1), k - 1);
      assert Copies(Ran(TWO_32 - 1), k)[1..] == Copies(Ran(TWO_32 - 1), k - 1);
    }
  }

  lemma FullReport(c: Clock)
    requires c.Sound() && c.rate == TWO_64 - 1 && c.remainder + FULL < c.rate
    ensures var d := Spend(c, TWO_32 - 1);
            d.remainder == c.remainder + FULL && d.now == c.now && d.rate == c.rate
    ensures Owed(c.remainder, TWO_32 - 1) < TWO_64
  {
    var owed := Owed(c.remainder, TWO_32 - 1);
    DivisionUnique(owed, 0, owed, TWO_64);
    DivisionUnique(owed, 0, owed, TWO_64 - 1);
    DivisionUnique(c.now, 0, c.now, TWO_64);
  }

  /** At the highest rate 4294 full reports fit, the next one wraps, and the microsecond
      they have all bought together is lost. */
  lemma TopRateWraps(epoch: nat)
    requires epoch < TWO_64
    ensures var c, full := Start(epoch, TWO_64 - 1), Ran(TWO_32 - 1);
            && RunFits(c, Copies(full, 4294)) && !RunFits(c, Copies(full, 4294) + [full])
            && Run(c, Copies(full, 4294) + [full]).now == epoch
            && TotalInstructions(Copies(full, 4294) + [full]) * 1_000_000 / (TWO_64 - 1) == 1
  {
    var c, full := Start(epoch, TWO_64 - 1), Ran(TWO_32 - 1);
    FullReports(c, 4294);
    RunFitsBoth(c, Copies(full, 4294), [full]);
    Overfull(Run(c, Copies(full, 4294)));
    RunOne(Run(c, Copies(full, 4294)), full);
    TotalOfTop(full);
  }

  lemma RunOne(c: Clock, e: Event)
    requires c.Sound()
    ensures Run(c, [e]) == Apply(c, e)
    ensures RunFits(c, [e]) <==> e.Ran? ==> Owed(c.remainder, e.instructions) < TWO_64
  {
    assert [e][1..] == [];
  }

  lemma Overfull(c: Clock)
    requires c.Sound() && c.rate == TWO_64 - 1 && c.remainder == 4294 * FULL
    ensures Owed(c.remainder, TWO_32 - 1) >= TWO_64 && Spend(c, TWO_32 - 1).now == c.now
  {
    var owed := Owed(c.remainder, TWO_32 - 1);
    DivisionUnique(owed, 1, owed - TWO_64, TWO_64);
    DivisionUnique(owed - TWO_64, 0, owed - TWO_64, TWO_64 - 1);
    DivisionUnique(c.now, 0, c.now, TWO_64);
  }

  lemma TotalOfTop(full: Event)
    requires full == Ran(TWO_32 - 1)
    ensures TotalInstructions(Copies(full, 4294) + [full]) * 1_000_000 / (TWO_64 - 1) == 1
  {
    CopiesAppend(full, 4294);
    CopiesTotal(full, 4295);
    DivisionUnique(4295 * FULL, 1, 4295 * FULL - (TWO_64 - 1), TWO_64 - 1);
  }

  lemma CopiesAppend(e: Event, k: nat)
    ensures Copies(e, k) + [e] == Copies(e, k + 1)
  {
  }

  // ---- what follows ------------------------------------------------------

  /** So how the work was cut into calls, and where the idling stood, never matters. */
  lemma SplitsNeverMatter(c: Clock, es: seq<Event>, fs: seq<Event>)
    requires c.Sound() && RunFits(c, es) && RunFits(c, fs)
    requires TotalInstructions(es) == TotalInstructions(fs) && TotalIdle(es) == TotalIdle(fs)
    ensures Run(c, es) == Run(c, fs)
  {
    ClockLaw(c, es);
    ClockLaw(c, fs);
  }

  /** A rate of 0 is taken as 1: each instruction buys a second. */
  lemma ZeroRate(epoch: nat, n: nat)
    requires epoch + n * 1_000_000 < TWO_64 && n < TWO_32
    ensures Start(epoch, 0) == Start(epoch, 1) && Spend(Start(epoch, 0), n).now == epoch + n * 1_000_000
  {
    DivisionUnique(n * 1_000_000, n * 1_000_000, 0, 1);
    DivisionUnique(n * 1_000_000, 0, n * 1_000_000, TWO_64);
    DivisionUnique(epoch + n * 1_000_000, 0, epoch + n * 1_000_000, TWO_64);
  }

  /** From the start: the epoch, the idle time, and the instructions at the declared rate. */
  lemma ElapsedLaw(epoch: nat, rate: nat, es: seq<Event>)
    requires epoch < TWO_64 && 0 < rate < TWO_64 && RunFits(Start(epoch, rate), es)
    ensures var r := Run(Start(epoch, rate), es);
            && r.now == (epoch + TotalIdle(es) + TotalInstructions(es) * 1_000_000 / rate) % TWO_64
            && r.remainder == TotalInstructions(es) * 1_000_000 % rate
  {
    ClockLaw(Start(epoch, rate), es);
  }
}

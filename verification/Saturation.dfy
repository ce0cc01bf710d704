/** Adding up what the streams give at one sample: in order, clamped to 16 bits at each step. */
module Saturation {

  type Sample = s: int | -32768 <= s <= 32767

  function Clamp(x: int): Sample {
    if x < -32768 then -32768 else if x > 32767 then 32767 else x
  }

  function Abs(x: int): nat {
    if x < 0 then -x else x
  }

  /** The contributions at one sample added in order, clamped at each step. */
  function Mixed(cs: seq<int>): Sample
    decreases |cs|
  {
    if cs == [] then 0 else Clamp(Mixed(cs[..|cs| - 1]) + cs[|cs| - 1])
  }

  lemma MixedStep(cs: seq<int>, k: nat)
    requires k < |cs|
    ensures Mixed(cs[..k + 1]) == Clamp(Mixed(cs[..k]) + cs[k])
  {
    assert cs[..k + 1][..k] == cs[..k];
  }

  function Sum(cs: seq<int>): int
    decreases |cs|
  {
    if cs == [] then 0 else Sum(cs[..|cs| - 1]) + cs[|cs| - 1]
  }

  /** What the contributions raise a sample by, and what they lower it by. */
  function Up(cs: seq<int>): nat
    decreases |cs|
  {
    if cs == [] then 0 else Up(cs[..|cs| - 1]) + Rise(cs[|cs| - 1])
  }

  function Down(cs: seq<int>): nat
    decreases |cs|
  {
    if cs == [] then 0 else Down(cs[..|cs| - 1]) + Rise(-cs[|cs| - 1])
  }

  function Rise(x: int): nat {
    if x > 0 then x else 0
  }

  function Loudness(cs: seq<int>): nat {
    Up(cs) + Down(cs)
  }

  lemma {:induction false} SumIsUpAndDown(cs: seq<int>)
    ensures Sum(cs) == Up(cs) - Down(cs)
    decreases |cs|
  {
    if cs != [] {
      SumIsUpAndDown(cs[..|cs| - 1]);
    }
  }

  // ---- without regard to the order ---------------------------------------

  lemma {:induction false} UpAndDownWithout(cs: seq<int>, i: nat)
    requires i < |cs|
    ensures Up(cs) == Up(cs[..i] + cs[i + 1..]) + Rise(cs[i])
    ensures Down(cs) == Down(cs[..i] + cs[i + 1..]) + Rise(-cs[i])
    decreases |cs|
  {
    var n := |cs| - 1;
    if i == n {
      assert cs[..i] + cs[i + 1..] == cs[..n];
    } else {
      var less := cs[..i] + cs[i + 1..];
      UpAndDownWithout(cs[..n], i);
      assert less[..|less| - 1] == cs[..n][..i] + cs[..n][i + 1..];
    }
  }

  lemma Without(cs: seq<int>, i: nat)
    requires i < |cs|
    ensures multiset(cs[..i] + cs[i + 1..]) == multiset(cs) - multiset{cs[i]}
  {
    assert cs == cs[..i] + [cs[i]] + cs[i + 1..];
  }

  lemma WithoutLast(cs: seq<int>)
    requires cs != []
    ensures multiset(cs[..|cs| - 1]) == multiset(cs) - multiset{cs[|cs| - 1]}
  {
    assert cs == cs[..|cs| - 1] + [cs[|cs| - 1]];
  }

  lemma {:induction false} SameUpAndDown(cs: seq<int>, ds: seq<int>)
    requires multiset(cs) == multiset(ds)
    ensures Up(cs) == Up(ds) && Down(cs) == Down(ds)
    decreases |cs|
  {
    if cs == [] {
      assert |multiset(ds)| == 0;
    } else {
      var n := |cs| - 1;
      assert cs[n] in multiset(ds);
      var i :| 0 <= i < |ds| && ds[i] == cs[n];
      WithoutLast(cs);
      Without(ds, i);
      SameUpAndDown(cs[..n], ds[..i] + ds[i + 1..]);
      UpAndDownWithout(ds, i);
    }
  }

  // ---- when the clamping only acts once ----------------------------------

  /** Contributions of one sign, added after any others, clamp as their sum would. */
  lemma {:induction false} OneSign(a: seq<int>, b: seq<int>)
    requires Up(b) == 0 || Down(b) == 0
    ensures Mixed(a + b) == Clamp(Mixed(a) + Sum(b))
    decreases |b|
  {
    if b == [] {
      assert a + b == a;
    } else {
      var n := |b| - 1;
      assert (a + b)[..|a + b| - 1] == a + b[..n];
      OneSign(a, b[..n]);
      SumIsUpAndDown(b[..n]);
    }
  }

  lemma {:induction false} NeverClamps(cs: seq<int>)
    requires Up(cs) <= 32767 && Down(cs) <= 32768
    ensures Mixed(cs) == Sum(cs)
    decreases |cs|
  {
    if cs != [] {
      NeverClamps(cs[..|cs| - 1]);
      SumIsUpAndDown(cs);
    }
  }

  /** All push one way, or neither the rises nor the falls alone leave 16 bits. */
  predicate Settled(cs: seq<int>) {
    Up(cs) == 0 || Down(cs) == 0 || (Up(cs) <= 32767 && Down(cs) <= 32768)
  }

  lemma SettledMix(cs: seq<int>)
    requires Settled(cs)
    ensures Mixed(cs) == Clamp(Sum(cs))
  {
    if Up(cs) == 0 || Down(cs) == 0 {
      Alone(cs);
    } else {
      NeverClamps(cs);
      SumIsUpAndDown(cs);
    }
  }

  // ---- the rises first, and the falls first ------------------------------

  function Rises(cs: seq<int>): seq<int>
    decreases |cs|
  {
    if cs == [] then []
    else Rises(cs[..|cs| - 1]) + (if cs[|cs| - 1] >= 0 then [cs[|cs| - 1]] else [])
  }

  function Falls(cs: seq<int>): seq<int>
    decreases |cs|
  {
    if cs == [] then []
    else Falls(cs[..|cs| - 1]) + (if cs[|cs| - 1] < 0 then [cs[|cs| - 1]] else [])
  }

  lemma UpAndDownOfOneMore(cs: seq<int>, c: int)
    ensures Up(cs + [c]) == Up(cs) + Rise(c) && Down(cs + [c]) == Down(cs) + Rise(-c)
  {
    assert (cs + [c])[..|cs|] == cs;
  }

  lemma {:induction false} UpOfRises(cs: seq<int>)
    ensures Up(Rises(cs)) == Up(cs) && Down(Rises(cs)) == 0
    decreases |cs|
  {
    if cs != [] {
      var n := |cs| - 1;
      UpOfRises(cs[..n]);
      UpAndDownOfOneMore(Rises(cs[..n]), cs[n]);
      assert Rises(cs[..n]) + [] == Rises(cs[..n]);
    }
  }

  lemma {:induction false} DownOfFalls(cs: seq<int>)
    ensures Up(Falls(cs)) == 0 && Down(Falls(cs)) == Down(cs)
    decreases |cs|
  {
    if cs != [] {
      var n := |cs| - 1;
      DownOfFalls(cs[..n]);
      UpAndDownOfOneMore(Falls(cs[..n]), cs[n]);
      assert Falls(cs[..n]) + [] == Falls(cs[..n]);
    }
  }

  ghost predicate SharesOut(a: seq<int>, b: seq<int>, whole: seq<int>) {
    multiset(a) + multiset(b) == multiset(whole)
  }

  lemma {:induction false} AllRiseOrFall(cs: seq<int>)
    ensures SharesOut(Rises(cs), Falls(cs), cs)
    decreases |cs|
  {
    if cs != [] {
      var n := |cs| - 1;
      var c, rises, falls := cs[n], Rises(cs[..n]), Falls(cs[..n]);
      AllRiseOrFall(cs[..n]);
      assert cs == cs[..n] + [c];
      if c >= 0 {
        OneMore(rises, c, falls, Rises(cs), Falls(cs), cs[..n], cs);
      } else {
        OneMore(falls, c, rises, Falls(cs), Rises(cs), cs[..n], cs);
      }
    }
  }

  lemma OneMore(a: seq<int>, c: int, b: seq<int>, a': seq<int>, b': seq<int>, whole: seq<int>, whole': seq<int>)
    requires a' == a + [c] && b' == b + [] && whole' == whole + [c]
    requires SharesOut(a, b, whole) || SharesOut(b, a, whole)
    ensures SharesOut(a', b', whole') && SharesOut(b', a', whole')
  {
    assert b' == b;
  }

  /** Both orders are orders of the same contributions. */
  lemma TwoOrders(cs: seq<int>)
    ensures multiset(Rises(cs) + Falls(cs)) == multiset(cs)
    ensures multiset(Falls(cs) + Rises(cs)) == multiset(cs)
  {
    AllRiseOrFall(cs);
  }

  lemma EitherFirst(rises: seq<int>, falls: seq<int>, up: nat, down: nat)
    requires Up(rises) == up && Down(rises) == 0 && Up(falls) == 0 && Down(falls) == down
    ensures Mixed(rises + falls) == Clamp(Clamp(up) - down)
    ensures Mixed(falls + rises) == Clamp(Clamp(0 - down) + up)
  {
    SumIsUpAndDown(rises);
    SumIsUpAndDown(falls);
    Alone(rises);
    Alone(falls);
    OneSign(rises, falls);
    OneSign(falls, rises);
  }

  lemma Alone(cs: seq<int>)
    requires Up(cs) == 0 || Down(cs) == 0
    ensures Mixed(cs) == Clamp(Sum(cs))
  {
    OneSign([], cs);
    assert [] + cs == cs;
  }

  // ---- the order of the streams ------------------------------------------

  /** Another order of the streams mixes to the same sample. */
  ghost predicate MixesAlike(cs: seq<int>, ds: seq<int>) {
    multiset(ds) == multiset(cs) ==> Mixed(ds) == Mixed(cs)
  }

  ghost predicate OrderFree(cs: seq<int>) {
    forall ds :: MixesAlike(cs, ds)
  }

  /** The order of the streams never shows exactly when all push one way, or neither the
      rises nor the falls alone leave 16 bits. */
  lemma OrderFreeExactly(cs: seq<int>)
    ensures OrderFree(cs) <==> Settled(cs)
  {
    if Settled(cs) {
      forall ds
        ensures MixesAlike(cs, ds)
      {
        if multiset(ds) == multiset(cs) {
          SettledAlike(cs, ds);
        }
      }
    } else {
      OrderShows(cs);
    }
  }

  lemma SettledAlike(cs: seq<int>, ds: seq<int>)
    requires Settled(cs) && multiset(ds) == multiset(cs)
    ensures Mixed(ds) == Mixed(cs)
  {
    SameUpAndDown(cs, ds);
    SettledMix(cs);
    SettledMix(ds);
    SumIsUpAndDown(cs);
    SumIsUpAndDown(ds);
  }

  lemma OrderShows(cs: seq<int>)
    requires !Settled(cs)
    ensures !OrderFree(cs)
  {
    var rises, falls := Rises(cs), Falls(cs);
    UpOfRises(cs);
    DownOfFalls(cs);
    TwoOrders(cs);
    EitherFirst(rises, falls, Up(cs), Down(cs));
    ClampsApart(Up(cs), Down(cs));
    NotAlike(cs, rises + falls, falls + rises);
  }

  lemma NotAlike(cs: seq<int>, ds: seq<int>, es: seq<int>)
    requires multiset(ds) == multiset(cs) == multiset(es) && Mixed(ds) != Mixed(es)
    ensures !OrderFree(cs)
  {
    assert !MixesAlike(cs, ds) || !MixesAlike(cs, es);
  }

  lemma ClampsApart(up: int, down: int)
    requires up > 0 && down > 0 && (up > 32767 || down > 32768)
    ensures Clamp(Clamp(up) - down) != Clamp(Clamp(0 - down) + up)
  {
  }

  /** Such streams are there: these three give 1 or 0. */
  lemma LoudMixDependsOnOrder()
    ensures multiset([32767, 1, -32767]) == multiset([32767, -32767, 1])
    ensures Mixed([32767, 1, -32767]) == 0 && Mixed([32767, -32767, 1]) == 1
  {
    assert [32767, 1, -32767][..2] == [32767, 1] && [32767, 1][..1] == [32767] && [32767][..0] == [];
    assert [32767, -32767, 1][..2] == [32767, -32767] && [32767, -32767][..1] == [32767];
  }

  /** Contributions that total at most 32767 are added exactly, in whatever order. */
  lemma QuietMixIsOrderFree(cs: seq<int>)
    requires Loudness(cs) <= 32767
    ensures OrderFree(cs) && Mixed(cs) == Sum(cs)
  {
    OrderFreeExactly(cs);
    NeverClamps(cs);
  }
}

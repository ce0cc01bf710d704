/** Division and remainder of natural numbers, for divisors the solver does not know.
    Products of two unknowns are taken apart one step at a time. */
module Division {

  lemma SumTimes(a: int, b: int, d: int)
    ensures (a + b) * d == a * d + b * d
  {
  }

  lemma DifferenceTimes(a: int, b: int, d: int)
    ensures (a - b) * d == a * d - b * d
  {
  }

  lemma {:induction false} Multiple(k: nat, d: nat)
    ensures k * d >= 0 && (k >= 1 ==> k * d >= d)
  {
    if k > 0 {
      Multiple(k - 1, d);
      SumTimes(k - 1, 1, d);
    }
  }

  lemma MultipleFar(k: int, d: nat)
    ensures k >= 1 ==> k * d >= d
    ensures k <= -1 ==> k * d + d <= 0
    ensures k >= 0 ==> k * d >= 0
  {
    if k >= 0 {
      Multiple(k, d);
    } else {
      Multiple(-k, d);
      DifferenceTimes(0, -k, d);
    }
  }

  lemma ProductMonotone(a: nat, b: nat, d: nat)
    requires a <= b
    ensures a * d <= b * d
  {
    MultipleFar(b - a, d);
    DifferenceTimes(b, a, d);
  }

  /** Dividing, told without a division. */
  lemma Divided(a: nat, d: nat)
    requires 0 < d
    ensures a == (a / d) * d + a % d && 0 <= a % d < d && a / d >= 0
  {
  }

  lemma Parts(a: nat, d: nat) returns (quotient: nat, left: nat)
    requires 0 < d
    ensures left < d && a == quotient * d + left && a / d == quotient && a % d == left
  {
    Divided(a, d);
    quotient, left := a / d, a % d;
  }

  lemma DivisionUnique(a: nat, q: nat, m: nat, d: nat)
    requires m < d && a == q * d + m
    ensures a / d == q && a % d == m
  {
    Divided(a, d);
    DifferenceTimes(a / d, q, d);
    MultipleFar(a / d - q, d);
  }

  /** Dividing in two steps, the remainder carried, is dividing once. */
  lemma DivideTwice(a: nat, b: nat, d: nat)
    requires 0 < d
    ensures (a + b) / d == a / d + (a % d + b) / d
    ensures (a + b) % d == (a % d + b) % d
  {
    Divided(a, d);
    Divided(a % d + b, d);
    Joined(a, b, d, a / d, a % d, (a % d + b) / d, (a % d + b) % d);
  }

  lemma Joined(a: nat, b: nat, d: nat, q: nat, m: nat, r: nat, n: nat)
    requires n < d && a == q * d + m && m + b == r * d + n
    ensures (a + b) / d == q + r && (a + b) % d == n
  {
    SumTimes(q, r, d);
    DivisionUnique(a + b, q + r, n, d);
  }

  lemma QuotientAtLeast(q: nat, a: nat, d: nat)
    requires 0 < d && q * d <= a
    ensures q <= a / d
  {
    Divided(a, d);
    DifferenceTimes(q, a / d, d);
    MultipleFar(q - a / d, d);
  }

  lemma QuotientBelow(a: nat, q: nat, d: nat)
    requires 0 < d && a < q * d
    ensures a / d < q
  {
    Divided(a, d);
    DifferenceTimes(a / d, q, d);
    MultipleFar(a / d - q, d);
  }

  lemma QuotientMonotone(a: nat, b: nat, d: nat)
    requires 0 < d && a <= b
    ensures a / d <= b / d
  {
    Divided(a, d);
    QuotientAtLeast(a / d, b, d);
  }

  // ---- the greatest common divisor ---------------------------------------

  function Gcd(a: nat, b: nat): nat
    decreases b
  {
    if b == 0 then a else Gcd(b, a % b)
  }

  lemma {:induction false} GcdDivides(a: nat, b: nat)
    requires a > 0
    ensures 0 < Gcd(a, b) <= a && a % Gcd(a, b) == 0 && b % Gcd(a, b) == 0
    decreases b
  {
    if b == 0 {
      DivisionUnique(a, 1, 0, a);
      DivisionUnique(0, 0, 0, a);
    } else {
      var g := Gcd(b, a % b);
      GcdDivides(b, a % b);
      DividesSum(a, b, g);
    }
  }

  lemma DividesSum(a: nat, b: nat, g: nat)
    requires 0 < g && 0 < b && 0 < a && b % g == 0 && (a % b) % g == 0
    ensures a % g == 0 && g <= a
  {
    Divided(a, b);
    Divided(b, g);
    Divided(a % b, g);
    var p, q, r := b / g, a / b, (a % b) / g;
    assert q * b == (q * p) * g;
    SumTimes(q * p, r, g);
    MultipleFar(q * p, 1);
    DivisionUnique(a, q * p + r, 0, g);
    if q * p + r > 0 {
      Multiple(q * p + r, g);
    }
  }

  /** It is a combination of the two. */
  lemma {:induction false} Bezout(a: nat, b: nat) returns (x: int, y: int)
    ensures x * a + y * b == Gcd(a, b)
    decreases b
  {
    if b == 0 {
      x, y := 1, 0;
    } else {
      var u, v := Bezout(b, a % b);
      x, y := v, u - v * (a / b);
      BezoutStep(a, b, u, v, a / b, a % b);
    }
  }

  lemma BezoutStep(a: nat, b: nat, u: int, v: int, q: nat, m: nat)
    requires 0 < b && a == q * b + m
    ensures v * a + (u - v * q) * b == u * b + v * m
  {
    assert v * a == (v * q) * b + v * m;
    DifferenceTimes(u, v * q, b);
  }
}

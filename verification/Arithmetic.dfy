/** Integer facts shared by the audio modules: floor division, greatest common
    divisors and modular inverses. */
module Arithmetic {

  /** Products preserve order in a non-negative factor. */
  lemma MulMono(a: int, b: int, c: int)
    requires a <= b && 0 <= c
    ensures a * c <= b * c
  {
  }

  lemma Distribute(a: int, b: int, c: int)
    ensures (a + b) * c == a * c + b * c
  {
  }

  /** `q` is the floor of `a / d` as soon as `q * d <= a < (q + 1) * d`. */
  lemma FloorUnique(a: int, d: int, q: int)
    requires d > 0 && q * d <= a < (q + 1) * d
    ensures a / d == q
  {
    var e := a / d;
    assert e * d <= a < (e + 1) * d;
    if e < q {
      MulMono(e + 1, q, d);
    } else if q < e {
      MulMono(q + 1, e, d);
    }
  }

  /** Floor division is monotone in the dividend. */
  lemma FloorMono(a: int, b: int, d: int)
    requires d > 0 && a <= b
    ensures a / d <= b / d
  {
    if b / d < a / d {
      MulMono(b / d + 1, a / d, d);
    }
  }

  /** Comparing a quotient with an integer is comparing the dividend with a product. */
  lemma FloorBelow(a: int, d: int, q: int)
    requires d > 0
    ensures a / d < q <==> a < q * d
  {
    if a / d < q {
      MulMono(a / d + 1, q, d);
    } else {
      MulMono(q, a / d, d);
    }
  }

  predicate Divides(d: int, n: int)
    requires d > 0
  {
    n % d == 0
  }

  /** Euclid's algorithm, as `std::gcd` specifies it. */
  function Gcd(a: nat, b: nat): (g: nat)
    requires a > 0
    ensures g > 0 && Divides(g, a) && Divides(g, b)
    decreases b
  {
    if b == 0 then a
    else
      var g := Gcd(b, a % b);
      assert Divides(g, a) by { DividesRemainder(g, a, b); }
      g
  }

  lemma GcdSymmetric(a: nat, b: nat)
    requires a > 0 && b > 0
    ensures Gcd(a, b) == Gcd(b, a)
  {
    if a < b {
      GcdOfSmaller(a, b);
    } else if b < a {
      GcdOfSmaller(b, a);
    }
  }

  lemma GcdOfSmaller(a: nat, b: nat)
    requires 0 < a < b
    ensures Gcd(a, b) == Gcd(b, a)
  {
    FloorUnique(a, b, 0);
  }

  lemma MultipleOf(d: int, k: int)
    requires d > 0
    ensures (k * d) % d == 0 && (k * d) / d == k
  {
    FloorUnique(k * d, d, k);
  }

  lemma DividesRemainder(g: int, a: nat, b: nat)
    requires g > 0 && b > 0 && Divides(g, b) && Divides(g, a % b)
    ensures Divides(g, a)
  {
    var x, y, q := b / g, (a % b) / g, a / b;
    assert b == x * g && a % b == y * g;
    calc {
      a;
      q * b + a % b;
      q * (x * g) + y * g;
      (q * x + y) * g;
    }
    MultipleOf(g, q * x + y);
  }

  /** One step of Bezout's recursion, on the remainder `a - q * b`. */
  lemma BezoutStep(a: int, b: int, q: int, u: int, v: int)
    ensures u * b + v * (a - q * b) == v * a + (u - q * v) * b
  {
    calc {
      u * b + v * (a - q * b);
      { assert v * (a - q * b) == v * a - v * (q * b); }
      u * b + v * a - v * (q * b);
      { assert v * (q * b) == (q * v) * b; }
      u * b + v * a - (q * v) * b;
      { assert (u - q * v) * b == u * b - (q * v) * b; }
      v * a + (u - q * v) * b;
    }
  }

  /** Bezout: the greatest common divisor is an integer combination. */
  lemma {:induction false} Bezout(a: nat, b: nat) returns (x: int, y: int)
    requires a > 0
    ensures x * a + y * b == Gcd(a, b)
    decreases b
  {
    if b == 0 {
      x, y := 1, 0;
    } else {
      var u, v := Bezout(b, a % b);
      x, y := v, u - (a / b) * v;
      BezoutStep(a, b, a / b, u, v);
    }
  }

  /** A common factor can be pulled out of an integer combination. */
  lemma CommonFactor(x: int, p: int, y: int, q: int, g: int)
    ensures x * (p * g) + y * (q * g) == (x * p + y * q) * g
  {
    assert x * (p * g) == (x * p) * g;
    assert y * (q * g) == (y * q) * g;
  }

  /** Two rates divided by their greatest common divisor have a combination equal to one. */
  lemma ReducedCombination(a: nat, b: nat) returns (x: int, y: int)
    requires a > 0 && b > 0
    ensures x * (a / Gcd(a, b)) + y * (b / Gcd(a, b)) == 1
  {
    x, y := Bezout(a, b);
    var g := Gcd(a, b);
    var p, q := a / g, b / g;
    assert a == p * g && b == q * g;
    CommonFactor(x, p, y, q, g);
    var s := x * p + y * q;
    if s >= 2 { MulMono(2, s, g); }
    if s <= 0 { MulMono(s, 0, g); }
  }

  /** A quotient by a divisor loses nothing, and stays positive. */
  lemma ExactQuotient(a: nat, g: nat)
    requires a > 0 && g > 0 && Divides(g, a)
    ensures (a / g) * g == a && a / g > 0
  {
    if a / g <= 0 { MulMono(a / g, 0, g); }
  }

  /** So the reduced rates have no common factor left. */
  lemma ReducedIsCoprime(a: nat, b: nat)
    requires a > 0 && b > 0
    ensures a / Gcd(a, b) > 0 && b / Gcd(a, b) > 0 && Gcd(a / Gcd(a, b), b / Gcd(a, b)) == 1
  {
    var g := Gcd(a, b);
    ExactQuotient(a, g);
    ExactQuotient(b, g);
    var x, y := ReducedCombination(a, b);
    CombinationOfOne(a / g, b / g, x, y);
  }

  lemma CombinationOfOne(p: nat, q: nat, x: int, y: int)
    requires p > 0 && q > 0 && x * p + y * q == 1
    ensures Gcd(p, q) == 1
  {
    var d := Gcd(p, q);
    ExactQuotient(p, d);
    ExactQuotient(q, d);
    CommonFactor(x, p / d, y, q / d, d);
    FactorOfOne(x * (p / d) + y * (q / d), d);
  }

  lemma FactorOfOne(s: int, d: nat)
    requires s * d == 1
    ensures d == 1
  {
    if d > 1 {
      if s >= 1 { MulMono(1, s, d); } else { MulMono(s, 0, d); }
    }
  }
}

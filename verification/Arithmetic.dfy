/** Facts about products, quotients and remainders that the solver does not find by itself. */
module Arithmetic {

  lemma MulMono(a: int, b: int, c: nat)
    requires a <= b
    ensures a * c <= b * c
  {
  }

  lemma MulLess(a: int, b: int, c: nat)
    requires a * c < b * c
    ensures a < b
  {
    if b <= a { MulMono(b, a, c); }
  }

  lemma AddTimes(a: int, b: int, c: int)
    ensures (a + b) * c == a * c + b * c
  {
  }

  lemma SubTimes(a: int, b: int, c: int)
    ensures (a - b) * c == a * c - b * c
  {
  }

  lemma MulAssoc(a: int, b: int, c: int)
    ensures a * (b * c) == b * (a * c)
  {
  }

  lemma DivBounds(a: nat, b: nat)
    requires b > 0
    ensures (a / b) * b <= a < (a / b) * b + b
  {
  }

  lemma DivUnique(a: nat, b: nat, q: int)
    requires b > 0 && q * b <= a < q * b + b
    ensures a / b == q
  {
    DivBounds(a, b);
    AddTimes(q, 1, b);
    AddTimes(a / b, 1, b);
    MulLess(q, a / b + 1, b);
    MulLess(a / b, q + 1, b);
  }

  lemma DivModUnique(a: nat, b: nat, q: int, r: nat)
    requires b > 0 && a == q * b + r && r < b
    ensures a / b == q && a % b == r
  {
    DivUnique(a, b, q);
  }

  /** Counting up by one wraps the remainder and carries into the quotient. */
  lemma NextDivMod(a: nat, b: nat)
    requires b > 0
    ensures (a + 1) % b == if a % b + 1 == b then 0 else a % b + 1
    ensures (a + 1) / b == if a % b + 1 == b then a / b + 1 else a / b
  {
    var q, r := a / b, a % b;
    AddTimes(q, 1, b);
    if r + 1 == b {
      DivModUnique(a + 1, b, q + 1, 0);
    } else {
      DivModUnique(a + 1, b, q, r + 1);
    }
  }

  lemma ModOfMultiple(x: nat, p: nat, q: nat)
    requires p > 0 && q > 0
    ensures p * q > 0 && (p * x) % (p * q) == p * (x % q)
  {
    var c, r := x / q, x % q;
    ScaledDivMod(x, p, q, c, r);
    DivModUnique(p * x, p * q, c, p * r);
  }

  lemma ScaledDivMod(x: nat, p: nat, q: nat, c: int, r: nat)
    requires p > 0 && q > 0 && x == c * q + r && r < q
    ensures p * q > 0 && p * x == c * (p * q) + p * r && p * r < p * q
  {
    MulMono(1, q, p);
    MulMono(r, q - 1, p);
    SubTimes(q, 1, p);
    MulAssoc(c, p, q);
    assert p * x == p * (c * q) + p * r;
  }
}

module Arithmetic {

  function Min(x: int, y: int): int { if y < x then y else x }
  function Max(x: int, y: int): int { if x < y then y else x }

  // Division of C++, which truncates toward zero.
  function Quotient(a: int, b: int): int
    requires b != 0
  {
    if a >= 0 then a / b else -((-a) / b)
  }

  // It leaves a remainder smaller than the divisor and of the dividend's sign ...
  predicate Truncates(a: int, b: int, q: int) {
    var rest := a - q * b;
    (if b > 0 then -b < rest < b else b < rest < -b) && (rest > 0 ==> a > 0) && (rest < 0 ==> a < 0)
  }

  lemma QuotientTruncates(a: int, b: int)
    requires b != 0
    ensures Truncates(a, b, Quotient(a, b))
  {
    if a >= 0 {
      NaturalTruncates(a, b, a / b, a % b);
    } else {
      NegativeTruncates(a, b, (-a) / b, (-a) % b);
    }
  }

  lemma NaturalTruncates(a: int, b: int, q: int, r: int)
    requires b != 0 && a >= 0 && q == a / b && r == a % b
    ensures Truncates(a, b, q)
  {
    Division(a, b, q, r);
    Divides(a, b, q, r);
  }

  lemma NegativeTruncates(a: int, b: int, q: int, r: int)
    requires b != 0 && a < 0 && q == (-a) / b && r == (-a) % b
    ensures Truncates(a, b, -q)
  {
    Division(-a, b, q, r);
    Negated(q, b);
    Divides(a, b, -q, -r);
  }

  lemma Division(n: int, b: int, q: int, r: int)
    requires b != 0 && q == n / b && r == n % b
    ensures n == q * b + r && 0 <= r && (r < b || r < -b)
  {
  }

  lemma Divides(a: int, b: int, q: int, rest: int)
    requires b != 0 && a == q * b + rest && (if b > 0 then -b < rest < b else b < rest < -b)
    requires (rest > 0 ==> a > 0) && (rest < 0 ==> a < 0)
    ensures Truncates(a, b, q)
  {
  }

  lemma Negated(q: int, b: int)
    ensures (-q) * b == -(q * b)
  {
  }

  // ... and is the only number that does.
  lemma OnlyOneTruncates(a: int, b: int, q: int, t: int)
    requires b != 0 && Truncates(a, b, q) && Truncates(a, b, t)
    ensures q == t
  {
    assert (a - q * b) - (a - t * b) == (t - q) * b;
    if q != t { Apart(t - q, b); }
  }

  lemma Apart(d: int, b: int)
    requires b != 0 && d != 0
    ensures (d * b >= b && d * b >= -b) || (d * b <= b && d * b <= -b)
  {
    if d > 0 && b > 0 { assert d * b >= b; }
    if d > 0 && b < 0 { assert d * b <= b; }
    if d < 0 && b > 0 { assert d * b <= -b; }
    if d < 0 && b < 0 { assert d * b >= -b; }
  }
}

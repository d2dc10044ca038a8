/** Types and numbers that several parts of the model share. */
module Basics {
  datatype Option<T> = None | Some(value: T)

  type Byte = x: int | 0 <= x < 256

  function Pow256(n: nat): (p: nat)
    ensures p > 0
  {
    if n == 0 then 1 else 256 * Pow256(n - 1)
  }

  // ----- quotients

  lemma {:induction false} Divided(x: nat, d: nat)
    requires d > 0
    ensures x == d * (x / d) + x % d
  {
  }

  lemma {:induction false} Distributes(q: int, a: int, b: int)
    ensures q * (a + b) == q * a + q * b
  {
  }

  lemma {:induction false} Monotone(q: nat, a: int, b: int)
    requires a <= b
    ensures 0 <= q * (b - a) && q * a <= q * b
  {
    Distributes(q, a, b - a);
  }

  /** Quotient and remainder are unique. */
  lemma {:induction false} Unique(x: nat, d: nat, k: nat, r: nat)
    requires x == d * k + r && r < d
    ensures x / d == k && x % d == r
  {
    var e: int := x / d;
    Divided(x, d);
    if e > k {
      Monotone(d, k + 1, e);
      Distributes(d, k, 1);
    } else if e < k {
      Monotone(d, e + 1, k);
      Distributes(d, e, 1);
    }
  }

  /** Dividing twice is dividing by the product. */
  lemma {:induction false} DivDiv(v: nat, a: nat, b: nat)
    requires a > 0 && b > 0
    ensures a * b > 0 && v / (a * b) == v / a / b
  {
    Divided(v, a);
    Divided(v / a, b);
    Monotone(a, 1, b);
    TwoDivisions(v, a, b, v / a, v % a, v / a / b, v / a % b);
  }

  lemma {:induction false} TwoDivisions(v: nat, a: nat, b: nat, u: nat, s: nat, h: nat, r: nat)
    requires s < a && r < b && v == a * u + s && u == b * h + r
    ensures a * b > 0 && v / (a * b) == h
  {
    Distributes(a, b * h, r);
    Associates(a, b, h);
    Monotone(a, r + 1, b);
    Distributes(a, r, 1);
    Unique(v, a * b, h, a * r + s);
  }

  lemma {:induction false} Associates(a: int, b: int, c: int)
    ensures a * (b * c) == (a * b) * c
  {
  }
}

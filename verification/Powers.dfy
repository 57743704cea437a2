/** Powers of two and division, for shifts and remainders by a variable amount. */
module Powers {

  function Pow2(n: nat): (p: nat)
    ensures p > 0
  {
    if n == 0 then 1 else 2 * Pow2(n - 1)
  }

  lemma {:induction false} Pow2Grows(n: nat, m: nat)
    requires n <= m
    ensures Pow2(n) <= Pow2(m)
  {
    if n < m {
      Pow2Grows(n, m - 1);
    }
  }

  lemma {:induction false} Pow2Adds(n: nat, m: nat)
    ensures Pow2(n + m) == Pow2(n) * Pow2(m)
  {
    if n > 0 {
      Pow2Adds(n - 1, m);
      Doubled(Pow2(n - 1), Pow2(m));
    }
  }

  /** The kernel's fls: the number of the highest bit set, counted from 1. */
  function Fls(x: nat): nat {
    if x == 0 then 0 else 1 + Fls(x / 2)
  }

  lemma {:induction false} FlsBounds(x: nat)
    requires x > 0
    ensures Fls(x) > 0 && Pow2(Fls(x) - 1) <= x < 2 * Pow2(Fls(x) - 1)
  {
    if x > 1 {
      FlsBounds(x / 2);
    }
  }

  /** Shifting right one bit at a time. */
  function Shr(d: nat, m: nat): nat {
    if m == 0 then d else Shr(d / 2, m - 1)
  }

  function Div(a: nat, p: nat): nat
    requires p > 0
  {
    a / p
  }

  lemma SameQuotient(p: nat, x: int, y: int, rx: nat, ry: nat)
    requires rx < p && ry < p && p * x + rx == p * y + ry
    ensures x == y
  {
    if x > y {
      Times(p, y + 1, x);
    } else if x < y {
      Times(p, x + 1, y);
    }
  }

  lemma Times(p: nat, a: int, b: int)
    requires a <= b
    ensures p * a <= p * b
  {
  }

  lemma Remainder(a: nat, b: nat, q: nat, r: nat)
    requires 0 <= r < b && a == b * q + r
    ensures a / b == q && a % b == r
  {
    SameQuotient(b, a / b, q, a % b, r);
  }

  lemma Doubled(p: nat, q: nat)
    ensures 2 * (p * q) == (2 * p) * q
  {
  }

  lemma DivideTwice(d: nat, p: nat)
    requires p > 0
    ensures d / 2 / p == d / (2 * p)
  {
    var q, r := d / 2 / p, d / 2 % p;
    assert d / 2 == p * q + r;
    Doubled(p, q);
    Remainder(d, 2 * p, q, 2 * r + d % 2);
  }

  lemma {:induction false} ShrDivides(d: nat, m: nat)
    ensures Shr(d, m) == Div(d, Pow2(m))
  {
    if m > 0 {
      ShrDivides(d / 2, m - 1);
      DivideTwice(d, Pow2(m - 1));
    }
  }
}

// Remainders: the little arithmetic the ring buffers and the allocator need.

module Modular {

  lemma Products(k: int, d: int)
    requires d > 0
    ensures k >= 1 ==> k * d >= d
    ensures k <= -1 ==> k * d <= -d
  {
    if k >= 1 { assert (k - 1) * d >= 0; } else if k <= -1 { assert (-1 - k) * d >= 0; }
  }

  lemma Distribute(p: int, q: int, d: int)
    ensures (p + q) * d == p * d + q * d && (p - q) * d == p * d - q * d
  {
  }

  lemma ModIs(n: int, q: int, m: int, d: int)
    requires 0 <= m < d && n == q * d + m
    ensures n % d == m && n / d == q
  {
    Distribute(n / d, q, d);
    Products(n / d - q, d);
  }

  lemma ModAdd(a: int, b: int, d: int)
    requires d > 0
    ensures (a % d + b) % d == (a + b) % d
  {
    var x := a % d + b;
    Distribute(a / d, x / d, d);
    ModIs(a + b, a / d + x / d, x % d, d);
  }

  // Fewer than d apart, only equal numbers leave the same remainder.
  lemma ModApart(x: int, y: int, d: int)
    requires x < y < x + d
    ensures x % d != y % d
  {
    Distribute(y / d, x / d, d);
    Products(y / d - x / d, d);
  }

  lemma MultipleAdd(s: int, t: int, d: int)
    requires d > 0 && s % d == 0 && t % d == 0
    ensures (s + t) % d == 0 && (s - t) % d == 0
  {
    Distribute(s / d, t / d, d);
    ModIs(s + t, s / d + t / d, 0, d);
    ModIs(s - t, s / d - t / d, 0, d);
  }

  lemma Small(x: int, d: int)
    requires 0 <= x < d
    ensures x % d == x
  {
    ModIs(x, 0, x, d);
  }

  // Between two different multiples there is room for d.
  lemma MultipleGap(s: int, t: int, d: int)
    requires d > 0 && s % d == 0 && t % d == 0 && s < t
    ensures s + d <= t
  {
    MultipleAdd(t, s, d);
    if t - s < d { Small(t - s, d); }
  }

  lemma MultipleOf(k: int, d: int)
    requires d > 0
    ensures (k * d) % d == 0
  {
    ModIs(k * d, k, 0, d);
  }

  lemma Associate(p: int, q: int, d: int)
    ensures p * (q * d) == p * q * d
  {
  }

  // A remainder by a multiple of e of a multiple of e.
  lemma RemainderIsMultiple(x: int, d: int, e: int)
    requires e > 0 && d > 0 && x % e == 0 && d % e == 0
    ensures (x % d) % e == 0
  {
    var q, m := x / d, d / e;
    Associate(q, m, e);
    MultipleOf(q * m, e);
    assert x % d == x - q * d && q * d == q * m * e;
    MultipleAdd(x, q * d, e);
  }
}

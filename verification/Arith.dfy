/** Integer division facts used by the planner's step and bucket arithmetic. */
module Arith {

  /** `t` rounded down to a multiple of `m`: `toStartOfInterval` over an interval of length `m`. */
  function Floor(t: int, m: int): (r: int)
    requires m > 0
    ensures r <= t < r + m
  {
    t - t % m
  }

  /** `t` rounded up to a multiple of `m`. */
  function Ceil(t: int, m: int): (r: int)
    requires m > 0
    ensures t <= r < t + m
  {
    Floor(t + m - 1, m)
  }

  lemma MulDivMod(q: int, m: int)
    requires m > 0
    ensures (q * m) % m == 0 && (q * m) / m == q
  {
    DivUnique(q * m, m, q, 0);
  }

  lemma {:induction false} DivUnique(x: int, m: int, q: int, r: int)
    requires m > 0 && x == q * m + r && 0 <= r < m
    ensures x / m == q && x % m == r
  {
    var q', r' := x / m, x % m;
    assert (q' - q) * m == r - r';
    if q' - q >= 1 { MulMono(1, q' - q, m); }
    if q - q' >= 1 { MulMono(1, q - q', m); }
  }

  lemma MulMono(a: int, b: int, m: int)
    requires a <= b && m >= 0
    ensures a * m <= b * m
  {
  }

  lemma DivMono(a: int, b: int, m: int)
    requires m > 0 && a <= b
    ensures a / m <= b / m
  {
    if b / m + 1 <= a / m { MulMono(b / m + 1, a / m, m); }
  }

  /** Rounding down is the greatest multiple not above. */
  lemma FloorIsMultiple(t: int, m: int)
    requires m > 0
    ensures Floor(t, m) == t / m * m && Floor(t, m) % m == 0 && Floor(t, m) / m == t / m
  {
    MulDivMod(t / m, m);
  }

  lemma FloorAtLeast(t: int, m: int, x: int)
    requires m > 0 && x % m == 0
    ensures x <= Floor(t, m) <==> x <= t
  {
    FloorIsMultiple(t, m);
    if x <= t { DivMono(x, t, m); MulMono(x / m, t / m, m); }
  }

  lemma CeilAtMost(t: int, m: int, x: int)
    requires m > 0 && x % m == 0
    ensures Ceil(t, m) <= x <==> t <= x
  {
    FloorIsMultiple(t + m - 1, m);
    if t <= x {
      DivMono(t + m - 1, x + m - 1, m);
      DivUnique(x + m - 1, m, x / m, m - 1);
      MulMono((t + m - 1) / m, x / m, m);
    }
  }

  /** Rounding down in two steps, the second a multiple of the first, is rounding down once. */
  lemma FloorFloor(t: int, fine: int, coarse: int)
    requires fine > 0 && coarse > 0 && coarse % fine == 0
    ensures Floor(Floor(t, fine), coarse) == Floor(t, coarse)
  {
    var c := Floor(t, coarse);
    FloorIsMultiple(t, coarse);
    MultipleOfMultiple(c, fine, coarse);
    FloorAtLeast(t, fine, c);
    var f := Floor(t, fine);
    assert c <= f < c + coarse;
    assert f == c / coarse * coarse + (f - c);
    DivUnique(f, coarse, c / coarse, f - c);
  }

  lemma MultipleOfMultiple(x: int, fine: int, coarse: int)
    requires fine > 0 && coarse > 0 && coarse % fine == 0 && x % coarse == 0
    ensures x % fine == 0
  {
    var k := coarse / fine;
    assert coarse == k * fine;
    assert x == (x / coarse) * (k * fine) == (x / coarse * k) * fine;
    MulDivMod(x / coarse * k, fine);
  }
}

/** Python's built-in `round(x)` on a rational x = n / d: the nearest integer,
    ties going to the even neighbour ("banker's rounding"). */
module PyRound {

  function Abs(x: int): nat
  {
    if x < 0 then -x else x
  }

  /** Python's floor division with remainder, (n // d, n % d), for a positive
      d, by repeated subtraction (or addition) of d, so that unfolding it
      involves no product. */
  function DivMod(n: int, d: int): (r: (int, int))
    requires d > 0
    ensures 0 <= r.1 < d
    ensures n >= 0 ==> r.0 >= 0
    decreases if n >= 0 then n else d - n
  {
    if 0 <= n < d then (0, n)
    else if n >= d then (DivMod(n - d, d).0 + 1, DivMod(n - d, d).1)
    else (DivMod(n + d, d).0 - 1, DivMod(n + d, d).1)
  }

  /** The quotient and remainder recombine to n. */
  lemma {:induction false} DivModSpec(n: int, d: int)
    requires d > 0
    ensures DivMod(n, d).0 * d + DivMod(n, d).1 == n
    decreases if n >= 0 then n else d - n
  {
    if 0 <= n < d {
    } else if n >= d {
      DivModSpec(n - d, d);
      var q := DivMod(n - d, d).0;
      assert (q + 1) * d == q * d + d;
    } else {
      DivModSpec(n + d, d);
      var q := DivMod(n + d, d).0;
      assert (q - 1) * d == q * d - d;
    }
  }

  /** a * b for b >= 0 as repeated addition, so that unfolding it involves no
      product. */
  function Times(a: int, b: int): (r: int)
    requires b >= 0
    ensures a >= 0 ==> r >= 0
  {
    if b == 0 then 0 else Times(a, b - 1) + a
  }

  lemma {:induction false} TimesIsProduct(a: int, b: int)
    requires b >= 0
    ensures Times(a, b) == a * b
  {
    if b > 0 {
      TimesIsProduct(a, b - 1);
      assert a * b == a * (b - 1) + a;
    }
  }

  /** round(n / d) for a positive denominator d. */
  function Round(n: int, d: int): (r: int)
    requires d > 0
    ensures n >= 0 ==> r >= 0
  {
    var q := DivMod(n, d).0;
    var m := DivMod(n, d).1;
    if 2 * m < d then q
    else if 2 * m > d then q + 1
    else if q % 2 == 0 then q
    else q + 1
  }

  /** round(n / d) is within half a unit of n / d, and a tie goes to the
      even neighbour. */
  lemma RoundNearest(n: int, d: int)
    requires d > 0
    ensures 2 * Abs(n - Round(n, d) * d) <= d
    ensures 2 * Abs(n - Round(n, d) * d) == d ==> Round(n, d) % 2 == 0
  {
    var q := DivMod(n, d).0;
    var m := DivMod(n, d).1;
    DivModSpec(n, d);
    assert n - q * d == m;
    assert n - (q + 1) * d == m - d;
  }

  /** How far apart r*d and p*d lie for a positive d, by how far apart r and
      p are. */
  lemma MulGap(r: int, p: int, d: int)
    requires d > 0
    ensures r - p >= 2 ==> r * d - p * d >= 2 * d
    ensures r - p <= -2 ==> r * d - p * d <= -2 * d
    ensures r - p == 1 ==> r * d - p * d == d
    ensures r - p == -1 ==> r * d - p * d == -d
  {
    var k := r - p;
    assert r * d - p * d == k * d;
    if k >= 2 {
      assert k * d == (k - 2) * d + 2 * d;
      assert (k - 2) * d >= 0;
    } else if k <= -2 {
      assert k * d == -((-k - 2) * d) - 2 * d;
      assert (-k - 2) * d >= 0;
    }
  }

  lemma EvenNotNeighbours(a: int, b: int)
    requires a % 2 == 0 && b % 2 == 0
    ensures a - b != 1 && a - b != -1
  {
  }

  /** Two integers r and p, with rd and pd standing for r*d and p*d, that are
      both within d/2 of n and even on a tie are equal. */
  lemma NearestEvenUnique(n: int, d: int, r: int, p: int, rd: int, pd: int)
    requires d > 0
    requires 2 * Abs(n - rd) <= d && (2 * Abs(n - rd) == d ==> r % 2 == 0)
    requires 2 * Abs(n - pd) <= d && (2 * Abs(n - pd) == d ==> p % 2 == 0)
    requires r - p >= 2 ==> rd - pd >= 2 * d
    requires r - p <= -2 ==> rd - pd <= -2 * d
    requires r - p == 1 ==> rd - pd == d
    requires r - p == -1 ==> rd - pd == -d
    ensures r == p
  {
    if r % 2 == 0 && p % 2 == 0 {
      EvenNotNeighbours(r, p);
    }
  }

  /** The two clauses of Round's contract single out its result: any integer
      within half a unit of n / d, and even on a tie, is Round(n, d). */
  lemma RoundUnique(n: int, d: int, r: int)
    requires d > 0
    requires 2 * Abs(n - r * d) <= d
    requires 2 * Abs(n - r * d) == d ==> r % 2 == 0
    ensures r == Round(n, d)
  {
    var p := Round(n, d);
    RoundNearest(n, d);
    MulGap(r, p, d);
    NearestEvenUnique(n, d, r, p, r * d, p * d);
  }
}

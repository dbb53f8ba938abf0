/** Whole numbers as a browser reads them: IEEE 754 doubles, rounded to nearest with ties to even. */
module Numbers {
  import opened Outcomes

  /** The whole numbers up to here are doubles; beyond, only the multiples of a growing power of two are. */
  const EXACT_LIMIT := 9007199254740992

  const TWO_TO_64 := 18446744073709551616

  function Square(n: nat): nat {
    n * n
  }

  /** Two to the 1024: what rounds to this or more is infinite. */
  function FirstInfinite(): nat {
    Square(Square(Square(Square(TWO_TO_64))))
  }

  /** The multiple of `unit` nearest to n; of two equally near, the even one. */
  function Nearest(n: nat, unit: nat): nat
    requires unit > 0
  {
    var q, r := n / unit, n % unit;
    if 2 * r < unit || (2 * r == unit && q % 2 == 0) then q * unit else (q + 1) * unit
  }

  /** The spacing doubles until 53 bits are enough. */
  function RoundedFrom(n: nat, unit: nat): nat
    requires unit > 0
    decreases if n >= unit then n - unit else 0
  {
    if n < EXACT_LIMIT * unit then Nearest(n, unit) else RoundedFrom(n, 2 * unit)
  }

  /** The double a whole number in a response is read as; None when it is not finite. */
  function Rounded(n: int): Option<int> {
    var m: int := RoundedFrom(if n < 0 then -n else n, 1);
    if m >= FirstInfinite() then None else Some(if n < 0 then -m else m)
  }

  lemma SmallIsFinite(m: nat)
    requires m <= EXACT_LIMIT
    ensures m < FirstInfinite()
  {
  }

  lemma RoundedIsExact(n: int)
    requires -EXACT_LIMIT <= n <= EXACT_LIMIT
    ensures Rounded(n) == Some(n)
  {
    var m: nat := if n < 0 then -n else n;
    SmallIsFinite(m);
    hide FirstInfinite;
    if m < EXACT_LIMIT {
      assert RoundedFrom(m, 1) == Nearest(m, 1) == m;
    } else {
      assert RoundedFrom(m, 1) == RoundedFrom(m, 2) == Nearest(m, 2) == m;
    }
  }

  /** From here on two whole numbers can be one double. */
  lemma NeighborsCoincide()
    ensures Rounded(EXACT_LIMIT + 1) == Rounded(EXACT_LIMIT) == Some(EXACT_LIMIT)
  {
    RoundedIsExact(EXACT_LIMIT);
    SmallIsFinite(EXACT_LIMIT);
    hide FirstInfinite;
    assert RoundedFrom(EXACT_LIMIT + 1, 1) == RoundedFrom(EXACT_LIMIT + 1, 2) == Nearest(EXACT_LIMIT + 1, 2);
  }

  lemma NearestIsNear(n: nat, unit: nat)
    requires 0 < unit <= n
    ensures 2 * Nearest(n, unit) >= n
  {
    var q, r := n / unit, n % unit;
    assert n == q * unit + r && q >= 1;
    assert q * unit >= unit > r;
    assert (q + 1) * unit == q * unit + unit;
  }

  lemma {:induction false} RoundingIsNear(n: nat, unit: nat)
    requires 0 < unit <= n
    ensures 2 * RoundedFrom(n, unit) >= n
    decreases n - unit
  {
    if n < EXACT_LIMIT * unit {
      NearestIsNear(n, unit);
    } else {
      RoundingIsNear(n, 2 * unit);
    }
  }

  /** Large enough numbers are infinite. */
  lemma HugeIsInfinite(n: nat)
    requires n >= 2 * FirstInfinite()
    ensures Rounded(n).None?
  {
    SmallIsFinite(1);
    hide FirstInfinite;
    RoundingIsNear(n, 1);
  }
}

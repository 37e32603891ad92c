/** The retry delay of the mailer, in the 64-bit arithmetic the program uses. */
module Backoff {
  const MAX_INT64 := 0x7FFF_FFFF_FFFF_FFFF
  const TWO64 := 0x1_0000_0000_0000_0000
  const CAP := 30_000_000_000          // 30 s in nanoseconds

  /** Two's-complement wrap-around of a 64-bit result. */
  function Wrap64(x: int): int {
    var m := x % TWO64;
    if m > MAX_INT64 then m - TWO64 else m
  }

  function Pow2(k: nat): (p: nat)
    ensures p >= 1
  {
    if k == 0 then 1 else 2 * Pow2(k - 1)
  }

  /** backoff * Duration(1 << (attempt - 1)), capped; both the shift and the product wrap. */
  function Wait(backoff: int, attempt: nat): int
    requires attempt >= 1
  {
    var w := Wrap64(backoff * Wrap64(Pow2(attempt - 1)));
    if w > CAP then CAP else w
  }

  /** The delay the design asks for. */
  function Ideal(backoff: int, attempt: nat): int
    requires attempt >= 1
  {
    if backoff * Pow2(attempt - 1) > CAP then CAP else backoff * Pow2(attempt - 1)
  }

  lemma {:induction false} Pow2Monotone(i: nat, j: nat)
    requires i <= j
    ensures Pow2(i) <= Pow2(j)
  {
    if i < j { Pow2Monotone(i, j - 1); }
  }

  lemma ProductMonotone(b: nat, i: nat, j: nat)
    requires i <= j
    ensures b * Pow2(i) <= b * Pow2(j)
  {
    Pow2Monotone(i, j);
    assert b * (Pow2(j) - Pow2(i)) >= 0;
  }

  lemma WrapValue(x: int)
    ensures 0 <= x <= MAX_INT64 ==> Wrap64(x) == x
    ensures MAX_INT64 < x < TWO64 ==> Wrap64(x) == x - TWO64
    ensures -MAX_INT64 - 1 <= x < 0 ==> Wrap64(x) == x
  {
  }

  /** Scaling by a positive factor never shrinks, and by at least two at least doubles. */
  lemma ScaleGrows(b: nat, p: nat)
    requires b >= 1
    ensures b * p >= p && (b >= 2 ==> b * p >= 2 * p)
  {
    assert b * p == p + (b - 1) * p;
    if b >= 2 { assert b * p == 2 * p + (b - 2) * p; }
  }

  /** A delay whose exact product fits 64 bits is the ideal one. */
  lemma WaitFits(b: nat, attempt: nat)
    requires 1 <= b && attempt >= 1 && b * Pow2(attempt - 1) <= MAX_INT64
    ensures Wait(b, attempt) == Ideal(b, attempt)
  {
    hide Wrap64, Pow2;
    var p := Pow2(attempt - 1);
    ScaleGrows(b, p);
    WrapValue(p);
    WrapValue(b * p);
  }

  /** The first delay that does not fit comes out negative. */
  lemma {:induction false} WaitOverflows(b: nat, attempt: nat)
    requires 1 <= b && attempt >= 2 && b * Pow2(attempt - 1) > MAX_INT64 && b * Pow2(attempt - 2) <= MAX_INT64
    ensures Wait(b, attempt) < 0
  {
    hide Wrap64;
    var q, p := Pow2(attempt - 2), Pow2(attempt - 1);
    assert p == 2 * q;
    Doubled(b, q);
    ScaleGrows(b, q);
    WrapValue(p);
    WrapValue(b * p);
    if p > MAX_INT64 {
      assert b == 1;
      WrapValue(p - TWO64);
    }
  }

  lemma Doubled(b: nat, q: nat)
    ensures b * (2 * q) == 2 * (b * q)
  {
  }

  lemma {:induction false} FirstOverflow(b: nat, k: nat) returns (i: nat)
    requires 1 <= b <= MAX_INT64 && b * Pow2(k) > MAX_INT64
    ensures 1 <= i <= k && b * Pow2(i) > MAX_INT64 && b * Pow2(i - 1) <= MAX_INT64
  {
    if b * Pow2(k - 1) <= MAX_INT64 {
      i := k;
    } else {
      i := FirstOverflow(b, k - 1);
    }
  }

  /** Every delay of a job is the ideal one exactly when the largest product fits 64 bits. */
  lemma WaitsIdealIff(b: nat, retries: nat)
    requires 1 <= b <= MAX_INT64 && retries >= 2
    ensures (forall attempt: nat | 1 <= attempt < retries :: Wait(b, attempt) == Ideal(b, attempt))
              <==> b * Pow2(retries - 2) <= MAX_INT64
  {
    if b * Pow2(retries - 2) <= MAX_INT64 {
      forall attempt: nat | 1 <= attempt < retries ensures Wait(b, attempt) == Ideal(b, attempt) {
        ProductMonotone(b, attempt - 1, retries - 2);
        WaitFits(b, attempt);
      }
    } else {
      var i := FirstOverflow(b, retries - 2);
      WaitOverflows(b, i + 1);
    }
  }

  /** Ideal delays are positive, capped, and never shrink. */
  lemma IdealGrows(b: nat, i: nat, j: nat)
    requires 1 <= b && 1 <= i <= j
    ensures 0 < Ideal(b, i) <= Ideal(b, j) <= CAP
  {
    ProductMonotone(b, i - 1, j - 1);
    assert (b - 1) * Pow2(i - 1) >= 0;
    assert b * Pow2(i - 1) == (b - 1) * Pow2(i - 1) + Pow2(i - 1);
  }

  function Sum(ws: seq<int>): int { if ws == [] then 0 else Sum(ws[..|ws| - 1]) + ws[|ws| - 1] }

  lemma {:induction false} SumBounded(ws: seq<int>)
    requires forall i | 0 <= i < |ws| :: ws[i] <= CAP
    ensures Sum(ws) <= CAP * |ws|
  {
    if ws != [] { SumBounded(ws[..|ws| - 1]); }
  }
}

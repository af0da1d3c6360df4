/**
 * The time-mask reconciliation of Spectra.format: when a window selects
 * more columns than expected the mask is intersected with itself rolled
 * back by one, and when it selects fewer it is united with itself rolled
 * forward by one.
 */
module Masks {
  import opened Matrices

  /** `m & numpy.roll(m, -1)`. */
  function Shrink(m: seq<bool>): (r: seq<bool>)
    ensures |r| == |m|
    ensures forall i :: 0 <= i < |m| && r[i] ==> m[i]
  {
    seq(|m|, i requires 0 <= i < |m| => m[i] && m[(i + 1) % |m|])
  }

  /** `m | numpy.roll(m, 1)`. */
  function Grow(m: seq<bool>): (r: seq<bool>)
    ensures |r| == |m|
    ensures forall i :: 0 <= i < |m| && m[i] ==> r[i]
  {
    seq(|m|, i requires 0 <= i < |m| => m[i] || m[(i - 1) % |m|])
  }

  /** floor(span / step) as numpy computes it; a zero step gives +inf. */
  datatype Bound = Finite(n: int) | Infinite

  function ExpectedColumns(span: real, step: real): (b: Bound)
    ensures b.Infinite? <==> step == 0.0
    ensures b.Finite? ==> b.n as real <= span / step < b.n as real + 1.0
  {
    if step == 0.0 then Infinite else Finite((span / step).Floor)
  }

  /** The mask after reconciliation against the expected column count. */
  function Reconcile(m: seq<bool>, expected: Bound): (r: seq<bool>)
    ensures |r| == |m|
    ensures expected.Finite? && Count(m) > expected.n ==> r == Shrink(m)
    ensures (expected.Infinite? || Count(m) < expected.n) ==> r == Grow(m)
    ensures expected.Finite? && Count(m) == expected.n ==> r == m
  {
    if expected.Finite? && Count(m) > expected.n then Shrink(m)
    else if expected.Infinite? || Count(m) < expected.n then Grow(m)
    else m
  }

  /** The mask of length n whose set cells are exactly s..e-1. */
  function Run(n: nat, s: nat, e: nat): (m: seq<bool>)
    ensures |m| == n && forall i :: 0 <= i < n ==> (m[i] <==> s <= i < e)
  {
    seq(n, i requires 0 <= i < n => s <= i < e)
  }

  lemma {:induction false} CountRun(n: nat, s: nat, e: nat)
    requires s <= e <= n
    ensures Count(Run(n, s, e)) == e - s
  {
    var m := Run(n, s, e);
    if n > 0 {
      if e == 0 {
        CountNone(m);
      } else if s == 0 {
        assert m[1..] == Run(n - 1, 0, e - 1);
        CountRun(n - 1, 0, e - 1);
      } else {
        assert m[1..] == Run(n - 1, s - 1, e - 1);
        CountRun(n - 1, s - 1, e - 1);
      }
    }
  }

  lemma ModSmall(a: int, n: int)
    requires 0 <= a < n
    ensures a % n == a
  {
  }

  lemma ModWrap(n: int)
    requires n > 0
    ensures n % n == 0 && (-1) % n == n - 1
  {
  }

  /** On one run that does not fill the mask, Shrink clears exactly its last cell. */
  lemma ShrinkRun(n: nat, s: nat, e: nat)
    requires s < e <= n && e - s < n
    ensures Shrink(Run(n, s, e)) == Run(n, s, e - 1)
    ensures Count(Shrink(Run(n, s, e))) == Count(Run(n, s, e)) - 1
  {
    var m := Run(n, s, e);
    forall i | 0 <= i < n ensures Shrink(m)[i] == Run(n, s, e - 1)[i] {
      if i + 1 < n {
        ModSmall(i + 1, n);
      } else {
        ModWrap(n);
      }
    }
    assert Shrink(m) == Run(n, s, e - 1);
    CountRun(n, s, e);
    CountRun(n, s, e - 1);
  }

  /** On one run that does not fill the mask, Grow sets exactly the cell after it (cyclically). */
  lemma GrowRun(n: nat, s: nat, e: nat)
    requires s < e <= n && e - s < n
    ensures Grow(Run(n, s, e)) == Run(n, s, e)[e % n := true]
    ensures Count(Grow(Run(n, s, e))) == Count(Run(n, s, e)) + 1
  {
    var m := Run(n, s, e);
    var k := if e < n then e else 0;
    if e < n {
      ModSmall(e, n);
    } else {
      ModWrap(n);
    }
    forall i | 0 <= i < n ensures Grow(m)[i] == (m[i] || i == k) {
      if i > 0 {
        ModSmall(i - 1, n);
      } else {
        ModWrap(n);
      }
    }
    assert Grow(m) == m[k := true];
    CountUpdate(m, e % n, true);
  }

  /**
   * For a single run of selected columns that does not fill the mask,
   * reconciliation moves the count exactly one step toward the expected
   * count, so the result equals it only when the count was off by one.
   */
  lemma ReconcileRun(n: nat, s: nat, e: nat, expected: Bound)
    requires s < e <= n && e - s < n
    ensures var before := Count(Run(n, s, e));
            var after := Count(Reconcile(Run(n, s, e), expected));
            before == e - s &&
            (expected.Infinite? ==> after == before + 1) &&
            (expected.Finite? ==> after == if before > expected.n then before - 1
                                           else if before < expected.n then before + 1
                                           else before)
  {
    CountRun(n, s, e);
    ShrinkRun(n, s, e);
    GrowRun(n, s, e);
  }
}

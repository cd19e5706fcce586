/** The platform's fee: basis points of the subtotal, rounded to whole cents with halves up. */
module Fees {

  /** `Math.round(p / 10000)`: the largest integer not above p / 10000 + 1/2. */
  function RoundShare(p: nat): nat {
    (p + 5000) / 10000
  }

  function PlatformFeeCents(subtotalCents: int, bps: int): nat {
    if subtotalCents <= 0 || bps <= 0 then 0 else RoundShare(subtotalCents * bps)
  }

  /** The fee is the one integer whose distance to the exact share lies in (-1/2, 1/2] of a cent. */
  lemma {:induction false} FeeIsNearest(subtotalCents: nat, bps: nat, fee: int)
    ensures fee == PlatformFeeCents(subtotalCents, bps) <==>
              -5000 < 10000 * fee - subtotalCents * bps <= 5000
  {
    var p := subtotalCents * bps;
    if subtotalCents == 0 || bps == 0 { assert p == 0; }
    assert PlatformFeeCents(subtotalCents, bps) == RoundShare(p);
  }

  lemma {:induction false} ProductMonotone(a: nat, b: nat, c: nat, d: nat)
    requires a <= c && b <= d
    ensures a * b <= c * d
  {
    assert a * b <= c * b <= c * d by {
      assert (c - a) * b >= 0;
      assert c * (d - b) >= 0;
    }
  }

  /** A larger subtotal or a larger rate never lowers the fee. */
  lemma {:induction false} FeeMonotone(s: int, bps: int, s': int, bps': int)
    requires s <= s' && bps <= bps'
    ensures PlatformFeeCents(s, bps) <= PlatformFeeCents(s', bps')
  {
    if s > 0 && bps > 0 { ProductMonotone(s, bps, s', bps'); }
  }

  /** Up to 10000 basis points the fee is within the subtotal; without a positive subtotal and rate there is none. */
  lemma {:induction false} FeeWithinSubtotal(s: int, bps: int)
    requires bps <= 10000
    ensures 0 <= PlatformFeeCents(s, bps) <= if s > 0 then s else 0
    ensures s <= 0 || bps <= 0 ==> PlatformFeeCents(s, bps) == 0
    ensures PlatformFeeCents(s, 10000) == if s > 0 then s else 0
  {
    if s > 0 && bps > 0 { ProductMonotone(s, bps, s, 10000); }
  }

  function Sum(xs: seq<nat>): nat {
    if xs == [] then 0 else Sum(xs[..|xs| - 1]) + xs[|xs| - 1]
  }

  function SumFees(xs: seq<nat>, bps: nat): nat {
    if xs == [] then 0 else SumFees(xs[..|xs| - 1], bps) + PlatformFeeCents(xs[|xs| - 1], bps)
  }

  lemma {:induction false} FeesNearShare(xs: seq<nat>, bps: nat)
    ensures -5000 * |xs| <= 10000 * SumFees(xs, bps) - Sum(xs) * bps <= 5000 * |xs|
    ensures xs != [] ==> -5000 * |xs| < 10000 * SumFees(xs, bps) - Sum(xs) * bps
  {
    if xs != [] {
      var n := |xs| - 1;
      FeesNearShare(xs[..n], bps);
      FeeIsNearest(xs[n], bps, PlatformFeeCents(xs[n], bps));
      Distribute(Sum(xs[..n]), xs[n], bps);
      hide PlatformFeeCents;
    }
  }

  lemma {:induction false} Distribute(a: nat, b: nat, c: nat)
    ensures (a + b) * c == a * c + b * c
  {
  }

  /** Splitting a checkout into n orders moves the total fee by at most n/2 cents. */
  lemma {:induction false} SplitMovesFee(xs: seq<nat>, bps: nat)
    ensures -(|xs| as int) <= 2 * (SumFees(xs, bps) - PlatformFeeCents(Sum(xs), bps)) <= |xs|
  {
    FeesNearShare(xs, bps);
    FeeIsNearest(Sum(xs), bps, PlatformFeeCents(Sum(xs), bps));
    hide PlatformFeeCents;
    if xs == [] { assert PlatformFeeCents(0, bps) == 0 by { FeeIsNearest(0, bps, 0); } }
  }

  function Cents(n: nat): seq<nat> {
    if n == 0 then [] else Cents(n - 1) + [1]
  }

  lemma {:induction false} FeesOfCents(n: nat)
    ensures Sum(Cents(n)) == n && SumFees(Cents(n), 5000) == n && |Cents(n)| == n
  {
    if n > 0 {
      FeesOfCents(n - 1);
      assert Cents(n)[..n - 1] == Cents(n - 1);
      assert PlatformFeeCents(1, 5000) == 1;
    }
  }

  /** The bound is met for every n: n one-cent orders at 50% pay n cents, one order pays half, rounded up. */
  lemma {:induction false} SplitBoundIsTight(n: nat)
    ensures SumFees(Cents(n), 5000) - PlatformFeeCents(Sum(Cents(n)), 5000) == n / 2
  {
    FeesOfCents(n);
    FeeIsNearest(n, 5000, n - n / 2);
  }
}

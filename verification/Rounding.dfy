/**
 * Prices and the two conversions every market rule is written in.
 *
 * A price is a pair of positive amounts.  `MulDown` is `asset * price` and `MulUp` is
 * `asset::multiply_and_round_up`: both turn an amount of the base asset into an amount of the
 * quote asset.  The source picks the direction from the asset ids; here the other direction is
 * written out as `Inverse()`.
 */
module Rounding {

  datatype Price = Price(base: nat, quote: nat) {
    ghost predicate Valid() {
      base > 0 && quote > 0
    }

    function Inverse(): (p: Price) {
      Price(quote, base)
    }

    /** `this <= p`: this price asks for at least as much quote per base. */
    predicate AtMost(p: Price) {
      base * p.quote <= p.base * quote
    }
  }

  function MulDown(a: nat, p: Price): (r: nat)
    requires p.base > 0
    ensures r * p.base <= a * p.quote < r * p.base + p.base
  {
    DivBounds(a * p.quote, p.base);
    a * p.quote / p.base
  }

  function MulUp(a: nat, p: Price): (r: nat)
    requires p.base > 0
    ensures r * p.base - p.base < a * p.quote <= r * p.base
  {
    DivBounds(a * p.quote + p.base - 1, p.base);
    (a * p.quote + p.base - 1) / p.base
  }

  lemma DivBounds(x: nat, d: nat)
    requires d > 0
    ensures (x / d) * d <= x < (x / d) * d + d
    ensures x / d >= 0
  {
    assert x == d * (x / d) + x % d;
  }

  // ----- order and cancellation of products

  lemma MulLe(x: int, y: int, k: int)
    requires x <= y && k >= 0
    ensures x * k <= y * k
  {
  }

  lemma MulLt(x: int, y: int, k: int)
    requires x < y && k > 0
    ensures x * k < y * k
  {
  }

  /** What takes at least as much from the smaller side keeps it smaller. */
  lemma SubtractLe(a: int, x: int, p: int, b: int, y: int, q: int)
    requires a * p <= b * q && y * q <= x * p
    ensures (a - x) * p <= (b - y) * q
  {
    assert (a - x) * p == a * p - x * p;
    assert (b - y) * q == b * q - y * q;
  }

  lemma CancelLe(x: int, y: int, k: int)
    requires x * k <= y * k && k > 0
    ensures x <= y
  {
    if y < x {
      MulLe(y + 1, x, k);
      assert false;
    }
  }

  lemma CancelLt(x: int, y: int, k: int)
    requires x * k < y * k && k > 0
    ensures x < y
  {
    if y <= x {
      MulLe(y, x, k);
    }
  }

  // ----- the two roundings as relations

  /** `r` is the greatest amount that `a` buys at `p`. */
  ghost predicate RoundedDown(r: nat, a: nat, p: Price) {
    r * p.base <= a * p.quote < (r + 1) * p.base
  }

  /** `r` is the least amount that is worth `a` at `p`. */
  ghost predicate RoundedUp(r: nat, a: nat, p: Price) {
    a * p.quote <= r * p.base && (r > 0 ==> (r - 1) * p.base < a * p.quote)
  }

  lemma DownIsRounded(a: nat, p: Price)
    requires p.base > 0
    ensures RoundedDown(MulDown(a, p), a, p)
  {
    hide MulDown;
    assert (MulDown(a, p) + 1) * p.base == MulDown(a, p) * p.base + p.base;
  }

  lemma UpIsRounded(a: nat, p: Price)
    requires p.base > 0
    ensures RoundedUp(MulUp(a, p), a, p)
  {
    hide MulUp;
    assert (MulUp(a, p) - 1) * p.base == MulUp(a, p) * p.base - p.base;
  }

  lemma OnlyOneDown(r: nat, s: nat, a: nat, p: Price)
    requires RoundedDown(r, a, p) && RoundedDown(s, a, p)
    ensures r == s
  {
    if r < s {
      MulLe(r + 1, s, p.base);
    } else if s < r {
      MulLe(s + 1, r, p.base);
    }
  }

  lemma OnlyOneUp(r: nat, s: nat, a: nat, p: Price)
    requires RoundedUp(r, a, p) && RoundedUp(s, a, p)
    ensures r == s
  {
    if r < s {
      MulLe(r, s - 1, p.base);
    } else if s < r {
      MulLe(s, r - 1, p.base);
    }
  }

  // ----- bounds that pin the two roundings down

  /** Nothing above the exact product rounds down to it, and nothing below it rounds up to it. */
  lemma DownIsGreatest(a: nat, p: Price, r: nat)
    requires p.base > 0
    ensures r <= MulDown(a, p) <==> r * p.base <= a * p.quote
  {
    hide MulDown, MulUp;
    var d := MulDown(a, p);
    if r <= d {
      MulLe(r, d, p.base);
    } else {
      MulLe(d + 1, r, p.base);
      assert (d + 1) * p.base == d * p.base + p.base;
    }
  }

  lemma UpIsLeast(a: nat, p: Price, r: nat)
    requires p.base > 0
    ensures MulUp(a, p) <= r <==> a * p.quote <= r * p.base
  {
    hide MulDown, MulUp;
    var u := MulUp(a, p);
    if u <= r {
      MulLe(u, r, p.base);
    } else {
      MulLe(r, u - 1, p.base);
      assert (u - 1) * p.base == u * p.base - p.base;
    }
  }

  lemma DownIsMonotone(a: nat, b: nat, p: Price)
    requires p.base > 0 && a <= b
    ensures MulDown(a, p) <= MulDown(b, p)
  {
    hide MulDown, MulUp;
    MulLe(a, b, p.quote);
    DownIsGreatest(b, p, MulDown(a, p));
  }

  lemma UpIsMonotone(a: nat, b: nat, p: Price)
    requires p.base > 0 && a <= b
    ensures MulUp(a, p) <= MulUp(b, p)
  {
    hide MulDown, MulUp;
    MulLe(a, b, p.quote);
    UpIsLeast(a, p, MulUp(b, p));
  }

  /** An exact lower bound on what `a` buys at `p` also holds at a price that gives more. */
  lemma ScaleBound(a: nat, r: nat, p: Price, q: Price)
    requires p.Valid() && q.Valid() && q.AtMost(p)
    requires r * p.base <= a * p.quote
    ensures r * q.base <= a * q.quote
  {
    assert r * p.base * q.base <= a * p.quote * q.base by { MulLe(r * p.base, a * p.quote, q.base); }
    assert a * p.quote * q.base <= a * q.quote * p.base by {
      MulLe(q.base * p.quote, p.base * q.quote, a);
      assert a * p.quote * q.base == q.base * p.quote * a;
      assert a * q.quote * p.base == p.base * q.quote * a;
    }
    assert r * p.base * q.base == r * q.base * p.base;
    CancelLe(r * q.base, a * q.quote, p.base);
  }

  /** An exact upper bound on what `a` buys at `q` also holds at a price that gives less. */
  lemma ScaleCap(a: nat, r: nat, p: Price, q: Price)
    requires p.Valid() && q.Valid() && q.AtMost(p)
    requires a * q.quote <= r * q.base
    ensures a * p.quote <= r * p.base
  {
    assert a * q.quote * p.base <= r * q.base * p.base by { MulLe(a * q.quote, r * q.base, p.base); }
    assert a * p.quote * q.base <= a * q.quote * p.base by { MulLe(q.base * p.quote, p.base * q.quote, a); }
    assert r * q.base * p.base == r * p.base * q.base;
    CancelLe(a * p.quote, r * p.base, q.base);
  }

  lemma AtMostTransitive(p: Price, q: Price, r: Price)
    requires p.Valid() && q.Valid() && r.Valid() && p.AtMost(q) && q.AtMost(r)
    ensures p.AtMost(r)
  {
    ScaleCap(p.base, p.quote, r, q);
  }

  /** A price that gives less quote per base gives no more, rounded either way. */
  lemma WorsePriceGivesNoMore(a: nat, p: Price, q: Price)
    requires p.Valid() && q.Valid() && q.AtMost(p)
    ensures MulDown(a, p) <= MulDown(a, q)
    ensures MulUp(a, p) <= MulUp(a, q)
  {
    hide MulDown, MulUp;
    ScaleBound(a, MulDown(a, p), p, q);
    DownIsGreatest(a, q, MulDown(a, p));
    ScaleCap(a, MulUp(a, q), p, q);
    UpIsLeast(a, p, MulUp(a, q));
  }

  /**
   * The stabilisation every match performs.  Selling `a` buys `r`; `s` is what `r` is charged.
   * The charge never exceeds `a`, buys the same `r`, is the least amount that does, and what is
   * left of `a` buys nothing.
   */
  lemma Stabilise(a: nat, p: Price)
    requires p.Valid()
    ensures var r := MulDown(a, p);
            var s := MulUp(r, p.Inverse());
            s <= a && MulDown(s, p) == r && MulDown(a - s, p) == 0
    ensures var r := MulDown(a, p);
            forall x: nat :: x < MulUp(r, p.Inverse()) ==> MulDown(x, p) < r
    ensures MulDown(a, p) > 0 ==> MulUp(MulDown(a, p), p.Inverse()) > 0
  {
    hide MulDown, MulUp;
    var r := MulDown(a, p);
    var s := MulUp(r, p.Inverse());
    UpIsLeast(r, p.Inverse(), a);
    DownIsGreatest(s, p, r);
    DownIsMonotone(s, a, p);
    RemainderBuysNothing(a, s, r, p);
    forall x: nat | x < s
      ensures MulDown(x, p) < r
    {
      UpIsLeast(r, p.Inverse(), x);
      DownIsGreatest(x, p, r);
    }
    if r > 0 && s == 0 {
      MulLe(1, r, p.base);
      assert false;
    }
  }

  lemma RemainderBuysNothing(a: nat, s: nat, r: nat, p: Price)
    requires p.Valid() && s <= a && r == MulDown(a, p)
    requires r * p.base <= s * p.quote
    ensures MulDown(a - s, p) == 0
  {
    hide MulDown, MulUp;
    assert (a - s) * p.quote == a * p.quote - s * p.quote;
    assert (a - s) * p.quote < p.base;
    if MulDown(a - s, p) >= 1 {
      DownIsGreatest(a - s, p, 1);
      assert false;
    }
  }

  // ----- two facts about ratios

  /** `r/c` is at most `b/q` and `b/q` is at most `F/D`, so `r/c` is at most `F/D`. */
  lemma RatioChain(r: nat, c: nat, b: nat, q: nat, F: nat, D: nat)
    requires r * q <= c * b && D * b <= F * q && q > 0
    ensures r * D <= c * F
  {
    MulLe(r * q, c * b, D);
    MulLe(D * b, F * q, c);
    assert r * D * q == r * q * D;
    assert c * b * D == D * b * c;
    assert F * q * c == c * F * q;
    CancelLe(r * D, c * F, q);
  }

  /** Taking no more than the pro-rata share leaves a ratio that still covers `b/q`. */
  lemma RestCovers(c: nat, pays: nat, b: nat, q: nat, F: nat, D: nat)
    requires pays * D <= c * F && D * b <= F * q && c <= D && pays <= F && D > 0
    ensures (D - c) * b <= (F - pays) * q
  {
    var d, f := D - c, F - pays;
    assert d * F <= f * D by {
      assert d * F == D * F - c * F;
      assert f * D == F * D - pays * D;
    }
    MulLe(D * b, F * q, d);
    MulLe(d * F, f * D, q);
    assert D * b * d == d * b * D;
    assert F * q * d == d * F * q;
    assert f * D * q == f * q * D;
    CancelLe(d * b, f * q, D);
  }
}

/**
 * The arithmetic of settled debt: the settled-debt order, the individual settlement pool, the
 * global settlement fund and the bids that revive an asset.
 */
module Settlement {
  import opened Rounding
  import opened Ledger

  const MAX_SHARE_SUPPLY: nat := 1000000000000000

  // ----- the settled-debt order

  /** The limit order that sells the individual settlement fund: base is collateral, quote is debt. */
  datatype DebtOrder = DebtOrder(forSale: nat, price: Price)

  /** It sells exactly what the debt is worth at its price, rounded up, and the fund covers that. */
  ghost predicate Backed(debt: nat, fund: nat, o: DebtOrder) {
    && debt > 0 && o.price.Valid()
    && o.forSale == MulUp(debt, o.price.Inverse())
    && o.forSale <= fund
  }

  lemma BackedRatio(debt: nat, fund: nat, o: DebtOrder)
    requires Backed(debt, fund, o)
    ensures o.price.Valid() && debt * o.price.base <= fund * o.price.quote
    ensures o.forSale > 0
  {
    hide MulDown, MulUp;
    UpIsLeast(debt, o.price.Inverse(), fund);
    MulLe(1, debt, o.price.base);
  }

  /**
   * The order after the debt, the fund or the margin call order price changed: it asks for that
   * price if the fund can pay for it, and otherwise sells the whole fund for the whole debt.
   * An amount too large to represent counts as one the fund cannot pay.
   */
  function Repriced(debt: nat, fund: nat, mcop: Price): (o: DebtOrder)
    requires mcop.base > 0
  {
    var forSale := MulUp(debt, mcop);
    if forSale <= MAX_SHARE_SUPPLY && forSale <= fund then DebtOrder(forSale, mcop.Inverse())
    else DebtOrder(fund, Price(fund, debt))
  }

  /** The order asks for the margin call order price exactly when the fund can pay the debt's worth at it. */
  lemma RepricedAt(debt: nat, fund: nat, mcop: Price)
    requires mcop.base > 0
    ensures var o := Repriced(debt, fund, mcop);
            if debt * mcop.quote <= fund * mcop.base && debt * mcop.quote <= MAX_SHARE_SUPPLY * mcop.base
            then o.price == mcop.Inverse() && RoundedUp(o.forSale, debt, mcop)
            else o.price == Price(fund, debt) && o.forSale == fund
  {
    hide MulUp, RoundedUp;
    UpIsRounded(debt, mcop);
    UpIsLeast(debt, mcop, fund);
    UpIsLeast(debt, mcop, MAX_SHARE_SUPPLY);
  }

  lemma RepricedIsBacked(debt: nat, fund: nat, mcop: Price)
    requires debt > 0 && fund > 0 && mcop.Valid()
    ensures Backed(debt, fund, Repriced(debt, fund, mcop))
  {
    hide MulDown, MulUp;
    WholeFundIsBacked(debt, fund);
  }

  lemma WholeFundIsBacked(debt: nat, fund: nat)
    requires debt > 0 && fund > 0
    ensures Backed(debt, fund, DebtOrder(fund, Price(fund, debt)))
  {
    hide MulDown, MulUp;
    var p := Price(debt, fund);
    UpIsLeast(debt, p, fund);
    UpIsLeast(debt, p, fund - 1);
    assert (fund - 1) * debt == debt * fund - debt;
  }

  /** What one fill of the order moves: debt received, collateral handed over, collateral taken. */
  datatype DebtFill = DebtFill(debtReceived: nat, orderReceives: nat, fundPays: nat, filled: bool)

  /** The collateral the fund gives up for a partial fill; the excess over the order's is a fee. */
  function FundPays(debt: nat, fund: nat, o: DebtOrder, debtReceived: nat, orderReceives: nat): (r: nat)
    requires debt > 0
  {
    if o.forSale != fund then MulDown(debtReceived, Price(debt, fund)) else orderReceives
  }

  /** A limit order with `have` to sell takes from the settled-debt order, at the latter's price. */
  function LimitTakes(debt: nat, fund: nat, o: DebtOrder, have: nat): (f: Option<DebtFill>)
    requires o.price.Valid()
  {
    if debt > have then
      var receives := MulDown(have, o.price.Inverse());
      if receives == 0 then None
      else
        var received := MulUp(receives, o.price);
        Some(DebtFill(received, receives, FundPays(debt, fund, o, received, receives), false))
    else
      Some(DebtFill(debt, o.forSale, fund, true))
  }

  /** The settled-debt order takes a resting limit order, at the limit order's price. */
  function DebtOrderTakes(debt: nat, fund: nat, o: DebtOrder, have: nat, price: Price): (f: DebtFill)
    requires o.price.Valid() && price.Valid()
  {
    if debt > have then
      var receives := MulDown(have, price);
      var received := MulUp(receives, price.Inverse());
      DebtFill(received, receives, FundPays(debt, fund, o, received, receives), false)
    else
      DebtFill(debt, MulUp(debt, price), fund, true)
  }

  /** The order after a partial fill keeps its price. */
  function Shrunk(debt: nat, o: DebtOrder): (r: DebtOrder)
    requires o.price.Valid()
  {
    DebtOrder(MulUp(debt, o.price.Inverse()), o.price)
  }

  /**
   * A fill is safe when no more is handed over than is taken from the fund, the fund can pay, and
   * the order is closed with both debt and fund at zero or stays backed at its old price.
   */
  ghost predicate SafeDebtFill(debt: nat, fund: nat, o: DebtOrder, f: DebtFill) {
    && o.price.Valid()
    && f.orderReceives <= f.fundPays <= fund
    && f.debtReceived <= debt
    && (f.filled ==> f.debtReceived == debt && f.fundPays == fund)
    && (!f.filled ==> Backed(debt - f.debtReceived, fund - f.fundPays, Shrunk(debt - f.debtReceived, o)))
  }

  lemma PartialFillIsSafe(debt: nat, fund: nat, o: DebtOrder, received: nat, receives: nat)
    requires Backed(debt, fund, o) && received < debt
    requires receives * o.price.quote <= received * o.price.base
    ensures var pays := FundPays(debt, fund, o, received, receives);
            SafeDebtFill(debt, fund, o, DebtFill(received, receives, pays, false))
  {
    hide MulDown, MulUp;
    var b, q := o.price.base, o.price.quote;
    BackedRatio(debt, fund, o);
    RatioChain(receives, received, b, q, fund, debt);
    DownIsGreatest(received, Price(debt, fund), receives);
    var pays := FundPays(debt, fund, o, received, receives);
    ShareFits(pays, received, debt, fund);
    if o.forSale != fund {
      RestCovers(received, pays, b, q, fund, debt);
    } else {
      assert (debt - received) * b == debt * b - received * b;
      assert (fund - receives) * q == fund * q - receives * q;
    }
    UpIsLeast(debt - received, o.price.Inverse(), fund - pays);
  }

  /** A share of the fund no larger than pro rata fits into the fund. */
  lemma ShareFits(pays: nat, received: nat, debt: nat, fund: nat)
    requires pays * debt <= received * fund && received < debt
    ensures pays <= fund
    ensures fund > 0 ==> pays < fund
  {
    MulLe(received, debt, fund);
    CancelLe(pays, fund, debt);
    if fund > 0 && pays == fund {
      MulLe(received + 1, debt, fund);
      assert false;
    }
  }

  /** Matching a limit order against the settled-debt order never meets an unexpected scene. */
  lemma LimitTakesIsSafe(debt: nat, fund: nat, o: DebtOrder, have: nat)
    requires Backed(debt, fund, o) && have > 0
    ensures var f := LimitTakes(debt, fund, o, have);
            f.Some? ==> && SafeDebtFill(debt, fund, o, f.value)
                        && 0 < f.value.debtReceived <= have
                        && f.value.orderReceives > 0
                        && (f.value.filled <==> debt <= have)
    ensures LimitTakes(debt, fund, o, have).None? <==> debt > have && MulDown(have, o.price.Inverse()) == 0
  {
    hide MulDown, MulUp;
    if debt > have {
      Stabilise(have, o.price.Inverse());
      var receives := MulDown(have, o.price.Inverse());
      if receives > 0 {
        PartialFillIsSafe(debt, fund, o, MulUp(receives, o.price), receives);
      }
    } else {
      BackedRatio(debt, fund, o);
    }
  }

  /** The same when the settled-debt order is the taker, for a limit order whose price crosses it. */
  lemma DebtOrderTakesIsSafe(debt: nat, fund: nat, o: DebtOrder, have: nat, price: Price)
    requires Backed(debt, fund, o) && price.Valid()
    requires o.price.Inverse().AtMost(price)
    ensures var f := DebtOrderTakes(debt, fund, o, have, price);
            && SafeDebtFill(debt, fund, o, f)
            && f.debtReceived <= have
            && (f.filled <==> debt <= have)
  {
    hide MulDown, MulUp;
    if debt > have {
      Stabilise(have, price);
      var receives := MulDown(have, price);
      var received := MulUp(receives, price.Inverse());
      ScaleBound(received, receives, price, o.price.Inverse());
      PartialFillIsSafe(debt, fund, o, received, receives);
    } else {
      WorsePriceGivesNoMore(debt, price, o.price.Inverse());
    }
  }

  /**
   * What a fill of the settled-debt order by a limit order with `have` to sell must move, at a price
   * `p` in collateral per debt.  The whole debt gets its rounded-up worth and clears the fund.  A
   * part gets its rounded-down worth for the least debt that earns it, and takes from the fund its
   * rounded-down pro-rata share, or just that worth when the whole fund was for sale.
   */
  ghost predicate FairFill(debt: nat, fund: nat, o: DebtOrder, have: nat, p: Price, f: DebtFill) {
    && (f.filled <==> debt <= have)
    && (f.filled ==> f.debtReceived == debt && f.fundPays == fund && RoundedUp(f.orderReceives, debt, p))
    && (!f.filled ==>
          && RoundedDown(f.orderReceives, have, p)
          && RoundedUp(f.debtReceived, f.orderReceives, p.Inverse())
          && (if o.forSale == fund then f.fundPays == f.orderReceives
              else RoundedDown(f.fundPays, f.debtReceived, Price(debt, fund))))
  }

  lemma LimitTakesIsFair(debt: nat, fund: nat, o: DebtOrder, have: nat)
    requires Backed(debt, fund, o) && have > 0
    ensures o.price.Valid()
    ensures LimitTakes(debt, fund, o, have).Some? ==>
              FairFill(debt, fund, o, have, o.price.Inverse(), LimitTakes(debt, fund, o, have).value)
    ensures LimitTakes(debt, fund, o, have).Some? && debt <= have ==>
              LimitTakes(debt, fund, o, have).value.orderReceives == o.forSale
    ensures LimitTakes(debt, fund, o, have).None? <==> debt > have && have * o.price.base < o.price.quote
  {
    hide MulDown, MulUp, RoundedDown, RoundedUp;
    BackedRatio(debt, fund, o);
    DownIsGreatest(have, o.price.Inverse(), 1);
    UpIsRounded(debt, o.price.Inverse());
    DownIsRounded(have, o.price.Inverse());
    UpIsRounded(MulDown(have, o.price.Inverse()), o.price);
    DownIsRounded(MulUp(MulDown(have, o.price.Inverse()), o.price), Price(debt, fund));
  }

  lemma DebtOrderTakesIsFair(debt: nat, fund: nat, o: DebtOrder, have: nat, price: Price)
    requires Backed(debt, fund, o) && price.Valid()
    ensures o.price.Valid() && FairFill(debt, fund, o, have, price, DebtOrderTakes(debt, fund, o, have, price))
  {
    hide MulDown, MulUp, RoundedDown, RoundedUp;
    UpIsRounded(debt, price);
    DownIsRounded(have, price);
    UpIsRounded(MulDown(have, price), price.Inverse());
    DownIsRounded(MulUp(MulDown(have, price), price.Inverse()), Price(debt, fund));
  }

  // ----- the individual settlement pool

  datatype Payout = Payout(pays: nat, settled: nat)

  /**
   * What a settlement of `amount` against a fund must pay: the whole fund for everything it owes,
   * and otherwise the rounded-down worth of the amount for the least debt that earns it.
   */
  ghost predicate FairPayout(owed: nat, fund: nat, p: Price, amount: nat, payout: Payout) {
    if amount >= owed then payout == Payout(owed, fund)
    else RoundedDown(payout.settled, amount, p) && RoundedUp(payout.pays, payout.settled, p.Inverse())
  }

  /** The fund per debt afterwards is at least what it was before. */
  predicate NotThinner(fund: nat, debt: nat, fundAfter: nat, debtAfter: nat) {
    fund * debtAfter <= fundAfter * debt
  }

  /** `pay_settle_from_individual_pool`; `None` when the amount is too small to receive anything. */
  function PoolPayout(debt: nat, fund: nat, amount: nat): (r: Option<Payout>)
    requires debt > 0 && fund > 0
  {
    if amount < debt then
      var settled := MulDown(amount, Price(debt, fund));
      if settled == 0 then None else Some(Payout(MulUp(settled, Price(fund, debt)), settled))
    else
      Some(Payout(debt, fund))
  }

  /**
   * A payout takes no more than was offered, pays out no more than the pool has, leaves the ratio
   * of fund to debt no lower, and empties the fund exactly when it clears the debt.
   */
  lemma PoolPayoutIsFair(debt: nat, fund: nat, amount: nat)
    requires debt > 0 && fund > 0
    ensures PoolPayout(debt, fund, amount).None? <==> amount < debt && MulDown(amount, Price(debt, fund)) == 0
    ensures var r := PoolPayout(debt, fund, amount);
            r.Some? ==> && r.value.pays <= amount && r.value.pays <= debt && r.value.settled <= fund
                        && NotThinner(fund, debt, fund - r.value.settled, debt - r.value.pays)
                        && (r.value.pays == debt <==> r.value.settled == fund)
                        && (r.value.pays == debt <==> amount >= debt)
                        && FairPayout(debt, fund, Price(debt, fund), amount, r.value)
    ensures PoolPayout(debt, fund, amount).None? <==> amount < debt && amount * fund < debt
  {
    hide MulDown, MulUp, RoundedDown, RoundedUp;
    DownIsGreatest(amount, Price(debt, fund), 1);
    DownIsRounded(amount, Price(debt, fund));
    UpIsRounded(MulDown(amount, Price(debt, fund)), Price(fund, debt));
    var r := PoolPayout(debt, fund, amount);
    if r.Some? && amount < debt {
      var p := Price(debt, fund);
      var settled, pays := r.value.settled, r.value.pays;
      Stabilise(amount, p);
      ShareFits(settled, amount, debt, fund);
      assert settled * debt <= pays * fund;
      assert fund * (debt - pays) == fund * debt - fund * pays;
      assert (fund - settled) * debt == fund * debt - settled * debt;
    }
  }

  // ----- the global settlement fund

  /** The fund covers the supply at the settlement price, and is used up when the supply is. */
  ghost predicate FundCovers(fund: nat, supply: nat, p: Price) {
    && p.Valid()
    && supply * p.quote <= fund * p.base
    && (supply == 0 ==> fund == 0)
  }

  /** `pay_settle_from_gs_fund`; the two failures are the source's two checks. */
  datatype FundResult = Paid(payout: Payout) | FundInsufficient | TooSmall

  function FundPayout(fund: nat, supply: nat, p: Price, amount: nat): (r: FundResult)
    requires p.Valid()
  {
    var settled := if amount == supply then fund else MulDown(amount, p);
    if amount != supply && settled > fund then FundInsufficient
    else if settled == 0 then TooSmall
    else Paid(Payout(if amount == supply then amount else MulUp(settled, p.Inverse()), settled))
  }

  /** The fund is never insufficient, and every payout leaves it covering the remaining supply. */
  lemma FundPayoutKeepsCover(fund: nat, supply: nat, p: Price, amount: nat)
    requires FundCovers(fund, supply, p) && amount <= supply
    ensures p.Valid()
    ensures var r := FundPayout(fund, supply, p, amount);
            && !r.FundInsufficient?
            && (r.TooSmall? <==> MulDown(amount, p) == 0 && (amount == supply ==> fund == 0))
            && (r.Paid? ==> && 0 < r.payout.pays <= amount
                            && r.payout.settled <= fund
                            && FundCovers(fund - r.payout.settled, supply - r.payout.pays, p)
                            && FairPayout(supply, fund, p, amount, r.payout))
            && (r.TooSmall? <==> if amount == supply then fund == 0 else amount * p.quote < p.base)
  {
    hide MulDown, MulUp, RoundedDown, RoundedUp;
    DownIsGreatest(amount, p, 1);
    DownIsRounded(amount, p);
    UpIsRounded(MulDown(amount, p), p.Inverse());
    var settled := MulDown(amount, p);
    MulLe(amount, supply, p.quote);
    assert settled * p.base <= fund * p.base;
    CancelLe(settled, fund, p.base);
    if amount != supply {
      Stabilise(amount, p);
      SubtractLe(supply, MulUp(settled, p.Inverse()), p.quote, fund, settled, p.base);
    }
  }

  lemma FundOfPositiveSupply(fund: nat, supply: nat, p: Price)
    requires FundCovers(fund, supply, p)
    ensures supply > 0 <==> fund > 0
  {
    if supply > 0 && fund == 0 {
      MulLe(1, supply, p.quote);
      assert false;
    }
  }

  // ----- bids

  const COLLATERAL_RATIO_DENOM: nat := 1000

  /** Whether a position is collateralised above `ratio`/1000 at a feed price in debt/collateral. */
  predicate Above(debt: nat, collateral: nat, ratio: nat, feed: Price) {
    debt * (ratio * feed.quote) < collateral * (COLLATERAL_RATIO_DENOM * feed.base)
  }

  /** A position with no less collateral per debt is above the same ratio. */
  lemma AboveIsMonotone(d: nat, c: nat, debt: nat, collateral: nat, ratio: nat, feed: Price)
    requires Above(d, c, ratio, feed) && d > 0 && debt > 0
    requires c * debt <= collateral * d
    ensures Above(debt, collateral, ratio, feed)
  {
    hide MulDown, MulUp;
    var x, y := ratio * feed.quote, COLLATERAL_RATIO_DENOM * feed.base;
    assert d * x < c * y;
    assert d * x * debt < c * y * debt by { MulLt(d * x, c * y, debt); }
    MulLe(c * debt, collateral * d, y);
    assert d * x * debt == debt * x * d;
    assert c * y * debt == c * debt * y;
    assert collateral * d * y == collateral * y * d;
    CancelLt(debt * x, collateral * y, d);
  }

  /**
   * The last executed bid covers what is left, `debt <= d`, with everything the fund has left, so
   * it is at least as well collateralised as the bid of `d` that was tested.
   */
  lemma LastBidIsBetter(d: nat, extra: nat, debt: nat, remaining: nat, p: Price)
    requires p.Valid() && debt <= d && debt * p.quote <= remaining * p.base
    ensures (MulDown(d, p) + extra) * debt <= (remaining + extra) * d
  {
    hide MulDown, MulUp;
    var share := MulDown(d, p);
    MulLe(debt, d, extra);
    assert share * debt <= remaining * d by {
      RatioChain(share, d, p.quote, p.base, remaining, debt);
    }
    assert (share + extra) * debt == share * debt + extra * debt;
    assert (remaining + extra) * d == remaining * d + extra * d;
  }
}

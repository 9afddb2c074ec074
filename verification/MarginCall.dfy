/**
 * The amounts of a margin call or a force settlement: `priceimpl`, the limit-order side of
 * `check_call_orders`, and `individually_settle`.
 */
module MarginCall {
  import opened Rounding
  import opened Settlement

  /** A debt position. */
  datatype Call = Call(debt: nat, collateral: nat) {
    ghost predicate Open() {
      debt > 0 && collateral > 0
    }
  }

  /** The collateral per debt of `after` is at least that of `before`. */
  predicate RatioKept(before: Call, after: Call) {
    before.collateral * after.debt <= after.collateral * before.debt
  }

  /** `get_margin_call_pays_ratio`: what reaches the counterparty of what a margin call pays. */
  datatype Ratio = Ratio(num: nat, den: nat) {
    ghost predicate Valid() {
      0 < num <= den
    }
  }

  /** `price / ratio` for a price in debt per collateral: the same debt buys less collateral. */
  function Divide(p: Price, r: Ratio): (q: Price)
    requires p.Valid() && r.Valid()
    ensures q.Valid() && p.AtMost(q)
    ensures q.base == p.base * r.den && q.quote == p.quote * r.num
  {
    MulLe(r.num, r.den, p.base * p.quote);
    assert p.base * (p.quote * r.num) == r.num * (p.base * p.quote);
    assert (p.base * r.den) * p.quote == r.den * (p.base * p.quote);
    MulLe(1, r.num, p.quote);
    MulLe(1, r.den, p.base);
    Price(p.base * r.den, p.quote * r.num)
  }

  /** What one trade with a call order moves. */
  datatype Fill = Fill(callPays: nat, callReceives: nat, otherReceives: nat)

  /**
   * A fill that goes through: debt and collateral cover it, the margin call fee is not negative, and
   * if debt remains so does collateral.
   */
  predicate Payable(c: Call, f: Fill) {
    && f.callReceives <= c.debt && f.callPays <= c.collateral
    && f.otherReceives <= f.callPays
    && (f.callReceives < c.debt ==> f.callPays < c.collateral)
  }

  /** A fill that in addition does not lower the ratio of a position that stays. */
  ghost predicate SafeFill(c: Call, f: Fill) {
    && Payable(c, f)
    && (f.callReceives < c.debt ==> RatioKept(c, Call(c.debt - f.callReceives, c.collateral - f.callPays)))
  }

  /** A fill is safe exactly when it costs no more per debt than the position has. */
  lemma SafeAtOwnRatio(c: Call, f: Fill)
    requires c.Open() && f.callReceives <= c.debt && f.otherReceives <= f.callPays
    ensures SafeFill(c, f) <==> f.callPays * c.debt <= f.callReceives * c.collateral
  {
    if f.callReceives < c.debt {
      assert c.collateral * (c.debt - f.callReceives) == c.collateral * c.debt - f.callReceives * c.collateral;
      assert (c.collateral - f.callPays) * c.debt == c.collateral * c.debt - f.callPays * c.debt;
      if f.callPays * c.debt <= f.callReceives * c.collateral {
        AtOwnRatio(c, f.callReceives, f.callPays);
      }
    } else if f.callPays <= c.collateral {
      MulLe(f.callPays, c.collateral, c.debt);
    } else {
      MulLe(c.collateral + 1, f.callPays, c.debt);
    }
  }

  // ----- a partial fill

  /** The `calculate` step: round down what is received, charge the least for it, price that. */
  function Calculate(pays: nat, fill: Price, price: Price): (f: Fill)
    requires fill.Valid() && price.Valid()
  {
    var receives := MulDown(pays, fill);
    var callReceives := MulUp(receives, fill.Inverse());
    Fill(MulDown(callReceives, price), callReceives, receives)
  }

  /** A trade of a part: the rounded-down worth of what is offered, for the least debt that earns it. */
  ghost predicate PartTrade(f: Fill, offered: nat, fill: Price, price: Price) {
    && RoundedDown(f.otherReceives, offered, fill)
    && RoundedUp(f.callReceives, f.otherReceives, fill.Inverse())
    && RoundedDown(f.callPays, f.callReceives, price)
  }

  /** A trade of the whole debt, both sides rounded up. */
  ghost predicate WholeTrade(f: Fill, debt: nat, fill: Price, price: Price) {
    f.callReceives == debt && RoundedUp(f.otherReceives, debt, fill) && RoundedUp(f.callPays, debt, price)
  }

  lemma CalculateRounds(offered: nat, fill: Price, price: Price)
    requires fill.Valid() && price.Valid()
    ensures PartTrade(Calculate(offered, fill, price), offered, fill, price)
    ensures forall f :: PartTrade(f, offered, fill, price) ==> f == Calculate(offered, fill, price)
  {
    hide MulDown, MulUp, RoundedDown, RoundedUp;
    var receives := MulDown(offered, fill);
    var pays := MulUp(receives, fill.Inverse());
    DownIsRounded(offered, fill);
    UpIsRounded(receives, fill.Inverse());
    DownIsRounded(pays, price);
    forall f | PartTrade(f, offered, fill, price) ensures f == Calculate(offered, fill, price) {
      OnlyOneDown(f.otherReceives, receives, offered, fill);
      OnlyOneUp(f.callReceives, pays, receives, fill.Inverse());
      OnlyOneDown(f.callPays, MulDown(pays, price), pays, price);
    }
  }

  /** What a limit order trades with a margin call at given prices. */
  lemma TakerFillAmounts(forSale: nat, c: Call, price: Price, pays: Price)
    requires price.Valid() && pays.Valid()
    ensures var f := TakerFill(forSale, c, price, pays);
            if c.debt > forSale then PartTrade(f, forSale, price, pays) else WholeTrade(f, c.debt, price, pays)
  {
    hide MulDown, MulUp, RoundedDown, RoundedUp, Calculate, PartTrade;
    CalculateRounds(forSale, price, pays);
    UpIsRounded(c.debt, price);
    UpIsRounded(c.debt, pays);
  }

  /** The counterparty never pays more than it offered, and the fee is never negative. */
  lemma CalculateBounds(pays: nat, fill: Price, price: Price)
    requires fill.Valid() && price.Valid() && price.AtMost(fill)
    ensures var f := Calculate(pays, fill, price);
            && f.callReceives <= pays
            && f.otherReceives <= f.callPays
            && (f.otherReceives > 0 ==> f.callReceives > 0)
  {
    hide MulDown, MulUp;
    Stabilise(pays, fill);
    var f := Calculate(pays, fill, price);
    ScaleBound(f.callReceives, f.otherReceives, fill, price);
    DownIsGreatest(f.callReceives, price, f.otherReceives);
  }

  /** Whether the price has to be capped: the position could not pay, or its ratio would fall. */
  predicate MustCap(c: Call, f: Fill) {
    f.callPays >= c.collateral
    || (f.callReceives <= c.debt && !RatioKept(c, Call(c.debt - f.callReceives, c.collateral - f.callPays)))
  }

  /** The amounts of a smaller force settlement against a margin call, capped if needed. */
  function SmallerSettle(pays: nat, c: Call, fill: Price, price: Price, ratio: Ratio): (f: Fill)
    requires c.Open() && fill.Valid() && price.Valid() && ratio.Valid()
  {
    var f := Calculate(pays, fill, price);
    if f.otherReceives == 0 || !MustCap(c, f) then f
    else
      var capped := Price(c.debt, c.collateral);
      Calculate(pays, Divide(capped, ratio), capped)
  }

  /**
   * A smaller force settlement leaves the position open with positive debt and collateral and a
   * ratio that did not fall, whether or not the price was capped; the fee is never negative.
   */
  lemma SmallerSettleIsSafe(pays: nat, c: Call, fill: Price, price: Price, ratio: Ratio)
    requires c.Open() && fill.Valid() && price.Valid() && ratio.Valid() && price.AtMost(fill)
    requires pays < c.debt
    ensures var f := SmallerSettle(pays, c, fill, price, ratio);
            && f.callReceives <= pays
            && (f.otherReceives > 0 ==> SafeFill(c, f) && f.callReceives > 0)
  {
    hide MulDown, MulUp;
    var f := Calculate(pays, fill, price);
    CalculateBounds(pays, fill, price);
    if f.otherReceives > 0 && MustCap(c, f) {
      var capped := Price(c.debt, c.collateral);
      CalculateBounds(pays, Divide(capped, ratio), capped);
      var g := Calculate(pays, Divide(capped, ratio), capped);
      AtOwnRatio(c, g.callReceives, g.callPays);
    }
  }

  /** Paying no more than the position's own ratio keeps the ratio and some collateral. */
  lemma AtOwnRatio(c: Call, receives: nat, pays: nat)
    requires c.Open() && receives < c.debt && pays * c.debt <= receives * c.collateral
    ensures pays < c.collateral
    ensures RatioKept(c, Call(c.debt - receives, c.collateral - pays))
  {
    ShareFits(pays, receives, c.debt, c.collateral);
    assert c.collateral * (c.debt - receives) == c.collateral * c.debt - receives * c.collateral;
    assert (c.collateral - pays) * c.debt == c.collateral * c.debt - pays * c.debt;
  }

  // ----- a limit order against a margin call

  /** A limit order smaller than the debt, before the guard that checks the position can take it. */
  function SmallerLimit(forSale: nat, price: Price, pays: Price): (f: Fill)
    requires price.Valid() && pays.Valid()
  {
    Calculate(forSale, price, pays)
  }

  /** A limit order that covers the whole debt. */
  function WholeDebt(c: Call, price: Price, pays: Price): (f: Fill)
    requires price.Valid() && pays.Valid()
  {
    Fill(MulUp(c.debt, pays), c.debt, MulUp(c.debt, price))
  }

  /** The guard accepts exactly the fills the position can take, and the fee is never negative. */
  lemma LimitGuard(forSale: nat, c: Call, price: Price, pays: Price)
    requires c.Open() && price.Valid() && pays.Valid() && pays.AtMost(price) && forSale < c.debt
    ensures var f := SmallerLimit(forSale, price, pays);
            f.callReceives <= forSale && (SafeFill(c, f) <==> !MustCap(c, f))
  {
    hide MulDown, MulUp;
    CalculateBounds(forSale, price, pays);
  }

  lemma WholeDebtGuard(c: Call, price: Price, pays: Price)
    requires c.Open() && price.Valid() && pays.Valid() && pays.AtMost(price)
    ensures var f := WholeDebt(c, price, pays);
            SafeFill(c, f) <==> f.callPays <= c.collateral
  {
    hide MulDown, MulUp;
    WorsePriceGivesNoMore(c.debt, price, pays);
  }

  /** What a new limit order trades with a margin call, at `price` for the order and `pays` for the position. */
  function TakerFill(forSale: nat, c: Call, price: Price, pays: Price): (f: Fill)
    requires price.Valid() && pays.Valid()
  {
    if c.debt > forSale then SmallerLimit(forSale, price, pays) else WholeDebt(c, price, pays)
  }

  /**
   * A new limit order against a margin call, which has no guard.  The assertion that the fee is not
   * negative never fails.  The trade is safe exactly when it costs no more per debt than the
   * position has: for the whole debt exactly when the collateral is worth the debt at the price
   * paid, and for a part whenever it is.
   */
  lemma TakerFillIsSafe(forSale: nat, c: Call, price: Price, pays: Price)
    requires c.Open() && price.Valid() && pays.Valid() && pays.AtMost(price)
    ensures var f := TakerFill(forSale, c, price, pays);
            && f.otherReceives <= f.callPays && f.callReceives <= c.debt && f.callReceives <= forSale
            && (SafeFill(c, f) <==> f.callPays * c.debt <= f.callReceives * c.collateral)
            && (Price(c.debt, c.collateral).AtMost(pays) ==> SafeFill(c, f))
            && (c.debt <= forSale && SafeFill(c, f) ==> Price(c.debt, c.collateral).AtMost(pays))
  {
    hide MulDown, MulUp, SafeFill;
    var f := TakerFill(forSale, c, price, pays);
    if c.debt > forSale {
      CalculateBounds(forSale, price, pays);
      if Price(c.debt, c.collateral).AtMost(pays) {
        ScaleBound(f.callReceives, f.callPays, pays, Price(c.debt, c.collateral));
      }
    } else {
      WorsePriceGivesNoMore(c.debt, price, pays);
      WholeDebtGuard(c, price, pays);
      UpIsLeast(c.debt, pays, c.collateral);
    }
    SafeAtOwnRatio(c, f);
  }

  /**
   * A position far below its debt: a partial trade at the price paid takes all of its collateral and
   * leaves debt without any.
   */
  lemma PartialTradeDrains()
    ensures var c, p := Call(10, 3), Price(1, 1);
            var f := TakerFill(3, c, p, p);
            f == Fill(3, 3, 3) && f.callPays == c.collateral && f.callReceives < c.debt && !Payable(c, f)
  {
    DownIsGreatest(3, Price(1, 1), 3);
    UpIsLeast(3, Price(1, 1), 3);
  }

  // ----- a force settlement against a call order

  datatype SettleOutcome =
    | CancelSettle                      // too small to receive anything
    | Skip                              // nothing happens
    | Trade(fill: Fill, settlePays: nat, cull: bool)

  /**
   * `priceimpl` without a target collateral ratio: `maxSettlement` limits a scheduled settlement
   * and is the whole debt for a margin call.  Prices are in debt per collateral.
   */
  function MatchSettle(balance: nat, maxSettlement: nat, c: Call, price: Price, fill: Price,
                       ratio: Ratio, marginCall: bool): (r: SettleOutcome)
    requires c.Open() && price.Valid() && fill.Valid() && ratio.Valid()
  {
    var offered := if balance <= maxSettlement then balance else maxSettlement;
    var receives := if offered <= c.debt then offered else c.debt;
    var pays := MulDown(receives, price);
    if pays == 0 then
      if receives == c.debt then Trade(Fill(1, receives, 1), receives, false)
      else if receives == balance then CancelSettle
      else if !marginCall then Skip
      else Trade(Fill(1, receives, 1), receives, false)
    else if receives == c.debt then
      var up := MulUp(receives, price);
      if !marginCall then Trade(Fill(up, receives, up), receives, false)
      else if up > c.collateral then
        var capped := Divide(Price(c.debt, c.collateral), ratio);
        Trade(Fill(c.collateral, receives, MulUp(receives, capped)), receives, false)
      else
        Trade(Fill(up, receives, MulUp(receives, fill)), receives, false)
    else if !marginCall then
      var charged := MulUp(pays, price.Inverse());
      Trade(Fill(pays, charged, pays), charged, receives == balance && charged != balance)
    else if receives == maxSettlement then
      Trade(Fill(MulUp(receives, price), receives, MulUp(receives, fill)), receives, false)
    else
      var f := SmallerSettle(receives, c, fill, price, ratio);
      if f.otherReceives == 0 then CancelSettle
      else Trade(f, f.callReceives, f.callReceives != balance)
  }

  /**
   * Every trade of a margin call with a force settlement is one the position can take, for every
   * balance, price and ratio.
   */
  lemma MarginCallIsSafe(balance: nat, c: Call, price: Price, fill: Price, ratio: Ratio)
    requires balance > 0 && c.Open() && price.Valid() && fill.Valid() && ratio.Valid() && price.AtMost(fill)
    ensures var r := MatchSettle(balance, c.debt, c, price, fill, ratio, true);
            && !r.Skip?
            && (r.Trade? ==> && SafeFill(c, r.fill)
                             && 0 < r.fill.callReceives == r.settlePays <= balance
                             && r.fill.otherReceives > 0
                             && (r.cull ==> r.settlePays < balance))
  {
    hide MulDown, MulUp;
    var receives := if balance <= c.debt then balance else c.debt;
    if receives == c.debt {
      CappedFillFits(c, ratio);
      WorsePriceGivesNoMore(c.debt, fill, price);
      UpIsPositive(c.debt, fill);
    } else {
      SmallerSettleIsSafe(receives, c, fill, price, ratio);
    }
  }

  /** The price of a position at its own ratio, and what reaches the counterparty there. */
  function Own(c: Call): (p: Price) {
    Price(c.debt, c.collateral)
  }

  /**
   * A force settlement that covers a margin call's debt closes it: at the prices of the margin call
   * if the collateral is enough, and otherwise for all the collateral.
   */
  ghost predicate ClosingTrade(f: Fill, c: Call, price: Price, fill: Price, ratio: Ratio)
    requires c.Open() && ratio.Valid()
  {
    if c.debt * price.quote < price.base then f == Fill(1, c.debt, 1)
    else if c.debt * price.quote <= c.collateral * price.base then WholeTrade(f, c.debt, fill, price)
    else f.callReceives == c.debt && f.callPays == c.collateral
         && RoundedUp(f.otherReceives, c.debt, Divide(Own(c), ratio))
  }

  /**
   * A smaller force settlement trades at the prices of the margin call if that is safe, and otherwise
   * at the position's own ratio.  It is cancelled when it would receive nothing.
   */
  ghost predicate SmallerTrade(r: SettleOutcome, balance: nat, c: Call, price: Price, fill: Price, ratio: Ratio)
    requires c.Open() && ratio.Valid()
  {
    forall f, g :: PartTrade(f, balance, fill, price) && PartTrade(g, balance, Divide(Own(c), ratio), Own(c)) ==>
      var best := if SafeFill(c, f) then f else g;
      if balance * price.quote < price.base || f.otherReceives == 0 || best.otherReceives == 0 then r == CancelSettle
      else r == Trade(best, best.callReceives, best.callReceives < balance)
  }

  /** Exactly which trade a margin call and a force settlement make. */
  lemma MarginCallAmounts(balance: nat, c: Call, price: Price, fill: Price, ratio: Ratio)
    requires balance > 0 && c.Open() && price.Valid() && fill.Valid() && ratio.Valid() && price.AtMost(fill)
    ensures var r := MatchSettle(balance, c.debt, c, price, fill, ratio, true);
            if balance >= c.debt
            then r.Trade? && r.settlePays == c.debt && !r.cull && ClosingTrade(r.fill, c, price, fill, ratio)
            else SmallerTrade(r, balance, c, price, fill, ratio)
  {
    hide MulDown, MulUp, RoundedDown, RoundedUp, Calculate, PartTrade, SafeFill, MustCap;
    if balance >= c.debt {
      DownIsGreatest(c.debt, price, 1);
      UpIsLeast(c.debt, price, c.collateral);
      UpIsRounded(c.debt, price);
      UpIsRounded(c.debt, fill);
      UpIsRounded(c.debt, Divide(Own(c), ratio));
    } else {
      DownIsGreatest(balance, price, 1);
      CalculateRounds(balance, fill, price);
      CalculateRounds(balance, Divide(Own(c), ratio), Own(c));
      CalculateBounds(balance, fill, price);
      CalculateBounds(balance, Divide(Own(c), ratio), Own(c));
      CapIsUnsafe(c, Calculate(balance, fill, price));
    }
  }

  lemma CapIsUnsafe(c: Call, f: Fill)
    requires c.Open() && f.callReceives < c.debt && f.otherReceives <= f.callPays
    ensures SafeFill(c, f) <==> !MustCap(c, f)
  {
  }

  /** A margin call that may settle only part of its debt pays that part's worth, or 1 when that rounds to nothing. */
  lemma LimitedMarginCall(balance: nat, maxSettlement: nat, c: Call, price: Price, fill: Price, ratio: Ratio)
    requires 0 < maxSettlement < balance && maxSettlement < c.debt && c.Open()
    requires price.Valid() && fill.Valid() && ratio.Valid()
    ensures var r := MatchSettle(balance, maxSettlement, c, price, fill, ratio, true);
            && r.Trade? && r.settlePays == r.fill.callReceives == maxSettlement && !r.cull
            && if maxSettlement * price.quote < price.base then r.fill.callPays == r.fill.otherReceives == 1
               else WholeTrade(r.fill, maxSettlement, fill, price)
  {
    hide MulDown, MulUp, RoundedDown, RoundedUp;
    DownIsGreatest(maxSettlement, price, 1);
    UpIsRounded(maxSettlement, price);
    UpIsRounded(maxSettlement, fill);
  }

  /** Exactly which trade a scheduled settlement makes. */
  lemma ScheduledAmounts(balance: nat, maxSettlement: nat, c: Call, price: Price, ratio: Ratio)
    requires balance > 0 && c.Open() && price.Valid() && ratio.Valid()
    ensures var outcome := MatchSettle(balance, maxSettlement, c, price, price, ratio, false);
            ScheduledTrade(outcome, balance, maxSettlement, c, price)
  {
    hide MulDown, MulUp, RoundedDown, RoundedUp;
    var offered := if balance <= maxSettlement then balance else maxSettlement;
    var receives := if offered <= c.debt then offered else c.debt;
    DownIsGreatest(receives, price, 1);
    DownIsRounded(receives, price);
    UpIsRounded(receives, price);
    UpIsRounded(MulDown(receives, price), price.Inverse());
    Stabilise(receives, price);
  }

  /** The least of what is offered, allowed and owed is settled, for its worth at the settlement price. */
  ghost predicate ScheduledTrade(r: SettleOutcome, balance: nat, maxSettlement: nat, c: Call, price: Price) {
    var offered := if balance <= maxSettlement then balance else maxSettlement;
    if offered >= c.debt then
      && r.Trade? && r.settlePays == c.debt && !r.cull
      && r.fill.callReceives == c.debt && r.fill.otherReceives == r.fill.callPays
      && (if c.debt * price.quote < price.base then r.fill.callPays == 1 else RoundedUp(r.fill.callPays, c.debt, price))
    else if offered * price.quote < price.base then
      r == (if offered == balance then CancelSettle else Skip)
    else
      && r.Trade? && r.settlePays == r.fill.callReceives && r.fill.otherReceives == r.fill.callPays
      && RoundedDown(r.fill.callPays, offered, price)
      && RoundedUp(r.fill.callReceives, r.fill.callPays, price.Inverse())
      && (r.cull <==> offered == balance && r.fill.callReceives < balance)
  }

  lemma UpIsPositive(a: nat, p: Price)
    requires a > 0 && p.Valid()
    ensures MulUp(a, p) > 0
  {
    hide MulDown, MulUp;
    UpIsLeast(a, p, 0);
    MulLe(1, a, p.quote);
  }

  /** At its own ratio the counterparty of a closing position gets no more than the collateral. */
  lemma CappedFillFits(c: Call, ratio: Ratio)
    requires c.Open() && ratio.Valid()
    ensures 0 < MulUp(c.debt, Divide(Price(c.debt, c.collateral), ratio)) <= c.collateral
  {
    hide MulDown, MulUp;
    var own := Price(c.debt, c.collateral);
    WorsePriceGivesNoMore(c.debt, Divide(own, ratio), own);
    UpIsLeast(c.debt, own, c.collateral);
    UpIsPositive(c.debt, Divide(own, ratio));
  }

  /**
   * A scheduled settlement charges no more than was offered.  The trade is safe exactly when it costs
   * no more per debt than the position has, in particular whenever the position is worth its debt
   * at the settlement price.
   */
  lemma ScheduledSettleIsSafe(balance: nat, maxSettlement: nat, c: Call, price: Price, ratio: Ratio)
    requires balance > 0 && c.Open() && price.Valid() && ratio.Valid()
    ensures var r := MatchSettle(balance, maxSettlement, c, price, price, ratio, false);
            r.Trade? ==> && r.fill.callReceives == r.settlePays <= balance && r.fill.callReceives <= maxSettlement
                         && r.fill.callReceives <= c.debt && r.fill.otherReceives == r.fill.callPays
                         && (r.cull ==> r.settlePays < balance)
                         && (SafeFill(c, r.fill) <==> r.fill.callPays * c.debt <= r.fill.callReceives * c.collateral)
                         && (price.quote * c.debt <= c.collateral * price.base ==> SafeFill(c, r.fill))
  {
    hide MulDown, MulUp, SafeFill;
    var offered := if balance <= maxSettlement then balance else maxSettlement;
    var receives := if offered <= c.debt then offered else c.debt;
    var r := MatchSettle(balance, maxSettlement, c, price, price, ratio, false);
    Stabilise(receives, price);
    if r.Trade? {
      SafeAtOwnRatio(c, r.fill);
      if price.quote * c.debt <= c.collateral * price.base {
        if receives < c.debt {
          ScaleBound(r.fill.callReceives, r.fill.callPays, price, Price(c.debt, c.collateral));
        } else {
          WholeFits(c, price, r.fill);
        }
      }
    }
  }

  lemma WholeFits(c: Call, price: Price, f: Fill)
    requires c.Open() && price.Valid() && price.quote * c.debt <= c.collateral * price.base
    requires f.callReceives == c.debt && f.callPays <= (if MulDown(c.debt, price) == 0 then 1 else MulUp(c.debt, price))
    ensures f.callPays * c.debt <= f.callReceives * c.collateral
  {
    hide MulDown, MulUp;
    UpIsLeast(c.debt, price, c.collateral);
    MulLe(f.callPays, c.collateral, c.debt);
  }

  /** A settlement of the whole debt fits exactly when the collateral is worth the debt at its price. */
  lemma WholeSettleFits(balance: nat, maxSettlement: nat, c: Call, price: Price, ratio: Ratio)
    requires c.Open() && price.Valid() && ratio.Valid() && balance >= c.debt && maxSettlement >= c.debt
    ensures var r := MatchSettle(balance, maxSettlement, c, price, price, ratio, false);
            r.Trade? && (SafeFill(c, r.fill) <==> price.quote * c.debt <= c.collateral * price.base)
  {
    hide MulDown, MulUp;
    UpIsLeast(c.debt, price, c.collateral);
    if MulDown(c.debt, price) == 0 {
      MulLe(1, c.collateral, price.base);
    }
  }

  // ----- individual settlement

  /** What the individual settlement fund receives of a closed position; the rest is the fee. */
  function FundReceives(c: Call, ratio: Ratio): (r: nat)
    requires c.Open() && ratio.Valid()
    ensures 0 < r <= c.collateral
  {
    CappedFillFits(c, ratio);
    MulUp(c.debt, Divide(Price(c.debt, c.collateral), ratio))
  }

  /** The fund gets the collateral times the pays ratio, rounded up. */
  lemma FundReceivesShare(c: Call, ratio: Ratio)
    requires c.Open() && ratio.Valid()
    ensures RoundedUp(FundReceives(c, ratio), c.collateral, Price(ratio.den, ratio.num))
  {
    hide MulUp, RoundedUp;
    var r := FundReceives(c, ratio);
    UpIsRounded(c.debt, Divide(Own(c), ratio));
    SameRounding(r, c.debt, c.collateral, ratio);
  }

  lemma SameRounding(r: nat, d: nat, c: nat, ratio: Ratio)
    requires d > 0 && ratio.Valid() && RoundedUp(r, d, Price(d * ratio.den, c * ratio.num))
    ensures RoundedUp(r, c, Price(ratio.den, ratio.num))
  {
    assert d * (c * ratio.num) == (c * ratio.num) * d;
    assert r * (d * ratio.den) == (r * ratio.den) * d;
    CancelLe(c * ratio.num, r * ratio.den, d);
    if r > 0 {
      assert (r - 1) * (d * ratio.den) == ((r - 1) * ratio.den) * d;
      CancelLt((r - 1) * ratio.den, c * ratio.num, d);
    }
  }

  // ----- global settlement

  /** What a position pays and what the fund gets of it when the asset is globally settled. */
  function GlobalFill(c: Call, pays: Price, fund: Price, marginCall: bool): (f: Fill)
    requires c.Open() && pays.Valid() && fund.Valid()
    ensures f.callReceives == c.debt
    ensures 0 < f.otherReceives <= f.callPays <= c.collateral
    ensures !marginCall ==> f.otherReceives == f.callPays
  {
    UpIsPositive(c.debt, pays);
    UpIsPositive(c.debt, fund);
    var up := MulUp(c.debt, pays);
    var paid := if up > c.collateral then c.collateral else up;
    var got := MulUp(c.debt, fund);
    Fill(paid, c.debt, if marginCall && got <= paid then got else paid)
  }

  /** It pays its debt's worth if the collateral is enough, and the fund gets its part of that. */
  lemma GlobalFillAmounts(c: Call, pays: Price, fund: Price, marginCall: bool)
    requires c.Open() && pays.Valid() && fund.Valid()
    ensures var f := GlobalFill(c, pays, fund, marginCall);
            forall u: nat, g: nat :: RoundedUp(u, c.debt, pays) && RoundedUp(g, c.debt, fund) ==>
              && f.callPays == (if u > c.collateral then c.collateral else u)
              && f.otherReceives == (if marginCall && g < f.callPays then g else f.callPays)
  {
    hide MulUp, RoundedUp;
    forall u: nat, g: nat | RoundedUp(u, c.debt, pays) && RoundedUp(g, c.debt, fund)
      ensures u == MulUp(c.debt, pays) && g == MulUp(c.debt, fund)
    {
      UpIsRounded(c.debt, pays);
      UpIsRounded(c.debt, fund);
      OnlyOneUp(u, MulUp(c.debt, pays), c.debt, pays);
      OnlyOneUp(g, MulUp(c.debt, fund), c.debt, fund);
    }
  }
}

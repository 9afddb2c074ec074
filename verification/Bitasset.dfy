/**
 * A market-pegged asset: its debt positions, the orders that redeem it, the two settlement funds
 * and its supply, with every operation that moves them.
 *
 * Two things are kept by every operation: each unit of supply is owed by a position or by a
 * settlement fund, and each unit of collateral stays accounted for.
 */
module Bitasset {
  import opened Rounding
  import opened Ledger
  import opened MarketFees
  import opened Settlement
  import opened MarginCall

  /** `black_swan_response_type`. */
  datatype Mode = GlobalSettlement | NoSettlement | ToFund | ToOrder

  /** A limit order selling the debt asset for collateral: base is debt, quote is collateral. */
  datatype Limit = Limit(seller: Account, forSale: nat, price: Price)

  datatype Settle = Settle(owner: Account, balance: nat)

  /** A bid of additional collateral for debt of a globally settled asset. */
  datatype Bid = Bid(bidder: Account, collateral: nat, debt: nat)

  /** The feed prices the market rules use, in debt per collateral. */
  datatype Feed = Feed(price: Price, mssr: nat, mcfr: nat) {
    ghost predicate Valid() {
      price.Valid() && mssr > COLLATERAL_RATIO_DENOM
    }

    /** `get_margin_call_price_numerator`: the squeeze ratio less the fee, at least 1.00. */
    function Numerator(): (n: nat)
      requires Valid()
      ensures COLLATERAL_RATIO_DENOM <= n <= mssr && n + mcfr >= mssr
      ensures n == COLLATERAL_RATIO_DENOM || n + mcfr == mssr
    {
      if mcfr < mssr && mssr - mcfr >= COLLATERAL_RATIO_DENOM then mssr - mcfr else COLLATERAL_RATIO_DENOM
    }

    /** The price a margin call pays. */
    function SqueezePrice(): (p: Price)
      requires Valid()
      ensures p.Valid() && p.base * (price.quote * mssr) == (price.base * COLLATERAL_RATIO_DENOM) * p.quote
    {
      MulLe(1, price.quote, mssr);
      Price(price.base * COLLATERAL_RATIO_DENOM, price.quote * mssr)
    }

    /** The price the counterparty of a margin call trades at; the difference is the fee. */
    function OrderPrice(): (p: Price)
      requires Valid()
      ensures p.Valid() && SqueezePrice().AtMost(p)
      ensures p.base * (price.quote * Numerator()) == (price.base * COLLATERAL_RATIO_DENOM) * p.quote
    {
      MulLe(1, price.quote, Numerator());
      var k := price.base * COLLATERAL_RATIO_DENOM;
      MulLe(Numerator(), mssr, price.quote);
      MulLe(price.quote * Numerator(), price.quote * mssr, k);
      Price(k, price.quote * Numerator())
    }

    function PaysRatio(): (r: Ratio)
      requires Valid()
      ensures r.Valid() && r.num * mssr == Numerator() * r.den
    {
      Ratio(Numerator(), mssr)
    }
  }

  /** `price * ratio` for a price in debt per collateral: the same debt costs more collateral. */
  function Times(p: Price, r: Ratio): (q: Price)
    requires p.Valid() && r.Valid()
    ensures q.Valid() && q.AtMost(p)
    ensures q.base * (p.quote * r.den) == (p.base * r.num) * q.quote
  {
    MulLe(r.num, r.den, p.base * p.quote);
    assert (p.base * r.num) * p.quote == r.num * (p.base * p.quote);
    assert p.base * (p.quote * r.den) == r.den * (p.base * p.quote);
    MulLe(1, r.num, p.base);
    MulLe(1, r.den, p.quote);
    Price(p.base * r.num, p.quote * r.den)
  }

  // ----- what the objects hold

  function DebtOf(who: Account, c: Call): (r: int) {
    c.debt
  }

  function CollateralOf(who: Account, c: Call): (r: int) {
    c.collateral
  }

  function ForSaleOf(id: nat, l: Limit): (r: int) {
    l.forSale
  }

  function BalanceOf(id: nat, s: Settle): (r: int) {
    s.balance
  }

  ghost function TotalDebt(calls: map<Account, Call>): (r: int) {
    Sum(calls, DebtOf)
  }

  ghost function TotalCollateral(calls: map<Account, Call>): (r: int) {
    Sum(calls, CollateralOf)
  }

  ghost function TotalForSale(limits: map<nat, Limit>): (r: int) {
    Sum(limits, ForSaleOf)
  }

  ghost function TotalSettling(settles: map<nat, Settle>): (r: int) {
    Sum(settles, BalanceOf)
  }

  ghost function BidTotal(bids: seq<Bid>): (r: int) {
    if bids == [] then 0 else bids[0].collateral + BidTotal(bids[1..])
  }

  /** One bid per account, the best first. */
  ghost predicate BidsOk(bids: seq<Bid>) {
    && (forall i :: 0 <= i < |bids| ==> bids[i].debt > 0)
    && forall i, j :: 0 <= i < j < |bids| ==> bids[i].bidder != bids[j].bidder && NoBetter(bids[j], bids[i])
  }

  ghost predicate CallsOk(calls: map<Account, Call>) {
    forall a :: a in calls ==> calls[a].Open()
  }

  ghost predicate LimitsOk(limits: map<nat, Limit>, nextId: nat) {
    forall i :: i in limits ==> limits[i].price.Valid() && limits[i].forSale > 0 && i < nextId
  }

  ghost predicate SettlesOk(settles: map<nat, Settle>, nextId: nat) {
    forall i :: i in settles ==> settles[i].balance > 0 && i < nextId
  }

  /** The individual settlement debt and fund, and the order that sells the fund. */
  ghost predicate PoolOk(mode: Mode, debt: nat, fund: nat, order: Option<DebtOrder>) {
    && (debt == 0 <==> fund == 0)
    && (debt > 0 ==> mode == ToFund || mode == ToOrder)
    && (order.Some? <==> mode == ToOrder && debt > 0)
    && (order.Some? ==> Backed(debt, fund, order.value))
  }

  /**
   * Before a global settlement the supply is owed by the positions and the individual pool;
   * afterwards there is neither, and the fund covers the supply at the settlement price.
   */
  ghost predicate SupplyBacked(supply: nat, calls: map<Account, Call>, poolDebt: nat, mode: Mode,
                               settlement: Option<Price>, gsFund: nat, bids: seq<Bid>)
  {
    match settlement
    case None => supply == TotalDebt(calls) + poolDebt && gsFund == 0 && bids == []
    case Some(p) => calls == map[] && poolDebt == 0 && mode == GlobalSettlement && FundCovers(gsFund, supply, p)
  }

  /** The operations of a run, with the prices the chain would supply. */
  datatype Command =
    | Borrow(who: Account, debt: int, collateral: int)
    | Transfer(from: Account, to: Account, asset: Asset, amount: nat)
    | Sell(who: Account, amount: nat, minToReceive: nat)
    | CancelSell(id: nat)
    | Redeem(who: Account, amount: nat, force: bool, maybeFeed: Option<Feed>)
    | CancelRedeem(id: nat)
    | Respond(response: Mode)
    | Publish(feed: Feed)
    | Offer(who: Account, bidCollateral: nat, bidDebt: nat, allowed: bool)
    | Settled(price: Price, mssr: nat, check: bool, maintenance: Price)
    | Maintain(feedPrice: Price, ratio: nat)
    | Takeover(issuer: Account)
    | MarginCall(id: nat, who: Account, feed: Feed)
    | TakeCall(id: nat, who: Account, feed: Feed)
    | Squeeze(id: nat, who: Account, feed: Feed, settleIsMaker: bool)
    | Expire(id: nat, who: Account, price: Price, maxSettlement: nat, feed: Feed)
    | BlackSwan(who: Account, feed: Feed)
    | CheckSwan(feed: Feed, enabled: bool, maintenance: Price)
    | CheckCalls(feed: Feed, enabled: bool, maintenance: Price, skipSettles: bool)
    | CheckDebtOrder
    | TakeDebt(id: nat)
    | TakeLimit(id: nat)
  {
    /** The prices of the command are valid. */
    predicate PricesValid() {
      match this
      case Redeem(_, _, _, maybeFeed) => maybeFeed.Some? ==> FeedValid(maybeFeed.value)
      case Publish(feed) => FeedValid(feed)
      case Settled(price, mssr, _, _) => price.base > 0 && price.quote > 0 && mssr > COLLATERAL_RATIO_DENOM
      case MarginCall(_, _, feed) => FeedValid(feed)
      case TakeCall(_, _, feed) => FeedValid(feed)
      case Squeeze(_, _, feed, _) => FeedValid(feed)
      case Expire(_, _, price, _, feed) => price.base > 0 && price.quote > 0 && FeedValid(feed)
      case BlackSwan(_, feed) => FeedValid(feed)
      case CheckSwan(feed, _, _) => FeedValid(feed)
      case CheckCalls(feed, _, _, _) => FeedValid(feed)
      case _ => true
    }
  }

  /** What the black swan check did: nothing, refused to settle, or settled. */
  datatype SwanResult = Quiet | NotAllowed | Occurred

  predicate FeedValid(feed: Feed)
    ensures FeedValid(feed) <==> feed.Valid()
  {
    feed.price.base > 0 && feed.price.quote > 0 && feed.mssr > COLLATERAL_RATIO_DENOM
  }

  class Mpa {
    const debtAsset: Asset
    const backing: Asset
    const feeRule: FeeRule              // market fee of the backing asset
    const forceSettleFee: nat           // percent

    var supply: nat
    var calls: map<Account, Call>
    var limits: map<nat, Limit>
    var settles: map<nat, Settle>
    var nextId: nat
    var mode: Mode
    var poolDebt: nat
    var poolFund: nat
    var debtOrder: Option<DebtOrder>
    var settlement: Option<Price>       // supply and collateral at the time of global settlement
    var gsFund: nat
    var bids: seq<Bid>
    var collateralFees: nat
    var marketFees: nat                 // in the backing asset
    var funds: Funds

    /** All collateral of the asset, wherever it is. */
    ghost function Collateral(): (r: int)
      reads this
    {
      Held(funds, backing) + TotalCollateral(calls) + poolFund + gsFund + collateralFees + marketFees + BidTotal(bids)
    }

    // ----- what every reachable state satisfies

    ghost predicate Parameters() {
      debtAsset != backing && feeRule.Valid() && forceSettleFee <= FULL_PERCENT
    }

    ghost predicate Valid()
      reads this
    {
      && Parameters()
      && CallsOk(calls) && LimitsOk(limits, nextId) && SettlesOk(settles, nextId) && BidsOk(bids)
      && PoolOk(mode, poolDebt, poolFund, debtOrder)
      && SupplyBacked(supply, calls, poolDebt, mode, settlement, gsFund, bids)
      && Held(funds, debtAsset) + TotalForSale(limits) + TotalSettling(settles) == supply
    }

    constructor (debtAsset: Asset, backing: Asset, feeRule: FeeRule, forceSettleFee: nat, mode: Mode, funds: Funds)
      requires debtAsset != backing && feeRule.Valid() && forceSettleFee <= FULL_PERCENT
      requires Held(funds, debtAsset) == 0
      ensures Valid() && Collateral() == Held(funds, backing) && supply == 0
      ensures this.debtAsset == debtAsset && this.backing == backing && this.funds == funds && this.mode == mode
      ensures calls == map[] && limits == map[] && settles == map[] && nextId == 0 && settlement.None?
    {
      this.debtAsset, this.backing, this.feeRule, this.forceSettleFee := debtAsset, backing, feeRule, forceSettleFee;
      this.mode, this.funds := mode, funds;
      supply, calls, limits, settles, nextId := 0, map[], map[], map[], 0;
      poolDebt, poolFund, debtOrder := 0, 0, None;
      settlement, gsFund, bids := None, 0, [];
      collateralFees, marketFees := 0, 0;
    }

    // ----- moving money

    /** `adjust_balance` with a non-negative amount. */
    method Give(who: Account, asset: Asset, amount: nat)
      modifies this`funds
      ensures funds == Pay(old(funds), who, asset, amount)
      ensures forall a :: Held(funds, a) == old(Held(funds, a)) + (if a == asset then amount else 0)
    {
      forall a { AdjustMovesTotal(funds, who, asset, amount, a); }
      funds := Pay(funds, who, asset, amount);
    }

    /** `adjust_balance` with a negative amount: fails exactly when the balance is too small. */
    method Take(who: Account, asset: Asset, amount: nat) returns (ok: bool)
      modifies this`funds
      ensures ok <==> old(Balance(funds, who, asset)) >= amount
      ensures !ok ==> funds == old(funds)
      ensures ok ==> Adjust(old(funds), who, asset, 0 - amount) == Some(funds)
      ensures ok ==> forall a :: Held(funds, a) == old(Held(funds, a)) - (if a == asset then amount else 0)
    {
      var r := Adjust(funds, who, asset, 0 - amount);
      if r.None? {
        return false;
      }
      forall a { AdjustMovesTotal(funds, who, asset, 0 - amount, a); }
      funds := r.value;
      ok := true;
    }

    /** Pays collateral to an account after the market fee. */
    method PayOut(who: Account, amount: nat, isMaker: bool) returns (net: nat)
      requires Parameters()
      modifies this`funds, this`marketFees
      ensures net == amount - MarketFee(feeRule, amount, isMaker)
      ensures funds == Pay(old(funds), who, backing, net)
      ensures Held(funds, debtAsset) == old(Held(funds, debtAsset))
      ensures Held(funds, backing) + marketFees == old(Held(funds, backing) + marketFees) + amount
    {
      var fee := MarketFee(feeRule, amount, isMaker);
      net := amount - fee;
      marketFees := marketFees + fee;
      Give(who, backing, net);
    }

    /**
     * `fill_call_order`: the position pays collateral for debt.  A closed position is removed and
     * its remaining collateral freed; the margin call fee goes to the asset.
     */
    method FillCall(who: Account, f: Fill, reduceSupply: bool) returns (closed: bool)
      requires Parameters() && CallsOk(calls) && who in calls && Payable(calls[who], f)
      requires reduceSupply ==> f.callReceives <= supply
      modifies this`calls, this`funds, this`collateralFees, this`supply
      ensures CallsOk(calls)
      ensures closed <==> f.callReceives == old(calls)[who].debt
      ensures !closed ==> funds == old(funds)
      ensures !closed ==>
        calls == old(calls)[who := Call(old(calls)[who].debt - f.callReceives, old(calls)[who].collateral - f.callPays)]
      ensures closed ==> calls == old(calls) - {who}
      ensures closed ==> funds == Pay(old(funds), who, backing, old(calls)[who].collateral - f.callPays)
      ensures supply == old(supply) - (if reduceSupply then f.callReceives else 0)
      ensures collateralFees == old(collateralFees) + (f.callPays - f.otherReceives)
      ensures TotalDebt(calls) == old(TotalDebt(calls)) - f.callReceives
      ensures Held(funds, debtAsset) == old(Held(funds, debtAsset))
      ensures Held(funds, backing) + TotalCollateral(calls) + collateralFees
           == old(Held(funds, backing) + TotalCollateral(calls) + collateralFees) - f.otherReceives
    {
      hide Sum, Pay;
      var c := calls[who];
      var left := Call(c.debt - f.callReceives, c.collateral - f.callPays);
      closed := left.debt == 0;
      collateralFees := collateralFees + (f.callPays - f.otherReceives);
      if reduceSupply {
        supply := supply - f.callReceives;
      }
      if closed {
        SumWithout(calls, who, DebtOf);
        SumWithout(calls, who, CollateralOf);
        calls := calls - {who};
        Give(who, backing, left.collateral);
      } else {
        SumUpdate(calls, who, left, DebtOf);
        SumUpdate(calls, who, left, CollateralOf);
        calls := calls[who := left];
      }
    }

    /**
     * `fill_limit_order` of an order selling the debt asset.  What it pays is burnt by the caller;
     * a remainder that is worth nothing at its own price is refunded when `cull` is set.
     */
    method FillLimit(id: nat, pays: nat, receives: nat, cull: bool, isMaker: bool) returns (filled: bool)
      requires Parameters() && LimitsOk(limits, nextId) && id in limits && pays <= limits[id].forSale
      modifies this`limits, this`funds, this`marketFees
      ensures LimitsOk(limits, nextId)
      ensures filled <==> pays == old(limits)[id].forSale
                          || (cull && MulDown(old(limits)[id].forSale - pays, old(limits)[id].price) == 0)
      ensures filled ==> limits == old(limits) - {id}
      ensures !filled ==> limits == old(limits)[id := old(limits)[id].(forSale := old(limits)[id].forSale - pays)]
      ensures var l := old(limits)[id];
              funds == AfterLimit(old(funds), l, debtAsset, backing, pays,
                                  receives - MarketFee(feeRule, receives, isMaker), filled)
      ensures Held(funds, debtAsset) + TotalForSale(limits) == old(Held(funds, debtAsset) + TotalForSale(limits)) - pays
      ensures Held(funds, backing) + marketFees == old(Held(funds, backing) + marketFees) + receives
    {
      hide Sum, MulDown, Pay;
      var l := limits[id];
      var net := PayOut(l.seller, receives, isMaker);
      var left := l.forSale - pays;
      filled := left == 0 || (cull && MulDown(left, l.price) == 0);
      if filled {
        SumWithout(limits, id, ForSaleOf);
        limits := limits - {id};
        Give(l.seller, debtAsset, left);
      } else {
        SumUpdate(limits, id, l.(forSale := left), ForSaleOf);
        limits := limits[id := l.(forSale := left)];
      }
    }

    /** `cancel_settle_order`. */
    method CancelSettleOrder(id: nat)
      requires Parameters() && SettlesOk(settles, nextId) && id in settles
      modifies this`settles, this`funds
      ensures SettlesOk(settles, nextId)
      ensures settles == old(settles) - {id}
      ensures funds == Pay(old(funds), old(settles)[id].owner, debtAsset, old(settles)[id].balance)
      ensures Held(funds, debtAsset) + TotalSettling(settles) == old(Held(funds, debtAsset) + TotalSettling(settles))
      ensures Held(funds, backing) == old(Held(funds, backing))
    {
      hide Sum, Pay;
      var s := settles[id];
      SumWithout(settles, id, BalanceOf);
      settles := settles - {id};
      Give(s.owner, debtAsset, s.balance);
    }

    /** `fill_settle_order`: the owner receives collateral less the market fee and the settlement fee. */
    method FillSettle(id: nat, pays: nat, receives: nat, isMaker: bool, payForceFee: bool) returns (filled: bool)
      requires Parameters() && SettlesOk(settles, nextId) && id in settles && pays <= settles[id].balance
      modifies this`settles, this`funds, this`marketFees, this`collateralFees
      ensures SettlesOk(settles, nextId)
      ensures filled <==> pays == old(settles)[id].balance
      ensures filled ==> settles == old(settles) - {id}
      ensures !filled ==> settles == old(settles)[id := old(settles)[id].(balance := old(settles)[id].balance - pays)]
      ensures TotalSettling(settles) == old(TotalSettling(settles)) - pays
      ensures Held(funds, debtAsset) == old(Held(funds, debtAsset))
      ensures Held(funds, backing) + marketFees + collateralFees
           == old(Held(funds, backing) + marketFees + collateralFees) + receives
      ensures var net := receives - MarketFee(feeRule, receives, isMaker);
              var forceFee := if payForceFee then Percent(net, forceSettleFee) else 0;
              && collateralFees == old(collateralFees) + forceFee
              && forceFee <= net && funds == Pay(old(funds), old(settles)[id].owner, backing, net - forceFee)
    {
      hide Sum, Pay, Percent;
      var s := settles[id];
      var marketFee := MarketFee(feeRule, receives, isMaker);
      var forceFee := if payForceFee then Percent(receives - marketFee, forceSettleFee) else 0;
      marketFees := marketFees + marketFee;
      collateralFees := collateralFees + forceFee;
      if pays < s.balance {
        filled := false;
        SumUpdate(settles, id, s.(balance := s.balance - pays), BalanceOf);
        settles := settles[id := s.(balance := s.balance - pays)];
      } else {
        filled := true;
        SumWithout(settles, id, BalanceOf);
        settles := settles - {id};
      }
      Give(s.owner, backing, receives - marketFee - forceFee);
    }

    // ----- borrowing and orders

    /**
     * `call_order_update`: opens, changes or closes a debt position.  Debt and supply move together.
     * The collateral ratio checks of the evaluator only refuse more.
     */
    method UpdatePosition(who: Account, deltaDebt: int, deltaCollateral: int) returns (ok: bool)
      requires Valid()
      modifies this`calls, this`funds, this`supply
      ensures Valid() && Collateral() == old(Collateral())
      ensures !ok ==> calls == old(calls) && funds == old(funds) && supply == old(supply)
      ensures ok <==> var before := if who in old(calls) then old(calls)[who] else Call(0, 0);
                      && settlement.None?
                      && (if who in old(calls) && before.debt + deltaDebt == 0
                          then before.collateral + deltaCollateral == 0
                          else before.debt + deltaDebt > 0 && before.collateral + deltaCollateral > 0)
                      && old(Balance(funds, who, debtAsset)) + deltaDebt >= 0
                      && old(Balance(funds, who, backing)) >= deltaCollateral
      ensures ok ==> forall w, a :: Balance(funds, w, a)
                       == old(Balance(funds, w, a)) + (if w == who && a == debtAsset then deltaDebt else 0)
                          - (if w == who && a == backing then deltaCollateral else 0)
      ensures ok ==> settlement.None? && supply == old(supply) + deltaDebt
      ensures ok ==> var before := if who in old(calls) then old(calls)[who] else Call(0, 0);
                     && before.debt + deltaDebt >= 0 && before.collateral + deltaCollateral >= 0
                     && var after := Call(before.debt + deltaDebt, before.collateral + deltaCollateral);
                     && calls == if after.debt == 0 then old(calls) - {who} else old(calls)[who := after]
    {
      hide Sum, Adjust, PoolOk, Balance, BidTotal, Held, FundCovers;
      if settlement.Some? {
        return false;
      }
      var before := if who in calls then calls[who] else Call(0, 0);
      var debt, collateral := before.debt + deltaDebt, before.collateral + deltaCollateral;
      var closing := who in calls && debt == 0;
      if (closing && collateral != 0) || (!closing && (debt <= 0 || collateral <= 0)) {
        return false;
      }
      var f1 := Adjust(funds, who, debtAsset, deltaDebt);
      if f1.None? {
        return false;
      }
      var f2 := Adjust(f1.value, who, backing, -deltaCollateral);
      if f2.None? {
        return false;
      }
      AdjustMovesTotal(funds, who, debtAsset, deltaDebt, debtAsset);
      AdjustMovesTotal(funds, who, debtAsset, deltaDebt, backing);
      AdjustMovesTotal(f1.value, who, backing, -deltaCollateral, debtAsset);
      AdjustMovesTotal(f1.value, who, backing, -deltaCollateral, backing);
      funds := f2.value;
      SupplyNotNegative(deltaDebt, before, who);
      supply := supply + deltaDebt;
      WritePosition(who, Call(debt, collateral));
      ok := true;
    }

    /** Stores a position, or removes it when its debt is zero. */
    method WritePosition(who: Account, c: Call)
      requires CallsOk(calls) && (c.Open() || c.debt == c.collateral == 0)
      modifies this`calls
      ensures CallsOk(calls)
      ensures calls == if c.debt == 0 then old(calls) - {who} else old(calls)[who := c]
      ensures TotalDebt(calls) == old(TotalDebt(calls)) + c.debt
                                - (if who in old(calls) then old(calls)[who].debt else 0)
      ensures TotalCollateral(calls) == old(TotalCollateral(calls)) + c.collateral
                                - (if who in old(calls) then old(calls)[who].collateral else 0)
    {
      hide Sum;
      if c.debt == 0 {
        if who in calls {
          SumWithout(calls, who, DebtOf);
          SumWithout(calls, who, CollateralOf);
        } else {
          assert calls - {who} == calls;
        }
        calls := calls - {who};
      } else {
        SumUpdate(calls, who, c, DebtOf);
        SumUpdate(calls, who, c, CollateralOf);
        calls := calls[who := c];
      }
    }

    /** The check that a change does not bring the supply below zero never fails. */
    lemma SupplyNotNegative(deltaDebt: int, before: Call, who: Account)
      requires CallsOk(calls) && supply == TotalDebt(calls) + poolDebt && before.debt + deltaDebt >= 0
      requires before == if who in calls then calls[who] else Call(0, 0)
      ensures supply + deltaDebt >= 0
    {
      if who in calls {
        SumBoundsTerm(calls, who, DebtOf);
      }
    }

    /** A transfer between accounts: fails exactly when the balance is too small. */
    method MoveFunds(from: Account, to: Account, asset: Asset, amount: nat) returns (ok: bool)
      requires Valid()
      modifies this`funds
      ensures Valid() && Collateral() == old(Collateral())
      ensures ok <==> old(Balance(funds, from, asset)) >= amount
      ensures !ok ==> funds == old(funds)
      ensures ok ==> exists left: Funds :: Adjust(old(funds), from, asset, 0 - amount) == Some(left)
                                            && funds == Pay(left, to, asset, amount)
    {
      hide Sum, Adjust, PoolOk, Balance, BidTotal, Held, FundCovers, Pay;
      ok := Take(from, asset, amount);
      if ok {
        Give(to, asset, amount);
      }
    }

    /** Puts a limit order selling the debt asset on the book. */
    method PlaceLimit(who: Account, amount: nat, minToReceive: nat) returns (ok: bool)
      requires Valid()
      modifies this`limits, this`funds, this`nextId
      ensures Valid() && Collateral() == old(Collateral())
      ensures ok <==> amount > 0 && minToReceive > 0 && old(Balance(funds, who, debtAsset)) >= amount
      ensures ok ==> limits == old(limits)[old(nextId) := Limit(who, amount, Price(amount, minToReceive))]
      ensures ok ==> Adjust(old(funds), who, debtAsset, 0 - amount) == Some(funds)
      ensures !ok ==> limits == old(limits) && funds == old(funds)
    {
      hide Sum, Adjust, PoolOk, Balance, BidTotal, Held, FundCovers;
      if amount == 0 || minToReceive == 0 {
        return false;
      }
      ok := Take(who, debtAsset, amount);
      if ok {
        var l := Limit(who, amount, Price(amount, minToReceive));
        SumUpdate(limits, nextId, l, ForSaleOf);
        limits := limits[nextId := l];
        nextId := nextId + 1;
      }
    }

    /** Cancels a limit order, or removes it as dust. */
    method CancelLimit(id: nat)
      requires Valid() && id in limits
      modifies this`limits, this`funds
      ensures Valid() && Collateral() == old(Collateral())
      ensures limits == old(limits) - {id}
      ensures funds == Pay(old(funds), old(limits)[id].seller, debtAsset, old(limits)[id].forSale)
    {
      hide Sum, Pay, PoolOk;
      var l := limits[id];
      SumWithout(limits, id, ForSaleOf);
      limits := limits - {id};
      Give(l.seller, debtAsset, l.forSale);
    }

    /** `cancel_settle_order` as an operation. */
    method CancelSettlement(id: nat)
      requires Valid() && id in settles
      modifies this`settles, this`funds
      ensures Valid() && Collateral() == old(Collateral())
      ensures settles == old(settles) - {id}
      ensures funds == Pay(old(funds), old(settles)[id].owner, debtAsset, old(settles)[id].balance)
    {
      hide Sum, PoolOk;
      CancelSettleOrder(id);
    }

    /** Changes the black swan response, refused while there is settled debt or a global settlement. */
    method SetMode(next: Mode) returns (ok: bool)
      requires Valid()
      modifies this`mode
      ensures Valid() && Collateral() == old(Collateral())
      ensures (ok <==> mode == next) && (!ok ==> mode == old(mode))
      ensures !ok <==> next != old(mode) && (settlement.Some? || poolDebt > 0)
    {
      if next == mode {
        return true;
      }
      if settlement.Some? || (mode == ToFund && poolDebt != 0) || (mode == ToOrder && debtOrder.Some?) {
        return false;
      }
      mode := next;
      ok := true;
    }

    // ----- margin calls

    /**
     * A margin call takes a resting limit order, at the order's price.  It is refused exactly when
     * the position cannot take the trade; otherwise the order or the position is finished, and a
     * position that stays has no lower ratio than before.
     */
    method CallTakesLimit(id: nat, who: Account, ratio: Ratio) returns (done: bool)
      requires Valid() && settlement.None? && id in limits && who in calls && ratio.Valid()
      modifies this`calls, this`limits, this`funds, this`collateralFees, this`marketFees, this`supply
      ensures Valid() && Collateral() == old(Collateral())
      ensures var l, c := old(limits)[id], old(calls)[who];
              done <==> if c.debt > l.forSale then !MustCap(c, SmallerLimit(l.forSale, l.price, Times(l.price, ratio)))
                        else WholeDebt(c, l.price, Times(l.price, ratio)).callPays <= c.collateral
      ensures !done ==> calls == old(calls) && limits == old(limits) && funds == old(funds) && supply == old(supply)
      ensures done ==> id !in limits || who !in calls
      ensures limits.Keys <= old(limits).Keys && calls.Keys <= old(calls).Keys
      ensures Price(old(calls)[who].debt, old(calls)[who].collateral).AtMost(Times(old(limits)[id].price, ratio)) ==>
                done
      ensures done && who in calls ==> RatioKept(old(calls)[who], calls[who])
      ensures done ==> old(supply) - supply == old(calls)[who].debt - (if who in calls then calls[who].debt else 0)
      ensures var l, c := old(limits)[id], old(calls)[who];
              var f := TakerFill(l.forSale, c, l.price, Times(l.price, ratio));
              done ==> && old(supply) - supply == f.callReceives
                       && collateralFees - old(collateralFees) == f.callPays - f.otherReceives
                       && Traded(old(calls), old(limits), old(funds), calls, limits, funds, who, id, f,
                                 debtAsset, backing, f.otherReceives - MarketFee(feeRule, f.otherReceives, true), true)
    {
      hide Sum, PoolOk, MulDown, MulUp, MustCap, Times, RatioKept, Calculate, Held, FundCovers, SettlesOk,
        BidsOk, BidTotal, Pay, MarketFee, Percent, Adjust, Balance, Dust, Backed, TotalDebt, TotalCollateral,
        TotalForSale, TotalSettling;
      DustIsWorthNothing(limits[id].price);
      var l, c := limits[id], calls[who];
      var pays := Times(l.price, ratio);
      var f;
      OwedBySupply(who);
      TakerFillIsSafe(l.forSale, c, l.price, pays);
      if c.debt > l.forSale {
        f := SmallerLimit(l.forSale, l.price, pays);
        LimitGuard(l.forSale, c, l.price, pays);
        if MustCap(c, f) {
          return false;
        }
        Stabilise(l.forSale, l.price);
        SmallerLimitAmounts(l.forSale, l.price, pays);
      } else {
        f := WholeDebt(c, l.price, pays);
        WholeDebtGuard(c, l.price, pays);
        if f.callPays > c.collateral {
          return false;
        }
      }
      var closed := FillCall(who, f, true);
      var filled := FillLimit(id, f.callReceives, f.otherReceives, true, true);
      done := true;
    }

    /**
     * `match` of a new limit order with a margin call, at the margin call order price.  There is no
     * guard: the trade fails when the position cannot pay it.  Otherwise the limit order or the
     * position is always finished; a position that stays keeps its ratio exactly when the trade
     * costs no more per debt than the position has, in particular when it is worth its debt at the
     * squeeze price.
     */
    method LimitTakesCall(id: nat, who: Account, feed: Feed) returns (done: bool)
      requires Valid() && settlement.None? && id in limits && who in calls && feed.Valid()
      requires feed.OrderPrice().AtMost(limits[id].price)
      modifies this`calls, this`limits, this`funds, this`collateralFees, this`marketFees, this`supply
      ensures Valid() && Collateral() == old(Collateral())
      ensures var f := TakerFill(old(limits)[id].forSale, old(calls)[who], feed.OrderPrice(), feed.SqueezePrice());
              && (done <==> f.otherReceives == 0 || Payable(old(calls)[who], f))
              && (done && f.otherReceives == 0 ==>
                    calls == old(calls) && limits == old(limits) - {id} && supply == old(supply))
              && (done && f.otherReceives > 0 ==> old(supply) - supply == f.callReceives)
              && (done && f.otherReceives > 0 ==> collateralFees - old(collateralFees) == f.callPays - f.otherReceives)
              && (done && f.otherReceives > 0 ==>
                    Traded(old(calls), old(limits), old(funds), calls, limits, funds, who, id, f, debtAsset, backing,
                           f.otherReceives - MarketFee(feeRule, f.otherReceives, false),
                           old(calls)[who].debt > old(limits)[id].forSale))
              && (done && f.otherReceives > 0 && who in calls ==>
                    (RatioKept(old(calls)[who], calls[who])
                     <==> f.callPays * old(calls)[who].debt <= f.callReceives * old(calls)[who].collateral))
      ensures !done ==> calls == old(calls) && limits == old(limits) && funds == old(funds) && supply == old(supply)
      ensures done ==> id !in limits || who !in calls
      ensures done ==> old(supply) - supply == old(calls)[who].debt - (if who in calls then calls[who].debt else 0)
      ensures Price(old(calls)[who].debt, old(calls)[who].collateral).AtMost(feed.SqueezePrice()) ==>
                done && (who in calls ==> RatioKept(old(calls)[who], calls[who]))
    {
      hide Sum, PoolOk, MulDown, MulUp, RatioKept, Calculate, Held, FundCovers, SettlesOk, BidsOk, BidTotal,
        Feed.OrderPrice, Feed.SqueezePrice, Pay, MarketFee, Percent, Adjust, Balance, TotalDebt,
        TotalCollateral, TotalForSale, TotalSettling, Dust, Backed;
      DustIsWorthNothing(limits[id].price);
      var l, c := limits[id], calls[who];
      var price, pays := feed.OrderPrice(), feed.SqueezePrice();
      OwedBySupply(who);
      TakerFillIsSafe(l.forSale, c, price, pays);
      SelfRatio(c);
      var f := TakerFill(l.forSale, c, price, pays);
      WholeReceives(l.forSale, c, price, pays);
      if f.otherReceives == 0 {
        CancelLimit(id);
        return true;
      }
      if !Payable(c, f) {
        return false;
      }
      if c.debt > l.forSale {
        SmallerLimitAmounts(l.forSale, price, pays);
        WorsePriceGivesNoMore(l.forSale - f.callReceives, l.price, price);
      }
      var closed := FillCall(who, f, true);
      var filled := FillLimit(id, f.callReceives, f.otherReceives, c.debt > l.forSale, false);
      done := true;
    }

    lemma OwedBySupply(who: Account)
      requires CallsOk(calls) && who in calls && supply == TotalDebt(calls) + poolDebt
      ensures calls[who].debt <= supply
    {
      SumBoundsTerm(calls, who, DebtOf);
    }

    /**
     * `priceimpl` of a margin call with a force settlement.  The settlement or the position is
     * always finished, and a position that stays has no lower ratio than before.
     */
    method CallMeetsSettle(id: nat, who: Account, feed: Feed, settleIsMaker: bool) returns (covered: nat)
      requires Valid() && settlement.None? && id in settles && who in calls && feed.Valid()
      modifies this`calls, this`settles, this`funds, this`collateralFees, this`marketFees, this`supply
      ensures Valid() && Collateral() == old(Collateral())
      ensures id !in settles || who !in calls
      ensures settles.Keys <= old(settles).Keys && calls.Keys <= old(calls).Keys
      ensures covered == 0 ==> calls == old(calls)
      ensures OnlyChanged(old(calls), calls, who)
      ensures var s, c := old(settles)[id], old(calls)[who];
              var squeeze, order := feed.SqueezePrice(), feed.OrderPrice();
              var r := MatchSettle(s.balance, c.debt, c, squeeze, order, feed.PaysRatio(), true);
              && Redeemed(old(calls), old(settles), old(funds), calls, settles, funds, who, id, r, debtAsset, backing,
                          if !r.Trade? then 0
                          else r.fill.otherReceives - MarketFee(feeRule, r.fill.otherReceives, settleIsMaker))
              && collateralFees
                 == old(collateralFees) + (if r.Trade? then r.fill.callPays - r.fill.otherReceives else 0)
      ensures who in calls ==> RatioKept(old(calls)[who], calls[who]) && calls[who].Open()
      ensures covered == old(supply) - supply
      ensures covered == old(calls)[who].debt - (if who in calls then calls[who].debt else 0)
    {
      hide Sum, PoolOk, RatioKept, Held, FundCovers, MatchSettle, LimitsOk, BidsOk, BidTotal, Pay, MarketFee,
        Percent, Adjust, Balance, TotalDebt, TotalCollateral, TotalForSale, TotalSettling;
      var s, c := settles[id], calls[who];
      OwedBySupply(who);
      MarginCallIsSafe(s.balance, c, feed.SqueezePrice(), feed.OrderPrice(), feed.PaysRatio());
      var r := MatchSettle(s.balance, c.debt, c, feed.SqueezePrice(), feed.OrderPrice(), feed.PaysRatio(), true);
      MarginSettleFinishes(s.balance, c, feed.SqueezePrice(), feed.OrderPrice(), feed.PaysRatio());
      SelfRatio(c);
      covered := if r.Trade? then r.fill.callReceives else 0;
      CarryOut(id, who, r, settleIsMaker, false);
    }

    /** Carries out what a force settlement and a position trade. */
    method CarryOut(id: nat, who: Account, r: SettleOutcome, settleIsMaker: bool, payForceFee: bool)
      requires Valid() && settlement.None? && id in settles && who in calls
      requires r.Trade? ==> Payable(calls[who], r.fill) && r.fill.callReceives == r.settlePays <= settles[id].balance
      requires r.Trade? && r.cull ==> r.settlePays < settles[id].balance
      modifies this`calls, this`settles, this`funds, this`collateralFees, this`marketFees, this`supply
      ensures Valid() && Collateral() == old(Collateral())
      ensures supply == old(supply) - (if r.Trade? then r.fill.callReceives else 0)
      ensures var net := if !r.Trade? then 0
                         else r.fill.otherReceives - MarketFee(feeRule, r.fill.otherReceives, settleIsMaker);
              var forceFee := if payForceFee then Percent(net, forceSettleFee) else 0;
              && Redeemed(old(calls), old(settles), old(funds), calls, settles, funds, who, id, r, debtAsset, backing,
                          net - forceFee)
              && collateralFees == old(collateralFees) + forceFee
                                   + (if r.Trade? then r.fill.callPays - r.fill.otherReceives else 0)
    {
      hide Sum, PoolOk, Held, FundCovers, LimitsOk, BidsOk, BidTotal, Pay, MarketFee, Percent, Adjust, Balance,
        TotalDebt, TotalCollateral, TotalForSale, TotalSettling, Backed, CallsOk;
      OwedBySupply(who);
      match r
      case CancelSettle =>
        CancelSettleOrder(id);
      case Skip =>
        NoFee(forceSettleFee);
      case Trade(f, settlePays, cull) =>
        var closed := FillCall(who, f, true);
        var filled := FillSettle(id, settlePays, f.otherReceives, settleIsMaker, payForceFee);
        if cull {
          CancelSettleOrder(id);
        }
    }

    /**
     * A scheduled force settlement.  `covered` is the debt it settled.  There is no guard: the trade
     * fails when the position cannot pay it.  A position that stays keeps its ratio exactly when the
     * trade costs no more per debt than the position has, in particular when it is worth its debt
     * at the settlement price.
     */
    method ScheduledSettle(id: nat, who: Account, price: Price, maxSettlement: nat, ratio: Ratio)
      returns (done: bool, covered: nat)
      requires Valid() && settlement.None? && id in settles && who in calls && price.Valid() && ratio.Valid()
      modifies this`calls, this`settles, this`funds, this`collateralFees, this`marketFees, this`supply
      ensures Valid() && Collateral() == old(Collateral())
      ensures var c := old(calls)[who];
              var r := MatchSettle(old(settles)[id].balance, maxSettlement, c, price, price, ratio, false);
              && (done <==> (r.Trade? ==> Payable(old(calls)[who], r.fill)))
              && (done ==>
                    Redeemed(old(calls), old(settles), old(funds), calls, settles, funds, who, id, r,
                             debtAsset, backing,
                             AfterBothFees(feeRule, forceSettleFee, if r.Trade? then r.fill.otherReceives else 0)))
              && (done && r.Trade? ==> covered == r.fill.callReceives)
              && (!r.Trade? ==> covered == 0 && calls == old(calls))
              && (r.CancelSettle? || (done && r.Trade? && (r.cull || covered == old(settles)[id].balance))
                  <==> id !in settles)
              && (done && r.Trade? && who in calls ==>
                    (RatioKept(c, calls[who]) <==> r.fill.callPays * c.debt <= r.fill.callReceives * c.collateral))
      ensures !done ==> calls == old(calls) && settles == old(settles) && funds == old(funds) && covered == 0
      ensures covered == old(supply) - supply <= maxSettlement
      ensures covered == old(calls)[who].debt - (if who in calls then calls[who].debt else 0)
      ensures price.quote * old(calls)[who].debt <= old(calls)[who].collateral * price.base ==>
                done && (who in calls ==> RatioKept(old(calls)[who], calls[who]))
    {
      hide Sum, PoolOk, RatioKept, Held, FundCovers, MatchSettle, LimitsOk, BidsOk, BidTotal, Pay, MarketFee,
        Percent, Adjust, Balance;
      var s, c := settles[id], calls[who];
      OwedBySupply(who);
      ScheduledSettleIsSafe(s.balance, maxSettlement, c, price, ratio);
      var r := MatchSettle(s.balance, maxSettlement, c, price, price, ratio, false);
      SelfRatio(c);
      if r.Trade? && !Payable(c, r.fill) {
        return false, 0;
      }
      CarryOut(id, who, r, false, true);
      done, covered := true, if r.Trade? then r.fill.callReceives else 0;
    }

    // ----- individual settlement

    lemma PoolOwedBySupply()
      requires CallsOk(calls) && supply == TotalDebt(calls) + poolDebt
      ensures poolDebt <= supply
    {
      SumNonNegative(calls, DebtOf);
    }

    /**
     * `individually_settle`: the position's debt moves to the pool and its collateral, less the
     * margin call fee, to the fund.  The supply does not change.
     */
    method IndividuallySettle(who: Account, feed: Feed)
      requires Valid() && settlement.None? && (mode == ToFund || mode == ToOrder) && who in calls && feed.Valid()
      modifies this`calls, this`funds, this`collateralFees, this`supply, this`poolDebt, this`poolFund, this`debtOrder
      ensures Valid() && Collateral() == old(Collateral())
      ensures supply == old(supply) && calls == old(calls) - {who}
      ensures poolDebt == old(poolDebt) + old(calls)[who].debt
      ensures poolFund == old(poolFund) + FundReceives(old(calls)[who], feed.PaysRatio())
      ensures funds == Pay(old(funds), who, backing, 0)
      ensures debtOrder == if mode != ToOrder then None
                           else if old(debtOrder).Some? then Some(Repriced(poolDebt, poolFund, feed.OrderPrice()))
                           else Some(DebtOrder(poolFund, Price(poolFund, poolDebt)))
    {
      hide Sum, Held, FundCovers, LimitsOk, SettlesOk, BidsOk, BidTotal, Repriced, Backed, MulUp, Pay,
        MarketFee, Percent, Adjust, Balance;
      var c := calls[who];
      var received := FundReceives(c, feed.PaysRatio());
      poolDebt := poolDebt + c.debt;
      poolFund := poolFund + received;
      RepricedIsBacked(poolDebt, poolFund, feed.OrderPrice());
      WholeFundIsBacked(poolDebt, poolFund);
      if mode == ToOrder {
        if debtOrder.Some? {
          debtOrder := Some(Repriced(poolDebt, poolFund, feed.OrderPrice()));
        } else {
          debtOrder := Some(DebtOrder(received, Price(received, c.debt)));
        }
      }
      var closed := FillCall(who, Fill(c.collateral, c.debt, received), false);
    }

    /** `update_settled_debt_order` after a new feed. */
    method UpdateFeed(feed: Feed)
      requires Valid() && feed.Valid()
      modifies this`debtOrder
      ensures Valid() && Collateral() == old(Collateral())
      ensures debtOrder == if old(debtOrder).Some? then Some(Repriced(poolDebt, poolFund, feed.OrderPrice())) else None
    {
      hide Sum, Held, FundCovers, LimitsOk, SettlesOk, BidsOk, BidTotal, Repriced, Backed;
      if debtOrder.Some? {
        RepricedIsBacked(poolDebt, poolFund, feed.OrderPrice());
        debtOrder := Some(Repriced(poolDebt, poolFund, feed.OrderPrice()));
      }
    }

    /** The part of both matches that updates the supply, the fee, the pool and the order. */
    method ShrinkPool(f: DebtFill)
      requires debtOrder.Some? && SafeDebtFill(poolDebt, poolFund, debtOrder.value, f) && f.debtReceived <= supply
      requires mode == ToOrder && (poolDebt > 0 && poolFund > 0)
      modifies this`supply, this`collateralFees, this`poolDebt, this`poolFund, this`debtOrder
      ensures PoolOk(mode, poolDebt, poolFund, debtOrder)
      ensures supply == old(supply) - f.debtReceived && poolDebt == old(poolDebt) - f.debtReceived
      ensures poolFund == old(poolFund) - f.fundPays
      ensures collateralFees == old(collateralFees) + (f.fundPays - f.orderReceives)
      ensures debtOrder == if f.filled then None else Some(Shrunk(poolDebt, old(debtOrder).value))
    {
      supply := supply - f.debtReceived;
      collateralFees := collateralFees + (f.fundPays - f.orderReceives);
      poolDebt := poolDebt - f.debtReceived;
      poolFund := poolFund - f.fundPays;
      if f.filled {
        debtOrder := None;
      } else {
        debtOrder := Some(Shrunk(poolDebt, debtOrder.value));
        BackedRatio(poolDebt, poolFund, debtOrder.value);
      }
    }

    /**
     * `pricelimit_settled_debt`: a new limit order takes the settled-debt order.  The "unexpected
     * scene" branches are unreachable; the limit order or the settled-debt order is always finished.
     */
    method LimitTakesDebtOrder(id: nat)
      requires Valid() && id in limits && debtOrder.Some?
      requires limits[id].price.Inverse().AtMost(debtOrder.value.price)
      modifies this`limits, this`funds, this`marketFees
      modifies this`supply, this`collateralFees, this`poolDebt, this`poolFund, this`debtOrder
      ensures Valid() && Collateral() == old(Collateral())
      ensures id !in limits || debtOrder.None?
      ensures debtOrder.None? <==> old(poolDebt) <= old(limits)[id].forSale
      ensures debtOrder.Some? ==> debtOrder.value.price == old(debtOrder).value.price
      ensures old(supply) - supply == old(poolDebt) - poolDebt
      ensures old(debtOrder).value.price.Valid()
      ensures var l, o := old(limits)[id], old(debtOrder).value;
              if old(poolDebt) > l.forSale && l.forSale * o.price.base < o.price.quote then
                && poolDebt == old(poolDebt) && poolFund == old(poolFund) && collateralFees == old(collateralFees)
                && funds == Pay(old(funds), l.seller, debtAsset, l.forSale)
              else
                DebtFilled(old(poolDebt), old(poolFund), old(collateralFees), old(funds), o, l, o.price.Inverse(),
                           poolDebt, poolFund, collateralFees, funds, id !in limits, debtAsset, backing, feeRule, false)
      ensures debtOrder.None? ==> collateralFees - old(collateralFees) == old(poolFund) - old(debtOrder).value.forSale
    {
      hide Sum, Held, FundCovers, CallsOk, SettlesOk, BidsOk, BidTotal, LimitTakes, Backed, MulDown,
        SafeDebtFill, Pay, MarketFee, Percent, Adjust, Balance, FairFill;
      var l, o := limits[id], debtOrder.value;
      PoolOwedBySupply();
      BackedRatio(poolDebt, poolFund, o);
      LimitTakesIsSafe(poolDebt, poolFund, o, l.forSale);
      LimitTakesIsFair(poolDebt, poolFund, o, l.forSale);
      var r := LimitTakes(poolDebt, poolFund, o, l.forSale);
      TakerIsCulled(poolDebt, poolFund, o, l);
      if r.None? {
        CancelLimit(id);
      } else {
        var f := r.value;
        FillFits(poolDebt, poolFund, o, f);
        var filled := FillLimit(id, f.debtReceived, f.orderReceives, !f.filled, false);
        ShrinkPool(f);
      }
    }

    /** `pricesettled_debt_limit`: the settled-debt order takes a resting limit order. */
    method DebtOrderTakesLimit(id: nat)
      requires Valid() && id in limits && debtOrder.Some?
      requires debtOrder.value.price.Inverse().AtMost(limits[id].price)
      modifies this`limits, this`funds, this`marketFees
      modifies this`supply, this`collateralFees, this`poolDebt, this`poolFund, this`debtOrder
      ensures Valid() && Collateral() == old(Collateral())
      ensures limits.Keys <= old(limits).Keys
      ensures id !in limits || debtOrder.None?
      ensures debtOrder.None? <==> old(poolDebt) <= old(limits)[id].forSale
      ensures debtOrder.Some? ==> debtOrder.value.price == old(debtOrder).value.price
      ensures old(supply) - supply == old(poolDebt) - poolDebt
      ensures var l := old(limits)[id];
              DebtFilled(old(poolDebt), old(poolFund), old(collateralFees), old(funds), old(debtOrder).value, l,
                         l.price, poolDebt, poolFund, collateralFees, funds, id !in limits, debtAsset, backing,
                         feeRule, true)
    {
      hide Sum, Held, FundCovers, CallsOk, SettlesOk, BidsOk, BidTotal, DebtOrderTakes, Backed, MulDown,
        SafeDebtFill, Pay, MarketFee, Percent, Adjust, Balance, FairFill;
      var l, o := limits[id], debtOrder.value;
      PoolOwedBySupply();
      BackedRatio(poolDebt, poolFund, o);
      DebtOrderTakesIsSafe(poolDebt, poolFund, o, l.forSale, l.price);
      DebtOrderTakesIsFair(poolDebt, poolFund, o, l.forSale, l.price);
      var f := DebtOrderTakes(poolDebt, poolFund, o, l.forSale, l.price);
      MakerIsCulled(poolDebt, poolFund, o, l);
      FillFits(poolDebt, poolFund, o, f);
      ShrinkPool(f);
      var filled := FillLimit(id, f.debtReceived, f.orderReceives, true, true);
    }

    // ----- settling for collateral

    /** Pays a settler: the collateral fee goes to the asset and the rest out, less the market fee. */
    method PaySettled(who: Account, pays: nat, settled: nat, feed: Option<Feed>)
      requires Parameters() && (feed.Some? ==> feed.value.Valid())
      modifies this`funds, this`marketFees, this`collateralFees
      ensures collateralFees == old(collateralFees) + CollateralFee(pays, settled, feed)
      ensures Held(funds, debtAsset) == old(Held(funds, debtAsset))
      ensures Balance(funds, who, debtAsset) == old(Balance(funds, who, debtAsset))
      ensures funds == Pay(old(funds), who, backing, NetPayout(feeRule, pays, settled, feed))
      ensures Held(funds, backing) + marketFees + collateralFees
           == old(Held(funds, backing) + marketFees + collateralFees) + settled
    {
      hide Sum, Held, CollateralFee;
      var fee := CollateralFee(pays, settled, feed);
      collateralFees := collateralFees + fee;
      var net := PayOut(who, settled - fee, false);
    }

    /** The settler's debt asset is burnt and the collateral paid. */
    method BurnForCollateral(who: Account, pays: nat, settled: nat, feed: Option<Feed>)
      requires Parameters() && (feed.Some? ==> feed.value.Valid())
      requires pays <= Balance(funds, who, debtAsset) && pays <= supply
      modifies this`funds, this`marketFees, this`collateralFees, this`supply
      ensures supply == old(supply) - pays && Held(funds, debtAsset) == old(Held(funds, debtAsset)) - pays
      ensures Balance(funds, who, debtAsset) == old(Balance(funds, who, debtAsset)) - pays
      ensures collateralFees == old(collateralFees) + CollateralFee(pays, settled, feed)
      ensures SettledFor(old(funds), funds, who, debtAsset, backing, pays, NetPayout(feeRule, pays, settled, feed))
      ensures Held(funds, backing) + marketFees + collateralFees
           == old(Held(funds, backing) + marketFees + collateralFees) + settled
    {
      hide Sum, Held, CollateralFee, NetPayout, Balance, Adjust, Pay;
      var ok := Take(who, debtAsset, pays);
      supply := supply - pays;
      PaySettled(who, pays, settled, feed);
    }

    lemma PoolPositive()
      requires PoolOk(mode, poolDebt, poolFund, debtOrder)
      ensures poolDebt > 0 <==> poolFund > 0
      ensures mode == ToFund ==> debtOrder.None?
    {
    }

    lemma PoolStaysOk()
      requires mode == ToFund && debtOrder.None? && (poolDebt == 0 <==> poolFund == 0)
      ensures PoolOk(mode, poolDebt, poolFund, debtOrder)
    {
    }

    /**
     * `pay_settle_from_individual_pool`.  It fails exactly when the amount is worth nothing;
     * otherwise the pool is left with no less collateral per debt.
     */
    method SettleFromPool(who: Account, amount: nat, feed: Option<Feed>) returns (paid: Option<nat>)
      requires Valid() && mode == ToFund && poolDebt > 0 && (feed.Some? ==> feed.value.Valid())
      requires Balance(funds, who, debtAsset) >= amount
      modifies this`funds, this`marketFees, this`supply, this`collateralFees, this`poolDebt, this`poolFund
      ensures Valid() && Collateral() == old(Collateral())
      ensures paid.None? <==> amount < old(poolDebt) && amount * old(poolFund) < old(poolDebt)
      ensures paid.None? ==> funds == old(funds) && supply == old(supply) && poolDebt == old(poolDebt)
                             && poolFund == old(poolFund)
      ensures paid.Some? ==> paid.value <= amount && poolDebt == old(poolDebt) - paid.value
                             && supply == old(supply) - paid.value
                             && Balance(funds, who, debtAsset) == old(Balance(funds, who, debtAsset)) - paid.value
      ensures paid.Some? ==> poolFund <= old(poolFund)
      ensures paid.Some? ==>
                && FairPayout(old(poolDebt), old(poolFund), Price(old(poolDebt), old(poolFund)), amount,
                              Payout(paid.value, old(poolFund) - poolFund))
                && SettledFor(old(funds), funds, who, debtAsset, backing, paid.value,
                              NetPayout(feeRule, paid.value, old(poolFund) - poolFund, feed))
      ensures paid.Some? ==> NotThinner(old(poolFund), old(poolDebt), poolFund, poolDebt)
      ensures paid.Some? ==> (poolDebt == 0 <==> poolFund == 0) && (poolDebt == 0 <==> amount >= old(poolDebt))
    {
      hide Sum, Held, FundCovers, LimitsOk, CallsOk, SettlesOk, BidsOk, BidTotal, MulUp, MulDown, Balance, Pay,
        Adjust, PoolPayout, CollateralFee, Backed, NotThinner, MarketFee, Percent, TotalDebt, TotalCollateral,
        TotalForSale, TotalSettling, PoolOk, FairPayout, NetPayout;
      PoolPositive();
      PoolPayoutIsFair(poolDebt, poolFund, amount);
      var r := PoolPayout(poolDebt, poolFund, amount);
      if r.None? {
        return None;
      }
      PoolOwedBySupply();
      var pays, settled := r.value.pays, r.value.settled;
      poolDebt := poolDebt - pays;
      poolFund := poolFund - settled;
      PoolStaysOk();
      BurnForCollateral(who, pays, settled, feed);
      paid := Some(pays);
    }

    /**
     * `pay_settle_from_gs_fund`.  The "fund is not sufficient" assertion never fails: the only
     * refusal is an amount worth nothing at the settlement price.
     */
    method SettleFromFund(who: Account, amount: nat, feed: Option<Feed>) returns (paid: Option<nat>)
      requires Valid() && settlement.Some? && (feed.Some? ==> feed.value.Valid())
      requires Balance(funds, who, debtAsset) >= amount
      modifies this`funds, this`marketFees, this`supply, this`collateralFees, this`gsFund
      ensures Valid() && Collateral() == old(Collateral())
      ensures paid.None? <==> if amount == old(supply) then old(gsFund) == 0
                              else amount * settlement.value.quote < settlement.value.base
      ensures paid.None? ==> funds == old(funds) && supply == old(supply) && gsFund == old(gsFund)
      ensures paid.Some? ==> 0 < paid.value <= amount && supply == old(supply) - paid.value
                             && Balance(funds, who, debtAsset) == old(Balance(funds, who, debtAsset)) - paid.value
      ensures paid.Some? ==> gsFund <= old(gsFund)
      ensures paid.Some? ==>
                && FairPayout(old(supply), old(gsFund), settlement.value, amount,
                              Payout(paid.value, old(gsFund) - gsFund))
                && SettledFor(old(funds), funds, who, debtAsset, backing, paid.value,
                              NetPayout(feeRule, paid.value, old(gsFund) - gsFund, feed))
    {
      hide Sum, Held, FundCovers, FundPayout, LimitsOk, CallsOk, SettlesOk, BidsOk, BidTotal, MulUp, MulDown,
        Balance, Pay, Adjust, PoolOk, CollateralFee, MarketFee, Percent, TotalDebt, TotalCollateral,
        TotalForSale, TotalSettling, FairPayout, NetPayout;
      BelowSupply(who);
      FundPayoutKeepsCover(gsFund, supply, settlement.value, amount);
      var r := FundPayout(gsFund, supply, settlement.value, amount);
      if !r.Paid? {
        return None;
      }
      var pays, settled := r.payout.pays, r.payout.settled;
      gsFund := gsFund - settled;
      BurnForCollateral(who, pays, settled, feed);
      paid := Some(pays);
    }

    lemma BelowSupply(who: Account)
      requires LimitsOk(limits, nextId) && SettlesOk(settles, nextId)
      requires Held(funds, debtAsset) + TotalForSale(limits) + TotalSettling(settles) == supply
      ensures Balance(funds, who, debtAsset) <= supply
    {
      BalanceBelowTotal(funds, who, debtAsset);
      SumNonNegative(limits, ForSaleOf);
      SumNonNegative(settles, BalanceOf);
    }

    /** `asset_settle`: from the global fund, or from the pool and then as a force settlement. */
    method AssetSettle(who: Account, amount: nat, canForceSettle: bool, feed: Option<Feed>) returns (ok: bool)
      requires Valid() && (feed.Some? ==> feed.value.Valid())
      modifies this`funds, this`marketFees, this`supply, this`collateralFees, this`gsFund
      modifies this`poolDebt, this`poolFund, this`settles, this`nextId
      ensures Valid() && Collateral() == old(Collateral())
      ensures !ok ==> funds == old(funds) && supply == old(supply) && settles == old(settles)
                      && gsFund == old(gsFund) && poolDebt == old(poolDebt) && poolFund == old(poolFund)
      ensures ok <==> && amount <= old(Balance(funds, who, debtAsset))
                      && if settlement.Some? then
                           if amount == old(supply) then old(gsFund) > 0
                           else amount * settlement.value.quote >= settlement.value.base
                         else if mode == ToFund && old(poolDebt) != 0
                         then amount >= old(poolDebt) || amount * old(poolFund) >= old(poolDebt)
                         else canForceSettle && feed.Some?
      ensures var rest := if mode == ToFund then amount - old(poolDebt) else amount;
              settles == if ok && settlement.None? && feed.Some? && canForceSettle && rest > 0
                         then old(settles)[old(nextId) := Settle(who, rest)] else old(settles)
      ensures ok && settlement.Some? ==>
                supply <= old(supply) && gsFund <= old(gsFund)
                && FairPayout(old(supply), old(gsFund), settlement.value, amount,
                              Payout(old(supply) - supply, old(gsFund) - gsFund))
      ensures ok && settlement.None? && mode == ToFund && old(poolDebt) > 0 ==>
                poolDebt <= old(poolDebt) && poolFund <= old(poolFund)
                && FairPayout(old(poolDebt), old(poolFund), Price(old(poolDebt), old(poolFund)), amount,
                              Payout(old(poolDebt) - poolDebt, old(poolFund) - poolFund))
      ensures ok ==> Balance(funds, who, debtAsset)
                     == old(Balance(funds, who, debtAsset)) - (old(supply) - supply)
                        - (if old(nextId) in settles then settles[old(nextId)].balance else 0)
    {
      hide Sum, Held, FundCovers, LimitsOk, BidsOk, BidTotal, MulUp, MulDown, Balance, Adjust, Backed, Pay,
        MarketFee, Percent, FairPayout, NetPayout;
      if Balance(funds, who, debtAsset) < amount {
        return false;
      }
      if settlement.Some? {
        var paid := SettleFromFund(who, amount, feed);
        return paid.Some?;
      }
      if !(mode == ToFund && poolDebt != 0) && (!canForceSettle || feed.None?) {
        return false;
      }
      var rest := amount;
      if mode == ToFund && poolDebt != 0 {
        var paid := SettleFromPool(who, amount, feed);
        if paid.None? {
          return false;
        }
        if poolDebt != 0 || !canForceSettle {
          return true;
        }
        rest := rest - paid.value;
      }
      if rest == 0 || feed.None? {
        return true;
      }
      OpenSettle(who, rest);
      ok := true;
    }

    /** Opens a force settlement for what the account has. */
    method OpenSettle(who: Account, amount: nat)
      requires Valid() && 0 < amount <= Balance(funds, who, debtAsset)
      modifies this`funds, this`settles, this`nextId
      ensures Valid() && Collateral() == old(Collateral())
      ensures settles == old(settles)[old(nextId) := Settle(who, amount)] && nextId == old(nextId) + 1
      ensures Balance(funds, who, debtAsset) == old(Balance(funds, who, debtAsset)) - amount
    {
      hide Sum, Held, FundCovers, LimitsOk, BidsOk, BidTotal, Balance, Adjust, Backed, PoolOk, TotalDebt,
        TotalCollateral;
      var taken := Take(who, debtAsset, amount);
      SumUpdate(settles, nextId, Settle(who, amount), BalanceOf);
      LaterId();
      settles := settles[nextId := Settle(who, amount)];
      nextId := nextId + 1;
    }

    lemma LaterId()
      requires LimitsOk(limits, nextId)
      ensures LimitsOk(limits, nextId + 1)
    {
    }

    // ----- black swans

    /** A price the position can pay: it is worth its debt there, or at the price of some resting order. */
    ghost predicate CanPay(c: Call, feed: Feed)
      reads this`limits, this`nextId
      requires feed.Valid() && LimitsOk(limits, nextId)
    {
      || Price(c.debt, c.collateral).AtMost(feed.SqueezePrice())
      || exists id :: id in limits && Price(c.debt, c.collateral).AtMost(Times(limits[id].price, feed.PaysRatio()))
    }

    /**
     * `check_for_blackswan`.  While the least collateralised position can neither pay the squeeze
     * price nor the best resting order, it is settled individually, or the asset globally.  Without
     * force settlements it is quiet exactly when every position can pay; only positions that cannot
     * are settled individually; and when it returns every position left can pay.
     */
    method CheckForBlackSwan(feed: Feed, enabled: bool, maintenance: Price) returns (r: SwanResult)
      requires Valid() && feed.Valid()
      modifies this`calls, this`funds, this`collateralFees, this`supply, this`mode
      modifies this`poolDebt, this`poolFund, this`debtOrder, this`settlement, this`gsFund
      ensures Valid() && Collateral() == old(Collateral()) && supply == old(supply) && calls.Keys <= old(calls).Keys
      ensures r.Quiet? ==> settlement == old(settlement) && mode == old(mode)
      ensures r.NotAllowed? ==> !enabled && calls == old(calls) && settlement == old(settlement)
      ensures r.Quiet? || r.NotAllowed? ==> calls == old(calls) && funds == old(funds) && poolDebt == old(poolDebt)
      ensures !enabled && old(settlement).None? ==> calls == old(calls) && funds == old(funds) && settlement.None?
      ensures !r.NotAllowed? && settles == map[] && settlement.None? ==>
                forall a :: a in calls ==> CanPay(calls[a], feed)
      ensures old(settlement).None? ==>
                (r.Quiet? <==> settles != map[] || forall a :: a in old(calls) ==> CanPay(old(calls)[a], feed))
      ensures settlement.None? ==> OnlyThinSettled(old(calls), calls, feed)
      ensures old(settlement).None? && settlement.Some? ==> old(mode) == GlobalSettlement || old(mode) == NoSettlement
      ensures old(settlement).None? && settlement.Some? ==>
                exists a :: a in old(calls) && IsLeast(old(calls), a) && OwnPrice(old(calls)[a]).Valid()
                            && GloballySettled(old(calls), old(poolFund), old(collateralFees), old(funds), gsFund,
                                               collateralFees, funds, backing, OwnPrice(old(calls)[a]), feed.mssr, true,
                                               maintenance)
    {
      hide Sum, Held, FundCovers, SettlesOk, BidsOk, BidTotal, Backed, PoolOk, TotalForSale, TotalSettling, TotalDebt,
        TotalCollateral, Times, Feed.SqueezePrice, Feed.OrderPrice, Feed.PaysRatio, CanPay, SupplyBacked, CallsOk,
        OnlyThinSettled, GloballySettled, Price.AtMost;
      NobodySettled(calls, feed);
      if settlement.Some? {
        return Occurred;
      }
      if settles != map[] {
        return Quiet;
      }
      var thin := CannotPay(feed);
      if thin.None? {
        return Quiet;
      }
      if !enabled {
        return NotAllowed;
      }
      SettleThin(thin.value, feed, maintenance);
      r := Occurred;
    }

    /** The settlements of a black swan, from the first position that cannot pay. */
    method SettleThin(first: Account, feed: Feed, maintenance: Price)
      requires Valid() && feed.Valid() && settlement.None? && first in calls && !CanPay(calls[first], feed)
      requires forall a :: a in calls ==> OwnPrice(calls[a]).AtMost(OwnPrice(calls[first]))
      modifies this`calls, this`funds, this`collateralFees, this`supply, this`mode
      modifies this`poolDebt, this`poolFund, this`debtOrder, this`settlement, this`gsFund
      ensures Valid() && Collateral() == old(Collateral()) && supply == old(supply) && calls.Keys <= old(calls).Keys
      ensures settlement.None? ==> OnlyThinSettled(old(calls), calls, feed) && first !in calls
      ensures settlement.None? ==> forall a :: a in calls ==> CanPay(calls[a], feed)
      ensures settlement.Some? <==> old(mode) == GlobalSettlement || old(mode) == NoSettlement
      ensures settlement.Some? ==> old(OwnPrice(calls[first])).Valid()
      ensures settlement.Some? ==>
                GloballySettled(old(calls), old(poolFund), old(collateralFees), old(funds), gsFund, collateralFees,
                                funds, backing, old(OwnPrice(calls[first])), feed.mssr, true, maintenance)
    {
      hide Sum, Held, FundCovers, SettlesOk, BidsOk, BidTotal, Backed, PoolOk, TotalForSale, TotalSettling, TotalDebt,
        TotalCollateral, Times, Feed.SqueezePrice, Feed.OrderPrice, Feed.PaysRatio, CanPay, CallsOk, OnlyThinSettled,
        LimitsOk, SupplyBacked, GloballySettled, Price.AtMost;
      if mode == ToFund || mode == ToOrder {
        SettleEach(first, feed);
      } else {
        var c := calls[first];
        PositionIsOwed(first);
        var ok := GloballySettle(Price(c.debt, c.collateral), feed.mssr, true, maintenance);
      }
    }

    /** The individual settlements, one position after the other. */
    method SettleEach(first: Account, feed: Feed)
      requires Valid() && feed.Valid() && settlement.None? && first in calls && !CanPay(calls[first], feed)
      requires mode == ToFund || mode == ToOrder
      modifies this`calls, this`funds, this`collateralFees, this`supply
      modifies this`poolDebt, this`poolFund, this`debtOrder
      ensures Valid() && Collateral() == old(Collateral()) && supply == old(supply) && calls.Keys <= old(calls).Keys
      ensures OnlyThinSettled(old(calls), calls, feed) && first !in calls
      ensures forall a :: a in calls ==> CanPay(calls[a], feed)
    {
      hide Sum, Held, FundCovers, SettlesOk, BidsOk, BidTotal, Backed, PoolOk, TotalForSale, TotalSettling, TotalDebt,
        TotalCollateral, Times, Feed.SqueezePrice, Feed.OrderPrice, Feed.PaysRatio, CanPay, CallsOk, OnlyThinSettled,
        LimitsOk, SupplyBacked, Price.AtMost;
      NobodySettled(calls, feed);
      var thin := Some(first);
      while thin.Some?
        invariant Valid() && Collateral() == old(Collateral()) && supply == old(supply)
        invariant calls.Keys <= old(calls).Keys && OnlyThinSettled(old(calls), calls, feed)
        invariant thin.Some? ==> thin.value in calls && !CanPay(calls[thin.value], feed)
        invariant thin == Some(first) || first !in calls
        invariant thin.None? ==> forall a :: a in calls ==> CanPay(calls[a], feed)
        decreases thin.Some?, |calls|
      {
        OneMoreSettled(old(calls), calls, thin.value, feed);
        ghost var before := calls;
        IndividuallySettle(thin.value, feed);
        KeysShrink(before.Keys, calls.Keys, thin.value);
        thin := CannotPay(feed);
      }
    }

    /** A position's debt is part of a positive supply. */
    lemma PositionIsOwed(who: Account)
      requires Valid() && settlement.None? && who in calls
      ensures Price(calls[who].debt, calls[who].collateral).Valid() && supply > 0
    {
      hide Sum, TotalCollateral, Backed, FundCovers;
      PoolOwedBySupply();
      OwedBySupply(who);
    }

    /** The positions that stayed are as they were, and those that went could not pay. */
    ghost predicate OnlyThinSettled(before: map<Account, Call>, after: map<Account, Call>, feed: Feed)
      reads this`limits, this`nextId
      requires feed.Valid() && LimitsOk(limits, nextId)
    {
      forall a :: a in before ==> if a in after then after[a] == before[a] else !CanPay(before[a], feed)
    }

    lemma NobodySettled(before: map<Account, Call>, feed: Feed)
      requires feed.Valid() && LimitsOk(limits, nextId)
      ensures OnlyThinSettled(before, before, feed)
    {
    }

    lemma OneMoreSettled(before: map<Account, Call>, after: map<Account, Call>, who: Account, feed: Feed)
      requires feed.Valid() && LimitsOk(limits, nextId) && OnlyThinSettled(before, after, feed)
      requires who in after && !CanPay(after[who], feed)
      ensures OnlyThinSettled(before, after - {who}, feed)
    {
      hide CanPay;
    }

    /** The least collateralised position, if it cannot pay; then every other one can if it can. */
    method CannotPay(feed: Feed) returns (who: Option<Account>)
      requires CallsOk(calls) && LimitsOk(limits, nextId) && feed.Valid()
      ensures who.Some? ==> who.value in calls && !CanPay(calls[who.value], feed)
      ensures who.Some? ==> forall a :: a in calls ==> OwnPrice(calls[a]).AtMost(OwnPrice(calls[who.value]))
      ensures who.None? ==> forall a :: a in calls ==> CanPay(calls[a], feed)
    {
      hide Times, Feed.SqueezePrice, Feed.PaysRatio, Price.AtMost;
      if calls == map[] {
        return None;
      }
      var highest := HighestPays(feed);
      var least := LeastCollateralised();
      if OwnPrice(calls[least]).AtMost(highest) {
        AllCanPay(least, feed, highest);
        return None;
      }
      ThinCannotPay(calls[least], feed, highest);
      who := Some(least);
    }

    lemma ThinCannotPay(c: Call, feed: Feed, highest: Price)
      requires feed.Valid() && LimitsOk(limits, nextId) && c.Open() && highest.Valid()
      requires feed.SqueezePrice().AtMost(highest)
      requires forall i :: i in limits ==> Times(limits[i].price, feed.PaysRatio()).AtMost(highest)
      requires !OwnPrice(c).AtMost(highest)
      ensures !CanPay(c, feed)
    {
      hide Times, Feed.SqueezePrice, Feed.PaysRatio, Price.AtMost;
      if CanPay(c, feed) {
        if OwnPrice(c).AtMost(feed.SqueezePrice()) {
          AtMostTransitive(OwnPrice(c), feed.SqueezePrice(), highest);
        } else {
          var id :| id in limits && OwnPrice(c).AtMost(Times(limits[id].price, feed.PaysRatio()));
          AtMostTransitive(OwnPrice(c), Times(limits[id].price, feed.PaysRatio()), highest);
        }
        assert false;
      }
    }

    /** The squeeze price, or what a position pays at the best resting order if that is higher. */
    method HighestPays(feed: Feed) returns (p: Price)
      requires feed.Valid() && LimitsOk(limits, nextId)
      ensures p.Valid() && feed.SqueezePrice().AtMost(p)
      ensures forall i :: i in limits ==> Times(limits[i].price, feed.PaysRatio()).AtMost(p)
      ensures p == feed.SqueezePrice() || exists id :: id in limits && p == Times(limits[id].price, feed.PaysRatio())
    {
      hide Times, Feed.SqueezePrice, Feed.PaysRatio, Price.AtMost;
      p := feed.SqueezePrice();
      AtMostTotal(p, p);
      if limits != map[] {
        var best := BestLimit();
        var pays := Times(limits[best].price, feed.PaysRatio());
        AtMostTotal(p, pays);
        AtMostTotal(pays, pays);
        var squeeze := p;
        if p.AtMost(pays) {
          p := pays;
        }
        forall i | i in limits ensures Times(limits[i].price, feed.PaysRatio()).AtMost(p) {
          TimesIsMonotone(limits[i].price, limits[best].price, feed.PaysRatio());
          AtMostTransitive(Times(limits[i].price, feed.PaysRatio()), pays, p);
        }
      }
    }

    method LeastCollateralised() returns (who: Account)
      requires CallsOk(calls) && calls != map[]
      ensures who in calls
      ensures forall a :: a in calls ==> OwnPrice(calls[a]).AtMost(OwnPrice(calls[who]))
    {
      hide Price.AtMost;
      var prices := map a | a in calls :: OwnPrice(calls[a]);
      assert forall a :: a in calls ==> a in prices && prices[a] == OwnPrice(calls[a]);
      who := Highest(prices);
    }

    lemma AllCanPay(who: Account, feed: Feed, p: Price)
      requires feed.Valid() && LimitsOk(limits, nextId) && CallsOk(calls) && who in calls && p.Valid()
      requires forall a :: a in calls ==> OwnPrice(calls[a]).AtMost(OwnPrice(calls[who]))
      requires OwnPrice(calls[who]).AtMost(p)
      requires p == feed.SqueezePrice() || exists id :: id in limits && p == Times(limits[id].price, feed.PaysRatio())
      ensures forall a :: a in calls ==> CanPay(calls[a], feed)
    {
      hide Times, Feed.SqueezePrice, Feed.PaysRatio;
      forall a | a in calls ensures CanPay(calls[a], feed) {
        AtMostTransitive(OwnPrice(calls[a]), OwnPrice(calls[who]), p);
      }
    }

    // ----- the margin call loop

    /** The resting order that asks for the least collateral per debt. */
    method BestLimit() returns (id: nat)
      requires LimitsOk(limits, nextId) && limits != map[]
      ensures id in limits && forall i :: i in limits ==> limits[i].price.AtMost(limits[id].price)
    {
      hide Price.AtMost;
      var prices := map i | i in limits :: limits[i].price;
      assert forall i :: i in limits ==> i in prices && prices[i] == limits[i].price;
      id := Highest(prices);
    }

    /** No position is margin called while a resting order crosses the margin call order price. */
    ghost predicate NothingToCall(feed: Feed, maintenance: Price)
      reads this
      requires feed.Valid()
    {
      forall a, id :: a in calls && id in limits && MarginCalled(calls[a], maintenance) ==>
                        !feed.OrderPrice().AtMost(limits[id].price)
    }

    /** Every position that was not margin called is as it was. */
    ghost predicate OthersKept(before: map<Account, Call>, after: map<Account, Call>, maintenance: Price) {
      forall a :: a in before && !MarginCalled(before[a], maintenance) ==> a in after && after[a] == before[a]
    }

    /** Every position that was not margin called and worth its debt at the squeeze price is as it was. */
    ghost predicate SoundKept(before: map<Account, Call>, after: map<Account, Call>, feed: Feed, maintenance: Price)
      requires feed.Valid()
    {
      forall a :: a in before && !MarginCalled(before[a], maintenance)
                  && OwnPrice(before[a]).AtMost(feed.SqueezePrice()) ==>
                    a in after && after[a] == before[a]
    }

    lemma ThinIsNotSound(before: map<Account, Call>, middle: map<Account, Call>, after: map<Account, Call>, feed: Feed,
                         maintenance: Price)
      requires feed.Valid() && Valid() && SoundKept(before, middle, feed, maintenance)
      requires OnlyThinSettled(middle, after, feed)
      ensures SoundKept(before, after, feed, maintenance)
    {
      hide MarginCalled, Price.AtMost, Feed.SqueezePrice;
    }

    lemma CalledIsNotSound(before: map<Account, Call>, middle: map<Account, Call>, after: map<Account, Call>,
                           feed: Feed, maintenance: Price)
      requires feed.Valid() && SoundKept(before, middle, feed, maintenance) && OthersKept(middle, after, maintenance)
      ensures SoundKept(before, after, feed, maintenance)
    {
      hide MarginCalled, Price.AtMost, Feed.SqueezePrice;
    }

    lemma AllSound(before: map<Account, Call>, feed: Feed, maintenance: Price)
      requires feed.Valid()
      ensures SoundKept(before, before, feed, maintenance) && OthersKept(before, before, maintenance)
    {
    }

    /** Changing a margin called position keeps the others. */
    lemma OneIsCalled(before: map<Account, Call>, after: map<Account, Call>, who: Account, maintenance: Price)
      requires who in before && MarginCalled(before[who], maintenance) && OnlyChanged(before, after, who)
      ensures OthersKept(before, after, maintenance)
    {
      hide MarginCalled;
    }

    ghost predicate OnlyChanged(before: map<Account, Call>, after: map<Account, Call>, who: Account) {
      forall a :: a in before && a != who ==> a in after && after[a] == before[a]
    }

    /** No position is margin called while there is a force settlement. */
    ghost predicate NothingToSettle(maintenance: Price)
      reads this
    {
      settles == map[] || forall a :: a in calls ==> !MarginCalled(calls[a], maintenance)
    }

    /**
     * `match_force_settlements`: matches the least collateralised margin call with force settlements
     * until it covered some debt, or none of either is left.
     */
    method MatchForceSettlements(feed: Feed, maintenance: Price) returns (progress: bool)
      requires Valid() && settlement.None? && feed.Valid()
      modifies this`calls, this`settles, this`funds, this`collateralFees, this`marketFees, this`supply
      ensures Valid() && Collateral() == old(Collateral())
      ensures settles.Keys <= old(settles).Keys && calls.Keys <= old(calls).Keys
      ensures OthersKept(old(calls), calls, maintenance)
      ensures progress ==> supply < old(supply) && |calls| + |settles| < old(|calls| + |settles|)
      ensures !progress ==> supply == old(supply) && calls == old(calls) && NothingToSettle(maintenance)
    {
      hide Sum, Held, FundCovers, LimitsOk, SettlesOk, BidsOk, BidTotal, Backed, PoolOk, TotalForSale,
        TotalSettling, TotalDebt, TotalCollateral, MarginCalled, OthersKept, SoundKept, OnlyChanged,
        Feed.SqueezePrice, Price.AtMost;
      AllSound(calls, feed, maintenance);
      while settles != map[] && calls != map[]
        invariant Valid() && settlement.None? && Collateral() == old(Collateral())
        invariant supply == old(supply) && calls == old(calls) && settles.Keys <= old(settles).Keys
        decreases |settles|
      {
        var id :| id in settles;
        var who := LeastCollateralised();
        if !MarginCalled(calls[who], maintenance) {
          LeastIsNotCalled(who, maintenance);
          return false;
        }
        ghost var callsBefore := calls;
        ghost var settlesBefore := settles;
        var covered := CallMeetsSettle(id, who, feed, true);
        OneIsCalled(callsBefore, calls, who, maintenance);
        KeysShrink(settlesBefore.Keys, settles.Keys, id);
        KeysShrink(old(calls).Keys, calls.Keys, who);
        KeysShrink(old(settles).Keys, settlesBefore.Keys, id);
        if covered > 0 {
          return true;
        }
      }
      progress := false;
    }

    lemma LeastIsNotCalled(who: Account, maintenance: Price)
      requires CallsOk(calls) && who in calls && !MarginCalled(calls[who], maintenance)
      requires forall a :: a in calls ==> OwnPrice(calls[a]).AtMost(OwnPrice(calls[who]))
      ensures forall a :: a in calls ==> !MarginCalled(calls[a], maintenance)
    {
      hide MarginCalled, Price.AtMost;
      forall a | a in calls ensures !MarginCalled(calls[a], maintenance) {
        if MarginCalled(calls[a], maintenance) {
          CalledIsMonotone(calls[a], calls[who], maintenance);
          assert false;
        }
      }
    }

    /**
     * `check_call_orders`.  It terminates; `ok` is false when a black swan was met that was not
     * allowed, and the transaction is undone.  Otherwise, unless the asset was globally settled, no
     * margin call is left that crosses a resting order, and, if force settlements were matched,
     * none beside a force settlement.
     */
    method CheckCallOrders(feed: Feed, enabled: bool, maintenance: Price, skipSettles: bool) returns (ok: bool)
      requires Valid() && feed.Valid()
      modifies this
      ensures Valid() && Collateral() == old(Collateral())
      ensures !ok ==> !enabled
      ensures ok && settlement.None? && (skipSettles ==> settles == map[]) ==> NothingToCall(feed, maintenance)
      ensures ok && settlement.None? && !skipSettles ==> NothingToSettle(maintenance)
      ensures ok && settlement.None? ==> SoundKept(old(calls), calls, feed, maintenance)
      ensures ok && settlement.None? && NoneCalled(maintenance) ==> DebtOrderRests()
    {
      hide *;
      ok := true;
      AllSound(calls, feed, maintenance);
      var more, quiet := settlement.None?, false;
      while more && calls != map[]
        invariant Valid() && Collateral() == old(Collateral()) && ok
        invariant more || quiet ==> settlement.None?
        invariant quiet ==> !more && NoneCalled(maintenance)
        invariant settlement.None? ==> SoundKept(old(calls), calls, feed, maintenance)
        invariant !more && settlement.None? && (skipSettles ==> settles == map[]) ==> NothingToCall(feed, maintenance)
        invariant !more && settlement.None? && !skipSettles ==> NothingToSettle(maintenance)
        invariant !more && !quiet && settlement.None? ==> !NoneCalled(maintenance)
        decreases more, |calls| + |limits| + |settles|
      {
        ghost var before := calls;
        var swan := CheckForBlackSwan(feed, enabled, maintenance);
        KeysShrink(before.Keys, calls.Keys, 0);
        if swan.NotAllowed? {
          return false;
        }
        if settlement.Some? {
          return true;
        }
        ThinIsNotSound(old(calls), before, calls, feed, maintenance);
        if calls != map[] {
          ghost var middle := calls;
          more, quiet := CallLeast(feed, maintenance, skipSettles);
          CalledIsNotSound(old(calls), middle, calls, feed, maintenance);
        }
      }
      NoPositions(maintenance);
      if settlement.None? && (quiet || calls == map[]) {
        FinishQuietly(feed, maintenance);
      }
    }

    /** With no margin call left, the settled-debt order is checked, which calls nobody. */
    method FinishQuietly(feed: Feed, maintenance: Price)
      requires Valid() && settlement.None? && feed.Valid() && NoneCalled(maintenance)
      modifies this
      ensures Valid() && Collateral() == old(Collateral()) && settlement.None?
      ensures NothingToCall(feed, maintenance) && NothingToSettle(maintenance) && calls == old(calls)
      ensures DebtOrderRests()
    {
      hide Valid, Collateral, MarginCalled, DebtOrderRests;
      CheckSettledDebtOrder();
      NoneCalledNothingLeft(feed, maintenance);
    }

    /** The settled-debt order crosses no resting order. */
    ghost predicate DebtOrderRests()
      reads this
    {
      debtOrder.Some? ==> forall i :: i in limits ==> !debtOrder.value.price.Inverse().AtMost(limits[i].price)
    }

    /** Every position is above the maintenance collateralisation. */
    ghost predicate NoneCalled(maintenance: Price)
      reads this
    {
      forall a :: a in calls ==> !MarginCalled(calls[a], maintenance)
    }

    lemma NoneCalledNothingLeft(feed: Feed, maintenance: Price)
      requires feed.Valid() && NoneCalled(maintenance)
      ensures NothingToCall(feed, maintenance) && NothingToSettle(maintenance)
    {
    }

    lemma NoPositions(maintenance: Price)
      ensures calls == map[] ==> NoneCalled(maintenance)
    {
    }

    /**
     * One round of the loop after the black swan check: the least collateralised position against
     * the best resting order, or against force settlements.  `more` tells whether to go on; then
     * something was removed.  `quiet` tells that no position is margin called.
     */
    method CallLeast(feed: Feed, maintenance: Price, skipSettles: bool) returns (more: bool, quiet: bool)
      requires Valid() && feed.Valid() && settlement.None? && calls != map[]
      requires settles == map[] ==> forall a :: a in calls ==> CanPay(calls[a], feed)
      modifies this`calls, this`limits, this`settles, this`funds, this`collateralFees, this`marketFees, this`supply
      ensures Valid() && Collateral() == old(Collateral())
      ensures more ==> !quiet && |calls| + |limits| + |settles| < old(|calls| + |limits| + |settles|)
      ensures quiet ==> NoneCalled(maintenance)
      ensures !more && !quiet ==> !NoneCalled(maintenance)
      ensures OthersKept(old(calls), calls, maintenance)
      ensures !more && (skipSettles ==> settles == map[]) ==> NothingToCall(feed, maintenance)
      ensures !more && !skipSettles ==> NothingToSettle(maintenance)
    {
      hide OthersKept, SoundKept, OnlyChanged;
      AllSound(calls, feed, maintenance);
      hide Sum, Held, FundCovers, SettlesOk, BidsOk, BidTotal, Backed, PoolOk, TotalForSale, TotalSettling,
        TotalDebt, TotalCollateral, MarginCalled, Times, Feed.OrderPrice, Feed.SqueezePrice, Feed.PaysRatio,
        SupplyBacked, Price.AtMost, CanPay, CallsOk, LimitsOk;
      var who := LeastCollateralised();
      if !MarginCalled(calls[who], maintenance) {
        LeastIsNotCalled(who, maintenance);
        return false, true;
      }
      ghost var callsBefore := calls;
      var done, crossing := CallBest(who, feed);
      OneIsCalled(callsBefore, calls, who, maintenance);
      if done {
        return true, false;
      }
      if skipSettles || settles == map[] {
        return false, false;
      }
      ghost var settles0, calls0 := settles, calls;
      var progress := MatchForceSettlements(feed, maintenance);
      KeysShrink(calls0.Keys, calls.Keys, who);
      if !progress {
        assert settles == map[] && settles0 != map[];
      }
      more, quiet := true, false;
    }

    /** The best resting order against one position, if it crosses the margin call order price. */
    method CallBest(who: Account, feed: Feed) returns (done: bool, crossing: bool)
      requires Valid() && feed.Valid() && settlement.None? && who in calls
      modifies this`calls, this`limits, this`funds, this`collateralFees, this`marketFees, this`supply
      ensures Valid() && Collateral() == old(Collateral())
      ensures done ==> |calls| + |limits| < old(|calls| + |limits|)
      ensures !done ==> calls == old(calls) && limits == old(limits)
      ensures OnlyChanged(old(calls), calls, who)
      ensures !done && !crossing ==> forall i :: i in limits ==> !feed.OrderPrice().AtMost(limits[i].price)
      ensures old(CanPay(calls[who], feed)) && crossing ==> done
    {
      hide Sum, Held, FundCovers, SettlesOk, BidsOk, BidTotal, Backed, PoolOk, TotalForSale, TotalSettling,
        TotalDebt, TotalCollateral, Times, Feed.OrderPrice, Feed.SqueezePrice, Feed.PaysRatio, SupplyBacked,
        Price.AtMost, CanPay, MustCap, WholeDebt, SmallerLimit;
      done, crossing := false, false;
      if limits == map[] {
        return;
      }
      var best := BestLimit();
      crossing := feed.OrderPrice().AtMost(limits[best].price);
      if !crossing {
        NoneCrosses(best, feed);
        return;
      }
      BestCanBePaid(who, best, feed);
      ghost var calls0, limits0 := calls, limits;
      done := CallTakesLimit(best, who, feed.PaysRatio());
      KeysShrink(calls0.Keys, calls.Keys, who);
      KeysShrink(limits0.Keys, limits.Keys, best);
    }

    /** Without force settlements the position can pay the best crossing order. */
    lemma BestCanBePaid(who: Account, best: nat, feed: Feed)
      requires feed.Valid() && LimitsOk(limits, nextId) && CallsOk(calls) && who in calls && best in limits
      requires forall i :: i in limits ==> limits[i].price.AtMost(limits[best].price)
      requires feed.OrderPrice().AtMost(limits[best].price)
      ensures CanPay(calls[who], feed) ==> OwnPrice(calls[who]).AtMost(Times(limits[best].price, feed.PaysRatio()))
    {
      hide Times, Feed.SqueezePrice, Feed.OrderPrice, Feed.PaysRatio, Price.AtMost;
      var top := Times(limits[best].price, feed.PaysRatio());
      if CanPay(calls[who], feed) {
        if OwnPrice(calls[who]).AtMost(feed.SqueezePrice()) {
          SqueezeIsPaid(feed);
          TimesIsMonotone(feed.OrderPrice(), limits[best].price, feed.PaysRatio());
          AtMostTransitive(feed.SqueezePrice(), Times(feed.OrderPrice(), feed.PaysRatio()), top);
          AtMostTransitive(OwnPrice(calls[who]), feed.SqueezePrice(), top);
        } else {
          var id :| id in limits && OwnPrice(calls[who]).AtMost(Times(limits[id].price, feed.PaysRatio()));
          TimesIsMonotone(limits[id].price, limits[best].price, feed.PaysRatio());
          AtMostTransitive(OwnPrice(calls[who]), Times(limits[id].price, feed.PaysRatio()), top);
        }
      }
    }

    lemma NoneCrosses(best: nat, feed: Feed)
      requires feed.Valid() && LimitsOk(limits, nextId) && best in limits
      requires forall i :: i in limits ==> limits[i].price.AtMost(limits[best].price)
      requires !feed.OrderPrice().AtMost(limits[best].price)
      ensures forall i :: i in limits ==> !feed.OrderPrice().AtMost(limits[i].price)
    {
      hide Feed.OrderPrice, Price.AtMost;
      forall i | i in limits ensures !feed.OrderPrice().AtMost(limits[i].price) {
        if feed.OrderPrice().AtMost(limits[i].price) {
          AtMostTransitive(feed.OrderPrice(), limits[i].price, limits[best].price);
          assert false;
        }
      }
    }

    /**
     * `check_settled_debt_order`: the settled-debt order takes resting orders, the best first, until
     * it is gone or none crosses it.
     */
    method CheckSettledDebtOrder()
      requires Valid()
      modifies this`limits, this`funds, this`marketFees
      modifies this`supply, this`collateralFees, this`poolDebt, this`poolFund, this`debtOrder
      ensures Valid() && Collateral() == old(Collateral())
      ensures debtOrder.Some? ==>
                old(debtOrder).Some? && debtOrder.value.price == old(debtOrder).value.price
      ensures DebtOrderRests()
    {
      hide Sum, Held, FundCovers, SettlesOk, BidsOk, BidTotal, Backed, TotalForSale, TotalSettling, TotalDebt,
        TotalCollateral, SupplyBacked, Price.AtMost, CallsOk, MulDown;
      while debtOrder.Some? && limits != map[]
        invariant Valid() && Collateral() == old(Collateral())
        invariant debtOrder.Some? ==> old(debtOrder).Some? && debtOrder.value.price == old(debtOrder).value.price
        decreases |limits|
      {
        var best := BestLimit();
        OrderPriceIsValid();
        if !debtOrder.value.price.Inverse().AtMost(limits[best].price) {
          forall i | i in limits ensures !debtOrder.value.price.Inverse().AtMost(limits[i].price) {
            if debtOrder.value.price.Inverse().AtMost(limits[i].price) {
              AtMostTransitive(debtOrder.value.price.Inverse(), limits[i].price, limits[best].price);
              assert false;
            }
          }
          return;
        }
        ghost var limits0 := limits;
        DebtOrderTakesLimit(best);
        if debtOrder.None? {
          return;
        }
        KeysShrink(limits0.Keys, limits.Keys, best);
      }
    }

    lemma OrderPriceIsValid()
      requires PoolOk(mode, poolDebt, poolFund, debtOrder) && debtOrder.Some?
      ensures debtOrder.value.price.Valid()
    {
      BackedRatio(poolDebt, poolFund, debtOrder.value);
    }

    // ----- global settlement

    /**
     * `globally_settle_asset_impl`: closes every position into the fund, together with the
     * individual pool.  Positions at or below `maintenance` pay a premium to the asset when
     * `checkMarginCalls` is set.
     */
    method GloballySettle(price: Price, mssr: nat, checkMarginCalls: bool, maintenance: Price) returns (ok: bool)
      requires Valid() && price.Valid() && mssr > COLLATERAL_RATIO_DENOM
      modifies this`calls, this`funds, this`collateralFees, this`supply, this`mode
      modifies this`poolDebt, this`poolFund, this`debtOrder, this`settlement, this`gsFund
      ensures Valid() && Collateral() == old(Collateral())
      ensures ok <==> old(settlement).None? && old(supply) > 0
      ensures supply == old(supply)
      ensures ok ==> calls == map[] && poolDebt == 0 && poolFund == 0 && debtOrder.None? && gsFund > 0
                     && settlement == Some(Price(supply, gsFund))
      ensures ok ==> gsFund >= old(poolFund)
      ensures ok ==> GloballySettled(old(calls), old(poolFund), old(collateralFees), old(funds), gsFund, collateralFees,
                                     funds, backing, price, mssr, checkMarginCalls, maintenance)
    {
      hide Sum, Held, FundCovers, LimitsOk, SettlesOk, BidsOk, BidTotal, MulUp, Backed, WithoutPremium,
        TotalForSale, TotalSettling;
      if settlement.Some? || supply == 0 {
        return false;
      }
      var fundPrice := if checkMarginCalls then WithoutPremium(price, mssr) else price;
      var gathered := CloseAll(price, fundPrice, checkMarginCalls, maintenance);
      StartFund(gathered);
      ok := true;
    }

    /** Moves the individual pool to the fund and fixes the settlement price. */
    method StartFund(gathered: nat)
      requires PoolOk(mode, poolDebt, poolFund, debtOrder) && supply > 0 && calls == map[]
      requires gathered == 0 ==> poolDebt > 0
      modifies this`mode, this`poolDebt, this`poolFund, this`debtOrder, this`settlement, this`gsFund
      ensures PoolOk(mode, poolDebt, poolFund, debtOrder) && poolDebt == poolFund == 0 && debtOrder.None?
      ensures SupplyBacked(supply, calls, poolDebt, mode, settlement, gsFund, bids)
      ensures gsFund == gathered + old(poolFund) > 0 && settlement == Some(Price(supply, gsFund))
    {
      FundCoversItself(supply, gathered + poolFund);
      mode := GlobalSettlement;
      debtOrder := None;
      gsFund := gathered + poolFund;
      poolDebt, poolFund := 0, 0;
      settlement := Some(Price(supply, gsFund));
    }

    /** The loop of a global settlement: every position pays into the fund and is closed. */
    method CloseAll(price: Price, fundPrice: Price, checkMarginCalls: bool, maintenance: Price) returns (gathered: nat)
      requires Parameters() && CallsOk(calls) && price.Valid() && fundPrice.Valid()
      modifies this`calls, this`funds, this`collateralFees, this`supply
      ensures calls == map[] && supply == old(supply) && Held(funds, debtAsset) == old(Held(funds, debtAsset))
      ensures TotalDebt(calls) == TotalCollateral(calls) == 0
      ensures gathered == 0 ==> old(TotalDebt(calls)) == 0
      ensures gathered + Held(funds, backing) + collateralFees
           == old(Held(funds, backing) + TotalCollateral(calls) + collateralFees)
      ensures var g := ClosingOf(price, fundPrice, checkMarginCalls, maintenance, old(calls));
              && gathered == FundSum(old(calls), g)
              && collateralFees == old(collateralFees) + PremiumSum(old(calls), g)
              && PaidOut(old(calls), g, old(funds), funds, backing)
    {
      hide Sum, Held, FundShare, PremiumShare, OwnerGets, Closing.Valid, Balance, FundSum, PremiumSum, PaidOut,
        TotalDebt, TotalCollateral, MarginCalled, CallsOk, Closing.Fill;
      var any := checkMarginCalls && exists a :: a in calls && MarginCalled(calls[a], maintenance);
      var g := Closing(price, fundPrice, checkMarginCalls, maintenance, any);
      ClosingIsValid(g);
      NobodyPaid(calls, g, funds);
      gathered := 0;
      while calls != map[]
        invariant CallsOk(calls) && supply == old(supply) && Held(funds, debtAsset) == old(Held(funds, debtAsset))
        invariant gathered + Held(funds, backing) + TotalCollateral(calls) + collateralFees
               == old(Held(funds, backing) + TotalCollateral(calls) + collateralFees)
        invariant gathered > 0 || calls == old(calls)
        invariant forall a :: a in calls ==> a in old(calls) && calls[a] == old(calls)[a]
        invariant gathered + FundSum(calls, g) == FundSum(old(calls), g)
        invariant collateralFees + PremiumSum(calls, g) == old(collateralFees) + PremiumSum(old(calls), g)
        invariant PaidOut(old(calls) - calls.Keys, g, old(funds), funds, backing)
        decreases |calls|
      {
        var who :| who in calls;
        ghost var before, fundsBefore := calls, funds;
        var share := CloseOne(who, g);
        gathered := gathered + share;
        OneMorePaid(old(calls), before, who, g, old(funds), fundsBefore, funds, backing);
        KeysShrink(before.Keys, calls.Keys, who);
      }
      assert old(calls) - calls.Keys == old(calls);
      EmptyTotals();
      NoSums(g);
    }

    lemma NobodyPaid(all: map<Account, Call>, g: Closing, funds: Funds)
      ensures PaidOut(all - all.Keys, g, funds, funds, backing)
    {
    }

    lemma OneMorePaid(all: map<Account, Call>, open: map<Account, Call>, who: Account, g: Closing, before: Funds,
                      middle: Funds, after: Funds, asset: Asset)
      requires who in open && who in all && open[who] == all[who]
      requires PaidOut(all - open.Keys, g, before, middle, asset)
      requires PaidOut(map[who := open[who]], g, middle, after, asset)
      ensures PaidOut(all - (open - {who}).Keys, g, before, after, asset)
    {
      hide OwnerGets, Balance;
    }

    lemma NoSums(g: Closing)
      ensures FundSum(map[], g) == PremiumSum(map[], g) == 0
    {
    }

    /** One position pays into the fund and is closed. */
    method CloseOne(who: Account, g: Closing) returns (share: nat)
      requires Parameters() && CallsOk(calls) && who in calls && g.Valid()
      modifies this`calls, this`funds, this`collateralFees, this`supply
      ensures CallsOk(calls) && calls == old(calls) - {who} && share > 0
      ensures supply == old(supply) && Held(funds, debtAsset) == old(Held(funds, debtAsset))
      ensures share + Held(funds, backing) + TotalCollateral(calls) + collateralFees
           == old(Held(funds, backing) + TotalCollateral(calls) + collateralFees)
      ensures share + FundSum(calls, g) == FundSum(old(calls), g)
      ensures collateralFees + PremiumSum(calls, g) == old(collateralFees) + PremiumSum(old(calls), g)
      ensures PaidOut(map[who := old(calls)[who]], g, old(funds), funds, backing)
    {
      hide Sum, Held, GlobalFill, FundShare, PremiumShare, OwnerGets, Closing.Valid, TotalCollateral, TotalDebt;
      var f := g.Fill(calls[who]);
      SumWithout(calls, who, FundShare(g));
      SumWithout(calls, who, PremiumShare(g));
      OpenShares(who, calls[who], g);
      var closed := FillCall(who, f, false);
      share := f.otherReceives;
    }

    // ----- revival

    /** `bid_collateral`: replaces or cancels the account's bid.  `allowed` is the asset's permission to bid. */
    method BidCollateral(who: Account, collateral: nat, debt: nat, allowed: bool) returns (ok: bool)
      requires Valid()
      modifies this`bids, this`funds
      ensures Valid() && Collateral() == old(Collateral())
      ensures ok <==> && allowed && settlement.Some?
                      && (if debt > 0 then collateral > 0 else exists b :: b in old(bids) && b.bidder == who)
                      && (collateral == 0 || old(Balance(funds, who, backing)) + BidOf(old(bids), who) >= collateral)
      ensures !ok ==> bids == old(bids) && funds == old(funds)
      ensures ok && debt > 0 ==> bids == InsertBid(Others(old(bids), who), Bid(who, collateral, debt))
      ensures ok && debt == 0 ==> bids == Others(old(bids), who)
      ensures ok ==> Balance(funds, who, backing)
                     == old(Balance(funds, who, backing)) + BidOf(old(bids), who) - (if debt > 0 then collateral else 0)
    {
      hide Sum, Held, FundCovers, LimitsOk, SettlesOk, CallsOk, PoolOk, Backed, Balance, Adjust, Pay, BidOf,
        BidTotal, BidsOk, Others;
      if !allowed || settlement.None? || (debt > 0 && collateral == 0) {
        return false;
      }
      var refund := BidOf(bids, who);
      if debt == 0 && !exists b :: b in bids && b.bidder == who {
        return false;
      }
      if collateral > 0 && Balance(funds, who, backing) + refund < collateral {
        return false;
      }
      OthersOk(bids, who);
      var rest := Others(bids, who);
      Give(who, backing, refund);
      if debt > 0 {
        var taken := Take(who, backing, collateral);
        InsertBidOk(rest, Bid(who, collateral, debt));
        rest := InsertBid(rest, Bid(who, collateral, debt));
      }
      bids := rest;
      ok := true;
    }

    /** Cancels the bids from `first` on and ends the global settlement. */
    method CancelBidsAndRevive(first: nat)
      requires Parameters() && first <= |bids| && mode == GlobalSettlement && poolDebt == 0
      modifies this`bids, this`funds, this`settlement, this`gsFund
      ensures bids == [] && settlement.None? && gsFund == 0
      ensures Held(funds, debtAsset) == old(Held(funds, debtAsset))
      ensures Held(funds, backing) == old(Held(funds, backing) + BidTotal(bids[first..]))
      ensures Returned(old(bids)[first..], old(funds), funds, backing)
    {
      hide Sum, Held, Pay, Balance, BidsBy;
      var i := first;
      while i < |bids|
        invariant first <= i <= |bids| && bids == old(bids)
        invariant Held(funds, debtAsset) == old(Held(funds, debtAsset))
        invariant Held(funds, backing) + BidTotal(bids[i..]) == old(Held(funds, backing) + BidTotal(bids[first..]))
        invariant forall w, a :: Balance(funds, w, a) + (if a == backing then BidsBy(bids[i..], w) else 0)
                    == old(Balance(funds, w, a)) + (if a == backing then BidsBy(old(bids)[first..], w) else 0)
      {
        assert bids[i..][1..] == bids[i + 1..];
        forall w { BidsByStep(bids[i..], w); }
        forall w, a { PaymentsReach(funds, bids[i].bidder, backing, bids[i].collateral, w, a); }
        Give(bids[i].bidder, backing, bids[i].collateral);
        i := i + 1;
      }
      assert bids[|bids|..] == [];
      forall w { BidsByStep(bids[|bids|..], w); }
      bids := [];
      settlement := None;
      gsFund := 0;
    }

    /**
     * `revive_bitasset`: the issuer takes over the whole supply with the whole fund.  The assertion
     * that the fund is empty when there is no supply never fails.
     */
    method Revive(issuer: Account)
      requires Valid() && settlement.Some?
      modifies this`calls, this`bids, this`funds, this`settlement, this`gsFund
      ensures Valid() && Collateral() == old(Collateral())
      ensures settlement.None? && supply == old(supply)
      ensures calls == if supply == 0 then map[] else map[issuer := Call(supply, old(gsFund))]
      ensures Returned(old(bids), old(funds), funds, backing)
    {
      hide Sum, Held, LimitsOk, SettlesOk, PoolOk, Backed, Pay;
      FundOfPositiveSupply(gsFund, supply, settlement.value);
      EmptyTotals();
      if supply > 0 {
        WritePosition(issuer, Call(supply, gsFund));
      } else {
        assert gsFund == 0;
      }
      assert bids[0..] == bids;
      CancelBidsAndRevive(0);
    }

    /** The first pass of `process_bids`: how many of the best bids cover the supply, if they do. */
    method FindBids(feed: Price, ratio: nat) returns (end: nat, covered: nat)
      requires settlement.Some? && settlement.value.Valid() && supply > 0 && BidsOk(bids)
      ensures end <= |bids| && covered == Clamped(bids, supply, end)
      ensures forall i :: 0 <= i < end ==> Tested(bids[i], supply, settlement.value, feed, ratio)
      ensures end > 0 ==> Clamped(bids, supply, end - 1) < supply
      ensures covered < supply ==> end == |bids| || !Tested(bids[end], supply, settlement.value, feed, ratio)
    {
      hide MulDown, Above, Clamp;
      end, covered := 0, 0;
      var stop := false;
      while !stop && covered < supply && end < |bids|
        invariant end <= |bids| && covered == Clamped(bids, supply, end)
        invariant forall i :: 0 <= i < end ==> Tested(bids[i], supply, settlement.value, feed, ratio)
        invariant end > 0 ==> Clamped(bids, supply, end - 1) < supply
        invariant stop ==> end < |bids| && !Tested(bids[end], supply, settlement.value, feed, ratio)
        decreases !stop, |bids| - end
      {
        var bid := bids[end];
        var debt := Clamp(bid.debt, supply);
        var collateral := MulDown(debt, settlement.value) + bid.collateral;
        if Above(debt, collateral, ratio, feed) {
          covered := covered + debt;
          end := end + 1;
        } else {
          stop := true;
        }
      }
    }

    /**
     * The second pass of `process_bids`: executes the first `end` bids.  Nothing becomes negative,
     * the debts of the new positions add up to the supply, the whole fund is handed out, and every
     * position is above `ratio` at the feed price.
     */
    method ExecuteBids(end: nat, feed: Price, ratio: nat)
      requires settlement.Some? && calls == map[] && FundCovers(gsFund, supply, settlement.value)
      requires BidsOk(bids) && supply > 0 && 0 < end <= |bids|
      requires forall i :: 0 <= i < end ==> Tested(bids[i], supply, settlement.value, feed, ratio)
      requires Clamped(bids, supply, end - 1) < supply <= Clamped(bids, supply, end)
      modifies this`calls
      ensures CallsOk(calls) && AllAbove(calls, ratio, feed)
      ensures TotalDebt(calls) == supply
      ensures TotalCollateral(calls) == gsFund + BidTotal(bids[..end])
      ensures Executed(bids, end, supply, settlement.value, calls)
    {
      hide Sum, BidTotal, Above, MulDown, Clamped, TotalDebt, TotalCollateral, TakesShare, Clamp, ExecutedUpTo, Tested;
      var p := settlement.value;
      var toCover, remaining := supply, gsFund;
      var i := 0;
      EmptyTotals();
      NoBids(bids, supply);
      NoneExecuted(bids, end, supply, p);
      while i < end
        invariant 0 <= i <= end
        invariant if i < end then toCover == supply - Clamped(bids, supply, i) else toCover == 0 && remaining == 0
        invariant Covers(remaining, toCover, p)
        invariant CallsOk(calls) && AllAbove(calls, ratio, feed)
        invariant TotalDebt(calls) + toCover == supply
        invariant TotalCollateral(calls) + remaining == gsFund + BidTotal(bids[..i])
        invariant ExecutedUpTo(bids, i, end, supply, p, calls)
      {
        var bid := bids[i];
        var debt := Clamp(bid.debt, supply);
        var collateral := MulDown(debt, p);
        NextBid(bids, supply, i, end);
        BidStep(bid, supply, toCover, remaining, p, feed, ratio);
        ShareIsTaken(bid, supply, p);
        if debt >= toCover {
          debt := toCover;
          collateral := remaining;
        }
        OneMoreExecuted(bids, i, end, supply, p, calls, Call(debt, bid.collateral + collateral));
        toCover := toCover - debt;
        remaining := remaining - collateral;
        WritePosition(bid.bidder, Call(debt, bid.collateral + collateral));
        BidPrefix(bids, i);
        i := i + 1;
      }
    }

    /**
     * `process_bids`: revives a globally settled asset if the best bids, each above the initial
     * collateral ratio, cover its supply.  The two assertions at the end never fail.
     */
    method ProcessBids(feed: Price, initialRatio: nat) returns (revived: bool)
      requires Valid() && settlement.Some?
      modifies this`calls, this`bids, this`funds, this`settlement, this`gsFund
      ensures Valid() && Collateral() == old(Collateral())
      ensures supply == old(supply)
      ensures revived <==> settlement.None?
      ensures !revived ==> calls == old(calls) && bids == old(bids) && funds == old(funds) && gsFund == old(gsFund)
      ensures revived ==> exists end :: 0 <= end <= |old(bids)|
                                        && Returned(old(bids)[end..], old(funds), funds, backing)
                                        && Executed(old(bids), end, supply, old(settlement.value), calls)
                                        && Clamped(old(bids), supply, end) >= supply
                                        && (end > 0 ==> Clamped(old(bids), supply, end - 1) < supply)
      ensures revived ==> AllAbove(calls, initialRatio, feed) && TotalDebt(calls) == supply
      ensures old(settlement.value).base > 0
      ensures revived <==> supply == 0
                           || exists n :: 0 <= n <= |old(bids)| && Clamped(old(bids), supply, n) >= supply
                                          && AllTested(old(bids), n, supply, old(settlement.value), feed, initialRatio)
    {
      hide Sum, Held, LimitsOk, SettlesOk, PoolOk, Backed, BidTotal, Clamped, FundCovers, CallsOk, Tested, TakesShare,
        Returned, Executed;
      FundIsValid(gsFund, supply, settlement.value);
      NoBids(bids, supply);
      if supply == 0 {
        ReviveEmpty();
        return true;
      }
      var end, covered := FindBids(feed, initialRatio);
      if covered < supply {
        NotEnough(bids, supply, end, settlement.value, feed, initialRatio);
        return false;
      }
      assert AllTested(bids, end, supply, settlement.value, feed, initialRatio);
      ReviveWithBids(end, feed, initialRatio);
      revived := true;
    }

    /** Without supply there is nothing to execute and every bid is returned. */
    method ReviveEmpty()
      requires Valid() && settlement.Some? && supply == 0
      modifies this`bids, this`funds, this`settlement, this`gsFund
      ensures Valid() && Collateral() == old(Collateral()) && settlement.None?
      ensures calls == map[] && TotalDebt(calls) == 0 && Returned(old(bids)[0..], old(funds), funds, backing)
      ensures Executed(old(bids), 0, supply, old(settlement.value), calls)
    {
      hide Sum, Held, LimitsOk, SettlesOk, PoolOk, Backed, BidTotal, FundCovers, CallsOk, Returned;
      FundIsValid(gsFund, supply, settlement.value);
      EmptyTotals();
      NoBids(bids, supply);
      assert bids[0..] == bids;
      CancelBidsAndRevive(0);
    }

    /** The first `end` bids take over the supply and the others are returned. */
    method ReviveWithBids(end: nat, feed: Price, ratio: nat)
      requires Valid() && settlement.Some? && supply > 0 && 0 < end <= |bids| && settlement.value.base > 0
      requires AllTested(bids, end, supply, settlement.value, feed, ratio)
      requires Clamped(bids, supply, end - 1) < supply <= Clamped(bids, supply, end)
      modifies this`calls, this`bids, this`funds, this`settlement, this`gsFund
      ensures Valid() && Collateral() == old(Collateral()) && settlement.None?
      ensures Returned(old(bids)[end..], old(funds), funds, backing)
      ensures Executed(old(bids), end, supply, old(settlement.value), calls)
      ensures AllAbove(calls, ratio, feed) && TotalDebt(calls) == supply
    {
      hide Sum, Held, LimitsOk, SettlesOk, PoolOk, Backed, BidTotal, Clamped, FundCovers, CallsOk, Tested, TakesShare,
        Returned, Executed, AllAbove;
      EmptyTotals();
      NoBids(bids, supply);
      ExecuteBids(end, feed, ratio);
      BidTotalSplit(bids, end);
      CancelBidsAndRevive(end);
    }

    // ----- every run

    /** One command, skipped when its objects do not exist or its prices do not cross. */
    method Step(c: Command)
      requires Valid()
      modifies this
      ensures Valid() && Collateral() == old(Collateral())
    {
      hide Sum, Held, Backed, PoolOk, SupplyBacked, LimitsOk, SettlesOk, CallsOk, BidsOk, BidTotal,
        TotalCollateral;
      if c.PricesValid() {
        match c {
          case Borrow(who, debt, collateral) => var ok := UpdatePosition(who, debt, collateral);
          case Transfer(from, to, asset, amount) => var ok := MoveFunds(from, to, asset, amount);
          case Sell(who, amount, minToReceive) => var ok := PlaceLimit(who, amount, minToReceive);
          case CancelSell(id) => if id in limits { CancelLimit(id); }
          case Redeem(who, amount, force, feed) => var ok := AssetSettle(who, amount, force, feed);
          case CancelRedeem(id) => if id in settles { CancelSettlement(id); }
          case Respond(mode) => var ok := SetMode(mode);
          case Publish(feed) => UpdateFeed(feed);
          case Offer(who, collateral, debt, allowed) => var ok := BidCollateral(who, collateral, debt, allowed);
          case Settled(price, mssr, check, maintenance) => var ok := GloballySettle(price, mssr, check, maintenance);
          case Maintain(feed, ratio) => if settlement.Some? { var ok := ProcessBids(feed, ratio); }
          case CheckSwan(feed, enabled, maintenance) => var r := CheckForBlackSwan(feed, enabled, maintenance);
          case CheckCalls(feed, enabled, maintenance, skip) =>
            var ok := CheckCallOrders(feed, enabled, maintenance, skip);
          case CheckDebtOrder => CheckSettledDebtOrder();
          case Takeover(issuer) => if settlement.Some? { Revive(issuer); }
          case _ => MarketStep(c);
        }
      }
    }

    /** The commands that match orders with positions or with the settled-debt order. */
    method MarketStep(c: Command)
      requires Valid() && c.PricesValid()
      modifies this
      ensures Valid() && Collateral() == old(Collateral())
    {
      hide Sum, Held, Backed, SupplyBacked, LimitsOk, SettlesOk, CallsOk, BidsOk, BidTotal, TotalCollateral;
      if settlement.None? {
        match c {
          case MarginCall(id, who, feed) =>
            if id in limits && who in calls { var done := CallTakesLimit(id, who, feed.PaysRatio()); }
          case TakeCall(id, who, feed) =>
            if id in limits && who in calls && feed.OrderPrice().AtMost(limits[id].price) {
              var done := LimitTakesCall(id, who, feed);
            }
          case Squeeze(id, who, feed, maker) =>
            if id in settles && who in calls { var n := CallMeetsSettle(id, who, feed, maker); }
          case Expire(id, who, price, max, feed) =>
            if id in settles && who in calls { var done, n := ScheduledSettle(id, who, price, max, feed.PaysRatio()); }
          case BlackSwan(who, feed) =>
            if who in calls && (mode == ToFund || mode == ToOrder) { IndividuallySettle(who, feed); }
          case TakeDebt(id) =>
            if id in limits && debtOrder.Some? && limits[id].price.Inverse().AtMost(debtOrder.value.price) {
              LimitTakesDebtOrder(id);
            }
          case TakeLimit(id) =>
            if id in limits && debtOrder.Some? && debtOrder.value.price.Inverse().AtMost(limits[id].price) {
              DebtOrderTakesLimit(id);
            }
          case _ =>
        }
      }
    }

    /**
     * After every run the supply is backed, the settled-debt order is backed by its fund, every unit
     * of supply is held by somebody, and no collateral was created or lost.
     */
    method Run(commands: seq<Command>)
      requires Valid()
      modifies this
      ensures Valid() && Collateral() == old(Collateral())
    {
      for i := 0 to |commands|
        invariant Valid() && Collateral() == old(Collateral())
      {
        Step(commands[i]);
      }
    }

    lemma EmptyTotals()
      ensures TotalDebt(map[]) == TotalCollateral(map[]) == 0
      ensures CallsOk(map[])
    {
    }
  }

  /** No position has less collateral per debt. */
  ghost predicate IsLeast(calls: map<Account, Call>, who: Account) {
    who in calls && forall a :: a in calls ==> OwnPrice(calls[a]).AtMost(OwnPrice(calls[who]))
  }

  /** The price at which a position is worth exactly its debt: the inverse of its collateralisation. */
  function OwnPrice(c: Call): (p: Price) {
    Price(c.debt, c.collateral)
  }

  /** A position not above the maintenance collateralisation, a price in collateral per debt. */
  predicate MarginCalled(c: Call, maintenance: Price) {
    Price(c.collateral, c.debt).AtMost(maintenance)
  }

  /** If a position is margin called, so is every position with no more collateral per debt. */
  lemma CalledIsMonotone(c: Call, least: Call, maintenance: Price)
    requires c.Open() && least.Open() && OwnPrice(c).AtMost(OwnPrice(least)) && MarginCalled(c, maintenance)
    ensures MarginCalled(least, maintenance)
  {
    RatioChain(least.collateral, least.debt, c.collateral, c.debt, maintenance.base, maintenance.quote);
  }

  lemma TimesIsMonotone(p: Price, q: Price, r: Ratio)
    requires p.Valid() && q.Valid() && r.Valid() && p.AtMost(q)
    ensures Times(p, r).AtMost(Times(q, r))
  {
    MulLe(p.base * q.quote, q.base * p.quote, r.num * r.den);
    assert (p.base * r.num) * (q.quote * r.den) == p.base * q.quote * (r.num * r.den);
    assert (q.base * r.num) * (p.quote * r.den) == q.base * p.quote * (r.num * r.den);
  }

  /** A margin call at the margin call order price pays the squeeze price. */
  lemma SqueezeIsPaid(feed: Feed)
    requires feed.Valid()
    ensures feed.SqueezePrice().AtMost(Times(feed.OrderPrice(), feed.PaysRatio()))
    ensures Times(feed.OrderPrice(), feed.PaysRatio()).AtMost(feed.SqueezePrice())
  {
    var n, m, b, q, d := feed.Numerator(), feed.mssr, feed.price.base, feed.price.quote, COLLATERAL_RATIO_DENOM;
    assert (b * d) * ((q * n) * m) == ((b * d) * n) * (q * m);
  }

  lemma KeysShrink(before: set<nat>, after: set<nat>, k: nat)
    requires after <= before
    ensures |after| <= |before|
    ensures k in before && k !in after ==> |after| < |before|
  {
    assert before == after + (before - after);
    if k in before && k !in after {
      assert k in before - after;
    }
  }

  /** The key of the highest of some prices. */
  method Highest(prices: map<nat, Price>) returns (k: nat)
    requires prices != map[] && forall i :: i in prices ==> prices[i].Valid()
    ensures k in prices && forall i :: i in prices ==> prices[i].AtMost(prices[k])
    decreases |prices|
  {
    hide Price.AtMost;
    k :| k in prices;
    var rest := prices - {k};
    assert forall i :: i in prices && i != k ==> i in rest;
    AtMostTotal(prices[k], prices[k]);
    if rest != map[] {
      var j: nat := Highest(rest);
      AtMostTotal(prices[k], prices[j]);
      var best: nat := if prices[k].AtMost(prices[j]) then j else k;
      forall i | i in prices ensures prices[i].AtMost(prices[best]) {
        if i != k {
          assert i in rest;
          AtMostTransitive(prices[i], prices[j], prices[best]);
        }
      }
      k := best;
    }
  }

  lemma AtMostTotal(p: Price, q: Price)
    ensures p.AtMost(q) || q.AtMost(p)
  {
  }

  lemma SelfRatio(c: Call)
    ensures RatioKept(c, c)
  {
  }

  /** The amounts a smaller limit order trades, and that it is always finished by the trade. */
  lemma SmallerLimitAmounts(forSale: nat, price: Price, pays: Price)
    requires price.Valid() && pays.Valid()
    ensures var f := SmallerLimit(forSale, price, pays);
            f.callReceives <= forSale && MulDown(forSale - f.callReceives, price) == 0
  {
    hide MulDown, MulUp;
    Stabilise(forSale, price);
  }

  /** A margin call finishes the settlement or the position. */
  lemma MarginSettleFinishes(balance: nat, c: Call, price: Price, fill: Price, ratio: Ratio)
    requires balance > 0 && c.Open() && price.Valid() && fill.Valid() && ratio.Valid()
    ensures var r := MatchSettle(balance, c.debt, c, price, fill, ratio, true);
            r.Trade? ==> r.fill.callReceives == c.debt || r.settlePays == balance || r.cull
  {
  }

  /** An order that closes the position always receives something. */
  lemma WholeReceives(forSale: nat, c: Call, price: Price, pays: Price)
    requires c.Open() && price.Valid() && pays.Valid()
    ensures TakerFill(forSale, c, price, pays).otherReceives == 0 ==> c.debt > forSale
  {
    if c.debt <= forSale {
      UpIsPositive(c.debt, price);
    }
  }

  /** The settlement price times the squeeze ratio: the fund gets less collateral per debt. */
  function WithoutPremium(price: Price, mssr: nat): (p: Price)
    requires price.Valid() && mssr > 0
    ensures p.Valid() && p.base * (price.quote * COLLATERAL_RATIO_DENOM) == (price.base * mssr) * p.quote
  {
    MulLe(1, price.base, mssr);
    Price(price.base * mssr, price.quote * COLLATERAL_RATIO_DENOM)
  }

  lemma FundCoversItself(supply: nat, fund: nat)
    requires supply > 0 && fund > 0
    ensures FundCovers(fund, supply, Price(supply, fund))
  {
  }

  // ----- who is paid

  /** The balances after a limit order traded: its receipt, and what it had left when it goes. */
  ghost function AfterLimit(funds: Funds, l: Limit, debtAsset: Asset, backing: Asset, pays: nat, net: nat, goes: bool)
    : (r: Funds)
    requires pays <= l.forSale
  {
    var paid := Pay(funds, l.seller, backing, net);
    if goes then Pay(paid, l.seller, debtAsset, l.forSale - pays) else paid
  }

  /** The balances after a position traded: what collateral is left when it is closed. */
  ghost function AfterCall(funds: Funds, who: Account, backing: Asset, left: nat, closed: bool): (r: Funds) {
    if closed then Pay(funds, who, backing, left) else funds
  }

  /** The balances after a force settlement traded: its receipt, and its balance when it is culled. */
  ghost function AfterSettle(funds: Funds, s: Settle, debtAsset: Asset, backing: Asset, pays: nat, net: nat,
                             culled: bool)
    : (r: Funds)
    requires pays <= s.balance
  {
    var paid := Pay(funds, s.owner, backing, net);
    if culled then Pay(paid, s.owner, debtAsset, s.balance - pays) else paid
  }

  /** An amount that is worth nothing at a price. */
  ghost predicate Dust(amount: nat, p: Price) {
    amount * p.quote < p.base
  }

  lemma DustIsWorthNothing(p: Price)
    requires p.base > 0
    ensures forall amount: nat :: Dust(amount, p) <==> MulDown(amount, p) == 0
  {
    hide MulDown;
    forall amount: nat ensures Dust(amount, p) <==> MulDown(amount, p) == 0 {
      DownIsGreatest(amount, p, 1);
    }
  }

  /** What a payment changes. */
  lemma PaymentsReach(funds: Funds, who: Account, asset: Asset, amount: nat, w: Account, a: Asset)
    ensures Balance(Pay(funds, who, asset, amount), w, a)
         == Balance(funds, w, a) + (if w == who && a == asset then amount else 0)
  {
  }

  /** What a trade of a position with a limit order pays to the two accounts. */
  lemma TradePays(funds: Funds, who: Account, left: nat, closed: bool, l: Limit, debtAsset: Asset, backing: Asset,
                  pays: nat, net: nat, goes: bool, w: Account, a: Asset)
    requires pays <= l.forSale && debtAsset != backing
    ensures var called := AfterCall(funds, who, backing, left, closed);
            Balance(AfterLimit(called, l, debtAsset, backing, pays, net, goes), w, a)
            == Balance(funds, w, a)
               + (if w == who && a == backing && closed then left else 0)
               + (if w == l.seller && a == backing then net else 0)
               + (if w == l.seller && a == debtAsset && goes then l.forSale - pays else 0)
  {
    hide Pay, Balance;
    var f1 := AfterCall(funds, who, backing, left, closed);
    var f2 := Pay(f1, l.seller, backing, net);
    PaymentsReach(funds, who, backing, left, w, a);
    PaymentsReach(f1, l.seller, backing, net, w, a);
    PaymentsReach(f2, l.seller, debtAsset, l.forSale - pays, w, a);
  }

  /** The position, the limit order and the balances after a trade of the two. */
  ghost predicate Traded(calls: map<Account, Call>, limits: map<nat, Limit>, funds: Funds, calls': map<Account, Call>,
                         limits': map<nat, Limit>, funds': Funds, who: Account, id: nat, f: Fill, debtAsset: Asset,
                         backing: Asset, net: nat, cull: bool)
    requires who in calls && id in limits
  {
    && f.callReceives <= limits[id].forSale
    && f.callReceives <= calls[who].debt && f.callPays <= calls[who].collateral
    && var c, l := calls[who], limits[id];
    && calls' == (if f.callReceives == c.debt then calls - {who}
                  else calls[who := Call(c.debt - f.callReceives, c.collateral - f.callPays)])
    && (id in limits' ==> limits' == limits[id := l.(forSale := l.forSale - f.callReceives)])
    && (id !in limits' ==> limits' == limits - {id})
    && (id in limits' <==> f.callReceives < l.forSale && !(cull && Dust(l.forSale - f.callReceives, l.price)))
    && funds' == AfterLimit(AfterCall(funds, who, backing, c.collateral - f.callPays, f.callReceives == c.debt), l,
                            debtAsset, backing, f.callReceives, net, id !in limits')
  }

  /** What a trade of a position with a force settlement pays to the two accounts. */
  lemma RedemptionPays(funds: Funds, who: Account, left: nat, closed: bool, s: Settle, debtAsset: Asset, backing: Asset,
                       pays: nat, net: nat, culled: bool, w: Account, a: Asset)
    requires pays <= s.balance && debtAsset != backing
    ensures var called := AfterCall(funds, who, backing, left, closed);
            Balance(AfterSettle(called, s, debtAsset, backing, pays, net, culled), w, a)
            == Balance(funds, w, a)
               + (if w == who && a == backing && closed then left else 0)
               + (if w == s.owner && a == backing then net else 0)
               + (if w == s.owner && a == debtAsset && culled then s.balance - pays else 0)
  {
    hide Pay, Balance;
    var f1 := AfterCall(funds, who, backing, left, closed);
    var f2 := Pay(f1, s.owner, backing, net);
    PaymentsReach(funds, who, backing, left, w, a);
    PaymentsReach(f1, s.owner, backing, net, w, a);
    PaymentsReach(f2, s.owner, debtAsset, s.balance - pays, w, a);
  }

  /** The pool, the fee and the balances after a fair fill of the settled-debt order by a limit order. */
  ghost predicate DebtFilled(debt: nat, fund: nat, fees: nat, funds: Funds, o: DebtOrder, l: Limit, p: Price,
                             debt': nat, fund': nat, fees': nat, funds': Funds, goes: bool, debtAsset: Asset,
                             backing: Asset, rule: FeeRule, isMaker: bool)
    requires rule.Valid()
  {
    exists f ::
      && FairFill(debt, fund, o, l.forSale, p, f)
      && f.debtReceived <= l.forSale
      && debt' == debt - f.debtReceived && fund' == fund - f.fundPays && fees' == fees + f.fundPays - f.orderReceives
      && funds' == AfterLimit(funds, l, debtAsset, backing, f.debtReceived,
                              f.orderReceives - MarketFee(rule, f.orderReceives, isMaker), goes)
  }

  /** The balances after a settler paid debt and got collateral. */
  ghost predicate SettledFor(before: Funds, after: Funds, who: Account, debtAsset: Asset, backing: Asset, pays: nat,
                             net: nat)
  {
    var left := Adjust(before, who, debtAsset, 0 - pays);
    left.Some? && after == Pay(left.value, who, backing, net)
  }

  /** What reaches a settler of a payout: less the collateral fee, and then less the market fee. */
  function NetPayout(rule: FeeRule, pays: nat, settled: nat, feed: Option<Feed>): (r: nat)
    requires rule.Valid() && (feed.Some? ==> feed.value.Valid())
  {
    var gross: nat := settled - CollateralFee(pays, settled, feed);
    gross - MarketFee(rule, gross, false)
  }

  lemma NoFee(percent: nat)
    ensures Percent(0, percent) == 0
  {
  }

  /** What is left of a settler's receipt after the market fee and the force settlement fee. */
  function AfterBothFees(rule: FeeRule, forceFee: nat, amount: nat): (r: int)
    requires rule.Valid()
  {
    var net: nat := amount - MarketFee(rule, amount, false);
    net - Percent(net, forceFee)
  }

  /** The position, the force settlement and the balances after the two met. */
  ghost predicate Redeemed(calls: map<Account, Call>, settles: map<nat, Settle>, funds: Funds,
                           calls': map<Account, Call>, settles': map<nat, Settle>, funds': Funds, who: Account, id: nat,
                           r: SettleOutcome, debtAsset: Asset, backing: Asset, net: int)
    requires who in calls && id in settles
  {
    var c, s := calls[who], settles[id];
    match r
    case Skip => calls' == calls && settles' == settles && funds' == funds
    case CancelSettle =>
      calls' == calls && settles' == settles - {id} && funds' == Pay(funds, s.owner, debtAsset, s.balance)
    case Trade(f, pays, cull) =>
      && f.callReceives <= c.debt && f.callPays <= c.collateral && pays <= s.balance && net >= 0
      && calls' == (if f.callReceives == c.debt then calls - {who}
                    else calls[who := Call(c.debt - f.callReceives, c.collateral - f.callPays)])
      && settles' == (if pays == s.balance || cull then settles - {id}
                      else settles[id := s.(balance := s.balance - pays)])
      && funds' == AfterSettle(AfterCall(funds, who, backing, c.collateral - f.callPays, f.callReceives == c.debt), s,
                               debtAsset, backing, pays, net, cull)
  }

  /** How positions are closed: a premium is paid by margin calls only, `any` tells whether there is one. */
  datatype Closing = Closing(price: Price, fundPrice: Price, check: bool, maintenance: Price, any: bool) {
    predicate Valid() {
      price.base > 0 && price.quote > 0 && fundPrice.base > 0 && fundPrice.quote > 0
    }

    function Fill(c: Call): (f: Fill)
      requires Valid() && c.Open()
    {
      var called := check && MarginCalled(c, maintenance);
      GlobalFill(c, if any && !called then fundPrice else price, fundPrice, called)
    }
  }

  lemma ClosingIsValid(g: Closing)
    requires g.price.Valid() && g.fundPrice.Valid()
    ensures g.Valid()
  {
  }

  /**
   * A margin call pays the settlement price and the fund gets the price without the premium.  Another
   * position pays the fund, which is the price without the premium too when there are margin calls.
   */
  lemma ClosingAmounts(g: Closing, c: Call, atPrice: nat, atFundPrice: nat)
    requires g.Valid() && c.Open()
    requires RoundedUp(atPrice, c.debt, g.price) && RoundedUp(atFundPrice, c.debt, g.fundPrice)
    ensures g.Fill(c).callReceives == c.debt
    ensures var f := g.Fill(c);
            if g.check && MarginCalled(c, g.maintenance) then
              && f.callPays == (if atPrice > c.collateral then c.collateral else atPrice)
              && f.otherReceives == (if atFundPrice < f.callPays then atFundPrice else f.callPays)
            else
              var worth := if g.any then atFundPrice else atPrice;
              f.callPays == f.otherReceives == (if worth > c.collateral then c.collateral else worth)
  {
    hide RoundedUp, GlobalFill, MarginCalled;
    var called := g.check && MarginCalled(c, g.maintenance);
    UpIsRounded(c.debt, g.price);
    UpIsRounded(c.debt, g.fundPrice);
    GlobalFillAmounts(c, if g.any && !called then g.fundPrice else g.price, g.fundPrice, called);
  }

  ghost function ClosingOf(price: Price, fundPrice: Price, check: bool, maintenance: Price, calls: map<Account, Call>)
    : (g: Closing)
  {
    Closing(price, fundPrice, check, maintenance,
            check && exists a :: a in calls && MarginCalled(calls[a], maintenance))
  }

  /** What the fund gets of a position. */
  ghost function FundShare(g: Closing): (Account, Call) -> int {
    (who: Account, c: Call) => if g.Valid() && c.Open() then g.Fill(c).otherReceives else 0
  }

  /** What the asset gets of a position as fee. */
  ghost function PremiumShare(g: Closing): (Account, Call) -> int {
    (who: Account, c: Call) => if g.Valid() && c.Open() then g.Fill(c).callPays - g.Fill(c).otherReceives else 0
  }

  /** What its owner gets back. */
  ghost function OwnerGets(c: Call, g: Closing): (r: int) {
    if g.Valid() && c.Open() then c.collateral - g.Fill(c).callPays else 0
  }

  ghost function FundSum(calls: map<Account, Call>, g: Closing): (r: int) {
    Sum(calls, FundShare(g))
  }

  ghost function PremiumSum(calls: map<Account, Call>, g: Closing): (r: int) {
    Sum(calls, PremiumShare(g))
  }

  lemma OpenShares(who: Account, c: Call, g: Closing)
    requires g.Valid() && c.Open()
    ensures FundShare(g)(who, c) == g.Fill(c).otherReceives
    ensures PremiumShare(g)(who, c) == g.Fill(c).callPays - g.Fill(c).otherReceives
    ensures OwnerGets(c, g) == c.collateral - g.Fill(c).callPays
  {
  }

  /** Every owner, and nobody else, gets its share back. */
  ghost predicate PaidOut(calls: map<Account, Call>, g: Closing, before: Funds, after: Funds, backing: Asset) {
    forall w, a :: Balance(after, w, a)
      == Balance(before, w, a) + (if a == backing && w in calls then OwnerGets(calls[w], g) else 0)
  }

  /** The fund, the fees and the balances after a global settlement, from the positions before it. */
  ghost predicate GloballySettled(calls: map<Account, Call>, pool: nat, fees: nat, before: Funds, fund: nat, fees': nat,
                                  after: Funds, backing: Asset, price: Price, mssr: nat, check: bool,
                                  maintenance: Price)
    requires price.Valid() && mssr > 0
  {
    var g := ClosingOf(price, if check then WithoutPremium(price, mssr) else price, check, maintenance, calls);
    && fund == pool + FundSum(calls, g)
    && fees' == fees + PremiumSum(calls, g)
    && PaidOut(calls, g, before, after, backing)
  }

  /** `pay_collateral_fees`: what a payout is worth above the margin call order price. */
  function CollateralFee(pays: nat, settled: nat, feed: Option<Feed>): (fee: nat)
    requires feed.Some? ==> feed.value.Valid()
    ensures fee <= settled
    ensures feed.Some? && fee > 0 ==> settled - fee == MulUp(pays, feed.value.OrderPrice())
    ensures fee == 0 <==> feed.None? || MulUp(pays, feed.value.OrderPrice()) >= settled
                          || MulUp(pays, feed.value.OrderPrice()) > MAX_SHARE_SUPPLY
  {
    if feed.None? then 0
    else
      var atOrderPrice := MulUp(pays, feed.value.OrderPrice());
      if atOrderPrice <= MAX_SHARE_SUPPLY && atOrderPrice < settled then settled - atOrderPrice else 0
  }

  lemma FillFits(debt: nat, fund: nat, o: DebtOrder, f: DebtFill)
    requires SafeDebtFill(debt, fund, o, f)
    ensures f.orderReceives <= f.fundPays <= fund && f.debtReceived <= debt
  {
  }

  /** A taker that does not finish the settled-debt order is left with dust at its own price. */
  lemma TakerIsCulled(debt: nat, fund: nat, o: DebtOrder, l: Limit)
    requires Backed(debt, fund, o) && l.price.Valid() && l.price.Inverse().AtMost(o.price) && l.forSale > 0
    ensures var r := LimitTakes(debt, fund, o, l.forSale);
            && (r.Some? && !r.value.filled ==> r.value.debtReceived <= l.forSale)
            && (r.Some? && !r.value.filled ==> MulDown(l.forSale - r.value.debtReceived, l.price) == 0)
            && (r.None? ==> MulDown(l.forSale, l.price) == 0 && debt > l.forSale)
  {
    hide MulDown, MulUp;
    var r := LimitTakes(debt, fund, o, l.forSale);
    if debt > l.forSale {
      Stabilise(l.forSale, o.price.Inverse());
      WorsePriceGivesNoMore(l.forSale, l.price, o.price.Inverse());
      if r.Some? {
        WorsePriceGivesNoMore(l.forSale - r.value.debtReceived, l.price, o.price.Inverse());
      }
    }
  }

  lemma MakerIsCulled(debt: nat, fund: nat, o: DebtOrder, l: Limit)
    requires Backed(debt, fund, o) && l.price.Valid()
    ensures var f := DebtOrderTakes(debt, fund, o, l.forSale, l.price);
            !f.filled ==> f.debtReceived <= l.forSale && MulDown(l.forSale - f.debtReceived, l.price) == 0
  {
    hide MulDown, MulUp;
    Stabilise(l.forSale, l.price);
  }

  // ----- bids

  /** The collateral of one account's bids. */
  function BidsBy(bids: seq<Bid>, who: Account): (r: nat) {
    if bids == [] then 0 else (if bids[0].bidder == who then bids[0].collateral else 0) + BidsBy(bids[1..], who)
  }

  lemma BidsByStep(bids: seq<Bid>, who: Account)
    ensures BidsBy(bids, who)
         == if bids == [] then 0
            else (if bids[0].bidder == who then bids[0].collateral else 0) + BidsBy(bids[1..], who)
  {
  }

  /** Every bidder, and nobody else, got its bids back. */
  ghost predicate Returned(bids: seq<Bid>, before: Funds, after: Funds, backing: Asset) {
    forall w, a :: Balance(after, w, a) == Balance(before, w, a) + (if a == backing then BidsBy(bids, w) else 0)
  }

  function BidOf(bids: seq<Bid>, who: Account): (r: nat) {
    if bids == [] then 0 else if bids[0].bidder == who then bids[0].collateral else BidOf(bids[1..], who)
  }

  function Others(bids: seq<Bid>, who: Account): (r: seq<Bid>) {
    if bids == [] then []
    else if bids[0].bidder == who then bids[1..]
    else [bids[0]] + Others(bids[1..], who)
  }

  predicate NoBetter(b: Bid, c: Bid) {
    Price(b.collateral, b.debt).AtMost(Price(c.collateral, c.debt))
  }

  /** Best bid first: most collateral per debt, and the older of two equal ones. */
  function InsertBid(bids: seq<Bid>, b: Bid): (r: seq<Bid>) {
    if bids == [] then [b]
    else if NoBetter(b, bids[0]) then
      [bids[0]] + InsertBid(bids[1..], b)
    else [b] + bids
  }

  /** A sequence of bids is in order exactly when its first bid is and the others are. */
  lemma BidsCons(b: Bid, rest: seq<Bid>)
    ensures BidsOk([b] + rest)
            <==> b.debt > 0 && BidsOk(rest) && forall c :: c in rest ==> c.bidder != b.bidder && NoBetter(c, b)
    ensures BidTotal([b] + rest) == b.collateral + BidTotal(rest)
  {
    hide NoBetter;
    var all := [b] + rest;
    assert all[1..] == rest;
    if BidsOk(all) {
      forall i, j | 0 <= i < j < |rest| ensures rest[i].bidder != rest[j].bidder && NoBetter(rest[j], rest[i]) {
        assert rest[i] == all[i + 1] && rest[j] == all[j + 1];
      }
      forall i | 0 <= i < |rest| ensures rest[i].debt > 0 && rest[i].bidder != b.bidder && NoBetter(rest[i], b) {
        assert rest[i] == all[i + 1] && all[0] == b;
      }
    }
  }

  lemma NoBetterOrder(b: Bid, c: Bid, d: Bid)
    requires b.debt > 0 && c.debt > 0 && d.debt > 0
    ensures NoBetter(b, c) || NoBetter(c, b)
    ensures NoBetter(b, c) && NoBetter(c, d) ==> NoBetter(b, d)
  {
    if NoBetter(b, c) && NoBetter(c, d) {
      RatioChain(b.collateral, b.debt, c.collateral, c.debt, d.collateral, d.debt);
    }
  }

  lemma {:induction false} OthersOk(bids: seq<Bid>, who: Account)
    requires BidsOk(bids)
    ensures BidsOk(Others(bids, who))
    ensures BidTotal(Others(bids, who)) == BidTotal(bids) - BidOf(bids, who)
    ensures forall b :: b in Others(bids, who) ==> b in bids && b.bidder != who
  {
    hide NoBetter, BidsOk, BidTotal;
    if bids == [] {
      NoBidTotal();
    } else {
      assert bids == [bids[0]] + bids[1..];
      BidsCons(bids[0], bids[1..]);
      if bids[0].bidder != who {
        OthersOk(bids[1..], who);
        BidsCons(bids[0], Others(bids[1..], who));
      }
    }
  }

  lemma NoBidTotal()
    ensures BidTotal([]) == 0 && BidsOk([])
  {
  }

  lemma {:induction false} InsertBidOk(bids: seq<Bid>, b: Bid)
    requires BidsOk(bids) && b.debt > 0 && forall c :: c in bids ==> c.bidder != b.bidder
    ensures BidsOk(InsertBid(bids, b)) && b in InsertBid(bids, b)
    ensures BidTotal(InsertBid(bids, b)) == BidTotal(bids) + b.collateral
    ensures forall c :: c in InsertBid(bids, b) ==> c == b || c in bids
  {
    hide NoBetter, BidsOk, BidTotal;
    NoBidTotal();
    BidsCons(b, bids);
    if bids == [] {
      assert [b] + bids == [b];
    } else {
      var rest := bids[1..];
      assert bids == [bids[0]] + rest;
      BidsCons(bids[0], rest);
      if NoBetter(b, bids[0]) {
        InsertBidOk(rest, b);
        BidsCons(bids[0], InsertBid(rest, b));
      } else {
        PositiveDebts(bids);
        forall c | c in bids ensures NoBetter(c, b) {
          NoBetterOrder(c, bids[0], b);
          NoBetterOrder(bids[0], b, b);
        }
      }
    }
  }

  lemma PositiveDebts(bids: seq<Bid>)
    requires BidsOk(bids)
    ensures forall c :: c in bids ==> c.debt > 0
  {
  }

  function Clamp(debt: nat, supply: nat): (r: nat) {
    if debt > supply then supply else debt
  }

  /** The debt the first `n` bids cover, each counted for at most the supply. */
  function Clamped(bids: seq<Bid>, supply: nat, n: nat): (r: nat)
    requires n <= |bids|
  {
    if n == 0 then 0 else Clamped(bids, supply, n - 1) + Clamp(bids[n - 1].debt, supply)
  }

  /** What the first pass tests: the bid with its pro-rata share of the fund is above the ratio. */
  predicate Tested(b: Bid, supply: nat, p: Price, feed: Price, ratio: nat)
    requires p.base > 0
  {
    var debt := Clamp(b.debt, supply);
    Above(debt, MulDown(debt, p) + b.collateral, ratio, feed)
  }

  /** A bid other than the last takes its debt, at most the supply, with its rounded-down part of the fund. */
  ghost predicate TakesShare(c: Call, b: Bid, supply: nat, p: Price) {
    && c.debt == (if b.debt <= supply then b.debt else supply)
    && c.collateral >= b.collateral && RoundedDown(c.collateral - b.collateral, c.debt, p)
  }

  /** The positions of the first `end` bids, of which all but the last take their own debt and share. */
  ghost predicate Executed(bids: seq<Bid>, end: nat, supply: nat, p: Price, calls: map<Account, Call>)
    requires end <= |bids|
  {
    ExecutedUpTo(bids, end, end, supply, p, calls)
  }

  ghost predicate ExecutedUpTo(bids: seq<Bid>, n: nat, end: nat, supply: nat, p: Price, calls: map<Account, Call>)
    requires n <= end <= |bids|
  {
    && (forall a :: a in calls <==> exists j :: 0 <= j < n && bids[j].bidder == a)
    && forall j :: 0 <= j < n && j < end - 1 ==>
                     bids[j].bidder in calls && TakesShare(calls[bids[j].bidder], bids[j], supply, p)
  }

  lemma NoneExecuted(bids: seq<Bid>, end: nat, supply: nat, p: Price)
    requires end <= |bids|
    ensures ExecutedUpTo(bids, 0, end, supply, p, map[])
  {
  }

  lemma OneMoreExecuted(bids: seq<Bid>, i: nat, end: nat, supply: nat, p: Price, calls: map<Account, Call>, c: Call)
    requires i < end <= |bids| && BidsOk(bids) && ExecutedUpTo(bids, i, end, supply, p, calls)
    requires i < end - 1 ==> TakesShare(c, bids[i], supply, p)
    ensures bids[i].bidder !in calls && ExecutedUpTo(bids, i + 1, end, supply, p, calls[bids[i].bidder := c])
  {
    hide TakesShare;
    var next := calls[bids[i].bidder := c];
    forall a ensures a in next <==> exists j :: 0 <= j < i + 1 && bids[j].bidder == a {
      if a in calls {
        var j :| 0 <= j < i && bids[j].bidder == a;
      }
    }
  }

  lemma ShareIsTaken(b: Bid, supply: nat, p: Price)
    requires p.Valid()
    ensures var debt := Clamp(b.debt, supply);
            TakesShare(Call(debt, b.collateral + MulDown(debt, p)), b, supply, p)
  {
    hide MulDown, RoundedDown;
    DownIsRounded(Clamp(b.debt, supply), p);
  }

  ghost predicate AllAbove(calls: map<Account, Call>, ratio: nat, feed: Price) {
    forall a :: a in calls ==> Above(calls[a].debt, calls[a].collateral, ratio, feed)
  }

  /** The first `n` bids are each above the ratio. */
  ghost predicate AllTested(bids: seq<Bid>, n: int, supply: nat, p: Price, feed: Price, ratio: nat)
    requires p.base > 0
  {
    n <= |bids| && forall i :: 0 <= i < n ==> Tested(bids[i], supply, p, feed, ratio)
  }

  /** If the search stopped short of the supply, no prefix of tested bids covers it. */
  lemma NotEnough(bids: seq<Bid>, supply: nat, end: nat, p: Price, feed: Price, ratio: nat)
    requires end <= |bids| && p.base > 0 && Clamped(bids, supply, end) < supply
    requires end == |bids| || !Tested(bids[end], supply, p, feed, ratio)
    ensures forall n :: 0 <= n <= |bids| && AllTested(bids, n, supply, p, feed, ratio) ==>
                          Clamped(bids, supply, n) < supply
  {
    hide Tested, Clamped;
    forall n | 0 <= n <= |bids| && AllTested(bids, n, supply, p, feed, ratio)
      ensures Clamped(bids, supply, n) < supply
    {
      if n <= end {
        ClampedGrows(bids, supply, n, end);
      }
    }
  }

  ghost predicate Covers(remaining: nat, toCover: nat, p: Price) {
    toCover * p.quote <= remaining * p.base
  }

  lemma FundIsValid(fund: nat, supply: nat, p: Price)
    requires FundCovers(fund, supply, p)
    ensures p.Valid() && (supply == 0 ==> fund == 0)
  {
  }

  lemma NoBids(bids: seq<Bid>, supply: nat)
    ensures Clamped(bids, supply, 0) == 0
    ensures BidTotal(bids[..0]) == BidTotal([]) == 0
  {
  }

  /** Only the last of the chosen bids reaches what is left to cover. */
  lemma NextBid(bids: seq<Bid>, supply: nat, i: nat, end: nat)
    requires i < end <= |bids| && supply > 0 && BidsOk(bids)
    requires Clamped(bids, supply, end - 1) < supply <= Clamped(bids, supply, end)
    ensures Clamped(bids, supply, i) < supply
    ensures Clamped(bids, supply, i + 1) == Clamped(bids, supply, i) + Clamp(bids[i].debt, supply)
    ensures Clamped(bids, supply, i) + Clamp(bids[i].debt, supply) >= supply <==> i + 1 == end
    ensures Clamp(bids[i].debt, supply) > 0
  {
    ClampedGrows(bids, supply, i, end - 1);
    if i + 1 < end {
      ClampedGrows(bids, supply, i + 1, end - 1);
    }
  }

  lemma {:induction false} ClampedGrows(bids: seq<Bid>, supply: nat, i: nat, j: nat)
    requires i <= j <= |bids|
    ensures Clamped(bids, supply, i) <= Clamped(bids, supply, j)
    decreases j
  {
    if i < j {
      ClampedGrows(bids, supply, i, j - 1);
    }
  }

  /** One executed bid: what it takes is there, the rest is still covered, and it is above the ratio. */
  lemma BidStep(b: Bid, supply: nat, toCover: nat, remaining: nat, p: Price, feed: Price, ratio: nat)
    requires p.Valid() && toCover > 0 && Clamp(b.debt, supply) > 0 && Covers(remaining, toCover, p)
    requires Tested(b, supply, p, feed, ratio)
    ensures var debt := Clamp(b.debt, supply);
            var share := MulDown(debt, p);
            if debt >= toCover
            then Above(toCover, b.collateral + remaining, ratio, feed) && b.collateral + remaining > 0
            else && share <= remaining && Covers(remaining - share, toCover - debt, p)
                 && Above(debt, b.collateral + share, ratio, feed) && b.collateral + share > 0
    ensures Covers(0, 0, p)
  {
    hide Above, MulDown, Covers;
    var debt := Clamp(b.debt, supply);
    var share := MulDown(debt, p);
    NothingCovered(p);
    if debt >= toCover {
      CoversRatio(remaining, toCover, p);
      LastBidIsBetter(debt, b.collateral, toCover, remaining, p);
      AboveIsMonotone(debt, share + b.collateral, toCover, remaining + b.collateral, ratio, feed);
      AboveNeedsCollateral(toCover, b.collateral + remaining, ratio, feed);
    } else {
      ShareIsCovered(debt, remaining, toCover, p);
      AboveNeedsCollateral(debt, b.collateral + share, ratio, feed);
    }
  }

  lemma NothingCovered(p: Price)
    ensures Covers(0, 0, p)
  {
  }

  lemma CoversRatio(remaining: nat, toCover: nat, p: Price)
    requires Covers(remaining, toCover, p)
    ensures toCover * p.quote <= remaining * p.base
  {
  }

  lemma ShareIsCovered(debt: nat, remaining: nat, toCover: nat, p: Price)
    requires p.Valid() && debt <= toCover && Covers(remaining, toCover, p)
    ensures MulDown(debt, p) <= remaining
    ensures Covers(remaining - MulDown(debt, p), toCover - debt, p)
  {
    hide MulDown, MulUp;
    var share := MulDown(debt, p);
    MulLe(debt, toCover, p.quote);
    CancelLe(share, remaining, p.base);
    assert (toCover - debt) * p.quote == toCover * p.quote - debt * p.quote;
    assert (remaining - share) * p.base == remaining * p.base - share * p.base;
  }

  lemma AboveNeedsCollateral(debt: nat, collateral: nat, ratio: nat, feed: Price)
    requires Above(debt, collateral, ratio, feed)
    ensures collateral > 0
  {
    hide MulDown, MulUp;
    if collateral == 0 {
      MulLe(0, ratio, feed.quote);
      MulLe(0, debt, ratio * feed.quote);
      assert false;
    }
  }

  lemma BidPrefix(bids: seq<Bid>, i: nat)
    requires i < |bids|
    ensures BidTotal(bids[..i + 1]) == BidTotal(bids[..i]) + bids[i].collateral
  {
    assert bids[..i + 1] == bids[..i] + [bids[i]];
    BidTotalConcat(bids[..i], [bids[i]]);
  }

  lemma BidTotalSplit(bids: seq<Bid>, k: nat)
    requires k <= |bids|
    ensures BidTotal(bids) == BidTotal(bids[..k]) + BidTotal(bids[k..])
  {
    assert bids == bids[..k] + bids[k..];
    BidTotalConcat(bids[..k], bids[k..]);
  }

  lemma {:induction false} BidTotalConcat(s: seq<Bid>, t: seq<Bid>)
    ensures BidTotal(s + t) == BidTotal(s) + BidTotal(t)
  {
    if s == [] {
      assert s + t == t;
    } else {
      BidTotalConcat(s[1..], t);
      assert (s + t)[1..] == s[1..] + t;
    }
  }

  // ----- a position that cannot pay a partial trade

  const START: Funds := map[(8, 1) := 3]

  lemma StartFunds()
    ensures Held(START, 0) == 0 && Balance(START, 8, 0) == 0 && Balance(START, 8, 1) == 3
  {
    SumZero(START, OfAsset(0));
  }

  /** A feed whose margin call order price and squeeze price are both one to one. */
  lemma OneToOne(feed: Feed)
    requires feed == Feed(Price(1500, 1000), 1500, 0)
    ensures feed.Valid() && feed.OrderPrice().AtMost(Price(3, 3))
    ensures TakerFill(3, Call(10, 3), feed.OrderPrice(), feed.SqueezePrice()) == Fill(3, 3, 3)
  {
    hide MulDown, MulUp;
    DownIsGreatest(3, feed.OrderPrice(), 3);
    DownIsGreatest(3, feed.OrderPrice(), 4);
    UpIsLeast(3, feed.OrderPrice().Inverse(), 3);
    UpIsLeast(3, feed.OrderPrice().Inverse(), 2);
    DownIsGreatest(3, feed.SqueezePrice(), 3);
    DownIsGreatest(3, feed.SqueezePrice(), 4);
  }

  /** A market of a position of 10 debt and 3 collateral and an order for 3 of its debt. */
  method DrainedMarket() returns (m: Mpa)
    ensures fresh(m) && m.Valid() && m.settlement.None? && m.calls == map[8 := Call(10, 3)]
    ensures m.limits == map[0 := Limit(8, 3, Price(3, 3))]
  {
    hide Sum, Held, TotalDebt, TotalCollateral, TotalForSale, TotalSettling, BidTotal, Balance, FundCovers,
      PoolOk, MulDown, MulUp;
    StartFunds();
    m := new Mpa(0, 1, FeeRule(false, 0, None, 0), 0, NoSettlement, START);
    var ok := m.UpdatePosition(8, 10, 3);
    assert ok;
    ok := m.PlaceLimit(8, 3, 3);
    assert ok;
  }

  /**
   * A run to a position of 10 debt and 3 collateral and a new order for 3 of its debt at the margin
   * call order price.  The trade would take all of its collateral and leave 7 debt; here it fails.
   */
  method RunToDrainedPosition() returns (m: Mpa, done: bool)
    ensures m.Valid() && m.settlement.None? && m.calls == map[8 := Call(10, 3)] && m.limits.Keys == {0} && !done
  {
    hide Mpa.Valid, Mpa.Collateral, MulDown, MulUp, Traded, Feed.OrderPrice, Feed.SqueezePrice;
    var feed := Feed(Price(1500, 1000), 1500, 0);
    OneToOne(feed);
    m := DrainedMarket();
    done := m.LimitTakesCall(0, 8, feed);
  }
}

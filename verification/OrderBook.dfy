/**
 * Limit-order matching in one market: `apply_order`, `match_limit_normal_limit`,
 * `fill_limit_order`, `maybe_cull_small_order` and `cancel_limit_order`.
 */
module OrderBook {
  import opened Rounding
  import opened Ledger
  import opened MarketFees
  import opened DeferredFees

  /** `price.base` is the asset sold, `price.quote` the asset asked for. */
  datatype Order = Order(id: nat, seller: Account, forSale: nat, price: Price)

  /** An order worth keeping: it has something to sell and would receive something for it. */
  ghost predicate Live(o: Order) {
    o.price.Valid() && o.forSale > 0 && MulDown(o.forSale, o.price) > 0
  }

  /** Two opposite prices cross when the maker's reaches the inverse of the taker's. */
  predicate Crosses(a: Price, b: Price) {
    a.Inverse().AtMost(b)
  }

  // ----- the book

  ghost predicate AllLive(s: seq<Order>) {
    forall i :: 0 <= i < |s| ==> Live(s[i])
  }

  /** Best price first, and among equal prices the oldest order first. */
  ghost predicate Before(a: Order, b: Order) {
    b.price.AtMost(a.price) && (a.price.AtMost(b.price) ==> a.id < b.id)
  }

  ghost predicate Sorted(s: seq<Order>) {
    forall i, j :: 0 <= i < j < |s| ==> Before(s[i], s[j])
  }

  ghost predicate Uncrossed(s: seq<Order>, t: seq<Order>) {
    forall i, j :: 0 <= i < |s| && 0 <= j < |t| ==> !Crosses(s[i].price, t[j].price)
  }

  ghost predicate OlderThan(s: seq<Order>, id: nat) {
    forall i :: 0 <= i < |s| ==> s[i].id < id
  }

  ghost function ForSale(s: seq<Order>): (r: int) {
    if s == [] then 0 else s[0].forSale + ForSale(s[1..])
  }

  /** If an order does not cross a price, no worse order on its side does. */
  lemma WorseOrderCrossesLess(best: Price, worse: Price, other: Price)
    requires best.Valid() && worse.Valid() && other.Valid()
    requires worse.AtMost(best) && Crosses(worse, other)
    ensures Crosses(best, other)
  {
    AtMostTransitive(best.Inverse(), worse.Inverse(), other);
  }

  /** Where a new order goes: behind every order whose price is at least as good. */
  function Insert(s: seq<Order>, o: Order): (r: seq<Order>)
    ensures |r| == |s| + 1
  {
    if s == [] then [o]
    else if o.price.AtMost(s[0].price) then [s[0]] + Insert(s[1..], o)
    else [o] + s
  }

  /** Insertion keeps the order of the book and puts the new order at exactly one place. */
  lemma {:induction false} InsertAt(s: seq<Order>, o: Order) returns (k: nat)
    requires Sorted(s) && AllLive(s) && OlderThan(s, o.id) && o.price.Valid()
    ensures k <= |s| && Insert(s, o) == s[..k] + [o] + s[k..]
    ensures forall i :: 0 <= i < k ==> Before(s[i], o)
    ensures forall i :: k <= i < |s| ==> Before(o, s[i])
    ensures Sorted(Insert(s, o))
  {
    if s == [] {
      k := 0;
    } else if o.price.AtMost(s[0].price) {
      var j := InsertAt(s[1..], o);
      k := j + 1;
      assert s[..k] == [s[0]] + s[1..][..j];
      assert s[k..] == s[1..][j..];
      forall i | 0 <= i < k ensures Before(s[i], o) {
        if i > 0 { assert s[i] == s[1..][i - 1]; }
      }
      forall i | k <= i < |s| ensures Before(o, s[i]) {
        assert s[i] == s[1..][i - 1];
      }
    } else {
      k := 0;
      forall i | 0 <= i < |s| ensures Before(o, s[i]) {
        if i > 0 {
          assert Before(s[0], s[i]);
          AtMostTransitive(s[i].price, s[0].price, o.price);
          if o.price.AtMost(s[i].price) {
            AtMostTransitive(o.price, s[i].price, s[0].price);
          }
        }
      }
    }
  }

  lemma {:induction false} ForSaleConcat(s: seq<Order>, t: seq<Order>)
    ensures ForSale(s + t) == ForSale(s) + ForSale(t)
  {
    if s == [] {
      assert s + t == t;
    } else {
      ForSaleConcat(s[1..], t);
      assert (s + t)[1..] == s[1..] + t;
    }
  }

  // ----- one match

  datatype Trade = Trade(pays: nat, receives: nat)

  /** What the taker pays and receives when `have` meets `maker`, at the maker's price. */
  function TradeOf(have: nat, maker: Order): (t: Trade)
    requires maker.price.Valid()
  {
    if have <= MulDown(maker.forSale, maker.price) then
      var receives := MulDown(have, maker.price.Inverse());
      Trade(MulUp(receives, maker.price), receives)
    else
      var pays := MulDown(maker.forSale, maker.price);
      Trade(pays, MulUp(pays, maker.price.Inverse()))
  }

  /** Whether the taker is the smaller order and decides the size of the trade. */
  predicate TakerIsSmaller(have: nat, maker: Order)
    requires maker.price.Valid()
  {
    have <= MulDown(maker.forSale, maker.price)
  }

  /**
   * A match of two crossing orders.  Nobody pays more than it has; the order that decides the size
   * gets exactly its rounded-down worth, pays the least that earns it, and what it keeps is worth
   * nothing, so it is always removed; the other order gets at least the match price.
   */
  lemma MatchOfTwo(have: nat, limit: Price, maker: Order)
    requires have > 0 && limit.Valid() && Live(maker) && Crosses(limit, maker.price)
    ensures var t := TradeOf(have, maker);
            t.pays <= have && t.receives <= maker.forSale
    ensures var t := TradeOf(have, maker);
            TakerIsSmaller(have, maker) ==>
              && t.receives == MulDown(have, maker.price.Inverse())
              && (forall x: nat :: x < t.pays ==> MulDown(x, maker.price.Inverse()) < t.receives)
              && MulDown(have - t.pays, limit) == 0
              && t.receives * maker.price.quote <= t.pays * maker.price.base
    ensures var t := TradeOf(have, maker);
            !TakerIsSmaller(have, maker) ==>
              && 0 < t.pays == MulDown(maker.forSale, maker.price) < have
              && t.receives > 0
              && (forall x: nat :: x < t.receives ==> MulDown(x, maker.price) < t.pays)
              && MulDown(maker.forSale - t.receives, maker.price) == 0
              && t.pays * maker.price.base <= t.receives * maker.price.quote
    // neither side trades below its own price
    ensures var t := TradeOf(have, maker);
            MulDown(t.pays, limit) <= t.receives && MulDown(t.receives, maker.price) <= t.pays
  {
    hide MulDown, MulUp, Crosses, Price.AtMost;
    var p, t := maker.price, TradeOf(have, maker);
    CrossInverse(limit, p);
    if TakerIsSmaller(have, maker) {
      Stabilise(have, p.Inverse());
      WorsePriceGivesNoMore(have - t.pays, limit, p.Inverse());
      WorsePriceGivesNoMore(t.pays, limit, p.Inverse());
      FloorFits(have, maker);
      RoundedUpKeepsWorth(t.receives, p);
    } else {
      Stabilise(maker.forSale, p);
      RoundedUpKeepsWorth(t.pays, p.Inverse());
      WorsePriceGivesNoMore(t.pays, limit, p.Inverse());
    }
  }

  lemma CrossInverse(limit: Price, p: Price)
    ensures Crosses(limit, p) <==> p.Inverse().AtMost(limit)
  {
  }

  /** Rounding down what fits under the maker's worth never takes more than the maker has. */
  lemma FloorFits(have: nat, maker: Order)
    requires maker.price.Valid() && TakerIsSmaller(have, maker)
    ensures MulDown(have, maker.price.Inverse()) <= maker.forSale
  {
    hide MulDown;
    var p := maker.price;
    DownIsGreatest(maker.forSale, p, have);
    DownIsGreatest(have, p.Inverse(), maker.forSale + 1);
    assert (maker.forSale + 1) * p.quote == maker.forSale * p.quote + p.quote;
  }

  /** `u` pays for `r` rounded up, so `u` is worth at least `r` and less than one step more. */
  lemma RoundedUpKeepsWorth(r: nat, p: Price)
    requires p.Valid()
    ensures MulDown(r, p) <= MulUp(r, p)
  {
    hide MulDown, MulUp;
    UpIsLeast(r, p, MulUp(r, p));
    DownIsGreatest(r, p, MulUp(r, p) + 1);
  }

  /** How a match ends: the order that decides the size is worth nothing afterwards. */
  lemma MatchEnds(have: nat, limit: Price, maker: Order)
    requires have > 0 && limit.Valid() && Live(maker) && Crosses(limit, maker.price)
    ensures var t := TradeOf(have, maker);
            && t.pays <= have && t.receives <= maker.forSale
            && (TakerIsSmaller(have, maker) ==> MulDown(have - t.pays, limit) == 0)
            && (TakerIsSmaller(have, maker) && t.receives == 0 ==> MulDown(have, limit) == 0)
            && (!TakerIsSmaller(have, maker) ==>
                  0 < t.pays < have && MulDown(maker.forSale - t.receives, maker.price) == 0)
  {
    hide MulDown, MulUp, Crosses, Price.AtMost;
    MatchOfTwo(have, limit, maker);
    CrossInverse(limit, maker.price);
    WorsePriceGivesNoMore(have, limit, maker.price.Inverse());
  }

  // ----- money

  /** Account balances and the market fees collected, by asset. */
  datatype Purse = Purse(funds: Funds, pots: map<Asset, nat>)

  function Pot(pots: map<Asset, nat>, asset: Asset): (r: nat) {
    if asset in pots then pots[asset] else 0
  }

  ghost function InPurse(p: Purse, asset: Asset): (r: int) {
    Held(p.funds, asset) + Pot(p.pots, asset)
  }

  /** The assets of a market seen from the taker, with the fee rule of each. */
  datatype Terms = Terms(sell: Asset, buy: Asset, sellRule: FeeRule, buyRule: FeeRule) {
    ghost predicate Valid() {
      sell != buy && sellRule.Valid() && buyRule.Valid()
    }
  }

  /** An order receives `amount` less the market fee, which goes to the pot. */
  function Receive(p: Purse, who: Account, asset: Asset, amount: nat, rule: FeeRule, isMaker: bool): (r: Purse)
    requires rule.Valid()
  {
    var fee := MarketFee(rule, amount, isMaker);
    Purse(Pay(p.funds, who, asset, amount - fee), p.pots[asset := Pot(p.pots, asset) + fee])
  }

  function Refund(p: Purse, who: Account, asset: Asset, amount: nat): (r: Purse) {
    p.(funds := Pay(p.funds, who, asset, amount))
  }

  lemma ReceiveAdds(p: Purse, who: Account, asset: Asset, amount: nat, rule: FeeRule, isMaker: bool, other: Asset)
    requires rule.Valid()
    ensures InPurse(Receive(p, who, asset, amount, rule, isMaker), other)
         == InPurse(p, other) + (if other == asset then amount else 0)
  {
    hide MulDown, MulUp;
    AdjustMovesTotal(p.funds, who, asset, amount - MarketFee(rule, amount, isMaker), other);
  }

  lemma RefundAdds(p: Purse, who: Account, asset: Asset, amount: nat, other: Asset)
    ensures InPurse(Refund(p, who, asset, amount), other) == InPurse(p, other) + (if other == asset then amount else 0)
  {
    AdjustMovesTotal(p.funds, who, asset, amount, other);
  }

  // ----- a sweep over the opposite side

  /** The taker's remaining amount, whether matching has to stop, the makers left and the money. */
  datatype Swept = Swept(left: nat, finished: bool, makers: seq<Order>, purse: Purse)

  /** Whether an order is removed once `left` is all it has: it is filled, or culled as dust. */
  predicate Removed(left: nat, price: Price)
    requires price.Valid()
  {
    left == 0 || MulDown(left, price) == 0
  }

  /** The first maker after it paid `paid`: gone with its dust refunded, or still there. */
  function FillMaker(makers: seq<Order>, paid: nat, purse: Purse, asset: Asset): (r: (seq<Order>, Purse))
    requires makers != [] && paid <= makers[0].forSale && makers[0].price.Valid()
  {
    var m := makers[0];
    var left := m.forSale - paid;
    if Removed(left, m.price) then (makers[1..], Refund(purse, m.seller, asset, left))
    else ([m.(forSale := left)] + makers[1..], purse)
  }

  /** `match_limit_normal_limit` of a taker with the first maker. */
  function MatchFirst(have: nat, limit: Price, taker: Account, makers: seq<Order>, purse: Purse, t: Terms): (s: Swept)
    requires t.Valid() && have > 0 && limit.Valid()
    requires makers != [] && Live(makers[0]) && Crosses(limit, makers[0].price)
    ensures s.left <= have
    ensures !s.finished ==> s.makers == makers[1..] && 0 < s.left < have
    ensures s.finished ==> Removed(s.left, limit)
  {
    hide MulDown, MulUp, Receive, Refund, TradeOf;
    var m := makers[0];
    MatchEnds(have, limit, m);
    var tr := TradeOf(have, m);
    if TakerIsSmaller(have, m) && tr.receives == 0 then
      Swept(have, true, makers, purse)
    else
      var paid := Receive(Receive(purse, taker, t.buy, tr.receives, t.buyRule, false),
                          m.seller, t.sell, tr.pays, t.sellRule, true);
      var after := FillMaker(makers, tr.receives, paid, t.buy);
      Swept(have - tr.pays, TakerIsSmaller(have, m), after.0, after.1)
  }

  /** The matching loop of `apply_order`, best maker first while prices cross. */
  function Sweep(have: nat, limit: Price, taker: Account, makers: seq<Order>, purse: Purse, t: Terms): (s: Swept)
    requires t.Valid() && have > 0 && limit.Valid() && AllLive(makers)
    decreases |makers|
  {
    if makers == [] || !Crosses(limit, makers[0].price) then Swept(have, false, makers, purse)
    else
      var s := MatchFirst(have, limit, taker, makers, purse, t);
      if s.finished then s else Sweep(s.left, limit, taker, s.makers, s.purse, t)
  }

  /** One asset in the purse, in the taker's hands and in the makers' orders. */
  ghost function InPlay(purse: Purse, left: int, makers: seq<Order>, t: Terms, a: Asset): (r: int) {
    InPurse(purse, a) + (if a == t.sell then left else 0) + (if a == t.buy then ForSale(makers) else 0)
  }

  lemma FillMakerConserves(makers: seq<Order>, paid: nat, purse: Purse, asset: Asset, a: Asset)
    requires makers != [] && paid <= makers[0].forSale && makers[0].price.Valid()
    ensures var r := FillMaker(makers, paid, purse, asset);
            InPurse(r.1, a) + (if a == asset then ForSale(r.0) + paid else 0)
              == InPurse(purse, a) + (if a == asset then ForSale(makers) else 0)
  {
    var m := makers[0];
    var left := m.forSale - paid;
    if Removed(left, m.price) {
      RefundAdds(purse, m.seller, asset, left, a);
    } else {
      var rest := [m.(forSale := left)] + makers[1..];
      assert rest[1..] == makers[1..];
    }
  }

  /** One match neither creates nor destroys anything, in either asset. */
  lemma MatchConserves(have: nat, limit: Price, taker: Account, makers: seq<Order>, purse: Purse, t: Terms, a: Asset)
    requires t.Valid() && have > 0 && limit.Valid()
    requires makers != [] && Live(makers[0]) && Crosses(limit, makers[0].price)
    ensures var s := MatchFirst(have, limit, taker, makers, purse, t);
            InPlay(s.purse, s.left, s.makers, t, a) == InPlay(purse, have, makers, t, a)
  {
    hide MulDown, MulUp;
    var m := makers[0];
    MatchOfTwo(have, limit, m);
    var tr := TradeOf(have, m);
    if !(TakerIsSmaller(have, m) && tr.receives == 0) {
      var p1 := Receive(purse, taker, t.buy, tr.receives, t.buyRule, false);
      var p2 := Receive(p1, m.seller, t.sell, tr.pays, t.sellRule, true);
      ReceiveAdds(purse, taker, t.buy, tr.receives, t.buyRule, false, a);
      ReceiveAdds(p1, m.seller, t.sell, tr.pays, t.sellRule, true, a);
      FillMakerConserves(makers, tr.receives, p2, t.buy, a);
    }
  }

  lemma {:induction false} SweepConserves(have: nat, limit: Price, taker: Account, makers: seq<Order>, purse: Purse,
                                          t: Terms, a: Asset)
    requires t.Valid() && have > 0 && limit.Valid() && AllLive(makers)
    ensures var s := Sweep(have, limit, taker, makers, purse, t);
            InPlay(s.purse, s.left, s.makers, t, a) == InPlay(purse, have, makers, t, a)
    decreases |makers|
  {
    if makers != [] && Crosses(limit, makers[0].price) {
      MatchConserves(have, limit, taker, makers, purse, t, a);
      var s := MatchFirst(have, limit, taker, makers, purse, t);
      if !s.finished {
        SweepConserves(s.left, limit, taker, s.makers, s.purse, t, a);
      }
    }
  }

  /** `after` is what is left of `before`: a suffix whose first order may have been reduced. */
  ghost predicate LeftOver(before: seq<Order>, after: seq<Order>) {
    && |after| <= |before|
    && AllLive(after)
    && forall i :: 0 <= i < |after| ==>
         after[i].id == before[|before| - |after| + i].id && after[i].price == before[|before| - |after| + i].price
  }

  lemma MatchLeaves(have: nat, limit: Price, taker: Account, makers: seq<Order>, purse: Purse, t: Terms)
    requires t.Valid() && have > 0 && limit.Valid() && AllLive(makers)
    requires makers != [] && Crosses(limit, makers[0].price)
    ensures LeftOver(makers, MatchFirst(have, limit, taker, makers, purse, t).makers)
  {
    hide MulDown, MulUp, Receive;
    MatchOfTwo(have, limit, makers[0]);
  }

  lemma FrontDecides(limit: Price, makers: seq<Order>)
    requires limit.Valid() && AllLive(makers) && Sorted(makers)
    requires makers != [] ==> !Crosses(limit, makers[0].price)
    ensures forall i :: 0 <= i < |makers| ==> !Crosses(limit, makers[i].price)
  {
    forall i | 0 <= i < |makers| ensures !Crosses(limit, makers[i].price) {
      if i > 0 && Crosses(limit, makers[i].price) {
        assert Before(makers[0], makers[i]);
        WorseOrderCrossesLess(makers[0].price, makers[i].price, limit);
        assert false;
      }
    }
  }

  /**
   * The sweep leaves a suffix of live makers.  Either it stopped on an order that is now removable,
   * or something is left to sell and no remaining maker crosses it.
   */
  lemma {:induction false} SweepLeaves(have: nat, limit: Price, taker: Account, makers: seq<Order>, purse: Purse,
                                       t: Terms)
    requires t.Valid() && have > 0 && limit.Valid() && AllLive(makers) && Sorted(makers)
    ensures var s := Sweep(have, limit, taker, makers, purse, t);
            && LeftOver(makers, s.makers)
            && s.left <= have
            && (s.finished ==> Removed(s.left, limit))
            && (!s.finished ==> s.left > 0)
            && (!s.finished ==> forall i :: 0 <= i < |s.makers| ==> !Crosses(limit, s.makers[i].price))
    decreases |makers|
  {
    hide MatchFirst, MulDown, Crosses;
    if makers != [] && Crosses(limit, makers[0].price) {
      MatchLeaves(have, limit, taker, makers, purse, t);
      var s := MatchFirst(have, limit, taker, makers, purse, t);
      if !s.finished {
        SweepLeaves(s.left, limit, taker, s.makers, s.purse, t);
      }
    } else {
      FrontDecides(limit, makers);
    }
  }

  lemma LeftOverSorted(before: seq<Order>, after: seq<Order>)
    requires LeftOver(before, after) && Sorted(before)
    ensures Sorted(after)
    ensures forall id :: OlderThan(before, id) ==> OlderThan(after, id)
  {
    var k := |before| - |after|;
    forall i, j | 0 <= i < j < |after| ensures Before(after[i], after[j]) {
      assert Before(before[k + i], before[k + j]);
    }
  }

  // ----- who is paid

  /** One trade of a sweep, with the maker as it was, and whether the maker goes. */
  datatype Made = Made(maker: Order, trade: Trade, makerGoes: bool)

  /** The trades of a taker with `have` to sell, in order. */
  function Trades(have: nat, limit: Price, makers: seq<Order>): (ts: seq<Made>)
    requires limit.Valid() && AllLive(makers)
    decreases |makers|
  {
    hide MulDown, MulUp, TradeOf;
    if have == 0 || makers == [] || !Crosses(limit, makers[0].price) then []
    else
      MatchEnds(have, limit, makers[0]);
      var m, tr := makers[0], TradeOf(have, makers[0]);
      var made := Made(m, tr, Removed(m.forSale - tr.receives, m.price));
      if !TakerIsSmaller(have, m) then [made] + Trades(have - tr.pays, limit, makers[1..])
      else if tr.receives == 0 then [] else [made]
  }

  function Paid(ts: seq<Made>): (r: nat) {
    if ts == [] then 0 else ts[0].trade.pays + Paid(ts[1..])
  }

  function Received(ts: seq<Made>): (r: nat) {
    if ts == [] then 0 else ts[0].trade.receives + Received(ts[1..])
  }

  /** What one trade brings an account: each side's receipt less its fee, and the dust of a maker that goes. */
  function Gain(m: Made, taker: Account, t: Terms, w: Account, a: Asset): (r: int)
    requires t.Valid()
  {
    (if w == taker && a == t.buy then m.trade.receives - MarketFee(t.buyRule, m.trade.receives, false) else 0)
    + (if w == m.maker.seller && a == t.sell then m.trade.pays - MarketFee(t.sellRule, m.trade.pays, true) else 0)
    + (if w == m.maker.seller && a == t.buy && m.makerGoes then m.maker.forSale - m.trade.receives else 0)
  }

  function Gains(ts: seq<Made>, taker: Account, t: Terms, w: Account, a: Asset): (r: int)
    requires t.Valid()
  {
    if ts == [] then 0 else Gain(ts[0], taker, t, w, a) + Gains(ts[1..], taker, t, w, a)
  }

  lemma PayAdds(funds: Funds, who: Account, asset: Asset, amount: nat, w: Account, a: Asset)
    ensures Balance(Pay(funds, who, asset, amount), w, a)
         == Balance(funds, w, a) + (if (w, a) == (who, asset) then amount else 0)
  {
  }

  /** The trade of a match, if it makes one. */
  function MadeBy(have: nat, maker: Order): (m: Made)
    requires have > 0 && maker.price.Valid() && TradeOf(have, maker).receives <= maker.forSale
  {
    var tr := TradeOf(have, maker);
    Made(maker, tr, Removed(maker.forSale - tr.receives, maker.price))
  }

  /** A match either trades, and is the next trade of the sweep, or ends it without a trade. */
  lemma MatchTrades(have: nat, limit: Price, taker: Account, makers: seq<Order>, purse: Purse, t: Terms)
    requires t.Valid() && have > 0 && limit.Valid() && AllLive(makers)
    requires makers != [] && Crosses(limit, makers[0].price)
    ensures TradeOf(have, makers[0]).receives <= makers[0].forSale && TradeOf(have, makers[0]).pays <= have
    ensures var s, made := MatchFirst(have, limit, taker, makers, purse, t), MadeBy(have, makers[0]);
            && (s.left == have ==> s.finished && s.purse == purse && Trades(have, limit, makers) == [])
            && (s.left < have ==>
                  && s.left == have - made.trade.pays && (|s.makers| < |makers| <==> made.makerGoes)
                  && Trades(have, limit, makers)
                     == [made] + (if s.finished then [] else Trades(s.left, limit, s.makers)))
  {
    hide MulDown, MulUp, Crosses, TradeOf, Receive;
    MatchEnds(have, limit, makers[0]);
    MatchIsSomething(have, limit, makers[0]);
  }

  /** A match that trades pays both sides. */
  lemma MatchPays(have: nat, limit: Price, taker: Account, makers: seq<Order>, purse: Purse, t: Terms, w: Account,
                  a: Asset)
    requires t.Valid() && have > 0 && limit.Valid() && AllLive(makers)
    requires makers != [] && Crosses(limit, makers[0].price)
    ensures TradeOf(have, makers[0]).receives <= makers[0].forSale
    ensures var s := MatchFirst(have, limit, taker, makers, purse, t);
            s.left < have ==>
              Balance(s.purse.funds, w, a)
              == Balance(purse.funds, w, a) + Gain(MadeBy(have, makers[0]), taker, t, w, a)
  {
    hide MulDown, MulUp, Crosses, Balance, Pay, TradeOf, MarketFee;
    var m := makers[0];
    MatchEnds(have, limit, m);
    var tr := TradeOf(have, m);
    if !(TakerIsSmaller(have, m) && tr.receives == 0) {
      var p1 := Receive(purse, taker, t.buy, tr.receives, t.buyRule, false);
      var p2 := Receive(p1, m.seller, t.sell, tr.pays, t.sellRule, true);
      PayAdds(purse.funds, taker, t.buy, tr.receives - MarketFee(t.buyRule, tr.receives, false), w, a);
      PayAdds(p1.funds, m.seller, t.sell, tr.pays - MarketFee(t.sellRule, tr.pays, true), w, a);
      PayAdds(p2.funds, m.seller, t.buy, m.forSale - tr.receives, w, a);
    }
  }

  /** Whoever receives something pays something. */
  lemma MatchIsSomething(have: nat, limit: Price, maker: Order)
    requires have > 0 && limit.Valid() && Live(maker) && Crosses(limit, maker.price)
    ensures TakerIsSmaller(have, maker) && TradeOf(have, maker).receives > 0 ==> TradeOf(have, maker).pays > 0
  {
    hide MulDown, MulUp;
    Stabilise(have, maker.price.Inverse());
  }

  /** The balances after a sweep are those before with what its trades bring. */
  lemma {:induction false} SweepPays(have: nat, limit: Price, taker: Account, makers: seq<Order>, purse: Purse,
                                     t: Terms, w: Account, a: Asset)
    requires t.Valid() && have > 0 && limit.Valid() && AllLive(makers)
    ensures var s := Sweep(have, limit, taker, makers, purse, t);
            var ts := Trades(have, limit, makers);
            && Balance(s.purse.funds, w, a) == Balance(purse.funds, w, a) + Gains(ts, taker, t, w, a)
            && s.left == have - Paid(ts)
    decreases |makers|
  {
    hide MatchFirst, MulDown, MulUp, Crosses, Gain, Balance, TradeOf, Removed;
    if makers != [] && Crosses(limit, makers[0].price) {
      MatchTrades(have, limit, taker, makers, purse, t);
      MatchPays(have, limit, taker, makers, purse, t, w, a);
      var s := MatchFirst(have, limit, taker, makers, purse, t);
      if s.left < have {
        var ts := Trades(have, limit, makers);
        assert ts[1..] == if s.finished then [] else Trades(s.left, limit, s.makers);
        if !s.finished {
          SweepPays(s.left, limit, taker, s.makers, s.purse, t, w, a);
        }
      }
    }
  }

  /**
   * Over a whole sweep nobody trades below its own price: the taker receives at least the worth of
   * all it pays, and every maker at least the worth of what it gives, before market fees.
   */
  lemma {:induction false} TradesAreFair(have: nat, limit: Price, makers: seq<Order>)
    requires limit.Valid() && AllLive(makers)
    ensures var ts := Trades(have, limit, makers);
            && Paid(ts) <= have && |ts| <= |makers|
            && Paid(ts) * limit.quote < (Received(ts) + 1) * limit.base
            && forall i :: 0 <= i < |ts| ==>
                 && ts[i].maker == makers[i] && ts[i].trade.receives <= ts[i].maker.forSale
                 && MulDown(ts[i].trade.receives, ts[i].maker.price) <= ts[i].trade.pays
    decreases |makers|
  {
    hide MulDown, MulUp, TradeOf, Removed, Crosses, Price.AtMost;
    var ts := Trades(have, limit, makers);
    if ts != [] {
      var m, tr := makers[0], TradeOf(have, makers[0]);
      MatchOfTwo(have, limit, m);
      MatchEnds(have, limit, m);
      if TakerIsSmaller(have, m) {
        assert ts[1..] == [];
        DownIsRounded(tr.pays, limit);
        RoundedBelow(MulDown(tr.pays, limit), tr.receives, tr.pays, limit);
      } else {
        assert ts[1..] == Trades(have - tr.pays, limit, makers[1..]);
        TradesAreFair(have - tr.pays, limit, makers[1..]);
        MakerPriceIsEnough(tr.receives, tr.pays, limit, m.price);
        AddRatios(tr.pays, tr.receives, Paid(ts[1..]), Received(ts[1..]) + 1, limit);
      }
    }
  }

  lemma RoundedBelow(d: nat, r: nat, a: nat, p: Price)
    requires RoundedDown(d, a, p) && d <= r
    ensures a * p.quote < (r + 1) * p.base
  {
    MulLe(d + 1, r + 1, p.base);
  }

  lemma MakerPriceIsEnough(receives: nat, pays: nat, limit: Price, price: Price)
    requires limit.Valid() && price.Valid() && Crosses(limit, price) && pays * price.base <= receives * price.quote
    ensures pays * limit.quote <= receives * limit.base
  {
    ScaleBound(receives, pays, price, limit.Inverse());
  }

  lemma AddRatios(p: nat, r: nat, p': nat, r': nat, limit: Price)
    requires p * limit.quote <= r * limit.base && p' * limit.quote < r' * limit.base
    ensures (p + p') * limit.quote < (r + r') * limit.base
  {
    assert (p + p') * limit.quote == p * limit.quote + p' * limit.quote;
    assert (r + r') * limit.base == r * limit.base + r' * limit.base;
  }

  /** What a taker receives over a sweep is at least the rounded-down worth of what it pays. */
  lemma TakerGetsItsPrice(have: nat, limit: Price, makers: seq<Order>)
    requires limit.Valid() && AllLive(makers)
    ensures MulDown(Paid(Trades(have, limit, makers)), limit) <= Received(Trades(have, limit, makers))
  {
    hide MulDown, Trades;
    TradesAreFair(have, limit, makers);
    var ts := Trades(have, limit, makers);
    DownIsGreatest(Paid(ts), limit, Received(ts) + 1);
  }

  /** The fees after the trades of a taker. */
  function FeesAfter(k: FeeBook, ts: seq<Made>, taker: nat, discount: nat, cancelFee: nat): (r: FeeBook)
    requires discount <= FULL_PERCENT
    decreases |ts|
  {
    if ts == [] then k
    else
      FeesAfter(AfterMatch(k, taker, ts[0].maker.id, ts[0].makerGoes, discount, cancelFee), ts[1..], taker, discount,
                cancelFee)
  }

  // ----- the market

  datatype MatchResult = NoneFilled | OnlyTakerFilled | OnlyMakerFilled | BothFilled

  function ResultOf(takerFilled: bool, makerFilled: bool): (r: MatchResult) {
    if takerFilled then (if makerFilled then BothFilled else OnlyTakerFilled)
    else if makerFilled then OnlyMakerFilled else NoneFilled
  }

  /** `Failed` is a creation that was undone after it had started. */
  datatype Placement = Refused | Failed | Resting(id: nat) | Gone(id: nat)

  datatype Command =
    | Create(seller: Account, sell: Asset, amount: nat, minToReceive: nat, fillOrKill: bool, fee: Offered)
    | Cancel(side: Asset, index: nat)
    | Expire(side: Asset, index: nat)

  /** One side of a book whose orders were all created before `id`. */
  ghost predicate GoodSide(s: seq<Order>, id: nat) {
    AllLive(s) && Sorted(s) && OlderThan(s, id)
  }

  class Market {
    const first: Asset
    const second: Asset
    const rules: map<Asset, FeeRule>
    const discount: nat                  // maker fee discount in percent
    const cancelFee: nat                 // CORE price of removing an order
    var fees: FeeBook
    var book: map<Asset, seq<Order>>     // the orders selling each asset
    var purse: Purse
    var nextId: nat

    ghost predicate Assets() {
      && first != second && discount <= FULL_PERCENT
      && rules.Keys == {first, second}
      && rules[first].Valid() && rules[second].Valid()
    }

    /** Every side is sorted and holds only live orders with old ids. */
    ghost predicate Sides()
      reads this
    {
      && Assets()
      && book.Keys == {first, second}
      && GoodSide(book[first], nextId) && GoodSide(book[second], nextId)
    }

    ghost predicate Valid()
      reads this
    {
      && Sides() && Uncrossed(book[first], book[second])
      && fees.owed == [] && !fees.broken && KnownFees()
    }

    /** Fees are deferred only for orders that were created. */
    ghost predicate KnownFees()
      reads this
    {
      forall id :: id in fees.deferred ==> id < nextId
    }

    /** Everything of an asset: balances, market fees, orders and their creation fees. */
    ghost function Total(a: Asset): (r: int)
      reads this
    {
      InPurse(purse, a) + (if a in book then ForSale(book[a]) else 0) + FeeTotal(fees, a)
    }

    function Other(a: Asset): (b: Asset) {
      if a == first then second else first
    }

    function TermsFor(sell: Asset): (t: Terms)
      requires Assets() && sell in rules
      ensures t.Valid()
    {
      Terms(sell, Other(sell), rules[sell], rules[Other(sell)])
    }

    constructor (first: Asset, second: Asset, firstRule: FeeRule, secondRule: FeeRule, discount: nat, cancelFee: nat,
                 funds: Funds, pools: map<Asset, nat>)
      requires first != second && firstRule.Valid() && secondRule.Valid() && discount <= FULL_PERCENT
      ensures Valid() && this.first == first && this.second == second
      ensures forall a :: Total(a) == Held(funds, a) + (if a == CORE then Sum(pools, InPool) else 0)
    {
      this.first, this.second, this.discount, this.cancelFee := first, second, discount, cancelFee;
      rules := map[first := firstRule, second := secondRule];
      book := map[first := [], second := []];
      purse := Purse(funds, map[]);
      fees := FeeBook(map[], 0, pools, map[], [], false);
      nextId := 0;
    }

    /**
     * The amounts of `match_limit_normal_limit`: matches `have` of the taker with the first maker on
     * the other side.  The result is never "none filled", whatever the amounts.
     */
    method MatchAmounts(have: nat, order: Order, sell: Asset) returns (left: nat, result: MatchResult)
      requires Assets() && book.Keys == {first, second} && sell in book && have > 0 && order.price.Valid()
      requires book[Other(sell)] != [] && Live(book[Other(sell)][0])
      requires Crosses(order.price, book[Other(sell)][0].price)
      modifies this`book, this`purse
      ensures book.Keys == old(book.Keys) && book[sell] == old(book[sell])
      ensures Swept(left, result != OnlyMakerFilled, book[Other(sell)], purse)
           == MatchFirst(have, order.price, order.seller, old(book[Other(sell)]), old(purse), TermsFor(sell))
      ensures result != NoneFilled
      ensures result == BothFilled || result == OnlyMakerFilled <==> |book[Other(sell)]| < |old(book[Other(sell)])|
    {
      hide Receive, Refund, MulDown, MulUp, Crosses;
      var buy := Other(sell);
      var makers := book[buy];
      var maker := makers[0];
      MatchOfTwo(have, order.price, maker);
      var takerPays, takerReceives: nat;
      var cullTaker := false;
      if have <= MulDown(maker.forSale, maker.price) {
        takerReceives := MulDown(have, maker.price.Inverse());
        if takerReceives == 0 {
          return have, OnlyTakerFilled;
        }
        takerPays := MulUp(takerReceives, maker.price);
        cullTaker := true;
      } else {
        takerPays := MulDown(maker.forSale, maker.price);
        takerReceives := MulUp(takerPays, maker.price.Inverse());
      }
      purse := Receive(purse, order.seller, buy, takerReceives, rules[buy], false);
      left := have - takerPays;
      var takerFilled := left == 0 || (cullTaker && MulDown(left, order.price) == 0);

      purse := Receive(purse, maker.seller, sell, takerPays, rules[sell], true);
      var kept := maker.forSale - takerReceives;
      var makerFilled := kept == 0 || MulDown(kept, maker.price) == 0;
      if makerFilled {
        purse := Refund(purse, maker.seller, buy, kept);
        book := book[buy := makers[1..]];
      } else {
        book := book[buy := [maker.(forSale := kept)] + makers[1..]];
      }
      result := ResultOf(takerFilled, makerFilled);
    }

    /** `match_limit_normal_limit`, with the deferred fees of two orders that traded. */
    method MatchLimit(have: nat, order: Order, sell: Asset) returns (left: nat, result: MatchResult)
      requires Assets() && book.Keys == {first, second} && sell in book && have > 0 && order.price.Valid()
      requires book[Other(sell)] != [] && Live(book[Other(sell)][0])
      requires Crosses(order.price, book[Other(sell)][0].price)
      modifies this`book, this`purse, this`fees
      ensures book.Keys == old(book.Keys) && book[sell] == old(book[sell])
      ensures Swept(left, result != OnlyMakerFilled, book[Other(sell)], purse)
           == MatchFirst(have, order.price, order.seller, old(book[Other(sell)]), old(purse), TermsFor(sell))
      ensures result != NoneFilled && left <= have
      ensures result == BothFilled || result == OnlyMakerFilled <==> |book[Other(sell)]| < |old(book[Other(sell)])|
      ensures left == have ==> fees == old(fees)
      ensures left < have ==> fees == AfterMatch(old(fees), order.id, old(book[Other(sell)])[0].id,
                                                 result == BothFilled || result == OnlyMakerFilled, discount, cancelFee)
    {
      hide MatchFirst, AfterMatch, Crosses, MulDown;
      var maker := book[Other(sell)][0].id;
      left, result := MatchAmounts(have, order, sell);
      NoMoreLeft(have, order.price, order.seller, old(book[Other(sell)]), old(purse), TermsFor(sell));
      if left < have {
        var makerGoes := result == BothFilled || result == OnlyMakerFilled;
        fees := AfterMatch(fees, order.id, maker, makerGoes, discount, cancelFee);
      }
    }

    /**
     * The matching loop of `apply_order` for the order at the front of its side.  It terminates,
     * and returns what the order has left and whether a match told it to stop.
     */
    method MatchLoop(sell: Asset, order: Order) returns (have: nat, finished: bool)
      requires Sides() && sell in book && Live(order)
      modifies this`book, this`purse, this`fees
      ensures Sides() && book[sell] == old(book[sell]) && FeesKept(old(fees), fees)
      ensures Swept(have, finished, book[Other(sell)], purse)
           == Sweep(order.forSale, order.price, order.seller, old(book[Other(sell)]), old(purse), TermsFor(sell))
      ensures fees == FeesAfter(old(fees), Trades(order.forSale, order.price, old(book[Other(sell)])), order.id,
                                discount, cancelFee)
    {
      hide Sweep, MatchFirst, Sorted, AllLive, OlderThan, Crosses, MulDown, FeesKept, AfterMatch, Trades, FeesAfter,
        MadeBy;
      SameFees(fees);
      var buy := Other(sell);
      have, finished := order.forSale, false;
      while !finished && book[buy] != [] && Crosses(order.price, book[buy][0].price)
        invariant Sides() && book[sell] == old(book[sell]) && FeesKept(old(fees), fees)
        invariant !finished ==> have > 0
        invariant (if finished then Swept(have, true, book[buy], purse)
                   else Sweep(have, order.price, order.seller, book[buy], purse, TermsFor(sell)))
               == Sweep(order.forSale, order.price, order.seller, old(book[buy]), old(purse), TermsFor(sell))
        invariant FeesAfter(fees, if finished then [] else Trades(have, order.price, book[buy]), order.id, discount,
                            cancelFee)
               == FeesAfter(old(fees), Trades(order.forSale, order.price, old(book[buy])), order.id, discount,
                            cancelFee)
        decreases !finished, |book[buy]|
      {
        ghost var before, purseBefore, haveBefore := book[buy], purse, have;
        FrontIsLive(before);
        SweepStep(haveBefore, order.price, order.seller, before, purseBefore, TermsFor(sell));
        MatchLeaves(haveBefore, order.price, order.seller, before, purseBefore, TermsFor(sell));
        ghost var feesBefore := fees;
        MatchKeepsFees(feesBefore, order.id, before[0].id, true, discount, cancelFee);
        MatchKeepsFees(feesBefore, order.id, before[0].id, false, discount, cancelFee);
        SameFees(feesBefore);
        var result;
        have, result := MatchLimit(have, order, sell);
        FeesKeptTransitive(old(fees), feesBefore, fees);
        FeesOfMatch(haveBefore, order.price, order.seller, before, purseBefore, TermsFor(sell), feesBefore, fees,
                    order.id, discount, cancelFee);
        LeftOverGood(before, book[buy], nextId);
        finished := result != OnlyMakerFilled;
      }
      if !finished {
        SweepStop(have, order.price, order.seller, book[buy], purse, TermsFor(sell));
        TradesStop(have, order.price, book[buy]);
      }
      FeesStop(fees, order.id, discount, cancelFee);
    }

    /** `apply_order` for an order that was just inserted on its side of the book. */
    method ApplyOrder(sell: Asset, order: Order, ghost own: seq<Order>) returns (gone: bool)
      requires Sides() && sell in book && Live(order)
      requires GoodSide(own, order.id) && order.id < nextId
      requires book[sell] == Insert(own, order)
      requires Uncrossed(own, book[Other(sell)])
      modifies this`book, this`purse, this`fees
      ensures Sides() && Uncrossed(book[sell], book[Other(sell)])
      ensures fees.deferred.Keys <= old(fees).deferred.Keys && (gone ==> order.id !in fees.deferred)
      ensures forall a :: Total(a) == old(Total(a))
      ensures Behind(own, order) ==> !gone && book == old(book) && purse == old(purse) && fees == old(fees)
      ensures !Behind(own, order) ==>
                var s := Sweep(order.forSale, order.price, order.seller, old(book[Other(sell)]), old(purse),
                               TermsFor(sell));
                && book[Other(sell)] == s.makers
                && gone == Removed(s.left, order.price)
                && book[sell] == (if gone then own else [order.(forSale := s.left)] + own)
                && purse == (if gone then Refund(s.purse, order.seller, sell, s.left) else s.purse)
      ensures !Behind(own, order) ==>
                var k := FeesAfter(old(fees), Trades(order.forSale, order.price, old(book[Other(sell)])), order.id,
                                   discount, cancelFee);
                fees == if gone then Cancelled(k, order.id, Some(cancelFee)) else k
    {
      hide Sweep, Sorted, AllLive, OlderThan, Crosses, MulDown, MulUp, Refund, InPurse, Uncrossed, FeeTotal,
        Cancelled, FeesKept, Insert, ForSale, Trades, FeesAfter;
      var buy := Other(sell);
      ghost var makers, purse0, t := book[buy], purse, TermsFor(sell);
      InsertFirst(own, order);
      if book[sell][0].id != order.id {
        NotAtFront(own, order, makers, nextId);
        return false;
      }
      assert book[sell] == [order] + own && book[sell][1..] == own;
      var have, finished := MatchLoop(sell, order);
      ApplyOutcome(own, order, makers, purse0, t, nextId);
      gone := have == 0 || MulDown(have, order.price) == 0;
      if gone {
        CancelKeepsFees(fees, order.id, Some(cancelFee));
        FeesKeptTransitive(old(fees), fees, Cancelled(fees, order.id, Some(cancelFee)));
        fees := Cancelled(fees, order.id, Some(cancelFee));
        purse := Refund(purse, order.seller, sell, have);
        book := book[sell := book[sell][1..]];
      } else {
        book := book[sell := [order.(forSale := have)] + book[sell][1..]];
      }
      FeesKeptIn(old(fees), fees, CORE);
      forall a ensures Total(a) == old(Total(a)) {
        ApplyConserves(own, order, makers, purse0, t, a);
        FeesKeptIn(old(fees), fees, a);
      }
    }

    /** Pays the fee refunds of the running transaction to their accounts. */
    method PayOwed()
      modifies this`purse, this`fees
      ensures fees == old(fees).(owed := []) && purse == Credited(old(purse), old(fees).owed)
      ensures forall a :: InPurse(purse, a) + FeeTotal(fees, a) == old(InPurse(purse, a) + FeeTotal(fees, a))
    {
      hide Refund, InPurse;
      while fees.owed != []
        invariant fees == old(fees).(owed := fees.owed)
        invariant Credited(purse, fees.owed) == Credited(old(purse), old(fees).owed)
        invariant forall a :: InPurse(purse, a) + Owed(fees.owed, a) == old(InPurse(purse, a) + Owed(fees.owed, a))
        decreases |fees.owed|
      {
        var p := fees.owed[0];
        forall a { RefundAdds(purse, p.who, p.asset, p.amount, a); }
        purse := Refund(purse, p.who, p.asset, p.amount);
        fees := fees.(owed := fees.owed[1..]);
      }
    }

    /**
     * `limit_order_create`: defers the fee, takes the amount from the seller, puts the order on the
     * book and applies it; the fee is taken last.  It is refused for an empty order, an unknown
     * asset, a missing balance or an empty fee pool, and undone when the order had to be filled and
     * was not, when a fee assertion failed on the way, or when the fee cannot be paid.
     */
    method CreateOrder(seller: Account, sell: Asset, amount: nat, minToReceive: nat, fillOrKill: bool, fee: Offered)
      returns (r: Placement)
      requires Valid()
      modifies this
      ensures Valid()
      ensures forall a :: Total(a) == old(Total(a))
      ensures r.Refused? <==> (|| amount == 0 || minToReceive == 0 || sell !in old(book) || fee.rate.base == 0
                               || Balance(old(purse.funds), seller, sell) < amount || !Convertible(old(fees), fee))
      ensures r.Refused? || r.Failed? ==>
                book == old(book) && purse == old(purse) && fees == old(fees) && nextId == old(nextId)
      ensures r.Resting? || r.Gone? ==> r.id == old(nextId) && nextId == old(nextId) + 1
      ensures r.Resting? ==> !fillOrKill && exists i :: 0 <= i < |book[sell]| && book[sell][i].id == r.id
      ensures r.Gone? ==> book[sell] == old(book[sell]) && r.id !in fees.deferred
      ensures !r.Refused? ==>
                var order := Order(old(nextId), seller, amount, Price(amount, minToReceive));
                Live(order)
                && var o := Created(old(book[sell]), old(book[Other(sell)]), old(purse), old(fees), order,
                                    TermsFor(sell), fee, discount, cancelFee);
                && (r.Failed? <==> o.fees.broken || (fillOrKill && !o.gone)
                                   || Balance(o.purse.funds, seller, fee.asset) < fee.amount)
                && (!r.Failed? ==>
                      && book == old(book)[sell := o.own][Other(sell) := o.makers]
                      && fees == o.fees && r.Gone? == o.gone
                      && Adjust(o.purse.funds, seller, fee.asset, 0 - fee.amount) == Some(purse.funds)
                      && purse.pots == o.purse.pots)
    {
      hide GoodSide, Uncrossed, MulDown, Refund, FeeTotal, InPurse, Held, Adjust, Balance, Convertible, ForSale,
        Created, Live;
      if amount == 0 || minToReceive == 0 || (sell != first && sell != second) || fee.rate.base == 0
         || !Convertible(fees, fee) || Balance(purse.funds, seller, sell) < amount {
        return Refused;
      }
      var book0, purse0, fees0, id0 := book, purse, fees, nextId;
      var gone := OpenOrder(Order(nextId, seller, amount, Price(amount, minToReceive)), sell, fee);
      var paid := Adjust(purse.funds, seller, fee.asset, 0 - fee.amount);
      if paid.None? || fees.broken || (fillOrKill && !gone) {
        book, purse, fees, nextId := book0, purse0, fees0, id0;
        return Failed;
      }
      forall a { TakenLeaves(purse, seller, fee.asset, fee.amount, a); }
      purse := purse.(funds := paid.value);
      r := if gone then Gone(id0) else Resting(id0);
    }

    /** A creation up to the payment of its fee. */
    method OpenOrder(order: Order, sell: Asset, fee: Offered) returns (gone: bool)
      requires Valid() && sell in book && order.id == nextId && order.forSale > 0 && order.price.base == order.forSale
      requires order.price.quote > 0 && fee.rate.base > 0 && Convertible(fees, fee)
      requires Balance(purse.funds, order.seller, sell) >= order.forSale
      modifies this
      ensures Sides() && Uncrossed(book[first], book[second]) && KnownFees() && fees.owed == []
      ensures nextId == old(nextId) + 1
      ensures forall a :: Total(a) == old(Total(a)) + (if a == fee.asset then fee.amount else 0)
      ensures !gone ==> exists i :: 0 <= i < |book[sell]| && book[sell][i].id == order.id
      ensures gone ==> book[sell] == old(book[sell]) && order.id !in fees.deferred
      ensures Live(order) && Outcome(book[sell], book[Other(sell)], purse, fees, gone)
           == Created(old(book[sell]), old(book[Other(sell)]), old(purse), old(fees), order, TermsFor(sell), fee,
                      discount, cancelFee)
    {
      hide Trades, FeesAfter, Deferring, Adjust, MulDown;
      hide Sweep, GoodSide, Refund, Uncrossed, ForSale, Balance, Insert, FeeTotal, Convertible, InPurse, Live;
      var own := book[sell];
      ghost var k := PutOrder(order, sell, fee);
      gone := ApplyOrder(sell, order, own);
      SymmetricUncrossed(book[first], book[second]);
      PayOwed();
      if !gone {
        assert book[sell][if Behind(own, order) then k else 0].id == order.id;
      }
    }

    /** Defers the fee, takes the amount from the seller and inserts the order. */
    method PutOrder(order: Order, sell: Asset, fee: Offered) returns (ghost k: nat)
      requires Valid() && sell in book && order.id == nextId && order.forSale > 0 && order.price.base == order.forSale
      requires order.price.quote > 0 && fee.rate.base > 0 && Convertible(fees, fee)
      requires Balance(purse.funds, order.seller, sell) >= order.forSale
      modifies this`book, this`purse, this`fees, this`nextId
      ensures Sides() && KnownFees() && fees.owed == [] && nextId == old(nextId) + 1 && Live(order)
      ensures GoodSide(old(book)[sell], order.id) && book == old(book)[sell := Insert(old(book)[sell], order)]
      ensures Uncrossed(old(book)[sell], book[Other(sell)])
      ensures k < |book[sell]| && book[sell][k] == order
      ensures fees == Deferring(old(fees), order.id, order.seller, fee)
      ensures purse == old(purse).(funds := Adjust(old(purse.funds), order.seller, sell, 0 - order.forSale).value)
      ensures forall a :: Total(a) == old(Total(a)) + (if a == fee.asset then fee.amount else 0)
    {
      hide Sorted, AllLive, OlderThan, Crosses, MulDown, Uncrossed, ForSale, Adjust, Balance, Insert, FeeTotal,
        Deferring, Convertible, InPurse, Held;
      var own := book[sell];
      NewOrderIsLive(order, order.price.quote);
      SymmetricUncrossed(book[first], book[second]);
      k := InsertGood(own, order);
      GoodLater(book[Other(sell)], nextId);
      var taken := Adjust(purse.funds, order.seller, sell, 0 - order.forSale);
      forall a { TakenLeaves(purse, order.seller, sell, order.forSale, a); }
      forall a { DeferringAdds(fees, nextId, order.seller, fee, a); }
      DeferringKeys(fees, nextId, order.seller, fee);
      ForSaleInsert(own, order);
      fees := Deferring(fees, nextId, order.seller, fee);
      purse := purse.(funds := taken.value);
      nextId := nextId + 1;
      book := book[sell := Insert(own, order)];
    }

    /**
     * `cancel_limit_order` of one order: the amount for sale goes back to its seller, and the
     * deferred fee to where it was taken from, less the cancellation fee if the order expired.
     */
    method CancelOrder(side: Asset, index: nat, expired: bool) returns (ok: bool)
      requires Valid()
      modifies this`book, this`purse, this`fees
      ensures Valid()
      ensures forall a :: Total(a) == old(Total(a))
      ensures ok <==> side in old(book) && index < |old(book)[side]|
      ensures !ok ==> book == old(book) && purse == old(purse) && fees == old(fees)
      ensures ok ==> var o := old(book)[side][index];
                     var after := Cancelled(old(fees), o.id, if expired then Some(cancelFee) else None);
                     && book == old(book)[side := old(book)[side][..index] + old(book)[side][index + 1..]]
                     && fees == after.(owed := [])
                     && purse == Credited(Refund(old(purse), o.seller, side, o.forSale), after.owed)
    {
      hide Sorted, AllLive, OlderThan, Crosses, MulDown, Refund, Uncrossed, ForSale, FeeTotal, Cancelled,
        InPurse;
      if !(side in book && index < |book[side]|) {
        return false;
      }
      var s := book[side];
      var o := s[index];
      SymmetricUncrossed(book[first], book[second]);
      RemoveKeepsOrder(s, index, nextId, book[Other(side)]);
      ForSaleRemove(s, index);
      forall a { RefundAdds(purse, o.seller, side, o.forSale, a); }
      var fee := if expired then Some(cancelFee) else None;
      CancelKeepsFees(fees, o.id, fee);
      CancelNotBroken(fees, o.id, fee);
      purse := Refund(purse, o.seller, side, o.forSale);
      fees := Cancelled(fees, o.id, fee);
      book := book[side := s[..index] + s[index + 1..]];
      SymmetricUncrossed(book[first], book[second]);
      PayOwed();
      ok := true;
    }

    /** Every run of order creations, cancels and expirations keeps the book uncrossed, live and conserving. */
    method Run(commands: seq<Command>)
      requires Valid()
      modifies this
      ensures Valid()
      ensures forall a :: Total(a) == old(Total(a))
    {
      for i := 0 to |commands|
        invariant Valid()
        invariant forall a :: Total(a) == old(Total(a))
      {
        match commands[i] {
          case Create(seller, sell, amount, minToReceive, fillOrKill, fee) =>
            var r := CreateOrder(seller, sell, amount, minToReceive, fillOrKill, fee);
          case Cancel(side, index) =>
            var ok := CancelOrder(side, index, false);
          case Expire(side, index) =>
            var ok := CancelOrder(side, index, true);
        }
      }
    }
  }

  // ----- lemmas behind the methods of the market

  /** The purse after the payments. */
  function Credited(p: Purse, owed: seq<Payment>): (r: Purse)
    decreases |owed|
  {
    if owed == [] then p else Credited(Refund(p, owed[0].who, owed[0].asset, owed[0].amount), owed[1..])
  }

  lemma FeesKeptIn(k: FeeBook, k': FeeBook, a: Asset)
    requires FeesKept(k, k')
    ensures FeeTotal(k', a) == FeeTotal(k, a) && k'.deferred.Keys <= k.deferred.Keys
  {
  }

  /** Both sides, the money and the fees after an order was created, and whether it is gone. */
  datatype Outcome = Outcome(own: seq<Order>, makers: seq<Order>, purse: Purse, fees: FeeBook, gone: bool)

  /** What creating an order does, up to the payment of its fee. */
  ghost function Created(own: seq<Order>, makers: seq<Order>, purse: Purse, fees: FeeBook, order: Order, t: Terms,
                         fee: Offered, discount: nat, cancelFee: nat): (o: Outcome)
    requires t.Valid() && Live(order) && AllLive(makers) && discount <= FULL_PERCENT
    requires fee.rate.base > 0 && Convertible(fees, fee) && Balance(purse.funds, order.seller, t.sell) >= order.forSale
  {
    var p := purse.(funds := Adjust(purse.funds, order.seller, t.sell, 0 - order.forSale).value);
    var k := Deferring(fees, order.id, order.seller, fee);
    if Behind(own, order) then Settled(Insert(own, order), makers, p, k, false)
    else
      var s := Sweep(order.forSale, order.price, order.seller, makers, p, t);
      var after := FeesAfter(k, Trades(order.forSale, order.price, makers), order.id, discount, cancelFee);
      if Removed(s.left, order.price)
      then Settled(own, s.makers, Refund(s.purse, order.seller, t.sell, s.left),
                   Cancelled(after, order.id, Some(cancelFee)), true)
      else Settled([order.(forSale := s.left)] + own, s.makers, s.purse, after, false)
  }

  /** The fee refunds are credited. */
  ghost function Settled(own: seq<Order>, makers: seq<Order>, purse: Purse, fees: FeeBook, gone: bool): (o: Outcome) {
    Outcome(own, makers, Credited(purse, fees.owed), fees.(owed := []), gone)
  }

  lemma SameFees(k: FeeBook)
    ensures FeesKept(k, k)
  {
  }

  lemma DeferringKeys(k: FeeBook, id: nat, seller: Account, fee: Offered)
    requires fee.rate.base > 0 && Convertible(k, fee)
    ensures Deferring(k, id, seller, fee).deferred.Keys == k.deferred.Keys + {id}
    ensures Deferring(k, id, seller, fee).owed == k.owed && Deferring(k, id, seller, fee).broken == k.broken
  {
  }

  lemma CancelNotBroken(k: FeeBook, id: nat, cancelFee: Option<nat>)
    ensures Cancelled(k, id, cancelFee).broken == k.broken
  {
  }

  lemma TakenLeaves(p: Purse, who: Account, asset: Asset, amount: nat, a: Asset)
    requires Adjust(p.funds, who, asset, 0 - amount).Some?
    ensures InPurse(p.(funds := Adjust(p.funds, who, asset, 0 - amount).value), a)
         == InPurse(p, a) - (if a == asset then amount else 0)
  {
    AdjustMovesTotal(p.funds, who, asset, 0 - amount, a);
  }

  lemma FrontIsLive(s: seq<Order>)
    requires AllLive(s) && s != []
    ensures Live(s[0])
  {
  }

  lemma NoMoreLeft(have: nat, limit: Price, taker: Account, makers: seq<Order>, purse: Purse, t: Terms)
    requires t.Valid() && have > 0 && limit.Valid() && makers != [] && Live(makers[0])
    requires Crosses(limit, makers[0].price)
    ensures MatchFirst(have, limit, taker, makers, purse, t).left <= have
  {
  }

  lemma SweepStep(have: nat, limit: Price, taker: Account, makers: seq<Order>, purse: Purse, t: Terms)
    requires t.Valid() && have > 0 && limit.Valid() && AllLive(makers)
    requires makers != [] && Crosses(limit, makers[0].price)
    ensures var s := MatchFirst(have, limit, taker, makers, purse, t);
            && (!s.finished ==> s.left > 0 && |s.makers| < |makers| && AllLive(s.makers))
            && Sweep(have, limit, taker, makers, purse, t)
               == if s.finished then s else Sweep(s.left, limit, taker, s.makers, s.purse, t)
  {
  }

  lemma FeesStep(k: FeeBook, m: Made, ts: seq<Made>, taker: nat, discount: nat, cancelFee: nat)
    requires discount <= FULL_PERCENT
    ensures FeesAfter(k, [m] + ts, taker, discount, cancelFee)
         == FeesAfter(AfterMatch(k, taker, m.maker.id, m.makerGoes, discount, cancelFee), ts, taker, discount,
                      cancelFee)
  {
    assert ([m] + ts)[1..] == ts;
  }

  /** One match leaves the fees of the trades still to come. */
  lemma FeesOfMatch(have: nat, limit: Price, taker: Account, makers: seq<Order>, purse: Purse, t: Terms, k: FeeBook,
                    k': FeeBook, id: nat, discount: nat, cancelFee: nat)
    requires t.Valid() && have > 0 && limit.Valid() && AllLive(makers) && discount <= FULL_PERCENT
    requires makers != [] && Crosses(limit, makers[0].price)
    requires var s := MatchFirst(have, limit, taker, makers, purse, t);
             k' == if s.left == have then k
                   else AfterMatch(k, id, makers[0].id, |s.makers| < |makers|, discount, cancelFee)
    ensures var s := MatchFirst(have, limit, taker, makers, purse, t);
            && (!s.finished ==> AllLive(s.makers))
            && FeesAfter(k', if s.finished then [] else Trades(s.left, limit, s.makers), id, discount, cancelFee)
               == FeesAfter(k, Trades(have, limit, makers), id, discount, cancelFee)
  {
    hide MulDown, MulUp, Crosses, TradeOf, Receive, MadeBy, AfterMatch, Trades, FeesAfter;
    MatchTrades(have, limit, taker, makers, purse, t);
    MadeIsMaker(have, makers[0]);
    var s := MatchFirst(have, limit, taker, makers, purse, t);
    if s.left < have {
      var rest := if s.finished then [] else Trades(s.left, limit, s.makers);
      FeesStep(k, MadeBy(have, makers[0]), rest, id, discount, cancelFee);
    }
  }

  lemma MadeIsMaker(have: nat, maker: Order)
    requires have > 0 && maker.price.Valid() && TradeOf(have, maker).receives <= maker.forSale
    ensures MadeBy(have, maker).maker == maker
  {
  }

  lemma FeesStop(k: FeeBook, taker: nat, discount: nat, cancelFee: nat)
    requires discount <= FULL_PERCENT
    ensures FeesAfter(k, [], taker, discount, cancelFee) == k
  {
  }

  lemma TradesStop(have: nat, limit: Price, makers: seq<Order>)
    requires limit.Valid() && AllLive(makers) && (makers != [] ==> !Crosses(limit, makers[0].price))
    ensures Trades(have, limit, makers) == []
  {
  }

  lemma SweepStop(have: nat, limit: Price, taker: Account, makers: seq<Order>, purse: Purse, t: Terms)
    requires t.Valid() && have > 0 && limit.Valid() && AllLive(makers)
    requires makers != [] ==> !Crosses(limit, makers[0].price)
    ensures Sweep(have, limit, taker, makers, purse, t) == Swept(have, false, makers, purse)
  {
  }

  lemma LeftOverGood(before: seq<Order>, after: seq<Order>, id: nat)
    requires LeftOver(before, after) && GoodSide(before, id)
    ensures GoodSide(after, id)
  {
    LeftOverSorted(before, after);
  }

  /** Whether an order with a better or equal price was on the new order's side before it. */
  predicate Behind(own: seq<Order>, order: Order) {
    own != [] && order.price.AtMost(own[0].price)
  }

  lemma InsertFirst(own: seq<Order>, order: Order)
    requires GoodSide(own, order.id)
    ensures Insert(own, order)[0].id != order.id <==> Behind(own, order)
    ensures !Behind(own, order) ==> Insert(own, order) == [order] + own
  {
    if Behind(own, order) {
      assert Insert(own, order)[0] == own[0];
    }
  }

  /** In either ending the sides stay sorted, live and uncrossed. */
  lemma ApplyOutcome(own: seq<Order>, order: Order, makers: seq<Order>, purse: Purse, t: Terms, id: nat)
    requires t.Valid() && Live(order) && GoodSide(own, order.id) && !Behind(own, order) && order.id < id
    requires GoodSide(makers, id) && Uncrossed(own, makers)
    ensures var s := Sweep(order.forSale, order.price, order.seller, makers, purse, t);
            && GoodSide(s.makers, id) && GoodSide(own, id) && Uncrossed(own, s.makers)
            && (!Removed(s.left, order.price) ==>
                  var side := [order.(forSale := s.left)] + own;
                  GoodSide(side, id) && Uncrossed(side, s.makers))
  {
    hide Sweep, Sorted, Crosses, MulDown, Insert;
    var s := Sweep(order.forSale, order.price, order.seller, makers, purse, t);
    SweepLeaves(order.forSale, order.price, order.seller, makers, purse, t);
    LeftOverGood(makers, s.makers, id);
    if !Removed(s.left, order.price) {
      RestingSide(own, order, s.left, id);
    }
  }

  lemma RestingSide(own: seq<Order>, order: Order, left: nat, id: nat)
    requires Live(order) && GoodSide(own, order.id) && !Behind(own, order) && order.id < id
    requires !Removed(left, order.price)
    ensures GoodSide([order.(forSale := left)] + own, id)
  {
    var k := InsertAt(own, order);
    InsertFirst(own, order);
    var side := [order.(forSale := left)] + own;
    forall i, j | 0 <= i < j < |side| ensures Before(side[i], side[j]) {
      assert Before(([order] + own)[i], ([order] + own)[j]);
    }
  }

  lemma ApplyConserves(own: seq<Order>, order: Order, makers: seq<Order>, purse: Purse, t: Terms, a: Asset)
    requires t.Valid() && Live(order) && AllLive(makers)
    ensures var s := Sweep(order.forSale, order.price, order.seller, makers, purse, t);
            InPlay(Refund(s.purse, order.seller, t.sell, s.left), ForSale(own), s.makers, t, a)
              == InPlay(purse, ForSale([order] + own), makers, t, a)
    ensures var s := Sweep(order.forSale, order.price, order.seller, makers, purse, t);
            InPlay(s.purse, ForSale([order.(forSale := s.left)] + own), s.makers, t, a)
              == InPlay(purse, ForSale([order] + own), makers, t, a)
  {
    var s := Sweep(order.forSale, order.price, order.seller, makers, purse, t);
    SweepConserves(order.forSale, order.price, order.seller, makers, purse, t, a);
    RefundAdds(s.purse, order.seller, t.sell, s.left, a);
    assert ([order] + own)[1..] == own;
    assert ([order.(forSale := s.left)] + own)[1..] == own;
  }

  lemma NewOrderIsLive(order: Order, minToReceive: nat)
    requires order.forSale > 0 && minToReceive > 0 && order.price == Price(order.forSale, minToReceive)
    ensures Live(order)
  {
    DownIsGreatest(order.forSale, order.price, minToReceive);
  }

  lemma InsertGood(own: seq<Order>, order: Order) returns (k: nat)
    requires GoodSide(own, order.id) && Live(order)
    ensures GoodSide(Insert(own, order), order.id + 1)
    ensures k < |Insert(own, order)| && Insert(own, order)[k] == order
  {
    k := InsertAt(own, order);
    var s := Insert(own, order);
    forall i | 0 <= i < |s| ensures Live(s[i]) && s[i].id <= order.id {
      if i != k {
        assert s[i] == own[if i < k then i else i - 1];
      }
    }
  }

  lemma GoodLater(s: seq<Order>, id: nat)
    requires GoodSide(s, id)
    ensures GoodSide(s, id + 1)
  {
  }

  lemma SymmetricUncrossed(s: seq<Order>, t: seq<Order>)
    ensures Uncrossed(s, t) == Uncrossed(t, s)
  {
    forall i, j | 0 <= i < |s| && 0 <= j < |t|
      ensures Crosses(s[i].price, t[j].price) == Crosses(t[j].price, s[i].price)
    {
    }
    if Uncrossed(s, t) {
      forall j, i | 0 <= j < |t| && 0 <= i < |s| ensures !Crosses(t[j].price, s[i].price) {
        assert !Crosses(s[i].price, t[j].price);
      }
    }
    if Uncrossed(t, s) {
      forall i, j | 0 <= i < |s| && 0 <= j < |t| ensures !Crosses(s[i].price, t[j].price) {
        assert !Crosses(t[j].price, s[i].price);
      }
    }
  }

  /** The early return is sound: an order behind another one on its side cannot match anything. */
  lemma NotAtFront(own: seq<Order>, order: Order, makers: seq<Order>, id: nat)
    requires GoodSide(own, order.id) && Live(order) && GoodSide(makers, id)
    requires Behind(own, order) && Uncrossed(own, makers)
    ensures Uncrossed(Insert(own, order), makers)
  {
    var k := InsertAt(own, order);
    var s := Insert(own, order);
    forall i, j | 0 <= i < |s| && 0 <= j < |makers| ensures !Crosses(s[i].price, makers[j].price) {
      if i == k {
        if Crosses(order.price, makers[j].price) {
          WorseOrderCrossesLess(own[0].price, order.price, makers[j].price);
          assert false;
        }
      } else {
        assert s[i] == own[if i < k then i else i - 1];
      }
    }
  }

  lemma {:induction false} ForSaleInsert(s: seq<Order>, o: Order)
    ensures ForSale(Insert(s, o)) == ForSale(s) + o.forSale
  {
    if s != [] && o.price.AtMost(s[0].price) {
      ForSaleInsert(s[1..], o);
      assert Insert(s, o)[1..] == Insert(s[1..], o);
    } else if s != [] {
      assert Insert(s, o)[1..] == s;
    }
  }

  lemma ForSaleRemove(s: seq<Order>, k: nat)
    requires k < |s|
    ensures ForSale(s[..k] + s[k + 1..]) == ForSale(s) - s[k].forSale
  {
    ForSaleConcat(s[..k], s[k + 1..]);
    ForSaleConcat(s[..k], s[k..]);
    assert s == s[..k] + s[k..];
    assert s[k..][1..] == s[k + 1..];
  }

  lemma RemoveKeepsOrder(s: seq<Order>, k: nat, id: nat, others: seq<Order>)
    requires k < |s| && GoodSide(s, id)
    ensures GoodSide(s[..k] + s[k + 1..], id)
    ensures Uncrossed(s, others) ==> Uncrossed(s[..k] + s[k + 1..], others)
  {
    var r := s[..k] + s[k + 1..];
    forall i | 0 <= i < |r| ensures r[i] == s[if i < k then i else i + 1] {
    }
    forall i, j | 0 <= i < j < |r| ensures Before(r[i], r[j]) {
      assert Before(s[if i < k then i else i + 1], s[if j < k then j else j + 1]);
    }
  }
}

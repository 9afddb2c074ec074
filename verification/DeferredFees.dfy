/**
 * The creation fees deferred in limit orders, from creation to the fill or the cancellation that
 * releases them.
 */
module DeferredFees {
  import opened Rounding
  import opened Ledger
  import opened MarketFees

  /** `core` is held by the order; `paid` is the same fee in the asset it was paid in, if not CORE. */
  datatype Deferred = Deferred(seller: Account, core: nat, asset: Asset, paid: nat)

  datatype Payment = Payment(who: Account, asset: Asset, amount: nat)

  /** Where the parts of one deferred fee go. */
  datatype Release = Release(pending: nat, pool: nat, accumulated: nat, refundCore: nat, refundPaid: nat) {
    /** Nothing of the fee is lost, in either currency. */
    predicate Of(d: Deferred) {
      pending + pool + refundCore == d.core && accumulated + refundPaid == d.paid
    }
  }

  // ----- one fee

  /**
   * The deferred-fee part of `fill_limit_order`, with the maker discount: a taker, or a chain without
   * a discount, gets nothing back.
   */
  function FillRelease(d: Deferred, isMaker: bool, discount: nat): (r: Release)
    requires discount <= FULL_PERCENT
    ensures r.Of(d)
    ensures !isMaker || discount == 0 ==> r.refundCore == 0 && r.refundPaid == 0 && r.pool == 0
    ensures d.paid > 0 ==> r.refundCore == 0
  {
    var rate := if isMaker then discount else 0;
    if d.paid > 0 then
      var refund := Percent(d.paid, rate);
      var pool := if refund > 0 then Percent(d.core, rate) else 0;
      Release(d.core - pool, pool, d.paid - refund, 0, refund)
    else
      var refund := Percent(d.core, rate);
      Release(d.core - refund, 0, 0, refund, 0)
  }

  /** A maker gets the discount back in the currency it paid, and the fee pool its part of the CORE. */
  lemma FillReleaseIsDiscount(d: Deferred, discount: nat)
    requires discount <= FULL_PERCENT
    ensures var r := FillRelease(d, true, discount);
            if d.paid > 0
            then && Share(r.refundPaid, d.paid, discount)
                 && (if r.refundPaid > 0 then Share(r.pool, d.core, discount) else r.pool == 0)
            else Share(r.refundCore, d.core, discount) && r.pool == 0
  {
    hide Share, Percent;
    var r := FillRelease(d, true, discount);
    PercentIsShare(d.paid, discount, r.refundPaid);
    PercentIsShare(d.core, discount, r.pool);
    PercentIsShare(d.core, discount, r.refundCore);
  }

  /** The assertion that CORE was deferred whenever a fee paid in another asset earns a refund. */
  predicate FillFails(d: Deferred, isMaker: bool, discount: nat) {
    isMaker && d.core == 0 && Percent(d.paid, discount) > 0
  }

  /** A fill fails exactly when it would refund part of a fee that stands for no CORE. */
  lemma FailsOnRefund(d: Deferred, isMaker: bool, discount: nat)
    requires discount <= FULL_PERCENT
    ensures FillFails(d, isMaker, discount) <==> d.core == 0 && FillRelease(d, isMaker, discount).refundPaid > 0
  {
    hide Share;
    PercentIsShare(d.paid, if isMaker then discount else 0, FillRelease(d, isMaker, discount).refundPaid);
  }

  /**
   * The fee part of `cancel_limit_order`.  `cancelFee` is the CORE price of the virtual cancel
   * operation, or `None` when no fee is deducted.
   */
  function CancelRelease(d: Deferred, cancelFee: Option<nat>): (r: Release)
    ensures r.Of(d)
    ensures r.pending == CancelFee(d.core, cancelFee)
    ensures d.paid > 0 && r.pending > 0 ==> r.accumulated > 0
    ensures r.pending == 0 ==> r.accumulated == 0
    ensures if d.paid == 0 then r.pool == 0 && r.refundPaid == 0 else r.pool == d.core - r.pending && r.refundCore == 0
  {
    var core := CancelFee(d.core, cancelFee);
    if d.paid == 0 then Release(core, 0, 0, d.core - core, 0)
    else if core == 0 then Release(0, d.core, 0, 0, d.paid)
    else
      CancelShare(core, d.core, d.paid);
      var taken := MulUp(core, Price(d.core, d.paid));
      Release(core, d.core - core, taken, 0, d.paid - taken)
  }

  /** The accumulated part is the fee taken in the currency it was paid in, rounded up. */
  lemma CancelReleaseIsShare(d: Deferred, cancelFee: Option<nat>)
    requires d.core > 0
    ensures var r := CancelRelease(d, cancelFee);
            RoundedUp(r.accumulated, r.pending, Price(d.core, d.paid))
  {
    hide MulUp, RoundedUp;
    var core := CancelFee(d.core, cancelFee);
    UpIsRounded(core, Price(d.core, d.paid));
    UpIsLeast(core, Price(d.core, d.paid), 0);
  }

  function CancelFee(deferred: nat, cancelFee: Option<nat>): (r: nat)
    ensures r <= deferred
    ensures cancelFee.None? ==> r == 0
    ensures cancelFee.Some? ==> r <= cancelFee.value && (r == deferred || r == cancelFee.value)
  {
    if cancelFee.None? then 0 else if cancelFee.value > deferred then deferred else cancelFee.value
  }

  /** The rounded-up share of the paid fee is positive and fits into the paid fee. */
  lemma CancelShare(core: nat, deferred: nat, paid: nat)
    requires 0 < core <= deferred && paid > 0
    ensures 0 < MulUp(core, Price(deferred, paid)) <= paid
  {
    hide MulDown, MulUp;
    MulLe(core, deferred, paid);
    UpIsLeast(core, Price(deferred, paid), paid);
    UpIsLeast(core, Price(deferred, paid), 0);
    MulLe(1, core, paid);
  }

  // ----- all fees of a market

  /**
   * The fees deferred by order, what they were released to, and the refunds of the running
   * transaction.  `broken` records that an assertion failed in it.
   */
  datatype FeeBook = FeeBook(deferred: map<nat, Deferred>, pending: nat, pools: map<Asset, nat>,
                             accumulated: map<Asset, nat>, owed: seq<Payment>, broken: bool)

  function At(m: map<Asset, nat>, a: Asset): (r: nat) {
    if a in m then m[a] else 0
  }

  function DeferredIn(a: Asset): (nat, Deferred) -> int {
    (id: nat, d: Deferred) => (if a == CORE then d.core else 0) + (if a == d.asset then d.paid else 0)
  }

  function InPool(a: Asset, amount: nat): (r: int) {
    amount
  }

  function Owed(owed: seq<Payment>, a: Asset): (r: nat) {
    if owed == [] then 0 else (if owed[0].asset == a then owed[0].amount else 0) + Owed(owed[1..], a)
  }

  /** Everything of one asset in deferred fees and where they were released to. */
  ghost function FeeTotal(k: FeeBook, a: Asset): (r: int) {
    Sum(k.deferred, DeferredIn(a)) + (if a == CORE then k.pending + Sum(k.pools, InPool) else 0)
    + At(k.accumulated, a) + Owed(k.owed, a)
  }

  /** The order's fee is released, and forgotten if the order goes. */
  function Released(k: FeeBook, id: nat, r: Release, goes: bool): (k': FeeBook)
    requires id in k.deferred
  {
    var d := k.deferred[id];
    FeeBook(if goes then k.deferred - {id} else k.deferred[id := d.(core := 0, paid := 0)],
            k.pending + r.pending, k.pools[d.asset := At(k.pools, d.asset) + r.pool],
            k.accumulated[d.asset := At(k.accumulated, d.asset) + r.accumulated],
            k.owed + [Payment(d.seller, CORE, r.refundCore), Payment(d.seller, d.asset, r.refundPaid)], k.broken)
  }

  lemma {:induction false} OwedConcat(s: seq<Payment>, t: seq<Payment>, a: Asset)
    ensures Owed(s + t, a) == Owed(s, a) + Owed(t, a)
  {
    if s == [] {
      assert s + t == t;
    } else {
      OwedConcat(s[1..], t, a);
      assert (s + t)[1..] == s[1..] + t;
    }
  }

  lemma DeferredDrops(k: FeeBook, id: nat, r: Release, goes: bool, a: Asset)
    requires id in k.deferred
    ensures var d := k.deferred[id];
            Sum(Released(k, id, r, goes).deferred, DeferredIn(a))
            == Sum(k.deferred, DeferredIn(a)) - (if a == CORE then d.core else 0) - (if a == d.asset then d.paid else 0)
  {
    hide Sum;
    var d := k.deferred[id];
    if goes {
      SumWithout(k.deferred, id, DeferredIn(a));
    } else {
      SumUpdate(k.deferred, id, d.(core := 0, paid := 0), DeferredIn(a));
    }
  }

  lemma PoolsGrow(pools: map<Asset, nat>, asset: Asset, amount: nat)
    ensures Sum(pools[asset := At(pools, asset) + amount], InPool) == Sum(pools, InPool) + amount
  {
    hide Sum;
    var pool: nat := At(pools, asset) + amount;
    SumUpdate(pools, asset, pool, InPool);
  }

  lemma OwedGrows(owed: seq<Payment>, p: Payment, q: Payment, a: Asset)
    ensures Owed(owed + [p, q], a)
            == Owed(owed, a) + (if p.asset == a then p.amount else 0) + (if q.asset == a then q.amount else 0)
  {
    OwedConcat(owed, [p, q], a);
    assert [p, q][1..] == [q] && [q][1..] == [];
    assert Owed([q], a) == (if q.asset == a then q.amount else 0) + Owed([], a);
  }

  /** A release moves the fee without loss, in every asset. */
  lemma ReleaseConserves(k: FeeBook, id: nat, r: Release, goes: bool, a: Asset)
    requires id in k.deferred && r.Of(k.deferred[id])
    ensures FeeTotal(Released(k, id, r, goes), a) == FeeTotal(k, a)
  {
    hide Sum, Owed;
    var d := k.deferred[id];
    DeferredDrops(k, id, r, goes, a);
    PoolsGrow(k.pools, d.asset, r.pool);
    OwedGrows(k.owed, Payment(d.seller, CORE, r.refundCore), Payment(d.seller, d.asset, r.refundPaid), a);
  }

  /** The fees after an order traded. */
  function Filled(k: FeeBook, id: nat, isMaker: bool, discount: nat): (k': FeeBook)
    requires discount <= FULL_PERCENT
    ensures k'.deferred.Keys == k.deferred.Keys
  {
    if id !in k.deferred then k
    else
      var d := k.deferred[id];
      Released(k, id, FillRelease(d, isMaker, discount), false).(broken := k.broken || FillFails(d, isMaker, discount))
  }

  /** The fees after an order was cancelled or removed. */
  function Cancelled(k: FeeBook, id: nat, cancelFee: Option<nat>): (k': FeeBook)
    ensures k'.deferred.Keys == k.deferred.Keys - {id}
  {
    if id !in k.deferred then k else Released(k, id, CancelRelease(k.deferred[id], cancelFee), true)
  }

  lemma FilledConserves(k: FeeBook, id: nat, isMaker: bool, discount: nat, a: Asset)
    requires discount <= FULL_PERCENT
    ensures FeeTotal(Filled(k, id, isMaker, discount), a) == FeeTotal(k, a)
  {
    if id in k.deferred {
      ReleaseConserves(k, id, FillRelease(k.deferred[id], isMaker, discount), false, a);
    }
  }

  lemma CancelledConserves(k: FeeBook, id: nat, cancelFee: Option<nat>, a: Asset)
    ensures FeeTotal(Cancelled(k, id, cancelFee), a) == FeeTotal(k, a)
  {
    if id in k.deferred {
      ReleaseConserves(k, id, CancelRelease(k.deferred[id], cancelFee), true, a);
    }
  }

  /** The fees after two orders traded; a maker that goes has nothing deferred any more. */
  function AfterMatch(k: FeeBook, taker: nat, maker: nat, makerGoes: bool, discount: nat, cancelFee: nat): (k': FeeBook)
    requires discount <= FULL_PERCENT
  {
    var traded := Filled(Filled(k, taker, false, discount), maker, true, discount);
    if makerGoes then Cancelled(traded, maker, Some(cancelFee)) else traded
  }

  /** Nothing was lost, and no fee appeared for another order. */
  ghost predicate FeesKept(k: FeeBook, k': FeeBook) {
    && (forall a :: FeeTotal(k', a) == FeeTotal(k, a))
    && k'.deferred.Keys <= k.deferred.Keys
  }

  lemma MatchKeepsFees(k: FeeBook, taker: nat, maker: nat, makerGoes: bool, discount: nat, cancelFee: nat)
    requires discount <= FULL_PERCENT
    ensures FeesKept(k, AfterMatch(k, taker, maker, makerGoes, discount, cancelFee))
  {
    hide FeeTotal;
    var k1 := Filled(k, taker, false, discount);
    var k2 := Filled(k1, maker, true, discount);
    forall a { FilledConserves(k, taker, false, discount, a); }
    forall a { FilledConserves(k1, maker, true, discount, a); }
    forall a { CancelledConserves(k2, maker, Some(cancelFee), a); }
  }

  lemma CancelKeepsFees(k: FeeBook, id: nat, cancelFee: Option<nat>)
    ensures FeesKept(k, Cancelled(k, id, cancelFee))
  {
    hide FeeTotal;
    forall a { CancelledConserves(k, id, cancelFee, a); }
  }

  lemma FeesKeptTransitive(k: FeeBook, k1: FeeBook, k2: FeeBook)
    requires FeesKept(k, k1) && FeesKept(k1, k2)
    ensures FeesKept(k, k2)
  {
  }

  /** After a match the maker is owed its discount and nobody else anything. */
  lemma MatchOwesMaker(k: FeeBook, taker: nat, maker: nat, makerGoes: bool, discount: nat, cancelFee: nat, a: Asset)
    requires discount <= FULL_PERCENT && taker != maker
    ensures var after := AfterMatch(k, taker, maker, makerGoes, discount, cancelFee);
            Owed(after.owed, a) == Owed(k.owed, a)
              + (if maker !in k.deferred then 0
                 else
                   var d, r := k.deferred[maker], FillRelease(k.deferred[maker], true, discount);
                   (if a == CORE then r.refundCore else 0) + (if a == d.asset then r.refundPaid else 0))
    ensures taker in k.deferred ==> AfterMatch(k, taker, maker, makerGoes, discount, cancelFee).deferred[taker]
                                    == k.deferred[taker].(core := 0, paid := 0)
  {
    hide Owed, FillRelease;
    var k1 := Filled(k, taker, false, discount);
    var k2 := Filled(k1, maker, true, discount);
    if taker in k.deferred {
      var d, r := k.deferred[taker], FillRelease(k.deferred[taker], false, discount);
      OwedGrows(k.owed, Payment(d.seller, CORE, r.refundCore), Payment(d.seller, d.asset, r.refundPaid), a);
    }
    if maker in k.deferred {
      var d, r := k.deferred[maker], FillRelease(k.deferred[maker], true, discount);
      OwedGrows(k1.owed, Payment(d.seller, CORE, r.refundCore), Payment(d.seller, d.asset, r.refundPaid), a);
      if makerGoes {
        NothingReleased(k2.deferred[maker], Some(cancelFee));
        OwedGrows(k2.owed, Payment(d.seller, CORE, 0), Payment(d.seller, d.asset, 0), a);
      }
    }
  }

  lemma NothingReleased(d: Deferred, cancelFee: Option<nat>)
    requires d.core == 0 && d.paid == 0
    ensures CancelRelease(d, cancelFee) == Release(0, 0, 0, 0, 0)
  {
  }

  // ----- creation

  /** The fee offered for an operation; `rate` is the fee asset's exchange rate to CORE. */
  datatype Offered = Offered(asset: Asset, amount: nat, rate: Price) {
    /** The CORE it stands for. */
    function Core(): (r: nat)
      requires rate.base > 0
    {
      if asset == CORE then amount else MulDown(amount, rate)
    }
  }

  /** Whether the fee pool can convert the fee. */
  predicate Convertible(k: FeeBook, fee: Offered)
    requires fee.rate.base > 0
  {
    fee.asset == CORE || fee.Core() <= At(k.pools, fee.asset)
  }

  /** Another asset converts exactly when one more CORE than its pool holds is worth more than the fee. */
  lemma ConvertibleIsCovered(k: FeeBook, fee: Offered)
    requires fee.rate.base > 0 && fee.asset != CORE
    ensures Convertible(k, fee) <==> fee.amount * fee.rate.quote < (At(k.pools, fee.asset) + 1) * fee.rate.base
  {
    hide MulDown;
    DownIsGreatest(fee.amount, fee.rate, At(k.pools, fee.asset) + 1);
  }

  /** `prepare_fee`, `convert_fee` and `pay_fee` of a new order: the pool gives the CORE, the order holds both. */
  function Deferring(k: FeeBook, id: nat, seller: Account, fee: Offered): (k': FeeBook)
    requires fee.rate.base > 0 && Convertible(k, fee)
  {
    var d := Deferred(seller, fee.Core(), fee.asset, if fee.asset == CORE then 0 else fee.amount);
    k.(deferred := k.deferred[id := d],
       pools := if fee.asset == CORE then k.pools else k.pools[fee.asset := At(k.pools, fee.asset) - fee.Core()])
  }

  /** A fee paid in CORE stands for itself, and another for its rounded-down worth. */
  lemma CoreIsWorth(fee: Offered)
    requires fee.rate.base > 0
    ensures if fee.asset == CORE then fee.Core() == fee.amount else RoundedDown(fee.Core(), fee.amount, fee.rate)
  {
    hide MulDown, RoundedDown;
    DownIsRounded(fee.amount, fee.rate);
  }

  /** What the order defers is what the account will pay. */
  lemma DeferringAdds(k: FeeBook, id: nat, seller: Account, fee: Offered, a: Asset)
    requires fee.rate.base > 0 && Convertible(k, fee) && id !in k.deferred
    ensures FeeTotal(Deferring(k, id, seller, fee), a) == FeeTotal(k, a) + (if a == fee.asset then fee.amount else 0)
  {
    hide Sum, MulDown;
    var d := Deferred(seller, fee.Core(), fee.asset, if fee.asset == CORE then 0 else fee.amount);
    SumUpdate(k.deferred, id, d, DeferredIn(a));
    if fee.asset != CORE {
      var pool: nat := At(k.pools, fee.asset) - fee.Core();
      SumUpdate(k.pools, fee.asset, pool, InPool);
    }
  }
}

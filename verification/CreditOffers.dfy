/**
 * Credit offers and deals: the offers' balances, the deals and the per-borrower summaries, which
 * repeat each other and have to agree.
 */
module CreditOffers {
  import opened Rounding
  import opened Ledger

  const FEE_RATE_DENOM: nat := 1000000

  /** `acceptable` maps a collateral asset to a price of debt (base) in collateral (quote). */
  datatype Terms = Terms(feeRate: nat, minDeal: nat, enabled: bool, acceptable: map<Asset, Price>,
                         borrowers: map<Account, nat>) {
    predicate Valid() {
      forall a :: a in acceptable ==> acceptable[a].base > 0 && acceptable[a].quote > 0
    }
  }

  datatype Offer = Offer(owner: Account, asset: Asset, total: nat, current: nat, terms: Terms)

  datatype Deal = Deal(borrower: Account, offer: nat, asset: Asset, debt: nat, collateralAsset: Asset, collateral: nat,
                       feeRate: nat)

  // ----- what the parts add up to

  /** The debt of one offer. */
  function InOffer(o: nat): (nat, Deal) -> int {
    (id: nat, d: Deal) => if d.offer == o then d.debt else 0
  }

  /** The debt of one borrower in one offer. */
  function By(o: nat, b: Account): (nat, Deal) -> int {
    (id: nat, d: Deal) => if d.offer == o && d.borrower == b then d.debt else 0
  }

  function InOffers(a: Asset): (nat, Offer) -> int {
    (id: nat, o: Offer) => if o.asset == a then o.current else 0
  }

  function AsCollateral(a: Asset): (nat, Deal) -> int {
    (id: nat, d: Deal) => if d.collateralAsset == a then d.collateral else 0
  }

  type Summaries = map<(nat, Account), nat>

  function Summary(s: Summaries, o: nat, b: Account): (r: nat) {
    if (o, b) in s then s[(o, b)] else 0
  }

  // ----- amounts

  /** The fee due on a repayment, rounded up. */
  function Fee(repay: nat, feeRate: nat): (r: nat) {
    MulUp(repay, Price(FEE_RATE_DENOM, feeRate))
  }

  /** What a partial repayment releases, rounded down. */
  function Released(repay: nat, debt: nat, collateral: nat): (r: nat)
    requires debt > 0
  {
    MulDown(repay, Price(debt, collateral))
  }

  /** The fee is the rate of the repayment rounded up, and the release the pro-rata collateral rounded down. */
  lemma AmountsAreRounded(repay: nat, feeRate: nat, debt: nat, collateral: nat)
    requires debt > 0
    ensures RoundedUp(Fee(repay, feeRate), repay, Price(FEE_RATE_DENOM, feeRate))
    ensures RoundedDown(Released(repay, debt, collateral), repay, Price(debt, collateral))
  {
    hide RoundedUp, RoundedDown, MulUp, MulDown;
    UpIsRounded(repay, Price(FEE_RATE_DENOM, feeRate));
    DownIsRounded(repay, Price(debt, collateral));
  }

  /** A partial repayment never releases all, and never lowers the collateral per debt. */
  lemma ReleaseKeepsRatio(repay: nat, debt: nat, collateral: nat, p: Price)
    requires repay < debt && collateral > 0
    requires debt * p.quote <= collateral * p.base
    ensures Released(repay, debt, collateral) < collateral
    ensures (debt - repay) * p.quote <= (collateral - Released(repay, debt, collateral)) * p.base
  {
    hide MulDown;
    var released := Released(repay, debt, collateral);
    assert released * debt <= repay * collateral;
    MulLt(repay, debt, collateral);
    CancelLt(released, collateral, debt);
    RestCovers(repay, released, p.quote, p.base, collateral, debt);
  }

  function SumOf(parts: seq<nat>): (r: nat) {
    if parts == [] then 0 else parts[0] + SumOf(parts[1..])
  }

  function FeesOf(parts: seq<nat>, feeRate: nat): (r: nat) {
    if parts == [] then 0 else Fee(parts[0], feeRate) + FeesOf(parts[1..], feeRate)
  }

  /** Repaying in parts never costs less in fees than repaying at once. */
  lemma {:induction false} PartsCostNoLess(parts: seq<nat>, feeRate: nat)
    ensures Fee(SumOf(parts), feeRate) <= FeesOf(parts, feeRate)
  {
    hide MulDown, MulUp;
    var p := Price(FEE_RATE_DENOM, feeRate);
    if parts == [] {
      UpIsLeast(0, p, 0);
    } else {
      PartsCostNoLess(parts[1..], feeRate);
      var a, b := parts[0], SumOf(parts[1..]);
      assert (a + b) * p.quote == a * p.quote + b * p.quote;
      assert (Fee(a, feeRate) + Fee(b, feeRate)) * p.base == Fee(a, feeRate) * p.base + Fee(b, feeRate) * p.base;
      UpIsLeast(a + b, p, Fee(a, feeRate) + Fee(b, feeRate));
    }
  }

  /** The debt an automatic repayment covers when the balance is too small for all of it. */
  function AffordableRepay(balance: nat, d: Deal): (repay: nat)
    requires d.debt > 0 && d.collateral > 0
  {
    var covered := MulDown(balance, Price(FEE_RATE_DENOM + d.feeRate, FEE_RATE_DENOM));
    MulUp(MulDown(covered, Price(d.debt, d.collateral)), Price(d.collateral, d.debt))
  }

  /**
   * The partial automatic repayment is affordable with its rounded-up fee, is less than the debt,
   * and no smaller repayment releases as much collateral.
   */
  lemma AffordableRepayFits(balance: nat, d: Deal)
    requires d.debt > 0 && d.collateral > 0 && balance < d.debt + Fee(d.debt, d.feeRate)
    ensures var repay := AffordableRepay(balance, d);
            && repay + Fee(repay, d.feeRate) <= balance
            && repay < d.debt
            && forall x: nat :: x < repay ==> Released(x, d.debt, d.collateral) < Released(repay, d.debt, d.collateral)
  {
    hide MulDown, MulUp;
    var whole := Price(FEE_RATE_DENOM + d.feeRate, FEE_RATE_DENOM);
    var covered := MulDown(balance, whole);
    Stabilise(covered, Price(d.debt, d.collateral));
    var repay := AffordableRepay(balance, d);
    FeeFits(repay, covered, balance, d.feeRate);
    if repay >= d.debt {
      UpIsMonotone(d.debt, repay, Price(FEE_RATE_DENOM, d.feeRate));
      assert false;
    }
  }

  /** No repayment the balance can pay for with its fee releases more than the automatic one. */
  lemma AffordableRepayIsBest(balance: nat, d: Deal, x: nat)
    requires d.debt > 0 && d.collateral > 0 && x + Fee(x, d.feeRate) <= balance
    ensures Released(x, d.debt, d.collateral) <= Released(AffordableRepay(balance, d), d.debt, d.collateral)
  {
    hide MulUp, MulDown, Fee;
    var whole := Price(FEE_RATE_DENOM + d.feeRate, FEE_RATE_DENOM);
    var covered := MulDown(balance, whole);
    assert x * whole.base <= balance * whole.quote by { FeeCovers(x, balance, d.feeRate); }
    DownIsGreatest(balance, whole, x);
    DownIsMonotone(x, covered, Price(d.debt, d.collateral));
    Stabilise(covered, Price(d.debt, d.collateral));
  }

  lemma FeeCovers(x: nat, balance: nat, feeRate: nat)
    requires x + Fee(x, feeRate) <= balance
    ensures x * (FEE_RATE_DENOM + feeRate) <= balance * FEE_RATE_DENOM
  {
    hide MulUp;
    MulLe(x + Fee(x, feeRate), balance, FEE_RATE_DENOM);
    assert x * (FEE_RATE_DENOM + feeRate) == x * FEE_RATE_DENOM + x * feeRate;
    assert (x + Fee(x, feeRate)) * FEE_RATE_DENOM == x * FEE_RATE_DENOM + Fee(x, feeRate) * FEE_RATE_DENOM;
  }

  lemma FeeFits(repay: nat, covered: nat, balance: nat, feeRate: nat)
    requires repay <= covered && covered == MulDown(balance, Price(FEE_RATE_DENOM + feeRate, FEE_RATE_DENOM))
    ensures repay + Fee(repay, feeRate) <= balance
  {
    hide MulDown, MulUp;
    var k := FEE_RATE_DENOM + feeRate;
    MulLe(repay, covered, k);
    assert repay * k == repay * FEE_RATE_DENOM + repay * feeRate;
    assert repay * k <= balance * FEE_RATE_DENOM;
    if repay > balance {
      MulLe(balance + 1, repay, FEE_RATE_DENOM);
      MulLe(0, feeRate, repay);
      assert false;
    }
    assert (balance - repay) * FEE_RATE_DENOM == balance * FEE_RATE_DENOM - repay * FEE_RATE_DENOM;
    UpIsLeast(repay, Price(FEE_RATE_DENOM, feeRate), balance - repay);
  }

  // ----- how one write moves the sums

  lemma DealWritten(deals: map<nat, Deal>, id: nat, d: Deal)
    ensures forall o :: Sum(deals[id := d], InOffer(o))
                     == Sum(deals, InOffer(o)) + InOffer(o)(id, d)
                        - (if id in deals then InOffer(o)(id, deals[id]) else 0)
    ensures forall o, b :: Sum(deals[id := d], By(o, b))
                        == Sum(deals, By(o, b)) + By(o, b)(id, d) - (if id in deals then By(o, b)(id, deals[id]) else 0)
    ensures forall a :: Sum(deals[id := d], AsCollateral(a))
                     == Sum(deals, AsCollateral(a)) + AsCollateral(a)(id, d)
                        - (if id in deals then AsCollateral(a)(id, deals[id]) else 0)
  {
    forall o { SumUpdate(deals, id, d, InOffer(o)); }
    forall o, b { SumUpdate(deals, id, d, By(o, b)); }
    forall a { SumUpdate(deals, id, d, AsCollateral(a)); }
  }

  lemma DealRemoved(deals: map<nat, Deal>, id: nat)
    requires id in deals
    ensures forall o :: Sum(deals - {id}, InOffer(o)) == Sum(deals, InOffer(o)) - InOffer(o)(id, deals[id])
    ensures forall o, b :: Sum(deals - {id}, By(o, b)) == Sum(deals, By(o, b)) - By(o, b)(id, deals[id])
    ensures forall a :: Sum(deals - {id}, AsCollateral(a))
                     == Sum(deals, AsCollateral(a)) - AsCollateral(a)(id, deals[id])
  {
    forall o { SumWithout(deals, id, InOffer(o)); }
    forall o, b { SumWithout(deals, id, By(o, b)); }
    forall a { SumWithout(deals, id, AsCollateral(a)); }
  }

  lemma OfferWritten(offers: map<nat, Offer>, id: nat, o: Offer)
    requires id in offers ==> offers[id].asset == o.asset
    ensures forall a :: Sum(offers[id := o], InOffers(a))
                     == Sum(offers, InOffers(a))
                        + (if a == o.asset then o.current - (if id in offers then offers[id].current else 0) else 0)
  {
    forall a { SumUpdate(offers, id, o, InOffers(a)); }
  }

  /** A sum over deals with positive debts is zero exactly when none of them counts. */
  lemma {:induction false} NoDealNoDebt(deals: map<nat, Deal>, o: nat, b: Account)
    requires forall d :: d in deals ==> deals[d].debt > 0
    ensures Sum(deals, By(o, b)) >= 0
    ensures Sum(deals, By(o, b)) > 0 <==> exists d :: d in deals && deals[d].offer == o && deals[d].borrower == b
  {
    SumNonNegative(deals, By(o, b));
    if d :| d in deals && deals[d].offer == o && deals[d].borrower == b {
      SumBoundsTerm(deals, d, By(o, b));
    } else {
      SumZero(deals, By(o, b));
    }
  }

  // ----- what has to agree

  /** The offers, the deals and the per-borrower summaries; `acceptedAt` is the price each deal was accepted at. */
  datatype Books = Books(offers: map<nat, Offer>, deals: map<nat, Deal>, summaries: Summaries, nextId: nat,
                         acceptedAt: map<nat, Price>)

  /** A deal is positive, belongs to an offer, and is no thinner than the price it was accepted at. */
  ghost predicate DealOk(k: Books, id: nat, d: Deal) {
    && id < k.nextId && d.debt > 0 && d.collateral > 0
    && d.offer in k.offers && k.offers[d.offer].asset == d.asset
    && id in k.acceptedAt && k.acceptedAt[id].Valid()
    && d.debt * k.acceptedAt[id].quote <= d.collateral * k.acceptedAt[id].base
  }

  ghost predicate DealsOk(k: Books) {
    forall d :: d in k.deals ==> DealOk(k, d, k.deals[d])
  }

  /** What an offer has lent out is what its deals owe. */
  ghost predicate OffersAgree(k: Books) {
    forall o :: o in k.offers ==>
      o < k.nextId && k.offers[o].terms.Valid() && k.offers[o].total == k.offers[o].current + Sum(k.deals, InOffer(o))
  }

  /** Each summary is what its borrower owes in its offer. */
  ghost predicate SummariesAgree(summaries: Summaries, deals: map<nat, Deal>) {
    && (forall s :: s in summaries ==> summaries[s] > 0)
    && forall o, b :: Summary(summaries, o, b) == Sum(deals, By(o, b))
  }

  ghost predicate Agree(k: Books) {
    DealsOk(k) && OffersAgree(k) && SummariesAgree(k.summaries, k.deals)
  }

  /** Everything of one asset: balances, offers and collateral. */
  ghost function TotalOf(funds: Funds, k: Books, a: Asset): (r: int) {
    Held(funds, a) + Sum(k.offers, InOffers(a)) + Sum(k.deals, AsCollateral(a))
  }

  /** A summary exists exactly when its borrower has a deal in its offer. */
  lemma SummaryIffDeal(k: Books, o: nat, b: Account)
    requires Agree(k)
    ensures (o, b) in k.summaries <==> exists d :: d in k.deals && k.deals[d].offer == o && k.deals[d].borrower == b
  {
    hide Sum;
    NoDealNoDebt(k.deals, o, b);
    assert Summary(k.summaries, o, b) == Sum(k.deals, By(o, b));
  }

  /** The summary of a deal's borrower exists and covers the deal; the offer has lent at least that much. */
  lemma SummaryCoversDeal(k: Books, d: nat)
    requires Agree(k) && d in k.deals
    ensures k.deals[d].offer in k.offers && k.offers[k.deals[d].offer].asset == k.deals[d].asset
    ensures k.deals[d].debt > 0 && k.deals[d].collateral > 0
    ensures (k.deals[d].offer, k.deals[d].borrower) in k.summaries
    ensures k.deals[d].debt <= k.summaries[(k.deals[d].offer, k.deals[d].borrower)]
    ensures k.offers[k.deals[d].offer].current + k.deals[d].debt <= k.offers[k.deals[d].offer].total
  {
    hide Sum;
    assert DealOk(k, d, k.deals[d]);
    var o, b := k.deals[d].offer, k.deals[d].borrower;
    SumBoundsTerm(k.deals, d, By(o, b));
    SumBoundsTerm(k.deals, d, InOffer(o));
    assert Summary(k.summaries, o, b) >= k.deals[d].debt;
  }

  lemma LentIsNotNegative(k: Books, o: nat)
    requires Agree(k) && o in k.offers
    ensures k.offers[o].total >= k.offers[o].current
  {
    SumNonNegative(k.deals, InOffer(o));
  }

  lemma NothingLent(k: Books, o: nat)
    requires Agree(k) && (o !in k.offers || k.offers[o].total == k.offers[o].current)
    ensures Sum(k.deals, InOffer(o)) == 0
    ensures forall d :: d in k.deals ==> k.deals[d].offer != o
  {
    hide Sum;
    forall d | d in k.deals ensures k.deals[d].offer != o {
      assert DealOk(k, d, k.deals[d]);
      if k.deals[d].offer == o {
        SumBoundsTerm(k.deals, d, InOffer(o));
        assert false;
      }
    }
    SumZero(k.deals, InOffer(o));
  }

  // ----- what one step does to the books

  /** An offer may be written when it keeps its asset and what it has lent out. */
  lemma OfferWriteAgrees(k: Books, id: nat, o: Offer, nextId: nat)
    requires Agree(k) && o.terms.Valid() && id < nextId && k.nextId <= nextId
    requires if id in k.offers
             then o.asset == k.offers[id].asset && o.total - o.current == k.offers[id].total - k.offers[id].current
             else o.total == o.current
    ensures Agree(k.(offers := k.offers[id := o], nextId := nextId))
  {
    hide Sum, SummariesAgree;
    var k' := k.(offers := k.offers[id := o], nextId := nextId);
    forall d | d in k'.deals ensures DealOk(k', d, k'.deals[d]) {
      assert DealOk(k, d, k.deals[d]);
    }
    if id !in k.offers {
      NothingLent(k, id);
    }
  }

  lemma OfferRemovalAgrees(k: Books, id: nat)
    requires Agree(k) && id in k.offers && k.offers[id].total == k.offers[id].current
    ensures Agree(k.(offers := k.offers - {id}))
  {
    hide Sum, SummariesAgree;
    var k' := k.(offers := k.offers - {id});
    NothingLent(k, id);
    forall d | d in k'.deals ensures DealOk(k', d, k'.deals[d]) {
      assert DealOk(k, d, k.deals[d]);
    }
  }

  function Borrowed(s: Summaries, o: nat, b: Account, amount: nat): (r: Summaries) {
    s[(o, b) := Summary(s, o, b) + amount]
  }

  function PaidBack(s: Summaries, o: nat, b: Account, amount: nat): (r: Summaries)
    requires (o, b) in s && amount <= s[(o, b)]
  {
    if s[(o, b)] == amount then s - {(o, b)} else s[(o, b) := s[(o, b)] - amount]
  }

  /** The books after `d` is accepted at `price`. */
  function Lend(k: Books, d: Deal, price: Price): (r: Books)
    requires d.offer in k.offers && d.debt <= k.offers[d.offer].current
  {
    var o := k.offers[d.offer];
    Books(k.offers[d.offer := o.(current := o.current - d.debt)], k.deals[k.nextId := d],
          Borrowed(k.summaries, d.offer, d.borrower, d.debt), k.nextId + 1, k.acceptedAt[k.nextId := price])
  }

  lemma LendAgrees(k: Books, d: Deal, price: Price)
    requires Agree(k) && d.offer in k.offers && d.debt <= k.offers[d.offer].current
    requires k.offers[d.offer].asset == d.asset
    requires d.debt > 0 && d.collateral > 0 && price.Valid() && d.debt * price.quote <= d.collateral * price.base
    ensures Agree(Lend(k, d, price))
  {
    hide Sum, InOffer, By, AsCollateral;
    var k' := Lend(k, d, price);
    NewId(k);
    DealWritten(k.deals, k.nextId, d);
    DealWeights(k.nextId, d);
    assert DealsOk(k') by {
      forall x | x in k'.deals ensures DealOk(k', x, k'.deals[x]) {
        assert x in k.deals ==> DealOk(k, x, k.deals[x]);
      }
    }
    LendSummariesAgree(k, d, price);
  }

  lemma LendSummariesAgree(k: Books, d: Deal, price: Price)
    requires SummariesAgree(k.summaries, k.deals) && k.nextId !in k.deals && d.debt > 0
    ensures SummariesAgree(Borrowed(k.summaries, d.offer, d.borrower, d.debt), k.deals[k.nextId := d])
  {
    hide Sum, InOffer, By, AsCollateral;
    DealWritten(k.deals, k.nextId, d);
    DealWeights(k.nextId, d);
  }

  lemma NewId(k: Books)
    requires Agree(k)
    ensures k.nextId !in k.deals && k.nextId !in k.offers
  {
    assert k.nextId in k.deals ==> DealOk(k, k.nextId, k.deals[k.nextId]);
  }

  /** The deals after `back` of one deal's debt is gone, with `released` of its collateral. */
  function Lowered(deals: map<nat, Deal>, id: nat, back: nat, released: nat): (r: map<nat, Deal>)
    requires id in deals && back <= deals[id].debt && released <= deals[id].collateral
  {
    var d := deals[id];
    if back == d.debt then deals - {id}
    else deals[id := d.(debt := d.debt - back, collateral := d.collateral - released)]
  }

  lemma LoweredMoves(deals: map<nat, Deal>, id: nat, back: nat, released: nat)
    requires id in deals && back <= deals[id].debt && released <= deals[id].collateral
    requires back == deals[id].debt ==> released == deals[id].collateral
    ensures var next, d := Lowered(deals, id, back, released), deals[id];
            && (forall o :: Sum(next, InOffer(o)) == Sum(deals, InOffer(o)) - (if d.offer == o then back else 0))
            && (forall o, b :: Sum(next, By(o, b))
                            == Sum(deals, By(o, b)) - (if d.offer == o && d.borrower == b then back else 0))
            && (forall a :: Sum(next, AsCollateral(a))
                         == Sum(deals, AsCollateral(a)) - (if d.collateralAsset == a then released else 0))
  {
    hide Sum, InOffer, By, AsCollateral;
    var d := deals[id];
    DealWeights(id, d);
    if back == d.debt {
      DealRemoved(deals, id);
    } else {
      var d' := d.(debt := d.debt - back, collateral := d.collateral - released);
      DealWeights(id, d');
      DealWritten(deals, id, d');
    }
  }

  /** What `back` releases: everything when it clears the debt. */
  function ReleasedBy(d: Deal, back: nat): (r: nat)
    requires 0 < d.debt
  {
    if back == d.debt then d.collateral else Released(back, d.debt, d.collateral)
  }

  /** The books after `back` of deal `id` is gone and its offer reads `o`. */
  function Settle(k: Books, id: nat, back: nat, o: Offer): (r: Books)
    requires id in k.deals && 0 < k.deals[id].debt && back <= k.deals[id].debt
    requires ReleasedBy(k.deals[id], back) <= k.deals[id].collateral
    requires (k.deals[id].offer, k.deals[id].borrower) in k.summaries
    requires back <= k.summaries[(k.deals[id].offer, k.deals[id].borrower)]
  {
    var d := k.deals[id];
    k.(offers := k.offers[d.offer := o], deals := Lowered(k.deals, id, back, ReleasedBy(d, back)),
       summaries := PaidBack(k.summaries, d.offer, d.borrower, back))
  }

  /** The books' own "Internal error" assertions cannot fail. */
  lemma SettleIsDefined(k: Books, id: nat, back: nat)
    requires Agree(k) && id in k.deals && back <= k.deals[id].debt
    ensures 0 < k.deals[id].debt && ReleasedBy(k.deals[id], back) <= k.deals[id].collateral
    ensures back < k.deals[id].debt ==>
              Released(back, k.deals[id].debt, k.deals[id].collateral) < k.deals[id].collateral
    ensures k.deals[id].offer in k.offers && k.offers[k.deals[id].offer].asset == k.deals[id].asset
    ensures (k.deals[id].offer, k.deals[id].borrower) in k.summaries
    ensures back <= k.summaries[(k.deals[id].offer, k.deals[id].borrower)]
    ensures k.offers[k.deals[id].offer].current + k.deals[id].debt <= k.offers[k.deals[id].offer].total
  {
    hide Agree, Released;
    SummaryCoversDeal(k, id);
    var d := k.deals[id];
    if back < d.debt {
      ReleaseKeepsRatio(back, d.debt, d.collateral, Price(1, 0));
    }
  }

  lemma SettleAgrees(k: Books, id: nat, back: nat, o: Offer)
    requires Agree(k) && id in k.deals && back <= k.deals[id].debt && k.deals[id].offer in k.offers
    requires var was := k.offers[k.deals[id].offer];
             o.asset == was.asset && o.terms == was.terms && o.total - o.current == was.total - was.current - back
    ensures 0 < k.deals[id].debt && ReleasedBy(k.deals[id], back) <= k.deals[id].collateral
    ensures (k.deals[id].offer, k.deals[id].borrower) in k.summaries
    ensures back <= k.summaries[(k.deals[id].offer, k.deals[id].borrower)]
    ensures Agree(Settle(k, id, back, o))
  {
    hide Sum, Released, Lowered;
    SettleIsDefined(k, id, back);
    SettleDealsOk(k, id, back, o);
    SettleSummariesAgree(k, id, back);
    LoweredMoves(k.deals, id, back, ReleasedBy(k.deals[id], back));
  }

  lemma SettleDealsOk(k: Books, id: nat, back: nat, o: Offer)
    requires DealsOk(k) && id in k.deals && back <= k.deals[id].debt
    requires 0 < k.deals[id].debt && ReleasedBy(k.deals[id], back) <= k.deals[id].collateral
    requires (k.deals[id].offer, k.deals[id].borrower) in k.summaries
    requires back <= k.summaries[(k.deals[id].offer, k.deals[id].borrower)]
    requires k.deals[id].offer in k.offers && o.asset == k.offers[k.deals[id].offer].asset
    ensures DealsOk(Settle(k, id, back, o))
  {
    hide Released, PaidBack;
    var d, k' := k.deals[id], Settle(k, id, back, o);
    assert DealOk(k, id, d);
    if back < d.debt {
      ReleaseKeepsRatio(back, d.debt, d.collateral, k.acceptedAt[id]);
    }
    forall x | x in k'.deals ensures DealOk(k', x, k'.deals[x]) {
      assert DealOk(k, x, k.deals[x]);
    }
  }

  lemma SettleSummariesAgree(k: Books, id: nat, back: nat)
    requires SummariesAgree(k.summaries, k.deals) && id in k.deals && back <= k.deals[id].debt
    requires 0 < k.deals[id].debt && ReleasedBy(k.deals[id], back) <= k.deals[id].collateral
    requires (k.deals[id].offer, k.deals[id].borrower) in k.summaries
    requires back <= k.summaries[(k.deals[id].offer, k.deals[id].borrower)]
    ensures SummariesAgree(PaidBack(k.summaries, k.deals[id].offer, k.deals[id].borrower, back),
                           Lowered(k.deals, id, back, ReleasedBy(k.deals[id], back)))
  {
    hide Sum, Released, Lowered;
    LoweredMoves(k.deals, id, back, ReleasedBy(k.deals[id], back));
  }

  /** The price a deal was accepted at is never rewritten. */
  ghost predicate KeepsPrices(k: Books, k': Books) {
    && k.nextId <= k'.nextId
    && forall d :: d in k.acceptedAt && d < k.nextId ==> d in k'.acceptedAt && k'.acceptedAt[d] == k.acceptedAt[d]
  }

  // ----- the operations

  /** The collateral is enough exactly when it is worth the amount at the offer's price. */
  lemma EnoughCollateral(o: Offer, amount: nat, collateralAsset: Asset, collateral: nat)
    requires o.terms.Valid() && collateralAsset in o.terms.acceptable
    ensures var p := o.terms.acceptable[collateralAsset];
            MulUp(amount, p) <= collateral <==> amount * p.quote <= collateral * p.base
  {
    hide MulUp;
    UpIsLeast(amount, o.terms.acceptable[collateralAsset], collateral);
  }

  /** What `credit_offer_accept` demands; `already` is what the borrower owes in the offer. */
  predicate MayBorrow(o: Offer, already: nat, borrower: Account, amount: nat, collateralAsset: Asset, collateral: nat,
                      maxFeeRate: nat)
    requires o.terms.Valid()
  {
    && 0 < amount <= o.current && 0 < collateral
    && o.terms.enabled && o.terms.minDeal <= amount && o.terms.feeRate <= maxFeeRate
    && collateralAsset in o.terms.acceptable && MulUp(amount, o.terms.acceptable[collateralAsset]) <= collateral
    && (o.terms.borrowers == map[]
        || (borrower in o.terms.borrowers && already + amount <= o.terms.borrowers[borrower]))
  }

  datatype UpdateResult = Updated | Refused | DefensiveCheckFailed

  datatype AutoRepay = NoAuto | OnlyFull | AllowPartial

  datatype Command =
    | Create(owner: Account, asset: Asset, balance: nat, terms: Terms)
    | Delete(owner: Account, offer: nat)
    | Update(owner: Account, offer: nat, delta: Option<int>, terms: Terms)
    | Accept(borrower: Account, offer: nat, amount: nat, collateralAsset: Asset, collateral: nat, maxFeeRate: nat)
    | Repay(account: Account, deal: nat, repay: nat, fee: nat)
    | Expire(deal: nat, auto: AutoRepay)

  class CreditMarket {
    var offers: map<nat, Offer>
    var deals: map<nat, Deal>
    var summaries: Summaries
    var funds: Funds
    var nextId: nat
    ghost var acceptedAt: map<nat, Price>     // the price each deal was accepted at

    ghost function State(): (k: Books)
      reads this
    {
      Books(offers, deals, summaries, nextId, acceptedAt)
    }

    ghost predicate Valid()
      reads this
    {
      Agree(State())
    }

    ghost function Total(a: Asset): (r: int)
      reads this
    {
      TotalOf(funds, State(), a)
    }

    /** No offer was emptied by expired deals. */
    ghost predicate NoneEmptied()
      reads this
    {
      forall o :: o in offers ==> offers[o].total > 0
    }

    constructor (funds: Funds)
      ensures Valid() && NoneEmptied() && forall a :: Total(a) == Held(funds, a)
      ensures offers == map[] && deals == map[] && summaries == map[] && nextId == 0 && this.funds == funds
    {
      offers, deals, summaries, this.funds, nextId, acceptedAt := map[], map[], map[], funds, 0, map[];
    }

    /** `credit_offer_create`. */
    method CreateOffer(owner: Account, asset: Asset, balance: nat, terms: Terms) returns (ok: bool)
      requires Valid()
      modifies this`offers, this`funds, this`nextId
      ensures Valid() && (forall a :: Total(a) == old(Total(a))) && (old(NoneEmptied()) ==> NoneEmptied())
      ensures ok <==> balance > 0 && terms.Valid() && Balance(old(funds), owner, asset) >= balance
      ensures ok ==> offers == old(offers)[old(nextId) := Offer(owner, asset, balance, balance, terms)]
                     && old(nextId) !in old(offers) && nextId == old(nextId) + 1
      ensures ok ==> Adjust(old(funds), owner, asset, 0 - balance) == Some(funds)
      ensures !ok ==> State() == old(State()) && funds == old(funds)
    {
      hide Sum, Held, Adjust, Balance, Agree, Terms.Valid;
      if balance == 0 || !terms.Valid() {
        return false;
      }
      var taken := Adjust(funds, owner, asset, 0 - balance);
      if taken.None? {
        return false;
      }
      var o := Offer(owner, asset, balance, balance, terms);
      NewId(State());
      forall a { AdjustMovesTotal(funds, owner, asset, 0 - balance, a); }
      OfferWritten(offers, nextId, o);
      OfferWriteAgrees(State(), nextId, o, nextId + 1);
      funds, offers, nextId := taken.value, offers[nextId := o], nextId + 1;
      ok := true;
    }

    /** `credit_offer_delete`: only an offer with nothing lent out can go. */
    method DeleteOffer(owner: Account, id: nat) returns (ok: bool)
      requires Valid()
      modifies this`offers, this`funds
      ensures Valid() && (forall a :: Total(a) == old(Total(a))) && (old(NoneEmptied()) ==> NoneEmptied())
      ensures ok <==> id in old(offers) && old(offers)[id].owner == owner
                      && old(offers)[id].total == old(offers)[id].current
      ensures ok ==> offers == old(offers) - {id} && forall d :: d in deals ==> deals[d].offer != id
      ensures ok ==> funds == Pay(old(funds), owner, old(offers)[id].asset, old(offers)[id].current)
      ensures !ok ==> State() == old(State()) && funds == old(funds)
    {
      hide Sum, Held, Pay, Adjust, Agree;
      if !(id in offers && offers[id].owner == owner && offers[id].total == offers[id].current) {
        return false;
      }
      var o := offers[id];
      NothingLent(State(), id);
      OfferRemovalAgrees(State(), id);
      forall a { SumWithout(offers, id, InOffers(a)); }
      forall a { AdjustMovesTotal(funds, owner, o.asset, o.current, a); }
      funds, offers := Pay(funds, owner, o.asset, o.current), offers - {id};
      ok := true;
    }

    /**
     * `credit_offer_update`; `terms` are the terms after the given parts are filled in.  The
     * balance-related defensive assertions fail exactly when the offer was emptied by expired
     * deals and the update does not move funds.
     */
    method UpdateOffer(owner: Account, id: nat, delta: Option<int>, terms: Terms) returns (r: UpdateResult)
      requires Valid()
      modifies this`offers, this`funds
      ensures Valid() && (forall a :: Total(a) == old(Total(a))) && (old(NoneEmptied()) ==> NoneEmptied())
      ensures r.DefensiveCheckFailed? <==> id in old(offers) && old(offers)[id].owner == owner && terms.Valid()
                                           && old(offers)[id].total == 0 && delta.None?
      ensures !r.Updated? ==> State() == old(State()) && funds == old(funds)
      ensures r.Updated? <==> id in old(offers) && old(offers)[id].owner == owner && terms.Valid()
                              && var o := old(offers)[id];
                              match delta
                              case None => o.total > 0
                              case Some(change) =>
                                && Balance(old(funds), owner, o.asset) >= change
                                && (change > 0 || (o.total > -change && o.current >= -change))
      ensures r.Updated? ==> var o := old(offers)[id];
                             var change := if delta.Some? then delta.value else 0;
                             && o.total + change > 0 && o.current + change >= 0
                             && offers == old(offers)[id := o.(total := o.total + change, current := o.current + change,
                                                               terms := terms)]
                             && (if delta.Some? then Adjust(old(funds), owner, o.asset, -change) == Some(funds)
                                 else funds == old(funds))
    {
      hide Sum, Held, Adjust, Balance, Agree, Terms.Valid;
      if !(id in offers && offers[id].owner == owner && terms.Valid()) {
        return Refused;
      }
      var o := offers[id];
      var change, after := 0, funds;
      if delta.Some? {
        change := delta.value;
        if change <= 0 && !(o.total > -change && o.current >= -change) {
          return Refused;
        }
        var taken := Adjust(funds, owner, o.asset, -change);
        if taken.None? {
          return Refused;
        }
        forall a { AdjustMovesTotal(funds, owner, o.asset, -change, a); }
        after := taken.value;
      }
      LentIsNotNegative(State(), id);
      if !(o.total + change > 0 && o.current + change >= 0 && o.total >= o.current) {
        return DefensiveCheckFailed;
      }
      var next := o.(total := o.total + change, current := o.current + change, terms := terms);
      OfferWritten(offers, id, next);
      OfferIds(State(), id);
      OfferWriteAgrees(State(), id, next, nextId);
      funds, offers := after, offers[id := next];
      r := Updated;
    }

    /** `credit_offer_accept`: the price and the limits decide, and the debt is written three times. */
    method AcceptOffer(borrower: Account, id: nat, amount: nat, collateralAsset: Asset, collateral: nat,
                       maxFeeRate: nat)
      returns (deal: Option<nat>)
      requires Valid()
      modifies this`offers, this`deals, this`summaries, this`funds, this`nextId, this`acceptedAt
      ensures Valid() && (forall a :: Total(a) == old(Total(a))) && (old(NoneEmptied()) ==> NoneEmptied())
      ensures deal.None? ==> State() == old(State()) && funds == old(funds)
      ensures deal.Some? <==> id in old(offers) && old(offers)[id].terms.Valid()
                              && var o := old(offers)[id];
                              && 0 < amount <= o.current && 0 < collateral
                              && o.terms.enabled && o.terms.minDeal <= amount && o.terms.feeRate <= maxFeeRate
                              && collateralAsset in o.terms.acceptable
                              && amount * o.terms.acceptable[collateralAsset].quote
                                 <= collateral * o.terms.acceptable[collateralAsset].base
                              && (o.terms.borrowers == map[]
                                  || (borrower in o.terms.borrowers
                                      && Summary(old(summaries), id, borrower) + amount <= o.terms.borrowers[borrower]))
                              && Balance(old(funds), borrower, collateralAsset) >= collateral
      ensures deal.Some? ==> deal.value == old(nextId) && id in old(offers)
      ensures deal.Some? ==> var o := old(offers)[id];
                             && 0 < amount <= o.current && collateralAsset in o.terms.acceptable
                             && var price := o.terms.acceptable[collateralAsset];
                             && amount * price.quote <= collateral * price.base
                             && var d := Deal(borrower, id, o.asset, amount, collateralAsset, collateral,
                                              o.terms.feeRate);
                             && State() == Lend(old(State()), d, price)
                             && (o.terms.borrowers != map[] ==>
                                   borrower in o.terms.borrowers
                                   && Summary(summaries, id, borrower) <= o.terms.borrowers[borrower])
                             && var taken := Adjust(old(funds), borrower, collateralAsset, 0 - collateral);
                             && taken.Some? && funds == Pay(taken.value, borrower, o.asset, amount)
    {
      hide Sum, Held, Adjust, Balance, Pay, Agree;
      if id !in offers {
        return None;
      }
      var o := offers[id];
      OfferIds(State(), id);
      if collateralAsset in o.terms.acceptable {
        EnoughCollateral(o, amount, collateralAsset, collateral);
      }
      if !MayBorrow(o, Summary(summaries, id, borrower), borrower, amount, collateralAsset, collateral, maxFeeRate) {
        return None;
      }
      var price := o.terms.acceptable[collateralAsset];
      var taken := Adjust(funds, borrower, collateralAsset, 0 - collateral);
      if taken.None? {
        return None;
      }
      var d := Deal(borrower, id, o.asset, amount, collateralAsset, collateral, o.terms.feeRate);
      LendAgrees(State(), d, price);
      forall a { LendKeepsTotal(funds, State(), d, price, a); }
      funds := Pay(taken.value, borrower, o.asset, amount);
      offers := offers[id := o.(current := o.current - amount)];
      deals := deals[nextId := d];
      summaries := Borrowed(summaries, id, borrower, amount);
      acceptedAt := acceptedAt[nextId := price];
      deal := Some(nextId);
      nextId := nextId + 1;
    }

    /** `credit_deal_repay`: its "Internal error" assertions cannot fail. */
    method RepayDeal(account: Account, id: nat, repay: nat, fee: nat) returns (ok: bool)
      requires Valid()
      modifies this`offers, this`deals, this`summaries, this`funds
      ensures Valid() && (forall a :: Total(a) == old(Total(a))) && (old(NoneEmptied()) ==> NoneEmptied())
      ensures ok <==> id in old(deals) && old(deals)[id].borrower == account && repay <= old(deals)[id].debt
                      && fee >= Fee(repay, old(deals)[id].feeRate)
                      && Balance(old(funds), account, old(deals)[id].asset) >= repay + fee
      ensures !ok ==> State() == old(State()) && funds == old(funds)
      ensures ok ==> (id in deals <==> repay < old(deals)[id].debt) && deals - {id} == old(deals) - {id}
      ensures ok ==> old(deals)[id].offer in old(offers) && 0 < old(deals)[id].debt
      ensures ok ==> var d := old(deals)[id];
                     var o := old(offers)[d.offer];
                     && offers == old(offers)[d.offer := o.(total := o.total + fee, current := o.current + repay + fee)]
                     && ReleasedBy(d, repay) <= d.collateral
                     && deals == Lowered(old(deals), id, repay, ReleasedBy(d, repay))
                     && var taken := Adjust(old(funds), account, d.asset, 0 - (repay + fee));
                     && taken.Some? && funds == Pay(taken.value, account, d.collateralAsset, ReleasedBy(d, repay))
    {
      hide Sum, Held, Adjust, Balance, Pay, Agree, Released, Fee;
      if !(id in deals && deals[id].borrower == account && repay <= deals[id].debt
           && fee >= Fee(repay, deals[id].feeRate)) {
        return false;
      }
      var d := deals[id];
      var taken := Adjust(funds, account, d.asset, 0 - (repay + fee));
      if taken.None? {
        return false;
      }
      SettleIsDefined(State(), id, repay);
      var o := offers[d.offer];
      var next := o.(total := o.total + fee, current := o.current + repay + fee);
      SettleAgrees(State(), id, repay, next);
      forall a { RepayKeepsTotal(funds, State(), id, repay, fee, next, a); }
      var released := ReleasedBy(d, repay);
      offers := offers[d.offer := next];
      summaries := PaidBack(summaries, d.offer, account, repay);
      deals := Lowered(deals, id, repay, released);
      funds := Pay(taken.value, account, d.collateralAsset, released);
      ok := true;
    }

    /**
     * A deal past its time.  If its automatic repayment is affordable the borrower repays it in full
     * and gets the collateral.  If partial repayment is allowed the borrower repays what is
     * affordable and gets its share.  The lender takes what collateral is left for what is unpaid.
     */
    method ExpireDeal(id: nat, auto: AutoRepay)
      requires Valid() && id in deals
      modifies this`offers, this`deals, this`summaries, this`funds
      ensures Valid() && forall a :: Total(a) == old(Total(a))
      ensures deals == old(deals) - {id}
      ensures old(deals)[id].debt > 0 && old(deals)[id].collateral > 0 && old(deals)[id].offer in old(offers)
      ensures var d := old(deals)[id];
              var fee, balance := Fee(d.debt, d.feeRate), Balance(old(funds), d.borrower, d.asset);
              if auto.NoAuto? || (auto.OnlyFull? && balance < d.debt + fee) then
                Ended(old(offers), old(funds), d, 0, 0, 0, offers, funds)
              else if balance >= d.debt + fee then
                Ended(old(offers), old(funds), d, d.debt, fee, d.collateral, offers, funds)
              else
                var repay := AffordableRepay(balance, d);
                Ended(old(offers), old(funds), d, repay, Fee(repay, d.feeRate), Released(repay, d.debt, d.collateral),
                      offers, funds)
    {
      hide Agree, TotalOf, Fee, Released, AffordableRepay, Balance, Adjust, Pay;
      SummaryCoversDeal(State(), id);
      hide Ended, Repaid;
      ghost var d := deals[id];
      var repay, fee, released := RepayAutomatically(id, auto);
      ghost var offersThen, fundsThen := offers, funds;
      if id in deals {
        Seize(id);
      }
      RepaidThenSeized(old(offers), old(funds), d, repay, fee, released, offersThen, fundsThen, offers, funds);
    }

    /**
     * The automatic repayment of a deal past its time: none when it is not asked for or the borrower
     * cannot afford it, else all of it, or, where that is allowed, what the borrower can afford.
     */
    method RepayAutomatically(id: nat, auto: AutoRepay) returns (repay: nat, fee: nat, released: nat)
      requires Valid() && id in deals
      modifies this`offers, this`deals, this`summaries, this`funds
      ensures Valid() && forall a :: Total(a) == old(Total(a))
      ensures old(deals)[id].debt > 0 && deals - {id} == old(deals) - {id}
      ensures var d := old(deals)[id];
              && repay <= d.debt && released <= d.collateral && d.offer in old(offers)
              && (id in deals <==> repay < d.debt)
              && (id in deals ==> deals[id] == d.(debt := d.debt - repay, collateral := d.collateral - released))
              && Repaid(old(offers), old(funds), d, repay, fee, released, offers, funds)
      ensures var d := old(deals)[id];
              var full, balance := Fee(d.debt, d.feeRate), Balance(old(funds), d.borrower, d.asset);
              if auto.NoAuto? || (auto.OnlyFull? && balance < d.debt + full) then
                repay == fee == released == 0
              else if balance >= d.debt + full then
                repay == d.debt && fee == full && released == d.collateral
              else
                && repay == AffordableRepay(balance, d) && fee == Fee(repay, d.feeRate)
                && released == Released(repay, d.debt, d.collateral) && id in deals
    {
      hide Agree, TotalOf, Fee, Released, AffordableRepay, Balance, Adjust, Pay;
      var d := deals[id];
      SummaryCoversDeal(State(), id);
      repay, fee, released := 0, 0, 0;
      if !auto.NoAuto? {
        var full := Fee(d.debt, d.feeRate);
        var balance := Balance(funds, d.borrower, d.asset);
        if auto.OnlyFull? || balance >= d.debt + full {
          var ok := RepayDeal(d.borrower, id, d.debt, full);
          if ok {
            repay, fee, released := d.debt, full, d.collateral;
          }
        } else {
          AffordableRepayFits(balance, d);
          repay := AffordableRepay(balance, d);
          fee := Fee(repay, d.feeRate);
          released := Released(repay, d.debt, d.collateral);
          var ok := RepayDeal(d.borrower, id, repay, fee);
          assert ok && id in deals;
        }
      }
    }

    /** The unpaid part of a deal is written off and its collateral goes to the lender. */
    method Seize(id: nat)
      requires Valid() && id in deals
      modifies this`offers, this`deals, this`summaries, this`funds
      ensures Valid() && forall a :: Total(a) == old(Total(a))
      ensures deals == old(deals) - {id} && old(deals)[id].offer in old(offers)
      ensures var d := old(deals)[id]; var o := old(offers)[d.offer];
              && o.total - d.debt >= o.current
              && offers == old(offers)[d.offer := o.(total := o.total - d.debt)]
              && funds == Pay(old(funds), o.owner, d.collateralAsset, d.collateral)
    {
      hide Sum, Held, Adjust, Balance, Pay, Agree, Released;
      var d := deals[id];
      SettleIsDefined(State(), id, d.debt);
      var o := offers[d.offer];
      var next := o.(total := o.total - d.debt);
      SettleAgrees(State(), id, d.debt, next);
      forall a { SeizeKeepsTotal(funds, State(), id, next, a); }
      offers := offers[d.offer := next];
      summaries := PaidBack(summaries, d.offer, d.borrower, d.debt);
      funds := Pay(funds, o.owner, d.collateralAsset, d.collateral);
      deals := deals - {id};
    }

    /** One operation or one expiry. */
    method Step(c: Command) returns (defensiveFailure: bool)
      requires Valid()
      modifies this`offers, this`deals, this`summaries, this`funds, this`nextId, this`acceptedAt
      ensures Valid() && forall a :: Total(a) == old(Total(a))
      ensures old(NoneEmptied()) && !c.Expire? ==> NoneEmptied()
      ensures old(NoneEmptied()) ==> !defensiveFailure
      ensures defensiveFailure <==> c.Update? && c.offer in old(offers) && old(offers)[c.offer].owner == c.owner
                                    && c.terms.Valid() && old(offers)[c.offer].total == 0 && c.delta.None?
      ensures c.Expire? ==> deals == old(deals) - {c.deal}
      ensures KeepsPrices(old(State()), State())
    {
      hide Agree, TotalOf;
      defensiveFailure := false;
      match c
      case Create(owner, asset, balance, terms) =>
        var ok := CreateOffer(owner, asset, balance, terms);
      case Delete(owner, offer) =>
        var ok := DeleteOffer(owner, offer);
      case Update(owner, offer, delta, terms) =>
        var r := UpdateOffer(owner, offer, delta, terms);
        defensiveFailure := r.DefensiveCheckFailed?;
      case Accept(borrower, offer, amount, collateralAsset, collateral, maxFeeRate) =>
        var deal := AcceptOffer(borrower, offer, amount, collateralAsset, collateral, maxFeeRate);
      case Repay(account, deal, repay, fee) =>
        var ok := RepayDeal(account, deal, repay, fee);
      case Expire(deal, auto) =>
        if deal in deals {
          ExpireDeal(deal, auto);
        }
    }

    /**
     * Whole runs: the books agree, assets are conserved, no deal gets thinner than the price it was
     * accepted at, and no balance assertion fails while no deal expires.
     */
    method Run(commands: seq<Command>) returns (defensiveFailure: bool)
      requires Valid()
      modifies this`offers, this`deals, this`summaries, this`funds, this`nextId, this`acceptedAt
      ensures Valid() && forall a :: Total(a) == old(Total(a))
      ensures old(NoneEmptied()) && (forall i :: 0 <= i < |commands| ==> !commands[i].Expire?) ==> !defensiveFailure
      ensures KeepsPrices(old(State()), State())
    {
      hide Agree, TotalOf;
      defensiveFailure := false;
      for i := 0 to |commands|
        invariant Valid() && (forall a :: Total(a) == old(Total(a))) && KeepsPrices(old(State()), State())
        invariant old(NoneEmptied()) && (forall j :: 0 <= j < i ==> !commands[j].Expire?) ==>
                  !defensiveFailure && NoneEmptied()
      {
        var failed := Step(commands[i]);
        defensiveFailure := defensiveFailure || failed;
      }
    }
  }

  /** An offer emptied by an expired deal can no longer have its terms updated. */
  method EmptiedOfferRefusesUpdate() returns (r: UpdateResult)
    ensures r.DefensiveCheckFailed?
  {
    hide Sum, Agree, TotalOf, MulUp;
    var terms := Terms(0, 0, true, map[1 := Price(1, 1)], map[]);
    var m := new CreditMarket(map[(7, 0) := 5, (8, 1) := 5]);
    var made := m.CreateOffer(7, 0, 5, terms);
    assert made && m.offers[0] == Offer(7, 0, 5, 5, terms);
    assert MulUp(5, Price(1, 1)) == 5 by { UpIsLeast(5, Price(1, 1), 5); }
    assert MayBorrow(m.offers[0], 0, 8, 5, 1, 5, 0);
    var deal := m.AcceptOffer(8, 0, 5, 1, 5, 0);
    assert deal == Some(1);
    m.Seize(1);
    r := m.UpdateOffer(7, 0, None, terms);
  }

  /** What a repayment means for the offer and the borrower. */
  ghost predicate Repaid(offers: map<nat, Offer>, funds: Funds, d: Deal, repay: nat, fee: nat, released: nat,
                         offers': map<nat, Offer>, funds': Funds)
  {
    && d.offer in offers
    && var o := offers[d.offer];
    && offers' == offers[d.offer := o.(total := o.total + fee, current := o.current + repay + fee)]
    && forall w, a ::
         Balance(funds', w, a)
         == Balance(funds, w, a) - (if w == d.borrower && a == d.asset then repay + fee else 0)
            + (if w == d.borrower && a == d.collateralAsset then released else 0)
  }

  /**
   * What the end of a deal means for its offer and the two accounts: the borrower paid `repay` and
   * `fee` and got `released`, the offer got both and wrote the rest off, and the lender got the rest
   * of the collateral.
   */
  ghost predicate Ended(offers: map<nat, Offer>, funds: Funds, d: Deal, repay: nat, fee: nat, released: nat,
                        offers': map<nat, Offer>, funds': Funds)
  {
    && d.offer in offers && repay <= d.debt && released <= d.collateral
    && d.offer in offers'
    && offers' - {d.offer} == offers - {d.offer}
    && var o := offers[d.offer];
    && offers'[d.offer].total == o.total + fee - (d.debt - repay)
    && offers'[d.offer].current == o.current + repay + fee
    && (offers'[d.offer].owner, offers'[d.offer].asset, offers'[d.offer].terms) == (o.owner, o.asset, o.terms)
    && forall w, a ::
         Balance(funds', w, a)
         == Balance(funds, w, a) - (if w == d.borrower && a == d.asset then repay + fee else 0)
            + (if w == d.borrower && a == d.collateralAsset then released else 0)
            + (if w == o.owner && a == d.collateralAsset then d.collateral - released else 0)
  }

  lemma RepaidThenSeized(offers: map<nat, Offer>, funds: Funds, d: Deal, repay: nat, fee: nat, released: nat,
                         offers1: map<nat, Offer>, funds1: Funds, offers2: map<nat, Offer>, funds2: Funds)
    requires Repaid(offers, funds, d, repay, fee, released, offers1, funds1)
    requires repay <= d.debt && released <= d.collateral
    requires if repay == d.debt then released == d.collateral && offers2 == offers1 && funds2 == funds1
             else && d.offer in offers1
                  && var o := offers1[d.offer];
                  && o.total - (d.debt - repay) >= o.current
                  && offers2 == offers1[d.offer := o.(total := o.total - (d.debt - repay))]
                  && funds2 == Pay(funds1, o.owner, d.collateralAsset, d.collateral - released)
    ensures Ended(offers, funds, d, repay, fee, released, offers2, funds2)
  {
    hide Balance, Pay, Adjust;
  }

  // ----- totals

  lemma OfferIds(k: Books, id: nat)
    requires Agree(k) && id in k.offers
    ensures id < k.nextId && k.offers[id].terms.Valid()
  {
  }

  lemma LendKeepsTotal(f: Funds, k: Books, d: Deal, price: Price, a: Asset)
    requires Agree(k) && d.offer in k.offers && d.debt <= k.offers[d.offer].current
    requires k.offers[d.offer].asset == d.asset
    requires Adjust(f, d.borrower, d.collateralAsset, 0 - d.collateral).Some?
    ensures var taken := Adjust(f, d.borrower, d.collateralAsset, 0 - d.collateral).value;
            TotalOf(Pay(taken, d.borrower, d.asset, d.debt), Lend(k, d, price), a) == TotalOf(f, k, a)
  {
    hide Sum, Held, Adjust, Balance, Pay, Agree, InOffer, By, AsCollateral;
    var taken := Adjust(f, d.borrower, d.collateralAsset, 0 - d.collateral).value;
    AdjustMovesTotal(f, d.borrower, d.collateralAsset, 0 - d.collateral, a);
    AdjustMovesTotal(taken, d.borrower, d.asset, d.debt, a);
    NewId(k);
    DealWritten(k.deals, k.nextId, d);
    DealWeights(k.nextId, d);
    OfferWritten(k.offers, d.offer, k.offers[d.offer].(current := k.offers[d.offer].current - d.debt));
  }

  lemma RepayKeepsTotal(f: Funds, k: Books, id: nat, repay: nat, fee: nat, o: Offer, a: Asset)
    requires Agree(k) && id in k.deals && repay <= k.deals[id].debt && k.deals[id].offer in k.offers
    requires var was := k.offers[k.deals[id].offer];
             o == was.(total := was.total + fee, current := was.current + repay + fee)
    requires Adjust(f, k.deals[id].borrower, k.deals[id].asset, 0 - (repay + fee)).Some?
    ensures 0 < k.deals[id].debt && ReleasedBy(k.deals[id], repay) <= k.deals[id].collateral
    ensures (k.deals[id].offer, k.deals[id].borrower) in k.summaries
    ensures repay <= k.summaries[(k.deals[id].offer, k.deals[id].borrower)]
    ensures var d := k.deals[id];
            var taken := Adjust(f, d.borrower, d.asset, 0 - (repay + fee)).value;
            TotalOf(Pay(taken, d.borrower, d.collateralAsset, ReleasedBy(d, repay)), Settle(k, id, repay, o), a)
            == TotalOf(f, k, a)
  {
    hide Sum, Held, Adjust, Balance, Pay, Agree, Released, Lowered, PaidBack;
    var d := k.deals[id];
    SettleIsDefined(k, id, repay);
    var taken := Adjust(f, d.borrower, d.asset, 0 - (repay + fee)).value;
    AdjustMovesTotal(f, d.borrower, d.asset, 0 - (repay + fee), a);
    AdjustMovesTotal(taken, d.borrower, d.collateralAsset, ReleasedBy(d, repay), a);
    LoweredMoves(k.deals, id, repay, ReleasedBy(d, repay));
    OfferWritten(k.offers, d.offer, o);
  }

  lemma SeizeKeepsTotal(f: Funds, k: Books, id: nat, o: Offer, a: Asset)
    requires Agree(k) && id in k.deals && k.deals[id].offer in k.offers
    requires o.asset == k.offers[k.deals[id].offer].asset && o.current == k.offers[k.deals[id].offer].current
    ensures 0 < k.deals[id].debt
    ensures (k.deals[id].offer, k.deals[id].borrower) in k.summaries
    ensures k.deals[id].debt <= k.summaries[(k.deals[id].offer, k.deals[id].borrower)]
    ensures var d := k.deals[id];
            TotalOf(Pay(f, o.owner, d.collateralAsset, d.collateral), Settle(k, id, d.debt, o), a) == TotalOf(f, k, a)
  {
    hide Sum, Held, Adjust, Balance, Pay, Agree, Released, Lowered, PaidBack;
    var d := k.deals[id];
    SettleIsDefined(k, id, d.debt);
    AdjustMovesTotal(f, o.owner, d.collateralAsset, d.collateral, a);
    LoweredMoves(k.deals, id, d.debt, d.collateral);
    OfferWritten(k.offers, d.offer, o);
  }

  /** What one deal adds to each of the sums. */
  lemma DealWeights(id: nat, d: Deal)
    ensures forall o :: InOffer(o)(id, d) == if d.offer == o then d.debt else 0
    ensures forall o, b :: By(o, b)(id, d) == if d.offer == o && d.borrower == b then d.debt else 0
    ensures forall a :: AsCollateral(a)(id, d) == if d.collateralAsset == a then d.collateral else 0
  {
  }
}

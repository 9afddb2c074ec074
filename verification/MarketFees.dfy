/**
 * Market fees and how they are shared.
 */
module MarketFees {
  import opened Ledger
  import opened Rounding

  const FULL_PERCENT: nat := 10000
  const CORE: Asset := 0

  /** `detail::calculate_percent`. */
  function Percent(value: nat, percent: nat): (r: nat)
    ensures percent <= FULL_PERCENT ==> r <= value
    ensures percent == FULL_PERCENT ==> r == value
    ensures percent == 0 || value == 0 ==> r == 0
  {
    PercentBound(value, percent);
    value * percent / FULL_PERCENT
  }

  lemma PercentBound(value: nat, percent: nat)
    ensures percent <= FULL_PERCENT ==> value * percent / FULL_PERCENT <= value
    ensures percent == FULL_PERCENT ==> value * percent / FULL_PERCENT == value
  {
    if percent <= FULL_PERCENT {
      MulLe(percent, FULL_PERCENT, value);
      DivBounds(value * percent, FULL_PERCENT);
    }
  }

  /** `r` is the given percentage of `value`, rounded down. */
  ghost predicate Share(r: nat, value: nat, percent: nat) {
    r * FULL_PERCENT <= value * percent < (r + 1) * FULL_PERCENT
  }

  lemma PercentIsShare(value: nat, percent: nat, r: nat)
    ensures Share(r, value, percent) <==> r == Percent(value, percent)
  {
    var p := Percent(value, percent);
    DivBounds(value * percent, FULL_PERCENT);
    if r < p {
      MulLe(r + 1, p, FULL_PERCENT);
    } else if p < r {
      MulLe(p + 1, r, FULL_PERCENT);
    }
  }

  // ----- the fee on what an order receives

  datatype FeeRule = FeeRule(charges: bool, makerPercent: nat, takerPercent: Option<nat>, maxFee: nat) {
    ghost predicate Valid() {
      makerPercent <= FULL_PERCENT && (takerPercent.Some? ==> takerPercent.value <= FULL_PERCENT)
    }
  }

  /** `database::calculate_market_fee`.  With percents up to 100% the fee never exceeds the trade. */
  function MarketFee(rule: FeeRule, amount: nat, isMaker: bool): (fee: nat)
    requires rule.Valid()
    ensures fee <= amount && fee <= rule.maxFee
    ensures isMaker && rule.makerPercent == 0 ==> fee == 0
    ensures !isMaker && rule.takerPercent == Some(0) ==> fee == 0
  {
    if !rule.charges then 0
    else if isMaker && rule.makerPercent == 0 then 0
    else if !isMaker && rule.takerPercent == Some(0) then 0
    else
      var percent := if !isMaker && rule.takerPercent.Some? then rule.takerPercent.value else rule.makerPercent;
      var fee := Percent(amount, percent);
      if fee > rule.maxFee then rule.maxFee else fee
  }

  /** The fee is the maker's or the taker's percentage of the amount, up to the asset's maximum. */
  lemma MarketFeeIsShare(rule: FeeRule, amount: nat, isMaker: bool)
    requires rule.Valid()
    ensures !rule.charges ==> MarketFee(rule, amount, isMaker) == 0
    ensures rule.charges ==>
              var percent := if !isMaker && rule.takerPercent.Some? then rule.takerPercent.value else rule.makerPercent;
              forall s: nat :: Share(s, amount, percent) ==>
                MarketFee(rule, amount, isMaker) == if s > rule.maxFee then rule.maxFee else s
  {
    hide Share, Percent;
    var percent := if !isMaker && rule.takerPercent.Some? then rule.takerPercent.value else rule.makerPercent;
    forall s: nat ensures Share(s, amount, percent) <==> s == Percent(amount, percent) {
      PercentIsShare(amount, percent, s);
    }
  }

  // ----- who gets the fee

  /** What `pay_market_fees` reads about the chain, the asset and the account that pays. */
  datatype Sharing = Sharing(
    networkPercent: nat,
    rewardsAllowed: bool,     // a seller is known and its registrar is on the asset's sharing list
    rewardPercent: nat,
    registrar: Account,
    registrarAuthorized: bool,
    referrer: Account,
    referrerAuthorized: bool,
    referrerPercent: nat)
  {
    ghost predicate Valid() {
      networkPercent <= FULL_PERCENT && rewardPercent <= FULL_PERCENT && referrerPercent <= FULL_PERCENT
    }
  }

  datatype Shares = Shares(network: nat, referrer: nat, registrar: nat, issuer: nat)

  function Reward(rest: nat, rule: Sharing): (r: nat)
    requires rule.Valid()
    ensures r <= rest
  {
    if rule.rewardsAllowed && rule.registrarAuthorized then Percent(rest, rule.rewardPercent) else 0
  }

  function ReferrerReward(reward: nat, rule: Sharing): (r: nat)
    requires rule.Valid()
    ensures r <= reward
  {
    if rule.referrer != rule.registrar && rule.referrerAuthorized
    then Percent(reward, rule.referrerPercent) else 0
  }

  /** The four shares of a fee; they add up to it with nothing lost to rounding. */
  function Split(fee: nat, rule: Sharing): (s: Shares)
    requires rule.Valid()
    ensures s.network + s.referrer + s.registrar + s.issuer == fee
    ensures rule.registrar == rule.referrer ==> s.referrer == 0
    ensures !rule.rewardsAllowed || !rule.registrarAuthorized ==> s.referrer + s.registrar == 0
  {
    var network := Percent(fee, rule.networkPercent);
    var rest := fee - network;
    var reward := Reward(rest, rule);
    var referrer := ReferrerReward(reward, rule);
    Shares(network, referrer, reward - referrer, rest - reward)
  }

  /** Each share is its percentage of what is left, and only an authorised registrar opens the reward. */
  lemma SplitIsShares(fee: nat, rule: Sharing)
    requires rule.Valid()
    ensures var s := Split(fee, rule);
            && Share(s.network, fee, rule.networkPercent)
            && (if rule.rewardsAllowed && rule.registrarAuthorized
                then Share(s.referrer + s.registrar, fee - s.network, rule.rewardPercent)
                else s.referrer + s.registrar == 0)
            && (if rule.referrer != rule.registrar && rule.referrerAuthorized
                then Share(s.referrer, s.referrer + s.registrar, rule.referrerPercent)
                else s.referrer == 0)
  {
    hide Share, Percent;
    var s := Split(fee, rule);
    PercentIsShare(fee, rule.networkPercent, s.network);
    PercentIsShare(fee - s.network, rule.rewardPercent, s.referrer + s.registrar);
    PercentIsShare(s.referrer + s.registrar, rule.referrerPercent, s.referrer);
  }

  /** The places a market fee in one asset ends up. */
  class FeePots {
    var vesting: map<Account, nat>
    var accumulated: nat
    const committee: Account

    constructor (committee: Account)
      ensures Total() == 0 && this.committee == committee
    {
      vesting, accumulated, this.committee := map[], 0, committee;
    }

    ghost function Total(): (t: int)
      reads this
    {
      accumulated + Sum(vesting, Amount)
    }

    /** `deposit_market_fee_vesting_balance`. */
    method Deposit(who: Account, amount: nat)
      modifies this`vesting
      ensures vesting == Deposited(old(vesting), who, amount)
      ensures Total() == old(Total()) + amount
    {
      if amount == 0 {
        return;
      }
      var vested: nat := Vested(vesting, who) + amount;
      SumUpdate(vesting, who, vested, Amount);
      vesting := vesting[who := vested];
    }

    /** The part of `pay_market_fees` that shares what the network left. */
    method PayReward(rest: nat, rule: Sharing) returns (reward: nat)
      requires rule.Valid() && rest > 0
      modifies this`vesting
      ensures reward == Reward(rest, rule)
      ensures Total() == old(Total()) + reward
      ensures vesting == Deposited(Deposited(old(vesting), rule.referrer, ReferrerReward(reward, rule)),
                                   rule.registrar, reward - ReferrerReward(reward, rule))
    {
      reward := 0;
      if rule.rewardsAllowed && rule.rewardPercent > 0 {
        var value := Percent(rest, rule.rewardPercent);
        if value > 0 && rule.registrarAuthorized {
          reward := value;
          var registrarReward := reward;
          if rule.referrer != rule.registrar {
            var referrerReward := Percent(reward, rule.referrerPercent);
            if referrerReward > 0 && rule.referrerAuthorized {
              registrarReward := registrarReward - referrerReward;
              Deposit(rule.referrer, referrerReward);
            }
          }
          if registrarReward > 0 {
            Deposit(rule.registrar, registrarReward);
          }
        }
      }
    }

    /** `pay_market_fees`: pays the shares out one after the other and returns the fee charged. */
    method PayMarketFees(fee: nat, rule: Sharing) returns (charged: nat)
      requires rule.Valid()
      modifies this
      ensures charged == fee
      ensures Total() == old(Total()) + fee
      ensures accumulated == old(accumulated) + Split(fee, rule).issuer
      ensures vesting == Deposited(Deposited(Deposited(old(vesting), committee, Split(fee, rule).network),
                                   rule.referrer, Split(fee, rule).referrer),
                                   rule.registrar, Split(fee, rule).registrar)
    {
      hide Sum, Percent;
      charged := fee;
      var issuerFees := fee;
      if issuerFees > 0 && rule.networkPercent > 0 {
        var network := Percent(issuerFees, rule.networkPercent);
        if network > 0 {
          Deposit(committee, network);
          issuerFees := issuerFees - network;
        }
      }
      if issuerFees > 0 {
        var reward := PayReward(issuerFees, rule);
        if issuerFees > reward {
          accumulated := accumulated + (issuerFees - reward);
        }
      }
    }
  }

  function Amount(who: Account, amount: nat): (r: int) {
    amount
  }

  function Vested(vesting: map<Account, nat>, who: Account): (v: nat) {
    if who in vesting then vesting[who] else 0
  }

  function Deposited(vesting: map<Account, nat>, who: Account, amount: nat): (r: map<Account, nat>) {
    if amount == 0 then vesting else vesting[who := Vested(vesting, who) + amount]
  }
}

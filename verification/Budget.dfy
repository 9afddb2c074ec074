/**
 * The maintenance budget: how much of the core asset's reserve each interval may release, and what
 * the witnesses and workers get of it.
 */
module Budget {
  import opened Rounding

  const CYCLE_RATE: nat := 17
  const CYCLE_SCALE: nat := 0x1_0000_0000
  const SECONDS_PER_DAY: nat := 86400

  /** A refund worker returns its pay to the reserve; the others keep it or send it to an account. */
  datatype Worker = Worker(dailyPay: nat, refunds: bool)

  datatype Params = Params(payPerBlock: nat, blockInterval: nat, workerBudgetPerDay: nat)

  function Min(a: nat, b: nat): (r: nat) {
    if a <= b then a else b
  }

  // ----- the size of the budget

  /** The budget of an interval of `dt` seconds: a fixed rate of the reserve, rounded up. */
  function TotalBudget(reserve: nat, dt: nat): (r: nat) {
    Min(MulUp(reserve, Price(CYCLE_SCALE, dt * CYCLE_RATE)), reserve)
  }

  /** No part of the reserve is out of reach, and what stays is at least the rate's complement less one. */
  lemma BudgetIsBounded(reserve: nat, dt: nat)
    ensures TotalBudget(reserve, dt) <= reserve
    ensures TotalBudget(reserve, dt) > 0 <==> reserve > 0 && dt > 0
    ensures (reserve - TotalBudget(reserve, dt)) * CYCLE_SCALE > reserve * (CYCLE_SCALE - dt * CYCLE_RATE) - CYCLE_SCALE
  {
    hide MulDown, MulUp;
    var rate := dt * CYCLE_RATE;
    var up := MulUp(reserve, Price(CYCLE_SCALE, rate));
    assert up * CYCLE_SCALE - CYCLE_SCALE < reserve * rate <= up * CYCLE_SCALE;
    assert reserve * (CYCLE_SCALE - rate) == reserve * CYCLE_SCALE - reserve * rate;
    MulLe(TotalBudget(reserve, dt), up, CYCLE_SCALE);
    if reserve > 0 && dt > 0 {
      MulLe(1, reserve, rate);
    }
  }

  /** It is the reserve times the rate, rounded up, unless that is more than the reserve. */
  lemma BudgetIsRate(reserve: nat, dt: nat)
    ensures if reserve * (dt * CYCLE_RATE) <= reserve * CYCLE_SCALE
            then RoundedUp(TotalBudget(reserve, dt), reserve, Price(CYCLE_SCALE, dt * CYCLE_RATE))
            else TotalBudget(reserve, dt) == reserve
  {
    hide MulUp, RoundedUp;
    UpIsRounded(reserve, Price(CYCLE_SCALE, dt * CYCLE_RATE));
    UpIsLeast(reserve, Price(CYCLE_SCALE, dt * CYCLE_RATE), reserve);
  }

  /** A longer interval, or a larger reserve, never releases less. */
  lemma BudgetIsMonotone(reserve: nat, dt: nat, reserve': nat, dt': nat)
    requires reserve <= reserve' && dt <= dt'
    ensures TotalBudget(reserve, dt) <= TotalBudget(reserve', dt')
  {
    hide MulDown, MulUp;
    UpIsMonotone(reserve, reserve', Price(CYCLE_SCALE, dt * CYCLE_RATE));
    var up := MulUp(reserve', Price(CYCLE_SCALE, dt' * CYCLE_RATE));
    MulLe(dt * CYCLE_RATE, dt' * CYCLE_RATE, reserve');
    UpIsLeast(reserve', Price(CYCLE_SCALE, dt * CYCLE_RATE), up);
  }

  // ----- the payroll

  /** What a worker asks for over `passed` seconds. */
  function Request(w: Worker, passed: nat): (r: nat) {
    MulDown(w.dailyPay, Price(SECONDS_PER_DAY, passed))
  }

  lemma RequestIsPay(w: Worker, passed: nat)
    ensures RoundedDown(Request(w, passed), w.dailyPay, Price(SECONDS_PER_DAY, passed))
  {
    DownIsRounded(w.dailyPay, Price(SECONDS_PER_DAY, passed));
  }

  /** What the first `n` workers ask for together. */
  function Requests(workers: seq<Worker>, passed: nat, n: nat): (r: nat)
    requires n <= |workers|
  {
    if n == 0 then 0 else Requests(workers, passed, n - 1) + Request(workers[n - 1], passed)
  }

  /** What worker `i` gets: its request, as far as those preferred to it leave anything. */
  function PayOf(workers: seq<Worker>, passed: nat, budget: nat, i: nat): (r: nat)
    requires i < |workers|
  {
    var before := Requests(workers, passed, i);
    if before >= budget then 0 else Min(budget - before, Request(workers[i], passed))
  }

  /** What the first `n` workers get, either those that refund it or those that keep it. */
  function Payroll(workers: seq<Worker>, passed: nat, budget: nat, refunds: bool, n: nat): (r: nat)
    requires n <= |workers|
  {
    if n == 0 then 0
    else
      Payroll(workers, passed, budget, refunds, n - 1)
      + (if workers[n - 1].refunds == refunds then PayOf(workers, passed, budget, n - 1) else 0)
  }

  /** A worker gets less than it asks for only when nothing is left for those after it. */
  lemma PreferredFirst(workers: seq<Worker>, passed: nat, budget: nat, i: nat, j: nat)
    requires i < j < |workers|
    ensures PayOf(workers, passed, budget, i) <= Request(workers[i], passed)
    ensures PayOf(workers, passed, budget, i) < Request(workers[i], passed) ==> PayOf(workers, passed, budget, j) == 0
  {
    hide Request;
    RequestsGrow(workers, passed, i + 1, j);
  }

  lemma {:induction false} RequestsGrow(workers: seq<Worker>, passed: nat, i: nat, n: nat)
    requires i <= n <= |workers|
    ensures Requests(workers, passed, i) <= Requests(workers, passed, n)
  {
    hide Request;
    if i < n {
      RequestsGrow(workers, passed, i, n - 1);
    }
  }

  /** The workers together get all they ask for, or all there is. */
  lemma {:induction false} PayrollIsExact(workers: seq<Worker>, passed: nat, budget: nat, n: nat)
    requires n <= |workers|
    ensures Payroll(workers, passed, budget, true, n) + Payroll(workers, passed, budget, false, n)
         == Min(budget, Requests(workers, passed, n))
  {
    hide Request;
    if n > 0 {
      PayrollIsExact(workers, passed, budget, n - 1);
    }
  }

  /** Once the budget is used up the remaining workers change nothing. */
  lemma {:induction false} NothingLeft(workers: seq<Worker>, passed: nat, budget: nat, refunds: bool, i: nat, n: nat)
    requires i <= n <= |workers| && budget <= Requests(workers, passed, i)
    ensures budget <= Requests(workers, passed, n)
    ensures Payroll(workers, passed, budget, refunds, n) == Payroll(workers, passed, budget, refunds, i)
  {
    hide Request;
    if i < n {
      NothingLeft(workers, passed, budget, refunds, i, n - 1);
    }
  }

  class Core {
    var circulating: nat         // everything held outside the three fields below
    var fees: nat                // accumulated fees
    var witnessBudget: nat
    var supply: int
    var maxSupply: nat
    var lastBudget: nat          // 0 before the first budget

    ghost predicate Valid()
      reads this
    {
      supply == circulating + fees + witnessBudget && supply <= maxSupply
    }

    constructor (circulating: nat, maxSupply: nat)
      requires circulating <= maxSupply
      ensures Valid() && supply == circulating && this.maxSupply == maxSupply
    {
      this.circulating, supply, this.maxSupply := circulating, circulating, maxSupply;
      fees, witnessBudget, lastBudget := 0, 0, 0;
    }

    /** Pays the workers in their order of preference until the budget is used up. */
    method PayWorkers(workers: seq<Worker>, passed: nat, budget: nat) returns (left: nat)
      modifies this`circulating, this`supply
      ensures circulating == old(circulating) + Payroll(workers, passed, budget, false, |workers|)
      ensures supply == old(supply) - Payroll(workers, passed, budget, true, |workers|)
      ensures left == budget - Min(budget, Requests(workers, passed, |workers|))
    {
      hide Request;
      left := budget;
      var i := 0;
      while i < |workers| && left > 0
        invariant i <= |workers|
        invariant left == budget - Min(budget, Requests(workers, passed, i))
        invariant circulating == old(circulating) + Payroll(workers, passed, budget, false, i)
        invariant supply == old(supply) - Payroll(workers, passed, budget, true, i)
      {
        var pay := Min(left, Request(workers[i], passed));
        if workers[i].refunds {
          supply := supply - pay;
        } else {
          circulating := circulating + pay;
        }
        left := left - pay;
        i := i + 1;
      }
      if left == 0 {
        NothingLeft(workers, passed, budget, true, i, |workers|);
        NothingLeft(workers, passed, budget, false, i, |workers|);
      }
    }

    /** The reserve a budget is drawn from: unissued coins, the fees and the unused witness budget. */
    function Reserve(): (r: int)
      reads this
    {
      maxSupply - supply + fees + witnessBudget
    }

    /**
     * `process_budget`: fees and the old witness budget return to the reserve, and no more than the
     * interval's budget leaves it.
     */
    method ProcessBudget(now: nat, toMaintenance: nat, p: Params, workers: seq<Worker>)
      requires Valid() && toMaintenance > 0 && p.blockInterval > 0
      modifies this`circulating, this`fees, this`witnessBudget, this`supply, this`lastBudget
      ensures Valid() && fees == 0 && lastBudget == now
      ensures var dt: nat := if old(lastBudget) == 0 || now <= old(lastBudget) then 0 else now - old(lastBudget);
              && old(Reserve()) >= 0
              && (circulating - old(circulating)) + witnessBudget <= TotalBudget(old(Reserve()), dt)
              && witnessBudget == Min(p.payPerBlock * MulUp(toMaintenance, Price(p.blockInterval, 1)),
                                      TotalBudget(old(Reserve()), dt))
              && (maxSupply - supply) * CYCLE_SCALE > old(Reserve()) * (CYCLE_SCALE - dt * CYCLE_RATE) - CYCLE_SCALE
      ensures circulating >= old(circulating)
      ensures var dt: nat := if old(lastBudget) == 0 || now <= old(lastBudget) then 0 else now - old(lastBudget);
              old(Reserve()) >= 0
              && var rest := TotalBudget(old(Reserve()), dt) - witnessBudget;
              forall day: nat :: RoundedDown(day, p.workerBudgetPerDay, Price(SECONDS_PER_DAY, toMaintenance)) ==>
                rest >= 0 && circulating == old(circulating) + Payroll(workers, dt, Min(day, rest), false, |workers|)
    {
      hide TotalBudget, MulUp, MulDown, Payroll, Requests, RoundedDown;
      var reserve: nat := maxSupply - supply + fees + witnessBudget;
      var dt: nat := if lastBudget == 0 || now <= lastBudget then 0 else now - lastBudget;
      var available := if dt == 0 then 0 else TotalBudget(reserve, dt);
      BudgetIsBounded(reserve, dt);
      ghost var budget: nat := available;
      var blocks := MulUp(toMaintenance, Price(p.blockInterval, 1));
      var forWitnesses := Min(p.payPerBlock * blocks, available);
      available := available - forWitnesses;
      var forWorkers := Min(MulDown(p.workerBudgetPerDay, Price(SECONDS_PER_DAY, toMaintenance)), available);
      WorkersShare(p, toMaintenance);
      var left := PayWorkers(workers, dt, forWorkers);
      PayrollIsExact(workers, dt, forWorkers, |workers|);
      supply := supply + (forWitnesses + forWorkers - left - fees - witnessBudget);
      fees, witnessBudget, lastBudget := 0, forWitnesses, now;
      assert maxSupply - supply >= reserve - budget;
      MulLe(reserve - budget, maxSupply - supply, CYCLE_SCALE);
    }

    lemma WorkersShare(p: Params, toMaintenance: nat)
      ensures forall day: nat :: RoundedDown(day, p.workerBudgetPerDay, Price(SECONDS_PER_DAY, toMaintenance))
                                 ==> day == MulDown(p.workerBudgetPerDay, Price(SECONDS_PER_DAY, toMaintenance))
    {
      hide MulDown, RoundedDown;
      var price := Price(SECONDS_PER_DAY, toMaintenance);
      DownIsRounded(p.workerBudgetPerDay, price);
      forall day: nat | RoundedDown(day, p.workerBudgetPerDay, price)
        ensures day == MulDown(p.workerBudgetPerDay, price)
      {
        OnlyOneDown(day, MulDown(p.workerBudgetPerDay, price), p.workerBudgetPerDay, price);
      }
    }

    /** A signed block moves at most one block's pay out of the witness budget. */
    method PaySigner(payPerBlock: nat)
      requires Valid()
      modifies this`circulating, this`witnessBudget
      ensures Valid() && circulating + witnessBudget == old(circulating + witnessBudget)
      ensures circulating == old(circulating) + Min(payPerBlock, old(witnessBudget))
    {
      var pay := Min(payPerBlock, witnessBudget);
      witnessBudget, circulating := witnessBudget - pay, circulating + pay;
    }

    /** Whole runs: the core asset in circulation and set aside is the supply, which never passes its maximum. */
    method Run(steps: seq<BudgetStep>)
      requires Valid()
      modifies this`circulating, this`fees, this`witnessBudget, this`supply, this`lastBudget
      ensures Valid()
    {
      for i := 0 to |steps|
        invariant Valid()
      {
        match steps[i]
        case Charge(fee) =>
          var paid := Min(fee, circulating);
          circulating, fees := circulating - paid, fees + paid;
        case Sign(payPerBlock) =>
          PaySigner(payPerBlock);
        case Maintain(now, toMaintenance, p, workers) =>
          if toMaintenance > 0 && p.blockInterval > 0 {
            ProcessBudget(now, toMaintenance, p, workers);
          }
      }
    }
  }

  datatype BudgetStep =
    | Charge(fee: nat)
    | Sign(payPerBlock: nat)
    | Maintain(now: nat, toMaintenance: nat, p: Params, workers: seq<Worker>)
}

/**
 * Sums over maps, and the account balances that every operation moves money through.
 */
module Ledger {

  datatype Option<+T> = None | Some(value: T)

  type Account = nat

  // ----- sums over maps

  /** The sum of `w(k, m[k])` over the keys of `m`. */
  ghost function Sum<K, V>(m: map<K, V>, w: (K, V) -> int): (s: int)
  {
    if m == map[] then 0
    else
      var k :| k in m;
      w(k, m[k]) + Sum(m - {k}, w)
  }

  lemma {:induction false} SumWithout<K, V>(m: map<K, V>, k: K, w: (K, V) -> int)
    requires k in m
    ensures Sum(m, w) == w(k, m[k]) + Sum(m - {k}, w)
    decreases |m|
  {
    var j :| j in m && Sum(m, w) == w(j, m[j]) + Sum(m - {j}, w);
    if j != k {
      SumWithout(m - {j}, k, w);
      SumWithout(m - {k}, j, w);
      assert (m - {j}) - {k} == (m - {k}) - {j};
    }
  }

  /** Writing one key changes the sum by exactly the change at that key. */
  lemma SumUpdate<K, V>(m: map<K, V>, k: K, v: V, w: (K, V) -> int)
    ensures Sum(m[k := v], w) == Sum(m, w) + w(k, v) - (if k in m then w(k, m[k]) else 0)
  {
    SumWithout(m[k := v], k, w);
    assert m[k := v] - {k} == m - {k};
    if k in m {
      SumWithout(m, k, w);
    } else {
      assert m - {k} == m;
    }
  }

  lemma {:induction false} SumNonNegative<K, V>(m: map<K, V>, w: (K, V) -> int)
    requires forall k :: k in m ==> w(k, m[k]) >= 0
    ensures Sum(m, w) >= 0
    decreases |m|
  {
    if m != map[] {
      var k :| k in m && Sum(m, w) == w(k, m[k]) + Sum(m - {k}, w);
      SumNonNegative(m - {k}, w);
    }
  }

  /** No single term exceeds a sum of non-negative terms. */
  lemma SumBoundsTerm<K, V>(m: map<K, V>, k: K, w: (K, V) -> int)
    requires k in m
    requires forall j :: j in m ==> w(j, m[j]) >= 0
    ensures w(k, m[k]) <= Sum(m, w)
  {
    SumWithout(m, k, w);
    SumNonNegative(m - {k}, w);
  }

  lemma {:induction false} SumZero<K, V>(m: map<K, V>, w: (K, V) -> int)
    requires forall k :: k in m ==> w(k, m[k]) == 0
    ensures Sum(m, w) == 0
    decreases |m|
  {
    if m != map[] {
      var k :| k in m && Sum(m, w) == w(k, m[k]) + Sum(m - {k}, w);
      SumZero(m - {k}, w);
    }
  }

  // ----- account balances

  type Asset = nat
  type Funds = map<(Account, Asset), nat>

  function Balance(funds: Funds, who: Account, asset: Asset): (b: nat)
  {
    if (who, asset) in funds then funds[(who, asset)] else 0
  }

  function OfAsset(asset: Asset): ((Account, Asset), nat) -> int
  {
    (k: (Account, Asset), v: nat) => if k.1 == asset then v else 0
  }

  /** All of one asset that sits in account balances. */
  ghost function Held(funds: Funds, asset: Asset): (s: int)
  {
    Sum(funds, OfAsset(asset))
  }

  /** `database::adjust_balance`: refuses to take more than the account has. */
  function Adjust(funds: Funds, who: Account, asset: Asset, delta: int): (r: Option<Funds>)
    ensures r.None? <==> Balance(funds, who, asset) + delta < 0
    ensures r.Some? ==> Balance(r.value, who, asset) == Balance(funds, who, asset) + delta
    ensures r.Some? ==>
              forall w: Account, a: Asset :: (w, a) != (who, asset) ==> Balance(r.value, w, a) == Balance(funds, w, a)
  {
    var b := Balance(funds, who, asset) + delta;
    if b < 0 then None else Some(funds[(who, asset) := b])
  }

  /** A payment into an account, which never fails. */
  function Pay(funds: Funds, who: Account, asset: Asset, amount: nat): (r: Funds)
    ensures Adjust(funds, who, asset, amount) == Some(r)
  {
    funds[(who, asset) := Balance(funds, who, asset) + amount]
  }

  /** An adjustment moves the asset's total by `delta` and leaves every other asset alone. */
  lemma AdjustMovesTotal(funds: Funds, who: Account, asset: Asset, delta: int, other: Asset)
    requires Adjust(funds, who, asset, delta).Some?
    ensures Held(Adjust(funds, who, asset, delta).value, other)
         == Held(funds, other) + (if other == asset then delta else 0)
  {
    var b: nat := Balance(funds, who, asset) + delta;
    SumUpdate(funds, (who, asset), b, OfAsset(other));
  }

  /** No account holds more of an asset than all accounts together. */
  lemma BalanceBelowTotal(funds: Funds, who: Account, asset: Asset)
    ensures 0 <= Balance(funds, who, asset) <= Held(funds, asset)
  {
    if (who, asset) in funds {
      SumBoundsTerm(funds, (who, asset), OfAsset(asset));
    } else {
      SumNonNegative(funds, OfAsset(asset));
    }
  }
}

/**
 * Pending transactions and block building: `_push_transaction`, `_generate_block` and the
 * re-pushing of transactions around a new block.
 */
module PendingBlock {
  import opened Ledger

  /** A transaction with the results recorded for it; only `body` matters to its effect. */
  datatype Tx = Tx(body: nat, results: nat)

  /** The chain's rules, as functions of the object state. */
  datatype Rules<!S> = Rules(
    apply: (S, nat) -> Option<(S, nat)>,   // the new state and the results
    known: (S, nat) -> bool,
    size: Tx -> nat)

  /** The state after applying the transactions in order, if they all apply. */
  function Replay<S>(s: S, txs: seq<Tx>, rules: Rules<S>): (r: Option<S>)
    decreases |txs|
  {
    if txs == [] then Some(s)
    else
      var r := rules.apply(s, txs[0].body);
      if r.None? then None else Replay(r.value.0, txs[1..], rules)
  }

  lemma {:induction false} ReplayConcat<S>(s: S, a: seq<Tx>, b: seq<Tx>, rules: Rules<S>)
    ensures Replay(s, a + b, rules)
         == if Replay(s, a, rules).None? then None else Replay(Replay(s, a, rules).value, b, rules)
    decreases |a|
  {
    if a == [] {
      assert a + b == b;
    } else {
      assert (a + b)[1..] == a[1..] + b;
      var r := rules.apply(s, a[0].body);
      if r.Some? {
        ReplayConcat(r.value.0, a[1..], b, rules);
      }
    }
  }

  // ----- transactions pushed again

  /** The state and the pending list after pushing those of `txs` that are unknown and apply. */
  function Repush<S>(s: S, pending: seq<Tx>, txs: seq<Tx>, rules: Rules<S>): (r: (S, seq<Tx>))
    decreases |txs|
  {
    if txs == [] then (s, pending)
    else
      var tx := txs[0];
      var a := rules.apply(s, tx.body);
      if !rules.known(s, tx.body) && a.Some? then
        Repush(a.value.0, pending + [Tx(tx.body, a.value.1)], txs[1..], rules)
      else
        Repush(s, pending, txs[1..], rules)
  }

  lemma {:induction false} RepushConcat<S>(s: S, pending: seq<Tx>, a: seq<Tx>, b: seq<Tx>, rules: Rules<S>)
    ensures var r := Repush(s, pending, a, rules);
            Repush(s, pending, a + b, rules) == Repush(r.0, r.1, b, rules)
    decreases |a|
  {
    if a == [] {
      assert a + b == b;
    } else {
      assert (a + b)[1..] == a[1..] + b;
      var r := rules.apply(s, a[0].body);
      if !rules.known(s, a[0].body) && r.Some? {
        RepushConcat(r.value.0, pending + [Tx(a[0].body, r.value.1)], a[1..], b, rules);
      } else {
        RepushConcat(s, pending, a[1..], b, rules);
      }
    }
  }

  /** Every transaction is unknown and applies when its turn comes. */
  ghost predicate AllNew<S>(s: S, txs: seq<Tx>, rules: Rules<S>)
    decreases |txs|
  {
    txs == [] || var a := rules.apply(s, txs[0].body);
                 !rules.known(s, txs[0].body) && a.Some? && AllNew(a.value.0, txs[1..], rules)
  }

  /** The same transactions, whatever results are recorded for them. */
  ghost predicate SameBodies(a: seq<Tx>, b: seq<Tx>) {
    |a| == |b| && forall i :: 0 <= i < |a| ==> a[i].body == b[i].body
  }

  /**
   * Nothing is lost or reordered when transactions are set aside and pushed again: the pending list
   * is whole exactly when every one of them is still new at its turn.
   */
  lemma {:induction false} RepushKeepsAll<S>(s: S, pending: seq<Tx>, txs: seq<Tx>, rules: Rules<S>)
    ensures var r := Repush(s, pending, txs, rules);
            && |r.1| <= |pending| + |txs|
            && (AllNew(s, txs, rules) <==> |r.1| == |pending| + |txs|)
            && (AllNew(s, txs, rules) ==> SameBodies(r.1, pending + txs) && Replay(s, txs, rules) == Some(r.0))
    decreases |txs|
  {
    if txs != [] {
      var a := rules.apply(s, txs[0].body);
      if !rules.known(s, txs[0].body) && a.Some? {
        var next := pending + [Tx(txs[0].body, a.value.1)];
        RepushKeepsAll(a.value.0, next, txs[1..], rules);
        assert SameBodies(next + txs[1..], pending + txs);
      } else {
        RepushKeepsAll(s, pending, txs[1..], rules);
      }
    }
  }

  // ----- what a block is built from

  /** The block's transactions are pending ones, in the same order, with cleared results. */
  ghost predicate Picked(block: seq<Tx>, pending: seq<Tx>)
    decreases |pending|
  {
    if pending == [] then block == []
    else
      || Picked(block, pending[1..])
      || (block != [] && block[0] == Tx(pending[0].body, 0) && Picked(block[1..], pending[1..]))
  }

  function Total(txs: seq<Tx>, size: Tx -> nat): (r: nat) {
    if txs == [] then 0 else size(txs[0]) + Total(txs[1..], size)
  }

  /** Greedy building: take each transaction that fits, applies, and still fits without results. */
  function Build<S>(s: S, pending: seq<Tx>, used: nat, limit: nat, rules: Rules<S>): (block: seq<Tx>)
    decreases |pending|
  {
    if pending == [] then []
    else
      var tx := pending[0];
      var clean := Tx(tx.body, 0);
      var r := rules.apply(s, tx.body);
      if used + rules.size(tx) <= limit && r.Some? && used + rules.size(clean) <= limit then
        [clean] + Build(r.value.0, pending[1..], used + rules.size(clean), limit, rules)
      else
        Build(s, pending[1..], used, limit, rules)
  }

  /**
   * The built block is picked from the pending transactions, replays from the head state, and fits
   * the limit whenever the header does.
   */
  lemma {:induction false} BuildIsSound<S>(s: S, pending: seq<Tx>, used: nat, limit: nat, rules: Rules<S>)
    ensures var block := Build(s, pending, used, limit, rules);
            && Picked(block, pending)
            && Replay(s, block, rules).Some?
            && (used <= limit ==> used + Total(block, rules.size) <= limit)
    decreases |pending|
  {
    if pending != [] {
      var tx := pending[0];
      var clean := Tx(tx.body, 0);
      var r := rules.apply(s, tx.body);
      if used + rules.size(tx) <= limit && r.Some? && used + rules.size(clean) <= limit {
        var rest := Build(r.value.0, pending[1..], used + rules.size(clean), limit, rules);
        BuildIsSound(r.value.0, pending[1..], used + rules.size(clean), limit, rules);
        assert ([clean] + rest)[1..] == rest;
      } else {
        BuildIsSound(s, pending[1..], used, limit, rules);
      }
    }
  }

  /** Building goes on behind a prefix with what the prefix took. */
  lemma {:induction false} BuildPrefix<S>(s: S, a: seq<Tx>, b: seq<Tx>, used: nat, limit: nat, rules: Rules<S>)
    ensures var taken := Build(s, a, used, limit, rules);
            && Replay(s, taken, rules).Some?
            && Build(s, a + b, used, limit, rules)
               == taken + Build(Replay(s, taken, rules).value, b, used + Total(taken, rules.size), limit, rules)
    decreases |a|
  {
    if a == [] {
      assert a + b == b;
    } else {
      var rest := a[1..];
      assert (a + b)[0] == a[0] && (a + b)[1..] == rest + b;
      var clean := Tx(a[0].body, 0);
      var r := rules.apply(s, a[0].body);
      if used + rules.size(a[0]) <= limit && r.Some? && used + rules.size(clean) <= limit {
        BuildPrefix(r.value.0, rest, b, used + rules.size(clean), limit, rules);
        var below := Build(r.value.0, rest, used + rules.size(clean), limit, rules);
        assert ([clean] + below)[1..] == below;
      } else {
        BuildPrefix(s, rest, b, used, limit, rules);
      }
    }
  }

  /**
   * Each pending transaction is taken exactly when it applies after those taken before it and fits
   * with them, with and without its results.
   */
  lemma TakenWhenItFits<S>(s: S, a: seq<Tx>, tx: Tx, used: nat, limit: nat, rules: Rules<S>)
    ensures var taken := Build(s, a, used, limit, rules);
            var clean, room := Tx(tx.body, 0), used + Total(taken, rules.size);
            && Replay(s, taken, rules).Some?
            && Build(s, a + [tx], used, limit, rules)
               == taken + (if rules.apply(Replay(s, taken, rules).value, tx.body).Some?
                              && room + rules.size(tx) <= limit && room + rules.size(clean) <= limit
                           then [clean] else [])
  {
    BuildPrefix(s, a, [tx], used, limit, rules);
  }

  function Cleared(txs: seq<Tx>): (r: seq<Tx>) {
    if txs == [] then [] else [Tx(txs[0].body, 0)] + Cleared(txs[1..])
  }

  /** Pending transactions that apply in order and fit are all taken: none is dropped. */
  lemma {:induction false} BuildTakesAll<S>(s: S, pending: seq<Tx>, used: nat, limit: nat, rules: Rules<S>)
    requires Replay(s, pending, rules).Some?
    requires forall tx: Tx :: rules.size(Tx(tx.body, 0)) <= rules.size(tx)
    requires used + Total(pending, rules.size) <= limit
    ensures Build(s, pending, used, limit, rules) == Cleared(pending)
    decreases |pending|
  {
    if pending != [] {
      var r := rules.apply(s, pending[0].body);
      BuildTakesAll(r.value.0, pending[1..], used + rules.size(Tx(pending[0].body, 0)), limit, rules);
    }
  }

  // ----- the pending state

  datatype Command<S> =
    | Push(tx: Tx)
    | Move(newHead: S, popped: seq<Tx>)
    | Produce(header: nat, limit: nat, sealed: Option<S>)

  /** The head state after a run from `head`. */
  function HeadAfter<S>(head: S, commands: seq<Command<S>>): (r: S) {
    if commands == [] then head
    else
      var n := |commands| - 1;
      match commands[n]
      case Push(_) => HeadAfter(head, commands[..n])
      case Move(newHead, _) => newHead
      case Produce(_, _, sealed) => if sealed.Some? then sealed.value else HeadAfter(head, commands[..n])
  }

  /** The head states on which a run produces blocks. */
  function ProducedOn<S>(head: S, commands: seq<Command<S>>): (r: seq<S>) {
    if commands == [] then []
    else
      var n := |commands| - 1;
      var before := ProducedOn(head, commands[..n]);
      if commands[n].Produce? then before + [HeadAfter(head, commands[..n])] else before
  }

  class PendingState<S(!new)> {
    const rules: Rules<S>
    var head: S
    var state: S
    var pending: seq<Tx>

    /** The state is the head state with exactly the pending transactions applied, in order. */
    ghost predicate Valid()
      reads this
    {
      Replay(head, pending, rules) == Some(state)
    }

    constructor (rules: Rules<S>, head: S)
      ensures Valid() && this.head == head && pending == [] && this.rules == rules
    {
      this.rules, this.head, state, pending := rules, head, head, [];
    }

    /** `_push_transaction`: a transaction that does not apply changes nothing. */
    method PushTransaction(tx: Tx) returns (ok: bool)
      requires Valid()
      modifies this`state, this`pending
      ensures Valid()
      ensures ok <==> rules.apply(old(state), tx.body).Some?
      ensures !ok ==> state == old(state) && pending == old(pending)
      ensures ok ==> var r := rules.apply(old(state), tx.body).value;
                     state == r.0 && pending == old(pending) + [Tx(tx.body, r.1)]
    {
      var r := rules.apply(state, tx.body);
      if r.None? {
        return false;
      }
      var processed := Tx(tx.body, r.value.1);
      ReplayConcat(head, pending, [processed], rules);
      pending := pending + [processed];
      state := r.value.0;
      ok := true;
    }

    /** Pushes those of `txs` that are not in the state yet and apply; the others are dropped. */
    method PushUnknown(txs: seq<Tx>)
      requires Valid()
      modifies this`state, this`pending
      ensures Valid() && (state, pending) == Repush(old(state), old(pending), txs, rules)
    {
      assert txs[0..] == txs;
      for i := 0 to |txs|
        invariant Valid()
        invariant Repush(state, pending, txs[i..], rules) == Repush(old(state), old(pending), txs, rules)
      {
        assert txs[i..][0] == txs[i] && txs[i..][1..] == txs[i + 1..];
        if !rules.known(state, txs[i].body) {
          var ok := PushTransaction(txs[i]);
        }
      }
    }

    /**
     * What surrounds a pushed block: the pending transactions are set aside, the head moves, and the
     * popped and the set-aside transactions are pushed again on the new head.
     */
    method MoveHead(newHead: S, popped: seq<Tx>)
      modifies this
      ensures Valid() && head == newHead
      ensures (state, pending) == Repush(newHead, [], popped + old(pending), rules)
    {
      var aside := pending;
      head, state, pending := newHead, newHead, [];
      PushUnknown(popped);
      PushUnknown(aside);
      RepushConcat(newHead, [], popped, aside, rules);
    }

    /**
     * The building loop of `_generate_block`: rebuilds from the head state, taking the pending
     * transactions that fit and apply.  `header` is the room taken by the block header.  The state
     * is the head state afterwards, so the pending transactions are not applied any more.
     */
    method GenerateBlock(header: nat, limit: nat) returns (block: seq<Tx>)
      modifies this`state
      ensures state == head
      ensures block == Build(head, pending, header, limit, rules)
      ensures Picked(block, pending) && Replay(head, block, rules).Some?
      ensures header <= limit ==> header + Total(block, rules.size) <= limit
    {
      hide Build, Picked, Replay;
      BuildIsSound(head, pending, header, limit, rules);
      state := head;
      block := [];
      var total: nat := header;
      for i := 0 to |pending|
        invariant block + Build(state, pending[i..], total, limit, rules) == Build(head, pending, header, limit, rules)
      {
        var tx := pending[i];
        assert pending[i..][0] == tx && pending[i..][1..] == pending[i + 1..];
        BuildStep(state, pending[i..], total, limit, rules);
        if total + rules.size(tx) <= limit {
          var r := rules.apply(state, tx.body);
          if r.Some? {
            var clean := Tx(tx.body, 0);
            if total + rules.size(clean) <= limit {
              SeqAssoc(block, [clean], Build(r.value.0, pending[i + 1..], total + rules.size(clean), limit, rules));
              state := r.value.0;
              total := total + rules.size(clean);
              block := block + [clean];
            }
          }
        }
      }
      BuildNothing(state, pending[|pending|..], total, limit, rules);
      state := head;
    }

    /**
     * `_generate_block` with the push of the block it built: `sealed` is the head after the block is
     * applied, or `None` when the push fails.  Either way the pending transactions are applied again.
     */
    method ProduceBlock(header: nat, limit: nat, sealed: Option<S>) returns (block: seq<Tx>)
      modifies this
      ensures Valid() && head == if sealed.Some? then sealed.value else old(head)
      ensures block == Build(old(head), old(pending), header, limit, rules)
      ensures Picked(block, old(pending)) && Replay(old(head), block, rules).Some?
      ensures header <= limit ==> header + Total(block, rules.size) <= limit
      ensures (state, pending) == Repush(head, [], old(pending), rules)
    {
      hide Build, Picked, Replay, Repush;
      block := GenerateBlock(header, limit);
      assert [] + pending == pending;
      MoveHead(if sealed.Some? then sealed.value else head, []);
    }

    /**
     * Every run of pushed transactions, moved heads and produced blocks keeps the state equal to the
     * head state with exactly the pending transactions applied, and every block produced on the way
     * replays from the head it was built on.
     */
    method Run(commands: seq<Command<S>>) returns (built: seq<(S, seq<Tx>)>)
      requires Valid()
      modifies this
      ensures Valid()
      ensures head == HeadAfter(old(head), commands)
      ensures |built| == |ProducedOn(old(head), commands)|
      ensures forall i :: 0 <= i < |built| ==>
                built[i].0 == ProducedOn(old(head), commands)[i] && Replay(built[i].0, built[i].1, rules).Some?
    {
      hide Replay, Repush, Picked, Build;
      built := [];
      for i := 0 to |commands|
        invariant Valid() && head == HeadAfter(old(head), commands[..i])
        invariant |built| == |ProducedOn(old(head), commands[..i])|
        invariant forall j :: 0 <= j < |built| ==>
                    && built[j].0 == ProducedOn(old(head), commands[..i])[j]
                    && Replay(built[j].0, built[j].1, rules).Some?
      {
        assert commands[..i + 1][..i] == commands[..i];
        match commands[i] {
          case Push(tx) =>
            var ok := PushTransaction(tx);
          case Move(newHead, popped) =>
            MoveHead(newHead, popped);
          case Produce(header, limit, sealed) =>
            var from := head;
            var block := ProduceBlock(header, limit, sealed);
            built := built + [(from, block)];
        }
      }
      assert commands[..|commands|] == commands;
    }
  }

  lemma SeqAssoc(a: seq<Tx>, b: seq<Tx>, c: seq<Tx>)
    ensures a + (b + c) == (a + b) + c
  {
  }

  lemma BuildNothing<S>(s: S, pending: seq<Tx>, used: nat, limit: nat, rules: Rules<S>)
    requires pending == []
    ensures Build(s, pending, used, limit, rules) == []
  {
  }

  lemma BuildStep<S>(s: S, pending: seq<Tx>, used: nat, limit: nat, rules: Rules<S>)
    requires pending != []
    ensures var tx, clean := pending[0], Tx(pending[0].body, 0);
            var r := rules.apply(s, tx.body);
            Build(s, pending, used, limit, rules)
            == if used + rules.size(tx) <= limit && r.Some? && used + rules.size(clean) <= limit
               then [clean] + Build(r.value.0, pending[1..], used + rules.size(clean), limit, rules)
               else Build(s, pending[1..], used, limit, rules)
  {
  }
}

/**
 * Pushing and popping blocks: the fork database, the undo stack and the block log.
 *
 * Applying a block is a partial function on the object state.  The undo stack holds the states
 * before each applied block, together with the head block they had.
 */
module ForkSwitch {
  import opened Ledger

  /** A block id carries the number of its block. */
  datatype Id = Id(num: nat, hash: nat)

  datatype Block = Block(id: Id, prev: Id, txs: seq<nat>) {
    /** `block_num()` is one more than the number in the previous id, and is put into the id. */
    predicate Numbered() {
      id.num == prev.num + 1
    }
  }

  /** The object state after a block, and that block. */
  datatype Entry<S> = Entry(obj: S, head: Block)

  type Items = map<Id, Block>

  ghost predicate ItemsOk(items: Items) {
    forall id :: id in items ==> items[id].id == id && items[id].Numbered()
  }

  // ----- histories

  ghost predicate Follows<S(!new)>(a: Entry<S>, b: Entry<S>, apply: (S, Block) -> Option<S>) {
    b.head.prev == a.head.id && apply(a.obj, b.head) == Some(b.obj)
  }

  /** Each entry is the result of applying its block to the entry before. */
  ghost predicate Linked<S(!new)>(h: seq<Entry<S>>, apply: (S, Block) -> Option<S>) {
    forall k :: 1 <= k < |h| ==> Follows(h[k - 1], h[k], apply)
  }

  /** The block log has, at every number of the main chain, the main chain's block. */
  ghost predicate Logged<S(!new)>(h: seq<Entry<S>>, log: map<nat, Block>) {
    forall k :: 0 <= k < |h| ==> h[k].head.id.num in log && log[h[k].head.id.num] == h[k].head
  }

  /** One collection of blocks is part of another. */
  ghost predicate Within(items: Items, blocks: Items) {
    forall id :: id in items ==> id in blocks && items[id] == blocks[id]
  }

  ghost predicate Indexed<S(!new)>(h: seq<Entry<S>>, items: Items) {
    forall k :: 0 <= k < |h| ==> h[k].head.id in items && items[h[k].head.id] == h[k].head
  }

  /** Block numbers along a history are consecutive. */
  lemma {:induction false} Numbers<S(!new)>(h: seq<Entry<S>>, items: Items, apply: (S, Block) -> Option<S>, k: nat)
    requires Linked(h, apply) && Indexed(h, items) && ItemsOk(items) && k < |h|
    ensures h[k].head.id.num == h[0].head.id.num + k
  {
    if k > 0 {
      Numbers(h, items, apply, k - 1);
      assert Follows(h[k - 1], h[k], apply);
    }
  }

  /** Two histories from the same start that end in the same block are the same. */
  lemma {:induction false} SameHeadSameHistory<S(!new)>(g: seq<Entry<S>>, h: seq<Entry<S>>, items: Items,
                                                        apply: (S, Block) -> Option<S>)
    requires Linked(g, apply) && Linked(h, apply) && Indexed(g, items) && Indexed(h, items)
    requires |g| == |h| > 0 && g[0] == h[0] && g[|g| - 1].head.id == h[|h| - 1].head.id
    ensures g == h
    decreases |g|
  {
    var n := |g| - 1;
    if n > 0 {
      assert Follows(g[n - 1], g[n], apply) && Follows(h[n - 1], h[n], apply);
      var g', h' := g[..n], h[..n];
      forall k | 1 <= k < n ensures Follows(g'[k - 1], g'[k], apply) && Follows(h'[k - 1], h'[k], apply) {
        assert Follows(g[k - 1], g[k], apply) && Follows(h[k - 1], h[k], apply);
      }
      SameHeadSameHistory(g', h', items, apply);
      assert g[n] == h[n];
      assert g == g' + [g[n]] && h == h' + [h[n]];
    }
  }

  // ----- branches

  /** Each block's predecessor is the next one, down to `down`. */
  ghost predicate Branch(s: seq<Block>, top: Id, down: Id, items: Items) {
    && s != [] && s[0].id == top && s[|s| - 1].prev == down
    && (forall i :: 0 <= i < |s| ==> s[i].id in items && items[s[i].id] == s[i])
    && forall i :: 1 <= i < |s| ==> s[i - 1].prev == s[i].id
  }

  lemma BranchWithin(s: seq<Block>, top: Id, down: Id, items: Items, blocks: Items)
    requires Branch(s, top, down, items) && Within(items, blocks)
    ensures Branch(s, top, down, blocks)
  {
  }

  lemma BranchMembers(s: seq<Block>, top: Id, down: Id, items: Items)
    requires Branch(s, top, down, items)
    ensures s != [] && s[0].id == top
    ensures forall i :: 0 <= i < |s| ==> s[i].id in items && items[s[i].id] == s[i]
  {
  }

  lemma WithinItself(items: Items)
    ensures Within(items, items)
  {
  }

  lemma BranchNumbered(s: seq<Block>, top: Id, down: Id, items: Items)
    requires Branch(s, top, down, items) && ItemsOk(items)
    ensures s != [] && s[0].id == top && s[0] == items[top]
    ensures forall i :: 0 <= i < |s| ==> s[i].Numbered()
  {
  }

  lemma WithinAll(items: Items, before: Items, blocks: Items)
    requires Within(items, before) && Within(before, blocks) && ItemsOk(blocks)
    ensures Within(items, blocks) && ItemsOk(items) && ItemsOk(before)
  {
  }

  lemma {:induction false} BranchNumbers(s: seq<Block>, top: Id, down: Id, items: Items, i: nat)
    requires Branch(s, top, down, items) && ItemsOk(items) && i < |s|
    ensures s[i].id.num == top.num - i
    ensures s[i].id.num == down.num + (|s| - i)
  {
    BranchFromTop(s, top, down, items, i);
    BranchFromTop(s, top, down, items, |s| - 1);
  }

  lemma {:induction false} BranchFromTop(s: seq<Block>, top: Id, down: Id, items: Items, i: nat)
    requires Branch(s, top, down, items) && ItemsOk(items) && i < |s|
    ensures s[i].id.num == top.num - i
  {
    if i > 0 {
      BranchFromTop(s, top, down, items, i - 1);
      assert s[i - 1].prev == s[i].id;
    }
  }

  /** A branch that starts at the head of a history runs down along it. */
  lemma {:induction false} BranchAlongHistory<S(!new)>(s: seq<Block>, h: seq<Entry<S>>, down: Id, items: Items,
                                                       apply: (S, Block) -> Option<S>, i: nat)
    requires h != [] && Linked(h, apply) && Indexed(h, items)
    requires Branch(s, h[|h| - 1].head.id, down, items) && i < |s| && i < |h|
    ensures s[i] == h[|h| - 1 - i].head
  {
    if i > 0 {
      BranchAlongHistory(s, h, down, items, apply, i - 1);
      var k := |h| - i;
      assert Follows(h[k - 1], h[k], apply);
      assert s[i - 1].prev == s[i].id;
    }
  }

  /** The transactions of the blocks above `down`, in the order of the chain. */
  function Undone<S(!new)>(h: seq<Entry<S>>, down: Id): (txs: seq<nat>) {
    if h == [] || h[|h| - 1].head.id == down then [] else Undone(h[..|h| - 1], down) + h[|h| - 1].head.txs
  }

  lemma UndoneStep<S(!new)>(h: seq<Entry<S>>, n: nat, down: Id, txs: seq<nat>)
    requires n < |h|
    ensures if h[n].head.id == down then Undone(h[..n + 1], down) == []
            else Undone(h[..n + 1], down) + txs == Undone(h[..n], down) + (h[n].head.txs + txs)
  {
    assert h[..n + 1][..n] == h[..n];
    assert Undone(h[..n], down) + (h[n].head.txs + txs) == Undone(h[..n], down) + h[n].head.txs + txs;
  }

  /** Whether some entry of the history has this block as its head. */
  ghost predicate OnChain<S(!new)>(h: seq<Entry<S>>, id: Id) {
    exists k :: 0 <= k < |h| && h[k].head.id == id
  }

  /** Nothing in the collection is as old as `root`, except `root`. */
  ghost predicate AnchoredAt(items: Items, root: Id) {
    forall id :: id in items ==> id.num >= root.num && (id.num == root.num ==> id == root)
  }

  /** The walk of `fetch_branch_from` from a block of the chain stops on the chain. */
  lemma {:induction false} MeetOnChain<S(!new)>(h: seq<Entry<S>>, items: Items, blocks: Items,
                                                apply: (S, Block) -> Option<S>, a: Block, k: nat)
    requires ItemsOk(blocks) && Linked(h, apply) && Indexed(h, blocks) && ItemsOk(items) && Within(items, blocks)
    requires 1 <= k < |h| && AnchoredAt(items, h[0].head.id)
    requires a.id in items && items[a.id] == a && a.id.num >= h[k].head.id.num && h[k].head.Numbered()
    ensures Meet(items, a, h[k].head).Some? ==> OnChain(h, Meet(items, a, h[k].head).value)
    decreases a.id.num
  {
    var b := h[k].head;
    assert Follows(h[k - 1], h[k], apply);
    if Meet(items, a, b).Some? {
      if a.id.num > b.id.num {
        MeetOnChain(h, items, blocks, apply, items[a.prev], k);
      } else if a.prev != b.prev {
        assert items[b.prev] == h[k - 1].head;
        if k > 1 {
          MeetOnChain(h, items, blocks, apply, items[a.prev], k - 1);
        }
      }
    }
  }

  /** A branch that has a block on the chain stays on the chain below it. */
  lemma {:induction false} OnChainBelow<S(!new)>(s: seq<Block>, h: seq<Entry<S>>, top: Id, down: Id, items: Items,
                                                 apply: (S, Block) -> Option<S>, i: nat, j: nat)
    requires Linked(h, apply) && Indexed(h, items) && ItemsOk(items) && h != []
    requires Branch(s, top, down, items) && j <= i < |s| && h[0].head.id.num <= down.num
    ensures OnChain(h, s[j].id) ==> OnChain(h, s[i].id)
    decreases i - j
  {
    if j < i && OnChain(h, s[j].id) {
      var k :| 0 <= k < |h| && h[k].head.id == s[j].id;
      Numbers(h, items, apply, k);
      BranchNumbers(s, top, down, items, j);
      assert Follows(h[k - 1], h[k], apply);
      assert s[(j + 1) - 1].prev == s[j + 1].id;
      assert h[k - 1].head.id == s[j + 1].id;
      OnChainBelow(s, h, top, down, items, apply, i, j + 1);
    }
  }

  /** The block at height `num` below `b`, if the links reach it. */
  function Ancestor(items: Items, b: Block, num: nat): (r: Option<Block>)
    requires ItemsOk(items) && b.Numbered()
    ensures r.Some? ==> r.value.id.num == num
    decreases b.id.num
  {
    if b.id.num == num then Some(b)
    else if b.id.num < num || b.prev !in items then None
    else Ancestor(items, items[b.prev], num)
  }

  /** The tip was built on top of the block: the walk down from it meets the block. */
  predicate Descends(items: Items, tip: Block, b: Block)
    requires ItemsOk(items) && tip.Numbered()
  {
    Ancestor(items, tip, b.id.num) == Some(b)
  }

  /** Where `fetch_branch_from` finds that two blocks were built on the same block, if the links reach it. */
  function Meet(items: Items, a: Block, b: Block): (r: Option<Id>)
    requires ItemsOk(items) && a.Numbered() && b.Numbered()
    decreases a.id.num + b.id.num
  {
    if a.id.num > b.id.num then
      if a.prev in items then Meet(items, items[a.prev], b) else None
    else if b.id.num > a.id.num then
      if b.prev in items then Meet(items, a, items[b.prev]) else None
    else if a.prev == b.prev then Some(a.prev)
    else if a.prev in items && b.prev in items then Meet(items, items[a.prev], items[b.prev])
    else None
  }

  /** Two branches down to the same block meet there or above, whatever lies below. */
  lemma {:induction false} MeetIsFound(s: seq<Block>, t: seq<Block>, down: Id, items: Items, i: nat, j: nat)
    requires ItemsOk(items) && i < |s| && j < |t|
    requires Branch(s, s[0].id, down, items) && Branch(t, t[0].id, down, items)
    ensures s[i].Numbered() && t[j].Numbered()
    ensures Meet(items, s[i], t[j]).Some? && Meet(items, s[i], t[j]).value.num >= down.num
    decreases |s| - i + |t| - j
  {
    BranchNumbers(s, s[0].id, down, items, i);
    BranchNumbers(t, t[0].id, down, items, j);
    if i + 1 < |s| {
      assert s[(i + 1) - 1].prev == s[i + 1].id;
    }
    if j + 1 < |t| {
      assert t[(j + 1) - 1].prev == t[j + 1].id;
    }
    if s[i].id.num > t[j].id.num {
      MeetIsFound(s, t, down, items, i + 1, j);
    } else if t[j].id.num > s[i].id.num {
      MeetIsFound(s, t, down, items, i, j + 1);
    } else if s[i].prev != t[j].prev {
      MeetIsFound(s, t, down, items, i + 1, j + 1);
    }
  }

  /** The object state after the blocks above `down` up to `tip` are applied to `base`, if they all apply. */
  function Rebuilt<S(!new)>(items: Items, tip: Block, down: Id, base: S, apply: (S, Block) -> Option<S>): (r: Option<S>)
    requires ItemsOk(items) && tip.Numbered()
    decreases tip.id.num
  {
    if tip.prev == down then apply(base, tip)
    else if tip.prev !in items then None
    else
      var below := Rebuilt(items, items[tip.prev], down, base, apply);
      if below.None? then None else apply(below.value, tip)
  }

  /** If a block of a branch cannot be rebuilt, no block above it can. */
  lemma {:induction false} RebuiltFails<S(!new)>(s: seq<Block>, top: Id, down: Id, items: Items, base: S,
                                                 apply: (S, Block) -> Option<S>, i: nat)
    requires ItemsOk(items) && Branch(s, top, down, items) && i < |s|
    requires Rebuilt(items, s[i], down, base, apply).None?
    ensures forall j :: 0 <= j <= i ==> Rebuilt(items, s[j], down, base, apply).None?
  {
    if i > 0 {
      RebuiltStep(s, top, down, items, base, apply, i - 1);
      RebuiltFails(s, top, down, items, base, apply, i - 1);
    }
  }

  lemma RebuiltStep<S(!new)>(s: seq<Block>, top: Id, down: Id, items: Items, base: S,
                             apply: (S, Block) -> Option<S>, i: nat)
    requires ItemsOk(items) && Branch(s, top, down, items) && i < |s|
    ensures Rebuilt(items, s[i], down, base, apply)
         == if i + 1 == |s| then apply(base, s[i])
            else
              var below := Rebuilt(items, s[i + 1], down, base, apply);
              if below.None? then None else apply(below.value, s[i])
  {
    if i + 1 < |s| {
      BranchNumbers(s, top, down, items, i);
      BranchNumbers(s, top, down, items, i + 1);
      assert s[(i + 1) - 1].prev == s[i + 1].id;
    }
  }

  /** The branch up to the tip applies to the history's entry for `down`. */
  ghost predicate CanRebuild<S(!new)>(h: seq<Entry<S>>, items: Items, tip: Block, down: Option<Id>,
                                      apply: (S, Block) -> Option<S>)
    requires ItemsOk(items) && tip.Numbered()
  {
    down.Some? && exists k :: 0 <= k < |h| && h[k].head.id == down.value
                              && Rebuilt(items, tip, down.value, h[k].obj, apply).Some?
  }

  /** It applies and gives `obj`. */
  ghost predicate Rebuilds<S(!new)>(h: seq<Entry<S>>, items: Items, tip: Block, down: Option<Id>,
                                    apply: (S, Block) -> Option<S>, obj: S)
    requires ItemsOk(items) && tip.Numbered()
  {
    down.Some? && exists k :: 0 <= k < |h| && h[k].head.id == down.value
                              && Rebuilt(items, tip, down.value, h[k].obj, apply) == Some(obj)
  }

  /** A block above `down` that the tip was built on and that `base` does not lead to. */
  ghost predicate Broken<S(!new)>(items: Items, tip: Block, down: Id, base: S, apply: (S, Block) -> Option<S>, id: Id)
    requires ItemsOk(items) && tip.Numbered()
  {
    && id in items && Descends(items, tip, items[id]) && id.num > down.num
    && Rebuilt(items, items[id], down, base, apply).None?
  }

  /** What is left of the collection without the broken blocks of the tip's branch. */
  ghost predicate Cleaned<S(!new)>(h: seq<Entry<S>>, items: Items, tip: Block, down: Option<Id>,
                                   apply: (S, Block) -> Option<S>, left: Items)
    requires ItemsOk(items) && tip.Numbered()
  {
    down.Some? && Within(left, items)
    && exists k :: 0 <= k < |h| && h[k].head.id == down.value
                   && forall id :: id in items ==>
                                     (id in left <==> !Broken(items, tip, down.value, h[k].obj, apply, id))
  }

  /** The broken blocks are the upper part of the branch. */
  lemma BrokenAbove<S(!new)>(s: seq<Block>, tip: Block, down: Id, items: Items, base: S,
                             apply: (S, Block) -> Option<S>, i: nat)
    requires ItemsOk(items) && Branch(s, tip.id, down, items) && i <= |s| && items[tip.id] == tip
    requires forall j :: 0 <= j < |s| ==> s[j].Numbered() && (Rebuilt(items, s[j], down, base, apply).None? <==> j < i)
    ensures forall id :: Broken(items, tip, down, base, apply, id) <==> exists j :: 0 <= j < i && s[j].id == id
  {
    hide Rebuilt;
    forall j | 0 <= j < |s|
      ensures s[j].id.num == down.num + (|s| - j) && Ancestor(items, tip, s[j].id.num) == Some(s[j])
    {
      BranchNumbers(s, tip.id, down, items, j);
      AncestorOnBranch(s, tip.id, down, items, 0, j);
    }
    forall id | Broken(items, tip, down, base, apply, id) ensures exists j :: 0 <= j < i && s[j].id == id {
      var j := down.num + |s| - id.num;
      assert s[j].id.num == id.num;
    }
  }

  /** An ancestor below the block itself is in the collection. */
  lemma {:induction false} AncestorIsKnown(items: Items, b: Block, num: nat)
    requires ItemsOk(items) && b.id in items && items[b.id] == b
    ensures Ancestor(items, b, num).Some? ==> Ancestor(items, b, num).value.id in items
    decreases b.id.num
  {
    if b.id.num > num && b.prev in items {
      AncestorIsKnown(items, items[b.prev], num);
    }
  }

  /** On a branch, the ancestor at a height is the branch's block at that height. */
  lemma {:induction false} AncestorOnBranch(s: seq<Block>, top: Id, down: Id, items: Items, i: nat, j: nat)
    requires Branch(s, top, down, items) && ItemsOk(items) && i <= j < |s|
    ensures Ancestor(items, s[i], s[j].id.num) == Some(s[j])
    decreases j - i
  {
    if i < j {
      assert s[(i + 1) - 1].prev == s[i + 1].id;
      BranchNumbers(s, top, down, items, i);
      BranchNumbers(s, top, down, items, j);
      AncestorOnBranch(s, top, down, items, i + 1, j);
    }
  }

  // ----- the database

  datatype PushResult =
    | Unlinkable         // the previous block is not known
    | NotHigher          // kept in the fork database, no switch
    | Extended           // the block became the new head
    | Rejected           // the highest tip is on top of the head, but the block did not apply
    | Switched           // the chain now ends in the highest tip
    | SwitchFailed       // a block of the new branch did not apply; rolled back
    | BranchMissing      // the new branch does not reach the main chain
    | UndoExhausted      // the fork point is older than the undo history

  datatype Command = Push(block: Block) | Pop | Commit(size: nat)

  class Database<S(!new)> {
    const apply: (S, Block) -> Option<S>
    ghost const blocks: Items    // every block there is: an id is a hash, so it names one block
    var state: Entry<S>
    var undo: seq<Entry<S>>
    var items: Items             // the fork database
    var forkHead: Id
    var log: map<nat, Block>     // the block database
    var popped: seq<nat>

    ghost function History(): (h: seq<Entry<S>>)
      reads this
      ensures |h| == |undo| + 1
    {
      undo + [state]
    }

    ghost predicate Good(h: seq<Entry<S>>)
      reads this
    {
      h != [] && Linked(h, apply) && Logged(h, log) && Indexed(h, blocks)
    }

    ghost predicate Valid()
      reads this
    {
      ItemsOk(blocks) && ItemsOk(items) && Within(items, blocks) && forkHead in items && Good(History())
    }

    /** The fork database has every block of the chain. */
    ghost predicate Complete()
      reads this
    {
      Indexed(History(), items)
    }

    constructor (apply: (S, Block) -> Option<S>, obj: S, root: Block, ghost blocks: Items)
      requires ItemsOk(blocks) && root.id in blocks && blocks[root.id] == root
      ensures Valid() && Complete() && Anchored()
      ensures state == Entry(obj, root) && undo == [] && this.apply == apply && this.blocks == blocks
      ensures items == map[root.id := root] && forkHead == root.id
    {
      this.apply, this.blocks, state, undo := apply, blocks, Entry(obj, root), [];
      items, forkHead := map[root.id := root], root.id;
      log, popped := map[root.id.num := root], [];
    }

    /** The highest tip once `b` is in the fork database. */
    ghost function Tip(b: Block): (t: Block)
      reads this
      requires forkHead in items
    {
      if b.id.num > forkHead.num then b else items[forkHead]
    }

    /** `fork_database::push_block`: keeps the block and returns the highest tip. */
    method ForkPush(b: Block) returns (tip: Option<Block>)
      requires Valid() && b.id in blocks && blocks[b.id] == b
      modifies this`items, this`forkHead
      ensures Valid()
      ensures tip.None? <==> b.prev !in old(items)
      ensures tip.None? ==> items == old(items) && forkHead == old(forkHead)
      ensures tip.Some? ==> items == old(items)[b.id := b] && tip.value == old(Tip(b)) == items[forkHead]
      ensures tip.Some? ==> forkHead == tip.value.id
    {
      if b.prev !in items {
        return None;
      }
      items := items[b.id := b];
      if b.id.num > forkHead.num {
        forkHead := b.id;
      }
      tip := Some(items[forkHead]);
    }

    /** Whether `pop_block` gets as far as undoing: it needs the head, or the block before it, in the fork database. */
    ghost predicate Poppable()
      reads this
    {
      if forkHead == state.head.id then state.head.prev in items else state.head.id in items
    }

    /**
     * `pop_block`: the fork database's head moves first, so it moves even when there is nothing to
     * undo and the pop fails.
     */
    method PopBlock() returns (ok: bool)
      requires Valid()
      modifies this`state, this`undo, this`forkHead, this`popped
      ensures Valid() && (old(Complete()) ==> Complete()) && History()[0] == old(History())[0]
      ensures ok <==> |old(undo)| > 0 && old(Poppable())
      ensures old(Complete()) ==> (ok <==> |old(undo)| > 0)
      ensures !ok ==> state == old(state) && undo == old(undo) && popped == old(popped)
      ensures ok ==> History() == old(History())[..|old(undo)|]
      ensures ok ==> popped == old(state).head.txs + old(popped)
      ensures forkHead == if old(forkHead) == old(state).head.id && old(Poppable()) then old(state).head.prev
                          else old(forkHead)
    {
      ghost var h := History();
      assert h[|h| - 1] == state;
      if |undo| > 0 {
        assert Follows(h[|undo| - 1], h[|undo|], apply);
      }
      if forkHead == state.head.id {
        if state.head.prev !in items {
          return false;
        }
        forkHead := state.head.prev;
      } else if state.head.id !in items {
        return false;
      }
      if undo == [] {
        return false;
      }
      var n := |undo| - 1;
      popped := state.head.txs + popped;
      state, undo := undo[n], undo[..n];
      assert History() == h[..n + 1];
      PrefixIsGood(h, n + 1);
      ok := true;
    }

    lemma PrefixIsGood(h: seq<Entry<S>>, n: nat)
      requires Good(h) && 0 < n <= |h|
      ensures Good(h[..n])
    {
      var g := h[..n];
      forall k | 1 <= k < n ensures Follows(g[k - 1], g[k], apply) {
        assert Follows(h[k - 1], h[k], apply);
      }
    }

    /** Applies a block in an undo session and stores it; a failure changes nothing. */
    method ApplyBlock(b: Block) returns (ok: bool)
      requires Valid() && b.id in blocks && blocks[b.id] == b
      modifies this`state, this`undo, this`log
      ensures Valid()
      ensures ok <==> b.prev == old(state).head.id && apply(old(state).obj, b).Some?
      ensures !ok ==> state == old(state) && undo == old(undo) && log == old(log)
      ensures ok ==> log == old(log)[b.id.num := b]
      ensures ok ==> state == Entry(apply(old(state).obj, b).value, b) && undo == old(undo) + [old(state)]
      ensures ok ==> History() == old(History()) + [state]
    {
      if b.prev != state.head.id {
        return false;
      }
      var next := apply(state.obj, b);
      if next.None? {
        return false;
      }
      ghost var h := History();
      undo := undo + [state];
      state := Entry(next.value, b);
      log := log[b.id.num := b];
      ExtendIsGood(h, state);
      assert History() == h + [state];
      ok := true;
    }

    lemma ExtendIsGood(h: seq<Entry<S>>, e: Entry<S>)
      requires ItemsOk(blocks) && h != [] && Linked(h, apply) && Indexed(h, blocks)
      requires Follows(h[|h| - 1], e, apply) && e.head.id in blocks && blocks[e.head.id] == e.head
      requires e.head.id.num in log && log[e.head.id.num] == e.head
      requires forall k :: 0 <= k < |h| && h[k].head.id.num != e.head.id.num ==>
                 h[k].head.id.num in log && log[h[k].head.id.num] == h[k].head
      ensures Good(h + [e])
    {
      var g := h + [e];
      forall k | 1 <= k < |g| ensures Follows(g[k - 1], g[k], apply) {
        if k < |h| {
          assert Follows(h[k - 1], h[k], apply);
        }
      }
      Numbers(g, blocks, apply, |h|);
      forall k | 0 <= k < |g| ensures g[k].head.id.num in log && log[g[k].head.id.num] == g[k].head {
        if k < |h| {
          Numbers(g, blocks, apply, k);
          assert h[k].head.id.num != e.head.id.num;
        }
      }
    }

    /**
     * `fetch_branch_from`: the two branches down to the same previous block, or nothing when a link
     * is missing.  The head itself closes the first branch exactly when the tip was built on it.
     */
    method FetchBranch(tip: Block, head: Block) returns (first: seq<Block>, second: seq<Block>, down: Id, ok: bool)
      requires ItemsOk(items) && tip.id in items && items[tip.id] == tip
      requires (head.id in items ==> items[head.id] == head)
      requires tip.id.num >= head.id.num
      requires head.Numbered()
      ensures ok <==> head.id in items && Meet(items, tip, head).Some?
      ensures ok ==> Meet(items, tip, head) == Some(down)
      ensures ok ==> Branch(first, tip.id, down, items) && Branch(second, head.id, down, items)
      ensures ok ==> (Descends(items, tip, head) <==> first[|first| - 1] == head)
      ensures Descends(items, tip, head) ==> ok && |second| == 1
    {
      var a, b := tip, head;
      first, second, down, ok := [], [], b.prev, false;
      if head.id !in items {
        AncestorIsKnown(items, tip, head.id.num);
        return;
      }
      while a.id.num > b.id.num
        invariant a.id in items && items[a.id] == a && a.id.num >= b.id.num
        invariant Meet(items, tip, head) == Meet(items, a, b)
        invariant Branch(first + [a], tip.id, a.prev, items)
        invariant Ancestor(items, tip, head.id.num) == Ancestor(items, a, head.id.num)
        decreases a.id.num
      {
        first := first + [a];
        if a.prev !in items {
          return;
        }
        ExtendBranch(first, tip.id, items[a.prev], items);
        a := items[a.prev];
      }
      while a.prev != b.prev
        invariant a.id in items && items[a.id] == a && b.id in items && items[b.id] == b && a.id.num == b.id.num
        invariant Meet(items, tip, head) == Meet(items, a, b)
        invariant Branch(first + [a], tip.id, a.prev, items) && Branch(second + [b], head.id, b.prev, items)
        invariant second == [] ==> b == head && Ancestor(items, tip, head.id.num) == Some(a)
        invariant second != [] ==> !Descends(items, tip, head) && b.id.num < head.id.num
        decreases a.id.num
      {
        first, second := first + [a], second + [b];
        if a.prev !in items || b.prev !in items {
          return;
        }
        ExtendBranch(first, tip.id, items[a.prev], items);
        ExtendBranch(second, head.id, items[b.prev], items);
        a, b := items[a.prev], items[b.prev];
      }
      first, second, down, ok := first + [a], second + [b], a.prev, true;
    }

    /**
     * Pops until the head is `down`.  It fails with the undo history used up, or, when the fork
     * database's head is popped too and `down` is not in the fork database, one block above `down`.
     */
    method PopTo(down: Id, ghost m: nat) returns (ok: bool)
      requires Valid()
      requires m < |History()| ==> History()[m].head.id == down
      requires m >= |History()| ==> forall k :: 0 <= k < |History()| ==> History()[k].head.id != down
      requires forall k :: 0 <= k < |History()| && (m < k || m >= |History()|) ==> History()[k].head.id in items
      modifies this`state, this`undo, this`forkHead, this`popped
      ensures Valid()
      ensures ok <==> m < |old(History())| && !(PoppedHead(old(History()), m, old(forkHead)) && down !in items)
      ensures ok ==> History() == old(History())[..m + 1]
      ensures ok ==> popped == Undone(old(History()), down) + old(popped)
      ensures ok ==> forkHead == if PoppedHead(old(History()), m, old(forkHead)) then down else old(forkHead)
      ensures !ok && m >= |old(History())| ==> History() == old(History())[..1]
      ensures !ok && m >= |old(History())| && !OnChain(old(History()), old(forkHead)) ==> forkHead == old(forkHead)
      ensures !ok && m < |old(History())| ==>
                |old(History())| >= m + 2 && History() == old(History())[..m + 2]
                && forkHead == old(History())[m + 1].head.id
    {
      ghost var h, f := History(), forkHead;
      hide Undone;
      ghost var n := |h| - 1;
      assert h[..n + 1] == h;
      while state.head.id != down
        invariant Valid() && 0 <= n < |h| && (m < |h| ==> m <= n)
        invariant History() == h[..n + 1]
        invariant Undone(h[..n + 1], down) + popped == Undone(h, down) + old(popped)
        invariant forkHead == if PoppedHead(h, n, f) then h[n].head.id else f
        decreases n
      {
        assert state == h[n];
        if m < |h| && m < n {
          DistinctHeads(h, m, n);
        }
        if n > 0 {
          assert Follows(h[n - 1], h[n], apply);
        }
        ghost var txs := popped;
        var done := PopBlock();
        if !done {
          return false;
        }
        UndoneStep(h, n, down, txs);
        assert PoppedHead(h, n - 1, f) <==> f == h[n].head.id || PoppedHead(h, n, f);
        n := n - 1;
        assert History() == h[..n + 1];
      }
      assert state == h[n];
      UndoneStep(h, n, down, []);
      if m < n {
        DistinctHeads(h, m, n);
      }
      assert forkHead in items;
      ok := true;
    }

    lemma DistinctHeads(h: seq<Entry<S>>, j: nat, k: nat)
      requires ItemsOk(blocks) && Linked(h, apply) && Indexed(h, blocks) && j < k < |h|
      ensures h[j].head.id != h[k].head.id
    {
      Numbers(h, blocks, apply, j);
      Numbers(h, blocks, apply, k);
    }

    /** The failing block of a branch is not on the old chain: replaying that chain cannot fail. */
    lemma FailingIsOffChain(h: seq<Entry<S>>, g: seq<Entry<S>>, b: Block)
      requires ItemsOk(blocks) && h != [] && g != [] && h[0] == g[0]
      requires Linked(h, apply) && Indexed(h, blocks) && Linked(g, apply) && Indexed(g, blocks)
      requires b.id in blocks && blocks[b.id] == b && b.prev == g[|g| - 1].head.id
      requires apply(g[|g| - 1].obj, b).None?
      ensures !OnChain(h, b.id)
    {
      if OnChain(h, b.id) {
        var k :| 0 <= k < |h| && h[k].head.id == b.id;
        Numbers(h, blocks, apply, k);
        Numbers(g, blocks, apply, |g| - 1);
        assert k == |g|;
        assert Follows(h[k - 1], h[k], apply);
        var p := h[..k];
        forall j | 1 <= j < k ensures Follows(p[j - 1], p[j], apply) {
          assert Follows(h[j - 1], h[j], apply);
        }
        SameHeadSameHistory(g, p, blocks, apply);
        assert false;
      }
    }

    /** Re-applies the old branch on top of `down`; determinism makes every block apply again. */
    method Restore(second: seq<Block>, ghost h: seq<Entry<S>>, ghost m: nat)
      requires Valid() && m + 1 + |second| == |h| && History() == h[..m + 1] && Linked(h, apply) && Indexed(h, blocks)
      requires forall i :: 0 <= i < |second| ==> second[i] == h[|h| - 1 - i].head
      modifies this`state, this`undo, this`log
      ensures Valid() && History() == h
    {
      var j := |second|;
      while j > 0
        invariant 0 <= j <= |second| && Valid() && History() == h[..|h| - j]
      {
        var k := |h| - j;
        assert Follows(h[k - 1], h[k], apply) && state == h[k - 1];
        assert h[k].head == second[j - 1];
        var ok := ApplyBlock(second[j - 1]);
        assert h[..k + 1] == h[..k] + [h[k]];
        j := j - 1;
      }
      assert h[..|h|] == h;
    }

    /** Removes the blocks of the new branch that were not applied; none of them is on the old chain. */
    method RemoveInvalid(first: seq<Block>, i: nat, ghost h: seq<Entry<S>>, ghost down: Id)
      requires ItemsOk(blocks) && Within(items, blocks)
      requires i <= |first| && first != [] && Branch(first, first[0].id, down, blocks)
      requires Linked(h, apply) && Indexed(h, blocks) && h != [] && h[0].head.id.num <= down.num
      requires i > 0 ==> !OnChain(h, first[i - 1].id)
      modifies this`items
      ensures Within(items, old(items))
      ensures forall id :: id in old(items) ==> (id in items <==> forall j :: 0 <= j < i ==> first[j].id != id)
      ensures forall id :: id in old(items) && OnChain(h, id) ==> id in items
    {
      ghost var before := items;
      var j := 0;
      while j < i
        invariant 0 <= j <= i && Within(items, before)
        invariant forall id :: id in before ==> (id in items <==> forall l :: 0 <= l < j ==> first[l].id != id)
        invariant forall id :: id in before && OnChain(h, id) ==> id in items
      {
        OnChainBelow(first, h, first[0].id, down, blocks, apply, i - 1, j);
        items := items - {first[j].id};
        j := j + 1;
      }
    }

    /**
     * The rollback of a failed switch, with `first[i..]` applied and `first[i - 1]` invalid.  The
     * whole history comes back, also when the pops stop early.
     */
    method RollBack(first: seq<Block>, i: nat, second: seq<Block>, down: Id, ghost h: seq<Entry<S>>, ghost m: nat)
      requires Valid() && 0 < i <= |first| && m + 1 + |second| == |h|
      requires Branch(first, first[0].id, down, items) && Branch(second, h[|h| - 1].head.id, down, items)
      requires Linked(h, apply) && Indexed(h, blocks) && h[m].head.id == down
      requires m < |History()| && History()[..m + 1] == h[..m + 1]
      requires |History()| == m + 1 + (|first| - i)
      requires forall l :: i <= l < |first| ==> History()[m + |first| - l].head == first[l]
      requires state.head.id == first[i - 1].prev && apply(state.obj, first[i - 1]).None?
      requires (exists l :: i <= l < |first| && first[l] == second[0]) ==> |second| == 1
      modifies this`state, this`undo, this`items, this`forkHead, this`log, this`popped
      ensures Valid() && History() == h
      ensures Indexed(h, old(items)) ==> Complete()
      ensures Within(items, old(items))
      ensures forall id :: id in old(items) ==> (id in items <==> forall j :: 0 <= j < i ==> first[j].id != id)
      ensures forkHead == if (exists l :: i <= l < |first| && first[l] == second[0]) && down in old(items) then down
                          else second[0].id
    {
      hide Linked, Logged, Follows, OnChain, PoppedHead, Branch, Indexed, ItemsOk, Within;
      ghost var g, before := History(), items;
      assert g[0] == h[..m + 1][0] == h[0];
      BranchWithin(first, first[0].id, down, items, blocks);
      BranchWithin(second, h[|h| - 1].head.id, down, items, blocks);
      BranchMembers(first, first[0].id, down, before);
      BranchMembers(first, first[0].id, down, blocks);
      BranchMembers(second, h[|h| - 1].head.id, down, before);
      FailingIsOffChain(h, g, first[i - 1]);
      Numbers(h, blocks, apply, m);
      RemoveInvalid(first, i, h, down);
      WithinAll(items, before, blocks);
      AppliedStay(first, i, g, m, before, items, down);
      ChainStays(h, before, items);
      BranchAlong(second, h, down);
      forkHead := second[0].id;
      assert g[m] == h[..m + 1][m];
      var reached := PopTo(down, m);
      HeadAmongApplied(first, i, second[0], g, m, before, down);
      if reached {
        Restore(second, h, m);
      } else {
        SameAfterStop(g, h, m);
      }
    }

    lemma AppliedStay(first: seq<Block>, i: nat, g: seq<Entry<S>>, m: nat, before: Items, after: Items, down: Id)
      requires ItemsOk(before) && 0 < i <= |first| && Branch(first, first[0].id, down, before)
      requires |g| == m + 1 + (|first| - i)
      requires forall l :: i <= l < |first| ==> g[m + |first| - l].head == first[l]
      requires forall id :: id in before && (forall j :: 0 <= j < i ==> first[j].id != id) ==> id in after
      ensures forall k :: m < k < |g| ==> g[k].head.id in after
      ensures down in before ==> down in after
    {
      forall j | 0 <= j < |first| ensures first[j].id.num == down.num + (|first| - j) && first[j].id in before {
        BranchNumbers(first, first[0].id, down, before, j);
      }
      forall k | m < k < |g| ensures g[k].head.id in after {
        var l := m + |first| - k;
        assert g[m + |first| - l].head == first[l];
      }
    }

    /** What is on the chain stays in the fork database if nothing else was removed. */
    lemma ChainStays(h: seq<Entry<S>>, before: Items, after: Items)
      requires h != [] && Within(after, before) && forall id :: id in before && OnChain(h, id) ==> id in after
      ensures Indexed(h, before) ==> Indexed(h, after)
      ensures h[|h| - 1].head.id in before ==> h[|h| - 1].head.id in after
    {
      forall k | 0 <= k < |h| && h[k].head.id in before ensures h[k].head.id in after {
        assert OnChain(h, h[k].head.id);
      }
    }

    lemma BranchAlong(second: seq<Block>, h: seq<Entry<S>>, down: Id)
      requires h != [] && Linked(h, apply) && Indexed(h, blocks) && |second| <= |h|
      requires Branch(second, h[|h| - 1].head.id, down, blocks)
      ensures forall j :: 0 <= j < |second| ==> second[j] == h[|h| - 1 - j].head
    {
      forall j | 0 <= j < |second| ensures second[j] == h[|h| - 1 - j].head {
        BranchAlongHistory(second, h, down, blocks, apply, j);
      }
    }

    /** The pops that stop above `down` stop on the old head, with the old history. */
    lemma SameAfterStop(g: seq<Entry<S>>, h: seq<Entry<S>>, m: nat)
      requires ItemsOk(blocks) && Linked(g, apply) && Indexed(g, blocks) && Linked(h, apply) && Indexed(h, blocks)
      requires |h| == m + 2 && |g| >= m + 2 && g[..m + 1] == h[..m + 1] && PoppedHead(g, m, h[m + 1].head.id)
      ensures g[..m + 2] == h && g[m + 1].head.id == h[m + 1].head.id
    {
      var k :| m < k < |g| && 0 <= k && g[k].head.id == h[m + 1].head.id;
      assert g[0] == g[..m + 1][0] == h[..m + 1][0] == h[0];
      Numbers(g, blocks, apply, k);
      Numbers(h, blocks, apply, m + 1);
      var p := g[..m + 2];
      forall j | 1 <= j < m + 2 ensures Follows(p[j - 1], p[j], apply) {
        assert Follows(g[j - 1], g[j], apply);
      }
      SameHeadSameHistory(p, h, blocks, apply);
    }

    lemma HeadAmongApplied(first: seq<Block>, i: nat, head: Block, g: seq<Entry<S>>, m: nat, all: Items, down: Id)
      requires i <= |first| && |g| == m + 1 + (|first| - i)
      requires forall l :: i <= l < |first| ==> g[m + |first| - l].head == first[l]
      requires head.id in all && all[head.id] == head
      requires forall l :: 0 <= l < |first| ==> first[l].id in all && all[first[l].id] == first[l]
      ensures PoppedHead(g, m, head.id) <==> exists l :: i <= l < |first| && first[l] == head
    {
      if PoppedHead(g, m, head.id) {
        var k :| m < k < |g| && g[k].head.id == head.id;
        var l := m + |first| - k;
        assert g[m + |first| - l].head == first[l];
      }
      if exists l :: i <= l < |first| && first[l] == head {
        var l :| i <= l < |first| && first[l] == head;
        assert g[m + |first| - l].head == first[l];
      }
    }

    /** Where the branches meet on the history: the entry `m`, or nowhere if the undo is too short. */
    lemma ForkPoint(second: seq<Block>, down: Id) returns (m: nat)
      requires Valid() && Branch(second, state.head.id, down, items)
      ensures |second| <= |undo| ==> m + 1 + |second| == |History()| && History()[m].head.id == down
      ensures |second| > |undo| ==> m == |History()| && forall k :: 0 <= k < m ==> History()[k].head.id != down
      ensures forall k :: 0 <= k < |History()| && (m < k || m >= |History()|) ==> History()[k].head.id in items
    {
      var h := History();
      assert h[|h| - 1] == state;
      BranchWithin(second, state.head.id, down, items, blocks);
      if |second| <= |undo| {
        m := |undo| - |second|;
        BranchAlongHistory(second, h, down, blocks, apply, |second| - 1);
        assert Follows(h[m], h[m + 1], apply);
      } else {
        m := |h|;
        forall k | 0 <= k < m ensures h[k].head.id != down {
          Numbers(h, blocks, apply, k);
          Numbers(h, blocks, apply, |h| - 1);
          BranchNumbers(second, state.head.id, down, blocks, 0);
        }
      }
      forall k | 0 <= k < |h| && (m < k || m >= |h|) ensures h[k].head.id in items {
        BranchAlongHistory(second, h, down, blocks, apply, |h| - 1 - k);
        assert second[|h| - 1 - k].id in items;
      }
    }

    /** Where the branch of `tip` meets the chain according to `all`, if both reach that far. */
    ghost function Meeting(all: Items, tip: Block): (down: Option<Id>)
      reads this
      requires Valid() && ItemsOk(all) && tip.Numbered()
    {
      HeadIsKnown();
      if state.head.id in all then Meet(all, tip, state.head) else None
    }

    /**
     * The fork switch of `_push_block`.  It succeeds with the tip as head, or fails at some block of
     * the new branch and restores the whole history.  The fork database's head is restored too,
     * unless the tip was built on top of the old head: then it is left one block behind, if the
     * fork database has that block.
     */
    method SwitchFork(tip: Block) returns (r: PushResult)
      requires Valid() && tip.id == forkHead && items[forkHead] == tip && tip.id.num > state.head.id.num
      modifies this`state, this`undo, this`items, this`forkHead, this`log, this`popped
      ensures Valid() && History()[0] == old(History())[0] && (old(Complete()) ==> Complete())
      ensures r.Switched? || r.SwitchFailed? || r.BranchMissing? || r.UndoExhausted?
      ensures r.BranchMissing? <==> old(Meeting(items, tip)).None?
      ensures Within(items, old(items))
      ensures r.UndoExhausted? <==> old(Meeting(items, tip)).Some?
                                    && !OnChain(old(History()), old(Meeting(items, tip)).value)
      ensures r.Switched? ==> Rebuilds(old(History()), old(items), tip, old(Meeting(items, tip)), apply, state.obj)
      ensures CanRebuild(old(History()), old(items), tip, old(Meeting(items, tip)), apply) <==> r.Switched?
      ensures r.Switched? ==> state.head == tip && forkHead == tip.id && items == old(items)
      ensures r.SwitchFailed? ==> state == old(state) && undo == old(undo)
      ensures r.SwitchFailed? ==> Cleaned(old(History()), old(items), tip, old(Meeting(items, tip)), apply, items)
      ensures r.SwitchFailed? ==>
                forkHead == if Descends(old(items), tip, old(state).head) && old(state).head.prev in old(items)
                            then old(state).head.prev else old(state).head.id
      ensures r.BranchMissing? ==>
                && state == old(state) && undo == old(undo) && items == old(items) && log == old(log)
                && forkHead == old(forkHead) && popped == old(popped)
      ensures r.Switched? ==> old(Meeting(items, tip)).Some?
                              && popped == Undone(old(History()), old(Meeting(items, tip)).value) + old(popped)
      ensures Descends(old(items), tip, old(state).head) ==> !r.BranchMissing? && (r.UndoExhausted? ==> old(undo) == [])
      ensures r.UndoExhausted? ==> History() == old(History())[..1] && forkHead == tip.id && items == old(items)
    {
      hide Linked, Logged, Indexed, Follows, ItemsOk, Descends, Branch, Within, Rebuilt, Meet, OnChain,
        CanRebuild, Rebuilds, Broken, Undone;
      var head := state.head;
      HeadIsKnown();
      WithinItself(items);
      var first, second, down, found := FetchBranch(tip, head);
      if !found {
        NothingRebuilt(History(), items, tip);
        return BranchMissing;
      }
      ghost var h, before := History(), items;
      ghost var m := ForkPoint(second, down);
      TipIsNew(h, m, tip);
      MeetsAt(h, m, down);
      BranchNumbered(first, tip.id, down, items);
      RebuildsFrom(h, items, tip, down, m);
      BranchMembers(second, head.id, down, items);
      var reached := PopTo(down, m);
      if !reached {
        PrefixIndexed(h, 1, items);
        return UndoExhausted;
      }
      var switched := TryBranch(tip, head, first, second, down, h, m);
      assert !switched ==> undo == History()[..|undo|] == old(undo);
      r := if switched then Switched else SwitchFailed;
    }

    /** The part of the switch after the pops: the new branch, or the old one again. */
    method TryBranch(tip: Block, head: Block, first: seq<Block>, second: seq<Block>, down: Id, ghost h: seq<Entry<S>>,
                     ghost m: nat)
      returns (switched: bool)
      requires Valid() && tip.id == forkHead && tip.id in items && items[tip.id] == tip
      requires Branch(first, tip.id, down, items) && Branch(second, head.id, down, items)
      requires Descends(items, tip, head) <==> first[|first| - 1] == head
      requires (Descends(items, tip, head) ==> |second| == 1) && head.id in items && items[head.id] == head
      requires Linked(h, apply) && Indexed(h, blocks) && m + 1 + |second| == |h| && h[|h| - 1].head == head
      requires h[m].head.id == down && History() == h[..m + 1] && !OnChain(h, tip.id)
      modifies this`state, this`undo, this`items, this`forkHead, this`log, this`popped
      ensures Valid() && Within(items, old(items)) && History()[0] == h[0]
      ensures Indexed(h, old(items)) ==> Complete()
      ensures switched <==> Rebuilt(old(items), tip, down, h[m].obj, apply).Some?
      ensures switched ==> items == old(items) && forkHead == tip.id && state.head == tip
      ensures switched ==> Rebuilt(old(items), tip, down, h[m].obj, apply) == Some(state.obj) && popped == old(popped)
      ensures !switched ==> History() == h
      ensures !switched ==>
                forall id :: id in old(items) ==>
                               (id in items <==> !Broken(old(items), tip, down, h[m].obj, apply, id))
      ensures !switched ==>
                forkHead == if Descends(old(items), tip, head) && head.prev in old(items) then head.prev else head.id
    {
      hide Linked, Logged, Indexed, Follows, ItemsOk, Descends, Branch, Within, Rebuilt, OnChain, Broken;
      BranchMembers(second, head.id, down, items);
      WithinItself(items);
      var i := ApplyBranch(first, tip, down, h, m);
      if i > 0 {
        BranchWithin(first, tip.id, down, items, blocks);
        BranchMembers(first, tip.id, down, items);
        RestoredHead(tip, head, first, i, down, h, History());
        BrokenAbove(first, tip, down, items, h[m].obj, apply, i);
        RollBack(first, i, second, down, h, m);
        return false;
      }
      SwitchedIndexed(first, tip, down, h, m);
      switched := true;
    }

    lemma RebuildsFrom(h: seq<Entry<S>>, all: Items, tip: Block, down: Id, m: nat)
      requires ItemsOk(all) && tip.Numbered()
      requires m < |h| ==> h[m].head.id == down
      requires forall k :: 0 <= k < |h| && h[k].head.id == down ==> k == m
      ensures CanRebuild(h, all, tip, Some(down), apply) <==> m < |h| && Rebuilt(all, tip, down, h[m].obj, apply).Some?
      ensures CanRebuild(h, all, tip, Some(down), apply) ==>
                Rebuilds(h, all, tip, Some(down), apply, Rebuilt(all, tip, down, h[m].obj, apply).value)
    {
    }

    lemma NothingRebuilt(h: seq<Entry<S>>, all: Items, tip: Block)
      requires ItemsOk(all) && tip.id in all && all[tip.id] == tip
      ensures tip.Numbered() && !CanRebuild(h, all, tip, None, apply)
    {
    }

    /** The chain meets `down` exactly at the entry `m`, if it has one. */
    lemma MeetsAt(h: seq<Entry<S>>, m: nat, down: Id)
      requires ItemsOk(blocks) && Linked(h, apply) && Indexed(h, blocks)
      requires if m < |h| then h[m].head.id == down else forall k :: 0 <= k < |h| ==> h[k].head.id != down
      ensures OnChain(h, down) <==> m < |h|
      ensures forall k :: 0 <= k < |h| && h[k].head.id == down ==> k == m
    {
      forall k | 0 <= k < |h| && h[k].head.id == down ensures k == m {
        if k < m {
          DistinctHeads(h, k, m);
        } else if m < k {
          DistinctHeads(h, m, k);
        }
      }
    }

    lemma PrefixIndexed(h: seq<Entry<S>>, n: nat, all: Items)
      requires n <= |h|
      ensures Indexed(h, all) ==> Indexed(h[..n], all)
    {
    }

    lemma SwitchedIndexed(first: seq<Block>, tip: Block, down: Id, h: seq<Entry<S>>, m: nat)
      requires Branch(first, tip.id, down, items) && m < |h|
      requires |History()| == m + 1 + |first| && History()[..m + 1] == h[..m + 1]
      requires forall l :: 0 <= l < |first| ==> History()[m + |first| - l].head == first[l]
      ensures Indexed(h, items) ==> Complete()
    {
      var g := History();
      forall k | Indexed(h, items) && 0 <= k < |g| ensures g[k].head.id in items && items[g[k].head.id] == g[k].head {
        if k <= m {
          assert g[k] == g[..m + 1][k] == h[k];
        } else {
          var l := m + |first| - k;
          assert g[m + |first| - l].head == first[l];
        }
      }
    }

    /** Applies the new branch from its bottom; returns the number of blocks that were not applied. */
    method ApplyBranch(first: seq<Block>, tip: Block, down: Id, ghost h: seq<Entry<S>>, ghost m: nat) returns (i: nat)
      requires Valid() && Branch(first, tip.id, down, items) && tip.id in items && items[tip.id] == tip
      requires m < |h| && History() == h[..m + 1] && h[m].head.id == down
      modifies this`state, this`undo, this`log
      ensures Valid() && i <= |first|
      ensures |History()| == m + 1 + (|first| - i) && History()[..m + 1] == h[..m + 1]
      ensures forall l :: i <= l < |first| ==> History()[m + |first| - l].head == first[l]
      ensures i == 0 ==> state.head == tip
      ensures i > 0 ==> state.head.id == first[i - 1].prev && apply(state.obj, first[i - 1]).None?
      ensures Rebuilt(items, tip, down, h[m].obj, apply) == if i == 0 then Some(state.obj) else None
      ensures forall j :: 0 <= j < |first| ==>
                first[j].Numbered() && (Rebuilt(items, first[j], down, h[m].obj, apply).None? <==> j < i)
    {
      hide Linked, Logged, Indexed, Follows, ItemsOk, Rebuilt;
      BranchNumbered(first, tip.id, down, items);
      i := |first|;
      assert state == History()[m];
      while i > 0
        invariant Valid() && 0 <= i <= |first|
        invariant |History()| == m + 1 + (|first| - i) && History()[..m + 1] == h[..m + 1]
        invariant forall l :: i <= l < |first| ==> History()[m + |first| - l].head == first[l]
        invariant i == 0 || state.head.id == first[i - 1].prev
        invariant i == 0 ==> state.head == tip
        invariant if i == |first| then state == h[m]
                  else Rebuilt(items, first[i], down, h[m].obj, apply) == Some(state.obj)
        invariant forall l :: i <= l < |first| ==> Rebuilt(items, first[l], down, h[m].obj, apply).Some?
      {
        ghost var g := History();
        assert first[i - 1].id in blocks && blocks[first[i - 1].id] == first[i - 1] by {
          BranchWithin(first, tip.id, down, items, blocks);
        }
        RebuiltStep(first, tip.id, down, items, h[m].obj, apply, i - 1);
        var ok := ApplyBlock(first[i - 1]);
        if !ok {
          RebuiltFails(first, tip.id, down, items, h[m].obj, apply, i - 1);
          return;
        }
        i := i - 1;
        assert History()[..m + 1] == g[..m + 1];
      }
    }

    lemma TipIsNew(h: seq<Entry<S>>, m: nat, tip: Block)
      requires ItemsOk(blocks) && Linked(h, apply) && Indexed(h, blocks) && h != []
      requires tip.id.num > h[|h| - 1].head.id.num
      ensures !PoppedHead(h, m, tip.id) && !OnChain(h, tip.id)
    {
      forall k | 0 <= k < |h| ensures h[k].head.id.num < tip.id.num {
        Numbers(h, blocks, apply, k);
        Numbers(h, blocks, apply, |h| - 1);
      }
    }

    lemma HeadIsKnown()
      requires Valid()
      ensures state.head.id in blocks && blocks[state.head.id] == state.head && state.head.Numbered()
      ensures state.head.id in items ==> items[state.head.id] == state.head
    {
      var h := History();
      assert h[|h| - 1] == state;
    }

    lemma HeadWasApplied()
      requires Valid() && undo != []
      ensures apply(undo[|undo| - 1].obj, state.head).Some?
    {
      var h := History();
      assert Follows(h[|h| - 2], h[|h| - 1], apply);
    }

    /** The old head is among the applied blocks exactly when the tip was built on it. */
    lemma RestoredHead(tip: Block, head: Block, first: seq<Block>, i: nat, down: Id, h: seq<Entry<S>>, g: seq<Entry<S>>)
      requires ItemsOk(items) && tip.id in items && items[tip.id] == tip
      requires Branch(first, tip.id, down, items) && 0 < i <= |first|
      requires Descends(items, tip, head) <==> first[|first| - 1] == head
      requires h != [] && g != [] && h[0] == g[0] && h[|h| - 1].head == head && ItemsOk(blocks) && Within(items, blocks)
      requires Linked(h, apply) && Indexed(h, blocks) && Linked(g, apply) && Indexed(g, blocks)
      requires first[i - 1].prev == g[|g| - 1].head.id && apply(g[|g| - 1].obj, first[i - 1]).None?
      ensures (exists l :: i <= l < |first| && first[l] == head) <==> Descends(items, tip, head)
      ensures Descends(items, tip, head) ==> down == head.prev
    {
      FailingIsOffChain(h, g, first[i - 1]);
      assert OnChain(h, head.id) by { assert h[|h| - 1].head.id == head.id; }
      if exists l :: i <= l < |first| && first[l] == head {
        var l :| i <= l < |first| && first[l] == head;
        AncestorOnBranch(first, tip.id, down, items, 0, l);
      }
      if Descends(items, tip, head) {
        assert first[|first| - 1] == head;
        assert i < |first|;
      }
    }

    /**
     * `fork_database::remove` of any id.  Only losing the head moves the head, to the block before
     * it; a head without one would be reset, which no caller leaves behind.
     */
    method ForkRemove(id: Id)
      requires Valid() && (forkHead == id ==> items[id].prev in items)
      modifies this`items, this`forkHead
      ensures Valid() && items == old(items) - {id}
      ensures forkHead == if old(forkHead) == id then old(items)[id].prev else old(forkHead)
    {
      if forkHead == id {
        forkHead := items[id].prev;
      }
      items := items - {id};
    }

    /** Pushing `b` erases it from the fork database although it is on the chain. */
    ghost predicate Erases(b: Block)
      reads this
      requires forkHead in items
    {
      b.prev in items && OnChain(History(), b.id) && items[forkHead].prev == state.head.id
    }

    /** It holds from the constructor on, as pushed blocks link to known ones. */
    ghost predicate Anchored()
      reads this
    {
      AnchoredAt(items, History()[0].head.id)
    }

    /** In an anchored database every branch that meets the chain at all meets it at an entry. */
    lemma AnchoredMeets(all: Items, tip: Block)
      requires Valid() && ItemsOk(all) && Within(all, blocks) && tip.id in all && all[tip.id] == tip
      requires tip.id.num >= state.head.id.num
      ensures AnchoredAt(all, History()[0].head.id) && Meeting(all, tip).Some? && undo != [] ==>
                OnChain(History(), Meeting(all, tip).value)
    {
      hide Linked, Logged, Indexed, Follows, OnChain;
      HeadIsKnown();
      var h := History();
      assert h[|h| - 1] == state;
      if AnchoredAt(all, h[0].head.id) && Meeting(all, tip).Some? && undo != [] {
        MeetOnChain(h, all, blocks, apply, tip, |h| - 1);
      }
    }

    /** `b` would lead to a fork switch: the highest tip is above the head but not on top of it. */
    ghost predicate Switching(b: Block)
      reads this
      requires forkHead in items
    {
      b.prev in items && Tip(b).prev != state.head.id && Tip(b).id.num > state.head.id.num
    }

    /**
     * `_push_block`, from every state.  When the highest tip is on top of the head it is still the
     * pushed block that is applied, and removed if that fails.  A push that fails leaves the chain
     * as it was, unless the branch leaves the chain below the first entry: then the pops use up the
     * undo history, and the chain is cut down to that entry.  In an anchored database that takes an
     * empty undo history, so nothing changes.  The fork database loses a block of the chain exactly
     * when that block is pushed again while another tip is on top of the head.
     */
    method PushBlock(b: Block) returns (r: PushResult)
      requires Valid() && b.id in blocks && blocks[b.id] == b
      modifies this`state, this`undo, this`items, this`forkHead, this`log, this`popped
      ensures Valid() && History()[0] == old(History())[0]
      ensures old(Complete()) ==> (Complete() <==> !old(Erases(b)))
      ensures r.Unlinkable? <==> b.prev !in old(items)
      ensures r.NotHigher? <==> b.prev in old(items) && old(Tip(b)).prev != old(state).head.id
                                && old(Tip(b)).id.num <= old(state).head.id.num
      ensures r.Extended? <==> b.prev in old(items) && old(Tip(b)).prev == old(state).head.id
                               && b.prev == old(state).head.id && apply(old(state).obj, b).Some?
      ensures r.Rejected? <==> b.prev in old(items) && old(Tip(b)).prev == old(state).head.id
                               && !(b.prev == old(state).head.id && apply(old(state).obj, b).Some?)
      ensures r.Extended? ==> undo == old(undo) + [old(state)] && state == Entry(apply(old(state).obj, b).value, b)
      ensures r.Extended? || r.NotHigher? ==> items == old(items)[b.id := b] && forkHead == old(Tip(b)).id
      ensures r.BranchMissing? <==> old(Switching(b)) && old(Meeting(items[b.id := b], Tip(b))).None?
      ensures r.UndoExhausted? <==> old(Switching(b)) && old(Meeting(items[b.id := b], Tip(b))).Some?
                                    && !OnChain(old(History()), old(Meeting(items[b.id := b], Tip(b))).value)
      ensures r.Switched? <==> old(Switching(b)) && CanRebuild(old(History()), old(items)[b.id := b], old(Tip(b)),
                                                               old(Meeting(items[b.id := b], Tip(b))), apply)
      ensures r.SwitchFailed? <==> old(Switching(b)) && old(Meeting(items[b.id := b], Tip(b))).Some?
                                   && OnChain(old(History()), old(Meeting(items[b.id := b], Tip(b))).value)
                                   && !CanRebuild(old(History()), old(items)[b.id := b], old(Tip(b)),
                                                  old(Meeting(items[b.id := b], Tip(b))), apply)
      ensures r.Switched? ==>
                Rebuilds(old(History()), old(items)[b.id := b], old(Tip(b)), old(Meeting(items[b.id := b], Tip(b))),
                         apply, state.obj)
      ensures r.Switched? ==> state.head == old(Tip(b)) && forkHead == state.head.id
      ensures r.Unlinkable? || r.NotHigher? || r.Rejected? || r.SwitchFailed? || r.BranchMissing? ==>
                state == old(state) && undo == old(undo)
      ensures r.UndoExhausted? ==>
                History() == old(History())[..1] && items == old(items)[b.id := b] && forkHead == old(Tip(b)).id
      ensures old(Anchored()) ==> Anchored() && (r.UndoExhausted? ==> state == old(state) && undo == old(undo) == [])
      ensures r.Switched? ==>
                old(Meeting(items[b.id := b], Tip(b))).Some?
                && popped == Undone(old(History()), old(Meeting(items[b.id := b], Tip(b))).value) + old(popped)
      ensures r.Unlinkable? || r.NotHigher? || r.Extended? || r.Rejected? || r.BranchMissing? ==> popped == old(popped)
      ensures r.Unlinkable? ==> items == old(items) && forkHead == old(forkHead)
      ensures r.Switched? || r.BranchMissing? ==> items == old(items)[b.id := b] && forkHead == old(Tip(b)).id
      ensures r.SwitchFailed? ==> Cleaned(old(History()), old(items)[b.id := b], old(Tip(b)),
                                          old(Meeting(items[b.id := b], Tip(b))), apply, items)
      ensures r.Rejected? ==> items == old(items) - {b.id}
      ensures r.Rejected? ==> forkHead == if old(Tip(b)) == b then state.head.id else old(forkHead)
      ensures r.SwitchFailed? ==>
                forkHead == if Descends(old(items)[b.id := b], old(Tip(b)), state.head)
                               && state.head.prev in old(items)[b.id := b]
                            then state.head.prev else state.head.id
      ensures (old(Switching(b))
               && Descends(old(items)[b.id := b], old(Tip(b)), old(state).head)) ==>
                r.Switched? || r.SwitchFailed? || (r.UndoExhausted? && old(undo) == [])
    {
      hide Linked, Logged, Follows, Indexed, OnChain, Descends, AnchoredAt, Meet, Rebuilds, CanRebuild, Within,
        Cleaned, Undone;
      HeadIsKnown();
      ghost var before, h := items, History();
      HeightOnChain(h, b);
      var tip := ForkPush(b);
      if tip.None? {
        return Unlinkable;
      }
      PushKeepsComplete(h, before, b);
      PushKeepsAnchor(before, h[0].head.id, b);
      if tip.value.prev != state.head.id {
        if tip.value.id.num > state.head.id.num {
          ghost var pushed := items;
          AnchoredMeets(items, tip.value);
          r := SwitchFork(tip.value);
          PartKeepsAnchor(items, pushed, h[0].head.id);
        } else {
          r := NotHigher;
        }
      } else {
        var ok := ApplyBlock(b);
        if ok {
          ExtendIsIndexed(h, state, items);
          return Extended;
        }
        ForkRemove(b.id);
        assert before[b.id := b] - {b.id} == before - {b.id};
        RemovalKeepsComplete(h, before, b);
        RemovalKeepsAnchor(before, h[0].head.id, b.id);
        r := Rejected;
      }
    }

    /** A block above the head, or on top of it, is not on the chain. */
    lemma HeightOnChain(h: seq<Entry<S>>, b: Block)
      requires Valid() && h == History() && b.id in blocks && blocks[b.id] == b
      ensures OnChain(h, b.id) ==> b.id.num <= state.head.id.num && b.prev != state.head.id
      ensures items[forkHead].prev == state.head.id ==> forkHead.num == state.head.id.num + 1
    {
      if OnChain(h, b.id) {
        var k :| 0 <= k < |h| && h[k].head.id == b.id;
        Numbers(h, blocks, apply, k);
        Numbers(h, blocks, apply, |h| - 1);
      }
    }

    lemma PushKeepsAnchor(before: Items, root: Id, b: Block)
      requires b.prev in before && b.Numbered()
      ensures AnchoredAt(before, root) ==> AnchoredAt(before[b.id := b], root)
    {
    }

    lemma PartKeepsAnchor(part: Items, all: Items, root: Id)
      requires Within(part, all)
      ensures AnchoredAt(all, root) ==> AnchoredAt(part, root)
    {
    }

    lemma RemovalKeepsAnchor(before: Items, root: Id, id: Id)
      ensures AnchoredAt(before, root) ==> AnchoredAt(before - {id}, root)
    {
    }

    lemma HasChain(k: nat)
      requires Complete() && k < |History()|
      ensures History()[k].head.id in items
    {
    }

    lemma PushKeepsComplete(h: seq<Entry<S>>, before: Items, b: Block)
      requires Indexed(h, blocks) && b.id in blocks && blocks[b.id] == b
      ensures Indexed(h, before) ==> Indexed(h, before[b.id := b])
    {
    }

    lemma ExtendIsIndexed(h: seq<Entry<S>>, e: Entry<S>, all: Items)
      requires e.head.id in all && all[e.head.id] == e.head
      ensures Indexed(h, all) ==> Indexed(h + [e], all)
    {
    }

    lemma RemovalKeepsComplete(h: seq<Entry<S>>, before: Items, b: Block)
      ensures Indexed(h, before) ==> (Indexed(h, before - {b.id}) <==> !OnChain(h, b.id))
    {
      if Indexed(h, before) && OnChain(h, b.id) {
        var k :| 0 <= k < |h| && h[k].head.id == b.id;
        assert h[k].head.id !in before - {b.id};
      }
    }

    /** A new irreversible block: the undo history keeps only its last `size` states. */
    method Commit(size: nat)
      requires Valid()
      modifies this`undo
      ensures Valid() && (old(Complete()) ==> Complete())
      ensures undo == if size < |old(undo)| then old(undo)[|old(undo)| - size..] else old(undo)
    {
      if size < |undo| {
        ghost var h := History();
        var n := |undo| - size;
        undo := undo[n..];
        assert History() == h[n..];
        SuffixIsGood(h, n);
      }
    }

    lemma SuffixIsGood(h: seq<Entry<S>>, n: nat)
      requires Good(h) && n < |h|
      ensures Good(h[n..]) && (Indexed(h, items) ==> Indexed(h[n..], items))
    {
      var g := h[n..];
      forall k | 1 <= k < |g| ensures Follows(g[k - 1], g[k], apply) {
        assert Follows(h[n + k - 1], h[n + k], apply);
      }
    }

    /**
     * After every run of pushes, switches, failed switches, pops and commits the history is
     * replayable from its first entry and the block log names the main chain's block at every
     * number.  Without commits the first entry stays and the database stays anchored, so no push
     * of the run cuts the chain down.
     */
    method Run(commands: seq<Command>)
      requires Valid()
      requires forall i :: 0 <= i < |commands| && commands[i].Push? ==>
                 commands[i].block.id in blocks && blocks[commands[i].block.id] == commands[i].block
      modifies this
      ensures Valid()
      ensures (forall i :: 0 <= i < |commands| ==> !commands[i].Commit?) ==>
                History()[0] == old(History())[0] && (old(Anchored()) ==> Anchored())
    {
      hide Linked, Logged, Indexed, ItemsOk, Within, AnchoredAt, CanRebuild, Rebuilds;
      for i := 0 to |commands|
        invariant Valid()
        invariant (forall j :: 0 <= j < i ==> !commands[j].Commit?) ==>
                    History()[0] == old(History())[0] && (old(Anchored()) ==> Anchored())
      {
        match commands[i] {
          case Push(b) =>
            var r := PushBlock(b);
          case Pop =>
            var ok := PopBlock();
          case Commit(size) =>
            Commit(size);
        }
      }
    }
  }

  ghost predicate PoppedHead<S(!new)>(h: seq<Entry<S>>, m: int, id: Id) {
    exists k :: m < k < |h| && 0 <= k && h[k].head.id == id
  }

  lemma ExtendBranch(s: seq<Block>, top: Id, next: Block, items: Items)
    requires s != [] && Branch(s, top, next.id, items) && next.id in items && items[next.id] == next
    ensures Branch(s + [next], top, next.prev, items)
  {
  }

  // ----- a switch that does not restore the fork database's head

  /** Applying refuses block 9 and nothing else. */
  function RefuseNine(n: nat, b: Block): (r: Option<nat>) {
    if b.id.hash == 9 then None else Some(n + 1)
  }

  const ROOT := Block(Id(1, 1), Id(0, 0), [])
  const A := Block(Id(2, 2), ROOT.id, [])
  const P := Block(Id(3, 3), A.id, [])
  const Q := Block(Id(4, 4), P.id, [])
  const BAD := Block(Id(5, 9), Q.id, [])
  const SIBLING := Block(Id(3, 5), A.id, [])
  const S2 := Block(Id(2, 6), ROOT.id, [])
  const S3 := Block(Id(3, 7), S2.id, [])
  const S4 := Block(Id(4, 8), S3.id, [])
  const ALL := map[ROOT.id := ROOT, A.id := A, P.id := P, Q.id := Q, BAD.id := BAD, SIBLING.id := SIBLING,
                   S2.id := S2, S3.id := S3, S4.id := S4]

  method PushTwo() returns (db: Database<nat>)
    ensures fresh(db) && db.Valid() && db.Complete() && db.apply == RefuseNine && db.blocks == ALL
    ensures |db.undo| == 2 && db.undo[0].head == ROOT && db.undo[1].head == A && db.state.head == P
    ensures db.forkHead == P.id
    ensures db.items == map[ROOT.id := ROOT, A.id := A, P.id := P]
  {
    hide Linked, Logged, Indexed, Follows, OnChain, Within, Descends, CanRebuild, Rebuilds, AnchoredAt, Meet;
    db := new Database(RefuseNine, 0, ROOT, ALL);
    var r := db.PushBlock(A);
    assert r.Extended? && db.undo[0].head == ROOT && |db.undo| == 1;
    r := db.PushBlock(P);
    assert r.Extended?;
  }

  /** A third block is pushed and popped, which the fork database keeps. */
  method PushThreePopOne() returns (db: Database<nat>)
    ensures fresh(db) && db.Valid() && db.Complete() && db.apply == RefuseNine && db.blocks == ALL
    ensures |db.undo| == 2 && db.undo[0].head == ROOT && db.undo[1].head == A && db.state.head == P
    ensures db.forkHead == P.id
    ensures db.items == map[ROOT.id := ROOT, A.id := A, P.id := P, Q.id := Q]
  {
    hide Linked, Logged, Indexed, Follows, OnChain, Within, Descends, CanRebuild, Rebuilds, AnchoredAt, Meet;
    db := PushTwo();
    var r := db.PushBlock(Q);
    assert r.Extended?;
    ghost var h := db.History();
    assert h[0].head == ROOT && h[1].head == A && h[2].head == P;
    var ok := db.PopBlock();
    assert db.History() == h[..3] && db.state == h[2] && db.undo == db.History()[..2];
  }

  /**
   * A block on top of the popped one is then refused.  The chain is back where it was, but the fork
   * database's head is one block behind it.
   */
  method HeadLeftBehind() returns (db: Database<nat>, r: PushResult)
    ensures fresh(db) && r.SwitchFailed? && db.Valid() && db.Complete() && db.blocks == ALL
    ensures ROOT.id in db.items && A.id in db.items && P.id in db.items
    ensures db.state.head == P && db.forkHead == A.id
    ensures |db.undo| == 2 && db.undo[0].head == ROOT && db.undo[1].head == A
  {
    hide Linked, Logged, Indexed, Follows, Within, CanRebuild, Rebuilds, AnchoredAt, Meet;
    db := PushThreePopOne();
    ghost var all := db.items[BAD.id := BAD];
    assert Ancestor(all, BAD, 3) == Ancestor(all, Q, 3) == Some(P);
    r := db.PushBlock(BAD);
    if |db.undo| > 0 {
      db.HeadWasApplied();
    }
    db.HasChain(0);
    db.HasChain(1);
    db.HasChain(2);
  }

  /**
   * From there a sibling of the head becomes the fork database's head, and a pop puts it on top of
   * the new head.  Pushing the head block again then erases it from the fork database, and the
   * chain can no longer be popped.
   */
  method ChainBlockErased() returns (db: Database<nat>, r: PushResult, popped: bool)
    ensures r.Rejected? && db.Valid() && db.state.head == A && A.id !in db.items && !popped
  {
    hide Linked, Logged, Indexed, Follows, Within, CanRebuild, Rebuilds, AnchoredAt, Meet;
    db, r := HeadLeftBehind();
    r := db.PushBlock(SIBLING);
    assert r.NotHigher? && db.forkHead == SIBLING.id;
    ghost var h := db.History();
    assert h[0].head == ROOT && h[1].head == A;
    var ok := db.PopBlock();
    assert db.History() == h[..2] && db.state == h[1];
    r := db.PushBlock(A);
    popped := db.PopBlock();
  }

  /** A commit leaves one state to undo; then a branch from below it is pushed up to the head's height. */
  method PushTwoAndFork() returns (db: Database<nat>)
    ensures fresh(db) && db.Valid() && db.blocks == ALL && db.forkHead == P.id
    ensures |db.undo| == 1 && db.undo[0].head == A && db.state.head == P
    ensures db.items == map[ROOT.id := ROOT, A.id := A, P.id := P, S2.id := S2, S3.id := S3]
  {
    hide Linked, Logged, Indexed, Follows, Within, Descends, CanRebuild, Rebuilds, AnchoredAt, Meet, OnChain,
      ItemsOk;
    db := PushTwo();
    db.Commit(1);
    var r := db.PushBlock(S2);
    assert r.NotHigher?;
    r := db.PushBlock(S3);
    assert r.NotHigher?;
  }

  /**
   * The push of the branch's next block makes it the highest tip, but the blocks it branched from
   * can no longer be undone: the push fails, and the chain has lost its head block.
   */
  method ChainCutDown() returns (db: Database<nat>, r: PushResult)
    ensures r.UndoExhausted? && db.Valid() && db.state.head == A && db.undo == []
  {
    hide Linked, Logged, Indexed, Follows, Within, Descends, CanRebuild, Rebuilds, AnchoredAt, Meet;
    db := PushTwoAndFork();
    ghost var all, h := db.items[S4.id := S4], db.History();
    MeetAtRoot(all);
    assert h[0].head == A && h[1].head == P;
    r := db.PushBlock(S4);
  }

  lemma MeetAtRoot(all: Items)
    requires ItemsOk(all) && S3.id in all && all[S3.id] == S3 && S2.id in all && all[S2.id] == S2
    requires P.id in all && A.id in all && all[A.id] == A
    ensures Meet(all, S4, P) == Some(ROOT.id)
  {
    assert Meet(all, S4, P) == Meet(all, S3, P) == Meet(all, S2, A);
  }
}

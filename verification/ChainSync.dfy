/**
 * Chain synchronisation: one node sends an exponentially spaced synopsis of its chain, the other
 * answers with the block ids that follow the last one it recognises.
 */
module ChainSync {
  import opened Ledger
  import opened ForkSwitch

  const ZERO := Id(0, 0)

  /**
   * What the protocol reads of a node: the head number, the block log by number, which may still
   * hold blocks of an abandoned fork above the head, and the ids in the fork database.
   */
  datatype Node = Node(head: nat, log: map<nat, Id>, forks: set<Id>) {
    ghost predicate Valid() {
      && (forall n :: 1 <= n <= head ==> n in log)
      && (forall n :: n in log ==> n >= 1 && log[n].num == n)
      && (forall m, n :: n in log && 1 <= m <= n ==> m in log)
    }

    /** The log has a block at every number up to `n`. */
    ghost predicate Reaches(n: nat) {
      n == 0 || n in log
    }

    /** `is_known_block`. */
    predicate Known(id: Id) {
      id in forks || (id.num in log && log[id.num] == id)
    }
  }

  // ----- the synopsis

  /** The next entry is half way to the true end, and always a step further. */
  function Next(low: nat, trueHigh: nat): (r: nat)
    requires low <= trueHigh
    ensures low < r <= trueHigh + 1
  {
    low + (trueHigh - low + 2) / 2
  }

  /** The block numbers of a synopsis from `low` to `high`. */
  function Entries(low: nat, high: nat, trueHigh: nat): (s: seq<nat>)
    requires low <= high <= trueHigh
    decreases high - low
  {
    [low] + (if Next(low, trueHigh) <= high then Entries(Next(low, trueHigh), high, trueHigh) else [])
  }

  ghost predicate Increasing(s: seq<nat>) {
    forall i, j :: 0 <= i < j < |s| ==> s[i] < s[j]
  }

  function Pow2(n: nat): (r: nat)
    ensures r > 0
  {
    if n == 0 then 1 else 2 * Pow2(n - 1)
  }

  /** Entries grow strictly within the range, and end at `high` when nothing follows it. */
  lemma {:induction false} EntriesInRange(low: nat, high: nat, trueHigh: nat)
    requires low <= high <= trueHigh
    ensures var s := Entries(low, high, trueHigh);
            && s != [] && s[0] == low && Increasing(s)
            && (forall i :: 0 <= i < |s| ==> low <= s[i] <= high)
            && (high == trueHigh ==> s[|s| - 1] == high)
    decreases high - low
  {
    var next := Next(low, trueHigh);
    if next <= high {
      EntriesInRange(next, high, trueHigh);
      var rest := Entries(next, high, trueHigh);
      var s := [low] + rest;
      forall i, j | 0 <= i < j < |s| ensures s[i] < s[j] {
        if i > 0 {
          assert rest[i - 1] < rest[j - 1];
        }
      }
    }
  }

  /** A span of n blocks takes at most log2(n + 1) + 1 entries. */
  lemma {:induction false} EntriesAreFew(low: nat, high: nat, trueHigh: nat)
    requires low <= high <= trueHigh
    ensures Pow2(|Entries(low, high, trueHigh)| - 1) <= trueHigh - low + 1
    decreases high - low
  {
    var next := Next(low, trueHigh);
    if next <= high {
      EntriesAreFew(next, high, trueHigh);
      assert 2 * (trueHigh - next + 1) <= trueHigh - low + 1;
    }
  }

  /** The last entry not above `c`. */
  ghost predicate LastUpTo(s: seq<nat>, c: nat, e: nat) {
    && e in s && e <= c
    && forall x :: x in s && x <= c ==> x <= e
  }

  /** The last entry not above a fork point is at most as far below it as the true end is above. */
  lemma {:induction false} EntryNearFork(low: nat, high: nat, trueHigh: nat, c: nat) returns (e: nat)
    requires low <= high <= trueHigh && low <= c <= high
    ensures LastUpTo(Entries(low, high, trueHigh), c, e)
    ensures c - e <= trueHigh - c
    decreases high - low
  {
    var next := Next(low, trueHigh);
    EntriesInRange(low, high, trueHigh);
    if next <= c {
      e := EntryNearFork(next, high, trueHigh, c);
    } else {
      e := low;
      if next <= high {
        EntriesInRange(next, high, trueHigh);
      }
    }
  }

  /** Our chain as the synopsis sees it: the main chain, then the fork up to the reference point. */
  datatype View = View(nonForkHigh: nat, fork: seq<Id>) {
    function High(): (n: nat) {
      nonForkHigh + |fork|
    }
  }

  function IdAt(node: Node, v: View, n: nat): (id: Id)
    requires node.Valid() && node.Reaches(v.nonForkHigh) && 1 <= n <= v.High()
  {
    if n <= v.nonForkHigh then node.log[n] else v.fork[n - v.nonForkHigh - 1]
  }

  /** The fork's ids are numbered on from the part in the log, which may reach above the head. */
  ghost predicate ViewOk(node: Node, v: View) {
    && node.Valid() && node.Reaches(v.nonForkHigh)
    && forall i :: 0 <= i < |v.fork| ==> v.fork[i].num == v.nonForkHigh + 1 + i
  }

  /** The ids of a synopsis from `low` on, `after` blocks being left for the network layer. */
  function SynopsisIds(node: Node, v: View, low: nat, after: nat): (ids: seq<Id>)
    requires node.Valid() && node.Reaches(v.nonForkHigh) && 1 <= low <= v.High()
    decreases v.High() - low
  {
    var next := Next(low, v.High() + after);
    [IdAt(node, v, low)] + (if next <= v.High() then SynopsisIds(node, v, next, after) else [])
  }

  /** The ids are those of our chain at the entry numbers. */
  lemma {:induction false} SynopsisFollowsEntries(node: Node, v: View, low: nat, after: nat)
    requires ViewOk(node, v) && 1 <= low <= v.High()
    ensures var ids, es := SynopsisIds(node, v, low, after), Entries(low, v.High(), v.High() + after);
            && |ids| == |es|
            && forall i :: 0 <= i < |es| ==>
                 1 <= es[i] <= v.High() && ids[i] == IdAt(node, v, es[i]) && ids[i].num == es[i]
    decreases v.High() - low
  {
    var next := Next(low, v.High() + after);
    if next <= v.High() {
      SynopsisFollowsEntries(node, v, next, after);
    }
  }

  // ----- building it

  /** What the fork database returns: ids from the reference point down to a main chain block. */
  ghost predicate ForkIdsOk(node: Node, reference: Id, ids: seq<Id>) {
    && |ids| >= 2 && ids[0] == reference
    && (forall i :: 0 <= i < |ids| ==> ids[i].num == reference.num - i)
    && ids[|ids| - 1].num <= node.head
  }

  function Reverse(s: seq<Id>): (r: seq<Id>)
    ensures |r| == |s|
  {
    if s == [] then [] else Reverse(s[1..]) + [s[0]]
  }

  lemma {:induction false} ReverseAt(s: seq<Id>, k: nat)
    requires k < |s|
    ensures Reverse(s)[k] == s[|s| - 1 - k]
  {
    if k < |s| - 1 {
      ReverseAt(s[1..], k);
    }
  }

  datatype SynopsisResult = Synopsis(ids: seq<Id>) | NotFound | ForkTooOld

  /**
   * `get_blockchain_synopsis`.  `forkIds` is what the fork database returns for a reference point
   * that is not on the main chain.
   */
  method GetSynopsis(node: Node, lastUndoable: nat, reference: Id, after: nat, forkIds: Option<seq<Id>>)
    returns (r: SynopsisResult, v: View, low: nat)
    requires node.Valid() && lastUndoable <= node.head
    requires reference != ZERO ==> reference.num > 0
    requires forkIds.Some? ==> ForkIdsOk(node, reference, forkIds.value)
    ensures r.Synopsis? && r.ids == [] <==> reference == ZERO && node.head == 0
    ensures r.Synopsis? && r.ids != [] ==>
              && ViewOk(node, v) && 1 <= low <= v.High()
              && r.ids == SynopsisIds(node, v, low, after)
    ensures r.Synopsis? && r.ids != [] ==>
              var first := if v.nonForkHigh < lastUndoable then v.nonForkHigh else lastUndoable;
              low == if first == 0 then 1 else first
    ensures r.Synopsis? && reference == ZERO ==> v == View(node.head, [])
    ensures r.Synopsis? && reference != ZERO && reference.num in node.log && node.log[reference.num] != reference ==>
              && forkIds.Some? && lastUndoable <= v.nonForkHigh == forkIds.value[|forkIds.value| - 1].num
              && |v.fork| == |forkIds.value| - 1
              && forall i :: 0 <= i < |v.fork| ==> v.fork[i] == forkIds.value[|v.fork| - 1 - i]
    ensures r.Synopsis? && r.ids != [] ==> v.High() == if reference == ZERO then node.head else reference.num
    ensures r.Synopsis? && reference != ZERO && reference.num in node.log && node.log[reference.num] == reference ==>
              v == View(reference.num, [])
    ensures r.NotFound? <==> reference != ZERO && (reference.num !in node.log
                             || (node.log[reference.num] != reference && forkIds.None?))
    ensures r.ForkTooOld? <==> reference != ZERO && reference.num in node.log && node.log[reference.num] != reference
                               && forkIds.Some? && forkIds.value[|forkIds.value| - 1].num < lastUndoable
  {
    v, low := View(node.head, []), lastUndoable;
    if reference != ZERO {
      if reference.num !in node.log {
        return NotFound, v, low;
      }
      if node.log[reference.num] == reference {
        v := View(reference.num, []);
        if reference.num < low {
          low := reference.num;
        }
      } else {
        if forkIds.None? {
          return NotFound, v, low;
        }
        var ids := forkIds.value;
        var above := ids[..|ids| - 1];
        v := View(ids[|ids| - 1].num, Reverse(above));
        forall i | 0 <= i < |above|
          ensures v.fork[i] == ids[|above| - 1 - i] && v.fork[i].num == v.nonForkHigh + 1 + i
        {
          ReverseAt(above, i);
        }
        if v.nonForkHigh < low {
          return ForkTooOld, v, low;
        }
      }
    } else if node.head == 0 {
      return Synopsis([]), v, low;
    }
    if low == 0 {
      low := 1;
    }
    var ids := BuildSynopsis(node, v, low, after);
    r := Synopsis(ids);
  }

  lemma SynopsisStep(node: Node, v: View, low: nat, after: nat)
    requires ViewOk(node, v) && 1 <= low <= v.High()
    ensures var next := Next(low, v.High() + after);
            SynopsisIds(node, v, low, after)
            == [IdAt(node, v, low)] + (if next <= v.High() then SynopsisIds(node, v, next, after) else [])
  {
    hide IdAt;
  }

  /** The loop: every index into the main chain or the fork history is in range. */
  method BuildSynopsis(node: Node, v: View, low: nat, after: nat) returns (ids: seq<Id>)
    requires ViewOk(node, v) && 1 <= low <= v.High()
    ensures ids == SynopsisIds(node, v, low, after) && ids != []
  {
    hide SynopsisIds, IdAt;
    var trueHigh := v.High() + after;
    var num := low;
    ghost var left := SynopsisIds(node, v, low, after);
    SynopsisStep(node, v, low, after);
    ids := [];
    while num <= v.High()
      invariant low <= num && ids + left == SynopsisIds(node, v, low, after)
      invariant left == if num <= v.High() then SynopsisIds(node, v, num, after) else []
      decreases v.High() + 1 - num
    {
      var id := IdAt(node, v, num);
      SynopsisStep(node, v, num, after);
      assert ids + left == (ids + [id]) + left[1..];
      left := left[1..];
      ids := ids + [id];
      num := num + (trueHigh - num + 2) / 2;
    }
  }

  // ----- whose chain a synopsis is of

  /** The block `k` steps before `id`; `prev` names the block before each. */
  function Walk(prev: Id -> Id, id: Id, k: nat): (r: Id) {
    if k == 0 then id else prev(Walk(prev, id, k - 1))
  }

  /** The block at number `n` on the chain of the reference point, the last block of the view. */
  function Own(node: Node, v: View, prev: Id -> Id, n: nat): (r: Id)
    requires node.Valid() && node.Reaches(v.nonForkHigh) && 1 <= n <= v.High()
  {
    Walk(prev, IdAt(node, v, v.High()), v.High() - n)
  }

  /** Each block of the view from `low` on is followed by one that was built on it. */
  ghost predicate LinkedFrom(node: Node, v: View, prev: Id -> Id, low: nat)
    requires ViewOk(node, v) && 1 <= low
  {
    forall n :: low < n <= v.High() ==> prev(IdAt(node, v, n)) == IdAt(node, v, n - 1)
  }

  /** The view from `low` on is the reference point's own chain exactly when its blocks are linked. */
  lemma {:induction false} ViewIsOwnChain(node: Node, v: View, prev: Id -> Id, low: nat)
    requires ViewOk(node, v) && 1 <= low <= v.High()
    ensures (forall n :: low <= n <= v.High() ==> IdAt(node, v, n) == Own(node, v, prev, n))
            <==> LinkedFrom(node, v, prev, low)
  {
    if LinkedFrom(node, v, prev, low) {
      forall n | low <= n <= v.High() ensures IdAt(node, v, n) == Own(node, v, prev, n) {
        FollowLinks(node, v, prev, low, n);
      }
    }
    if forall n :: low <= n <= v.High() ==> IdAt(node, v, n) == Own(node, v, prev, n) {
      forall n | low < n <= v.High() ensures prev(IdAt(node, v, n)) == IdAt(node, v, n - 1) {
        assert IdAt(node, v, n) == Own(node, v, prev, n) && IdAt(node, v, n - 1) == Own(node, v, prev, n - 1);
      }
    }
  }

  lemma {:induction false} FollowLinks(node: Node, v: View, prev: Id -> Id, low: nat, n: nat)
    requires ViewOk(node, v) && 1 <= low <= n <= v.High() && LinkedFrom(node, v, prev, low)
    ensures IdAt(node, v, n) == Own(node, v, prev, n)
    decreases v.High() - n
  {
    if n < v.High() {
      FollowLinks(node, v, prev, low, n + 1);
      assert prev(IdAt(node, v, n + 1)) == IdAt(node, v, n);
    }
  }

  /**
   * A reference point found in the log, on a node whose main chain is linked.  At or below the head
   * the log is its own chain.  Above the head, where an abandoned fork left it, the log is its own
   * chain exactly when the blocks above the head are linked down to the head.
   */
  lemma OwnChainInLog(node: Node, prev: Id -> Id, reference: nat, low: nat)
    requires node.Valid() && reference in node.log && 1 <= low <= reference
    requires forall n :: 1 < n <= node.head ==> prev(node.log[n]) == node.log[n - 1]
    ensures (forall n :: low <= n <= reference ==> node.log[n] == Own(node, View(reference, []), prev, n))
            <==> forall n :: low < n <= reference && node.head < n ==> prev(node.log[n]) == node.log[n - 1]
    ensures reference <= node.head ==>
              forall n :: low <= n <= reference ==> node.log[n] == Own(node, View(reference, []), prev, n)
  {
    hide Own;
    var v := View(reference, []);
    ViewIsOwnChain(node, v, prev, low);
    assert forall n :: low <= n <= reference ==> IdAt(node, v, n) == node.log[n];
    if forall n :: low < n <= reference && node.head < n ==> prev(node.log[n]) == node.log[n - 1] {
      assert LinkedFrom(node, v, prev, low);
    }
    if LinkedFrom(node, v, prev, low) {
      forall n | low < n <= reference && node.head < n ensures prev(node.log[n]) == node.log[n - 1] {
        assert prev(IdAt(node, v, n)) == IdAt(node, v, n - 1);
      }
    }
  }

  /** Where the reference point's chain leaves our main chain: equal up to `c` and nowhere above it. */
  ghost predicate LeavesAt(node: Node, v: View, prev: Id -> Id, c: nat)
    requires ViewOk(node, v)
  {
    && c <= node.head && c <= v.High()
    && (forall n :: 1 <= n <= c ==> node.log[n] == Own(node, v, prev, n))
    && forall n :: c < n <= node.head && n <= v.High() ==> node.log[n] != Own(node, v, prev, n)
  }

  /**
   * The synopsis for a reference point that one failed switch left in the log above the head: its
   * ids are of the reference point's own chain exactly when no entry lies above the point where
   * that chain left ours and not above our head.
   */
  lemma SynopsisIsOwnChain(node: Node, prev: Id -> Id, reference: nat, low: nat, after: nat, c: nat)
    requires node.Valid() && reference in node.log && 1 <= low <= reference
    requires forall n :: node.head + 1 < n <= reference ==> prev(node.log[n]) == node.log[n - 1]
    requires LeavesAt(node, View(reference, []), prev, c)
    ensures var v, es := View(reference, []), Entries(low, reference, reference + after);
            && |SynopsisIds(node, v, low, after)| == |es|
            && (forall i :: 0 <= i < |es| ==> low <= es[i] <= reference)
            && ((forall i :: 0 <= i < |es| ==> SynopsisIds(node, v, low, after)[i] == Own(node, v, prev, es[i]))
                <==> forall i :: 0 <= i < |es| ==> !(c < es[i] <= node.head))
  {
    hide Own, Entries, SynopsisIds;
    var v, es := View(reference, []), Entries(low, reference, reference + after);
    EntriesInRange(low, reference, reference + after);
    SynopsisFollowsEntries(node, v, low, after);
    forall i | 0 <= i < |es|
      ensures SynopsisIds(node, v, low, after)[i] == Own(node, v, prev, es[i]) <==> !(c < es[i] <= node.head)
    {
      if es[i] > node.head {
        FollowLinks(node, v, prev, node.head + 1, es[i]);
      }
    }
  }

  // ----- the answer

  datatype Found = At(id: Id) | Nothing | Thrown

  /**
   * The last id of the synopsis that the node recognises.  An id that is known but whose number the
   * log does not have makes the lookup throw.
   */
  function FindLast(node: Node, synopsis: seq<Id>): (r: Found) {
    if synopsis == [] then Nothing
    else
      var id := synopsis[|synopsis| - 1];
      if id == ZERO then At(id)
      else if node.Known(id) && id.num !in node.log then Thrown
      else if node.Known(id) && node.log[id.num] == id then At(id)
      else FindLast(node, synopsis[..|synopsis| - 1])
  }

  /** Whether the search stops at an id: the empty id, or one on the peer's main chain. */
  predicate Shared(node: Node, id: Id) {
    id == ZERO || (id.num in node.log && node.log[id.num] == id)
  }

  /** The search goes past the ids it does not share, and stops at the last one it shares. */
  lemma {:induction false} FindLastIsLast(node: Node, synopsis: seq<Id>)
    ensures var r := FindLast(node, synopsis);
            && (r.At? ==> exists k :: 0 <= k < |synopsis| && synopsis[k] == r.id && Shared(node, r.id)
                                      && forall i :: k < i < |synopsis| ==> !Shared(node, synopsis[i]))
            && (r.Nothing? ==> forall i :: 0 <= i < |synopsis| ==> !Shared(node, synopsis[i]))
            && (r.Thrown? ==> exists k :: 0 <= k < |synopsis| && synopsis[k] in node.forks
                                          && synopsis[k].num !in node.log
                                          && forall i :: k < i < |synopsis| ==> !Shared(node, synopsis[i]))
  {
    if synopsis != [] {
      var n := |synopsis| - 1;
      FindLastIsLast(node, synopsis[..n]);
      assert synopsis[..n] + [synopsis[n]] == synopsis;
    }
  }

  /** Consecutive main chain ids from `from`, at most `limit` of them. */
  function IdsFrom(node: Node, from: nat, limit: nat): (ids: seq<Id>)
    requires node.Valid() && from >= 1
    decreases limit
  {
    if from > node.head || limit == 0 then [] else [node.log[from]] + IdsFrom(node, from + 1, limit - 1)
  }

  lemma {:induction false} IdsAreConsecutive(node: Node, from: nat, limit: nat)
    requires node.Valid() && from >= 1
    ensures var ids := IdsFrom(node, from, limit);
            && (from <= node.head + 1 ==> |ids| == if limit < node.head + 1 - from then limit else node.head + 1 - from)
            && (from > node.head ==> ids == [])
            && forall i :: 0 <= i < |ids| ==> from + i <= node.head && ids[i] == node.log[from + i]
    decreases limit
  {
    if from <= node.head && limit > 0 {
      IdsAreConsecutive(node, from + 1, limit - 1);
    }
  }

  datatype Reply = Ids(ids: seq<Id>, remaining: nat) | Unreachable | LookupFailed

  /** The search of `get_block_ids`, from the end of the synopsis. */
  method FindLastKnown(node: Node, synopsis: seq<Id>) returns (r: Found)
    ensures r == FindLast(node, synopsis)
  {
    var i := |synopsis|;
    assert synopsis[..i] == synopsis;
    while i > 0
      invariant 0 <= i <= |synopsis| && FindLast(node, synopsis) == FindLast(node, synopsis[..i])
    {
      var id := synopsis[i - 1];
      assert synopsis[..i][..i - 1] == synopsis[..i - 1];
      if id == ZERO {
        return At(id);
      }
      if node.Known(id) {
        if id.num !in node.log {
          return Thrown;
        }
        if node.log[id.num] == id {
          return At(id);
        }
      }
      i := i - 1;
    }
    r := Nothing;
  }

  /** The loop of `get_block_ids` that collects the ids. */
  method CollectIds(node: Node, from: nat, limit: nat) returns (ids: seq<Id>)
    requires node.Valid() && from >= 1
    ensures ids == IdsFrom(node, from, limit)
  {
    ids := [];
    var num := from;
    while num <= node.head && |ids| < limit
      invariant from <= num && |ids| <= limit
      invariant ids + IdsFrom(node, num, limit - |ids|) == IdsFrom(node, from, limit)
      decreases node.head + 1 - num
    {
      ghost var rest := IdsFrom(node, num + 1, limit - |ids| - 1);
      assert ids + ([node.log[num]] + rest) == (ids + [node.log[num]]) + rest;
      ids := ids + [node.log[num]];
      num := num + 1;
    }
  }

  /** `get_block_ids`. */
  method GetBlockIds(node: Node, synopsis: seq<Id>, limit: nat) returns (r: Reply)
    requires node.Valid()
    ensures node.head == 0 ==> r == Ids([], 0)
    ensures node.head > 0 && (synopsis == [] || synopsis == [ZERO]) ==>
              r == Ids(IdsFrom(node, 1, limit), Remaining(node, 1, limit))
    ensures node.head > 0 && synopsis != [] && synopsis != [ZERO] ==>
              match FindLast(node, synopsis)
              case Nothing => r == Unreachable
              case Thrown => r == LookupFailed
              case At(id) =>
                var from := if id.num == 0 then 1 else id.num;
                r == Ids(IdsFrom(node, from, limit), Remaining(node, from, limit))
  {
    hide IdsFrom, FindLast;
    if node.head == 0 {
      return Ids([], 0);
    }
    var last := ZERO;
    if !(synopsis == [] || (|synopsis| == 1 && synopsis[0] == ZERO)) {
      var found := FindLastKnown(node, synopsis);
      match found {
        case Thrown => return LookupFailed;
        case Nothing => return Unreachable;
        case At(id) => last := id;
      }
    }
    var from: nat := if last.num == 0 then 1 else last.num;
    var ids := CollectIds(node, from, limit);
    IdsAreConsecutive(node, from, limit);
    var remaining := 0;
    if ids != [] && ids[|ids| - 1].num < node.head {
      remaining := node.head - ids[|ids| - 1].num;
    }
    r := Ids(ids, remaining);
  }

  /** The main chain blocks after the last one returned; none when nothing is returned. */
  function Remaining(node: Node, from: nat, limit: nat): (n: nat)
    requires node.Valid() && from >= 1
  {
    if limit == 0 || from > node.head then 0 else if from + limit > node.head then 0 else node.head + 1 - from - limit
  }

  /** What is returned and what remains make up the main chain from `from` on. */
  lemma RemainingIsExact(node: Node, from: nat, limit: nat)
    requires node.Valid() && 1 <= from <= node.head && limit > 0
    ensures |IdsFrom(node, from, limit)| + Remaining(node, from, limit) == node.head + 1 - from
  {
    IdsAreConsecutive(node, from, limit);
  }

  // ----- both sides together

  /** The peer's main chain equals ours up to `c` and at no number above it. */
  ghost predicate ForkAt(node: Node, v: View, peer: Node, c: nat)
    requires ViewOk(node, v) && peer.Valid()
  {
    && 1 <= c <= v.High() && c <= peer.head
    && (forall n :: 1 <= n <= c ==> peer.log[n] == IdAt(node, v, n))
    && forall n :: c < n <= v.High() && n <= peer.head ==> peer.log[n] != IdAt(node, v, n)
  }

  /**
   * A synopsis entry above the peer's head that the peer still knows: its log kept the block of a
   * fork it abandoned, or its fork database has a block whose number the log does not have.
   */
  ghost predicate Stale(node: Node, v: View, peer: Node, n: nat)
    requires ViewOk(node, v) && 1 <= n <= v.High()
  {
    var id := IdAt(node, v, n);
    && n > peer.head && peer.Known(id)
    && (n in peer.log ==> peer.log[n] == id)
  }

  ghost predicate NoneStale(node: Node, v: View, peer: Node, es: seq<nat>)
    requires ViewOk(node, v) && forall i :: 0 <= i < |es| ==> 1 <= es[i] <= v.High()
  {
    forall i :: 0 <= i < |es| ==> !Stale(node, v, peer, es[i])
  }

  /** The ids are ours at the entry numbers. */
  ghost predicate OurIds(node: Node, v: View, ids: seq<Id>, es: seq<nat>)
    requires ViewOk(node, v)
  {
    && |ids| == |es|
    && forall i :: 0 <= i < |es| ==> 1 <= es[i] <= v.High() && ids[i] == IdAt(node, v, es[i]) && ids[i].num == es[i]
  }

  /**
   * The search stops at the last entry not above the fork point, exactly when no entry of the
   * synopsis is stale at the peer.
   */
  lemma {:induction false} FindsLastShared(node: Node, v: View, peer: Node, c: nat, ids: seq<Id>, es: seq<nat>, e: nat)
    requires ViewOk(node, v) && peer.Valid() && ForkAt(node, v, peer, c)
    requires OurIds(node, v, ids, es) && Increasing(es) && LastUpTo(es, c, e)
    ensures 1 <= e <= v.High()
    ensures FindLast(peer, ids) == At(IdAt(node, v, e)) <==> NoneStale(node, v, peer, es)
    decreases |ids|
  {
    hide NoneStale, Increasing, LastUpTo;
    var k := |ids| - 1;
    LastEntry(es, c, e);
    NoneStaleBefore(node, v, peer, es);
    if es[k] <= c {
      NoneStaleUpTo(node, v, peer, es, c);
    } else if !Stale(node, v, peer, es[k]) {
      FindsLastShared(node, v, peer, c, ids[..k], es[..k], e);
      assert FindLast(peer, ids) == FindLast(peer, ids[..k]);
    }
  }

  lemma LastEntry(es: seq<nat>, c: nat, e: nat)
    requires Increasing(es) && LastUpTo(es, c, e)
    ensures es != [] && e in es
    ensures var k := |es| - 1;
            if es[k] <= c then es[k] == e && forall i :: 0 <= i < |es| ==> es[i] <= c
            else es[k] != e && Increasing(es[..k]) && LastUpTo(es[..k], c, e)
  {
    var k := |es| - 1;
    var j :| 0 <= j < |es| && es[j] == e;
    assert j < k ==> es[j] < es[k];
    assert es[k] in es;
    if es[k] <= c {
      forall i | 0 <= i < |es| ensures es[i] <= c {
        assert i < k ==> es[i] < es[k];
      }
    } else {
      assert es[..k][j] == e;
      assert forall x :: x in es[..k] ==> x in es;
    }
  }

  lemma NoneStaleBefore(node: Node, v: View, peer: Node, es: seq<nat>)
    requires ViewOk(node, v) && es != [] && forall i :: 0 <= i < |es| ==> 1 <= es[i] <= v.High()
    ensures var k := |es| - 1;
            NoneStale(node, v, peer, es) <==> NoneStale(node, v, peer, es[..k]) && !Stale(node, v, peer, es[k])
  {
    var k := |es| - 1;
    assert forall i :: 0 <= i < k ==> es[..k][i] == es[i];
  }

  lemma NoneStaleUpTo(node: Node, v: View, peer: Node, es: seq<nat>, c: nat)
    requires ViewOk(node, v) && forall i :: 0 <= i < |es| ==> 1 <= es[i] <= v.High() && es[i] <= c
    requires c <= peer.head
    ensures NoneStale(node, v, peer, es)
  {
  }

  /**
   * The protocol.  A peer whose chain leaves ours at `c` starts its answer at the last synopsis
   * entry not above `c`, which is at most as far below `c` as our true end is above it, exactly
   * when no synopsis entry is stale at the peer.
   */
  lemma AnswerStartsNearFork(node: Node, v: View, low: nat, after: nat, peer: Node, c: nat) returns (e: nat)
    requires ViewOk(node, v) && 1 <= low <= c && peer.Valid() && ForkAt(node, v, peer, c)
    ensures low <= e <= c && c - e <= v.High() + after - c
    ensures LastUpTo(Entries(low, v.High(), v.High() + after), c, e)
    ensures OurIds(node, v, SynopsisIds(node, v, low, after), Entries(low, v.High(), v.High() + after))
    ensures FindLast(peer, SynopsisIds(node, v, low, after)) == At(peer.log[e])
            <==> NoneStale(node, v, peer, Entries(low, v.High(), v.High() + after))
  {
    hide Entries, SynopsisIds, FindLast, NoneStale, Increasing;
    var es := Entries(low, v.High(), v.High() + after);
    e := EntryNearFork(low, v.High(), v.High() + after, c);
    EntriesInRange(low, v.High(), v.High() + after);
    SynopsisFollowsEntries(node, v, low, after);
    FindsLastShared(node, v, peer, c, SynopsisIds(node, v, low, after), es, e);
    assert e in es;
  }

  // ----- a stale log entry

  const LOG := map[1 := Id(1, 7), 2 := Id(2, 8)]
  const OURS := Node(2, LOG, {})
  const BEHIND := Node(1, LOG, {})

  lemma OursIsValid()
    ensures OURS.Valid() && BEHIND.Valid() && ViewOk(OURS, View(2, [])) && ForkAt(OURS, View(2, []), BEHIND, 1)
    ensures SynopsisIds(OURS, View(2, []), 1, 0) == [Id(1, 7), Id(2, 8)]
  {
    SynopsisStep(OURS, View(2, []), 2, 0);
    SynopsisStep(OURS, View(2, []), 1, 0);
  }

  /**
   * A peer at head 1 whose log still has our block 2, from a fork it abandoned: it takes that
   * block as known and answers with nothing, although it shares block 1 with us.
   */
  lemma StaleEntrySilencesPeer(limit: nat)
    ensures OURS.Valid() && BEHIND.Valid() && ViewOk(OURS, View(2, [])) && ForkAt(OURS, View(2, []), BEHIND, 1)
    ensures FindLast(BEHIND, SynopsisIds(OURS, View(2, []), 1, 0)) == At(Id(2, 8))
    ensures IdsFrom(BEHIND, 2, limit) == []
  {
    OursIsValid();
  }

  // ----- a reference point above the head

  const FORKED := Node(2, map[1 := Id(1, 7), 2 := Id(2, 8), 3 := Id(3, 9)], {})

  /** Block 3 of an abandoned fork was built on another block 2. */
  function ParentOf(id: Id): (r: Id) {
    if id == Id(3, 9) then Id(2, 6) else if id.num == 2 then Id(1, 7) else ZERO
  }

  /**
   * A node at head 2 whose log still has block 3 of a fork it failed to switch to.  Asked for the
   * synopsis of that block, with everything up to block 2 no longer undoable, it names its own
   * block 2, which is not on the chain of the reference point.
   */
  lemma SynopsisMixesChains()
    ensures FORKED.Valid() && ViewOk(FORKED, View(3, []))
    ensures SynopsisIds(FORKED, View(3, []), 2, 0) == [Id(2, 8), Id(3, 9)]
    ensures Own(FORKED, View(3, []), ParentOf, 2) == Id(2, 6) != Id(2, 8)
  {
    SynopsisStep(FORKED, View(3, []), 3, 0);
    SynopsisStep(FORKED, View(3, []), 2, 0);
    assert Walk(ParentOf, Id(3, 9), 1) == ParentOf(Walk(ParentOf, Id(3, 9), 0));
  }
}

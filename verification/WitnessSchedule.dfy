/**
 * Block slots and the witness schedule, live and as cached on a fork item.
 */
module WitnessSchedule {
  import opened Ledger
  import opened Rounding

  type Witness = nat

  /** What slot arithmetic reads of the chain state. */
  datatype Chain = Chain(
    headNum: nat,
    headTime: nat,             // seconds; the genesis time when there is no block yet
    interval: nat,
    maintenance: bool,         // the head block is a maintenance block
    skipSlots: nat,
    aslot: nat,                // absolute slot of the head block
    shuffled: seq<Witness>)
  {
    ghost predicate Valid() {
      interval > 0 && shuffled != []
    }

    /** Slots between the head and slot 1. */
    function Skip(): (n: nat) {
      if headNum > 0 && maintenance then skipSlots else 0
    }

    /** `get_slot_time`; slot 0 is the epoch. */
    function SlotTime(slot: nat): (t: nat)
      requires interval > 0
    {
      if slot == 0 then 0
      else if headNum == 0 then headTime + slot * interval
      else (headTime / interval) * interval + (slot + Skip()) * interval
    }

    /** `get_slot_at_time`. */
    function SlotAt(time: nat): (slot: nat)
      requires interval > 0
    {
      if time < SlotTime(1) then 0 else (time - SlotTime(1)) / interval + 1
    }

    /** `get_scheduled_witness`. */
    function Scheduled(slot: nat): (w: Witness)
      requires shuffled != []
    {
      shuffled[(aslot + slot) % |shuffled|]
    }
  }

  // ----- slots

  lemma SlotTimes(c: Chain, slot: nat)
    requires c.Valid() && slot >= 1
    ensures c.SlotTime(slot) == c.SlotTime(1) + (slot - 1) * c.interval
  {
    var s := c.Skip();
    assert slot * c.interval == 1 * c.interval + (slot - 1) * c.interval;
    assert (slot + s) * c.interval == (1 + s) * c.interval + (slot - 1) * c.interval;
  }

  /** Slot 1 is an interval after genesis, or after the head's slot and the slots skipped for maintenance. */
  lemma FirstSlot(c: Chain)
    requires c.Valid()
    ensures c.headNum == 0 ==> c.SlotTime(1) == c.headTime + c.interval
    ensures c.headNum > 0 ==>
              var after := 1 + (if c.maintenance then c.skipSlots else 0);
              exists k: nat ::
                c.SlotTime(1) == (k + after) * c.interval && k * c.interval <= c.headTime < (k + 1) * c.interval
  {
    if c.headNum > 0 {
      var k, after := c.headTime / c.interval, 1 + c.Skip();
      Quotient(c.headTime, c.interval, k);
      assert (k + after) * c.interval == k * c.interval + after * c.interval;
      assert (k + 1) * c.interval == k * c.interval + c.interval;
    }
  }

  /** Every slot is found again at its own time and until the next slot begins, and nowhere else. */
  lemma SlotRoundTrip(c: Chain, slot: nat, time: nat)
    requires c.Valid() && slot >= 1
    ensures c.SlotAt(time) == slot <==> c.SlotTime(slot) <= time < c.SlotTime(slot + 1)
    ensures c.SlotAt(c.SlotTime(slot)) == slot
  {
    hide Chain.SlotTime;
    SlotTimes(c, slot);
    SlotTimes(c, slot + 1);
    assert (slot + 1 - 1) * c.interval == (slot - 1) * c.interval + c.interval;
    var first := c.SlotTime(1);
    if time >= first {
      Quotient(time - first, c.interval, slot - 1);
    }
    Quotient(c.SlotTime(slot) - first, c.interval, slot - 1);
  }

  lemma Quotient(x: nat, d: nat, q: nat)
    requires d > 0
    ensures x / d == q <==> q * d <= x < q * d + d
  {
    var k := x / d;
    assert x == d * k + x % d;
    if q * d <= x < q * d + d {
      if k < q {
        assert (k + 1) * d <= q * d by { MulLe(k + 1, q, d); }
        assert false;
      }
      if q < k {
        assert (q + 1) * d <= k * d by { MulLe(q + 1, k, d); }
        assert false;
      }
    }
  }

  // ----- the schedule cached on a fork item

  datatype ForkItem = ForkItem(nextTime: nat, nextAslot: nat, scheduled: seq<(Witness, nat)>)

  /** `verify_signing_witness`: the witness and key a block at `time` must carry, if any. */
  function Expected(item: ForkItem, time: nat, interval: nat): (r: Option<(Witness, nat)>)
    requires interval > 0 && item.scheduled != []
  {
    if time < item.nextTime then None
    else
      var slot := (time - item.nextTime) / interval;
      Some(item.scheduled[(item.nextAslot + slot) % |item.scheduled|])
  }

  /** The item caches the schedule of the chain state, with the signing key of each witness. */
  ghost predicate CacheOf(item: ForkItem, c: Chain, keys: Witness -> nat)
    requires c.interval > 0
  {
    && item.nextTime == c.SlotTime(1) && item.nextAslot == c.aslot + 1
    && |item.scheduled| == |c.shuffled|
    && forall i :: 0 <= i < |c.shuffled| ==> item.scheduled[i] == (c.shuffled[i], keys(c.shuffled[i]))
  }

  /** `update_witnesses`: fills the cache of a fork item after its block was applied. */
  method UpdateWitnesses(c: Chain, keys: Witness -> nat) returns (item: ForkItem)
    requires c.Valid()
    ensures CacheOf(item, c, keys)
  {
    var scheduled := [];
    for i := 0 to |c.shuffled|
      invariant |scheduled| == i
      invariant forall j :: 0 <= j < i ==> scheduled[j] == (c.shuffled[j], keys(c.shuffled[j]))
    {
      scheduled := scheduled + [(c.shuffled[i], keys(c.shuffled[i]))];
    }
    item := ForkItem(c.SlotTime(1), c.aslot + 1, scheduled);
  }

  /**
   * The cache accepts exactly the timestamps whose live slot is not 0, and then names the witness
   * the live schedule names.
   */
  lemma CacheAgrees(item: ForkItem, c: Chain, keys: Witness -> nat, time: nat)
    requires c.Valid() && CacheOf(item, c, keys)
    ensures Expected(item, time, c.interval).None? <==> c.SlotAt(time) == 0
    ensures c.SlotAt(time) > 0 ==>
              var w := c.Scheduled(c.SlotAt(time));
              Expected(item, time, c.interval) == Some((w, keys(w)))
  {
    if time >= c.SlotTime(1) {
      var slot := (time - c.SlotTime(1)) / c.interval;
      assert item.nextAslot + slot == c.aslot + c.SlotAt(time);
    }
  }

  // ----- one round of the schedule

  ghost predicate Distinct(s: seq<Witness>) {
    forall i, j :: 0 <= i < j < |s| ==> s[i] != s[j]
  }

  /** The schedule starts with the first witness and goes on from slot to slot across blocks. */
  lemma ScheduleGoesOn(c: Chain, next: Chain, k: nat, slot: nat)
    requires c.Valid() && next.shuffled == c.shuffled && next.aslot == c.aslot + k
    ensures next.Scheduled(slot) == c.Scheduled(k + slot)
    ensures c.aslot == 0 && slot < |c.shuffled| ==> c.Scheduled(slot) == c.shuffled[slot]
  {
    if c.aslot == 0 && slot < |c.shuffled| {
      Remainder(slot, |c.shuffled|, 0, slot);
    }
  }

  /** Two slots less than a round apart name different witnesses. */
  lemma DistinctSlots(c: Chain, a: nat, b: nat)
    requires c.Valid() && Distinct(c.shuffled) && a < b < a + |c.shuffled|
    ensures c.Scheduled(a) != c.Scheduled(b)
  {
    var n := |c.shuffled|;
    var i, j := (c.aslot + a) % n, (c.aslot + b) % n;
    if i == j {
      SameRemainder(c.aslot + a, c.aslot + b, n);
      assert false;
    }
    assert c.shuffled[i] != c.shuffled[j];
  }

  lemma SameRemainder(x: nat, y: nat, n: nat)
    requires n > 0 && x < y && x % n == y % n
    ensures y - x >= n
  {
    assert x == n * (x / n) + x % n;
    assert y == n * (y / n) + y % n;
    assert y - x == n * (y / n - x / n);
    if y / n <= x / n {
      MulLe(y / n, x / n, n);
      assert false;
    }
    MulLe(1, y / n - x / n, n);
  }

  /** Any round of consecutive slots names every scheduled witness exactly once. */
  lemma EveryWitnessOnce(c: Chain, from: nat, w: Witness) returns (slot: nat)
    requires c.Valid() && Distinct(c.shuffled) && w in c.shuffled
    ensures from <= slot < from + |c.shuffled| && c.Scheduled(slot) == w
    ensures forall s :: from <= s < from + |c.shuffled| && c.Scheduled(s) == w ==> s == slot
  {
    var n := |c.shuffled|;
    var k :| 0 <= k < n && c.shuffled[k] == w;
    var x := c.aslot + from;
    var d := (k + n - x % n) % n;
    slot := from + d;
    ShiftTo(x, k, n);
    assert (c.aslot + slot) % n == k;
    forall s | from <= s < from + n && c.Scheduled(s) == w
      ensures s == slot
    {
      if s < slot {
        DistinctSlots(c, s, slot);
      } else if slot < s {
        DistinctSlots(c, slot, s);
      }
    }
  }

  lemma ShiftTo(x: nat, k: nat, n: nat)
    requires k < n
    ensures (x + (k + n - x % n) % n) % n == k
  {
    var r := x % n;
    var q := x / n;
    assert x == n * q + r;
    if k >= r {
      Remainder(k - r + n, n, 1, k - r);
      Remainder(x + (k - r), n, q, k);
    } else {
      Remainder(k - r + n, n, 0, k - r + n);
      assert n * (q + 1) == n * q + n;
      Remainder(x + (k - r + n), n, q + 1, k);
    }
  }

  lemma Remainder(x: nat, n: nat, q: nat, r: nat)
    requires r < n && x == n * q + r
    ensures x % n == r
  {
    Quotient(x, n, q);
    assert q * n == n * q;
    assert x == n * (x / n) + x % n;
  }

  // ----- missed blocks

  /** `update_witness_missed_blocks` counts one miss for each skipped slot of less than a round. */
  method UpdateMissed(c: Chain, time: nat, missed: map<Witness, nat>)
    returns (count: Option<nat>, after: map<Witness, nat>)
    requires c.Valid() && forall i :: 0 <= i < |c.shuffled| ==> c.shuffled[i] in missed
    ensures count.None? <==> c.SlotAt(time) == 0
    ensures count.Some? ==> count.value == c.SlotAt(time) - 1
    ensures after.Keys == missed.Keys
    ensures count.None? || count.value >= |c.shuffled| ==> after == missed
    ensures count.Some? && count.value < |c.shuffled| && Distinct(c.shuffled) ==>
              forall w :: w in missed ==>
                after[w] == missed[w] + (if Skipped(c, count.value, w) then 1 else 0)
  {
    after := missed;
    var slot := c.SlotAt(time);
    if slot == 0 {
      return None, after;
    }
    var n := slot - 1;
    if n < |c.shuffled| {
      for i := 0 to n
        invariant after.Keys == missed.Keys
        invariant Distinct(c.shuffled) ==>
                    forall w :: w in missed ==> after[w] == missed[w] + (if Skipped(c, i, w) then 1 else 0)
      {
        var w := c.Scheduled(i + 1);
        if Distinct(c.shuffled) {
          SkippedStep(c, i);
        }
        after := after[w := after[w] + 1];
      }
    }
    count := Some(n);
  }

  /** The witness was scheduled in one of the first `n` slots. */
  ghost predicate Skipped(c: Chain, n: nat, w: Witness)
    requires c.shuffled != []
  {
    exists s :: 1 <= s <= n && c.Scheduled(s) == w
  }

  lemma SkippedStep(c: Chain, i: nat)
    requires c.Valid() && Distinct(c.shuffled) && i < |c.shuffled|
    ensures !Skipped(c, i, c.Scheduled(i + 1))
    ensures forall w :: Skipped(c, i + 1, w) <==> Skipped(c, i, w) || w == c.Scheduled(i + 1)
  {
    forall s | 1 <= s <= i ensures c.Scheduled(s) != c.Scheduled(i + 1) {
      DistinctSlots(c, s, i + 1);
    }
    assert forall w :: Skipped(c, i, w) ==> Skipped(c, i + 1, w);
    assert Skipped(c, i + 1, c.Scheduled(i + 1));
  }

  // ----- the shuffle

  /** The generator of `update_witness_schedule`, in 64-bit arithmetic. */
  function Mix(nowHi: bv64, i: bv64): (k: bv64) {
    var k0 := nowHi + i * 2685821657736338717;
    var k1 := k0 ^ (k0 >> 12);
    var k2 := k1 ^ (k1 << 25);
    var k3 := k2 ^ (k2 >> 27);
    k3 * 2685821657736338717
  }

  /** The position swapped with `i` among `n`: one of `i` to `n - 1`. */
  function Pick(nowHi: bv64, i: nat, n: nat): (j: nat)
    requires i < n < 0x1_0000_0000
    ensures i <= j < n
  {
    i + (Mix(nowHi, i as bv64) as int) % (n - i)
  }

  /** The generator on two inputs at one second after the epoch. */
  lemma MixValues()
    ensures Mix(0x1_0000_0000, 0) == 4396774442519208864
    ensures Mix(0x1_0000_0000, 1) == 16292610654323759860
  {
  }

  /** The distance of the swap is the generator's value modulo the positions that are left. */
  lemma PickIsRemainder(nowHi: bv64, i: nat, n: nat) returns (q: nat)
    requires i < n < 0x1_0000_0000
    ensures Mix(nowHi, i as bv64) as int == q * (n - i) + (Pick(nowHi, i, n) - i)
  {
    hide Mix;
    q := Divided(Mix(nowHi, i as bv64) as int, n - i);
  }

  lemma Divided(m: nat, d: nat) returns (q: nat)
    requires d > 0
    ensures m == q * d + m % d
  {
    q := m / d;
    assert m == d * q + m % d;
  }

  function Swapped(s: seq<Witness>, i: nat, j: nat): (r: seq<Witness>)
    requires i < |s| && j < |s|
    ensures |r| == |s|
  {
    s[i := s[j]][j := s[i]]
  }

  /** The active set after the swaps from position `i` on. */
  function Shuffled(s: seq<Witness>, nowHi: bv64, i: nat): (r: seq<Witness>)
    requires i <= |s| < 0x1_0000_0000
    decreases |s| - i
  {
    if i == |s| then s else Shuffled(Swapped(s, i, Pick(nowHi, i, |s|)), nowHi, i + 1)
  }

  /** The shuffle is a permutation, whatever the generator yields. */
  lemma {:induction false} ShuffledIsPermutation(s: seq<Witness>, nowHi: bv64, i: nat)
    requires i <= |s| < 0x1_0000_0000
    ensures multiset(Shuffled(s, nowHi, i)) == multiset(s)
    decreases |s| - i
  {
    hide Mix, Pick, Swapped;
    if i < |s| {
      SwapKeepsAll(s, i, Pick(nowHi, i, |s|));
      ShuffledIsPermutation(Swapped(s, i, Pick(nowHi, i, |s|)), nowHi, i + 1);
    }
  }

  /** The swaps from `i` on leave the positions before it alone and bring the picked witness to it. */
  lemma {:induction false} ShuffleFixes(s: seq<Witness>, nowHi: bv64, i: nat)
    requires i <= |s| < 0x1_0000_0000
    ensures |Shuffled(s, nowHi, i)| == |s| && Shuffled(s, nowHi, i)[..i] == s[..i]
    ensures i < |s| ==> Shuffled(s, nowHi, i)[i] == s[Pick(nowHi, i, |s|)]
    decreases |s| - i
  {
    hide Mix, Pick;
    if i < |s| {
      var next := Swapped(s, i, Pick(nowHi, i, |s|));
      ShuffleFixes(next, nowHi, i + 1);
      assert Shuffled(s, nowHi, i)[i] == Shuffled(next, nowHi, i + 1)[..i + 1][i] == next[i];
      assert Shuffled(s, nowHi, i)[..i] == Shuffled(next, nowHi, i + 1)[..i + 1][..i] == next[..i];
    }
  }

  lemma SwapKeepsAll(s: seq<Witness>, i: nat, j: nat)
    requires i < |s| && j < |s|
    ensures multiset(Swapped(s, i, j)) == multiset(s)
  {
  }

  /** `update_witness_schedule`: shuffles the active set in place. */
  method Shuffle(a: array<Witness>, nowHi: bv64)
    requires a.Length < 0x1_0000_0000
    modifies a
    ensures a[..] == Shuffled(old(a[..]), nowHi, 0)
  {
    hide Mix, Pick;
    for i := 0 to a.Length
      invariant Shuffled(a[..], nowHi, i) == Shuffled(old(a[..]), nowHi, 0)
    {
      var j := Pick(nowHi, i, a.Length);
      ghost var before := a[..];
      a[i], a[j] := a[j], a[i];
      assert a[..] == Swapped(before, i, j);
    }
  }

  /** `update_witness_schedule` at a block: a new shuffle of the active set once per round. */
  method UpdateSchedule(headNum: nat, active: seq<Witness>, current: seq<Witness>, nowHi: bv64)
    returns (shuffled: seq<Witness>)
    requires 0 < |active| < 0x1_0000_0000 && Distinct(active)
    ensures headNum % |active| != 0 ==> shuffled == current
    ensures headNum % |active| == 0 ==> shuffled == Shuffled(active, nowHi, 0)
    ensures headNum % |active| == 0 ==>
              multiset(shuffled) == multiset(active) && Distinct(shuffled) && |shuffled| == |active|
  {
    hide Shuffled;
    shuffled := current;
    if headNum % |active| == 0 {
      var a := new Witness[|active|](i requires 0 <= i < |active| => active[i]);
      assert a[..] == active;
      Shuffle(a, nowHi);
      shuffled := a[..];
      ShuffledIsPermutation(active, nowHi, 0);
      PermutationIsDistinct(active, shuffled);
    }
  }

  /** A rearrangement of distinct witnesses is distinct. */
  lemma {:induction false} PermutationIsDistinct(s: seq<Witness>, t: seq<Witness>)
    requires Distinct(s) && multiset(s) == multiset(t)
    ensures Distinct(t) && |t| == |s|
  {
    assert |multiset(s)| == |s| && |multiset(t)| == |t|;
    forall i, j | 0 <= i < j < |t| ensures t[i] != t[j] {
      if t[i] == t[j] {
        CountTwice(t, i, j);
        CountOnce(s, t[i]);
        assert false;
      }
    }
  }

  lemma CountTwice(t: seq<Witness>, i: nat, j: nat)
    requires i < j < |t| && t[i] == t[j]
    ensures multiset(t)[t[i]] >= 2
  {
    assert t == t[..j] + [t[j]] + t[j + 1..];
    assert t[..j][i] == t[i];
    assert t[i] in multiset(t[..j]);
  }

  lemma {:induction false} CountOnce(s: seq<Witness>, w: Witness)
    requires Distinct(s)
    ensures multiset(s)[w] <= 1
  {
    if s != [] {
      assert s == [s[0]] + s[1..];
      CountOnce(s[1..], w);
      if s[0] == w {
        assert w !in s[1..];
      }
    }
  }
}

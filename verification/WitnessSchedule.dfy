/**
 Slots, the shuffled witness schedule and the last irreversible block (libraries/chain/db_witness_schedule.cpp;
 libraries/chain/db_update.cpp, `update_signing_witness`, `update_last_irreversible_block`).
 */
module WitnessSchedules {
  import opened Prices

  // ----- slots

  datatype Clock = Clock(headNum: nat, headTime: nat, interval: nat, maintenance: bool, skipSlots: nat)

  function SlotTime(c: Clock, slot: nat): nat
    requires c.interval > 0
  {
    if slot == 0 then 0
    else if c.headNum == 0 then c.headTime + slot * c.interval
    else
      var skipped := if c.maintenance then slot + c.skipSlots else slot;
      c.headTime / c.interval * c.interval + skipped * c.interval
  }

  function SlotAt(c: Clock, when: nat): nat
    requires c.interval > 0
  {
    var first := SlotTime(c, 1);
    if when < first then 0 else (when - first) / c.interval + 1
  }

  lemma SlotSpacing(c: Clock, slot: nat)
    requires c.interval > 0 && slot >= 1
    ensures SlotTime(c, slot) == SlotTime(c, 1) + (slot - 1) * c.interval
  {
  }

  /**
   Before the first block slots are counted from the genesis time.  After it, slots start at multiples of the interval,
   the first one at the first such moment after the head block; after a maintenance block the configured number of slots
   is left out.
   */
  lemma SlotTimes(c: Clock, slot: nat)
    requires c.interval > 0
    ensures SlotTime(c, 0) == 0
    ensures c.headNum == 0 ==> slot == 0 || SlotTime(c, slot) == c.headTime + slot * c.interval
    ensures c.headNum > 0 && slot > 0 ==>
              && SlotTime(c, slot) % c.interval == 0
              && SlotTime(c.(maintenance := true), slot) == SlotTime(c.(maintenance := false), slot + c.skipSlots)
    ensures c.headNum > 0 && !c.maintenance ==> c.headTime < SlotTime(c, 1) <= c.headTime + c.interval
    ensures slot > 0 ==> SlotTime(c, slot + 1) == SlotTime(c, slot) + c.interval
  {
    var n := c.headTime / c.interval;
    QuotientBounds(c.headTime, c.interval);
    if c.headNum > 0 && slot > 0 {
      var k := if c.maintenance then slot + c.skipSlots else slot;
      assert SlotTime(c, slot) == (n + k) * c.interval by { Distribute(n, k, c.interval); }
      MultipleOver(n + k, c.interval);
      QuotientBounds((n + k) * c.interval, c.interval);
    }
    if slot > 0 {
      SlotSpacing(c, slot);
      SlotSpacing(c, slot + 1);
    }
  }

  lemma Distribute(x: nat, y: nat, k: nat)
    ensures (x + y) * k == x * k + y * k
  {
  }

  /** The slot of a slot's own time is that slot. */
  lemma SlotOfItsTime(c: Clock, slot: nat)
    requires c.interval > 0 && slot >= 1
    ensures SlotAt(c, SlotTime(c, slot)) == slot
  {
    hide SlotTime;
    SlotSpacing(c, slot);
    MultipleOver(slot - 1, c.interval);
  }

  lemma MultipleOver(k: nat, n: nat)
    requires n > 0
    ensures k * n >= 0 && k * n / n == k
  {
    QuotientGeq(k * n, n, k);
    QuotientGeq(k * n, n, k + 1);
    assert n * (k + 1) == k * n + n;
  }

  /** Every moment from the first slot on lies in exactly the slot computed for it; earlier ones are in slot zero. */
  lemma TimeLiesInItsSlot(c: Clock, when: nat)
    requires c.interval > 0
    ensures when < SlotTime(c, 1) <==> SlotAt(c, when) == 0
    ensures SlotAt(c, when) > 0 ==> SlotTime(c, SlotAt(c, when)) <= when < SlotTime(c, SlotAt(c, when) + 1)
  {
  }

  // ----- the shuffle

  /** The generator's value for position `i`: a 64-bit multiply, three xor-shifts, a multiply. */
  function Mix(now: bv64, i: bv64): bv64 {
    var k0 := (now << 32) + i * 2685821657736338717;
    var k1 := k0 ^ (k0 >> 12);
    var k2 := k1 ^ (k1 << 25);
    var k3 := k2 ^ (k2 >> 27);
    k3 * 2685821657736338717
  }

  /** Two of its values. */
  lemma MixValues()
    ensures Mix(1_600_000_000, 0) == 0x67cc6f555908efa0
    ensures Mix(1_600_000_000, 20) == 0xd08eb1b85771b804
  {
  }

  function Swapped(s: seq<nat>, i: nat, j: nat): seq<nat>
    requires i < |s| && j < |s|
  {
    s[i := s[j]][j := s[i]]
  }

  function Partner(now: bv64, i: nat, n: nat): (j: nat)
    requires i < n < 0x1_0000_0000
    ensures i <= j < n
  {
    i + (Mix(now, i as bv64) as int) % (n - i)
  }

  /** Of the positions not passed yet the generator's value picks one, by its remainder. */
  lemma PartnerIsPicked(now: bv64, i: nat, n: nat)
    requires i < n < 0x1_0000_0000
    ensures ((Mix(now, i as bv64) as int) - (Partner(now, i, n) - i)) % (n - i) == 0
  {
    hide Mix;
    RemainderDivides(Mix(now, i as bv64) as int, n - i);
  }

  lemma RemainderDivides(k: nat, n: nat)
    requires n > 0
    ensures (k - k % n) % n == 0
  {
    QuotientBounds(k, n);
    assert k - k % n == (k / n) * n;
    MultipleOver(k / n, n);
  }

  /** What the shuffle makes of `s` from position `i` on. */
  function ShuffledFrom(s: seq<nat>, now: bv64, i: nat): seq<nat>
    requires i <= |s| < 0x1_0000_0000
    decreases |s| - i
  {
    if i == |s| then s else ShuffledFrom(Swapped(s, i, Partner(now, i, |s|)), now, i + 1)
  }

  /** The shuffle is always a rearrangement, and it never touches the positions it has passed. */
  lemma {:induction false} ShuffleRearranges(s: seq<nat>, now: bv64, i: nat)
    requires i <= |s| < 0x1_0000_0000
    ensures multiset(ShuffledFrom(s, now, i)) == multiset(s)
    ensures |ShuffledFrom(s, now, i)| == |s|
    ensures forall k | 0 <= k < i :: ShuffledFrom(s, now, i)[k] == s[k]
    decreases |s| - i
  {
    hide Partner;
    if i < |s| {
      ShuffleRearranges(Swapped(s, i, Partner(now, i, |s|)), now, i + 1);
    }
  }

  /**
   The witness the shuffle puts at position `i` is the one the generator picks for it, which changes places with the one
   that was there.
   */
  lemma ShufflePicks(s: seq<nat>, now: bv64, i: nat)
    requires i < |s| < 0x1_0000_0000
    ensures var j := Partner(now, i, |s|);
            var t := s[i := s[j]][j := s[i]];
            && ShuffledFrom(s, now, i) == ShuffledFrom(t, now, i + 1)
            && |ShuffledFrom(s, now, i)| == |s| && ShuffledFrom(s, now, i)[i] == s[j]
  {
    hide Partner;
    ShuffleRearranges(Swapped(s, i, Partner(now, i, |s|)), now, i + 1);
  }

  /** The in-place shuffle of the active witnesses. */
  method Shuffle(active: seq<nat>, now: bv64) returns (shuffled: seq<nat>)
    requires |active| < 0x1_0000_0000
    ensures shuffled == ShuffledFrom(active, now, 0)
    ensures |shuffled| == |active| && multiset(shuffled) == multiset(active)
  {
    hide Partner, ShuffledFrom;
    ShuffleRearranges(active, now, 0);
    var n := |active|;
    var a := new nat[n](i requires 0 <= i < |active| => active[i]);
    assert a[..] == active;
    var i := 0;
    while i < n
      invariant i <= n && ShuffledFrom(a[..], now, i) == ShuffledFrom(active, now, 0)
    {
      var j := Partner(now, i, n);
      ghost var before := a[..];
      ShufflePicks(before, now, i);
      a[i], a[j] := a[j], a[i];
      assert a[..] == Swapped(before, i, j);
      i := i + 1;
    }
    shuffled := a[..];
    ShuffleEnds(shuffled, now);
  }

  lemma ShuffleEnds(s: seq<nat>, now: bv64)
    requires |s| < 0x1_0000_0000
    ensures ShuffledFrom(s, now, |s|) == s
  {
  }

  // ----- who produces which slot

  function ScheduledWitness(shuffled: seq<nat>, aslot: nat, slot: nat): nat
    requires shuffled != []
  {
    shuffled[(aslot + slot) % |shuffled|]
  }

  predicate Distinct(s: seq<nat>) {
    forall i, j | 0 <= i < j < |s| :: s[i] != s[j]
  }

  lemma ModUnique(x: nat, y: nat, n: nat)
    requires n > 0 && x <= y < x + n && x % n == y % n
    ensures x == y
  {
    QuotientBounds(x, n);
    QuotientBounds(y, n);
    assert x - n * (x / n) == y - n * (y / n);
    var d := y / n - x / n;
    assert y - x == n * d;
    if d >= 1 {
      MulLeq(1, d, n);
    }
  }

  /** Under one schedule two slots less than a round apart have different producers. */
  lemma NoWitnessTwicePerRound(shuffled: seq<nat>, aslot: nat, slot: nat, other: nat)
    requires shuffled != [] && Distinct(shuffled) && slot < other < slot + |shuffled|
    ensures ScheduledWitness(shuffled, aslot, slot) != ScheduledWitness(shuffled, aslot, other)
  {
    var n := |shuffled|;
    var i, j := (aslot + slot) % n, (aslot + other) % n;
    if i == j {
      ModUnique(aslot + slot, aslot + other, n);
    }
    assert i < j ==> shuffled[i] != shuffled[j];
    assert j < i ==> shuffled[j] != shuffled[i];
  }

  /** Every witness produces in every round of as many slots as there are witnesses. */
  lemma EveryWitnessOncePerRound(shuffled: seq<nat>, aslot: nat, slot: nat, w: nat) returns (at: nat)
    requires shuffled != [] && w in shuffled
    ensures slot <= at < slot + |shuffled| && ScheduledWitness(shuffled, aslot, at) == w
  {
    var n := |shuffled|;
    var i :| 0 <= i < n && shuffled[i] == w;
    var start := (aslot + slot) % n;
    var step := if i >= start then i - start else i + n - start;
    at := slot + step;
    ReachRemainder(aslot + slot, n, i, step);
  }

  lemma ReachRemainder(x: nat, n: nat, r: nat, step: nat)
    requires n > 0 && r < n
    requires step == if r >= x % n then r - x % n else r + n - x % n
    ensures (x + step) % n == r
  {
    QuotientBounds(x, n);
    var q := x / n;
    if r >= x % n {
      RemainderIs(x + step, n, q, r);
    } else {
      assert n * (q + 1) == n * q + n;
      RemainderIs(x + step, n, q + 1, r);
    }
  }

  lemma RemainderIs(x: nat, n: nat, q: nat, r: nat)
    requires n > 0 && r < n && x == n * q + r
    ensures x % n == r
  {
    QuotientGeq(x, n, q);
    QuotientGeq(x, n, q + 1);
    assert n * (q + 1) == n * q + n;
    QuotientBounds(x, n);
  }

  /** The shuffle of distinct witnesses is distinct, so a round visits each exactly once. */
  lemma {:induction false} RearrangedStaysDistinct(s: seq<nat>, t: seq<nat>)
    requires Distinct(s) && multiset(s) == multiset(t)
    ensures Distinct(t)
  {
    forall i, j | 0 <= i < j < |t|
      ensures t[i] != t[j]
    {
      if t[i] == t[j] {
        AtLeastTwice(t, i, j);
        AtMostOnce(s, t[i]);
      }
    }
  }

  lemma RearrangedStaysWithin(s: seq<nat>, t: seq<nat>, all: set<nat>)
    requires multiset(s) == multiset(t) && forall i | 0 <= i < |s| :: s[i] in all
    ensures forall i | 0 <= i < |t| :: t[i] in all
  {
    forall i | 0 <= i < |t| ensures t[i] in all {
      assert t[i] in multiset(t);
      assert t[i] in s;
    }
  }

  lemma AtLeastTwice(t: seq<nat>, i: nat, j: nat)
    requires i < j < |t| && t[i] == t[j]
    ensures multiset(t)[t[i]] >= 2
  {
    assert t == t[..j] + t[j..];
    assert t[i] in t[..j] && t[i] in t[j..] by {
      assert t[..j][i] == t[i] && t[j..][0] == t[j];
    }
  }

  lemma {:induction false} AtMostOnce(s: seq<nat>, x: nat)
    requires Distinct(s)
    ensures multiset(s)[x] <= 1
  {
    if s != [] {
      var t := s[1..];
      assert s == [s[0]] + t;
      AtMostOnce(t, x);
      if x == s[0] {
        assert x !in t;
      }
    }
  }

  // ----- missed blocks

  predicate Missed(shuffled: seq<nat>, aslot: nat, missed: nat, w: nat)
    requires shuffled != []
  {
    exists slot | 1 <= slot <= missed :: ScheduledWitness(shuffled, aslot, slot) == w
  }

  /** Within a round the next silent slot belongs to a witness not charged yet. */
  lemma OneMoreMissed(shuffled: seq<nat>, aslot: nat, missed: nat)
    requires shuffled != [] && Distinct(shuffled) && missed + 1 < |shuffled|
    ensures !Missed(shuffled, aslot, missed, ScheduledWitness(shuffled, aslot, missed + 1))
    ensures forall w :: Missed(shuffled, aslot, missed + 1, w) <==>
                          Missed(shuffled, aslot, missed, w) || w == ScheduledWitness(shuffled, aslot, missed + 1)
  {
    hide ScheduledWitness;
    forall slot | 1 <= slot <= missed
      ensures ScheduledWitness(shuffled, aslot, slot) != ScheduledWitness(shuffled, aslot, missed + 1)
    {
      NoWitnessTwicePerRound(shuffled, aslot, slot, missed + 1);
    }
  }

  predicate ChargedOnce(shuffled: seq<nat>, aslot: nat, missed: nat, before: map<nat, nat>, total: map<nat, nat>)
    requires shuffled != [] && total.Keys == before.Keys
  {
    forall w | w in before ::
      total[w] == before[w] + (if missed < |shuffled| && Missed(shuffled, aslot, missed, w) then 1 else 0)
  }

  /** Each witness that missed its slot is charged exactly once; after a full round of silence nobody is. */
  method ChargeMissed(shuffled: seq<nat>, aslot: nat, missed: nat, before: map<nat, nat>) returns (total: map<nat, nat>)
    requires shuffled != [] && Distinct(shuffled) && forall i | 0 <= i < |shuffled| :: shuffled[i] in before
    ensures total.Keys == before.Keys && ChargedOnce(shuffled, aslot, missed, before, total)
  {
    total := before;
    if missed < |shuffled| {
      var i := 0;
      while i < missed
        invariant i <= missed && total.Keys == before.Keys
        invariant forall w | w in before :: total[w] == before[w] + (if Missed(shuffled, aslot, i, w) then 1 else 0)
      {
        var w := ScheduledWitness(shuffled, aslot, i + 1);
        OneMoreMissed(shuffled, aslot, i);
        total := total[w := total[w] + 1];
        i := i + 1;
      }
    }
  }

  // ----- irreversibility

  const IRREVERSIBLE_THRESHOLD: nat := 7000

  function InsertSorted(s: seq<nat>, x: nat): seq<nat> {
    if s == [] || x <= s[0] then [x] + s else [s[0]] + InsertSorted(s[1..], x)
  }

  /** The order statistics of the confirmed block numbers. */
  function Ranked(s: seq<nat>): (r: seq<nat>)
    ensures |r| == |s|
  {
    if s == [] then [] else InsertSortedLength(Ranked(s[1..]), s[0]); InsertSorted(Ranked(s[1..]), s[0])
  }

  lemma {:induction false} InsertSortedLength(s: seq<nat>, x: nat)
    ensures |InsertSorted(s, x)| == |s| + 1
  {
    if s != [] && x > s[0] {
      InsertSortedLength(s[1..], x);
    }
  }

  predicate Ascending(s: seq<nat>) {
    forall i, j | 0 <= i < j < |s| :: s[i] <= s[j]
  }

  lemma {:induction false} InsertKeepsAscending(s: seq<nat>, x: nat)
    requires Ascending(s)
    ensures Ascending(InsertSorted(s, x))
    ensures forall y | y in InsertSorted(s, x) :: y == x || y in s
  {
    if s != [] && x > s[0] {
      InsertKeepsAscending(s[1..], x);
      var t := InsertSorted(s[1..], x);
      assert forall i | 0 <= i < |t| :: t[i] in t;
    }
  }

  lemma {:induction false} RankedIsAscending(s: seq<nat>)
    ensures Ascending(Ranked(s))
  {
    if s != [] {
      RankedIsAscending(s[1..]);
      InsertKeepsAscending(Ranked(s[1..]), s[0]);
    }
  }

  /** How many witnesses have confirmed a block numbered `v` or more. */
  function AtLeast(s: seq<nat>, v: nat): nat {
    if s == [] then 0 else (if s[0] >= v then 1 else 0) + AtLeast(s[1..], v)
  }

  lemma {:induction false} AtLeastInsert(s: seq<nat>, x: nat, v: nat)
    ensures AtLeast(InsertSorted(s, x), v) == AtLeast(s, v) + (if x >= v then 1 else 0)
  {
    if s == [] || x <= s[0] {
      assert ([x] + s)[1..] == s;
    } else {
      AtLeastInsert(s[1..], x, v);
      assert ([s[0]] + InsertSorted(s[1..], x))[1..] == InsertSorted(s[1..], x);
    }
  }

  lemma {:induction false} AtLeastRanked(s: seq<nat>, v: nat)
    ensures AtLeast(Ranked(s), v) == AtLeast(s, v)
  {
    if s != [] {
      AtLeastRanked(s[1..], v);
      AtLeastInsert(Ranked(s[1..]), s[0], v);
    }
  }

  /** In an ascending sequence the counts around position `k` are what the position says. */
  lemma {:induction false} AtLeastAscending(s: seq<nat>, k: nat, v: nat)
    requires Ascending(s) && k < |s|
    ensures v <= s[k] ==> AtLeast(s, v) >= |s| - k
    ensures v > s[k] ==> AtLeast(s, v) < |s| - k
    decreases |s|
  {
    AtLeastBound(s[1..], v);
    if k == 0 {
      if v <= s[0] {
        AllAtLeast(s, v);
      }
    } else {
      AtLeastAscending(s[1..], k - 1, v);
    }
  }

  lemma {:induction false} AtLeastBound(s: seq<nat>, v: nat)
    ensures AtLeast(s, v) <= |s|
  {
    if s != [] {
      AtLeastBound(s[1..], v);
    }
  }

  lemma {:induction false} AllAtLeast(s: seq<nat>, v: nat)
    requires forall i | 0 <= i < |s| :: s[i] >= v
    ensures AtLeast(s, v) == |s|
  {
    if s != [] {
      AllAtLeast(s[1..], v);
    }
  }

  function Offset(n: nat): nat { (HUNDRED_PERCENT - IRREVERSIBLE_THRESHOLD) * n / HUNDRED_PERCENT }

  /** The block number the quorum position selects. */
  function Quorum(confirmed: seq<nat>): nat
    requires confirmed != []
  {
    Ranked(confirmed)[Offset(|confirmed|)]
  }

  /**
   The selected number is the largest one confirmed by the threshold share of the active witnesses: exactly the numbers
   up to it have that many confirmations.
   */
  lemma QuorumIsThreshold(confirmed: seq<nat>, v: nat)
    requires confirmed != []
    ensures v <= Quorum(confirmed) <==> AtLeast(confirmed, v) * HUNDRED_PERCENT >= IRREVERSIBLE_THRESHOLD * |confirmed|
  {
    var n := |confirmed|;
    RankedIsAscending(confirmed);
    AtLeastRanked(confirmed, v);
    AtLeastAscending(Ranked(confirmed), Offset(n), v);
  }

  datatype Progress = Progress(head: nat, lib: nat, confirmed: map<nat, nat>)

  function Confirmations(confirmed: map<nat, nat>, active: seq<nat>): seq<nat> {
    if active == [] then []
    else [if active[0] in confirmed then confirmed[active[0]] else 0] + Confirmations(confirmed, active[1..])
  }

  /** Each active witness in turn, with the number of the last block it signed; zero if it has not signed any. */
  lemma {:induction false} ConfirmationOf(confirmed: map<nat, nat>, active: seq<nat>, i: nat)
    requires i < |active|
    ensures |Confirmations(confirmed, active)| == |active|
    ensures Confirmations(confirmed, active)[i] == if active[i] in confirmed then confirmed[active[i]] else 0
  {
    if |active| > 1 {
      ConfirmationOf(confirmed, active[1..], if i == 0 then 0 else i - 1);
    }
  }

  /** A block by `signer` becomes the head and counts as its confirmation; then the quorum may advance. */
  function NextBlock(p: Progress, signer: nat, active: seq<nat>): Progress
    requires active != []
  {
    var confirmed := p.confirmed[signer := p.head + 1];
    var q := Quorum(Confirmations(confirmed, active));
    Progress(p.head + 1, Max(p.lib, q), confirmed)
  }

  predicate Behind(p: Progress) {
    p.lib <= p.head && forall w | w in p.confirmed :: p.confirmed[w] <= p.head
  }

  lemma {:induction false} ConfirmationsBounded(confirmed: map<nat, nat>, active: seq<nat>, head: nat)
    requires forall w | w in confirmed :: confirmed[w] <= head
    ensures |Confirmations(confirmed, active)| == |active|
    ensures AtLeast(Confirmations(confirmed, active), head + 1) == 0
  {
    if active != [] {
      ConfirmationsBounded(confirmed, active[1..], head);
      var c := Confirmations(confirmed, active);
      assert c[1..] == Confirmations(confirmed, active[1..]);
    }
  }

  /** The threshold share of these witnesses has signed a block numbered `v` or more. */
  predicate ConfirmedByThreshold(confirmed: map<nat, nat>, active: seq<nat>, v: nat) {
    AtLeast(Confirmations(confirmed, active), v) * HUNDRED_PERCENT >= IRREVERSIBLE_THRESHOLD * |active|
  }

  /** Whatever the threshold share has confirmed is irreversible. */
  ghost predicate NoneConfirmedAbove(q: Progress, active: seq<nat>) {
    forall v: nat | ConfirmedByThreshold(q.confirmed, active, v) :: v <= q.lib
  }

  /** From `p` to `q` a block of `signer` became the head, and its signature counts as the signer's confirmation. */
  predicate Signs(p: Progress, signer: nat, q: Progress) {
    && q.head == p.head + 1
    && signer in q.confirmed && q.confirmed[signer] == q.head
    && (forall w | w in p.confirmed && w != signer :: w in q.confirmed && q.confirmed[w] == p.confirmed[w])
    && (forall w | w in q.confirmed && w != signer :: w in p.confirmed)
  }

  /** The irreversible number is the largest one this share has confirmed, or the old one if that is larger. */
  ghost predicate LargestConfirmed(p: Progress, active: seq<nat>, q: Progress) {
    forall v: nat :: v <= q.lib <==> v <= p.lib || ConfirmedByThreshold(q.confirmed, active, v)
  }

  /**
   One block: the signer confirms the new head, and the irreversible number becomes the largest one that the threshold
   share of the active witnesses has confirmed, unless it was larger already.  It never exceeds the head.
   */
  lemma IrreversibleAdvances(p: Progress, signer: nat, active: seq<nat>)
    requires Behind(p) && active != []
    ensures var q := NextBlock(p, signer, active);
            && Behind(q) && Signs(p, signer, q) && p.lib <= q.lib && LargestConfirmed(p, active, q)
  {
    hide Quorum, Confirmations, AtLeast;
    var q := NextBlock(p, signer, active);
    var c := Confirmations(q.confirmed, active);
    ConfirmationsBounded(q.confirmed, active, q.head);
    QuorumIsThreshold(c, q.head + 1);
    forall v: nat
      ensures v <= q.lib <==> v <= p.lib || ConfirmedByThreshold(q.confirmed, active, v)
    {
      QuorumIsThreshold(c, v);
    }
  }

  datatype Signed = Signed(signer: nat, active: seq<nat>)

  function AfterBlocks(p: Progress, blocks: seq<Signed>): Progress
    requires forall i | 0 <= i < |blocks| :: blocks[i].active != []
    decreases |blocks|
  {
    if blocks == [] then p else AfterBlocks(NextBlock(p, blocks[0].signer, blocks[0].active), blocks[1..])
  }

  /**
   Along every chain, whoever signs and however the active set changes, nothing irreversible is reverted, and whatever
   the threshold share has confirmed is irreversible.
   */
  lemma {:induction false} IrreversibleNeverFalls(p: Progress, blocks: seq<Signed>)
    requires Behind(p) && forall i | 0 <= i < |blocks| :: blocks[i].active != []
    ensures var q := AfterBlocks(p, blocks);
            && Behind(q) && p.lib <= q.lib && q.head == p.head + |blocks|
            && (blocks != [] ==> NoneConfirmedAbove(q, blocks[|blocks| - 1].active))
    decreases |blocks|
  {
    hide NextBlock, ConfirmedByThreshold;
    if blocks != [] {
      IrreversibleAdvances(p, blocks[0].signer, blocks[0].active);
      IrreversibleNeverFalls(NextBlock(p, blocks[0].signer, blocks[0].active), blocks[1..]);
    }
  }

  // ----- the state a block updates

  const MAX_UNDO_HISTORY: nat := 10000

  datatype Header = Header(time: nat, signer: nat)

  /** A new round is shuffled at multiples of the number of witnesses, and only there. */
  predicate RoundAfter(before: seq<nat>, active: seq<nat>, clock: Clock, after: seq<nat>)
    requires 0 < |active| < 0x1_0000_0000 && clock.headTime < 0x1_0000_0000
  {
    if clock.headNum % |active| == 0 then
      after == ShuffledFrom(active, clock.headTime as bv64, 0) && multiset(after) == multiset(active)
    else after == before
  }

  class Schedule {
    var clock: Clock
    var aslot: nat
    var active: seq<nat>
    var shuffled: seq<nat>
    var missed: map<nat, nat>
    var progress: Progress

    /** A witness set the chain may elect: not empty, without repetition, all of them registered. */
    predicate Electable(ws: seq<nat>)
      reads this
    {
      0 < |ws| < 0x1_0000_0000 && Distinct(ws) && forall i | 0 <= i < |ws| :: ws[i] in missed
    }

    predicate Valid()
      reads this
    {
      && clock.interval > 0 && clock.headNum == progress.head && Electable(active) && Electable(shuffled)
      && Behind(progress) && progress.head - progress.lib < MAX_UNDO_HISTORY
    }

    /** Genesis: the initial witnesses, unshuffled, with nothing missed or confirmed. */
    constructor (initial: seq<nat>, registered: set<nat>, time: nat, interval: nat, skipSlots: nat)
      requires 0 < |initial| < 0x1_0000_0000 && Distinct(initial) && interval > 0
      requires forall i | 0 <= i < |initial| :: initial[i] in registered
      ensures Valid() && active == initial && shuffled == initial && missed.Keys == registered
      ensures clock == Clock(0, time, interval, false, skipSlots) && aslot == 0 && progress.lib == 0
    {
      clock := Clock(0, time, interval, false, skipSlots);
      aslot := 0;
      active, shuffled := initial, initial;
      missed := map w | w in registered :: 0;
      progress := Progress(0, 0, map[]);
    }

    /**
     What a block does to the schedule: it is refused unless its signer owns the slot of its time and enough undo
     history is left; otherwise the silent slots before it are charged, the absolute slot moves to the block's own, the
     irreversible number is recomputed over the old active set, and a new round is shuffled from the elected one.
     */
    method ApplyBlock(b: Header, elected: seq<nat>, maintenance: bool) returns (ok: bool)
      requires Valid() && Electable(elected) && b.time < 0x1_0000_0000
      modifies this
      ensures Valid()
      ensures ok <==>
                && old(clock.headTime) < b.time && SlotTime(old(clock), 1) <= b.time
                && b.signer == old(shuffled)[(old(aslot) + SlotAt(old(clock), b.time)) % |old(shuffled)|]
                && old(progress.head + 1 - progress.lib) < MAX_UNDO_HISTORY
      ensures !ok ==> unchanged(this)
      ensures missed.Keys == old(missed.Keys)
      ensures ok ==>
                && Signs(old(progress), b.signer, progress) && progress.lib >= old(progress.lib)
                && LargestConfirmed(old(progress), old(active), progress)
                && aslot == old(aslot) + SlotAt(old(clock), b.time) && active == elected
                && clock == old(clock).(headNum := progress.head, headTime := b.time, maintenance := maintenance)
      ensures ok ==> ChargedOnce(old(shuffled), old(aslot), SlotAt(old(clock), b.time) - 1, old(missed), missed)
      ensures ok ==> RoundAfter(old(shuffled), elected, clock, shuffled)
    {
      hide SlotTime, SlotAt, RoundAfter, ChargedOnce, NextBlock, Distinct, Behind, Signs,
           LargestConfirmed;
      var slot := SlotAt(clock, b.time);
      TimeLiesInItsSlot(clock, b.time);
      if clock.headTime >= b.time || slot == 0 || b.signer != ScheduledWitness(shuffled, aslot, slot)
         || progress.head + 1 - progress.lib >= MAX_UNDO_HISTORY {
        return false;
      }
      missed := ChargeMissed(shuffled, aslot, slot - 1, missed);
      IrreversibleAdvances(progress, b.signer, active);
      HeadAdvances(progress, b.signer, active);
      progress := NextBlock(progress, b.signer, active);
      aslot := aslot + slot;
      clock := clock.(headNum := progress.head, headTime := b.time, maintenance := maintenance);
      active := elected;
      UpdateSchedule();
      ok := true;
    }

    /** A new round is shuffled when the head number is a multiple of the number of active witnesses. */
    method UpdateSchedule()
      requires Valid() && clock.headTime < 0x1_0000_0000
      modifies this`shuffled
      ensures Valid()
      ensures RoundAfter(old(shuffled), active, clock, shuffled)
    {
      hide ShuffledFrom, Behind;
      if clock.headNum % |active| == 0 {
        shuffled := Shuffle(active, clock.headTime as bv64);
        RearrangedStaysDistinct(active, shuffled);
        RearrangedStaysWithin(active, shuffled, missed.Keys);
      }
    }
  }

  lemma HeadAdvances(p: Progress, signer: nat, active: seq<nat>)
    requires active != []
    ensures NextBlock(p, signer, active).head == p.head + 1
  {
  }
}

/**
 META1 smooth allocation (libraries/chain/allocation.cpp, libraries/chain/property_object.cpp,
 libraries/chain/property_evaluator.cpp, libraries/chain/db_smooth_allocation.cpp).

 A property's value is allocated in one-minute ticks: a quarter of it over the initial phase, the rest over the
 approval phase.  Each asset's sell limit is the sum of what its properties contribute so far; it is recomputed every
 block and adjusted by subtraction when a property is deleted.
 */
module Allocation {
  import opened Prices

  const INTERVAL: nat := 60
  const MAX_UINT64: nat := 0xFFFF_FFFF_FFFF_FFFF
  const TWO_TO_64: nat := 0x1_0000_0000_0000_0000
  const MAX_UINT32: nat := 0xFFFF_FFFF

  // ----- interval arithmetic

  function NextStart(t: nat): (r: nat)
    ensures r % INTERVAL == 0 && t < r <= t + INTERVAL
  {
    (t / INTERVAL + 1) * INTERVAL
  }

  function PrecedingStart(t: nat): (r: nat)
    ensures r % INTERVAL == 0 && r <= t < r + INTERVAL
  {
    t / INTERVAL * INTERVAL
  }

  datatype Property = Property(
    id: nat, symbol: nat, value: nat, creation: nat, approved: Option<nat>, expired: bool,
    initialEnd: nat, initial: nat, initialMax: nat, approvalEnd: nat, approval: nat, approvalMax: nat, next: nat)

  /** What holds of a property at any time. */
  predicate Consistent(p: Property) {
    && 0 < p.initialMax && p.initial <= p.initialMax
    && 0 < p.approvalMax && p.approval <= p.approvalMax
    && p.approvalEnd % INTERVAL == 0 && p.creation % INTERVAL == 0
    && p.creation <= p.initialEnd && p.approvalEnd <= p.creation + MAX_UINT32
    && p.initialMax * INTERVAL <= MAX_UINT32 && p.approvalMax * INTERVAL <= MAX_UINT32
    && (p.approved.None? ==> p.approval == 0)
    // the initial counter is filled first
    && (p.approval > 0 ==> p.initial == p.initialMax)
  }

  function NewProperty(id: nat, symbol: nat, value: nat, minutes: nat, now: nat): (p: Property)
    requires minutes >= 4 && minutes * 60 <= MAX_UINT32
    ensures Consistent(p) && p.initialMax + p.approvalMax == minutes
    ensures p.id == id && p.symbol == symbol && p.value == value && p.approved.None? && !p.expired
    ensures p.creation % INTERVAL == 0 && now < p.creation <= now + INTERVAL
  {
    var start := NextStart(now);
    var seconds := minutes * 60;
    var intervals := seconds / INTERVAL;
    assert (start + seconds) % INTERVAL == 0;
    Property(id, symbol, value, start, None, false,
             start + seconds / 4, 0, intervals / 4, start + seconds, 0, intervals - intervals / 4, start + INTERVAL)
  }

  /** Approval during the initial phase only notes the date; later it restarts the clock for the remaining intervals. */
  function Approve(p: Property, now: nat): (q: Property)
    requires Consistent(p) && p.approved.None? && now < p.approvalEnd
    ensures Consistent(q) && q.approved.Some? && q.approval == p.approval == 0
    ensures q == p.(approved := q.approved, approvalMax := q.approvalMax, next := q.next)
    ensures now < p.initialEnd ==> q == p.(approved := Some(now))
  {
    if now < p.initialEnd then p.(approved := Some(now))
    else
      var restart := PrecedingStart(now);
      RestartLeavesTime(now, p.approvalEnd);
      p.(approved := Some(restart), approvalMax := (p.approvalEnd - restart) / INTERVAL, next := restart + INTERVAL)
  }

  lemma RestartLeavesTime(now: nat, end: nat)
    requires now < end && end % INTERVAL == 0
    ensures PrecedingStart(now) <= end && (end - PrecedingStart(now)) / INTERVAL >= 1
  {
  }

  // ----- the catch-up loop and its closed form

  /** How many ticks are due at `now`. */
  function DueTicks(p: Property, now: nat): nat {
    if now < p.next then 0 else (now - p.next) / INTERVAL + 1
  }

  /** The closed form: `n` ticks fill the initial counter first, then, if approved, the approval counter. */
  function AfterTicks(p: Property, n: nat): Property
    requires Consistent(p)
  {
    var left := p.initialMax - p.initial;
    p.(next := p.next + n * INTERVAL,
       initial := p.initial + Min(n, left),
       approval := if p.approved.Some? then p.approval + Min(n - Min(n, left), p.approvalMax - p.approval)
                   else p.approval)
  }

  method CatchUp(p0: Property, now: nat) returns (p: Property)
    requires Consistent(p0)
    ensures p == AfterTicks(p0, DueTicks(p0, now))
    ensures now < p.next
  {
    hide Consistent, DueTicks;
    p := p0;
    ghost var n := 0;
    assert p == AfterTicks(p0, 0);
    while now >= p.next
      invariant Consistent(p) && p == AfterTicks(p0, n)
      invariant n > 0 ==> now >= p0.next + (n - 1) * INTERVAL
      decreases now + INTERVAL - p.next
    {
      OneMoreTick(p0, n);
      p := p.(next := p.next + INTERVAL);
      if p.initial < p.initialMax {
        p := p.(initial := p.initial + 1);
      } else if p.approved.Some? && p.approval < p.approvalMax {
        p := p.(approval := p.approval + 1);
      }
      n := n + 1;
    }
    DueWhenPast(p0, now, n);
  }

  /** One tick more: the initial counter first, then, if approved, the approval counter. */
  lemma OneMoreTick(p0: Property, n: nat)
    requires Consistent(p0) && Consistent(AfterTicks(p0, n))
    ensures var p := AfterTicks(p0, n);
            && Consistent(AfterTicks(p0, n + 1))
            && AfterTicks(p0, n + 1) ==
                 if p.initial < p.initialMax then p.(next := p.next + INTERVAL, initial := p.initial + 1)
                 else if p.approved.Some? && p.approval < p.approvalMax then
                   p.(next := p.next + INTERVAL, approval := p.approval + 1)
                 else p.(next := p.next + INTERVAL)
  {
  }

  lemma DueWhenPast(p0: Property, now: nat, n: nat)
    requires Consistent(p0) && now < p0.next + n * INTERVAL && (n > 0 ==> now >= p0.next + (n - 1) * INTERVAL)
    ensures n == DueTicks(p0, now)
  {
  }

  /** The update of one property in the block at `now`. */
  function Updated(p: Property, now: nat): (q: Property)
    requires Consistent(p)
    ensures Consistent(q) && q.symbol == p.symbol && q.id == p.id && q.value == p.value
  {
    if p.expired then p
    else if now >= p.approvalEnd then
      if p.approved.None? then p.(expired := true, initial := 0, approval := 0)
      else p.(expired := true, initial := p.initialMax, approval := p.approvalMax)
    else if now > p.initialEnd && p.approved.None? then p
    else AfterTicks(p, DueTicks(p, now))
  }

  method UpdateProperty(p0: Property, now: nat) returns (p: Property)
    requires Consistent(p0)
    ensures p == Updated(p0, now)
  {
    p := p0;
    if p.expired {
      return;
    }
    if now >= p.approvalEnd {
      if p.approved.None? {
        p := p.(expired := true, initial := 0, approval := 0);
      } else {
        p := p.(expired := true, initial := p.initialMax, approval := p.approvalMax);
      }
      return;
    }
    if now > p.initialEnd && p.approved.None? {
      return;
    }
    p := CatchUp(p, now);
  }

  // ----- the schedule of a property approved in time

  /** Whole intervals elapsed since the creation date. */
  function Elapsed(p: Property, t: nat): nat {
    if t < p.creation then 0 else (t - p.creation) / INTERVAL
  }

  /** The shape a property has when created, until a late approval changes it. */
  predicate Original(p: Property) {
    var n := p.initialMax + p.approvalMax;
    && Consistent(p) && n >= 4 && p.initialMax == n / 4
    && p.initialEnd == p.creation + n * INTERVAL / 4 && p.approvalEnd == p.creation + n * INTERVAL
  }

  /**
   After the update at time `t` the two counters together are the elapsed intervals, at most all of them, and the
   initial counter is filled first.
   */
  predicate OnSchedule(p: Property, t: nat) {
    && Original(p)
    && p.initial + p.approval == Min(p.initialMax + p.approvalMax, Elapsed(p, t))
    && (p.approval > 0 ==> p.initial == p.initialMax)
    && (!p.expired ==> p.next == p.creation + (Elapsed(p, t) + 1) * INTERVAL)
    && (p.expired ==> t >= p.approvalEnd)
  }

  lemma NewPropertyOnSchedule(id: nat, symbol: nat, value: nat, minutes: nat, now: nat)
    requires minutes >= 4 && minutes * 60 <= MAX_UINT32
    ensures OnSchedule(NewProperty(id, symbol, value, minutes, now), now)
  {
  }

  lemma OriginalIsConsistent(p: Property)
    requires Original(p)
    ensures Consistent(p)
  {
  }

  /** One more block, however many were missed: the schedule is kept. */
  lemma UpdateKeepsSchedule(p: Property, t: nat, now: nat)
    requires OnSchedule(p, t) && t <= now
    requires p.approved.Some? || now <= p.initialEnd
    ensures OnSchedule(Updated(p, now), now)
    ensures Updated(p, now).approved == p.approved && Updated(p, now).initialEnd == p.initialEnd
    ensures now >= p.approvalEnd ==>
              Updated(p, now).initial == p.initialMax && Updated(p, now).approval == p.approvalMax
  {
    var n := p.initialMax + p.approvalMax;
    ElapsedMonotone(p, t, now);
    if p.expired || now >= p.approvalEnd {
      ElapsedAtEnd(p, now);
    } else {
      TicksAreElapsed(p, t, now);
      ElapsedBeforeEnd(p, now);
      if p.approved.None? {
        ElapsedInInitialPhase(p, now);
      }
    }
  }

  lemma ElapsedMonotone(p: Property, t: nat, now: nat)
    requires t <= now
    ensures Elapsed(p, t) <= Elapsed(p, now)
  {
  }

  lemma ElapsedAtEnd(p: Property, now: nat)
    requires Original(p) && now >= p.approvalEnd
    ensures Elapsed(p, now) >= p.initialMax + p.approvalMax
  {
  }

  lemma ElapsedBeforeEnd(p: Property, now: nat)
    requires Original(p) && now < p.approvalEnd
    ensures Elapsed(p, now) < p.initialMax + p.approvalMax
  {
  }

  lemma ElapsedInInitialPhase(p: Property, now: nat)
    requires Original(p) && now <= p.initialEnd
    ensures Elapsed(p, now) <= p.initialMax
  {
  }

  /** The ticks due are exactly the intervals elapsed since the last update. */
  lemma TicksAreElapsed(p: Property, t: nat, now: nat)
    requires OnSchedule(p, t) && t <= now && !p.expired
    ensures DueTicks(p, now) == Elapsed(p, now) - Elapsed(p, t)
  {
  }

  /** All updates of a run of blocks at nondecreasing times. */
  function Updates(p: Property, times: seq<nat>): (q: Property)
    requires Consistent(p)
    ensures Consistent(q) && q.approved == p.approved && q.initialEnd == p.initialEnd && q.approvalEnd == p.approvalEnd
    decreases |times|
  {
    if times == [] then p else Updates(Updated(p, times[0]), times[1..])
  }

  predicate Nondecreasing(from: nat, times: seq<nat>)
    decreases |times|
  {
    times != [] ==> times[0] >= from && Nondecreasing(times[0], times[1..])
  }

  /**
   Whatever blocks are missed: after any run of blocks, a property that is approved (or still in its initial phase)
   has counters given by the time of the last block alone.
   */
  lemma {:induction false} EveryRunIsOnSchedule(p: Property, t: nat, times: seq<nat>)
    requires OnSchedule(p, t) && Nondecreasing(t, times)
    requires p.approved.Some? || (forall i | 0 <= i < |times| :: times[i] <= p.initialEnd)
    ensures OnSchedule(Updates(p, times), if times == [] then t else times[|times| - 1])
    decreases |times|
  {
    hide Elapsed, AfterTicks, DueTicks, Consistent, Updated;
    OriginalIsConsistent(p);
    if times != [] {
      UpdateKeepsSchedule(p, t, times[0]);
      EveryRunIsOnSchedule(Updated(p, times[0]), times[0], times[1..]);
    }
  }

  lemma ApprovalKeepsSchedule(p: Property, at: nat)
    requires OnSchedule(p, at) && p.approved.None? && at < p.initialEnd && at < p.approvalEnd
    ensures OnSchedule(Approve(p, at), at)
  {
  }

  /** From creation through an approval before the initial end date and any number of later blocks. */
  lemma ApprovedInTimeIsOnSchedule(p0: Property, now: nat, before: seq<nat>, at: nat, after: seq<nat>)
    requires OnSchedule(p0, now) && p0.approved.None?
    requires Nondecreasing(now, before) && (forall i | 0 <= i < |before| :: before[i] <= p0.initialEnd)
    requires at == (if before == [] then now else before[|before| - 1])
    requires at < p0.initialEnd && at < p0.approvalEnd && Nondecreasing(at, after)
    ensures OnSchedule(Updates(Approve(Updates(p0, before), at), after), if after == [] then at else after[|after| - 1])
  {
    hide Elapsed, AfterTicks, DueTicks, Updated;
    EveryRunIsOnSchedule(p0, now, before);
    ApprovalKeepsSchedule(Updates(p0, before), at);
    EveryRunIsOnSchedule(Approve(Updates(p0, before), at), at, after);
  }

  // ----- the schedule of a property approved late

  /** `q` is `p`, approved at or after its initial end date, `k` intervals after its restart. */
  predicate Restarted(p: Property, q: Property, start: nat, k: nat) {
    && Consistent(q) && q.approved == Some(start) && !q.expired
    && q.approvalEnd == p.approvalEnd && q.approvalMax == (p.approvalEnd - start) / INTERVAL
    && q.initialMax == p.initialMax && q.initial == Min(p.initialMax, p.initial + k)
    && q.initial + q.approval == p.initial + k && q.approval < q.approvalMax
    && q.next == start + (k + 1) * INTERVAL
  }

  /** Whole intervals from `start` to `t`. */
  function Since(start: nat, t: nat): nat
    requires start <= t
  {
    (t - start) / INTERVAL
  }

  lemma ApprovalRestarts(p: Property, at: nat) returns (start: nat)
    requires Consistent(p) && p.approved.None? && !p.expired && p.initialEnd <= at < p.approvalEnd
    ensures start % INTERVAL == 0 && start <= at < start + INTERVAL
    ensures Restarted(p, Approve(p, at), start, 0)
  {
    start := PrecedingStart(at);
    RestartLeavesTime(at, p.approvalEnd);
  }

  /** One more block before the end date, however many were missed. */
  lemma UpdateAfterRestart(p: Property, q: Property, start: nat, t: nat, now: nat)
    requires Consistent(p) && start % INTERVAL == 0 && start <= t <= now < p.approvalEnd
    requires Restarted(p, q, start, Since(start, t))
    ensures Restarted(p, Updated(q, now), start, Since(start, now))
  {
    hide Since;
    var k, l := Since(start, t), Since(start, now);
    TicksSinceRestart(q.next, start, t, now);
    IntervalsLeft(start, now, p.approvalEnd);
    AfterMoreTicks(p, q, start, k, l - k);
  }

  lemma AfterMoreTicks(p: Property, q: Property, start: nat, k: nat, n: nat)
    requires Consistent(p) && Restarted(p, q, start, k) && k + n < q.approvalMax
    ensures Restarted(p, AfterTicks(q, n), start, k + n)
  {
  }

  lemma TicksSinceRestart(next: nat, start: nat, t: nat, now: nat)
    requires start <= t <= now && next == start + (Since(start, t) + 1) * INTERVAL
    ensures Since(start, t) <= Since(start, now)
    ensures (if now < next then 0 else (now - next) / INTERVAL + 1) == Since(start, now) - Since(start, t)
  {
  }

  lemma IntervalsLeft(start: nat, now: nat, end: nat)
    requires start % INTERVAL == 0 && end % INTERVAL == 0 && start <= now < end
    ensures Since(start, now) < (end - start) / INTERVAL
  {
  }

  /** The same for a run of blocks; `t` is the time of the last one. */
  lemma {:induction false} UpdatesAfterRestart(p: Property, q: Property, start: nat, from: nat, times: seq<nat>, t: nat)
    requires Consistent(p) && start % INTERVAL == 0 && start <= from && Restarted(p, q, start, Since(start, from))
    requires Nondecreasing(from, times) && t == (if times == [] then from else times[|times| - 1]) && t < p.approvalEnd
    ensures start <= t && Consistent(q) && Restarted(p, Updates(q, times), start, Since(start, t))
    decreases |times|
  {
    hide Restarted, Consistent, Updated;
    RestartedIsConsistent(p, q, start, Since(start, from));
    if times != [] {
      LastIsLatest(from, times);
      UpdateAfterRestart(p, q, start, from, times[0]);
      UpdatesAfterRestart(p, Updated(q, times[0]), start, times[0], times[1..], t);
    }
  }

  lemma RestartedIsConsistent(p: Property, q: Property, start: nat, k: nat)
    requires Restarted(p, q, start, k)
    ensures Consistent(q)
  {
  }

  lemma {:induction false} LastIsLatest(from: nat, times: seq<nat>)
    requires Nondecreasing(from, times) && times != []
    ensures from <= times[0] <= times[|times| - 1]
    decreases |times|
  {
    if |times| > 1 {
      LastIsLatest(times[0], times[1..]);
    }
  }

  /**
   A property approved at or after its initial end date starts its approval phase anew, at the start of the interval
   of the approval: after any run of blocks before the end date, `k` intervals after that start, `k` ticks have been
   made, those missing from the initial phase first, and the approval counter is still short of its maximum, the
   number of intervals from the start to the end.
   */
  lemma ApprovedLateIsOnSchedule(p: Property, at: nat, times: seq<nat>, t: nat) returns (start: nat)
    requires Consistent(p) && p.approved.None? && !p.expired && p.initialEnd <= at < p.approvalEnd
    requires Nondecreasing(at, times) && t == (if times == [] then at else times[|times| - 1]) && t < p.approvalEnd
    ensures start % INTERVAL == 0 && start <= at < start + INTERVAL && start <= t
    ensures var q := Updates(Approve(p, at), times);
            var k := (t - start) / INTERVAL;
            && q.approved == Some(start) && q.approvalEnd == p.approvalEnd && !q.expired
            && q.approvalMax == (p.approvalEnd - start) / INTERVAL && q.approval < q.approvalMax
            && q.initialMax == p.initialMax && q.initial == Min(p.initialMax, p.initial + k)
            && q.initial + q.approval == p.initial + k
            && (p.initial == p.initialMax ==> q.approval == k)
  {
    hide Approve, Updated, Consistent;
    start := ApprovalRestarts(p, at);
    assert Since(start, at) == 0;
    UpdatesAfterRestart(p, Approve(p, at), start, at, times, t);
  }

  // ----- the end of a property

  /** Updates of an expired property change nothing. */
  lemma {:induction false} ExpiredStays(p: Property, times: seq<nat>)
    requires Consistent(p) && p.expired
    ensures Updates(p, times) == p
    decreases |times|
  {
    if times != [] {
      ExpiredStays(p, times[1..]);
    }
  }

  /**
   From the first block at or after its end date on, a property contributes nothing if it was never approved, and all
   of its value if it was.  Between the end of the initial phase and that date an unapproved property stands still.
   */
  lemma EndOfProperty(p: Property, now: nat, times: seq<nat>)
    requires Consistent(p) && !p.expired
    ensures now >= p.approvalEnd ==>
              var q := Updates(Updated(p, now), times);
              q.expired && Contribution(q) == if p.approved.Some? then 10 * p.value else 0
    ensures p.initialEnd < now < p.approvalEnd && p.approved.None? ==> Updated(p, now) == p
  {
    if now >= p.approvalEnd {
      var q := Updated(p, now);
      ExpiredStays(q, times);
      if p.approved.Some? {
        FullContribution(q);
      } else {
        NewContributesNothing(q);
      }
    }
  }

  lemma FullContribution(p: Property)
    requires Consistent(p) && p.initial == p.initialMax && p.approval == p.approvalMax
    ensures Contribution(p) == 10 * p.value
  {
    hide ProgressNum, ProgressDen;
    ProgressInUnit(p);
    var d, x := ProgressDen(p), 10 * p.value;
    MultipleUp(x, d);
  }

  lemma MultipleUp(x: nat, d: nat)
    requires d > 0
    ensures CeilShare(x, d, d) == x
  {
    hide CeilShare;
    CeilShareSpec(x, d, d, x);
    if x > 0 {
      CeilShareSpec(x, d, d, x - 1);
      MulLess(x - 1, x, d);
    }
  }

  // ----- progress and contribution

  /** Progress is initial / initialMax / 4 + 3 * approval / approvalMax / 4, as one fraction. */
  function ProgressNum(p: Property): nat { p.initial * p.approvalMax + 3 * p.approval * p.initialMax }
  function ProgressDen(p: Property): nat { 4 * p.initialMax * p.approvalMax }

  lemma ProgressInUnit(p: Property)
    requires Consistent(p)
    ensures 0 < ProgressDen(p) && ProgressNum(p) <= ProgressDen(p)
    ensures p.initial == p.initialMax && p.approval == p.approvalMax ==> ProgressNum(p) == ProgressDen(p)
  {
    MulLeq(p.initial, p.initialMax, p.approvalMax);
    MulLeq(p.approval, p.approvalMax, p.initialMax);
    MulLess(0, p.initialMax, p.approvalMax);
    var whole := p.initialMax * p.approvalMax;
    assert ProgressDen(p) == 4 * whole by { Scaled(4, p.initialMax, p.approvalMax); }
    assert 3 * p.approval * p.initialMax <= 3 * whole by { Scaled(3, p.approval, p.initialMax); }
  }

  lemma Scaled(k: nat, x: nat, y: nat)
    ensures k * x * y == k * (x * y)
  {
  }

  /** Ten times the appraised value, times the progress, rounded up. */
  function Contribution(p: Property): nat
    requires Consistent(p)
  {
    ProgressInUnit(p);
    CeilShare(10 * p.value, ProgressNum(p), ProgressDen(p))
  }

  function CeilShare(x: nat, num: nat, den: nat): nat
    requires den > 0
  {
    (x * num + den - 1) / den
  }

  lemma CeilShareSpec(x: nat, num: nat, den: nat, z: nat)
    requires den > 0
    ensures CeilShare(x, num, den) <= z <==> x * num <= z * den
  {
    QuotientGeq(x * num + den - 1, den, z + 1);
    assert den * (z + 1) == den * z + den;
  }

  /** The exact share is never exceeded by a whole unit, never undercut, and never more than ten times the value. */
  lemma ContributionError(p: Property)
    requires Consistent(p)
    ensures var num := p.initial * p.approvalMax + 3 * p.approval * p.initialMax;
            var den := 4 * p.initialMax * p.approvalMax;
            10 * p.value * num <= Contribution(p) * den < 10 * p.value * num + den
    ensures Contribution(p) <= 10 * p.value
  {
    assert ProgressNum(p) == p.initial * p.approvalMax + 3 * p.approval * p.initialMax;
    assert ProgressDen(p) == 4 * p.initialMax * p.approvalMax;
    hide CeilShare, ProgressNum, ProgressDen;
    ProgressInUnit(p);
    var x, num, den := 10 * p.value, ProgressNum(p), ProgressDen(p);
    var c := Contribution(p);
    CeilShareSpec(x, num, den, c);
    if c > 0 {
      CeilShareSpec(x, num, den, c - 1);
      assert (c - 1) * den == c * den - den;
    }
    CeilShareSpec(x, num, den, x);
    MulLeq(num, den, x);
  }

  /** The same fraction in other terms, such as lowest terms, gives the same contribution. */
  lemma ContributionIgnoresTerms(x: nat, num: nat, den: nat, num': nat, den': nat)
    requires den > 0 && den' > 0 && num * den' == num' * den
    ensures CeilShare(x, num, den) == CeilShare(x, num', den')
  {
    hide CeilShare;
    SmallerShare(x, num, den, num', den');
    SmallerShare(x, num', den', num, den);
  }

  lemma SmallerShare(x: nat, num: nat, den: nat, num': nat, den': nat)
    requires den > 0 && den' > 0 && num * den' <= num' * den
    ensures CeilShare(x, num, den) <= CeilShare(x, num', den')
  {
    hide CeilShare;
    var z := CeilShare(x, num', den');
    CeilShareSpec(x, num', den', z);
    // x * num' <= z * den'
    MulLeq(x * num', z * den', den);
    MulLeq(num * den', num' * den, x);
    Swap(z, den', den);
    Swap(x, num', den);
    assert (num * den') * x == (x * num) * den' by { Swap(num, x, den'); }
    assert (num' * den) * x == (x * num') * den by { Swap(num', x, den); }
    Cancel(x * num, z * den, den');
    CeilShareSpec(x, num, den, z);
  }

  predicate ProgressAtMost(p: Property, q: Property) {
    ProgressNum(p) * ProgressDen(q) <= ProgressNum(q) * ProgressDen(p)
  }

  lemma MoreTicks(i: nat, j: nat, a: nat, b: nat, m: nat, k: nat)
    requires i <= j && a <= b
    ensures i * k + 3 * a * m <= j * k + 3 * b * m
  {
  }

  lemma LaterRestart(i: nat, j: nat, m: nat, a: nat, b: nat, more: nat)
    requires i <= j
    ensures (i * a) * (4 * m * b) <= (j * b + more) * (4 * m * a)
  {
  }

  /** Higher counters mean no less progress. */
  lemma CountersMonotone(p: Property, q: Property)
    requires Consistent(p) && Consistent(q) && p.initialMax == q.initialMax && p.initial <= q.initial
    requires p.approvalMax == q.approvalMax || p.approval == 0
    requires p.approval <= q.approval
    ensures ProgressAtMost(p, q)
  {
    if p.approvalMax == q.approvalMax {
      MoreTicks(p.initial, q.initial, p.approval, q.approval, p.initialMax, p.approvalMax);
      MulLeq(ProgressNum(p), ProgressNum(q), ProgressDen(p));
    } else {
      LaterRestart(p.initial, q.initial, p.initialMax, p.approvalMax, q.approvalMax, 3 * q.approval * q.initialMax);
      assert ProgressNum(p) == p.initial * p.approvalMax;
    }
  }

  /** Until an unapproved property expires, its progress never falls. */
  lemma ProgressNeverFalls(p: Property, now: nat)
    requires Consistent(p)
    ensures p.approved.Some? || now < p.approvalEnd || p.expired ==> ProgressAtMost(p, Updated(p, now))
    ensures p.approved.None? && now < p.approvalEnd ==>
              ProgressAtMost(p, Approve(p, now)) && Contribution(Approve(p, now)) == Contribution(p)
  {
    hide ProgressAtMost, ProgressNum, ProgressDen;
    if p.approved.Some? || now < p.approvalEnd || p.expired {
      CountersMonotone(p, Updated(p, now));
    }
    if p.approved.None? && now < p.approvalEnd {
      CountersMonotone(p, Approve(p, now));
      CountersMonotone(Approve(p, now), p);
      SameProgress(p, Approve(p, now));
    }
  }

  lemma SameProgress(p: Property, q: Property)
    requires Consistent(p) && Consistent(q) && p.value == q.value && ProgressAtMost(p, q) && ProgressAtMost(q, p)
    ensures Contribution(p) == Contribution(q)
  {
    ProgressInUnit(p);
    ProgressInUnit(q);
    ContributionIgnoresTerms(10 * p.value, ProgressNum(p), ProgressDen(p), ProgressNum(q), ProgressDen(q));
  }

  // ----- the aggregate

  predicate AllOk(props: seq<Property>) { forall i | 0 <= i < |props| :: Consistent(props[i]) }

  /** What the properties backing `symbol` contribute together. */
  function SumFor(props: seq<Property>, symbol: nat): nat
    requires AllOk(props)
  {
    if props == [] then 0
    else (if props[0].symbol == symbol then Contribution(props[0]) else 0) + SumFor(props[1..], symbol)
  }

  lemma {:induction false} SumForConcat(a: seq<Property>, b: seq<Property>, symbol: nat)
    requires AllOk(a) && AllOk(b)
    ensures AllOk(a + b) && SumFor(a + b, symbol) == SumFor(a, symbol) + SumFor(b, symbol)
  {
    hide Contribution;
    assert forall i | 0 <= i < |a + b| :: (a + b)[i] == if i < |a| then a[i] else b[i - |a|];
    if a == [] {
      assert a + b == b;
    } else {
      SumForConcat(a[1..], b, symbol);
      assert (a + b)[1..] == a[1..] + b;
    }
  }

  lemma SumForSplit(props: seq<Property>, i: nat, symbol: nat)
    requires AllOk(props) && i < |props|
    ensures AllOk(props[..i]) && AllOk(props[i + 1..])
    ensures SumFor(props, symbol) ==
            SumFor(props[..i], symbol) + (if props[i].symbol == symbol then Contribution(props[i]) else 0) +
                SumFor(props[i + 1..], symbol)
  {
    hide Contribution;
    assert props == props[..i] + props[i..];
    SumForConcat(props[..i], props[i..], symbol);
    assert props[i..][1..] == props[i + 1..];
  }

  // ----- the symbols in index order

  function WithSymbol(s: seq<nat>, x: nat): (t: seq<nat>)
    ensures forall y :: y in t <==> y in s || y == x
  {
    if s == [] || x < s[0] then [x] + s else [s[0]] + WithSymbol(s[1..], x)
  }

  predicate Rising(s: seq<nat>) { forall i, j | 0 <= i < j < |s| :: s[i] < s[j] }

  lemma {:induction false} WithSymbolRises(s: seq<nat>, x: nat)
    requires Rising(s) && x !in s
    ensures Rising(WithSymbol(s, x))
  {
    if s != [] && x > s[0] {
      WithSymbolRises(s[1..], x);
      var t := WithSymbol(s[1..], x);
      assert forall i | 0 <= i < |t| :: t[i] in t;
    }
  }

  predicate IsBackedIn(props: seq<Property>, s: nat) {
    exists i | 0 <= i < |props| :: props[i].symbol == s
  }

  lemma SameSymbols(a: seq<Property>, b: seq<Property>, limits: map<nat, nat>)
    requires |a| == |b| && forall i | 0 <= i < |a| :: a[i].symbol == b[i].symbol
    ensures ZeroUnlessBacked(a, limits) <==> ZeroUnlessBacked(b, limits)
  {
    forall s
      ensures IsBackedIn(a, s) <==> IsBackedIn(b, s)
    {
      assert forall i | 0 <= i < |a| :: a[i].symbol == s <==> b[i].symbol == s;
    }
  }

  /** A limit that no property backs is zero. */
  predicate ZeroUnlessBacked(props: seq<Property>, limits: map<nat, nat>) {
    forall s | s in limits && !IsBackedIn(props, s) :: limits[s] == 0
  }

  /** The limits once those of the first `stop` symbols that a property backs are recomputed. */
  ghost function LimitsAfter(props: seq<Property>, symbols: seq<nat>, before: map<nat, nat>, stop: nat): map<nat, nat>
    requires AllOk(props) && stop <= |symbols|
  {
    map s | s in before :: if s in symbols[..stop] && IsBackedIn(props, s) then SumFor(props, s) else before[s]
  }

  lemma LimitsAfterStep(props: seq<Property>, symbols: seq<nat>, before: map<nat, nat>, j: nat)
    requires AllOk(props) && j < |symbols| && symbols[j] in before
    ensures LimitsAfter(props, symbols, before, j + 1) ==
            if IsBackedIn(props, symbols[j]) then
              LimitsAfter(props, symbols, before, j)[symbols[j] := SumFor(props, symbols[j])]
            else LimitsAfter(props, symbols, before, j)
  {
    hide SumFor, Consistent;
    assert symbols[..j + 1] == symbols[..j] + [symbols[j]];
  }

  // ----- what the values allow

  function TotalValue(props: seq<Property>): nat {
    if props == [] then 0 else props[0].value + TotalValue(props[1..])
  }

  lemma {:induction false} TotalValueConcat(a: seq<Property>, b: seq<Property>)
    ensures TotalValue(a + b) == TotalValue(a) + TotalValue(b)
  {
    if a == [] {
      assert a + b == b;
    } else {
      TotalValueConcat(a[1..], b);
      assert (a + b)[1..] == a[1..] + b;
    }
  }

  lemma {:induction false} SameValues(a: seq<Property>, b: seq<Property>)
    requires |a| == |b| && forall i | 0 <= i < |a| :: a[i].value == b[i].value
    ensures TotalValue(a) == TotalValue(b)
  {
    if a != [] {
      SameValues(a[1..], b[1..]);
    }
  }

  /** No contribution and no sum of contributions exceeds ten times the values. */
  lemma {:induction false} SumForWithinValues(props: seq<Property>, symbol: nat)
    requires AllOk(props)
    ensures SumFor(props, symbol) <= 10 * TotalValue(props)
    ensures forall i | 0 <= i < |props| :: Contribution(props[i]) <= 10 * TotalValue(props)
  {
    hide Contribution;
    if props != [] {
      ContributionError(props[0]);
      SumForWithinValues(props[1..], symbol);
      forall i | 0 <= i < |props|
        ensures Contribution(props[i]) <= 10 * TotalValue(props)
      {
        if i > 0 {
          assert props[i] == props[1..][i - 1];
        }
      }
    }
  }

  datatype Operation =
    | CreateLimit(symbol: nat)
    | Create(id: nat, symbol: nat, value: nat, minutes: nat)
    | ApproveIt(index: nat)
    | Delete(index: nat)
    | Block(time: nat, assetsExist: bool)

  /** The values of the properties that these operations may create. */
  function ValuesOf(ops: seq<Operation>): nat {
    if ops == [] then 0 else (if ops[0].Create? then ops[0].value else 0) + ValuesOf(ops[1..])
  }

  lemma ValuesOfStep(ops: seq<Operation>, i: nat)
    requires i < |ops|
    ensures ValuesOf(ops[i..]) == (if ops[i].Create? then ops[i].value else 0) + ValuesOf(ops[i + 1..])
  {
    assert ops[i..][1..] == ops[i + 1..];
  }

  /** Subtraction of unsigned 64-bit numbers, which wraps around. */
  function Minus(x: nat, y: nat): nat
    requires y <= MAX_UINT64
  {
    (x + TWO_TO_64 - y) % TWO_TO_64
  }

  lemma MinusFacts(x: nat, y: nat)
    requires x <= MAX_UINT64 && y <= MAX_UINT64
    ensures Minus(x, y) <= MAX_UINT64
    ensures Minus(x, y) == if y <= x then x - y else x + TWO_TO_64 - y
  {
  }

  /** The state between two operations. */
  datatype Snapshot = Snapshot(props: seq<Property>, symbols: seq<nat>, limits: map<nat, nat>, now: nat)

  /** What an operation does; `early` says that a recomputation stopped before its end. */
  ghost predicate Effect(op: Operation, s: Snapshot, t: Snapshot, early: bool) {
    && AllOk(s.props) && AllOk(t.props)
    && match op
       case CreateLimit(symbol) =>
         && t == s.(symbols := t.symbols, limits := if symbol in s.limits then s.limits else s.limits[symbol := 0])
         && forall x :: x in t.symbols <==> x in s.symbols || x == symbol
       case Create(id, symbol, value, minutes) =>
         if && symbol in s.limits && minutes >= 4 && minutes * 60 <= MAX_UINT32
            && forall i | 0 <= i < |s.props| :: s.props[i].id != id
         then t == s.(props := s.props + [NewProperty(id, symbol, value, minutes, s.now)]) else t == s
       case ApproveIt(i) =>
         if i < |s.props| && s.now < s.props[i].approvalEnd && s.props[i].approved.None?
         then t == s.(props := s.props[i := Approve(s.props[i], s.now)]) else t == s
       case Delete(i) =>
         if i < |s.props| && Contribution(s.props[i]) <= MAX_UINT64
         then
           && t == s.(props := s.props[..i] + s.props[i + 1..], limits := t.limits) && t.limits.Keys == s.limits.Keys
           && forall x | x in t.limits ::
                t.limits[x] == if x == s.props[i].symbol then Minus(s.limits[x], Contribution(s.props[i]))
                               else s.limits[x]
         else t == s
       case Block(time, assetsExist) =>
         if time < s.now || !assetsExist then t == s.(now := Max(time, s.now))
         else
           && t == s.(props := t.props, limits := t.limits, now := time) && |t.props| == |s.props|
           && (forall i | 0 <= i < |t.props| :: t.props[i] == Updated(s.props[i], time))
           && exists stop | 0 <= stop <= |t.symbols| ::
                t.limits == LimitsAfter(t.props, t.symbols, s.limits, stop) && (!early ==> stop == |t.symbols|)
  }

  ghost predicate EffectAt(ops: seq<Operation>, states: seq<Snapshot>, i: nat)
    requires i < |ops| && i + 1 < |states|
  {
    Effect(ops[i], states[i], states[i + 1], false) || Effect(ops[i], states[i], states[i + 1], true)
  }

  class Allocations {
    var props: seq<Property>
    var symbols: seq<nat>
    var limits: map<nat, nat>
    var now: nat

    function State(): Snapshot
      reads this
    {
      Snapshot(props, symbols, limits, now)
    }

    /** What holds even after a recomputation that stopped early. */
    ghost predicate Sane()
      reads this
    {
      && AllOk(props)
      && (forall i | 0 <= i < |props| :: props[i].symbol in limits)
      && (forall s :: s in limits <==> s in symbols) && Rising(symbols)
      && (forall s | s in limits :: limits[s] <= MAX_UINT64)
    }

    /** Every limit is the sum of the contributions of its properties. */
    ghost predicate Valid()
      reads this
    {
      Sane() && forall s | s in limits :: limits[s] == SumFor(props, s)
    }

    constructor ()
      ensures Valid() && props == [] && limits == map[]
    {
      props, symbols, limits, now := [], [], map[], 0;
    }

    method CreateLimitation(symbol: nat) returns (ok: bool)
      requires Sane()
      modifies this`symbols, this`limits
      ensures Sane() && (old(Valid()) ==> Valid())
      ensures ok <==> symbol !in old(limits)
      ensures limits == if ok then old(limits)[symbol := 0] else old(limits)
      ensures forall x :: x in symbols <==> x in old(symbols) || x == symbol
    {
      ok := symbol !in limits;
      if ok {
        NothingBacks(props, symbol);
        WithSymbolRises(symbols, symbol);
        symbols, limits := WithSymbol(symbols, symbol), limits[symbol := 0];
      }
    }

    method CreateProperty(id: nat, symbol: nat, value: nat, minutes: nat) returns (ok: bool)
      requires Sane()
      modifies this`props
      ensures Sane() && (old(Valid()) ==> Valid())
      ensures ok <==>
                && symbol in limits && minutes >= 4 && minutes * 60 <= MAX_UINT32
                && forall i | 0 <= i < |old(props)| :: old(props)[i].id != id
      ensures props == if ok then old(props) + [NewProperty(id, symbol, value, minutes, now)] else old(props)
    {
      ok := symbol in limits && minutes >= 4 && minutes * 60 <= MAX_UINT32;
      var i := 0;
      while i < |props| && ok
        invariant 0 <= i <= |props|
        invariant ok <==>
                    && symbol in limits && minutes >= 4 && minutes * 60 <= MAX_UINT32
                    && forall k | 0 <= k < i :: props[k].id != id
      {
        ok := props[i].id != id;
        i := i + 1;
      }
      if ok {
        var p := NewProperty(id, symbol, value, minutes, now);
        NewContributesNothing(p);
        forall s ensures AllOk(props + [p]) && SumFor(props + [p], s) == SumFor(props, s) {
          SumForConcat(props, [p], s);
          assert SumFor([p], s) == 0;
        }
        props := props + [p];
      }
    }

    /** Approval never changes a limit. */
    method ApproveProperty(i: nat) returns (ok: bool)
      requires Sane()
      modifies this`props
      ensures Sane() && (old(Valid()) ==> Valid())
      ensures ok <==> i < |old(props)| && now < old(props)[i].approvalEnd && old(props)[i].approved.None?
      ensures props == if ok then old(props)[i := Approve(old(props)[i], now)] else old(props)
    {
      ok := i < |props| && now < props[i].approvalEnd && props[i].approved.None?;
      if ok {
        var q := Approve(props[i], now);
        ProgressNeverFalls(props[i], now);
        forall s ensures AllOk(props[i := q]) && SumFor(props[i := q], s) == SumFor(props, s) {
          ReplaceSame(props, i, q, s);
        }
        props := props[i := q];
      }
    }

    /**
     Deleting subtracts the contribution in 64 bits.  If the limits were sums, nothing wraps and they are sums again.
     */
    method DeleteProperty(i: nat) returns (ok: bool)
      requires Sane()
      modifies this`props, this`limits
      ensures Sane() && (old(Valid()) ==> Valid())
      ensures ok <==> i < |old(props)| && Contribution(old(props)[i]) <= MAX_UINT64
      ensures props == if ok then old(props)[..i] + old(props)[i + 1..] else old(props)
      ensures limits.Keys == old(limits.Keys) && (!ok ==> limits == old(limits))
      ensures ok ==> forall s | s in limits ::
                limits[s] == if s == old(props)[i].symbol then Minus(old(limits)[s], Contribution(old(props)[i]))
                             else old(limits)[s]
      ensures ok && old(Valid()) ==> forall s | s in limits ::
                limits[s] + (if s == old(props)[i].symbol then Contribution(old(props)[i]) else 0) == old(limits)[s]
    {
      hide Contribution, SumFor, Consistent, Minus;
      ok := i < |props|;
      if ok {
        var p := props[i];
        var c := Contribution(p);
        if c > MAX_UINT64 {
          return false;
        }
        var rest := props[..i] + props[i + 1..];
        forall s ensures AllOk(rest) && SumFor(props, s) == SumFor(rest, s) + (if p.symbol == s then c else 0) {
          SumForSplit(props, i, s);
          SumForConcat(props[..i], props[i + 1..], s);
        }
        MinusFacts(limits[p.symbol], c);
        limits := limits[p.symbol := Minus(limits[p.symbol], c)];
        props := rest;
      }
    }

    /**
     The block step: update every property, then recompute every limit that a property backs.  If a contribution does
     not fit, no limit is written; if a sum does not, exactly the limits of the symbols before it are.
     */
    method UpdateBlock(t: nat, assetsExist: bool) returns (ok: bool, ghost stop: nat)
      requires Sane() && now <= t
      modifies this
      ensures Sane() && now == t && |props| == |old(props)| && limits.Keys == old(limits.Keys) &&
              symbols == old(symbols)
      ensures assetsExist ==>
                forall i | 0 <= i < |props| :: Consistent(old(props)[i]) && props[i] == Updated(old(props)[i], t)
      ensures !assetsExist ==> !ok && props == old(props) && limits == old(limits) && (old(Valid()) ==> Valid())
      ensures ok && old(Valid()) ==> Valid()
      ensures assetsExist ==> (ok <==> SumsFit()) && Recomputed(old(limits), stop) && (ok ==> stop == |symbols|)
      ensures assetsExist && !ok ==>
                || (stop == 0 && !FitAll())
                || (FitAll() && stop < |symbols| && SumFor(props, symbols[stop]) > MAX_UINT64)
      ensures TotalValue(props) == TotalValue(old(props))
    {
      hide Contribution, Updated, Consistent, SumFor, LimitsAfter, ZeroUnlessBacked, TotalValue;
      now := t;
      stop := 0;
      if !assetsExist {
        return false, 0;
      }
      if old(Valid()) {
        UnbackedAreZero();
      }
      ghost var before := props;
      UpdateProperties();
      SameValues(before, props);
      SameSymbols(before, props, limits);
      ok, stop := RecomputeLimits();
    }

    /** Every contribution fits 64 bits. */
    ghost predicate FitAll()
      requires AllOk(props)
      reads this
    {
      forall i | 0 <= i < |props| :: Contribution(props[i]) <= MAX_UINT64
    }

    ghost predicate SumsFit()
      requires AllOk(props)
      reads this
    {
      FitAll() && forall s | s in limits :: SumFor(props, s) <= MAX_UINT64
    }

    ghost predicate Recomputed(before: map<nat, nat>, stop: nat)
      requires AllOk(props)
      reads this
    {
      stop <= |symbols| && limits == LimitsAfter(props, symbols, before, stop)
    }

    lemma UnbackedAreZero()
      requires Valid()
      ensures ZeroUnlessBacked(props, limits)
    {
      forall s | s in limits && !IsBackedIn(props, s)
        ensures limits[s] == 0
      {
        NothingBacks(props, s);
      }
    }

    method UpdateProperties()
      requires AllOk(props)
      modifies this`props
      ensures AllOk(props) && |props| == |old(props)|
      ensures forall i | 0 <= i < |props| ::
                props[i] == Updated(old(props)[i], now) && props[i].symbol == old(props)[i].symbol
    {
      hide Consistent;
      var i := 0;
      while i < |props|
        invariant 0 <= i <= |props| == |old(props)| && AllOk(props)
        invariant forall k | 0 <= k < i :: props[k] == Updated(old(props)[k], now)
        invariant forall k | i <= k < |props| :: props[k] == old(props)[k]
      {
        var p := UpdateProperty(props[i], now);
        props := props[i := p];
        i := i + 1;
      }
    }

    method RecomputeLimits() returns (ok: bool, ghost stop: nat)
      requires Sane()
      modifies this`limits
      ensures Sane() && Recomputed(old(limits), stop) && (ok <==> SumsFit()) && (ok ==> stop == |symbols|)
      ensures !ok ==>
                || (stop == 0 && !FitAll())
                || (FitAll() && stop < |symbols| && SumFor(props, symbols[stop]) > MAX_UINT64)
      // a limit nothing backs any more is already zero
      ensures ok && ZeroUnlessBacked(props, old(limits)) ==> Valid()
    {
      hide Contribution, SumFor, Consistent, IsBackedIn, LimitsAfter, ZeroUnlessBacked, Rising;
      stop := 0;
      NothingRecomputed();
      ok := ContributionsFit();
      if !ok {
        return;
      }
      ghost var before := limits;
      var j := 0;
      while j < |symbols|
        invariant 0 <= j <= |symbols| && Sane() && Recomputed(before, j)
        invariant forall k | 0 <= k < j :: SumFor(props, symbols[k]) <= MAX_UINT64
      {
        var s := symbols[j];
        assert s in symbols;
        LimitsAfterStep(props, symbols, before, j);
        var backed := IsBacked(s);
        var sum := SumFor(props, s);
        if backed {
          if sum > MAX_UINT64 {
            return false, j;
          }
          limits := limits[s := sum];
        } else {
          NothingBacks(props, s);
        }
        j := j + 1;
      }
      stop := j;
      AllRecomputed(before);
    }

    lemma NothingRecomputed()
      requires Sane()
      ensures Recomputed(limits, 0)
    {
    }

    lemma AllRecomputed(before: map<nat, nat>)
      requires Sane() && Recomputed(before, |symbols|)
      requires forall k | 0 <= k < |symbols| :: SumFor(props, symbols[k]) <= MAX_UINT64
      ensures forall s | s in limits :: SumFor(props, s) <= MAX_UINT64
      ensures ZeroUnlessBacked(props, before) ==> Valid()
    {
      hide SumFor;
      forall s | s in limits
        ensures SumFor(props, s) <= MAX_UINT64
        ensures limits[s] == if IsBackedIn(props, s) then SumFor(props, s) else before[s]
        ensures !IsBackedIn(props, s) ==> SumFor(props, s) == 0
      {
        var k :| 0 <= k < |symbols| && symbols[k] == s;
        assert symbols[..|symbols|] == symbols;
        NothingBacks(props, s);
      }
    }

    method ContributionsFit() returns (fit: bool)
      requires AllOk(props)
      ensures fit <==> forall i | 0 <= i < |props| :: Contribution(props[i]) <= MAX_UINT64
    {
      hide Contribution;
      var i := 0;
      while i < |props|
        invariant 0 <= i <= |props| && forall k | 0 <= k < i :: Contribution(props[k]) <= MAX_UINT64
      {
        if Contribution(props[i]) > MAX_UINT64 {
          return false;
        }
        i := i + 1;
      }
      fit := true;
    }

    method IsBacked(s: nat) returns (b: bool)
      ensures b <==> IsBackedIn(props, s)
    {
      b := false;
      var i := 0;
      while i < |props| && !b
        invariant 0 <= i <= |props| && (b <==> exists k | 0 <= k < i :: props[k].symbol == s)
      {
        b := props[i].symbol == s;
        i := i + 1;
      }
    }

    /** One operation; `early` says that a recomputation stopped before its end. */
    method Apply(op: Operation) returns (early: bool)
      requires Sane()
      modifies this
      ensures Sane() && (old(Valid()) && !early ==> Valid())
      ensures early ==> op.Block? && op.assetsExist && !SumsFit()
      ensures TotalValue(props) <= TotalValue(old(props)) + (if op.Create? then op.value else 0)
      ensures Effect(op, old(State()), State(), early)
    {
      hide Contribution, Consistent, SumFor, Updated, TotalValue, LimitsAfter, Approve, NewProperty, Minus, AllOk,
           Rising, FitAll;
      early := false;
      ghost var before := props;
      match op {
        case CreateLimit(symbol) =>
          var ok := CreateLimitation(symbol);
        case Create(id, symbol, value, minutes) =>
          var ok := CreateProperty(id, symbol, value, minutes);
          if ok {
            AddedValue(before, NewProperty(id, symbol, value, minutes, now));
          }
        case ApproveIt(index) =>
          var ok := ApproveProperty(index);
          if ok {
            SameValues(before, props);
          }
        case Delete(index) =>
          var ok := DeleteProperty(index);
          if ok {
            DroppedValue(before, index);
          }
        case Block(time, assetsExist) =>
          if now <= time {
            ghost var stop;
            var ok;
            ok, stop := UpdateBlock(time, assetsExist);
            early := assetsExist && !ok;
          }
      }
    }

    /**
     After any run of operations the limits are the sums of the contributions, unless a recomputation stopped early.
     That cannot happen while ten times the values of all properties, those to be created included, fit 64 bits.
     */
    method Run(ops: seq<Operation>) returns (early: bool, ghost states: seq<Snapshot>)
      requires Valid()
      modifies this
      ensures |states| == |ops| + 1 && states[0] == old(State()) && states[|ops|] == State()
      ensures forall i | 0 <= i < |ops| :: EffectAt(ops, states, i)
      ensures Sane() && (!early ==> Valid())
      ensures 10 * (TotalValue(old(props)) + ValuesOf(ops)) <= MAX_UINT64 ==> !early && Valid()
    {
      hide SumFor, TotalValue, ValuesOf, Effect;
      early, states := false, [State()];
      ghost var budget := TotalValue(props) + ValuesOf(ops);
      assert ops[0..] == ops;
      for i := 0 to |ops|
        invariant Sane() && (!early ==> Valid())
        invariant TotalValue(props) + ValuesOf(ops[i..]) <= budget
        invariant 10 * budget <= MAX_UINT64 ==> !early
        invariant |states| == i + 1 && states[0] == old(State()) && states[i] == State()
        invariant forall k | 0 <= k < i :: EffectAt(ops, states, k)
      {
        ValuesOfStep(ops, i);
        var stopped := Apply(ops[i]);
        ghost var before := states;
        states := states + [State()];
        forall k | 0 <= k <= i
          ensures EffectAt(ops, states, k)
        {
          if k < i {
            assert EffectAt(ops, before, k);
          } else {
            assert Effect(ops[i], states[i], states[i + 1], stopped);
          }
        }
        early := early || stopped;
        if 10 * budget <= MAX_UINT64 {
          BudgetSuffices();
        }
      }
    }

    lemma BudgetSuffices()
      requires AllOk(props) && 10 * TotalValue(props) <= MAX_UINT64
      ensures SumsFit()
    {
      hide SumFor, Contribution, TotalValue;
      forall s
        ensures SumFor(props, s) <= MAX_UINT64
      {
        SumForWithinValues(props, s);
      }
      SumForWithinValues(props, 0);
    }
  }

  lemma AddedValue(props: seq<Property>, p: Property)
    ensures TotalValue(props + [p]) == TotalValue(props) + p.value
  {
    TotalValueConcat(props, [p]);
  }

  lemma DroppedValue(props: seq<Property>, i: nat)
    requires i < |props|
    ensures TotalValue(props[..i] + props[i + 1..]) <= TotalValue(props)
  {
    assert props == props[..i] + props[i..];
    TotalValueConcat(props[..i], props[i..]);
    TotalValueConcat(props[..i], props[i + 1..]);
    assert props[i..][1..] == props[i + 1..];
  }

  lemma {:induction false} NothingBacks(props: seq<Property>, symbol: nat)
    requires AllOk(props)
    ensures !IsBackedIn(props, symbol) ==> SumFor(props, symbol) == 0
  {
    hide Contribution;
    if props != [] {
      NothingBacks(props[1..], symbol);
      if IsBackedIn(props[1..], symbol) {
        var i :| 0 <= i < |props[1..]| && props[1..][i].symbol == symbol;
        assert props[i + 1].symbol == symbol;
      }
      assert props[0].symbol == symbol ==> IsBackedIn(props, symbol);
    }
  }

  lemma NewContributesNothing(p: Property)
    requires Consistent(p) && p.initial == 0 && p.approval == 0
    ensures Contribution(p) == 0
  {
  }

  lemma ReplaceSame(props: seq<Property>, i: nat, q: Property, symbol: nat)
    requires AllOk(props) && i < |props| && Consistent(q) && q.symbol == props[i].symbol &&
             Contribution(q) == Contribution(props[i])
    ensures AllOk(props[i := q]) && SumFor(props[i := q], symbol) == SumFor(props, symbol)
  {
    hide Contribution;
    SumForSplit(props, i, symbol);
    SumForSplit(props[i := q], i, symbol);
    assert props[i := q][..i] == props[..i] && props[i := q][i + 1..] == props[i + 1..];
  }
}

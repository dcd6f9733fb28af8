/**
 * The TSN configuration of the driver and the credit-based shaper of
 * IEEE 802.1Q-2018 clause 8.6.8.2 as `spend_qav_credit` applies it to one
 * VLAN priority.
 */
module Tsn {
  import opened Common

  const VLAN_PRIO_COUNT: nat := 8
  const TSN_PRIO_COUNT: nat := 8
  const MAX_QBV_SLOTS: nat := 20
  const HW_QUEUE_SIZE: nat := 128
  const NS_IN_1S: nat := 1_000_000_000

  /**
   * `bytes_to_ns`: the time to send `bytes` bytes at an assumed 1 Gbit/s,
   * `bytes * 8 * 10^9 / 10^9` in `uint64_t`.
   */
  function BytesToNs(bytes: u64): (r: u64)
    ensures bytes * 8 * NS_IN_1S < TWO_64 ==> r == 8 * bytes
  {
    U64(bytes * 8 * NS_IN_1S) / 1_000_000_000
  }

  /** The shaper state of one priority (`qav_state`); the credit is kept as an unbounded integer. */
  datatype QavState = QavState(
    enabled: bool,
    idleSlope: i32,
    sendSlope: i32,
    hiCredit: i32,
    loCredit: i32,
    credit: int,
    lastUpdate: u64,
    availableAt: u64)

  /** A shaper that `spend_qav_credit` updates: enabled, and `at` later than both its last update and the time it became available. */
  predicate Spends(q: QavState, at: u64)
  {
    q.enabled && !(at < q.lastUpdate || at < q.availableAt)
  }

  /** The frame is sent and leaves a negative credit: the only case in which the code divides by the idle slope. */
  predicate EndsInDeficit(q: QavState, at: u64, bytes: u64)
  {
    Spends(q, at) && SpentCredit(EarnedCredit(q, at), BytesToNs(bytes), q) < 0
  }

  /** The credit after the idle time since the last update is earned, capped at `hiCredit`. */
  function EarnedCredit(q: QavState, at: u64): (c: int)
    requires at >= q.lastUpdate
    ensures c <= q.hiCredit && c <= q.credit + (at - q.lastUpdate) * q.idleSlope
    ensures c == q.hiCredit || c == q.credit + (at - q.lastUpdate) * q.idleSlope
  {
    var c := q.credit + (at - q.lastUpdate) * q.idleSlope;
    if c > q.hiCredit then q.hiCredit else c
  }

  /** The credit after sending for `dur` nanoseconds is spent, floored at `loCredit`. */
  function SpentCredit(c: int, dur: nat, q: QavState): (r: int)
    ensures r >= q.loCredit && r >= c + dur * q.sendSlope
    ensures r == q.loCredit || r == c + dur * q.sendSlope
  {
    var r := c + dur * q.sendSlope;
    if r < q.loCredit then q.loCredit else r
  }

  /**
   * The shaper state `spend_qav_credit(config, at, prio, bytes)` leaves: the
   * credit earned since the last update and spent on the frame, the end of
   * the transmission as the new update time, and, with a negative credit,
   * the time at which idling has earned the deficit back.
   */
  function QavSpend(q: QavState, at: u64, bytes: u64): (r: QavState)
    requires EndsInDeficit(q, at, bytes) ==> q.idleSlope != 0
    ensures !Spends(q, at) ==> r == q
    ensures Spends(q, at) ==>
              && r.enabled == q.enabled && r.idleSlope == q.idleSlope && r.sendSlope == q.sendSlope
              && r.hiCredit == q.hiCredit && r.loCredit == q.loCredit
              && r.credit >= q.loCredit
              && r.lastUpdate == U64(at + BytesToNs(bytes))
              && (r.credit >= 0 ==> r.availableAt == r.lastUpdate)
  {
    if !Spends(q, at) then q
    else
      var dur := BytesToNs(bytes);
      var credit := SpentCredit(EarnedCredit(q, at), dur, q);
      var sendEnd := U64(at + dur);
      var available := if credit < 0 then U64(sendEnd + -TruncDiv(credit, q.idleSlope)) else sendEnd;
      q.(credit := credit, lastUpdate := sendEnd, availableAt := available)
  }

  /** With a nonpositive send slope and `loCredit <= hiCredit`, the credit ends inside `[loCredit, hiCredit]`. */
  lemma QavCreditBounded(q: QavState, at: u64, bytes: u64)
    requires Spends(q, at) && q.idleSlope != 0
    requires q.sendSlope <= 0 && q.loCredit <= q.hiCredit
    ensures q.loCredit <= QavSpend(q, at, bytes).credit <= q.hiCredit
  {
    var c := EarnedCredit(q, at);
    var dur := BytesToNs(bytes);
    MulSignNonpos(dur, q.sendSlope);
  }

  lemma MulSignNonpos(a: nat, b: int)
    requires b <= 0
    ensures a * b <= 0
  {
  }

  /** Sending a frame later never leaves less credit, for a positive idle slope. */
  lemma QavCreditMonotone(q: QavState, at: u64, at': u64, bytes: u64)
    requires Spends(q, at) && at <= at' && q.idleSlope > 0
    ensures Spends(q, at')
    ensures QavSpend(q, at, bytes).credit <= QavSpend(q, at', bytes).credit
  {
    MulMono(at - q.lastUpdate, at' - q.lastUpdate, q.idleSlope);
  }

  /**
   * With a negative credit, a positive idle slope and no wrap-around, the
   * wait after the transmission is the longest whole number of nanoseconds
   * whose idle credit does not exceed the deficit.
   */
  lemma QavRecoveryTime(q: QavState, at: u64, bytes: u64)
    requires Spends(q, at) && q.idleSlope > 0
    requires QavSpend(q, at, bytes).credit < 0
    requires at + BytesToNs(bytes) - QavSpend(q, at, bytes).credit < TWO_64
    ensures var r := QavSpend(q, at, bytes);
            var wait := r.availableAt - r.lastUpdate;
            wait >= 0 && wait * q.idleSlope <= -r.credit < (wait + 1) * q.idleSlope
  {
    var r := QavSpend(q, at, bytes);
    assert r.lastUpdate == at + BytesToNs(bytes);
    WaitForDeficit(r.credit, q.idleSlope, r.lastUpdate);
  }

  /** Waiting `-(credit / slope)` after `sendEnd`, with C's truncating division, earns at most the deficit, and one more nanosecond would earn more. */
  lemma WaitForDeficit(credit: int, slope: int, sendEnd: nat)
    requires credit < 0 && slope > 0 && sendEnd - credit < TWO_64
    ensures var wait := U64(sendEnd + -TruncDiv(credit, slope)) - sendEnd;
            wait >= 0 && wait * slope <= -credit < (wait + 1) * slope
  {
    var d := -credit;
    var w := d / slope;
    assert TruncDiv(credit, slope) == -w;
    assert w * slope <= d < (w + 1) * slope by {
      assert d == slope * w + d % slope;
    }
    assert w <= d by {
      MulMono(1, slope, w);
    }
    assert U64(sendEnd + w) == sendEnd + w;
  }

  /** One slot of the time-aware shaper (Qbv) schedule. */
  datatype QbvSlot = QbvSlot(durationNs: u32, openedPrios: seq<bool>)

  datatype QbvConfig = QbvConfig(enabled: bool, start: u64, slots: seq<QbvSlot>, slotCount: u32)

  datatype QbvBakedPrioSlot = QbvBakedPrioSlot(durationNs: u64, isOpen: bool)

  datatype QbvBakedPrio = QbvBakedPrio(slots: seq<QbvBakedPrioSlot>, slotCount: nat)

  datatype QbvBakedConfig = QbvBakedConfig(cycleNs: u64, prios: seq<QbvBakedPrio>)

  datatype BufferTracker = BufferTracker(freeAt: seq<u64>, head: int, tail: int, count: int)

  const ZERO_QAV := QavState(false, 0, 0, 0, 0, 0, 0, 0)

  /** Every field of a zero-filled `tsn_config`. */
  const ZERO_QBV := QbvConfig(false, 0, Repeat(QbvSlot(0, Repeat(false, VLAN_PRIO_COUNT)), MAX_QBV_SLOTS), 0)
  const ZERO_BAKED := QbvBakedConfig(0, Repeat(QbvBakedPrio(Repeat(QbvBakedPrioSlot(0, false), MAX_QBV_SLOTS), 0), VLAN_PRIO_COUNT))
  const ZERO_TRACKER := BufferTracker(Repeat(0, HW_QUEUE_SIZE), 0, 0, 0)

  /** The TSN configuration of a device (`tsn_config`), updated in place. */
  class TsnConfig {
    var qbv: QbvConfig
    var qbvBaked: QbvBakedConfig
    var qav: seq<QavState>
    var bufferTracker: BufferTracker
    var queueAvailableAt: seq<u64>
    var totalAvailableAt: u64

    /** One shaper state per VLAN priority and at most `MAX_QBV_SLOTS` slots in the schedule. */
    ghost predicate Valid()
      reads this
    {
      |qav| == VLAN_PRIO_COUNT && |queueAvailableAt| == TSN_PRIO_COUNT &&
      |qbv.slots| == MAX_QBV_SLOTS && qbv.slotCount <= MAX_QBV_SLOTS
    }

    /** Every field zero, as after `memset(config, 0, sizeof(struct tsn_config))`. */
    ghost predicate IsZero()
      reads this
    {
      qbv == ZERO_QBV && qbvBaked == ZERO_BAKED && qav == Repeat(ZERO_QAV, VLAN_PRIO_COUNT) &&
      bufferTracker == ZERO_TRACKER && queueAvailableAt == Repeat(0, TSN_PRIO_COUNT) && totalAvailableAt == 0
    }

    constructor()
      ensures Valid() && IsZero()
    {
      qbv := ZERO_QBV;
      qbvBaked := ZERO_BAKED;
      qav := Repeat(ZERO_QAV, VLAN_PRIO_COUNT);
      bufferTracker := ZERO_TRACKER;
      queueAvailableAt := Repeat(0, TSN_PRIO_COUNT);
      totalAvailableAt := 0;
    }

    /**
     * `tsn_init_configs(config)`: clears the whole configuration, then sums
     * the durations of the schedule's slots into a cycle length that is not
     * kept (with no slot left after the clear, nothing is summed).
     */
    method TsnInitConfigs()
      modifies this
      ensures Valid() && IsZero()
    {
      qbv := ZERO_QBV;
      qbvBaked := ZERO_BAKED;
      qav := Repeat(ZERO_QAV, VLAN_PRIO_COUNT);
      bufferTracker := ZERO_TRACKER;
      queueAvailableAt := Repeat(0, TSN_PRIO_COUNT);
      totalAvailableAt := 0;
      var cycle := QbvCycle(qbv);
    }

    /**
     * `spend_qav_credit(config, at, prio, bytes)`: the shaper of priority
     * `prio` is brought to `QavSpend`; every other priority is unchanged.
     */
    method SpendQavCredit(at: u64, prio: nat, bytes: u64)
      requires Valid() && prio < VLAN_PRIO_COUNT
      requires EndsInDeficit(qav[prio], at, bytes) ==> qav[prio].idleSlope != 0
      modifies this
      ensures Valid()
      ensures qav == old(qav)[prio := QavSpend(old(qav[prio]), at, bytes)]
      ensures qbv == old(qbv) && qbvBaked == old(qbvBaked) && bufferTracker == old(bufferTracker)
      ensures queueAvailableAt == old(queueAvailableAt) && totalAvailableAt == old(totalAvailableAt)
    {
      var q := qav[prio];
      if q.enabled == false {
        return;
      }
      if at < q.lastUpdate || at < q.availableAt {
        return;
      }
      var elapsed := at - q.lastUpdate;
      var credit := q.credit + elapsed * q.idleSlope;
      if credit > q.hiCredit {
        credit := q.hiCredit;
      }
      var sendingDuration := BytesToNs(bytes);
      credit := credit + sendingDuration * q.sendSlope;
      if credit < q.loCredit {
        credit := q.loCredit;
      }
      var sendEnd := U64(at + sendingDuration);
      q := q.(credit := credit, lastUpdate := sendEnd);
      if q.credit < 0 {
        q := q.(availableAt := U64(sendEnd + -TruncDiv(q.credit, q.idleSlope)));
      } else {
        q := q.(availableAt := sendEnd);
      }
      qav := qav[prio := q];
    }
  }

  /** The summing loop of `tsn_init_configs`: the schedule's cycle, the sum of its slot durations in `uint64_t`. */
  method QbvCycle(qbv: QbvConfig) returns (cycle: u64)
    requires qbv.slotCount <= |qbv.slots|
    ensures cycle == U64(SlotSum(qbv.slots, qbv.slotCount))
  {
    cycle := 0;
    var i := 0;
    while i < qbv.slotCount
      invariant 0 <= i <= qbv.slotCount
      invariant cycle == U64(SlotSum(qbv.slots, i))
    {
      SlotSumStep(qbv.slots, i);
      cycle := U64(cycle + qbv.slots[i].durationNs);
      i := i + 1;
    }
  }

  /** The sum of the durations of the first `n` slots. */
  function SlotSum(slots: seq<QbvSlot>, n: nat): nat
    requires n <= |slots|
  {
    if n == 0 then 0 else SlotSum(slots, n - 1) + slots[n - 1].durationNs
  }

  /** Each slot lasts under 2^32 ns, so `n` slots sum to less than `n * 2^32`. */
  lemma {:induction false} SlotSumBound(slots: seq<QbvSlot>, n: nat)
    requires n <= |slots|
    ensures SlotSum(slots, n) <= n * (TWO_32 - 1)
  {
    if n > 0 {
      SlotSumBound(slots, n - 1);
    }
  }

  /** A schedule of at most `MAX_QBV_SLOTS` slots has a cycle that does not wrap. */
  lemma QbvCycleExact(qbv: QbvConfig)
    requires qbv.slotCount <= |qbv.slots| && qbv.slotCount <= MAX_QBV_SLOTS
    ensures U64(SlotSum(qbv.slots, qbv.slotCount)) == SlotSum(qbv.slots, qbv.slotCount)
  {
    SlotSumBound(qbv.slots, qbv.slotCount);
    MulMono(qbv.slotCount, MAX_QBV_SLOTS, TWO_32 - 1);
  }

  lemma SlotSumStep(slots: seq<QbvSlot>, n: nat)
    requires n < |slots|
    ensures U64(U64(SlotSum(slots, n)) + slots[n].durationNs) == U64(SlotSum(slots, n + 1))
  {
    ModAdd(SlotSum(slots, n), slots[n].durationNs);
  }

  /** Reducing before an addition does not change the sum modulo 2^64. */
  lemma ModAdd(s: nat, d: nat)
    ensures U64(U64(s) + d) == U64(s + d)
  {
    var q := s / TWO_64;
    var r := s % TWO_64;
    assert s + d == TWO_64 * q + (r + d);
    var q2 := (r + d) / TWO_64;
    var r2 := (r + d) % TWO_64;
    assert s + d == TWO_64 * (q + q2) + r2;
    DivModUnique(s + d, TWO_64, q + q2, r2);
  }
}

/**
 * The PTP hardware clock of the board: a 125 MHz system counter read from
 * BAR 0, turned into nanoseconds as `ticks_scale * count + offset`, with
 * the pulse-per-second output programmed for the next whole second.
 */
module AlinxPtp {
  import opened Common

  const NS_IN_1S: nat := 1_000_000_000
  /** `TICKS_SCALE`: nanoseconds per tick of the 125 MHz counter. */
  const TICKS_SCALE: nat := 8
  /** `RESERVED_CYCLE`: ticks per second. */
  const RESERVED_CYCLE: u32 := 125_000_000

  /** The clock registers of BAR 0. */
  class Bar0 {
    /** `NEXT_PULSE_AT_HI` (0x2c) and `NEXT_PULSE_AT_LO` (0x30): the counter value of the next pulse. */
    var nextPulseHi: u32
    var nextPulseLo: u32
    /** `CYCLE_1S` (0x34): ticks per pulse period. */
    var cycle1s: u32
    /** `SYS_CLOCK_HI` (0x380) and `SYS_CLOCK_LO` (0x384): the free-running counter, set by the hardware. */
    var sysClockHi: u32
    var sysClockLo: u32

    constructor(hi: u32, lo: u32)
      ensures sysClockHi == hi && sysClockLo == lo
    {
      nextPulseHi, nextPulseLo, cycle1s := 0, 0, 0;
      sysClockHi, sysClockLo := hi, lo;
    }

    /** The counter the registers show. */
    ghost function SysClock(): u64
      reads this
    {
      Join64(sysClockHi, sysClockLo)
    }

    /** The counter value the pulse is programmed for. */
    ghost function NextPulseAt(): u64
      reads this
    {
      Join64(nextPulseHi, nextPulseLo)
    }
  }

  /**
   * `alinx_get_timestamp(count, TICKS_SCALE, offset)`: the product is
   * converted to `u64` and the offset added with wrap-around. With a
   * counter below 2^53 the `double` product is exact.
   */
  function Timestamp(count: u64, offset: u64): (r: u64)
    ensures r == U64(TICKS_SCALE * count + offset)
  {
    U64AddMod(TICKS_SCALE * count, offset);
    U64(U64(TICKS_SCALE * count) + offset)
  }

  /** One more tick is eight nanoseconds later. */
  lemma TimestampTick(count: u64, offset: u64)
    requires count + 1 < TWO_64
    ensures Timestamp(count + 1, offset) == U64(Timestamp(count, offset) + TICKS_SCALE)
  {
    U64AddMod(TICKS_SCALE * count + offset, TICKS_SCALE);
  }

  /** The next whole second after `cur`: `cur - cur % 10^9 + 10^9` in `u64`. */
  function NextPulse(cur: u64): (r: u64)
    ensures cur + NS_IN_1S < TWO_64 ==> r % NS_IN_1S == 0 && cur < r <= cur + NS_IN_1S
  {
    var r := U64(cur - cur % NS_IN_1S + NS_IN_1S);
    assert cur + NS_IN_1S < TWO_64 ==> r == (cur / NS_IN_1S + 1) * NS_IN_1S;
    r
  }

  /** The counter value of the pulse at `next`: `(next - offset) / ticks_scale`, truncated. */
  function PulseCount(next: u64, offset: u64): u64
  {
    U64(next - offset) / TICKS_SCALE
  }

  /**
   * The programmed counter value is the last tick not after the pulse: its
   * timestamp is `next` less the remainder of `next - offset` modulo eight,
   * and exactly `next` when that remainder is zero.
   */
  lemma PulseCountTimestamp(next: u64, offset: u64)
    ensures Timestamp(PulseCount(next, offset), offset) == U64(next - U64(next - offset) % TICKS_SCALE)
    ensures U64(next - offset) % TICKS_SCALE == 0 ==> Timestamp(PulseCount(next, offset), offset) == next
  {
    var d := U64(next - offset);
    var c := d / TICKS_SCALE;
    var rem := d % TICKS_SCALE;
    assert TICKS_SCALE * c == d - rem;
    assert ((next - offset) - d) % TWO_64 == 0;
    NegMultiple(d - (next - offset));
    Congruent(TICKS_SCALE * c + offset, next - rem);
  }

  /** A multiple of 2^64 stays one when negated (stated on the difference used above). */
  lemma NegMultiple(x: int)
    requires (-x) % TWO_64 == 0
    ensures x % TWO_64 == 0
  {
    var q := (-x) / TWO_64;
    DivModUnique(x, TWO_64, -q, 0);
  }

  /** `tv_sec`, `tv_nsec` of a timestamp. */
  lemma SecNsecSplit(t: u64)
    ensures (t / NS_IN_1S) * NS_IN_1S + t % NS_IN_1S == t && 0 <= t % NS_IN_1S < NS_IN_1S
  {
  }

  /** `host_timestamp`: `(u64)tv_sec * 10^9 + tv_nsec`. */
  function HostTimestamp(sec: int, nsec: int): (r: u64)
    ensures 0 <= sec * NS_IN_1S + nsec < TWO_64 ==> r == sec * NS_IN_1S + nsec
  {
    U64(sec * NS_IN_1S + nsec)
  }

  /** The offset `settime` keeps, as written: the host time less a timestamp that already includes the old offset. */
  function SettimeOffsetAsWritten(host: u64, sysCount: u64, offset: u64): u64
  {
    U64(host as int - Timestamp(sysCount, offset))
  }

  /** As written, a clock with offset 5 set to 100 ns at count 0 reads 95 ns. */
  lemma SettimeAsWrittenMissesHostTime()
    ensures Timestamp(0, SettimeOffsetAsWritten(100, 0, 5)) == 95
  {
  }

  /** As written the offset is right only when the old one is zero, as on the first call from `ptp_device_init`. */
  lemma SettimeAsWrittenAtInit(host: u64, sysCount: u64)
    ensures Timestamp(sysCount, SettimeOffsetAsWritten(host, sysCount, 0)) == host
  {
    var hw := Timestamp(sysCount, 0);
    U64AddMod(host - hw, TICKS_SCALE * sysCount);
    assert (hw - TICKS_SCALE * sysCount) % TWO_64 == 0;
    Congruent(host - hw + TICKS_SCALE * sysCount, host);
  }

  /** The offset as intended: moved by the difference between host time and clock time. */
  function SettimeOffset(host: u64, sysCount: u64, offset: u64): (r: u64)
    ensures Timestamp(sysCount, r) == host
  {
    var hw := Timestamp(sysCount, offset);
    SettimeOffsetExact(host, sysCount, offset);
    U64(offset + (host as int - hw))
  }

  lemma SettimeOffsetExact(host: u64, sysCount: u64, offset: u64)
    ensures Timestamp(sysCount, U64(offset + (host as int - Timestamp(sysCount, offset)))) == host
  {
    var hw := Timestamp(sysCount, offset);
    var o := offset + (host - hw);
    U64AddMod(o, TICKS_SCALE * sysCount);
    assert (o + TICKS_SCALE * sysCount) - host == (TICKS_SCALE * sysCount + offset) - hw;
    Congruent(o + TICKS_SCALE * sysCount, host);
  }

  /** Moving the offset by `delta` moves every timestamp by `delta`. */
  lemma AdjtimeShifts(count: u64, offset: u64, delta: int)
    ensures Timestamp(count, U64(offset + delta)) == U64(Timestamp(count, offset) + delta)
  {
    U64AddMod(offset + delta, TICKS_SCALE * count);
    U64AddMod(TICKS_SCALE * count + offset, delta);
  }

  /** The driver data of the clock (`ptp_device_data`). */
  class PtpDevice {
    const bar: Bar0
    /** `ticks_scale`: 8 after initialisation; only a nonzero fine adjustment changes it. */
    var ticksScale: nat
    var offset: u64

    constructor(bar: Bar0)
      ensures this.bar == bar && ticksScale == TICKS_SCALE && offset == 0
    {
      this.bar := bar;
      ticksScale := TICKS_SCALE;
      offset := 0;
    }

    /** `set_pps_pulse_at(xdev, time)`: the high word (`time >> 32`), then the low word (`time & 0xffffffff`), of the pulse's counter value. */
    method SetPpsPulseAt(time: u64)
      modifies bar
      ensures bar.nextPulseHi == Hi32(time) && bar.nextPulseLo == Lo32(time)
      ensures bar.NextPulseAt() == time
      ensures bar.cycle1s == old(bar.cycle1s) && bar.sysClockHi == old(bar.sysClockHi) && bar.sysClockLo == old(bar.sysClockLo)
    {
      bar.nextPulseHi := time / TWO_32;
      bar.nextPulseLo := time % TWO_32;
      SplitJoin(time, 0, 0);
    }

    /** `get_sys_clock(xdev)`: `((u64)hi << 32) | lo`. */
    method GetSysClock() returns (clock: u64)
      ensures clock == bar.SysClock()
      ensures Hi32(clock) == bar.sysClockHi && Lo32(clock) == bar.sysClockLo
    {
      MulMono(bar.sysClockHi, TWO_32 - 1, TWO_32);
      clock := bar.sysClockHi * TWO_32 + bar.sysClockLo;
      SplitJoin(0, bar.sysClockHi, bar.sysClockLo);
    }

    /** `set_pulse_at(ptp_data, sys_count)`: the pulse at the next whole second after the count's timestamp. */
    method SetPulseAt(sysCount: u64)
      requires ticksScale == TICKS_SCALE
      modifies bar
      ensures bar.NextPulseAt() == PulseCount(NextPulse(Timestamp(sysCount, offset)), offset)
      ensures bar.cycle1s == old(bar.cycle1s) && bar.sysClockHi == old(bar.sysClockHi) && bar.sysClockLo == old(bar.sysClockLo)
    {
      var currentNs := Timestamp(sysCount, offset);
      var nextPulseNs := U64(currentNs - currentNs % NS_IN_1S + NS_IN_1S);
      var nextPulseSysclock := U64(nextPulseNs - offset) / ticksScale;
      SetPpsPulseAt(nextPulseSysclock);
    }

    /** `gettimex`: the clock's time as seconds and nanoseconds. */
    method Gettimex() returns (sec: nat, nsec: nat)
      requires ticksScale == TICKS_SCALE
      ensures sec * NS_IN_1S + nsec == Timestamp(bar.SysClock(), offset)
      ensures nsec < NS_IN_1S
    {
      var clock := GetSysClock();
      var timestamp := Timestamp(clock, offset);
      sec := timestamp / NS_IN_1S;
      nsec := timestamp % NS_IN_1S;
    }

    /**
     * `settime(ts)` with the offset corrected: ticks_scale back to 8, the
     * offset chosen so that the clock reads the host time at the sampled
     * count, one pulse per 125 000 000 ticks, and the next pulse programmed.
     */
    method Settime(sec: int, nsec: int)
      modifies this, bar
      ensures ticksScale == TICKS_SCALE
      ensures offset == SettimeOffset(HostTimestamp(sec, nsec), old(bar.SysClock()), old(offset))
      ensures Timestamp(bar.SysClock(), offset) == HostTimestamp(sec, nsec)
      ensures bar.cycle1s == RESERVED_CYCLE
      ensures bar.NextPulseAt() == PulseCount(NextPulse(HostTimestamp(sec, nsec)), offset)
      ensures bar.sysClockHi == old(bar.sysClockHi) && bar.sysClockLo == old(bar.sysClockLo)
    {
      var host := HostTimestamp(sec, nsec);
      ticksScale := TICKS_SCALE;
      var sysClock := GetSysClock();
      var hw := Timestamp(sysClock, offset);
      offset := U64(offset + (host as int - hw));
      assert offset == SettimeOffset(host, sysClock, old(offset));
      bar.cycle1s := RESERVED_CYCLE;
      SetPulseAt(sysClock);
    }

    /** `adjtime(delta)`: the offset moves by `delta` and the next pulse is reprogrammed. */
    method Adjtime(delta: int)
      requires -0x8000_0000_0000_0000 <= delta < 0x8000_0000_0000_0000
      requires ticksScale == TICKS_SCALE
      modifies this, bar
      ensures ticksScale == TICKS_SCALE && offset == U64(old(offset) + delta)
      ensures forall count: u64 :: Timestamp(count, offset) == U64(Timestamp(count, old(offset)) + delta)
      ensures bar.NextPulseAt() == PulseCount(NextPulse(Timestamp(bar.SysClock(), offset)), offset)
      ensures bar.cycle1s == old(bar.cycle1s) && bar.sysClockHi == old(bar.sysClockHi) && bar.sysClockLo == old(bar.sysClockLo)
    {
      offset := U64(offset + delta);
      forall count: u64
        ensures Timestamp(count, offset) == U64(Timestamp(count, old(offset)) + delta)
      {
        AdjtimeShifts(count, old(offset), delta);
      }
      var sysClock := GetSysClock();
      SetPulseAt(sysClock);
    }

    /** `adjfine(scaled_ppm)` for a zero adjustment: the counter is read and nothing else happens. */
    method AdjfineZero(scaledPpm: int) returns (rc: int)
      requires scaledPpm == 0
      ensures rc == 0
    {
      var sysClock := GetSysClock();
      rc := 0;
    }
  }

  /**
   * `ptp_device_init(dev, xdev)`: a zeroed device with ticks_scale 8,
   * registered with the PTP core (`registerOk`), then set to the host's
   * wall-clock time; no device when allocation or registration fails.
   */
  method PtpDeviceInit(bar: Bar0, allocOk: bool, registerOk: bool, sec: int, nsec: int) returns (p: PtpDevice?)
    modifies bar
    ensures !(allocOk && registerOk) ==> p == null
    ensures allocOk && registerOk ==>
              p != null && fresh(p) && p.bar == bar && p.ticksScale == TICKS_SCALE
              && Timestamp(bar.SysClock(), p.offset) == HostTimestamp(sec, nsec)
              && bar.cycle1s == RESERVED_CYCLE
  {
    if !allocOk {
      return null;
    }
    var d := new PtpDevice(bar);
    if !registerOk {
      return null;
    }
    d.Settime(sec, nsec);
    p := d;
  }
}

/** The threshold-timer driver of the firmware (sw/hello_world/timer.c):
    start with a prescaler and threshold, stop, read the counter and the
    clear-on-read STATUS, switch the interrupt on and off by a
    read-modify-write of CTRL, and wait for a number of threshold
    periods by polling STATUS. */
module Timer {
  import opened TimerHw

  /** timer_t: only the base address of the register block. */
  class TimerDev {
    var base: TimerPort?

    /** Storage for a handle, not yet bound. */
    constructor ()
      ensures base == null
    {
      base := null;
    }
  }

  /** timer_init: binds the handle to a register block without a register
      access (the block is not in the frame). */
  method Init(dev: TimerDev, port: TimerPort)
    modifies dev
    ensures dev.base == port
  {
    dev.base := port;
  }

  /** reg_read: the word at byte offset `offset` of the block. */
  method RegRead(dev: TimerDev, offset: bv32) returns (v: bv32)
    requires dev.base != null && IsRegOffset(offset)
    modifies dev.base
    ensures (v, dev.base.hw) == LoadStep(old(dev.base.hw), RegAt(offset))
  {
    v := dev.base.Load(RegAt(offset));
  }

  /** reg_write: stores `val` to the word at byte offset `offset`. */
  method RegWrite(dev: TimerDev, offset: bv32, val: bv32)
    requires dev.base != null && IsRegOffset(offset)
    modifies dev.base
    ensures dev.base.hw == StoreStep(old(dev.base.hw), RegAt(offset), val)
  {
    dev.base.Store(RegAt(offset), val);
  }

  // ---------------------------------------------------------------------
  // Start and stop
  // ---------------------------------------------------------------------

  /** The CTRL value timer_start releases the timer with: RESET clear, and
      IE exactly when the interrupt was asked for. */
  function RunCtrl(enableIrq: int): (c: bv32)
    ensures c & TIMER_CTRL_RESET == 0
    ensures c & TIMER_CTRL_IE != 0 <==> enableIrq != 0
    ensures c & !(TIMER_CTRL_RESET | TIMER_CTRL_IE) == 0
  {
    if enableIrq != 0 then TIMER_CTRL_IE else 0
  }

  /** timer_start's register sequence: CTRL = RESET, PRESCALER, THRESHOLD,
      one STATUS read to drop a stale threshold, then CTRL = RunCtrl. */
  function StartSpec(hw: Hw, prescaler: bv32, threshold: bv32, enableIrq: int): Hw
  {
    var h1 := StoreStep(hw, Ctrl, TIMER_CTRL_RESET);
    var h2 := StoreStep(h1, PrescalerValue, prescaler);
    var h3 := StoreStep(h2, ThresholdValue, threshold);
    var h4 := LoadStep(h3, Status).1;
    StoreStep(h4, Ctrl, RunCtrl(enableIrq))
  }

  /** After timer_start the timer runs with the given prescaler and
      threshold, its interrupt enabled exactly when asked for; the
      prescaler and threshold were written while the timer was held in
      reset, and the one STATUS read took the stale threshold status
      (if any) off the schedule.  No counter read happens. */
  lemma StartOutcome(hw: Hw, prescaler: bv32, threshold: bv32, enableIrq: int)
    ensures var h := StartSpec(hw, prescaler, threshold, enableIrq);
      && h.prescaler == prescaler && h.threshold == threshold
      && h.ctrl & TIMER_CTRL_RESET == 0
      && (h.ctrl & TIMER_CTRL_IE != 0 <==> enableIrq != 0)
      && h.log == hw.log + [Write(Ctrl, TIMER_CTRL_RESET), Write(PrescalerValue, prescaler),
                            Write(ThresholdValue, threshold), Read(Status, NextStatus(hw)),
                            Write(Ctrl, h.ctrl)]
      && h.statusFeed == (if hw.statusFeed == [] then [] else hw.statusFeed[1..])
      && h.counterFeed == hw.counterFeed
  {
    var h1 := StoreStep(hw, Ctrl, TIMER_CTRL_RESET);
    var h2 := StoreStep(h1, PrescalerValue, prescaler);
    var h3 := StoreStep(h2, ThresholdValue, threshold);
    assert NextStatus(h3) == NextStatus(hw);
  }

  method Start(dev: TimerDev, prescaler: bv32, threshold: bv32, enableIrq: int)
    requires dev.base != null
    modifies dev.base
    ensures dev.base.hw == StartSpec(old(dev.base.hw), prescaler, threshold, enableIrq)
  {
    RegWrite(dev, TIMER_REG_CTRL, TIMER_CTRL_RESET);
    RegWrite(dev, TIMER_REG_PRESCALER_VALUE, prescaler);
    RegWrite(dev, TIMER_REG_THRESHOLD_VALUE, threshold);
    var _ := RegRead(dev, TIMER_REG_STATUS);
    var ctrl: bv32 := 0;
    if enableIrq != 0 {
      ctrl := ctrl | TIMER_CTRL_IE;
    }
    RegWrite(dev, TIMER_REG_CTRL, ctrl);
  }

  /** timer_stop: CTRL = RESET, which also clears IE. */
  method Stop(dev: TimerDev)
    requires dev.base != null
    modifies dev.base
    ensures dev.base.hw == StoreStep(old(dev.base.hw), Ctrl, TIMER_CTRL_RESET)
  {
    RegWrite(dev, TIMER_REG_CTRL, TIMER_CTRL_RESET);
  }

  /** A stopped timer has its interrupt off, and its counter reads 0. */
  lemma StopHoldsCounter(hw: Hw)
    ensures var h := StoreStep(hw, Ctrl, TIMER_CTRL_RESET);
      && h.ctrl & TIMER_CTRL_IE == 0
      && LoadStep(h, CounterValue).0 == 0
  {
  }

  method GetCounter(dev: TimerDev) returns (v: bv32)
    requires dev.base != null
    modifies dev.base
    ensures (v, dev.base.hw) == LoadStep(old(dev.base.hw), CounterValue)
  {
    v := RegRead(dev, TIMER_REG_COUNTER_VALUE);
  }

  method GetStatus(dev: TimerDev) returns (v: bv32)
    requires dev.base != null
    modifies dev.base
    ensures (v, dev.base.hw) == LoadStep(old(dev.base.hw), Status)
  {
    v := RegRead(dev, TIMER_REG_STATUS);
  }

  /** timer_threshold_reached: 1 exactly when the one STATUS read shows the
      threshold bit. */
  method ThresholdReached(dev: TimerDev) returns (r: int)
    requires dev.base != null
    modifies dev.base
    ensures dev.base.hw == LoadStep(old(dev.base.hw), Status).1
    ensures r == (if NextStatus(old(dev.base.hw)) & TIMER_STATUS_THRESHOLD != 0 then 1 else 0)
  {
    var v := RegRead(dev, TIMER_REG_STATUS);
    r := if v & TIMER_STATUS_THRESHOLD != 0 then 1 else 0;
  }

  // ---------------------------------------------------------------------
  // Interrupt enable
  // ---------------------------------------------------------------------

  /** The CTRL value timer_enable_irq writes back: IE set, every other bit
      as read. */
  function WithIrq(ctrl: bv32): (c: bv32)
    ensures c & TIMER_CTRL_IE != 0
    ensures c & !TIMER_CTRL_IE == ctrl & !TIMER_CTRL_IE
  {
    ctrl | TIMER_CTRL_IE
  }

  /** The CTRL value timer_disable_irq writes back: IE clear, every other
      bit as read. */
  function WithoutIrq(ctrl: bv32): (c: bv32)
    ensures c & TIMER_CTRL_IE == 0
    ensures c & !TIMER_CTRL_IE == ctrl & !TIMER_CTRL_IE
  {
    ctrl & !TIMER_CTRL_IE
  }

  /** Enabling or disabling twice is the same as once. */
  lemma IrqSwitchesAreIdempotent(ctrl: bv32)
    ensures WithIrq(WithIrq(ctrl)) == WithIrq(ctrl)
    ensures WithoutIrq(WithoutIrq(ctrl)) == WithoutIrq(ctrl)
  {
    assert (ctrl | TIMER_CTRL_IE) | TIMER_CTRL_IE == ctrl | TIMER_CTRL_IE;
    assert (ctrl & !TIMER_CTRL_IE) & !TIMER_CTRL_IE == ctrl & !TIMER_CTRL_IE;
  }

  /** Enabling after disabling is the same as enabling alone. */
  lemma EnableOverridesDisable(ctrl: bv32)
    ensures WithIrq(WithoutIrq(ctrl)) == WithIrq(ctrl)
  {
    SameOutsideIe(WithoutIrq(ctrl), ctrl);
  }

  /** Disabling after enabling is the same as disabling alone. */
  lemma DisableOverridesEnable(ctrl: bv32)
    ensures WithoutIrq(WithIrq(ctrl)) == WithoutIrq(ctrl)
  {
    ClearAfterSet(ctrl);
  }

  /** Two CTRL values that agree outside IE agree once IE is set. */
  lemma SameOutsideIe(a: bv32, b: bv32)
    requires a & !TIMER_CTRL_IE == b & !TIMER_CTRL_IE
    ensures a | TIMER_CTRL_IE == b | TIMER_CTRL_IE
  {
  }

  lemma ClearAfterSet(ctrl: bv32)
    ensures (ctrl | TIMER_CTRL_IE) & !TIMER_CTRL_IE == ctrl & !TIMER_CTRL_IE
  {
  }

  method EnableIrq(dev: TimerDev)
    requires dev.base != null
    modifies dev.base
    ensures var h := LoadStep(old(dev.base.hw), Ctrl).1;
      dev.base.hw == StoreStep(h, Ctrl, WithIrq(old(dev.base.hw.ctrl)))
  {
    var ctrl := RegRead(dev, TIMER_REG_CTRL);
    ctrl := ctrl | TIMER_CTRL_IE;
    RegWrite(dev, TIMER_REG_CTRL, ctrl);
  }

  method DisableIrq(dev: TimerDev)
    requires dev.base != null
    modifies dev.base
    ensures var h := LoadStep(old(dev.base.hw), Ctrl).1;
      dev.base.hw == StoreStep(h, Ctrl, WithoutIrq(old(dev.base.hw.ctrl)))
  {
    var ctrl := RegRead(dev, TIMER_REG_CTRL);
    ctrl := ctrl & !TIMER_CTRL_IE;
    RegWrite(dev, TIMER_REG_CTRL, ctrl);
  }

  // ---------------------------------------------------------------------
  // Delay
  // ---------------------------------------------------------------------

  predicate IsHit(v: bv32)
  {
    v & TIMER_STATUS_THRESHOLD != 0
  }

  /** The number of STATUS values in `s` that show the threshold bit. */
  function Hits(s: seq<bv32>): (n: nat)
    ensures n <= |s|
  {
    if s == [] then 0 else (if IsHit(s[0]) then 1 else 0) + Hits(s[1..])
  }

  /** The STATUS schedule shows the threshold bit at least `n` times, so a
      wait for `n` periods ends. */
  predicate HasHits(feed: seq<bv32>, n: nat)
    decreases |feed|
  {
    n == 0 || (feed != [] && HasHits(feed[1..], if IsHit(feed[0]) then n - 1 else n))
  }

  /** timer_delay_periods: read STATUS until `n` reads have shown the
      threshold bit. */
  function Delay(hw: Hw, n: nat): Hw
    requires HasHits(hw.statusFeed, n)
    decreases |hw.statusFeed|
  {
    if n == 0 then hw
    else
      var r := LoadStep(hw, Status);
      Delay(r.1, if IsHit(r.0) then n - 1 else n)
  }

  /** The STATUS reads that return the values `vs`, in order. */
  function StatusReads(vs: seq<bv32>): (s: seq<Access>)
    ensures |s| == |vs|
  {
    if vs == [] then [] else [Read(Status, vs[0])] + StatusReads(vs[1..])
  }

  /** What a wait for `n` periods is promised to do from `hw`, given the
      device `h` it left: it made STATUS reads and nothing else, using up
      the first `k` scheduled values; exactly `n` of them showed the
      threshold bit, the last one among them; with `n == 0` it made no
      access at all. */
  predicate Delayed(hw: Hw, n: nat, h: Hw)
  {
    var k := |hw.statusFeed| - |h.statusFeed|;
    && 0 <= k
    && h.statusFeed == hw.statusFeed[k..]
    && h.log == hw.log + StatusReads(hw.statusFeed[..k])
    && Hits(hw.statusFeed[..k]) == n
    && (n > 0 ==> k > 0 && IsHit(hw.statusFeed[k - 1]))
    && (n == 0 ==> h == hw)
    && h.ctrl == hw.ctrl && h.prescaler == hw.prescaler && h.threshold == hw.threshold
    && h.counterFeed == hw.counterFeed
  }

  lemma {:induction false} DelayOutcome(hw: Hw, n: nat)
    requires HasHits(hw.statusFeed, n)
    ensures Delayed(hw, n, Delay(hw, n))
    decreases |hw.statusFeed|
  {
    if n > 0 {
      var r := LoadStep(hw, Status);
      var m := if IsHit(r.0) then n - 1 else n;
      DelayOutcome(r.1, m);
      DelayedAfterRead(hw, r.1, n, m, Delay(r.1, m));
    }
  }

  /** One STATUS read followed by the rest of the wait is the wait. */
  lemma DelayedAfterRead(hw: Hw, h1: Hw, n: nat, m: nat, h: Hw)
    requires n > 0 && hw.statusFeed != []
    requires h1 == hw.(statusFeed := hw.statusFeed[1..], log := hw.log + [Read(Status, hw.statusFeed[0])])
    requires m == if IsHit(hw.statusFeed[0]) then n - 1 else n
    requires Delayed(h1, m, h)
    ensures Delayed(hw, n, h)
  {
    var f := hw.statusFeed;
    var k1 := |h1.statusFeed| - |h.statusFeed|;
    var k := k1 + 1;
    assert f[k..] == f[1..][k1..];
    assert f[..k] == [f[0]] + f[1..][..k1];
    assert f[..k][1..] == f[1..][..k1];
    assert StatusReads(f[..k]) == [Read(Status, f[0])] + StatusReads(f[1..][..k1]);
    assert Hits(f[..k]) == (if IsHit(f[0]) then 1 else 0) + Hits(f[1..][..k1]);
    if m > 0 {
      assert f[k - 1] == f[1..][k1 - 1];
    }
  }

  method DelayPeriods(dev: TimerDev, periods: bv32)
    requires dev.base != null && HasHits(dev.base.hw.statusFeed, periods as nat)
    modifies dev.base
    ensures dev.base.hw == Delay(old(dev.base.hw), periods as nat)
  {
    ghost var hw0 := dev.base.hw;
    var n: nat := periods as nat;
    for i := 0 to n
      invariant HasHits(dev.base.hw.statusFeed, n - i)
      invariant Delay(dev.base.hw, n - i) == Delay(hw0, n)
    {
      WaitOnePeriod(dev, n - i);
    }
  }

  /** The inner loop of timer_delay_periods: read STATUS until it shows
      the threshold bit, `left` periods still to go. */
  method WaitOnePeriod(dev: TimerDev, left: nat)
    requires dev.base != null && left > 0 && HasHits(dev.base.hw.statusFeed, left)
    modifies dev.base
    ensures HasHits(dev.base.hw.statusFeed, left - 1)
    ensures Delay(dev.base.hw, left - 1) == Delay(old(dev.base.hw), left)
  {
    ghost var hw0 := dev.base.hw;
    while true
      invariant HasHits(dev.base.hw.statusFeed, left)
      invariant Delay(dev.base.hw, left) == Delay(hw0, left)
      decreases |dev.base.hw.statusFeed|
    {
      var status := RegRead(dev, TIMER_REG_STATUS);
      if status & TIMER_STATUS_THRESHOLD != 0 {
        break;
      }
    }
  }
}

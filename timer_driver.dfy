/** The struct-based driver for the same threshold timer
    (sw/hello_world/timer_driver.c): the register block is addressed
    through a `Timer_RegMap` pointer whose fields are the five registers,
    and every CTRL change is a compound assignment, that is a
    read-modify-write of one bit. */
module TimerDriver {
  import opened TimerHw

  /** STATUS bit 0: the threshold was reached. */
  const TIMER_STATUS_THRESHOLD_MASK: bv32 := 1 << 0
  /** CTRL bit 1: interrupt enable. */
  const TIMER_CTRL_IE_MASK: bv32 := 1 << 1
  /** CTRL bit 0: reset, active high. */
  const TIMER_CTRL_RESET_MASK: bv32 := 1 << 0

  /** The driver's masks are the device's bits. */
  lemma MasksMatchDevice()
    ensures TIMER_STATUS_THRESHOLD_MASK == TIMER_STATUS_THRESHOLD
    ensures TIMER_CTRL_IE_MASK == TIMER_CTRL_IE
    ensures TIMER_CTRL_RESET_MASK == TIMER_CTRL_RESET
  {
  }

  // ---------------------------------------------------------------------
  // CTRL bit updates
  // ---------------------------------------------------------------------

  /** `ctrl |= TIMER_CTRL_RESET_MASK`: RESET set, every other bit kept. */
  function WithReset(ctrl: bv32): (c: bv32)
    ensures c & TIMER_CTRL_RESET_MASK != 0
    ensures c & !TIMER_CTRL_RESET_MASK == ctrl & !TIMER_CTRL_RESET_MASK
  {
    ctrl | TIMER_CTRL_RESET_MASK
  }

  /** `ctrl &= ~TIMER_CTRL_RESET_MASK`: RESET clear, every other bit kept. */
  function WithoutReset(ctrl: bv32): (c: bv32)
    ensures c & TIMER_CTRL_RESET_MASK == 0
    ensures c & !TIMER_CTRL_RESET_MASK == ctrl & !TIMER_CTRL_RESET_MASK
  {
    ctrl & !TIMER_CTRL_RESET_MASK
  }

  /** The CTRL value Timer_EnableInterrupt writes back: IE set exactly when
      `enable`, every other bit as read. */
  function IrqCtrl(ctrl: bv32, enable: bool): bv32
  {
    if enable then WithIe(ctrl) else WithoutIe(ctrl)
  }

  /** `ctrl |= TIMER_CTRL_IE_MASK`. */
  function WithIe(ctrl: bv32): bv32
  {
    ctrl | TIMER_CTRL_IE_MASK
  }

  /** `ctrl &= ~TIMER_CTRL_IE_MASK`. */
  function WithoutIe(ctrl: bv32): bv32
  {
    ctrl & !TIMER_CTRL_IE_MASK
  }

  /** IrqCtrl sets IE exactly when `enable` and keeps every other bit. */
  lemma IrqCtrlBits(ctrl: bv32, enable: bool)
    ensures IrqCtrl(ctrl, enable) & TIMER_CTRL_IE_MASK != 0 <==> enable
    ensures IrqCtrl(ctrl, enable) & !TIMER_CTRL_IE_MASK == ctrl & !TIMER_CTRL_IE_MASK
  {
  }

  /** Two CTRL values that agree outside RESET agree once RESET is set. */
  lemma SameOutsideReset(a: bv32, b: bv32)
    requires a & !TIMER_CTRL_RESET_MASK == b & !TIMER_CTRL_RESET_MASK
    ensures a | TIMER_CTRL_RESET_MASK == b | TIMER_CTRL_RESET_MASK
  {
  }

  /** Timer_Stop after Timer_Start puts CTRL back into reset with every
      other bit, the interrupt enable among them, as before the start. */
  lemma StopAfterStart(ctrl: bv32)
    ensures WithReset(WithoutReset(ctrl)) == WithReset(ctrl)
  {
    SameOutsideReset(WithoutReset(ctrl), ctrl);
  }

  /** Timer_Start after Timer_Stop releases reset with every other bit as
      before the stop. */
  lemma StartAfterStop(ctrl: bv32)
    ensures WithoutReset(WithReset(ctrl)) == WithoutReset(ctrl)
  {
  }

  /** Starting and stopping leave the interrupt enable as it was. */
  lemma RunSwitchKeepsIrq(ctrl: bv32)
    ensures WithReset(ctrl) & TIMER_CTRL_IE_MASK == ctrl & TIMER_CTRL_IE_MASK
    ensures WithoutReset(ctrl) & TIMER_CTRL_IE_MASK == ctrl & TIMER_CTRL_IE_MASK
  {
    KeptOutsideReset(WithReset(ctrl), ctrl);
    KeptOutsideReset(WithoutReset(ctrl), ctrl);
  }

  /** Agreement outside RESET means agreement on IE. */
  lemma KeptOutsideReset(a: bv32, b: bv32)
    requires a & !TIMER_CTRL_RESET_MASK == b & !TIMER_CTRL_RESET_MASK
    ensures a & TIMER_CTRL_IE_MASK == b & TIMER_CTRL_IE_MASK
  {
  }

  /** The interrupt switch leaves RESET as it was. */
  lemma IrqSwitchKeepsReset(ctrl: bv32, enable: bool)
    ensures IrqCtrl(ctrl, enable) & TIMER_CTRL_RESET_MASK == ctrl & TIMER_CTRL_RESET_MASK
  {
    IrqCtrlBits(ctrl, enable);
    KeptOutsideIe(IrqCtrl(ctrl, enable), ctrl);
  }

  /** Agreement outside IE means agreement on RESET. */
  lemma KeptOutsideIe(a: bv32, b: bv32)
    requires a & !TIMER_CTRL_IE_MASK == b & !TIMER_CTRL_IE_MASK
    ensures a & TIMER_CTRL_RESET_MASK == b & TIMER_CTRL_RESET_MASK
  {
  }

  // ---------------------------------------------------------------------
  // Initialisation
  // ---------------------------------------------------------------------

  /** Timer_Init's two compound assignments, each a CTRL load and store:
      first RESET is set, then IE is cleared. */
  function InitSpec(hw: Hw): Hw
  {
    var r1 := LoadStep(hw, Ctrl);
    var h1 := StoreStep(r1.1, Ctrl, WithReset(r1.0));
    var r2 := LoadStep(h1, Ctrl);
    StoreStep(r2.1, Ctrl, IrqCtrl(r2.0, false))
  }

  /** Timer_Init's accesses are exactly two read-modify-writes of CTRL;
      prescaler, threshold and both schedules are untouched. */
  lemma InitOutcome(hw: Hw)
    ensures var h := InitSpec(hw);
      && h.ctrl == IrqCtrl(WithReset(hw.ctrl), false)
      && h.prescaler == hw.prescaler && h.threshold == hw.threshold
      && h.statusFeed == hw.statusFeed && h.counterFeed == hw.counterFeed
      && h.log == hw.log + [Read(Ctrl, hw.ctrl), Write(Ctrl, WithReset(hw.ctrl)),
                            Read(Ctrl, WithReset(hw.ctrl)), Write(Ctrl, h.ctrl)]
  {
  }

  /** After Timer_Init the timer is held in reset. */
  lemma InitHoldsReset(ctrl: bv32)
    ensures IrqCtrl(WithReset(ctrl), false) & TIMER_CTRL_RESET_MASK != 0
  {
    IrqSwitchKeepsReset(WithReset(ctrl), false);
  }

  /** After Timer_Init the timer's interrupt is off. */
  lemma InitMasksIrq(ctrl: bv32)
    ensures IrqCtrl(WithReset(ctrl), false) & TIMER_CTRL_IE_MASK == 0
  {
    IrqCtrlBits(WithReset(ctrl), false);
  }

  /** Timer_Init leaves every CTRL bit other than RESET and IE as it was. */
  lemma InitKeepsOtherBits(ctrl: bv32)
    ensures IrqCtrl(WithReset(ctrl), false) & !(TIMER_CTRL_RESET_MASK | TIMER_CTRL_IE_MASK)
            == ctrl & !(TIMER_CTRL_RESET_MASK | TIMER_CTRL_IE_MASK)
  {
    var c1 := WithReset(ctrl);
    IrqCtrlBits(c1, false);
    InitBits(ctrl, c1, IrqCtrl(c1, false));
  }

  /** The bit arithmetic of Timer_Init, on plain values. */
  lemma InitBits(c0: bv32, c1: bv32, c2: bv32)
    requires c1 & !TIMER_CTRL_RESET_MASK == c0 & !TIMER_CTRL_RESET_MASK
    requires c2 & !TIMER_CTRL_IE_MASK == c1 & !TIMER_CTRL_IE_MASK
    ensures c2 & !(TIMER_CTRL_RESET_MASK | TIMER_CTRL_IE_MASK)
            == c0 & !(TIMER_CTRL_RESET_MASK | TIMER_CTRL_IE_MASK)
  {
  }

  /** Timer_Init: the register block at the base address, left in reset
      with its interrupt disabled. */
  method Init(base: TimerPort) returns (timer: TimerPort)
    modifies base
    ensures timer == base
    ensures base.hw == InitSpec(old(base.hw))
  {
    timer := base;
    var ctrl := timer.Load(Ctrl);
    timer.Store(Ctrl, WithReset(ctrl));
    ctrl := timer.Load(Ctrl);
    timer.Store(Ctrl, WithoutIe(ctrl));
  }

  // ---------------------------------------------------------------------
  // Prescaler and threshold
  // ---------------------------------------------------------------------

  method SetPrescaler(timer: TimerPort, prescaler: bv32)
    modifies timer
    ensures timer.hw == StoreStep(old(timer.hw), PrescalerValue, prescaler)
  {
    timer.Store(PrescalerValue, prescaler);
  }

  method SetThreshold(timer: TimerPort, threshold: bv32)
    modifies timer
    ensures timer.hw == StoreStep(old(timer.hw), ThresholdValue, threshold)
  {
    timer.Store(ThresholdValue, threshold);
  }

  method GetPrescaler(timer: TimerPort) returns (v: bv32)
    modifies timer
    ensures (v, timer.hw) == LoadStep(old(timer.hw), PrescalerValue)
  {
    v := timer.Load(PrescalerValue);
  }

  method GetThreshold(timer: TimerPort) returns (v: bv32)
    modifies timer
    ensures (v, timer.hw) == LoadStep(old(timer.hw), ThresholdValue)
  {
    v := timer.Load(ThresholdValue);
  }

  /** Setting the prescaler and then the threshold leaves both readable
      in either order, and leaves CTRL and the STATUS schedule alone. */
  lemma ConfigRoundTrip(hw: Hw, prescaler: bv32, threshold: bv32)
    ensures var h := StoreStep(StoreStep(hw, PrescalerValue, prescaler), ThresholdValue, threshold);
      && LoadStep(h, PrescalerValue).0 == prescaler
      && LoadStep(LoadStep(h, PrescalerValue).1, ThresholdValue).0 == threshold
      && LoadStep(h, ThresholdValue).0 == threshold
      && LoadStep(LoadStep(h, ThresholdValue).1, PrescalerValue).0 == prescaler
      && h.ctrl == hw.ctrl && h.statusFeed == hw.statusFeed
  {
  }

  // ---------------------------------------------------------------------
  // Interrupt, start and stop
  // ---------------------------------------------------------------------

  method EnableInterrupt(timer: TimerPort, enable: bool)
    modifies timer
    ensures var r := LoadStep(old(timer.hw), Ctrl);
      timer.hw == StoreStep(r.1, Ctrl, IrqCtrl(r.0, enable))
  {
    var ctrl := timer.Load(Ctrl);
    if enable {
      ctrl := WithIe(ctrl);
    } else {
      ctrl := WithoutIe(ctrl);
    }
    timer.Store(Ctrl, ctrl);
  }

  /** Timer_Start: releases RESET, keeping the other CTRL bits. */
  method Start(timer: TimerPort)
    modifies timer
    ensures var r := LoadStep(old(timer.hw), Ctrl);
      timer.hw == StoreStep(r.1, Ctrl, WithoutReset(r.0))
  {
    var ctrl := timer.Load(Ctrl);
    ctrl := WithoutReset(ctrl);
    timer.Store(Ctrl, ctrl);
  }

  /** Timer_Stop: asserts RESET, keeping the other CTRL bits. */
  method Stop(timer: TimerPort)
    modifies timer
    ensures var r := LoadStep(old(timer.hw), Ctrl);
      timer.hw == StoreStep(r.1, Ctrl, WithReset(r.0))
  {
    var ctrl := timer.Load(Ctrl);
    ctrl := WithReset(ctrl);
    timer.Store(Ctrl, ctrl);
  }

  /** A stopped timer's counter reads 0, whatever its schedule. */
  lemma StoppedCounterReadsZero(hw: Hw)
    ensures var r := LoadStep(hw, Ctrl);
      LoadStep(StoreStep(r.1, Ctrl, WithReset(r.0)), CounterValue).0 == 0
  {
  }

  /** A started timer's counter shows its schedule: the next value, or the
      last one once the schedule is used up. */
  lemma StartedCounterCounts(hw: Hw)
    ensures var r := LoadStep(hw, Ctrl);
      var h := StoreStep(r.1, Ctrl, WithoutReset(r.0));
      LoadStep(h, CounterValue).0 == (if hw.counterFeed == [] then hw.counter else hw.counterFeed[0])
  {
    var r := LoadStep(hw, Ctrl);
    assert StoreStep(r.1, Ctrl, WithoutReset(r.0)).ctrl & TIMER_CTRL_RESET == 0;
  }

  // ---------------------------------------------------------------------
  // Counter and status
  // ---------------------------------------------------------------------

  method GetValue(timer: TimerPort) returns (v: bv32)
    modifies timer
    ensures (v, timer.hw) == LoadStep(old(timer.hw), CounterValue)
  {
    v := timer.Load(CounterValue);
  }

  /** Timer_GetStatusAndClear: one STATUS read (which clears the sticky
      bit in the device); true exactly when it showed the threshold. */
  method GetStatusAndClear(timer: TimerPort) returns (reached: bool)
    modifies timer
    ensures timer.hw == LoadStep(old(timer.hw), Status).1
    ensures reached <==> NextStatus(old(timer.hw)) & TIMER_STATUS_THRESHOLD_MASK != 0
  {
    var status := timer.Load(Status);
    reached := status & TIMER_STATUS_THRESHOLD_MASK != 0;
  }
}

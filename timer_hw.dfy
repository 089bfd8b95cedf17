/** The threshold timer that sw/hello_world/timer.c and
    sw/hello_world/timer_driver.c drive: five 32-bit registers at offsets
    0x00..0x10 (sw/hello_world_sim/timer.h, sw/hello_world/timer_driver.h).
    CTRL, PRESCALER and THRESHOLD read back what was written.  STATUS is
    clear-on-read: what successive reads show is given as a schedule
    `statusFeed`, each entry being what one read returns (whether the
    threshold was reached since the previous read); with the schedule used
    up no further threshold is reached and STATUS reads 0.  The counter
    likewise shows the next value of `counterFeed` at each read and stays
    at its last value once the schedule is used up; while CTRL holds
    RESET the counter is held at 0.  Every access is logged with its
    value. */
module TimerHw {

  // Register offsets.
  const TIMER_REG_STATUS: bv32 := 0x00
  const TIMER_REG_CTRL: bv32 := 0x04
  const TIMER_REG_COUNTER_VALUE: bv32 := 0x08
  const TIMER_REG_PRESCALER_VALUE: bv32 := 0x0C
  const TIMER_REG_THRESHOLD_VALUE: bv32 := 0x10

  /** STATUS bit 0: the threshold was reached (sticky, cleared by the read). */
  const TIMER_STATUS_THRESHOLD: bv32 := 1 << 0

  /** CTRL bit 0 holds prescaler and counter in reset; bit 1 enables the
      interrupt. */
  const TIMER_CTRL_RESET: bv32 := 1 << 0
  const TIMER_CTRL_IE: bv32 := 1 << 1

  datatype Reg = Status | Ctrl | CounterValue | PrescalerValue | ThresholdValue

  function Offset(r: Reg): (off: bv32)
    ensures off % 4 == 0 && off <= 0x10
  {
    match r
    case Status => TIMER_REG_STATUS
    case Ctrl => TIMER_REG_CTRL
    case CounterValue => TIMER_REG_COUNTER_VALUE
    case PrescalerValue => TIMER_REG_PRESCALER_VALUE
    case ThresholdValue => TIMER_REG_THRESHOLD_VALUE
  }

  predicate IsRegOffset(off: bv32)
  {
    off % 4 == 0 && off <= 0x10
  }

  /** The register at byte offset `off`, that is at word `off / 4`. */
  function RegAt(off: bv32): (r: Reg)
    requires IsRegOffset(off)
    ensures Offset(r) == off
  {
    match off / 4
    case 0 => Status
    case 1 => Ctrl
    case 2 => CounterValue
    case 3 => PrescalerValue
    case _ => ThresholdValue
  }

  datatype Access = Read(reg: Reg, value: bv32) | Write(reg: Reg, value: bv32)

  datatype Hw = Hw(
    ctrl: bv32,
    prescaler: bv32,
    threshold: bv32,
    counter: bv32,
    statusFeed: seq<bv32>,
    counterFeed: seq<bv32>,
    log: seq<Access>)

  /** What the next STATUS read returns. */
  function NextStatus(hw: Hw): bv32
  {
    if hw.statusFeed == [] then 0 else hw.statusFeed[0]
  }

  /** A register read: the value seen and the device afterwards. */
  function LoadStep(hw: Hw, r: Reg): (res: (bv32, Hw))
    ensures res.1.log == hw.log + [Read(r, res.0)]
    ensures res.1.ctrl == hw.ctrl && res.1.prescaler == hw.prescaler && res.1.threshold == hw.threshold
    ensures r == Status ==> res.0 == NextStatus(hw) && res.1.counterFeed == hw.counterFeed
                            && res.1.statusFeed == (if hw.statusFeed == [] then [] else hw.statusFeed[1..])
    ensures r != Status ==> res.1.statusFeed == hw.statusFeed
    ensures r == Ctrl ==> res.0 == hw.ctrl
    ensures r == PrescalerValue ==> res.0 == hw.prescaler
    ensures r == ThresholdValue ==> res.0 == hw.threshold
    ensures r == CounterValue && hw.ctrl & TIMER_CTRL_RESET != 0 ==> res.0 == 0
  {
    match r
    case Status =>
      var v := NextStatus(hw);
      (v, hw.(statusFeed := if hw.statusFeed == [] then [] else hw.statusFeed[1..],
              log := hw.log + [Read(r, v)]))
    case Ctrl => (hw.ctrl, hw.(log := hw.log + [Read(r, hw.ctrl)]))
    case PrescalerValue => (hw.prescaler, hw.(log := hw.log + [Read(r, hw.prescaler)]))
    case ThresholdValue => (hw.threshold, hw.(log := hw.log + [Read(r, hw.threshold)]))
    case CounterValue =>
      if hw.ctrl & TIMER_CTRL_RESET != 0 then
        (0, hw.(counter := 0, log := hw.log + [Read(r, 0)]))
      else if hw.counterFeed == [] then
        (hw.counter, hw.(log := hw.log + [Read(r, hw.counter)]))
      else
        var v := hw.counterFeed[0];
        (v, hw.(counter := v, counterFeed := hw.counterFeed[1..], log := hw.log + [Read(r, v)]))
  }

  /** A register write; STATUS and COUNTER_VALUE are read-only. */
  function StoreStep(hw: Hw, r: Reg, v: bv32): (h: Hw)
    ensures h.log == hw.log + [Write(r, v)]
    ensures h.statusFeed == hw.statusFeed && h.counterFeed == hw.counterFeed && h.counter == hw.counter
    ensures h.ctrl == (if r == Ctrl then v else hw.ctrl)
    ensures h.prescaler == (if r == PrescalerValue then v else hw.prescaler)
    ensures h.threshold == (if r == ThresholdValue then v else hw.threshold)
  {
    var h := hw.(log := hw.log + [Write(r, v)]);
    match r
    case Ctrl => h.(ctrl := v)
    case PrescalerValue => h.(prescaler := v)
    case ThresholdValue => h.(threshold := v)
    case _ => h
  }

  /** A read-write register reads back the value last written to it. */
  lemma WriteThenReadBack(hw: Hw, r: Reg, v: bv32)
    requires r == Ctrl || r == PrescalerValue || r == ThresholdValue
    ensures LoadStep(StoreStep(hw, r, v), r).0 == v
  {
  }

  /** The timer register block at one base address. */
  class TimerPort {
    var hw: Hw

    constructor (initial: Hw)
      ensures hw == initial
    {
      hw := initial;
    }

    /** A volatile 32-bit load from the register `r`. */
    method Load(r: Reg) returns (v: bv32)
      modifies this
      ensures (v, hw) == LoadStep(old(hw), r)
    {
      var res := LoadStep(hw, r);
      v, hw := res.0, res.1;
    }

    /** A volatile 32-bit store of `v` to the register `r`. */
    method Store(r: Reg, v: bv32)
      modifies this
      ensures hw == StoreStep(old(hw), r, v)
    {
      hw := StoreStep(hw, r, v);
    }
  }
}

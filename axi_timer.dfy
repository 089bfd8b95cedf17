/** The dual 32-bit AXI4-Lite timer/counter and its header-only driver
    (sw/hello_world/axi4_lite_timer.h).  Eight word registers from
    AXI_TIMER_BASE_ADDR: per timer a CTRL word with the bit fields
    ENABLE (bit 0), RELOAD (bit 1), DIRECTION (bit 2) and, for timer 1
    only, SOURCE (bit 3); a LOAD and a COMPARE word; and a read-only
    VALUE word.  CTRL, LOAD and COMPARE read back what was written.  What
    successive VALUE reads of a timer show is given as a schedule (`ticks`);
    once a schedule is used up that counter reads its last value for
    ever.  Every access is logged with its value. */
module AxiTimer {

  const TWO_TO_32: int := 0x1_0000_0000

  /** Unsigned machine words; C's unsigned arithmetic on them is written
      out modulo their range where it can wrap. */
  type uint8 = x: int | 0 <= x < 0x100
  type uint32 = x: int | 0 <= x < TWO_TO_32
  type uint64 = x: int | 0 <= x < TWO_TO_32 * TWO_TO_32

  const AXI_TIMER_BASE_ADDR: uint32 := 0x0000_4000

  /** The two timers, and the four words of each one's register block. */
  datatype Unit = Timer0 | Timer1
  datatype Word = Ctrl | Load | Compare | Value

  datatype Reg = Reg(unit: Unit, word: Word)

  const T0Ctrl: Reg := Reg(Timer0, Ctrl)
  const T0Load: Reg := Reg(Timer0, Load)
  const T0Compare: Reg := Reg(Timer0, Compare)
  const T0Value: Reg := Reg(Timer0, Value)
  const T1Ctrl: Reg := Reg(Timer1, Ctrl)
  const T1Load: Reg := Reg(Timer1, Load)
  const T1Compare: Reg := Reg(Timer1, Compare)
  const T1Value: Reg := Reg(Timer1, Value)

  /** The byte offset of each register in axi_timer_regs_t: timer 0's
      block at 0x00, timer 1's at 0x10, the words 4 bytes apart. */
  function Offset(r: Reg): (off: uint32)
    ensures off % 4 == 0 && off <= 0x1C
  {
    (if r.unit == Timer0 then 0x00 else 0x10) +
    (match r.word
     case Ctrl => 0x00
     case Load => 0x04
     case Compare => 0x08
     case Value => 0x0C)
  }

  /** No two registers share an address. */
  lemma OffsetsAreDistinct(r1: Reg, r2: Reg)
    ensures Offset(r1) == Offset(r2) ==> r1 == r2
  {
  }

  datatype Access = Read(reg: Reg, value: uint32) | Write(reg: Reg, value: uint32)

  /** One timer's register block (timer0_regs_t / timer1_regs_t) with the
      schedule of what its VALUE reads show. */
  datatype Regs = Regs(ctrl: uint32, load: uint32, compare: uint32, value: uint32, ticks: seq<uint32>)

  datatype Dev = Dev(timer0: Regs, timer1: Regs, log: seq<Access>)

  /** CTRL, LOAD and COMPARE of one timer agree. */
  predicate SameSettings(a: Regs, b: Regs)
  {
    a.ctrl == b.ctrl && a.load == b.load && a.compare == b.compare
  }

  /** The configuration registers of both timers agree. */
  predicate SameConfig(a: Dev, b: Dev)
  {
    SameSettings(a.timer0, b.timer0) && SameSettings(a.timer1, b.timer1)
  }

  function UnitRegs(dev: Dev, u: Unit): Regs
  {
    if u == Timer0 then dev.timer0 else dev.timer1
  }

  function WithUnitRegs(dev: Dev, u: Unit, t: Regs): Dev
  {
    if u == Timer0 then dev.(timer0 := t) else dev.(timer1 := t)
  }

  /** A counter read: the next scheduled value, or the last one for ever
      once the schedule is used up. */
  function CounterRead(t: Regs): (res: (uint32, Regs))
    ensures SameSettings(res.1, t)
    ensures res.0 == (if t.ticks == [] then t.value else t.ticks[0])
    ensures res.1.ticks == (if t.ticks == [] then [] else t.ticks[1..])
  {
    if t.ticks == [] then (t.value, t)
    else (t.ticks[0], t.(value := t.ticks[0], ticks := t.ticks[1..]))
  }

  /** A read of one word of a timer's block. */
  function RegsLoad(t: Regs, w: Word): (res: (uint32, Regs))
    ensures w != Value ==> res.1 == t
  {
    match w
    case Ctrl => (t.ctrl, t)
    case Load => (t.load, t)
    case Compare => (t.compare, t)
    case Value => CounterRead(t)
  }

  /** A write of one word of a timer's block; VALUE is read-only. */
  function RegsStore(t: Regs, w: Word, v: uint32): (res: Regs)
    ensures res.value == t.value && res.ticks == t.ticks
  {
    match w
    case Ctrl => t.(ctrl := v)
    case Load => t.(load := v)
    case Compare => t.(compare := v)
    case Value => t
  }

  /** A register read: the value seen and the device afterwards. */
  function LoadStep(dev: Dev, r: Reg): (res: (uint32, Dev))
    ensures res.1.log == dev.log + [Read(r, res.0)]
  {
    var x := RegsLoad(UnitRegs(dev, r.unit), r.word);
    (x.0, WithUnitRegs(dev, r.unit, x.1).(log := dev.log + [Read(r, x.0)]))
  }

  /** A register write. */
  function StoreStep(dev: Dev, r: Reg, v: uint32): (d: Dev)
    ensures d.log == dev.log + [Write(r, v)]
  {
    var t := RegsStore(UnitRegs(dev, r.unit), r.word, v);
    WithUnitRegs(dev, r.unit, t).(log := dev.log + [Write(r, v)])
  }

  /** The memory-mapped block at AXI_TIMER_BASE_ADDR. */
  class AxiTimerPort {
    var dev: Dev

    constructor (initial: Dev)
      ensures dev == initial
    {
      dev := initial;
    }

    /** A volatile 32-bit load. */
    method Load(r: Reg) returns (v: uint32)
      modifies this
      ensures (v, dev) == LoadStep(old(dev), r)
    {
      var res := LoadStep(dev, r);
      v, dev := res.0, res.1;
    }

    /** A volatile 32-bit store. */
    method Store(r: Reg, v: uint32)
      modifies this
      ensures dev == StoreStep(old(dev), r, v)
    {
      dev := StoreStep(dev, r, v);
    }
  }

  // ---------------------------------------------------------------------
  // The CTRL bit fields (timer0_ctrl_t / timer1_ctrl_t)
  // ---------------------------------------------------------------------

  datatype Field = Enable | Reload | Direction | Source

  /** The `bits` view of a CTRL word: ENABLE (bit 0), RELOAD (bit 1),
      DIRECTION (bit 2), SOURCE (bit 3, reserved in timer 0) and the
      reserved bits 4..31. */
  datatype CtrlBits = CtrlBits(enable: bool, reload: bool, direction: bool, source: bool, reserved: Reserved)

  /** Bits 4..31 of a CTRL word, as a number. */
  type Reserved = x: int | 0 <= x < 0x1000_0000

  /** The `reg` view of the bit fields. */
  function CtrlWord(c: CtrlBits): uint32
  {
    Digit(c.enable) + 2 * Digit(c.reload) + 4 * Digit(c.direction) + 8 * Digit(c.source)
    + 16 * c.reserved
  }

  /** The `bits` view of a CTRL word. */
  function CtrlOf(w: uint32): CtrlBits
  {
    CtrlBits(w % 2 == 1, w / 2 % 2 == 1, w / 4 % 2 == 1, w / 8 % 2 == 1, w / 16)
  }

  /** The two views of the union describe the same word: a word read as
      bit fields and written back is unchanged ... */
  lemma WordOfBits(w: uint32)
    ensures CtrlWord(CtrlOf(w)) == w
  {
    ShiftedDown(w);
    assert w == w % 2 + 2 * (w / 2 % 2) + 4 * (w / 4 % 2) + 8 * (w / 8 % 2) + 16 * (w / 16);
  }

  /** ... and bit fields written as a word read back unchanged. */
  lemma BitsOfWord(c: CtrlBits)
    ensures CtrlOf(CtrlWord(c)) == c
  {
    var e, r, d, s := Digit(c.enable), Digit(c.reload), Digit(c.direction), Digit(c.source);
    var w3 := s + 2 * c.reserved;
    var w2 := d + 2 * w3;
    var w1 := r + 2 * w2;
    var w := e + 2 * w1;
    assert w == CtrlWord(c);
    PushBit(e, w1);
    PushBit(r, w2);
    PushBit(d, w3);
    PushBit(s, c.reserved);
    ShiftedDown(w);
  }

  function Digit(b: bool): int
  {
    if b then 1 else 0
  }

  /** Appending bit `b` under `n` can be undone by halving. */
  lemma PushBit(b: int, n: int)
    requires 0 <= b < 2 && 0 <= n
    ensures (b + 2 * n) % 2 == b && (b + 2 * n) / 2 == n
  {
  }

  /** A word shifted right by 1, 2, 3 and 4 bits, one bit at a time. */
  lemma ShiftedDown(w: uint32)
    ensures w == w % 2 + 2 * (w / 2)
    ensures w / 2 == w / 2 % 2 + 2 * (w / 4)
    ensures w / 4 == w / 4 % 2 + 2 * (w / 8)
    ensures w / 8 == w / 8 % 2 + 2 * (w / 16)
  {
  }

  function Bit(c: CtrlBits, f: Field): bool
  {
    match f
    case Enable => c.enable
    case Reload => c.reload
    case Direction => c.direction
    case Source => c.source
  }

  /** `c` with one field set to `on ? 1 : 0`. */
  function WithBit(c: CtrlBits, f: Field, on: bool): CtrlBits
  {
    match f
    case Enable => c.(enable := on)
    case Reload => c.(reload := on)
    case Direction => c.(direction := on)
    case Source => c.(source := on)
  }

  /** A bit-field assignment `TIMERx_CTRL.bits.f = on`: a load of the CTRL
      word, then a store of the word with that one field replaced. */
  function FieldStep(dev: Dev, u: Unit, f: Field, on: bool): Dev
  {
    var x := LoadStep(dev, Reg(u, Ctrl));
    StoreStep(x.1, Reg(u, Ctrl), CtrlWord(WithBit(CtrlOf(x.0), f, on)))
  }

  /** A bit-field assignment changes that timer's CTRL word alone, in
      that field alone, leaving the reserved bits as they were; it logs
      the read and the write of the word. */
  lemma FieldStepOutcome(dev: Dev, u: Unit, f: Field, on: bool)
    ensures var t := UnitRegs(dev, u);
      var d := FieldStep(dev, u, f, on);
      && d == WithUnitRegs(dev, u, t.(ctrl := UnitRegs(d, u).ctrl)).(log := d.log)
      && d.log == dev.log + [Read(Reg(u, Ctrl), t.ctrl), Write(Reg(u, Ctrl), UnitRegs(d, u).ctrl)]
      && CtrlOf(UnitRegs(d, u).ctrl) == WithBit(CtrlOf(t.ctrl), f, on)
  {
    FieldStepFrame(dev, u, f, on);
    BitsOfWord(WithBit(CtrlOf(UnitRegs(dev, u).ctrl), f, on));
  }

  /** The part of FieldStepOutcome that does not look inside the word. */
  lemma FieldStepFrame(dev: Dev, u: Unit, f: Field, on: bool)
    ensures var t := UnitRegs(dev, u);
      var d := FieldStep(dev, u, f, on);
      && d == WithUnitRegs(dev, u, t.(ctrl := UnitRegs(d, u).ctrl)).(log := d.log)
      && d.log == dev.log + [Read(Reg(u, Ctrl), t.ctrl), Write(Reg(u, Ctrl), UnitRegs(d, u).ctrl)]
  {
  }

  /** Only the field assigned changes. */
  lemma WithBitChangesOnlyThatField(c: CtrlBits, f: Field, on: bool, g: Field)
    ensures Bit(WithBit(c, f, on), g) == (if g == f then on else Bit(c, g))
    ensures WithBit(c, f, on).reserved == c.reserved
  {
  }

  method SetField(t: AxiTimerPort, u: Unit, f: Field, on: bool)
    modifies t
    ensures t.dev == FieldStep(old(t.dev), u, f, on)
  {
    var c := t.Load(Reg(u, Ctrl));
    t.Store(Reg(u, Ctrl), CtrlWord(WithBit(CtrlOf(c), f, on)));
  }

  // ---------------------------------------------------------------------
  // Per-timer helpers (timer0_* and timer1_*)
  // ---------------------------------------------------------------------

  method EnableTimer(t: AxiTimerPort, u: Unit)
    modifies t
    ensures t.dev == FieldStep(old(t.dev), u, Enable, true)
  {
    SetField(t, u, Enable, true);
  }

  method DisableTimer(t: AxiTimerPort, u: Unit)
    modifies t
    ensures t.dev == FieldStep(old(t.dev), u, Enable, false)
  {
    SetField(t, u, Enable, false);
  }

  method SetDirection(t: AxiTimerPort, u: Unit, countUp: uint8)
    modifies t
    ensures t.dev == FieldStep(old(t.dev), u, Direction, countUp != 0)
  {
    SetField(t, u, Direction, countUp != 0);
  }

  method SetReload(t: AxiTimerPort, u: Unit, reloadOnRollover: uint8)
    modifies t
    ensures t.dev == FieldStep(old(t.dev), u, Reload, reloadOnRollover != 0)
  {
    SetField(t, u, Reload, reloadOnRollover != 0);
  }

  /** timer1_set_source; timer 0 has no SOURCE field. */
  method Timer1SetSource(t: AxiTimerPort, useTimer0Done: uint8)
    modifies t
    ensures t.dev == FieldStep(old(t.dev), Timer1, Source, useTimer0Done != 0)
  {
    SetField(t, Timer1, Source, useTimer0Done != 0);
  }

  method GetValue(t: AxiTimerPort, u: Unit) returns (v: uint32)
    modifies t
    ensures (v, t.dev) == LoadStep(old(t.dev), Reg(u, Value))
  {
    v := t.Load(Reg(u, Value));
  }

  /** timerN_configure's register sequence: LOAD, COMPARE, then one
      bit-field assignment per field (`source` is ignored for timer 0,
      whose configure has no such parameter). */
  function ConfigureSpec(dev: Dev, u: Unit, loadVal: uint32, compareVal: uint32, countUp: uint8, reload: uint8, source: uint8): Dev
  {
    var d1 := StoreStep(dev, Reg(u, Load), loadVal);
    var d2 := StoreStep(d1, Reg(u, Compare), compareVal);
    var d3 := FieldStep(d2, u, Direction, countUp != 0);
    var d4 := FieldStep(d3, u, Reload, reload != 0);
    if u == Timer0 then d4 else FieldStep(d4, u, Source, source != 0)
  }

  /** The register values timerN_configure leaves in that timer: LOAD
      and COMPARE as given, DIRECTION, RELOAD and (timer 1) SOURCE as
      asked, ENABLE and the reserved bits as they were. */
  predicate Configured(u: Unit, t: Regs, loadVal: uint32, compareVal: uint32, countUp: uint8, reload: uint8, source: uint8, t': Regs)
  {
    var c := CtrlOf(t.ctrl);
    var c' := CtrlOf(t'.ctrl);
    && t'.load == loadVal && t'.compare == compareVal
    && t'.value == t.value && t'.ticks == t.ticks
    && c'.direction == (countUp != 0) && c'.reload == (reload != 0)
    && c'.source == (if u == Timer0 then c.source else source != 0)
    && c'.enable == c.enable && c'.reserved == c.reserved
  }

  /** timerN_configure does what Configured says to that timer, leaves
      the other timer alone, and logs the two writes first. */
  lemma ConfigureOutcome(dev: Dev, u: Unit, loadVal: uint32, compareVal: uint32, countUp: uint8, reload: uint8, source: uint8)
    ensures var d := ConfigureSpec(dev, u, loadVal, compareVal, countUp, reload, source);
      && Configured(u, UnitRegs(dev, u), loadVal, compareVal, countUp, reload, source, UnitRegs(d, u))
      && d == WithUnitRegs(dev, u, UnitRegs(d, u)).(log := d.log)
      && |d.log| == |dev.log| + (if u == Timer0 then 6 else 8)
      && d.log[..|dev.log| + 2] == dev.log + [Write(Reg(u, Load), loadVal), Write(Reg(u, Compare), compareVal)]
  {
    ConfigureSetsUnit(dev, u, loadVal, compareVal, countUp, reload, source);
    ConfigureKeepsRest(dev, u, loadVal, compareVal, countUp, reload, source);
    ConfigureLog(dev, u, loadVal, compareVal, countUp, reload, source);
  }

  lemma ConfigureSetsUnit(dev: Dev, u: Unit, loadVal: uint32, compareVal: uint32, countUp: uint8, reload: uint8, source: uint8)
    ensures var d := ConfigureSpec(dev, u, loadVal, compareVal, countUp, reload, source);
      Configured(u, UnitRegs(dev, u), loadVal, compareVal, countUp, reload, source, UnitRegs(d, u))
  {
    var d2 := StoreStep(StoreStep(dev, Reg(u, Load), loadVal), Reg(u, Compare), compareVal);
    FieldStepOutcome(d2, u, Direction, countUp != 0);
    var d3 := FieldStep(d2, u, Direction, countUp != 0);
    FieldStepOutcome(d3, u, Reload, reload != 0);
    var d4 := FieldStep(d3, u, Reload, reload != 0);
    FieldStepOutcome(d4, u, Source, source != 0);
    var d5 := FieldStep(d4, u, Source, source != 0);
    ConfiguredFromSteps(u, UnitRegs(dev, u), UnitRegs(d2, u), UnitRegs(d3, u), UnitRegs(d4, u),
      if u == Timer0 then UnitRegs(d4, u) else UnitRegs(d5, u), loadVal, compareVal, countUp, reload, source);
  }

  /** The register values after each of configure's steps add up to
      Configured. */
  lemma ConfiguredFromSteps(u: Unit, t: Regs, t2: Regs, t3: Regs, t4: Regs, t5: Regs,
                            loadVal: uint32, compareVal: uint32, countUp: uint8, reload: uint8, source: uint8)
    requires t2 == t.(load := loadVal, compare := compareVal)
    requires t3 == t2.(ctrl := t3.ctrl) && CtrlOf(t3.ctrl) == WithBit(CtrlOf(t2.ctrl), Direction, countUp != 0)
    requires t4 == t3.(ctrl := t4.ctrl) && CtrlOf(t4.ctrl) == WithBit(CtrlOf(t3.ctrl), Reload, reload != 0)
    requires u == Timer0 ==> t5 == t4
    requires u == Timer1 ==> t5 == t4.(ctrl := t5.ctrl) && CtrlOf(t5.ctrl) == WithBit(CtrlOf(t4.ctrl), Source, source != 0)
    ensures Configured(u, t, loadVal, compareVal, countUp, reload, source, t5)
  {
  }

  lemma ConfigureKeepsRest(dev: Dev, u: Unit, loadVal: uint32, compareVal: uint32, countUp: uint8, reload: uint8, source: uint8)
    ensures var d := ConfigureSpec(dev, u, loadVal, compareVal, countUp, reload, source);
      d == WithUnitRegs(dev, u, UnitRegs(d, u)).(log := d.log)
  {
    var d2 := StoreStep(StoreStep(dev, Reg(u, Load), loadVal), Reg(u, Compare), compareVal);
    FieldStepFrame(d2, u, Direction, countUp != 0);
    var d3 := FieldStep(d2, u, Direction, countUp != 0);
    FieldStepFrame(d3, u, Reload, reload != 0);
    var d4 := FieldStep(d3, u, Reload, reload != 0);
    FieldStepFrame(d4, u, Source, source != 0);
    var d5 := FieldStep(d4, u, Source, source != 0);
    KeptAcrossSteps(u, d2, d3, d4);
    if u == Timer1 {
      KeptAcrossSteps(u, d2, d4, d5);
    }
  }

  lemma ConfigureLog(dev: Dev, u: Unit, loadVal: uint32, compareVal: uint32, countUp: uint8, reload: uint8, source: uint8)
    ensures var d := ConfigureSpec(dev, u, loadVal, compareVal, countUp, reload, source);
      && |d.log| == |dev.log| + (if u == Timer0 then 6 else 8)
      && d.log[..|dev.log| + 2] == dev.log + [Write(Reg(u, Load), loadVal), Write(Reg(u, Compare), compareVal)]
  {
    var d2 := StoreStep(StoreStep(dev, Reg(u, Load), loadVal), Reg(u, Compare), compareVal);
    FieldStepFrame(d2, u, Direction, countUp != 0);
    var d3 := FieldStep(d2, u, Direction, countUp != 0);
    FieldStepFrame(d3, u, Reload, reload != 0);
    var d4 := FieldStep(d3, u, Reload, reload != 0);
    FieldStepFrame(d4, u, Source, source != 0);
    var d5 := FieldStep(d4, u, Source, source != 0);
    PrefixAcrossSteps(d2.log, d3.log, d4.log, d5.log);
  }

  /** Two steps that change only timer `u` (and the log) change only timer `u`. */
  lemma KeptAcrossSteps(u: Unit, a: Dev, b: Dev, c: Dev)
    requires b == WithUnitRegs(a, u, UnitRegs(b, u)).(log := b.log)
    requires c == WithUnitRegs(b, u, UnitRegs(c, u)).(log := c.log)
    ensures c == WithUnitRegs(a, u, UnitRegs(c, u)).(log := c.log)
  {
  }

  /** Logs that only grow keep their first entries. */
  lemma PrefixAcrossSteps(l2: seq<Access>, l3: seq<Access>, l4: seq<Access>, l5: seq<Access>)
    requires |l3| == |l2| + 2 && l3[..|l2|] == l2
    requires |l4| == |l3| + 2 && l4[..|l3|] == l3
    requires |l5| == |l4| + 2 && l5[..|l4|] == l4
    ensures l4[..|l2|] == l2 && l5[..|l2|] == l2
  {
    assert l4[..|l2|] == l4[..|l3|][..|l2|];
    assert l5[..|l2|] == l5[..|l4|][..|l2|];
  }

  method Timer0Configure(t: AxiTimerPort, loadVal: uint32, compareVal: uint32, countUp: uint8, reload: uint8)
    modifies t
    ensures t.dev == ConfigureSpec(old(t.dev), Timer0, loadVal, compareVal, countUp, reload, 0)
  {
    t.Store(T0Load, loadVal);
    t.Store(T0Compare, compareVal);
    SetDirection(t, Timer0, countUp);
    SetReload(t, Timer0, reload);
  }

  method Timer1Configure(t: AxiTimerPort, loadVal: uint32, compareVal: uint32, countUp: uint8, reload: uint8, source: uint8)
    modifies t
    ensures t.dev == ConfigureSpec(old(t.dev), Timer1, loadVal, compareVal, countUp, reload, source)
  {
    t.Store(T1Load, loadVal);
    t.Store(T1Compare, compareVal);
    SetDirection(t, Timer1, countUp);
    SetReload(t, Timer1, reload);
    Timer1SetSource(t, source);
  }

  /** timerN_start_periodic: configure with RELOAD = 1, then enable. */
  function StartPeriodicSpec(dev: Dev, u: Unit, loadVal: uint32, compareVal: uint32, countUp: uint8, source: uint8): Dev
  {
    FieldStep(ConfigureSpec(dev, u, loadVal, compareVal, countUp, 1, source), u, Enable, true)
  }

  /** After timerN_start_periodic that timer runs: enabled, reloading on
      the compare match, counting in the direction asked, from LOAD to
      COMPARE as given; the other timer is untouched. */
  lemma StartPeriodicOutcome(dev: Dev, u: Unit, loadVal: uint32, compareVal: uint32, countUp: uint8, source: uint8)
    ensures var d := StartPeriodicSpec(dev, u, loadVal, compareVal, countUp, source);
      var t := UnitRegs(d, u);
      var c := CtrlOf(t.ctrl);
      && t.load == loadVal && t.compare == compareVal
      && c.enable && c.reload && c.direction == (countUp != 0)
      && c.reserved == CtrlOf(UnitRegs(dev, u).ctrl).reserved
      && (u == Timer1 ==> c.source == (source != 0))
      && d == WithUnitRegs(dev, u, t).(log := d.log)
      && |d.log| == |dev.log| + (if u == Timer0 then 8 else 10)
  {
    var d4 := ConfigureSpec(dev, u, loadVal, compareVal, countUp, 1, source);
    ConfigureOutcome(dev, u, loadVal, compareVal, countUp, 1, source);
    FieldStepOutcome(d4, u, Enable, true);
  }

  method Timer0StartPeriodic(t: AxiTimerPort, loadVal: uint32, compareVal: uint32, countUp: uint8)
    modifies t
    ensures t.dev == StartPeriodicSpec(old(t.dev), Timer0, loadVal, compareVal, countUp, 0)
  {
    Timer0Configure(t, loadVal, compareVal, countUp, 1);
    EnableTimer(t, Timer0);
  }

  method Timer1StartPeriodic(t: AxiTimerPort, loadVal: uint32, compareVal: uint32, countUp: uint8, source: uint8)
    modifies t
    ensures t.dev == StartPeriodicSpec(old(t.dev), Timer1, loadVal, compareVal, countUp, source)
  {
    Timer1Configure(t, loadVal, compareVal, countUp, 1, source);
    EnableTimer(t, Timer1);
  }

  // ---------------------------------------------------------------------
  // Millisecond period
  // ---------------------------------------------------------------------

  /** `(clk_freq_hz / 1000) * period_ms` in uint32 arithmetic: the
      division truncates, the product wraps modulo 2^32. */
  function MsTicks(clkFreqHz: uint32, periodMs: uint32): uint32
  {
    ((clkFreqHz / 1000) * periodMs) % TWO_TO_32
  }

  /** `ticks - 1` in uint32 arithmetic. */
  function Pred32(ticks: uint32): uint32
  {
    (ticks - 1) % TWO_TO_32
  }

  /** The COMPARE value timer0_setup_ms_periodic programs. */
  function MsCompare(clkFreqHz: uint32, periodMs: uint32): uint32
  {
    Pred32(MsTicks(clkFreqHz, periodMs))
  }

  /** When the period in clock cycles is at least one and fits in 32
      bits, COMPARE is one less than it, so that counting up from 0 and
      reloading on the match repeats every that many cycles. */
  lemma MsCompareMatchesPeriod(clkFreqHz: uint32, periodMs: uint32)
    requires 1 <= (clkFreqHz / 1000) * periodMs < TWO_TO_32
    ensures MsCompare(clkFreqHz, periodMs) + 1 == (clkFreqHz / 1000) * periodMs
  {
  }

  /** With a clock below 1 kHz or a zero period the tick count is 0 and
      COMPARE wraps to its largest value, the longest period the timer
      has rather than the one asked for. */
  lemma MsCompareWrapsOnZero(clkFreqHz: uint32, periodMs: uint32)
    requires clkFreqHz < 1000 || periodMs == 0
    ensures MsCompare(clkFreqHz, periodMs) == 0xFFFF_FFFF
  {
    assert clkFreqHz / 1000 == 0 || periodMs == 0;
  }

  method Timer0SetupMsPeriodic(t: AxiTimerPort, clkFreqHz: uint32, periodMs: uint32)
    modifies t
    ensures t.dev == StartPeriodicSpec(old(t.dev), Timer0, 0, MsCompare(clkFreqHz, periodMs), 1, 0)
  {
    var ticks := MsTicks(clkFreqHz, periodMs);
    Timer0StartPeriodic(t, 0, Pred32(ticks), 1);
  }

  // ---------------------------------------------------------------------
  // Cascade and shutdown
  // ---------------------------------------------------------------------

  /** setup_cascaded_64bit_timer's register sequence. */
  function CascadeSpec(dev: Dev): Dev
  {
    var d1 := ConfigureSpec(dev, Timer0, 0, 0xFFFF_FFFF, 1, 1, 0);
    var d2 := FieldStep(d1, Timer0, Enable, true);
    var d3 := ConfigureSpec(d2, Timer1, 0, 0xFFFF_FFFF, 1, 1, 1);
    FieldStep(d3, Timer1, Enable, true)
  }

  /** After setup_cascaded_64bit_timer both timers count up from 0 to
      0xFFFFFFFF, enabled and reloading, and timer 1 counts timer 0's
      rollovers. */
  lemma CascadeOutcome(dev: Dev)
    ensures var d := CascadeSpec(dev);
      var c0 := CtrlOf(d.timer0.ctrl);
      var c1 := CtrlOf(d.timer1.ctrl);
      && d.timer0.load == 0 && d.timer0.compare == 0xFFFF_FFFF
      && d.timer1.load == 0 && d.timer1.compare == 0xFFFF_FFFF
      && c0.enable && c0.reload && c0.direction
      && c1.enable && c1.reload && c1.direction && c1.source
  {
    var d2 := StartPeriodicSpec(dev, Timer0, 0, 0xFFFF_FFFF, 1, 0);
    StartPeriodicOutcome(dev, Timer0, 0, 0xFFFF_FFFF, 1, 0);
    StartPeriodicOutcome(d2, Timer1, 0, 0xFFFF_FFFF, 1, 1);
  }

  method SetupCascaded64BitTimer(t: AxiTimerPort)
    modifies t
    ensures t.dev == CascadeSpec(old(t.dev))
  {
    Timer0Configure(t, 0, 0xFFFF_FFFF, 1, 1);
    EnableTimer(t, Timer0);
    Timer1Configure(t, 0, 0xFFFF_FFFF, 1, 1, 1);
    EnableTimer(t, Timer1);
  }

  /** timer_disable_all's register sequence. */
  function DisableAllSpec(dev: Dev): Dev
  {
    FieldStep(FieldStep(dev, Timer0, Enable, false), Timer1, Enable, false)
  }

  /** After timer_disable_all both timers are stopped; every other CTRL
      field, LOAD, COMPARE and the counters are as they were. */
  lemma DisableAllOutcome(dev: Dev)
    ensures var d := DisableAllSpec(dev);
      && CtrlOf(d.timer0.ctrl) == CtrlOf(dev.timer0.ctrl).(enable := false)
      && CtrlOf(d.timer1.ctrl) == CtrlOf(dev.timer1.ctrl).(enable := false)
      && d.timer0 == dev.timer0.(ctrl := d.timer0.ctrl)
      && d.timer1 == dev.timer1.(ctrl := d.timer1.ctrl)
  {
    FieldStepOutcome(dev, Timer0, Enable, false);
    FieldStepOutcome(FieldStep(dev, Timer0, Enable, false), Timer1, Enable, false);
  }

  method TimerDisableAll(t: AxiTimerPort)
    modifies t
    ensures t.dev == DisableAllSpec(old(t.dev))
  {
    DisableTimer(t, Timer0);
    DisableTimer(t, Timer1);
  }

  // ---------------------------------------------------------------------
  // 64-bit cascaded value
  // ---------------------------------------------------------------------

  /** `((uint64_t)high << 32) | low`: the high word above the low one. */
  function Compose64(high: uint32, low: uint32): uint64
  {
    high * TWO_TO_32 + low
  }

  function High(x: uint64): uint32
  {
    x / TWO_TO_32
  }

  function Low(x: uint64): uint32
  {
    x % TWO_TO_32
  }

  /** The two halves come back out of the 64-bit value ... */
  lemma Compose64Splits(high: uint32, low: uint32)
    ensures High(Compose64(high, low)) == high
    ensures Low(Compose64(high, low)) == low
  {
  }

  /** ... and every 64-bit value is so composed. */
  lemma Compose64OfHalves(x: uint64)
    ensures Compose64(High(x), Low(x)) == x
  {
  }

  /** One pass of the do-while in timer_get_64bit_value: TIMER1_VALUE,
      TIMER0_VALUE, TIMER1_VALUE again. */
  function ReadTriple(dev: Dev): (r: (uint32, uint32, uint32, Dev))
  {
    var x := LoadStep(dev, T1Value);
    var y := LoadStep(x.1, T0Value);
    var z := LoadStep(y.1, T1Value);
    (x.0, y.0, z.0, z.1)
  }

  /** A pass reads timer 1's counter twice around timer 0's, logs the three
      reads and changes no setting. */
  lemma ReadTripleOutcome(dev: Dev)
    ensures var r := ReadTriple(dev);
      && r.3.log == dev.log + [Read(T1Value, r.0), Read(T0Value, r.1), Read(T1Value, r.2)]
      && SameConfig(r.3, dev)
      && (dev.timer1.ticks == [] ==> r.0 == r.2 == dev.timer1.value && r.3.timer1 == dev.timer1)
      && (dev.timer1.ticks != [] ==> |r.3.timer1.ticks| < |dev.timer1.ticks|)
  {
  }

  /** timer_get_64bit_value's halves: repeat the pass until both reads of
      timer 1 agree.  With timer 1's schedule used up they always agree,
      so the loop ends. */
  function Read64(dev: Dev): (uint32, uint32, Dev)
    decreases |dev.timer1.ticks|
  {
    var p := ReadTriple(dev);
    ReadTripleOutcome(dev);
    if p.0 == p.2 then (p.0, p.1, p.3)
    else Read64(p.3)
  }

  /** The value read between two TIMER1_VALUE reads that agree: the log
      grew by counter reads alone, ending in exactly that triple, and no
      setting changed. */
  predicate Sampled(dev: Dev, high: uint32, low: uint32, d: Dev)
  {
    var n := |dev.log|;
    var m := |d.log|;
    && n + 3 <= m
    && d.log[..n] == dev.log
    && d.log[m - 3..] == [Read(T1Value, high), Read(T0Value, low), Read(T1Value, high)]
    && (forall i :: n <= i < m ==> d.log[i].Read? && d.log[i].reg.word == Value)
    && SameConfig(d, dev)
  }

  lemma {:induction false} Read64Outcome(dev: Dev)
    ensures var r := Read64(dev); Sampled(dev, r.0, r.1, r.2)
    decreases |dev.timer1.ticks|
  {
    var p := ReadTriple(dev);
    ReadTripleOutcome(dev);
    if p.0 == p.2 {
      SampledOnce(dev, p.0, p.1, p.3);
    } else {
      Read64Outcome(p.3);
      var r := Read64(p.3);
      SampledAfterRetry(dev, p.3, p.0, p.1, p.2, r.0, r.1, r.2);
    }
  }

  /** A pass whose two reads of timer 1 agree is a sample. */
  lemma SampledOnce(dev: Dev, high: uint32, low: uint32, d: Dev)
    requires d.log == dev.log + [Read(T1Value, high), Read(T0Value, low), Read(T1Value, high)]
    requires SameConfig(d, dev)
    ensures Sampled(dev, high, low, d)
  {
    var n := |dev.log|;
    forall i | n <= i < |d.log|
      ensures d.log[i].Read? && d.log[i].reg.word == Value
    {
      assert d.log[i] == [Read(T1Value, high), Read(T0Value, low), Read(T1Value, high)][i - n];
    }
  }

  /** A failed pass followed by a sample is a sample. */
  lemma SampledAfterRetry(dev: Dev, d1: Dev, a: uint32, b: uint32, c: uint32, high: uint32, low: uint32, d: Dev)
    requires d1.log == dev.log + [Read(T1Value, a), Read(T0Value, b), Read(T1Value, c)]
    requires SameConfig(d1, dev)
    requires Sampled(d1, high, low, d)
    ensures Sampled(dev, high, low, d)
  {
    var n := |dev.log|;
    var n1 := |d1.log|;
    assert d.log[..n] == d.log[..n1][..n];
    forall i | n <= i < |d.log|
      ensures d.log[i].Read? && d.log[i].reg.word == Value
    {
      if i < n1 {
        assert d.log[i] == d.log[..n1][i] == [Read(T1Value, a), Read(T0Value, b), Read(T1Value, c)][i - n];
      }
    }
  }

  /** With timer 1 stopped (its schedule used up) one pass suffices, and
      the high half is the value timer 1 holds. */
  lemma Read64WhenHighStill(dev: Dev)
    requires dev.timer1.ticks == []
    ensures Read64(dev).0 == dev.timer1.value
    ensures |Read64(dev).2.log| == |dev.log| + 3
  {
    ReadTripleOutcome(dev);
  }

  method TimerGet64BitValue(t: AxiTimerPort) returns (v: uint64)
    modifies t
    ensures v == Compose64(Read64(old(t.dev)).0, Read64(old(t.dev)).1)
    ensures t.dev == Read64(old(t.dev)).2
  {
    ghost var d0 := t.dev;
    var high: uint32;
    var low: uint32;
    var highVerify: uint32;
    while true
      invariant Read64(t.dev) == Read64(d0)
      decreases |t.dev.timer1.ticks|
    {
      ghost var before := t.dev;
      high := t.Load(T1Value);
      low := t.Load(T0Value);
      highVerify := t.Load(T1Value);
      assert (high, low, highVerify, t.dev) == ReadTriple(before);
      ReadTripleOutcome(before);
      if high == highVerify {
        break;
      }
    }
    v := Compose64(high, low);
  }

  // ---------------------------------------------------------------------
  // Elapsed ticks and delay
  // ---------------------------------------------------------------------

  /** `current - start_value` in uint32 arithmetic. */
  function Elapsed(start: uint32, current: uint32): uint32
  {
    (current - start) % TWO_TO_32
  }

  /** `start + d` in uint32 arithmetic. */
  function Advance(start: uint32, d: uint32): uint32
  {
    (start + d) % TWO_TO_32
  }

  /** The subtraction undoes an advance of `d` ticks even across the
      wrap-around of the counter. */
  lemma ElapsedUndoesAdvance(start: uint32, d: uint32)
    ensures Elapsed(start, Advance(start, d)) == d
  {
  }

  /** A counter that has not wrapped since `start` shows the plain
      difference. */
  lemma ElapsedWithoutWrap(start: uint32, current: uint32)
    requires start <= current
    ensures Elapsed(start, current) == current - start
  {
  }

  method Timer0ElapsedTicks(t: AxiTimerPort, startValue: uint32) returns (e: uint32)
    modifies t
    ensures var x := LoadStep(old(t.dev), T0Value);
      t.dev == x.1 && e == Elapsed(startValue, x.0)
  {
    var current := GetValue(t, Timer0);
    e := Elapsed(startValue, current);
  }

  /** Timer 0's counter read: what it shows and the device afterwards. */
  function Poll(dev: Dev): (r: (uint32, Dev))
    ensures r.1.log == dev.log + [Read(T0Value, r.0)]
    ensures SameConfig(r.1, dev) && r.1.timer1 == dev.timer1
    ensures dev.timer0.ticks != [] ==> |r.1.timer0.ticks| < |dev.timer0.ticks|
  {
    LoadStep(dev, T0Value)
  }

  /** The busy wait of timer0_delay_ticks ends: some future TIMER0_VALUE
      read shows `delay` ticks elapsed since `start`. */
  predicate WaitEnds(dev: Dev, start: uint32, delay: uint32)
    decreases |dev.timer0.ticks|
  {
    var x := Poll(dev);
    Elapsed(start, x.0) >= delay || (dev.timer0.ticks != [] && WaitEnds(x.1, start, delay))
  }

  /** The busy wait: read TIMER0_VALUE until `delay` ticks have elapsed. */
  function Wait(dev: Dev, start: uint32, delay: uint32): Dev
    requires WaitEnds(dev, start, delay)
    decreases |dev.timer0.ticks|
  {
    var x := Poll(dev);
    if Elapsed(start, x.0) >= delay then x.1 else Wait(x.1, start, delay)
  }

  /** timer0_delay_ticks ends from `dev`. */
  predicate DelayEnds(dev: Dev, delay: uint32)
  {
    var x := Poll(dev);
    WaitEnds(x.1, x.0, delay)
  }

  /** timer0_delay_ticks: one read for the start, then the busy wait. */
  function DelayTicks(dev: Dev, delay: uint32): Dev
    requires DelayEnds(dev, delay)
  {
    var x := Poll(dev);
    Wait(x.1, x.0, delay)
  }

  /** What the busy wait is promised to do, given the device `d` it left:
      only TIMER0_VALUE reads, at least one; every one but the last shows
      less than `delay` ticks elapsed since `start`, the last at least
      `delay`. */
  predicate Waited(dev: Dev, start: uint32, delay: uint32, d: Dev)
  {
    var n := |dev.log|;
    var m := |d.log|;
    && n < m
    && d.log[..n] == dev.log
    && (forall i :: n <= i < m ==> d.log[i].Read? && d.log[i].reg == T0Value)
    && (forall i :: n <= i < m - 1 ==> Elapsed(start, d.log[i].value) < delay)
    && Elapsed(start, d.log[m - 1].value) >= delay
    && SameConfig(d, dev) && d.timer1 == dev.timer1
  }

  lemma {:induction false} WaitOutcome(dev: Dev, start: uint32, delay: uint32)
    requires WaitEnds(dev, start, delay)
    ensures Waited(dev, start, delay, Wait(dev, start, delay))
    decreases |dev.timer0.ticks|
  {
    var x := Poll(dev);
    if Elapsed(start, x.0) < delay {
      WaitOutcome(x.1, start, delay);
      WaitedAfterRead(dev, x.0, x.1, start, delay, Wait(x.1, start, delay));
    } else {
      WaitedOnce(dev, x.0, x.1, start, delay);
    }
  }

  /** A first read that already shows `delay` ticks ends the wait. */
  lemma WaitedOnce(dev: Dev, v: uint32, d: Dev, start: uint32, delay: uint32)
    requires d.log == dev.log + [Read(T0Value, v)]
    requires Elapsed(start, v) >= delay
    requires SameConfig(d, dev) && d.timer1 == dev.timer1
    ensures Waited(dev, start, delay, d)
  {
  }

  /** One read showing too few ticks followed by the rest of the wait is
      the wait. */
  lemma WaitedAfterRead(dev: Dev, v: uint32, d1: Dev, start: uint32, delay: uint32, d: Dev)
    requires d1.log == dev.log + [Read(T0Value, v)]
    requires Elapsed(start, v) < delay
    requires SameConfig(d1, dev) && d1.timer1 == dev.timer1
    requires Waited(d1, start, delay, d)
    ensures Waited(dev, start, delay, d)
  {
    var n := |dev.log|;
    assert d.log[..n] == d.log[..n + 1][..n];
    assert d.log[n] == d.log[..n + 1][n];
  }

  /** After timer0_delay_ticks the first new access is the TIMER0_VALUE
      read taken as the start, and the busy wait follows it. */
  lemma DelayTicksOutcome(dev: Dev, delay: uint32)
    requires DelayEnds(dev, delay)
    ensures var x := Poll(dev);
      var d := DelayTicks(dev, delay);
      && |d.log| > |dev.log| + 1
      && d.log[..|dev.log| + 1] == dev.log + [Read(T0Value, x.0)]
      && Waited(x.1, x.0, delay, d)
  {
    var x := Poll(dev);
    WaitOutcome(x.1, x.0, delay);
    var d := DelayTicks(dev, delay);
    assert d.log[..|dev.log| + 1] == d.log[..|x.1.log|];
  }

  /** A zero delay ends after the first poll: two reads in all. */
  lemma DelayZero(dev: Dev)
    ensures DelayEnds(dev, 0)
    ensures |DelayTicks(dev, 0).log| == |dev.log| + 2
  {
  }

  method Timer0DelayTicks(t: AxiTimerPort, delayTicks: uint32)
    requires DelayEnds(t.dev, delayTicks)
    modifies t
    ensures t.dev == DelayTicks(old(t.dev), delayTicks)
  {
    var start := GetValue(t, Timer0);
    ghost var d1 := t.dev;
    while true
      invariant WaitEnds(t.dev, start, delayTicks)
      invariant Wait(t.dev, start, delayTicks) == Wait(d1, start, delayTicks)
      decreases |t.dev.timer0.ticks|
    {
      ghost var before := t.dev;
      var e := Timer0ElapsedTicks(t, start);
      assert (e == Elapsed(start, Poll(before).0)) && t.dev == Poll(before).1;
      if !(e < delayTicks) {
        break;
      }
    }
  }
}

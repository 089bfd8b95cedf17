/** An abstract model of the UART register block that the two UART drivers
    talk to: six 32-bit registers over two hardware byte queues of depth 16.
    STATUS is derived from the queues and from the sticky error bits.  What
    the hardware does on its own (shifting a byte out, receiving a byte, a
    line error) is given as a schedule `env`; one scheduled event happens
    before each STATUS read, which models time passing between two polls.
    Every register access is appended to `log` together with the value read
    or written, so driver contracts can speak about the exact access
    sequence. */
module UartHw {
  import opened Common
  import opened UartRegs

  /** The six registers, in offset order. */
  datatype Reg = Status | InterruptEnable | Config | FifoClear | RxFifo | TxFifo

  function Offset(r: Reg): (off: bv32)
    ensures off % 4 == 0 && off < 0x18
  {
    match r
    case Status => UART_REG_STATUS
    case InterruptEnable => UART_REG_INTERRUPT_ENABLE
    case Config => UART_REG_CONFIG
    case FifoClear => UART_REG_FIFO_CLEAR
    case RxFifo => UART_REG_RX_FIFO
    case TxFifo => UART_REG_TX_FIFO
  }

  predicate IsRegOffset(off: bv32)
  {
    off % 4 == 0 && off < 0x18
  }

  /** The register at byte offset `off`, that is at word `off / 4` of the block. */
  function RegAt(off: bv32): (r: Reg)
    requires IsRegOffset(off)
    ensures Offset(r) == off
  {
    match off / 4
    case 0 => Status
    case 1 => InterruptEnable
    case 2 => Config
    case 3 => FifoClear
    case 4 => RxFifo
    case _ => TxFifo
  }

  /** Distinct registers are distinct words of the block. */
  lemma OffsetsAreDistinctWords(r1: Reg, r2: Reg)
    ensures Offset(r1) / 4 == Offset(r2) / 4 <==> r1 == r2
    ensures RegAt(Offset(r1)) == r1
  {
  }

  /** One register access as the bus sees it, with the value transferred. */
  datatype Access = Read(reg: Reg, value: bv32) | Write(reg: Reg, value: bv32)

  /** What the hardware does on its own between two STATUS polls. */
  datatype HwEvent =
    | Idle
    | Shift                                  // the transmitter takes the oldest TX byte
    | Arrive(data: bv8)                      // a byte arrives from the line
    | LineError(frame: bool, parity: bool)   // the receiver saw a bad frame or parity

  /** The device state.  `rxLevel` and `txLevel` are the fill levels at
      which the threshold flags assert; how the hardware derives them from
      the CONFIG threshold codes is its own business. */
  datatype Hw = Hw(
    ie: bv32,
    config: bv32,
    tx: seq<bv8>,
    rx: seq<bv8>,
    sticky: bv32,
    rxLevel: nat,
    txLevel: nat,
    env: seq<HwEvent>,
    wire: seq<bv8>,
    log: seq<Access>)

  /** Queues within their depth; sticky bits are error bits only. */
  predicate Valid(hw: Hw)
  {
    |hw.tx| <= UART_FIFO_DEPTH && |hw.rx| <= UART_FIFO_DEPTH
    && hw.sticky & !UART_STATUS_ERROR_MASK == 0
  }

  function Flag(b: bool, bit: bv32): bv32
  {
    if b then bit else 0
  }

  /** The value the STATUS register shows for a device state. */
  function StatusWord(hw: Hw): bv32
  {
    Flag(|hw.rx| == 0, UART_STATUS_RX_FIFO_EMPTY)
    | Flag(|hw.rx| >= hw.rxLevel, UART_STATUS_RX_FIFO_THRESHOLD)
    | Flag(|hw.rx| >= UART_FIFO_DEPTH, UART_STATUS_RX_FIFO_FULL)
    | Flag(|hw.tx| == 0, UART_STATUS_TX_FIFO_EMPTY)
    | Flag(|hw.tx| <= hw.txLevel, UART_STATUS_TX_FIFO_THRESHOLD)
    | Flag(|hw.tx| >= UART_FIFO_DEPTH, UART_STATUS_TX_FIFO_FULL)
    | (hw.sticky & UART_STATUS_ERROR_MASK)
  }

  /** Each STATUS flag tells the truth about the queues, and the error
      bits are exactly the sticky bits. */
  lemma StatusWordReflectsQueues(hw: Hw)
    ensures var w := StatusWord(hw);
      && (w & UART_STATUS_RX_FIFO_EMPTY != 0 <==> |hw.rx| == 0)
      && (w & UART_STATUS_RX_FIFO_THRESHOLD != 0 <==> |hw.rx| >= hw.rxLevel)
      && (w & UART_STATUS_RX_FIFO_FULL != 0 <==> |hw.rx| >= UART_FIFO_DEPTH)
      && (w & UART_STATUS_TX_FIFO_EMPTY != 0 <==> |hw.tx| == 0)
      && (w & UART_STATUS_TX_FIFO_THRESHOLD != 0 <==> |hw.tx| <= hw.txLevel)
      && (w & UART_STATUS_TX_FIFO_FULL != 0 <==> |hw.tx| >= UART_FIFO_DEPTH)
      && w & UART_STATUS_ERROR_MASK == hw.sticky & UART_STATUS_ERROR_MASK
  {
  }

  /** The next scheduled hardware event; with an empty schedule the device
      stays as it is. */
  function Step(hw: Hw): (h: Hw)
    ensures h.ie == hw.ie && h.config == hw.config && h.log == hw.log
    ensures h.rxLevel == hw.rxLevel && h.txLevel == hw.txLevel
    ensures hw.env == [] ==> h == hw
    ensures hw.env != [] ==> h.env == hw.env[1..]
    ensures |h.rx| <= |hw.rx| + 1 && |h.tx| <= |hw.tx|
    ensures hw.rx <= h.rx || (hw.env != [] && hw.env[0].Arrive? && h.rx == hw.rx + [hw.env[0].data])
  {
    if hw.env == [] then hw
    else
      var h := hw.(env := hw.env[1..]);
      match hw.env[0]
      case Idle => h
      case Shift =>
        if |hw.tx| == 0 then h else h.(tx := hw.tx[1..], wire := hw.wire + [hw.tx[0]])
      case Arrive(b) =>
        if |hw.rx| < UART_FIFO_DEPTH then h.(rx := hw.rx + [b])
        else h.(sticky := hw.sticky | UART_STATUS_RX_FIFO_OVERFLOW)
      case LineError(f, p) =>
        h.(sticky := hw.sticky | Flag(f, UART_STATUS_FRAME_ERROR) | Flag(p, UART_STATUS_PARITY_ERROR))
  }

  /** A register read: the value seen and the device afterwards.  Reading
      STATUS lets one hardware event happen first and then clears the sticky
      bits; reading RX_FIFO pops its oldest byte (an empty FIFO raises the
      RX underflow bit instead). */
  function LoadStep(hw: Hw, r: Reg): (res: (bv32, Hw))
    ensures res.1.log == hw.log + [Read(r, res.0)]
    ensures res.1.ie == hw.ie && res.1.config == hw.config
    ensures res.1.rxLevel == hw.rxLevel && res.1.txLevel == hw.txLevel
    ensures r == Status ==> res.0 == StatusWord(Step(hw)) && res.1.sticky == 0
                            && res.1.tx == Step(hw).tx && res.1.rx == Step(hw).rx
                            && res.1.env == Step(hw).env
    ensures r != Status ==> res.1.env == hw.env && res.1.tx == hw.tx
    ensures r == RxFifo && |hw.rx| > 0 ==> res.0 == hw.rx[0] as bv32 && res.1.rx == hw.rx[1..]
                                           && res.1.sticky == hw.sticky
    ensures r != Status && r != RxFifo ==> res.1 == hw.(log := res.1.log)
  {
    match r
    case Status =>
      var h := Step(hw);
      var v := StatusWord(h);
      (v, h.(sticky := 0, log := h.log + [Read(Status, v)]))
    case InterruptEnable => (hw.ie, hw.(log := hw.log + [Read(r, hw.ie)]))
    case Config => (hw.config, hw.(log := hw.log + [Read(r, hw.config)]))
    case FifoClear => (0, hw.(log := hw.log + [Read(r, 0)]))
    case RxFifo =>
      if |hw.rx| > 0 then
        (hw.rx[0] as bv32, hw.(rx := hw.rx[1..], log := hw.log + [Read(r, hw.rx[0] as bv32)]))
      else
        (0, hw.(sticky := hw.sticky | UART_STATUS_RX_FIFO_UNDERFLOW, log := hw.log + [Read(r, 0)]))
    case TxFifo => (0, hw.(log := hw.log + [Read(r, 0)]))
  }

  /** A register write.  FIFO_CLEAR empties the queues whose bits are set;
      TX_FIFO appends the low byte, or raises TX overflow when full; writes
      to the read-only registers have no effect. */
  function StoreStep(hw: Hw, r: Reg, v: bv32): (h: Hw)
    ensures h.log == hw.log + [Write(r, v)]
    ensures h.env == hw.env && h.rxLevel == hw.rxLevel && h.txLevel == hw.txLevel
    ensures h.ie == (if r == InterruptEnable then v else hw.ie)
    ensures h.config == (if r == Config then v else hw.config)
    ensures r == FifoClear ==> h.tx == (if v & UART_FIFO_CLEAR_TX != 0 then [] else hw.tx)
                               && h.rx == (if v & UART_FIFO_CLEAR_RX != 0 then [] else hw.rx)
    ensures r == TxFifo && |hw.tx| < UART_FIFO_DEPTH ==> h.tx == hw.tx + [LowByte(v)] && h.sticky == hw.sticky
    ensures r != FifoClear && r != TxFifo ==> h.tx == hw.tx && h.rx == hw.rx
    ensures r == TxFifo ==> h.rx == hw.rx
    ensures r != TxFifo ==> h.sticky == hw.sticky
  {
    var h := hw.(log := hw.log + [Write(r, v)]);
    match r
    case InterruptEnable => h.(ie := v)
    case Config => h.(config := v)
    case FifoClear =>
      h.(tx := if v & UART_FIFO_CLEAR_TX != 0 then [] else hw.tx,
         rx := if v & UART_FIFO_CLEAR_RX != 0 then [] else hw.rx)
    case TxFifo =>
      if |hw.tx| < UART_FIFO_DEPTH then h.(tx := hw.tx + [LowByte(v)])
      else h.(sticky := hw.sticky | UART_STATUS_TX_FIFO_OVERFLOW)
    case _ => h
  }

  /** No access can break the device invariant. */
  lemma AccessesPreserveValid(hw: Hw, r: Reg, v: bv32)
    requires Valid(hw)
    ensures Valid(Step(hw)) && Valid(LoadStep(hw, r).1) && Valid(StoreStep(hw, r, v))
  {
    StepPreservesValid(hw);
    LoadPreservesValid(hw, r);
    StorePreservesValid(hw, r, v);
  }

  lemma LoadPreservesValid(hw: Hw, r: Reg)
    requires Valid(hw)
    ensures Valid(LoadStep(hw, r).1)
  {
    if r == Status {
      StatusReadPreservesValid(hw);
    } else {
      OtherReadPreservesValid(hw, r);
    }
  }

  lemma StatusReadPreservesValid(hw: Hw)
    requires Valid(hw)
    ensures Valid(LoadStep(hw, Status).1)
  {
    StepPreservesValid(hw);
  }

  lemma OtherReadPreservesValid(hw: Hw, r: Reg)
    requires Valid(hw) && r != Status
    ensures Valid(LoadStep(hw, r).1)
  {
    if r == RxFifo && |hw.rx| == 0 {
      ErrorBitsStayErrorBits(hw.sticky, UART_STATUS_RX_FIFO_UNDERFLOW);
    } else {
      assert LoadStep(hw, r).1.sticky == hw.sticky;
    }
  }

  lemma StorePreservesValid(hw: Hw, r: Reg, v: bv32)
    requires Valid(hw)
    ensures Valid(StoreStep(hw, r, v))
  {
    if r == TxFifo {
      TxWritePreservesValid(hw, v);
    }
  }

  lemma TxWritePreservesValid(hw: Hw, v: bv32)
    requires Valid(hw)
    ensures Valid(StoreStep(hw, TxFifo, v))
  {
    if |hw.tx| >= UART_FIFO_DEPTH {
      ErrorBitsStayErrorBits(hw.sticky, UART_STATUS_TX_FIFO_OVERFLOW);
    }
  }

  lemma StepPreservesValid(hw: Hw)
    requires Valid(hw)
    ensures Valid(Step(hw))
  {
    if hw.env != [] {
      match hw.env[0]
      case Arrive(_) =>
        ArrivePreservesValid(hw);
      case LineError(f, p) =>
        LineErrorPreservesValid(hw, f, p);
      case _ =>
        assert Step(hw).sticky == hw.sticky;
    }
  }

  lemma ArrivePreservesValid(hw: Hw)
    requires Valid(hw) && hw.env != [] && hw.env[0].Arrive?
    ensures Valid(Step(hw))
  {
    if |hw.rx| >= UART_FIFO_DEPTH {
      ErrorBitsStayErrorBits(hw.sticky, UART_STATUS_RX_FIFO_OVERFLOW);
    }
  }

  lemma LineErrorPreservesValid(hw: Hw, f: bool, p: bool)
    requires Valid(hw) && hw.env != [] && hw.env[0] == LineError(f, p)
    ensures Valid(Step(hw))
  {
    var m := Flag(f, UART_STATUS_FRAME_ERROR) | Flag(p, UART_STATUS_PARITY_ERROR);
    ErrorBitsStayErrorBits(hw.sticky, m);
    assert Step(hw).sticky == hw.sticky | m;
  }

  lemma ErrorBitsStayErrorBits(s: bv32, m: bv32)
    requires s & !UART_STATUS_ERROR_MASK == 0 && m & !UART_STATUS_ERROR_MASK == 0
    ensures (s | m) & !UART_STATUS_ERROR_MASK == 0
  {
  }

  /** The bytes the log shows written to TX_FIFO, in order. */
  function TxPushes(log: seq<Access>): (s: seq<bv8>)
    ensures |s| <= |log|
  {
    if log == [] then []
    else TxPushes(log[..|log| - 1]) + TxPushOf(log[|log| - 1])
  }

  function TxPushOf(a: Access): seq<bv8>
  {
    if a.Write? && a.reg == TxFifo then [LowByte(a.value)] else []
  }

  /** The low bytes the log shows read from RX_FIFO, in order. */
  function RxPops(log: seq<Access>): (s: seq<bv8>)
    ensures |s| <= |log|
  {
    if log == [] then []
    else RxPops(log[..|log| - 1]) + RxPopOf(log[|log| - 1])
  }

  function RxPopOf(a: Access): seq<bv8>
  {
    if a.Read? && a.reg == RxFifo then [LowByte(a.value)] else []
  }

  lemma {:induction false} TxPushesAppend(a: seq<Access>, b: seq<Access>)
    ensures TxPushes(a + b) == TxPushes(a) + TxPushes(b)
    decreases |b|
  {
    if b == [] {
      assert a + b == a;
    } else {
      var b' := b[..|b| - 1];
      assert (a + b)[..|a + b| - 1] == a + b';
      assert b[..|b| - 1] == b';
      TxPushesAppend(a, b');
    }
  }

  lemma {:induction false} RxPopsAppend(a: seq<Access>, b: seq<Access>)
    ensures RxPops(a + b) == RxPops(a) + RxPops(b)
    decreases |b|
  {
    if b == [] {
      assert a + b == a;
    } else {
      var b' := b[..|b| - 1];
      assert (a + b)[..|a + b| - 1] == a + b';
      assert b[..|b| - 1] == b';
      RxPopsAppend(a, b');
    }
  }

  /** The three STATUS conditions the drivers wait for. */
  datatype Wait =
    | TxRoom      // TX FIFO full is clear
    | RxData      // RX FIFO empty is clear
    | TxDrained   // TX FIFO empty is set

  /** Whether the STATUS value `st` shows the condition. */
  function Ready(c: Wait, st: bv32): bool
  {
    match c
    case TxRoom => st & UART_STATUS_TX_FIFO_FULL == 0
    case RxData => st & UART_STATUS_RX_FIFO_EMPTY == 0
    case TxDrained => st & UART_STATUS_TX_FIFO_EMPTY != 0
  }

  /** What the condition means for the queues. */
  predicate Holds(c: Wait, h: Hw)
  {
    match c
    case TxRoom => |h.tx| < UART_FIFO_DEPTH
    case RxData => |h.rx| > 0
    case TxDrained => |h.tx| == 0
  }

  /** `a` is a STATUS read that shows `c` exactly when `ready`. */
  predicate Shows(a: Access, c: Wait, ready: bool)
  {
    a.Read? && a.reg == Status && Ready(c, a.value) == ready
  }

  /** Every access in `s` is a STATUS read that shows `c` exactly when `ready`. */
  predicate Polls(s: seq<Access>, c: Wait, ready: bool)
  {
    forall i :: 0 <= i < |s| ==> Shows(s[i], c, ready)
  }

  /** STATUS reads move no byte through either FIFO. */
  lemma {:induction false} PollsMoveNoData(s: seq<Access>, c: Wait, ready: bool)
    requires Polls(s, c, ready)
    ensures TxPushes(s) == [] && RxPops(s) == []
    decreases |s|
  {
    if s != [] {
      PollsMoveNoData(s[..|s| - 1], c, ready);
    }
  }

  /** One STATUS read: whether it shows `c`, and the device afterwards. */
  function StatusTest(hw: Hw, c: Wait): (bool, Hw)
  {
    var (st, h) := LoadStep(hw, Status);
    (Ready(c, st), h)
  }

  /** Reads STATUS until it shows `c`, at most `left` times; the result
      says whether it did. */
  function PollStatus(hw: Hw, c: Wait, left: nat): (bool, Hw)
    requires left >= 1
    decreases left
  {
    var (b, h) := StatusTest(hw, c);
    if b then (true, h)
    else if left == 1 then (false, h)
    else PollStatus(h, c, left - 1)
  }

  /** Some STATUS read, in the schedule's own time, shows `c`.  Once the
      schedule is used up the device no longer changes, so this is exactly
      the condition under which an unbounded poll returns. */
  predicate Eventually(hw: Hw, c: Wait)
    decreases |hw.env|
  {
    var (b, h) := StatusTest(hw, c);
    b || (hw.env != [] && Eventually(h, c))
  }

  /** Reads STATUS until it shows `c`, with no bound. */
  function PollUntil(hw: Hw, c: Wait): Hw
    requires Eventually(hw, c)
    decreases |hw.env|
  {
    var (b, h) := StatusTest(hw, c);
    if b then h else PollUntil(h, c)
  }

  /** The accesses a poll appended to `before`: STATUS reads not showing
      `c`, then one final STATUS read. */
  predicate PollLog(before: seq<Access>, after: seq<Access>, c: Wait)
  {
    && |before| < |after|
    && after[..|before|] == before
    && Polls(after[|before|..|after| - 1], c, false)
    && after[|after| - 1].Read? && after[|after| - 1].reg == Status
  }

  /** The state a poll leaves: only the queues, the schedule and the
      sticky bits (now clear) may differ. */
  predicate PollState(before: Hw, after: Hw)
  {
    && after.ie == before.ie && after.config == before.config && after.sticky == 0
    && after.rxLevel == before.rxLevel && after.txLevel == before.txLevel
  }

  /** One STATUS read appends exactly that read, and what it shows holds
      of the queues. */
  lemma OneReadOutcome(hw: Hw, c: Wait)
    ensures var (b, h) := StatusTest(hw, c);
      && |h.log| == |hw.log| + 1 && h.log[..|hw.log|] == hw.log
      && Shows(h.log[|hw.log|], c, b)
      && PollState(hw, h) && (b <==> Holds(c, h))
  {
    StatusWordReflectsQueues(Step(hw));
  }

  /** What a bounded poll for `c` with `left` reads is promised to do
      from `hw`, given whether it succeeded (`ok`) and the device `h` it
      left: it appended between one and `left` STATUS reads; all but the
      last do not show `c`; the last shows it exactly when the poll
      succeeded; a failed poll used all `left` reads.  After a success the
      queues are in the state `c` describes. */
  predicate Polled(hw: Hw, c: Wait, left: nat, ok: bool, h: Hw)
  {
    && PollLog(hw.log, h.log, c) && |h.log| <= |hw.log| + left
    && (Ready(c, h.log[|h.log| - 1].value) <==> ok)
    && (!ok ==> |h.log| == |hw.log| + left)
    && PollState(hw, h) && (ok ==> Holds(c, h))
  }

  lemma {:induction false} PollStatusOutcome(hw: Hw, c: Wait, left: nat)
    requires left >= 1
    ensures Polled(hw, c, left, PollStatus(hw, c, left).0, PollStatus(hw, c, left).1)
    decreases left
  {
    OneReadOutcome(hw, c);
    var r := StatusTest(hw, c);
    if r.0 || left == 1 {
      FirstReadPolled(hw, c, left, r.0, r.1);
    } else {
      PollStatusOutcome(r.1, c, left - 1);
      var q := PollStatus(r.1, c, left - 1);
      PolledAfterMiss(hw, r.1, c, left, q.0, q.1);
    }
  }

  /** A poll that stops at its first read. */
  lemma FirstReadPolled(hw: Hw, c: Wait, left: nat, b: bool, h: Hw)
    requires left >= 1 && (!b ==> left == 1)
    requires |h.log| == |hw.log| + 1 && h.log[..|hw.log|] == hw.log
    requires Shows(h.log[|hw.log|], c, b) && PollState(hw, h) && (b <==> Holds(c, h))
    ensures Polled(hw, c, left, b, h)
  {
    assert h.log[|hw.log|..|h.log| - 1] == [];
  }

  /** A read not showing `c` followed by a poll is a poll with one more
      read. */
  lemma PolledAfterMiss(hw: Hw, h1: Hw, c: Wait, left: nat, ok: bool, h: Hw)
    requires left > 1
    requires |h1.log| == |hw.log| + 1 && h1.log[..|hw.log|] == hw.log
    requires Shows(h1.log[|hw.log|], c, false) && PollState(hw, h1)
    requires Polled(h1, c, left - 1, ok, h)
    ensures Polled(hw, c, left, ok, h)
  {
    PollLogExtends(hw.log, h1.log, h.log, c);
  }

  /** What an unbounded poll for `c` is promised to do from `hw`, given
      the device `h` it left: it appended STATUS reads not showing `c`,
      then one showing it, and left the queues in the state `c`
      describes. */
  predicate PolledUntil(hw: Hw, c: Wait, h: Hw)
  {
    && PollLog(hw.log, h.log, c)
    && Ready(c, h.log[|h.log| - 1].value)
    && PollState(hw, h) && Holds(c, h)
  }

  lemma {:induction false} PollUntilOutcome(hw: Hw, c: Wait)
    requires Eventually(hw, c)
    ensures PolledUntil(hw, c, PollUntil(hw, c))
    decreases |hw.env|
  {
    OneReadOutcome(hw, c);
    var r := StatusTest(hw, c);
    if r.0 {
      FirstReadPolled(hw, c, 1, true, r.1);
    } else {
      PollUntilOutcome(r.1, c);
      UntilAfterMiss(hw, r.1, c, PollUntil(r.1, c));
    }
  }

  lemma UntilAfterMiss(hw: Hw, h1: Hw, c: Wait, h: Hw)
    requires |h1.log| == |hw.log| + 1 && h1.log[..|hw.log|] == hw.log
    requires Shows(h1.log[|hw.log|], c, false) && PollState(hw, h1)
    requires PolledUntil(h1, c, h)
    ensures PolledUntil(hw, c, h)
  {
    PollLogExtends(hw.log, h1.log, h.log, c);
  }

  /** A STATUS read not showing `c` followed by a poll is a poll. */
  lemma PollLogExtends(l0: seq<Access>, l1: seq<Access>, l2: seq<Access>, c: Wait)
    requires |l1| == |l0| + 1 && l1[..|l0|] == l0
    requires Shows(l1[|l0|], c, false)
    requires PollLog(l1, l2, c)
    ensures PollLog(l0, l2, c)
  {
    assert l2[..|l0|] == l1[..|l0|];
    var s := l2[|l0|..|l2| - 1];
    var t := l2[|l1|..|l2| - 1];
    forall i | 0 <= i < |s|
      ensures Shows(s[i], c, false)
    {
      if i > 0 {
        assert s[i] == t[i - 1];
      }
    }
  }

  /** Appending one access extends the byte views by what that access moved. */
  lemma LogAppend(log: seq<Access>, a: Access)
    ensures TxPushes(log + [a]) == TxPushes(log) + TxPushOf(a)
    ensures RxPops(log + [a]) == RxPops(log) + RxPopOf(a)
  {
    assert (log + [a])[..|log|] == log;
  }

  /** A poll moves no byte through either FIFO. */
  lemma PollLogMovesNoData(before: seq<Access>, after: seq<Access>, c: Wait)
    requires PollLog(before, after, c)
    ensures TxPushes(after) == TxPushes(before) && RxPops(after) == RxPops(before)
  {
    var mid := after[|before|..|after| - 1];
    var last := after[|after| - 1];
    assert after == before + mid + [last];
    PollsMoveNoData(mid, c, false);
    TxPushesAppend(before, mid);
    RxPopsAppend(before, mid);
    LogAppend(before + mid, last);
  }

  /** A poll whose last read did not show `c` consists of reads not showing `c`. */
  lemma FailedPollLog(before: seq<Access>, after: seq<Access>, c: Wait)
    requires PollLog(before, after, c) && !Ready(c, after[|after| - 1].value)
    ensures Polls(after[|before|..], c, false)
  {
    var s := after[|before|..];
    var mid := after[|before|..|after| - 1];
    forall i | 0 <= i < |s|
      ensures Shows(s[i], c, false)
    {
      if i < |mid| {
        assert s[i] == mid[i];
      }
    }
  }

  /** The accesses appended to `before` are all reads: no register was
      written. */
  predicate ReadsOnly(before: seq<Access>, after: seq<Access>)
  {
    && before <= after
    && forall i :: |before| <= i < |after| ==> after[i].Read?
  }

  /** A poll writes no register. */
  lemma PollLogReadsOnly(before: seq<Access>, after: seq<Access>, c: Wait)
    requires PollLog(before, after, c)
    ensures ReadsOnly(before, after)
  {
    var mid := after[|before|..|after| - 1];
    forall i | |before| <= i < |after|
      ensures after[i].Read?
    {
      if i < |after| - 1 {
        assert after[i] == mid[i - |before|];
      }
    }
  }

  /** Reads followed by reads are reads. */
  lemma ReadsOnlyTrans(a: seq<Access>, b: seq<Access>, c: seq<Access>)
    requires ReadsOnly(a, b) && ReadsOnly(b, c)
    ensures ReadsOnly(a, c)
  {
    forall i | |a| <= i < |c|
      ensures c[i].Read?
    {
      if i < |b| {
        assert c[i] == b[i];
      }
    }
  }

  /** The memory-mapped register block at one base address. */
  class UartPort {
    var hw: Hw

    constructor (initial: Hw)
      ensures hw == initial
    {
      hw := initial;
    }

    /** A volatile 32-bit load from the register `r`. */
    method Load(r: Reg) returns (v: bv32)
      modifies this
      ensures (v, hw) == LoadStep(old(hw), r)
    {
      var res := LoadStep(hw, r);
      v, hw := res.0, res.1;
    }

    /** A volatile 32-bit store of `v` to the register `r`. */
    method Store(r: Reg, v: bv32)
      modifies this
      ensures hw == StoreStep(old(hw), r, v)
    {
      hw := StoreStep(hw, r, v);
    }
  }
}

/** The minimal UART driver of the simulation firmware
    (sw/hello_world_sim/uart.c).  It drives the same register block as the
    full driver but keeps no configuration, writes the control registers
    verbatim and spins without a timeout: putc waits for room in the TX
    FIFO and getc for data in the RX FIFO for as long as it takes.  Such a
    spin ends only if the device eventually shows the condition, so those
    routines take that fairness condition (`Eventually`) as a
    precondition. */
module UartSim {
  import opened Common
  import opened UartRegs
  import opened UartHw
  import UartTransfer

  /** uart_t: only the base address of the register block. */
  class SimUart {
    var base: UartPort?

    /** Storage for a handle, not yet bound. */
    constructor ()
      ensures base == null
    {
      base := null;
    }
  }

  /** uart_init: binds the handle to a register block without a register
      access (the block is not in the frame). */
  method Init(dev: SimUart, port: UartPort)
    modifies dev
    ensures dev.base == port
  {
    dev.base := port;
  }

  /** reg_read: the word at byte offset `offset` of the block. */
  method RegRead(dev: SimUart, offset: bv32) returns (v: bv32)
    requires dev.base != null && IsRegOffset(offset)
    modifies dev.base
    ensures (v, dev.base.hw) == LoadStep(old(dev.base.hw), RegAt(offset))
  {
    v := dev.base.Load(RegAt(offset));
  }

  /** reg_write: stores `val` to the word at byte offset `offset`. */
  method RegWrite(dev: SimUart, offset: bv32, val: bv32)
    requires dev.base != null && IsRegOffset(offset)
    modifies dev.base
    ensures dev.base.hw == StoreStep(old(dev.base.hw), RegAt(offset), val)
  {
    dev.base.Store(RegAt(offset), val);
  }

  /** uart_configure: CONFIG gets `config` as it is; unlike the full
      driver, no STATUS read follows, so the sticky error bits stay. */
  method Configure(dev: SimUart, config: bv32)
    requires dev.base != null
    modifies dev.base
    ensures dev.base.hw == StoreStep(old(dev.base.hw), Config, config)
    ensures dev.base.hw.config == config && dev.base.hw.sticky == old(dev.base.hw.sticky)
  {
    RegWrite(dev, UART_REG_CONFIG, config);
  }

  /** uart_get_status: one STATUS read. */
  method GetStatus(dev: SimUart) returns (status: bv32)
    requires dev.base != null
    modifies dev.base
    ensures (status, dev.base.hw) == LoadStep(old(dev.base.hw), Status)
  {
    status := RegRead(dev, UART_REG_STATUS);
  }

  /** The IE value uart_enable_interrupts writes: the requested sources and
      the global enable, and no other bit, whatever was enabled before. */
  function EnableValue(mask: bv32): (v: bv32)
    ensures v & UART_IE_GLOBAL != 0
    ensures v & !UART_IE_GLOBAL == mask & !UART_IE_GLOBAL
  {
    mask | UART_IE_GLOBAL
  }

  method EnableInterrupts(dev: SimUart, mask: bv32)
    requires dev.base != null
    modifies dev.base
    ensures dev.base.hw == StoreStep(old(dev.base.hw), InterruptEnable, EnableValue(mask))
  {
    RegWrite(dev, UART_REG_INTERRUPT_ENABLE, mask | UART_IE_GLOBAL);
  }

  /** uart_disable_interrupts: IE is cleared entirely, global enable
      included. */
  method DisableInterrupts(dev: SimUart)
    requires dev.base != null
    modifies dev.base
    ensures dev.base.hw == StoreStep(old(dev.base.hw), InterruptEnable, 0)
  {
    RegWrite(dev, UART_REG_INTERRUPT_ENABLE, 0);
  }

  /** uart_fifo_clear: FIFO_CLEAR gets `fifos` as it is. */
  method FifoClear(dev: SimUart, fifos: bv32)
    requires dev.base != null
    modifies dev.base
    ensures dev.base.hw == StoreStep(old(dev.base.hw), Reg.FifoClear, fifos)
  {
    RegWrite(dev, UART_REG_FIFO_CLEAR, fifos);
  }

  // ---------------------------------------------------------------------
  // Blocking byte transfer
  // ---------------------------------------------------------------------

  /** uart_putc: read STATUS until TX FIFO full is clear, then write the
      byte to TX_FIFO. */
  function SimPutc(hw: Hw, data: bv8): Hw
    requires Eventually(hw, TxRoom)
  {
    StoreStep(PollUntil(hw, TxRoom), TxFifo, data as bv32)
  }

  /** What a put of `data` is promised to do from `hw`, given the device
      `h` it left: exactly `data` is queued for transmission, as the newest
      TX byte, no RX byte is taken, and IE and CONFIG stay. */
  predicate PutDone(hw: Hw, data: bv8, h: Hw)
  {
    && hw.log < h.log
    && TxPushes(h.log) == TxPushes(hw.log) + [data]
    && RxPops(h.log) == RxPops(hw.log)
    && |h.tx| > 0 && h.tx[|h.tx| - 1] == data
    && h.ie == hw.ie && h.config == hw.config
  }

  lemma SimPutcOutcome(hw: Hw, data: bv8)
    requires Eventually(hw, TxRoom)
    ensures PutDone(hw, data, SimPutc(hw, data))
  {
    PollUntilOutcome(hw, TxRoom);
    PutAfterRoom(hw, PollUntil(hw, TxRoom), data);
  }

  /** A poll that found room, followed by the write of `data`, is a put. */
  lemma PutAfterRoom(hw: Hw, p: Hw, data: bv8)
    requires PolledUntil(hw, TxRoom, p)
    ensures PutDone(hw, data, StoreStep(p, TxFifo, data as bv32))
  {
    PollLogMovesNoData(hw.log, p.log, TxRoom);
    LogAppend(p.log, Access.Write(TxFifo, data as bv32));
    LowByteOfByte(data);
  }

  /** uart_getc: read STATUS until RX FIFO empty is clear, then read
      RX_FIFO and take its low byte. */
  function SimGetc(hw: Hw): (bv8, Hw)
    requires Eventually(hw, RxData)
  {
    var (v, h) := LoadStep(PollUntil(hw, RxData), RxFifo);
    (LowByte(v), h)
  }

  /** What a get is promised to do from `hw`, given the state `p` its poll
      ended in, the byte `b` it returned and the device `h` it left: `b`
      is the oldest byte of the RX FIFO, which loses it, and no TX byte is
      written. */
  predicate GetDone(hw: Hw, p: Hw, b: bv8, h: Hw)
  {
    && hw.log < h.log
    && TxPushes(h.log) == TxPushes(hw.log)
    && RxPops(h.log) == RxPops(hw.log) + [b]
    && |p.rx| > 0 && b == p.rx[0] && h.rx == p.rx[1..]
    && h.ie == hw.ie && h.config == hw.config
  }

  lemma SimGetcOutcome(hw: Hw)
    requires Eventually(hw, RxData)
    ensures GetDone(hw, PollUntil(hw, RxData), SimGetc(hw).0, SimGetc(hw).1)
  {
    PollUntilOutcome(hw, RxData);
    GetAfterData(hw, PollUntil(hw, RxData));
  }

  /** A poll that found data, followed by a read of RX_FIFO, is a get. */
  lemma GetAfterData(hw: Hw, p: Hw)
    requires PolledUntil(hw, RxData, p)
    ensures GetDone(hw, p, LowByte(LoadStep(p, RxFifo).0), LoadStep(p, RxFifo).1)
  {
    PollLogMovesNoData(hw.log, p.log, RxData);
    var (v, h) := LoadStep(p, RxFifo);
    LogAppend(p.log, Access.Read(RxFifo, v));
    LowByteOfByte(p.rx[0]);
  }

  method Putc(dev: SimUart, data: bv8)
    requires dev.base != null && Eventually(dev.base.hw, TxRoom)
    modifies dev.base
    ensures dev.base.hw == SimPutc(old(dev.base.hw), data)
  {
    ghost var hw0 := dev.base.hw;
    while true
      invariant Eventually(dev.base.hw, TxRoom)
      invariant PollUntil(hw0, TxRoom) == PollUntil(dev.base.hw, TxRoom)
      decreases |dev.base.hw.env|
    {
      var status := RegRead(dev, UART_REG_STATUS);
      if status & UART_STATUS_TX_FIFO_FULL == 0 {
        break;
      }
    }
    RegWrite(dev, UART_REG_TX_FIFO, data as bv32);
  }

  method Getc(dev: SimUart) returns (b: bv8)
    requires dev.base != null && Eventually(dev.base.hw, RxData)
    modifies dev.base
    ensures (b, dev.base.hw) == SimGetc(old(dev.base.hw))
  {
    ghost var hw0 := dev.base.hw;
    while true
      invariant Eventually(dev.base.hw, RxData)
      invariant PollUntil(hw0, RxData) == PollUntil(dev.base.hw, RxData)
      decreases |dev.base.hw.env|
    {
      var status := RegRead(dev, UART_REG_STATUS);
      if status & UART_STATUS_RX_FIFO_EMPTY == 0 {
        break;
      }
    }
    var v := RegRead(dev, UART_REG_RX_FIFO);
    b := LowByte(v);
  }

  // ---------------------------------------------------------------------
  // Buffers
  // ---------------------------------------------------------------------

  /** Every put of a write of `data` from `hw` eventually finds room. */
  predicate CanWrite(hw: Hw, data: seq<bv8>)
    decreases |data|
  {
    data == [] || (Eventually(hw, TxRoom) && CanWrite(SimPutc(hw, data[0]), data[1..]))
  }

  /** uart_write: put the bytes one by one. */
  function SimWrite(hw: Hw, data: seq<bv8>): Hw
    requires CanWrite(hw, data)
    decreases |data|
  {
    if data == [] then hw else SimWrite(SimPutc(hw, data[0]), data[1..])
  }

  /** A write queues all of `data`, in order, and nothing else; it takes no
      RX byte and leaves IE and CONFIG alone. */
  predicate WriteDone(hw: Hw, data: seq<bv8>, h: Hw)
  {
    && hw.log <= h.log
    && TxPushes(h.log) == TxPushes(hw.log) + data
    && RxPops(h.log) == RxPops(hw.log)
    && h.ie == hw.ie && h.config == hw.config
  }

  lemma {:induction false} SimWriteOutcome(hw: Hw, data: seq<bv8>)
    requires CanWrite(hw, data)
    ensures WriteDone(hw, data, SimWrite(hw, data))
    decreases |data|
  {
    if data != [] {
      SimPutcOutcome(hw, data[0]);
      var h1 := SimPutc(hw, data[0]);
      SimWriteOutcome(h1, data[1..]);
      WriteAfterPut(hw, h1, SimWrite(h1, data[1..]), data);
    }
  }

  /** A put of the first byte followed by a write of the rest is a write. */
  lemma WriteAfterPut(hw: Hw, h1: Hw, h: Hw, data: seq<bv8>)
    requires data != []
    requires PutDone(hw, data[0], h1) && WriteDone(h1, data[1..], h)
    ensures WriteDone(hw, data, h)
  {
    AppendAssoc(TxPushes(hw.log), [data[0]], data[1..]);
    assert [data[0]] + data[1..] == data;
  }

  /** A get as a value: the byte and the device afterwards, or None when
      the spin for data never ends. */
  type SimGet = Hw -> Option<(bv8, Hw)>

  /** uart_getc as a value. */
  function SimGetter(): SimGet
  {
    hw => if Eventually(hw, RxData) then Some(SimGetc(hw)) else None
  }

  /** `get` is uart_getc.  Reads are stated over such a `get`, so that
      reasoning about them does not unfold the device model. */
  ghost predicate IsSimGetter(get: SimGet)
  {
    forall hw {:trigger get(hw)} :: get(hw) == if Eventually(hw, RxData) then Some(SimGetc(hw)) else None
  }

  lemma SimGetterIsGetc()
    ensures IsSimGetter(SimGetter())
  {
  }

  /** Every get of a read of `n` bytes from `hw` returns. */
  predicate CanRead(get: SimGet, hw: Hw, n: nat)
    decreases n
  {
    n == 0 || (get(hw).Some? && CanRead(get, get(hw).value.1, n - 1))
  }

  /** uart_read: `n` gets, the bytes in order. */
  function SimRead(get: SimGet, hw: Hw, n: nat): (r: (seq<bv8>, Hw))
    requires CanRead(get, hw, n)
    ensures |r.0| == n
    decreases n
  {
    if n == 0 then ([], hw)
    else
      var g := get(hw).value;
      var rest := SimRead(get, g.1, n - 1);
      ([g.0] + rest.0, rest.1)
  }

  /** A read returns exactly `n` bytes, and they are the ones it took from
      the RX FIFO, in order; it writes no TX byte and leaves IE and CONFIG
      alone. */
  predicate ReadDone(hw: Hw, n: nat, bytes: seq<bv8>, h: Hw)
  {
    && |bytes| == n
    && hw.log <= h.log
    && RxPops(h.log) == RxPops(hw.log) + bytes
    && TxPushes(h.log) == TxPushes(hw.log)
    && h.ie == hw.ie && h.config == hw.config
  }

  /** One get is a read of one byte. */
  predicate GetReads(get: SimGet, hw: Hw)
  {
    get(hw).Some? ==> ReadDone(hw, 1, [get(hw).value.0], get(hw).value.1)
  }

  lemma SimGetterReads()
    ensures forall hw :: GetReads(SimGetter(), hw)
  {
    forall hw | Eventually(hw, RxData)
      ensures ReadDone(hw, 1, [SimGetc(hw).0], SimGetc(hw).1)
    {
      SimGetcOutcome(hw);
      OneGetReads(hw, PollUntil(hw, RxData), SimGetc(hw).0, SimGetc(hw).1);
    }
  }

  lemma OneGetReads(hw: Hw, p: Hw, b: bv8, h: Hw)
    requires GetDone(hw, p, b, h)
    ensures ReadDone(hw, 1, [b], h)
  {
  }

  /** uart_read does what `ReadDone` says. */
  lemma SimReadOutcome(hw: Hw, n: nat)
    requires CanRead(SimGetter(), hw, n)
    ensures ReadDone(hw, n, SimRead(SimGetter(), hw, n).0, SimRead(SimGetter(), hw, n).1)
  {
    SimGetterReads();
    ReadWithOutcome(SimGetter(), hw, n);
  }

  lemma {:induction false} ReadWithOutcome(get: SimGet, hw: Hw, n: nat)
    requires forall h :: GetReads(get, h)
    requires CanRead(get, hw, n)
    ensures ReadDone(hw, n, SimRead(get, hw, n).0, SimRead(get, hw, n).1)
    decreases n
  {
    if n > 0 {
      assert GetReads(get, hw);
      var g := get(hw).value;
      ReadWithOutcome(get, g.1, n - 1);
      var rest := SimRead(get, g.1, n - 1);
      ReadAfterGet(hw, g.1, rest.1, g.0, rest.0, n);
    }
  }

  /** A get followed by a read of the rest is a read. */
  lemma ReadAfterGet(hw: Hw, h1: Hw, h: Hw, b: bv8, rest: seq<bv8>, n: nat)
    requires n > 0
    requires ReadDone(hw, 1, [b], h1) && ReadDone(h1, n - 1, rest, h)
    ensures ReadDone(hw, n, [b] + rest, h)
  {
    AppendAssoc(RxPops(hw.log), [b], rest);
  }

  /** The loop of uart_write over the first `len` bytes of `buf`. */
  method Write(dev: SimUart, buf: seq<bv8>, len: nat)
    requires dev.base != null && len <= |buf| && CanWrite(dev.base.hw, buf[..len])
    modifies dev.base
    ensures dev.base.hw == SimWrite(old(dev.base.hw), buf[..len])
  {
    ghost var hw0 := dev.base.hw;
    ghost var d := buf[..len];
    for i := 0 to len
      invariant CanWrite(dev.base.hw, d[i..])
      invariant SimWrite(hw0, d) == SimWrite(dev.base.hw, d[i..])
    {
      assert d[i..][0] == buf[i] && d[i..][1..] == d[i + 1..];
      Putc(dev, buf[i]);
    }
    assert d[len..] == [];
  }

  /** `states` is the run of `bytes` gets: the k-th get, from
      `states[k]`, is defined, returns `bytes[k]` and leaves `states[k + 1]`. */
  predicate GetsAlong(get: SimGet, states: seq<Hw>, bytes: seq<bv8>)
  {
    && |states| == |bytes| + 1
    && forall k :: 0 <= k < |bytes| ==> get(states[k]) == Some((bytes[k], states[k + 1]))
  }

  /** The run of gets a read makes. */
  lemma {:induction false} SimReadTrace(get: SimGet, hw: Hw, n: nat) returns (states: seq<Hw>)
    requires CanRead(get, hw, n)
    ensures GetsAlong(get, states, SimRead(get, hw, n).0)
    ensures states[0] == hw && states[n] == SimRead(get, hw, n).1
    decreases n
  {
    if n == 0 {
      states := [hw];
    } else {
      var g := get(hw).value;
      var rest := SimReadTrace(get, g.1, n - 1);
      states := [hw] + rest;
      TraceAfterGet(get, hw, rest, SimRead(get, g.1, n - 1).0);
    }
  }

  /** A get from `hw` followed by the run of the rest is the run of all. */
  lemma TraceAfterGet(get: SimGet, hw: Hw, rest: seq<Hw>, bytes: seq<bv8>)
    requires get(hw).Some? && GetsAlong(get, rest, bytes) && rest[0] == get(hw).value.1
    ensures GetsAlong(get, [hw] + rest, [get(hw).value.0] + bytes)
  {
    var states := [hw] + rest;
    var all := [get(hw).value.0] + bytes;
    forall k | 0 <= k < |all|
      ensures get(states[k]) == Some((all[k], states[k + 1]))
    {
      if k > 0 {
        assert states[k] == rest[k - 1] && states[k + 1] == rest[k] && all[k] == bytes[k - 1];
      }
    }
  }

  /** The loop of uart_read along the run of gets it makes: `buf[i] =
      uart_getc(dev)` for each of the first `len` places of `buf`. */
  method ReadLoop(dev: SimUart, buf: array<bv8>, len: nat, ghost get: SimGet,
                  ghost bytes: seq<bv8>, ghost states: seq<Hw>)
    requires dev.base != null && len <= buf.Length && IsSimGetter(get)
    requires |bytes| == len && GetsAlong(get, states, bytes) && dev.base.hw == states[0]
    modifies dev.base, buf
    ensures dev.base.hw == states[len] && buf[..] == bytes + old(buf[len..])
  {
    for i := 0 to len
      invariant dev.base.hw == states[i]
      invariant buf[..] == bytes[..i] + old(buf[i..])
    {
      assert get(states[i]) == Some((bytes[i], states[i + 1]));
      var b := Getc(dev);
      UartTransfer.FillStep(bytes, i, old(buf[..]));
      buf[i] := b;
    }
    assert bytes[..len] == bytes;
  }

  method Read(dev: SimUart, buf: array<bv8>, len: nat)
    requires dev.base != null && len <= buf.Length && CanRead(SimGetter(), dev.base.hw, len)
    modifies dev.base, buf
    ensures var (bytes, hw) := SimRead(SimGetter(), old(dev.base.hw), len);
      dev.base.hw == hw && buf[..] == bytes + old(buf[len..])
  {
    ghost var states := SimReadTrace(SimGetter(), dev.base.hw, len);
    SimGetterIsGetc();
    ReadLoop(dev, buf, len, SimGetter(), SimRead(SimGetter(), dev.base.hw, len).0, states);
  }

  /** uart_trygetc: one STATUS read; with RX FIFO empty it returns 0 and
      leaves `*out` alone, otherwise it reads RX_FIFO, stores the low byte
      in `*out` and returns 1.  The register sequence is the full driver's
      non-blocking get, so its outcome is `GetcSpec(hw, 1)`. */
  method TryGetc(dev: SimUart, out: ByteCell, ghost get: UartTransfer.Get) returns (r: int)
    requires dev.base != null && UartTransfer.IsGetter(get, 1)
    modifies dev.base, out
    ensures var (b, hw) := get(old(dev.base.hw));
      && dev.base.hw == hw
      && r == (if b.Some? then 1 else 0)
      && out.value == (if b.Some? then b.value else old(out.value))
  {
    ghost var hw0 := dev.base.hw;
    UartTransfer.GetcSpecPolls(hw0, 1);
    var status := RegRead(dev, UART_REG_STATUS);
    if status & UART_STATUS_RX_FIFO_EMPTY != 0 {
      return 0;
    }
    var v := RegRead(dev, UART_REG_RX_FIFO);
    out.value := LowByte(v);
    return 1;
  }

  /** A byte the caller owns, written through the `out` pointer. */
  class ByteCell {
    var value: bv8

    constructor (v: bv8)
      ensures value == v
    {
      value := v;
    }
  }

  /** uart_trygetc's outcome in terms of the device: 1 and the oldest
      byte of the RX FIFO, which loses it, or 0 after one STATUS read that
      showed the FIFO empty, with nothing read. */
  lemma TryGetcOutcome(hw: Hw)
    ensures var (b, h) := UartTransfer.GetcSpec(hw, 1);
      var p := StatusTest(hw, RxData).1;
      && (b.Some? <==> Holds(RxData, p))
      && (b.Some? ==> b.value == p.rx[0] && h.rx == p.rx[1..]
                      && RxPops(h.log) == RxPops(hw.log) + [b.value])
      && (b.None? ==> h == p && |h.log| == |hw.log| + 1 && RxPops(h.log) == RxPops(hw.log))
      && TxPushes(h.log) == TxPushes(hw.log)
  {
    UartTransfer.GetcOutcome(hw, 1);
    OneReadOutcome(hw, RxData);
    UartTransfer.GetcSpecPolls(hw, 1);
  }
}

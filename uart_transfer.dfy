/** The transfer half of the full UART driver (sw/hello_world/uart.c):
    blocking and non-blocking transmit and receive, the interrupt handler
    and the wait for the transmitter to drain.  Each driver routine is a
    method over the register block; what it does to the device is given by
    a function on `Hw`, and the lemmas state what that sequence of register
    accesses achieves in terms of the bytes moved (`TxPushes`, `RxPops`). */
module UartTransfer {
  import opened Common
  import opened UartRegs
  import opened UartHw
  import opened UartDriver

  // ---------------------------------------------------------------------
  // Transmit
  // ---------------------------------------------------------------------

  /** uart_putc (left = TIMEOUT_COUNT) and uart_putc_nonblocking (left = 1):
      wait at most `left` STATUS reads for room in the TX FIFO, then write
      the byte to TX_FIFO; 0 on success, -1 when the wait ran out. */
  function PutcSpec(hw: Hw, data: bv8, left: nat): (int, Hw)
    requires left >= 1
  {
    var (ok, h) := PollStatus(hw, TxRoom, left);
    if ok then (0, StoreStep(h, TxFifo, data as bv32)) else (-1, h)
  }

  /** What a put of `data` with `left` polls is promised to do from `hw`,
      given the code `r` it returned and the device `h` it left: it either
      queues exactly `data` (and it is now the last byte of the TX FIFO)
      or gives up after `left` STATUS reads that all showed the TX FIFO
      full, having written nothing; it takes no RX byte and leaves IE and
      CONFIG alone. */
  predicate PutDone(hw: Hw, data: bv8, left: nat, r: int, h: Hw)
  {
    && (r == 0 || r == -1)
    && hw.log < h.log
    && TxPushes(h.log) == TxPushes(hw.log) + (if r == 0 then [data] else [])
    && RxPops(h.log) == RxPops(hw.log)
    && (r == 0 ==> |h.tx| > 0 && h.tx[|h.tx| - 1] == data)
    && (r == -1 ==> |h.log| == |hw.log| + left && Polls(h.log[|hw.log|..], TxRoom, false))
    && h.ie == hw.ie && h.config == hw.config
  }

  /** uart_putc (left = TIMEOUT_COUNT) and uart_putc_nonblocking (left = 1)
      do what `PutDone` says. */
  lemma PutcOutcome(hw: Hw, data: bv8, left: nat)
    requires left >= 1
    ensures PutDone(hw, data, left, PutcSpec(hw, data, left).0, PutcSpec(hw, data, left).1)
  {
    PollStatusOutcome(hw, TxRoom, left);
    var q := PollStatus(hw, TxRoom, left);
    if q.0 {
      PutAfterRoom(hw, q.1, data, left);
    } else {
      PutAfterFull(hw, q.1, data, left);
    }
  }

  /** A poll that found room, followed by a write of `data` to TX_FIFO, is
      a put that did what `PutDone` says. */
  lemma PutAfterRoom(hw: Hw, p: Hw, data: bv8, left: nat)
    requires PollLog(hw.log, p.log, TxRoom)
    requires PollState(hw, p) && Holds(TxRoom, p)
    ensures PutDone(hw, data, left, 0, StoreStep(p, TxFifo, data as bv32))
  {
    PollLogMovesNoData(hw.log, p.log, TxRoom);
    LogAppend(p.log, Access.Write(TxFifo, data as bv32));
    LowByteOfByte(data);
  }

  /** A poll that used its `left` reads without finding room is a put
      that did what `PutDone` says. */
  lemma PutAfterFull(hw: Hw, p: Hw, data: bv8, left: nat)
    requires PollLog(hw.log, p.log, TxRoom) && !Ready(TxRoom, p.log[|p.log| - 1].value)
    requires |p.log| == |hw.log| + left && PollState(hw, p)
    ensures PutDone(hw, data, left, -1, p)
  {
    PollLogMovesNoData(hw.log, p.log, TxRoom);
    FailedPollLog(hw.log, p.log, TxRoom);
  }

  /** A put as a value: the C return code and the device afterwards. */
  type Put = (Hw, bv8) -> (int, Hw)

  /** uart_putc (left = TIMEOUT_COUNT) or uart_putc_nonblocking (left = 1). */
  function Putter(left: nat): Put
    requires left >= 1
  {
    (hw, data) => PutcSpec(hw, data, left)
  }

  /** `put` behaves as `PutcSpec` with `left` polls.  Methods that loop over
      puts are stated over such a `put` rather than over `Putter(left)`, so
      that reasoning about the loop does not unfold the device model. */
  ghost predicate IsPutter(put: Put, left: nat)
    requires left >= 1
  {
    forall hw, data {:trigger PutcSpec(hw, data, left)} :: put(hw, data) == PutcSpec(hw, data, left)
  }

  // What the loops built on a put rely on, one fact at a time.

  /** The put appends to the log. */
  predicate PutExtendsLog(put: Put, hw: Hw, data: bv8)
  {
    hw.log < put(hw, data).1.log
  }

  /** The put returns 0 or -1 and queues its byte exactly when it returns 0. */
  predicate PutPushesItsByte(put: Put, hw: Hw, data: bv8)
  {
    var (r, h) := put(hw, data);
    (r == 0 || r == -1) && TxPushes(h.log) == TxPushes(hw.log) + (if r == 0 then [data] else [])
  }

  /** The put takes no RX byte and leaves IE and CONFIG alone. */
  predicate PutKeepsRx(put: Put, hw: Hw, data: bv8)
  {
    var h := put(hw, data).1;
    RxPops(h.log) == RxPops(hw.log) && h.ie == hw.ie && h.config == hw.config
  }

  /** A failed put made `left` STATUS reads showing the TX FIFO full. */
  predicate PutFails(put: Put, hw: Hw, data: bv8, left: nat)
  {
    var (r, h) := put(hw, data);
    r != 0 ==> |h.log| == |hw.log| + left && Polls(h.log[|hw.log|..], TxRoom, false)
  }

  lemma PutterBehaves(left: nat)
    requires left >= 1
    ensures forall hw, data :: PutExtendsLog(Putter(left), hw, data)
    ensures forall hw, data :: PutPushesItsByte(Putter(left), hw, data)
    ensures forall hw, data :: PutKeepsRx(Putter(left), hw, data)
    ensures forall hw, data :: PutFails(Putter(left), hw, data, left)
  {
    forall hw, data
      ensures && PutExtendsLog(Putter(left), hw, data) && PutPushesItsByte(Putter(left), hw, data)
              && PutKeepsRx(Putter(left), hw, data) && PutFails(Putter(left), hw, data, left)
    {
      PutcOutcome(hw, data, left);
    }
  }

  /** uart_write and uart_write_nonblocking: put the bytes one by one and
      stop at the first put that fails; the count of bytes sent. */
  function WriteSpec(put: Put, hw: Hw, data: seq<bv8>): (w: (nat, Hw))
    ensures w.0 <= |data|
    decreases |data|
  {
    if data == [] then (0, hw)
    else
      var (r, h) := put(hw, data[0]);
      if r != 0 then (0, h)
      else
        var (n, h2) := WriteSpec(put, h, data[1..]);
        (n + 1, h2)
  }

  /** A write sends a prefix of the data, in order, and nothing else; when
      it stops short, the TX FIFO showed full on the last `left` reads. */
  lemma WriteOutcome(hw: Hw, data: seq<bv8>, left: nat)
    requires left >= 1
    ensures var (n, h) := WriteSpec(Putter(left), hw, data);
      && hw.log <= h.log
      && TxPushes(h.log) == TxPushes(hw.log) + data[..n]
      && RxPops(h.log) == RxPops(hw.log)
      && (n < |data| ==> |hw.log| + left <= |h.log| && Polls(h.log[|h.log| - left..], TxRoom, false))
      && h.ie == hw.ie && h.config == hw.config
  {
    PutterBehaves(left);
    WriteExtendsLog(Putter(left), hw, data);
    WriteSendsPrefix(Putter(left), hw, data);
    WriteKeepsRx(Putter(left), hw, data);
    WriteStopsOnFull(Putter(left), hw, data, left);
  }

  lemma {:induction false} WriteExtendsLog(put: Put, hw: Hw, data: seq<bv8>)
    requires forall h, b :: PutExtendsLog(put, h, b)
    ensures hw.log <= WriteSpec(put, hw, data).1.log
    decreases |data|
  {
    if data != [] {
      assert PutExtendsLog(put, hw, data[0]);
      var (r, h1) := put(hw, data[0]);
      if r == 0 {
        WriteExtendsLog(put, h1, data[1..]);
      }
    }
  }

  lemma {:induction false} WriteSendsPrefix(put: Put, hw: Hw, data: seq<bv8>)
    requires forall h, b :: PutPushesItsByte(put, h, b)
    ensures var (n, h) := WriteSpec(put, hw, data);
      TxPushes(h.log) == TxPushes(hw.log) + data[..n]
    decreases |data|
  {
    if data != [] {
      assert PutPushesItsByte(put, hw, data[0]);
      var (r, h1) := put(hw, data[0]);
      if r == 0 {
        WriteSendsPrefix(put, h1, data[1..]);
        var (n, h) := WriteSpec(put, h1, data[1..]);
        PrefixOfTail(data, n);
        AppendAssoc(TxPushes(hw.log), [data[0]], data[1..][..n]);
      } else {
        assert data[..0] == [];
      }
    }
  }

  lemma {:induction false} WriteKeepsRx(put: Put, hw: Hw, data: seq<bv8>)
    requires forall h, b :: PutKeepsRx(put, h, b)
    ensures var h := WriteSpec(put, hw, data).1;
      RxPops(h.log) == RxPops(hw.log) && h.ie == hw.ie && h.config == hw.config
    decreases |data|
  {
    if data != [] {
      assert PutKeepsRx(put, hw, data[0]);
      var (r, h1) := put(hw, data[0]);
      if r == 0 {
        WriteKeepsRx(put, h1, data[1..]);
      }
    }
  }

  lemma {:induction false} WriteStopsOnFull(put: Put, hw: Hw, data: seq<bv8>, left: nat)
    requires forall h, b :: PutExtendsLog(put, h, b)
    requires forall h, b :: PutFails(put, h, b, left)
    ensures var (n, h) := WriteSpec(put, hw, data);
      n < |data| ==> |hw.log| + left <= |h.log| && Polls(h.log[|h.log| - left..], TxRoom, false)
    decreases |data|
  {
    if data != [] {
      assert PutFails(put, hw, data[0], left);
      var (r, h1) := put(hw, data[0]);
      if r == 0 {
        WriteStopsOnFull(put, h1, data[1..], left);
        assert PutExtendsLog(put, hw, data[0]);
      }
    }
  }

  /** The characters of a NUL-terminated string before its terminator. */
  function CString(s: seq<bv8>): (t: seq<bv8>)
    requires 0 in s
    ensures 0 !in t && |t| < |s| && t == s[..|t|] && s[|t|] == 0
  {
    if s[0] == 0 then [] else [s[0]] + CString(s[1..])
  }

  method Putc(h: UartHandle?, data: bv8, ghost put: Put) returns (r: int)
    requires h != null ==> h.base != null
    requires IsPutter(put, TIMEOUT_COUNT)
    modifies Port(h)
    ensures h == null ==> r == -1
    ensures h != null ==> var (code, hw) := put(old(h.base.hw), data);
      r == code && h.base.hw == hw
  {
    if h == null {
      return -1;
    }
    ghost var hw0 := h.base.hw;
    assert put(hw0, data) == PutcSpec(hw0, data, TIMEOUT_COUNT);
    var timeout: nat := TIMEOUT_COUNT;
    while true
      invariant 1 <= timeout <= TIMEOUT_COUNT
      invariant PollStatus(hw0, TxRoom, TIMEOUT_COUNT) == PollStatus(h.base.hw, TxRoom, timeout)
      decreases timeout
    {
      var full := TxFifoFull(h);
      if !full {
        assert PollStatus(hw0, TxRoom, TIMEOUT_COUNT) == (true, h.base.hw);
        break;
      }
      timeout := timeout - 1;
      if timeout == 0 {
        assert PollStatus(hw0, TxRoom, TIMEOUT_COUNT) == (false, h.base.hw);
        return -1;
      }
    }
    h.base.Store(TxFifo, data as bv32);
    return 0;
  }

  method PutcNonblocking(h: UartHandle?, data: bv8, ghost put: Put) returns (r: int)
    requires h != null ==> h.base != null
    requires IsPutter(put, 1)
    modifies Port(h)
    ensures h == null ==> r == -1
    ensures h != null ==> var (code, hw) := put(old(h.base.hw), data);
      r == code && h.base.hw == hw
  {
    if h == null {
      return -1;
    }
    ghost var hw0 := h.base.hw;
    assert put(hw0, data) == PutcSpec(hw0, data, 1);
    var full := TxFifoFull(h);
    if full {
      return -1;
    }
    h.base.Store(TxFifo, data as bv32);
    return 0;
  }

  /** The loop of uart_write over the first `length` bytes of `data`. */
  method WriteLoop(h: UartHandle, data: seq<bv8>, length: nat, ghost put: Put) returns (sent: nat)
    requires h.base != null && length <= |data| && IsPutter(put, TIMEOUT_COUNT)
    modifies h.base
    ensures var (n, hw) := WriteSpec(put, old(h.base.hw), data[..length]);
      sent == n && h.base.hw == hw
  {
    ghost var hw0 := h.base.hw;
    ghost var d := data[..length];
    var i: nat := 0;
    while i < length
      invariant i <= length
      invariant var (n, hw) := WriteSpec(put, h.base.hw, d[i..]);
        WriteSpec(put, hw0, d).0 == i + n && WriteSpec(put, hw0, d).1 == hw
    {
      assert d[i..][1..] == d[i + 1..];
      var rc := Putc(h, data[i], put);
      if rc != 0 {
        return i;
      }
      i := i + 1;
    }
    return length;
  }

  /** `data` is the caller's buffer (None for a null pointer); `length`
      bytes of it are sent. */
  method Write(h: UartHandle?, data: Option<seq<bv8>>, length: nat) returns (r: int)
    requires h != null ==> h.base != null
    requires data.Some? ==> length <= |data.value|
    modifies Port(h)
    ensures h == null || data.None? ==> r == -1 && unchanged(Port(h))
    ensures h != null && data.Some? ==>
      var (n, hw) := WriteSpec(Putter(TIMEOUT_COUNT), old(h.base.hw), data.value[..length]);
      r == n && h.base.hw == hw
  {
    if h == null || data.None? {
      return -1;
    }
    r := WriteLoop(h, data.value, length, Putter(TIMEOUT_COUNT));
  }

  /** The loop of uart_write_nonblocking over the first `length` bytes of
      `data`. */
  method WriteNonblockingLoop(h: UartHandle, data: seq<bv8>, length: nat, ghost put: Put) returns (sent: nat)
    requires h.base != null && length <= |data| && IsPutter(put, 1)
    modifies h.base
    ensures var (n, hw) := WriteSpec(put, old(h.base.hw), data[..length]);
      sent == n && h.base.hw == hw
  {
    ghost var hw0 := h.base.hw;
    ghost var d := data[..length];
    sent := 0;
    var i: nat := 0;
    while i < length
      invariant i <= length && sent == i
      invariant var (n, hw) := WriteSpec(put, h.base.hw, d[i..]);
        WriteSpec(put, hw0, d).0 == i + n && WriteSpec(put, hw0, d).1 == hw
    {
      assert d[i..][1..] == d[i + 1..];
      var rc := PutcNonblocking(h, data[i], put);
      if rc != 0 {
        break;
      }
      sent := sent + 1;
      i := i + 1;
    }
  }

  method WriteNonblocking(h: UartHandle?, data: Option<seq<bv8>>, length: nat) returns (sent: nat)
    requires h != null ==> h.base != null
    requires data.Some? ==> length <= |data.value|
    modifies Port(h)
    ensures h == null || data.None? ==> sent == 0 && unchanged(Port(h))
    ensures h != null && data.Some? ==>
      var (n, hw) := WriteSpec(Putter(1), old(h.base.hw), data.value[..length]);
      sent == n && h.base.hw == hw
  {
    if h == null || data.None? {
      return 0;
    }
    sent := WriteNonblockingLoop(h, data.value, length, Putter(1));
  }

  /** The loop of uart_puts over the characters of `s` before its NUL. */
  method PutsLoop(h: UartHandle, s: seq<bv8>, ghost put: Put) returns (count: nat)
    requires h.base != null && 0 in s && IsPutter(put, TIMEOUT_COUNT)
    modifies h.base
    ensures var (n, hw) := WriteSpec(put, old(h.base.hw), CString(s));
      count == n && h.base.hw == hw
  {
    ghost var hw0 := h.base.hw;
    count := 0;
    while s[count] != 0
      invariant count < |s| && 0 in s[count..]
      invariant var (n, hw) := WriteSpec(put, h.base.hw, CString(s[count..]));
        WriteSpec(put, hw0, CString(s)).0 == count + n && WriteSpec(put, hw0, CString(s)).1 == hw
      decreases |s| - count
    {
      assert s[count..][1..] == s[count + 1..];
      var rc := Putc(h, s[count], put);
      if rc != 0 {
        return;
      }
      count := count + 1;
    }
  }

  /** `str` is the caller's string (None for a null pointer), which holds
      its NUL terminator. */
  method Puts(h: UartHandle?, str: Option<seq<bv8>>) returns (r: int)
    requires h != null ==> h.base != null
    requires str.Some? ==> 0 in str.value
    modifies Port(h)
    ensures h == null || str.None? ==> r == -1 && unchanged(Port(h))
    ensures h != null && str.Some? ==>
      var (n, hw) := WriteSpec(Putter(TIMEOUT_COUNT), old(h.base.hw), CString(str.value));
      r == n && h.base.hw == hw
  {
    if h == null || str.None? {
      return -1;
    }
    r := PutsLoop(h, str.value, Putter(TIMEOUT_COUNT));
  }

  // ---------------------------------------------------------------------
  // Receive
  // ---------------------------------------------------------------------

  /** The byte uart_gets stops at. */
  const NEWLINE: bv8 := 10

  /** uart_getc (left = TIMEOUT_COUNT) and uart_getc_nonblocking (left = 1):
      wait at most `left` STATUS reads for data in the RX FIFO, then read
      RX_FIFO and take its low byte; None when the wait ran out. */
  function GetcSpec(hw: Hw, left: nat): (Option<bv8>, Hw)
    requires left >= 1
    decreases left
  {
    var (ready, h) := StatusTest(hw, RxData);
    if ready then
      var (v, h2) := LoadStep(h, RxFifo);
      (Some(LowByte(v)), h2)
    else if left == 1 then (None, h)
    else GetcSpec(h, left - 1)
  }

  /** A get is a bounded poll for RX data followed, when the poll
      succeeds, by one read of RX_FIFO. */
  lemma {:induction false} GetcSpecPolls(hw: Hw, left: nat)
    requires left >= 1
    ensures var (ok, h) := PollStatus(hw, RxData, left);
      && GetcSpec(hw, left).0.Some? == ok
      && (ok ==> GetcSpec(hw, left).0.value == LowByte(LoadStep(h, RxFifo).0)
                 && GetcSpec(hw, left).1 == LoadStep(h, RxFifo).1)
      && (!ok ==> GetcSpec(hw, left).1 == h)
    decreases left
  {
    var (ready, h) := StatusTest(hw, RxData);
    if !ready && left > 1 {
      GetcSpecPolls(h, left - 1);
    }
  }

  /** The C return value of a get: the byte, or -1. */
  function GetcCode(b: Option<bv8>): (r: int)
    ensures -1 <= r < 256 && (r == -1 <==> b.None?)
  {
    if b.Some? then b.value as int else -1
  }

  /** What a get with `left` polls is promised to do from `hw`, given the
      state `p` its poll for data ended in, the byte `b` it returned and the
      device `h` it left: it either returns the head of the RX FIFO, and
      removes it, or gives up after `left` STATUS reads that all showed the
      RX FIFO empty, having read nothing; it moves no TX byte and leaves
      IE and CONFIG alone.  A successful get never underflows the FIFO. */
  predicate GetDone(hw: Hw, left: nat, p: Hw, b: Option<bv8>, h: Hw)
  {
    && hw.log < h.log
    && TxPushes(h.log) == TxPushes(hw.log)
    && RxPops(h.log) == RxPops(hw.log) + (if b.Some? then [b.value] else [])
    && (b.Some? ==> |p.rx| > 0 && b.value == p.rx[0] && h.rx == p.rx[1..] && h.sticky == 0)
    && (b.None? ==> |h.log| == |hw.log| + left && Polls(h.log[|hw.log|..], RxData, false))
    && h.ie == hw.ie && h.config == hw.config
  }

  /** uart_getc (left = TIMEOUT_COUNT) and uart_getc_nonblocking (left = 1)
      do what `GetDone` says. */
  lemma GetcOutcome(hw: Hw, left: nat)
    requires left >= 1
    ensures GetDone(hw, left, PollStatus(hw, RxData, left).1, GetcSpec(hw, left).0, GetcSpec(hw, left).1)
  {
    GetcSpecPolls(hw, left);
    PollStatusOutcome(hw, RxData, left);
    var q := PollStatus(hw, RxData, left);
    if q.0 {
      GetAfterData(hw, q.1, left);
    } else {
      GetAfterEmpty(hw, q.1, left);
    }
  }

  /** A poll that found data, followed by a read of RX_FIFO, is a get that
      did what `GetDone` says. */
  lemma GetAfterData(hw: Hw, p: Hw, left: nat)
    requires PollLog(hw.log, p.log, RxData)
    requires PollState(hw, p) && Holds(RxData, p)
    ensures GetDone(hw, left, p, Some(LowByte(LoadStep(p, RxFifo).0)), LoadStep(p, RxFifo).1)
  {
    PollLogMovesNoData(hw.log, p.log, RxData);
    var (v, h) := LoadStep(p, RxFifo);
    LogAppend(p.log, Access.Read(RxFifo, v));
    LowByteOfByte(p.rx[0]);
  }

  /** A poll that used its `left` reads without finding data is a get that
      did what `GetDone` says. */
  lemma GetAfterEmpty(hw: Hw, p: Hw, left: nat)
    requires PollLog(hw.log, p.log, RxData) && !Ready(RxData, p.log[|p.log| - 1].value)
    requires |p.log| == |hw.log| + left && PollState(hw, p)
    ensures GetDone(hw, left, p, None, p)
  {
    PollLogMovesNoData(hw.log, p.log, RxData);
    FailedPollLog(hw.log, p.log, RxData);
  }

  /** A get as a value: the byte taken (if any) and the device afterwards. */
  type Get = Hw -> (Option<bv8>, Hw)

  /** uart_getc (left = TIMEOUT_COUNT) or uart_getc_nonblocking (left = 1). */
  function Getter(left: nat): Get
    requires left >= 1
  {
    hw => GetcSpec(hw, left)
  }

  /** `get` behaves as `GetcSpec` with `left` polls.  Methods that loop over
      gets are stated over such a `get` rather than over `Getter(left)`, so
      that reasoning about the loop does not unfold the device model. */
  ghost predicate IsGetter(get: Get, left: nat)
    requires left >= 1
  {
    forall hw {:trigger GetcSpec(hw, left)} :: get(hw) == GetcSpec(hw, left)
  }

  // What the loops built on a get rely on, one fact at a time.

  /** The get appends to the log. */
  predicate GetExtendsLog(get: Get, hw: Hw)
  {
    hw.log < get(hw).1.log
  }

  /** The get pops exactly the byte it returns. */
  predicate GetPopsItsByte(get: Get, hw: Hw)
  {
    var (b, h) := get(hw);
    RxPops(h.log) == RxPops(hw.log) + (if b.Some? then [b.value] else [])
  }

  /** The get moves no TX byte and leaves IE and CONFIG alone. */
  predicate GetKeepsTx(get: Get, hw: Hw)
  {
    var h := get(hw).1;
    TxPushes(h.log) == TxPushes(hw.log) && h.ie == hw.ie && h.config == hw.config
  }

  /** A failed get made `left` STATUS reads showing the RX FIFO empty. */
  predicate GetFails(get: Get, hw: Hw, left: nat)
  {
    var (b, h) := get(hw);
    b.None? ==> |h.log| == |hw.log| + left && Polls(h.log[|hw.log|..], RxData, false)
  }

  /** The get writes no register. */
  predicate GetOnlyReads(get: Get, hw: Hw)
  {
    ReadsOnly(hw.log, get(hw).1.log)
  }

  /** A get is a poll and perhaps a read of RX_FIFO: it writes nothing. */
  lemma GetcReadsOnly(hw: Hw, left: nat)
    requires left >= 1
    ensures ReadsOnly(hw.log, GetcSpec(hw, left).1.log)
  {
    GetcSpecPolls(hw, left);
    PollStatusOutcome(hw, RxData, left);
    var q := PollStatus(hw, RxData, left);
    PollLogReadsOnly(hw.log, q.1.log, RxData);
    if q.0 {
      var h := LoadStep(q.1, RxFifo).1;
      assert ReadsOnly(q.1.log, h.log);
      ReadsOnlyTrans(hw.log, q.1.log, h.log);
    }
  }

  lemma GetterReadsOnly(left: nat)
    requires left >= 1
    ensures forall hw :: GetOnlyReads(Getter(left), hw)
  {
    forall hw
      ensures GetOnlyReads(Getter(left), hw)
    {
      GetcReadsOnly(hw, left);
    }
  }

  lemma GetterBehaves(left: nat)
    requires left >= 1
    ensures forall hw :: GetExtendsLog(Getter(left), hw)
    ensures forall hw :: GetPopsItsByte(Getter(left), hw)
    ensures forall hw :: GetKeepsTx(Getter(left), hw)
    ensures forall hw :: GetFails(Getter(left), hw, left)
  {
    forall hw
      ensures && GetExtendsLog(Getter(left), hw) && GetPopsItsByte(Getter(left), hw)
              && GetKeepsTx(Getter(left), hw) && GetFails(Getter(left), hw, left)
    {
      GetcOutcome(hw, left);
    }
  }

  /** uart_read and uart_read_nonblocking: get up to `n` bytes, stopping at
      the first get that fails; the bytes stored. */
  function GetMany(get: Get, hw: Hw, n: nat): (r: (seq<bv8>, Hw))
    ensures |r.0| <= n
    decreases n
  {
    if n == 0 then ([], hw)
    else
      var (b, h) := get(hw);
      if b.None? then ([], h)
      else
        var (rest, h2) := GetMany(get, h, n - 1);
        ([b.value] + rest, h2)
  }

  /** A read stores exactly the bytes it took from the RX FIFO, in order,
      at most `n`; it moves no TX byte and writes no register; when it
      stores fewer than `n`, the RX FIFO showed empty on the last `left`
      reads. */
  lemma ReadOutcome(hw: Hw, n: nat, left: nat)
    requires left >= 1
    ensures var (bytes, h) := GetMany(Getter(left), hw, n);
      && RxPops(h.log) == RxPops(hw.log) + bytes
      && TxPushes(h.log) == TxPushes(hw.log)
      && ReadsOnly(hw.log, h.log)
      && (|bytes| < n ==> |hw.log| + left <= |h.log| && Polls(h.log[|h.log| - left..], RxData, false))
      && h.ie == hw.ie && h.config == hw.config
  {
    GetterBehaves(left);
    GetterReadsOnly(left);
    GetManyReadsOnly(Getter(left), hw, n);
    GetManyExtendsLog(Getter(left), hw, n);
    GetManyPops(Getter(left), hw, n);
    GetManyKeepsTx(Getter(left), hw, n);
    GetManyStops(Getter(left), hw, n, left);
  }

  lemma {:induction false} GetManyExtendsLog(get: Get, hw: Hw, n: nat)
    requires forall h :: GetExtendsLog(get, h)
    ensures hw.log <= GetMany(get, hw, n).1.log
    decreases n
  {
    if n > 0 {
      assert GetExtendsLog(get, hw);
      var (b, h1) := get(hw);
      if b.Some? {
        GetManyExtendsLog(get, h1, n - 1);
      }
    }
  }

  lemma {:induction false} GetManyReadsOnly(get: Get, hw: Hw, n: nat)
    requires forall h :: GetOnlyReads(get, h)
    ensures ReadsOnly(hw.log, GetMany(get, hw, n).1.log)
    decreases n
  {
    if n > 0 {
      assert GetOnlyReads(get, hw);
      var (b, h1) := get(hw);
      if b.Some? {
        GetManyReadsOnly(get, h1, n - 1);
        ReadsOnlyTrans(hw.log, h1.log, GetMany(get, h1, n - 1).1.log);
      }
    }
  }

  lemma {:induction false} GetManyPops(get: Get, hw: Hw, n: nat)
    requires forall h :: GetPopsItsByte(get, h)
    ensures var (bytes, h) := GetMany(get, hw, n);
      RxPops(h.log) == RxPops(hw.log) + bytes
    decreases n
  {
    if n > 0 {
      assert GetPopsItsByte(get, hw);
      var (b, h1) := get(hw);
      if b.Some? {
        GetManyPops(get, h1, n - 1);
        var (rest, h) := GetMany(get, h1, n - 1);
        AppendAssoc(RxPops(hw.log), [b.value], rest);
      }
    }
  }

  lemma {:induction false} GetManyKeepsTx(get: Get, hw: Hw, n: nat)
    requires forall h :: GetKeepsTx(get, h)
    ensures var h := GetMany(get, hw, n).1;
      TxPushes(h.log) == TxPushes(hw.log) && h.ie == hw.ie && h.config == hw.config
    decreases n
  {
    if n > 0 {
      assert GetKeepsTx(get, hw);
      var (b, h1) := get(hw);
      if b.Some? {
        GetManyKeepsTx(get, h1, n - 1);
      }
    }
  }

  lemma {:induction false} GetManyStops(get: Get, hw: Hw, n: nat, left: nat)
    requires forall h :: GetExtendsLog(get, h)
    requires forall h :: GetFails(get, h, left)
    ensures var (bytes, h) := GetMany(get, hw, n);
      |bytes| < n ==> |hw.log| + left <= |h.log| && Polls(h.log[|h.log| - left..], RxData, false)
    decreases n
  {
    if n > 0 {
      assert GetFails(get, hw, left);
      var (b, h1) := get(hw);
      if b.Some? {
        GetManyStops(get, h1, n - 1, left);
        assert GetExtendsLog(get, hw);
      }
    }
  }

  /** What uart_gets leaves: the bytes stored before the terminator, whether
      it returns their count (rather than -1), and the device. */
  datatype GetsResult = GetsResult(stored: seq<bv8>, ok: bool, hw: Hw)

  /** uart_gets with `room` = max_length - 1 places for bytes: gets until a
      newline (which is stored), a failed get, or no room. */
  function GetLine(get: Get, hw: Hw, room: nat): (g: GetsResult)
    ensures |g.stored| <= room
    decreases room
  {
    if room == 0 then GetsResult([], true, hw)
    else
      var (b, h) := get(hw);
      if b.None? then GetsResult([], false, h)
      else if b.value == NEWLINE then GetsResult([b.value], true, h)
      else
        var rest := GetLine(get, h, room - 1);
        GetsResult([b.value] + rest.stored, rest.ok, rest.hw)
  }

  /** What uart_gets is promised to do from `hw` with `room` places, each
      get giving up after `left` STATUS reads, given what it leaves in `g`:
      the stored bytes are exactly those taken from the RX FIFO, in order;
      no TX byte moves and IE and CONFIG stay; a line is cut at its first
      newline (no stored byte but the last is a newline; with room to
      spare a successful line ends in one; a failed line holds none); it
      fails only when a get timed out, after `left` STATUS reads showing
      the RX FIFO empty. */
  predicate LineRead(hw: Hw, room: nat, left: nat, g: GetsResult)
  {
    && RxPops(g.hw.log) == RxPops(hw.log) + g.stored
    && TxPushes(g.hw.log) == TxPushes(hw.log)
    && hw.log <= g.hw.log
    && g.hw.ie == hw.ie && g.hw.config == hw.config
    && (forall i :: 0 <= i < |g.stored| - 1 ==> g.stored[i] != NEWLINE)
    && (g.ok && |g.stored| < room ==> |g.stored| > 0 && g.stored[|g.stored| - 1] == NEWLINE)
    && (!g.ok ==> NEWLINE !in g.stored)
    && (!g.ok ==> |hw.log| + left <= |g.hw.log| && Polls(g.hw.log[|g.hw.log| - left..], RxData, false))
  }

  /** uart_gets, whose gets are uart_getc's, does what `LineRead` says. */
  lemma GetsOutcome(hw: Hw, room: nat)
    ensures LineRead(hw, room, TIMEOUT_COUNT, GetLine(Getter(TIMEOUT_COUNT), hw, room))
  {
    GetterBehaves(TIMEOUT_COUNT);
    GetLineOutcome(Getter(TIMEOUT_COUNT), hw, room, TIMEOUT_COUNT);
  }

  /** GetsOutcome for any get with the four behaviours of a uart_getc. */
  lemma GetLineOutcome(get: Get, hw: Hw, room: nat, left: nat)
    requires forall h :: GetExtendsLog(get, h)
    requires forall h :: GetPopsItsByte(get, h)
    requires forall h :: GetKeepsTx(get, h)
    requires forall h :: GetFails(get, h, left)
    ensures LineRead(hw, room, left, GetLine(get, hw, room))
  {
    GetLineExtendsLog(get, hw, room);
    GetLinePops(get, hw, room);
    GetLineKeepsTx(get, hw, room);
    GetLineFails(get, hw, room, left);
    GetLineStopsAtNewline(get, hw, room);
  }

  lemma {:induction false} GetLineExtendsLog(get: Get, hw: Hw, room: nat)
    requires forall h :: GetExtendsLog(get, h)
    ensures hw.log <= GetLine(get, hw, room).hw.log
    decreases room
  {
    if room > 0 {
      assert GetExtendsLog(get, hw);
      var (b, h1) := get(hw);
      if b.Some? && b.value != NEWLINE {
        GetLineExtendsLog(get, h1, room - 1);
      }
    }
  }

  lemma {:induction false} GetLinePops(get: Get, hw: Hw, room: nat)
    requires forall h :: GetPopsItsByte(get, h)
    ensures var g := GetLine(get, hw, room);
      RxPops(g.hw.log) == RxPops(hw.log) + g.stored
    decreases room
  {
    if room > 0 {
      assert GetPopsItsByte(get, hw);
      var (b, h1) := get(hw);
      if b.Some? && b.value != NEWLINE {
        GetLinePops(get, h1, room - 1);
        AppendAssoc(RxPops(hw.log), [b.value], GetLine(get, h1, room - 1).stored);
      }
    }
  }

  lemma {:induction false} GetLineKeepsTx(get: Get, hw: Hw, room: nat)
    requires forall h :: GetKeepsTx(get, h)
    ensures var h := GetLine(get, hw, room).hw;
      TxPushes(h.log) == TxPushes(hw.log) && h.ie == hw.ie && h.config == hw.config
    decreases room
  {
    if room > 0 {
      assert GetKeepsTx(get, hw);
      var (b, h1) := get(hw);
      if b.Some? && b.value != NEWLINE {
        GetLineKeepsTx(get, h1, room - 1);
      }
    }
  }

  lemma {:induction false} GetLineFails(get: Get, hw: Hw, room: nat, left: nat)
    requires forall h :: GetExtendsLog(get, h)
    requires forall h :: GetFails(get, h, left)
    ensures var g := GetLine(get, hw, room);
      !g.ok ==> |hw.log| + left <= |g.hw.log| && Polls(g.hw.log[|g.hw.log| - left..], RxData, false)
    decreases room
  {
    if room > 0 {
      assert GetFails(get, hw, left);
      var (b, h1) := get(hw);
      if b.Some? && b.value != NEWLINE {
        GetLineFails(get, h1, room - 1, left);
        assert GetExtendsLog(get, hw);
      }
    }
  }

  lemma {:induction false} GetLineStopsAtNewline(get: Get, hw: Hw, room: nat)
    ensures var g := GetLine(get, hw, room);
      && (forall i :: 0 <= i < |g.stored| - 1 ==> g.stored[i] != NEWLINE)
      && (g.ok && |g.stored| < room ==> |g.stored| > 0 && g.stored[|g.stored| - 1] == NEWLINE)
      && (!g.ok ==> NEWLINE !in g.stored)
    decreases room
  {
    if room > 0 {
      var (b, h1) := get(hw);
      if b.Some? && b.value != NEWLINE {
        var rest := GetLine(get, h1, room - 1);
        var g := GetLine(get, hw, room);
        GetLineStopsAtNewline(get, h1, room - 1);
        forall i | 0 <= i < |g.stored| - 1
          ensures g.stored[i] != NEWLINE
        {
          if i > 0 {
            assert g.stored[i] == rest.stored[i - 1];
          }
        }
      }
    }
  }

  /** The device states a bounded sequence of gets passes through: the
      k-th get starts in `states[k]` and yields the k-th byte, and the run
      ends either after `n` bytes or with a get that yields nothing. */
  lemma {:induction false} GetManyTrace(get: Get, hw: Hw, n: nat) returns (states: seq<Hw>)
    ensures var (bytes, last) := GetMany(get, hw, n);
      && |states| == |bytes| + 1 && states[0] == hw
      && (forall k :: 0 <= k < |bytes| ==> get(states[k]).0 == Some(bytes[k]) && get(states[k]).1 == states[k + 1])
      && (|bytes| < n ==> get(states[|bytes|]).0.None?)
      && last == if |bytes| == n then states[|bytes|] else get(states[|bytes|]).1
    decreases n
  {
    if n == 0 {
      states := [hw];
    } else {
      var (b, h) := get(hw);
      if b.None? {
        states := [hw];
      } else {
        var rest := GetManyTrace(get, h, n - 1);
        states := [hw] + rest;
        var bytes := GetMany(get, hw, n).0;
        assert bytes == [b.value] + GetMany(get, h, n - 1).0;
        forall k | 0 <= k < |bytes|
          ensures get(states[k]).0 == Some(bytes[k]) && get(states[k]).1 == states[k + 1]
        {
          if k > 0 {
            assert states[k] == rest[k - 1] && bytes[k] == GetMany(get, h, n - 1).0[k - 1];
          }
        }
      }
    }
  }

  /** The same for reading a line: the k-th get yields the k-th stored
      byte; a line that ends early ends at a newline, and a failed one ends
      with a get that yields nothing. */
  lemma {:induction false} GetLineTrace(get: Get, hw: Hw, room: nat) returns (states: seq<Hw>)
    ensures var g := GetLine(get, hw, room);
      && |states| == |g.stored| + 1 && states[0] == hw
      && (forall k :: 0 <= k < |g.stored| ==> get(states[k]).0 == Some(g.stored[k]) && get(states[k]).1 == states[k + 1])
      && (forall k :: 0 <= k < |g.stored| - 1 ==> g.stored[k] != NEWLINE)
      && (g.ok ==> g.hw == states[|g.stored|])
      && (g.ok && |g.stored| < room ==> |g.stored| > 0 && g.stored[|g.stored| - 1] == NEWLINE)
      && (!g.ok ==> |g.stored| < room && NEWLINE !in g.stored
                    && get(states[|g.stored|]).0.None? && g.hw == get(states[|g.stored|]).1)
    decreases room
  {
    GetLineStopsAtNewline(get, hw, room);
    if room == 0 {
      states := [hw];
    } else {
      var (b, h) := get(hw);
      if b.None? || b.value == NEWLINE {
        states := if b.None? then [hw] else [hw, h];
      } else {
        var rest := GetLineTrace(get, h, room - 1);
        states := [hw] + rest;
        var g := GetLine(get, hw, room);
        var r := GetLine(get, h, room - 1);
        assert g.stored == [b.value] + r.stored && g.ok == r.ok && g.hw == r.hw;
        forall k | 0 <= k < |g.stored|
          ensures get(states[k]).0 == Some(g.stored[k]) && get(states[k]).1 == states[k + 1]
        {
          if k > 0 {
            assert states[k] == rest[k - 1] && g.stored[k] == r.stored[k - 1];
          }
        }
      }
    }
  }

  method Getc(h: UartHandle?, ghost get: Get) returns (r: int)
    requires h != null ==> h.base != null
    requires IsGetter(get, TIMEOUT_COUNT)
    modifies Port(h)
    ensures h == null ==> r == -1
    ensures h != null ==> var (b, hw) := get(old(h.base.hw));
      r == GetcCode(b) && h.base.hw == hw
  {
    if h == null {
      return -1;
    }
    ghost var hw0 := h.base.hw;
    GetcSpecPolls(hw0, TIMEOUT_COUNT);
    var timeout: nat := TIMEOUT_COUNT;
    while true
      invariant 1 <= timeout <= TIMEOUT_COUNT
      invariant PollStatus(hw0, RxData, TIMEOUT_COUNT) == PollStatus(h.base.hw, RxData, timeout)
      decreases timeout
    {
      var empty := RxFifoEmpty(h);
      if !empty {
        assert PollStatus(hw0, RxData, TIMEOUT_COUNT) == (true, h.base.hw);
        break;
      }
      timeout := timeout - 1;
      if timeout == 0 {
        assert PollStatus(hw0, RxData, TIMEOUT_COUNT) == (false, h.base.hw);
        return -1;
      }
    }
    var v := h.base.Load(RxFifo);
    return LowByte(v) as int;
  }

  method GetcNonblocking(h: UartHandle?, ghost get: Get) returns (r: int)
    requires h != null ==> h.base != null
    requires IsGetter(get, 1)
    modifies Port(h)
    ensures h == null ==> r == -1
    ensures h != null ==> var (b, hw) := get(old(h.base.hw));
      r == GetcCode(b) && h.base.hw == hw
  {
    if h == null {
      return -1;
    }
    ghost var hw0 := h.base.hw;
    GetcSpecPolls(hw0, 1);
    var empty := RxFifoEmpty(h);
    if empty {
      return -1;
    }
    var v := h.base.Load(RxFifo);
    return LowByte(v) as int;
  }

  /** `buffer[i] = (uint8_t)byte` for a byte value. */
  method StoreByte(buffer: array<bv8>, i: nat, byte: int, ghost b: bv8)
    requires i < buffer.Length && byte == b as int
    modifies buffer
    ensures buffer[..] == old(buffer[..])[i := b]
  {
    ByteRoundTrip(b);
    buffer[i] := (byte % 256) as bv8;
  }

  /** A loop that has filled `buffer[..i]` with `done[..i]` and is about to
      store `done[i]` keeps the rest of the buffer as it found it. */
  lemma FillStep(done: seq<bv8>, i: nat, orig: seq<bv8>)
    requires i < |done| && i < |orig|
    ensures (done[..i] + orig[i..])[i := done[i]] == done[..i + 1] + orig[i + 1..]
  {
    UpdateAtSeam(done[..i], done[i], orig[i..]);
    TakeOneMore(done, i);
    DropOneMore(orig, i);
  }

  /** The loop of uart_read, along the run of blocking gets it makes. */
  method ReadLoop(h: UartHandle, buffer: array<bv8>, length: nat, ghost get: Get, ghost bytes: seq<bv8>, ghost states: seq<Hw>)
      returns (r: nat)
    requires h.base != null && length <= buffer.Length && IsGetter(get, TIMEOUT_COUNT)
    requires |states| == |bytes| + 1 && |bytes| <= length && h.base.hw == states[0]
    requires forall k :: 0 <= k < |bytes| ==>
      get(states[k]).0 == Some(bytes[k]) && get(states[k]).1 == states[k + 1]
    requires |bytes| < length ==> get(states[|bytes|]).0.None?
    modifies h.base, buffer
    ensures r == |bytes| && buffer[..] == bytes + old(buffer[|bytes|..])
    ensures h.base.hw == if |bytes| == length then states[|bytes|] else get(states[|bytes|]).1
  {
    var i: nat := 0;
    while i < length
      invariant i <= |bytes| && h.base.hw == states[i]
      invariant buffer[..] == bytes[..i] + old(buffer[i..])
    {
      var byte := Getc(h, get);
      if byte < 0 {
        assert bytes[..i] == bytes;
        return i;
      }
      FillStep(bytes, i, old(buffer[..]));
      StoreByte(buffer, i, byte, bytes[i]);
      i := i + 1;
    }
    assert bytes[..i] == bytes;
    return length;
  }

  /** `buffer` is the caller's buffer (null for a null pointer) with room
      for `length` bytes. */
  method Read(h: UartHandle?, buffer: array?<bv8>, length: nat) returns (r: int)
    requires h != null ==> h.base != null
    requires buffer != null ==> length <= buffer.Length
    modifies Port(h), buffer
    ensures h == null || buffer == null ==> r == -1 && unchanged(Port(h)) && (buffer != null ==> unchanged(buffer))
    ensures h != null && buffer != null ==>
      var (bytes, hw) := GetMany(Getter(TIMEOUT_COUNT), old(h.base.hw), length);
      r == |bytes| && h.base.hw == hw && buffer[..] == bytes + old(buffer[|bytes|..])
  {
    if h == null || buffer == null {
      return -1;
    }
    ghost var states := GetManyTrace(Getter(TIMEOUT_COUNT), h.base.hw, length);
    r := ReadLoop(h, buffer, length, Getter(TIMEOUT_COUNT), GetMany(Getter(TIMEOUT_COUNT), h.base.hw, length).0, states);
  }

  /** The loop of uart_read_nonblocking, along the run of nonblocking gets
      it makes. */
  method ReadNonblockingLoop(h: UartHandle, buffer: array<bv8>, maxLength: nat,
                             ghost get: Get, ghost bytes: seq<bv8>, ghost states: seq<Hw>)
      returns (received: nat)
    requires h.base != null && maxLength <= buffer.Length && IsGetter(get, 1)
    requires |states| == |bytes| + 1 && |bytes| <= maxLength && h.base.hw == states[0]
    requires forall k :: 0 <= k < |bytes| ==>
      get(states[k]).0 == Some(bytes[k]) && get(states[k]).1 == states[k + 1]
    requires |bytes| < maxLength ==> get(states[|bytes|]).0.None?
    modifies h.base, buffer
    ensures received == |bytes| && buffer[..] == bytes + old(buffer[|bytes|..])
    ensures h.base.hw == if |bytes| == maxLength then states[|bytes|] else get(states[|bytes|]).1
  {
    received := 0;
    var i: nat := 0;
    while i < maxLength
      invariant i <= |bytes| && received == i && h.base.hw == states[i]
      invariant buffer[..] == bytes[..i] + old(buffer[i..])
    {
      var byte := GetcNonblocking(h, get);
      if byte < 0 {
        break;
      }
      FillStep(bytes, i, old(buffer[..]));
      StoreByte(buffer, i, byte, bytes[i]);
      received := received + 1;
      i := i + 1;
    }
    assert bytes[..i] == bytes;
  }

  method ReadNonblocking(h: UartHandle?, buffer: array?<bv8>, maxLength: nat) returns (received: nat)
    requires h != null ==> h.base != null
    requires buffer != null ==> maxLength <= buffer.Length
    modifies Port(h), buffer
    ensures h == null || buffer == null ==> received == 0 && unchanged(Port(h)) && (buffer != null ==> unchanged(buffer))
    ensures h != null && buffer != null ==>
      var (bytes, hw) := GetMany(Getter(1), old(h.base.hw), maxLength);
      received == |bytes| && h.base.hw == hw && buffer[..] == bytes + old(buffer[|bytes|..])
  {
    if h == null || buffer == null {
      return 0;
    }
    ghost var states := GetManyTrace(Getter(1), h.base.hw, maxLength);
    received := ReadNonblockingLoop(h, buffer, maxLength, Getter(1), GetMany(Getter(1), h.base.hw, maxLength).0, states);
  }

  /** The loop of uart_gets, along the run of blocking gets it makes:
      `ok` is false when a get timed out. */
  method GetsLoop(h: UartHandle, buffer: array<bv8>, maxLength: nat, ghost get: Get, ghost g: GetsResult, ghost states: seq<Hw>)
      returns (count: nat, ok: bool)
    requires h.base != null && 0 < maxLength <= buffer.Length && IsGetter(get, TIMEOUT_COUNT)
    requires |states| == |g.stored| + 1 && |g.stored| <= maxLength - 1 && h.base.hw == states[0]
    requires forall k :: 0 <= k < |g.stored| ==>
      get(states[k]).0 == Some(g.stored[k]) && get(states[k]).1 == states[k + 1]
    requires forall k :: 0 <= k < |g.stored| - 1 ==> g.stored[k] != NEWLINE
    requires g.ok ==> g.hw == states[|g.stored|]
    requires g.ok && |g.stored| < maxLength - 1 ==> |g.stored| > 0 && g.stored[|g.stored| - 1] == NEWLINE
    requires !g.ok ==> |g.stored| < maxLength - 1 && NEWLINE !in g.stored
                       && get(states[|g.stored|]).0.None?
                       && g.hw == get(states[|g.stored|]).1
    modifies h.base, buffer
    ensures ok == g.ok && count == |g.stored| && h.base.hw == g.hw
    ensures buffer[..] == g.stored + old(buffer[count..])
  {
    count := 0;
    while count < maxLength - 1
      invariant count <= |g.stored| && h.base.hw == states[count]
      invariant count == |g.stored| && g.ok ==> count == maxLength - 1
      invariant buffer[..] == g.stored[..count] + old(buffer[count..])
    {
      ghost var b := get(states[count]).0;
      assert count < |g.stored| ==> b == Some(g.stored[count]);
      var byte := Getc(h, get);
      if byte < 0 {
        assert count == |g.stored| && !g.ok;
        assert g.stored[..count] == g.stored;
        return count, false;
      }
      FillStep(g.stored, count, old(buffer[..]));
      StoreByte(buffer, count, byte, g.stored[count]);
      count := count + 1;
      if byte == NEWLINE as int {
        assert count == |g.stored| && g.ok;
        break;
      }
    }
    assert count == |g.stored| && g.ok;
    assert g.stored[..count] == g.stored;
    return count, true;
  }

  /** uart_gets on a valid handle and buffer, for a `get` that behaves as
      uart_getc. */
  method GetsWith(h: UartHandle, buffer: array<bv8>, maxLength: nat, ghost get: Get) returns (r: int)
    requires h.base != null && 0 < maxLength <= buffer.Length && IsGetter(get, TIMEOUT_COUNT)
    modifies h.base, buffer
    ensures var g := GetLine(get, old(h.base.hw), maxLength - 1);
      && h.base.hw == g.hw
      && (g.ok ==> r == |g.stored| && buffer[..] == g.stored + [0] + old(buffer[r + 1..]))
      && (!g.ok ==> r == -1 && buffer[..] == g.stored + old(buffer[|g.stored|..]))
  {
    ghost var g := GetLine(get, h.base.hw, maxLength - 1);
    ghost var states := GetLineTrace(get, h.base.hw, maxLength - 1);
    var count, ok := GetsLoop(h, buffer, maxLength, get, g, states);
    if !ok {
      return -1;
    }
    UpdateAtSeam(g.stored, 0, old(buffer[count..]));
    DropOneMore(old(buffer[..]), count);
    buffer[count] := 0;
    return count;
  }

  /** `buffer` is the caller's buffer (null for a null pointer) with room
      for `maxLength` characters, the terminator included. */
  method Gets(h: UartHandle?, buffer: array?<bv8>, maxLength: nat) returns (r: int)
    requires h != null ==> h.base != null
    requires buffer != null ==> maxLength <= buffer.Length
    modifies Port(h), buffer
    ensures h == null || buffer == null || maxLength == 0 ==>
      r == -1 && unchanged(Port(h)) && (buffer != null ==> unchanged(buffer))
    ensures h != null && buffer != null && maxLength > 0 ==>
      var g := GetLine(Getter(TIMEOUT_COUNT), old(h.base.hw), maxLength - 1);
      && h.base.hw == g.hw
      && (g.ok ==> r == |g.stored| && buffer[..] == g.stored + [0] + old(buffer[r + 1..]))
      && (!g.ok ==> r == -1 && buffer[..] == g.stored + old(buffer[|g.stored|..]))
  {
    if h == null || buffer == null || maxLength == 0 {
      return -1;
    }
    r := GetsWith(h, buffer, maxLength, Getter(TIMEOUT_COUNT));
  }

  // ---------------------------------------------------------------------
  // Interrupt handler
  // ---------------------------------------------------------------------

  /** A bound on how long the drain loop of the handler can run: each pass
      takes one byte out of the RX FIFO, and the STATUS read before it uses
      up one scheduled event, which adds at most one byte. */
  function DrainMeasure(hw: Hw): nat
  {
    2 * |hw.env| + |hw.rx|
  }

  /** A get that succeeds lowers the drain measure. */
  predicate GetShrinks(get: Get, hw: Hw)
  {
    var (b, h) := get(hw);
    b.Some? ==> DrainMeasure(h) < DrainMeasure(hw)
  }

  /** A successful nonblocking get lowers the drain measure. */
  lemma GetcShrinks(hw: Hw)
    ensures var (b, h) := GetcSpec(hw, 1);
      b.Some? ==> DrainMeasure(h) < DrainMeasure(hw)
  {
    OneReadOutcome(hw, RxData);
  }

  lemma GetterShrinks(get: Get)
    requires IsGetter(get, 1)
    ensures forall hw :: GetShrinks(get, hw)
  {
    forall hw
      ensures GetShrinks(get, hw)
    {
      GetcShrinks(hw);
    }
  }

  /** The drain loop of uart_irq_handler: gets while the RX FIFO shows
      data.  `DrainStops` shows that the bound is never what ends it. */
  function Drain(get: Get, hw: Hw): (r: (seq<bv8>, Hw))
  {
    GetMany(get, hw, DrainMeasure(hw) + 1)
  }

  /** The drain ends because a get failed, before its bound is reached. */
  lemma DrainStops(get: Get, hw: Hw)
    requires forall h :: GetShrinks(get, h)
    ensures |Drain(get, hw).0| <= DrainMeasure(hw)
  {
    DrainBounded(get, hw, DrainMeasure(hw) + 1);
  }

  lemma {:induction false} DrainBounded(get: Get, hw: Hw, n: nat)
    requires forall h :: GetShrinks(get, h)
    requires n > DrainMeasure(hw)
    ensures |GetMany(get, hw, n).0| <= DrainMeasure(hw)
    decreases n
  {
    assert GetShrinks(get, hw);
    var (b, h) := get(hw);
    if b.Some? {
      DrainBounded(get, h, n - 1);
    }
  }

  /** The rx_callback calls for the drained bytes: one per byte, in order,
      when a callback is set. */
  function RxEvents(cb: Option<Callback>, bytes: seq<bv8>): (e: seq<Event>)
    ensures |e| == (if cb.Some? then |bytes| else 0)
    ensures forall i :: 0 <= i < |e| ==> e[i] == RxCall(cb.value, bytes[i])
    decreases |bytes|
  {
    if cb.None? || bytes == [] then []
    else [RxCall(cb.value, bytes[0])] + RxEvents(cb, bytes[1..])
  }

  lemma RxEventsAppend(cb: Option<Callback>, bytes: seq<bv8>, b: bv8)
    ensures RxEvents(cb, bytes + [b]) == RxEvents(cb, bytes) + (if cb.Some? then [RxCall(cb.value, b)] else [])
  {
    var e := RxEvents(cb, bytes + [b]);
    var f := RxEvents(cb, bytes) + (if cb.Some? then [RxCall(cb.value, b)] else []);
    assert |e| == |f|;
    forall i | 0 <= i < |e|
      ensures e[i] == f[i]
    {
      if i < |bytes| {
        assert (bytes + [b])[i] == bytes[i];
      }
    }
  }

  /** The RX and TX interrupt groups the handler dispatches on, as seen in
      `status & irq_enable`. */
  predicate RxActive(active: bv32)
  {
    active & UART_IRQ_RX_GROUP != 0
  }

  predicate TxActive(active: bv32)
  {
    active & UART_IRQ_TX_GROUP != 0
  }

  /** The first part of uart_irq_handler: read STATUS, then IE.  The
      values read and the device afterwards. */
  function IrqCause(hw: Hw): (c: (bv32, bv32, Hw))
  {
    var (status, h1) := LoadStep(hw, Status);
    var (irqEnable, h2) := LoadStep(h1, InterruptEnable);
    (status, irqEnable, h2)
  }

  /** The rest of uart_irq_handler, given the STATUS and IE values read:
      the interrupts both pending and enabled are `status & irq_enable`;
      for an RX one, drain the RX FIFO with `get`, calling rx_callback for
      each byte; for a TX one, call tx_callback once.  The callback calls
      and the device afterwards. */
  function IrqDispatch(get: Get, hw: Hw, status: bv32, irqEnable: bv32,
                       rxCb: Option<Callback>, txCb: Option<Callback>): (seq<Event>, Hw)
  {
    var active := status & irqEnable;
    var (bytes, h) := if RxActive(active) then Drain(get, hw) else ([], hw);
    var tx := if TxActive(active) && txCb.Some? then [TxCall(txCb.value)] else [];
    (RxEvents(rxCb, bytes) + tx, h)
  }

  /** uart_irq_handler as a whole, its drain made of `get`s
      (uart_getc_nonblocking's steps: `Getter(1)`). */
  function IrqSpec(get: Get, hw: Hw, rxCb: Option<Callback>, txCb: Option<Callback>): (seq<Event>, Hw)
  {
    var (status, irqEnable, h) := IrqCause(hw);
    IrqDispatch(get, h, status, irqEnable, rxCb, txCb)
  }

  /** `h` is `hw` after a read of STATUS showing `status` and then a read
      of IE showing `irqEnable`, which is what IE holds; nothing else a
      register shows changed. */
  predicate CauseShape(hw: Hw, status: bv32, irqEnable: bv32, h: Hw)
  {
    && h.log == hw.log + [Access.Read(Status, status), Access.Read(InterruptEnable, irqEnable)]
    && irqEnable == hw.ie
    && TxPushes(h.log) == TxPushes(hw.log) && RxPops(h.log) == RxPops(hw.log)
    && h.ie == hw.ie && h.config == hw.config
  }

  /** Finding the cause makes exactly two reads, STATUS then IE; the
      STATUS value is the one the device shows after its next event. */
  lemma IrqCauseOutcome(hw: Hw)
    ensures var (status, irqEnable, h) := IrqCause(hw);
      && status == StatusWord(Step(hw))
      && CauseShape(hw, status, irqEnable, h)
  {
    var (status, h1) := LoadStep(hw, Status);
    var (irqEnable, h2) := LoadStep(h1, InterruptEnable);
    LogAppend(hw.log, Access.Read(Status, status));
    LogAppend(h1.log, Access.Read(InterruptEnable, irqEnable));
    AppendAssoc(hw.log, [Access.Read(Status, status)], [Access.Read(InterruptEnable, irqEnable)]);
  }

  /** The drain takes bytes from the RX FIFO, in order, and ends on a
      STATUS read showing it empty; it moves no TX byte and writes no
      register. */
  lemma DrainOutcome(get: Get, hw: Hw)
    requires forall h :: GetExtendsLog(get, h) && GetPopsItsByte(get, h) && GetKeepsTx(get, h)
    requires forall h :: GetFails(get, h, 1) && GetShrinks(get, h) && GetOnlyReads(get, h)
    ensures var (bytes, h) := Drain(get, hw);
      && RxPops(h.log) == RxPops(hw.log) + bytes
      && TxPushes(h.log) == TxPushes(hw.log)
      && ReadsOnly(hw.log, h.log) && |hw.log| < |h.log|
      && Shows(h.log[|h.log| - 1], RxData, false)
      && h.ie == hw.ie && h.config == hw.config
  {
    var n := DrainMeasure(hw) + 1;
    GetManyExtendsLog(get, hw, n);
    GetManyPops(get, hw, n);
    GetManyKeepsTx(get, hw, n);
    GetManyStops(get, hw, n, 1);
    GetManyReadsOnly(get, hw, n);
    DrainStops(get, hw);
    var h := Drain(get, hw).1;
    assert h.log[|h.log| - 1..][0] == h.log[|h.log| - 1];
  }

  /** Dispatching on `status & irqEnable` from `hw` made the callback
      calls `events` and left `h`: no access unless an RX interrupt is
      active, and then reads only, ending on a STATUS read showing the RX
      FIFO empty; no TX byte moved; exactly the bytes taken reported, in order, then
      the TX call. */
  predicate Dispatched(hw: Hw, status: bv32, irqEnable: bv32, rxCb: Option<Callback>, txCb: Option<Callback>,
                       events: seq<Event>, h: Hw)
  {
    var active := status & irqEnable;
    && ReadsOnly(hw.log, h.log)
    && TxPushes(h.log) == TxPushes(hw.log)
    && h.ie == hw.ie && h.config == hw.config
    && (!RxActive(active) ==> h.log == hw.log)
    && (RxActive(active) ==> |hw.log| < |h.log| && Shows(h.log[|h.log| - 1], RxData, false))
    && |RxPops(hw.log)| <= |RxPops(h.log)|
    && events == RxEvents(rxCb, RxPops(h.log)[|RxPops(hw.log)|..])
                 + (if TxActive(active) && txCb.Some? then [TxCall(txCb.value)] else [])
  }

  lemma IrqDispatchOutcome(get: Get, hw: Hw, status: bv32, irqEnable: bv32,
                           rxCb: Option<Callback>, txCb: Option<Callback>)
    requires forall h :: GetExtendsLog(get, h) && GetPopsItsByte(get, h) && GetKeepsTx(get, h)
    requires forall h :: GetFails(get, h, 1) && GetShrinks(get, h) && GetOnlyReads(get, h)
    ensures var (events, h) := IrqDispatch(get, hw, status, irqEnable, rxCb, txCb);
      Dispatched(hw, status, irqEnable, rxCb, txCb, events, h)
  {
    if RxActive(status & irqEnable) {
      DrainOutcome(get, hw);
      var d := Drain(get, hw);
      DropPrefix(RxPops(d.1.log), RxPops(hw.log), d.0);
    } else {
      DropPrefix(RxPops(hw.log), RxPops(hw.log), []);
    }
  }

  lemma DropPrefix<T>(a: seq<T>, b: seq<T>, c: seq<T>)
    requires a == b + c
    ensures |b| <= |a| && a[|b|..] == c
  {
  }

  /** What the handler is promised to do, from `hw`, given the callback
      calls `events` it made and the device `h` it left: it read STATUS
      (showing `status`) and then IE (showing `irqEnable`, what IE holds);
      it wrote no register and moved no TX byte; it dispatched on
      `status & irqEnable`: after an RX interrupt it read the RX FIFO until
      a STATUS read showed it empty and reported exactly the bytes it
      took, in order; otherwise it made no further access.  The TX
      callback is called once, last, exactly when a TX interrupt is
      pending and enabled and a callback is set. */
  predicate Handled(hw: Hw, status: bv32, irqEnable: bv32, rxCb: Option<Callback>, txCb: Option<Callback>,
                    events: seq<Event>, h: Hw)
  {
    var active := status & irqEnable;
    && hw.log < h.log && |hw.log| + 2 <= |h.log|
    && h.log[|hw.log|] == Access.Read(Status, status)
    && h.log[|hw.log| + 1] == Access.Read(InterruptEnable, irqEnable)
    && ReadsOnly(hw.log, h.log)
    && irqEnable == hw.ie
    && TxPushes(h.log) == TxPushes(hw.log)
    && h.ie == hw.ie && h.config == hw.config
    && (!RxActive(active) ==> |h.log| == |hw.log| + 2)
    && (RxActive(active) ==> Shows(h.log[|h.log| - 1], RxData, false))
    && |RxPops(hw.log)| <= |RxPops(h.log)|
    && events == RxEvents(rxCb, RxPops(h.log)[|RxPops(hw.log)|..])
                 + (if TxActive(active) && txCb.Some? then [TxCall(txCb.value)] else [])
  }

  /** uart_irq_handler does what `Handled` says, on the STATUS value the
      device shows after its next event and the IE value it holds. */
  lemma IrqOutcome(hw: Hw, rxCb: Option<Callback>, txCb: Option<Callback>)
    ensures var (events, h) := IrqSpec(Getter(1), hw, rxCb, txCb);
      Handled(hw, StatusWord(Step(hw)), hw.ie, rxCb, txCb, events, h)
  {
    GetterBehaves(1);
    GetterShrinks(Getter(1));
    GetterReadsOnly(1);
    IrqHandled(Getter(1), hw, rxCb, txCb);
  }

  lemma IrqHandled(get: Get, hw: Hw, rxCb: Option<Callback>, txCb: Option<Callback>)
    requires forall h :: GetExtendsLog(get, h) && GetPopsItsByte(get, h) && GetKeepsTx(get, h)
    requires forall h :: GetFails(get, h, 1) && GetShrinks(get, h) && GetOnlyReads(get, h)
    ensures var (events, h) := IrqSpec(get, hw, rxCb, txCb);
      Handled(hw, StatusWord(Step(hw)), hw.ie, rxCb, txCb, events, h)
  {
    IrqCauseOutcome(hw);
    var c := IrqCause(hw);
    IrqDispatchOutcome(get, c.2, c.0, c.1, rxCb, txCb);
    var d := IrqDispatch(get, c.2, c.0, c.1, rxCb, txCb);
    IrqGlue(hw, c.0, c.1, c.2, rxCb, txCb, d.0, d.1);
  }

  /** Finding the cause and then dispatching on it is handling. */
  lemma IrqGlue(hw: Hw, status: bv32, irqEnable: bv32, h1: Hw, rxCb: Option<Callback>, txCb: Option<Callback>,
                events: seq<Event>, h: Hw)
    requires CauseShape(hw, status, irqEnable, h1)
    requires Dispatched(h1, status, irqEnable, rxCb, txCb, events, h)
    ensures Handled(hw, status, irqEnable, rxCb, txCb, events, h)
  {
    PrefixLogs(hw.log, h1.log, h.log, Access.Read(Status, status), Access.Read(InterruptEnable, irqEnable));
    assert ReadsOnly(hw.log, h1.log);
    ReadsOnlyTrans(hw.log, h1.log, h.log);
  }

  lemma PrefixLogs(l0: seq<Access>, l1: seq<Access>, l2: seq<Access>, a: Access, b: Access)
    requires l1 == l0 + [a, b] && l1 <= l2
    ensures l0 < l2 && |l0| + 2 <= |l2| && l2[|l0|] == a && l2[|l0| + 1] == b
  {
    assert l2[|l0|] == l1[|l0|];
    assert l2[|l0| + 1] == l1[|l0| + 1];
  }

  /** The drain loop, along the run of nonblocking gets it makes. */
  method DrainLoop(h: UartHandle, ghost get: Get, ghost bytes: seq<bv8>, ghost states: seq<Hw>)
      returns (events: seq<Event>)
    requires h.base != null && IsGetter(get, 1)
    requires |states| == |bytes| + 1 && h.base.hw == states[0]
    requires forall k :: 0 <= k < |bytes| ==>
      get(states[k]).0 == Some(bytes[k]) && get(states[k]).1 == states[k + 1]
    requires get(states[|bytes|]).0.None?
    modifies h.base
    ensures events == RxEvents(h.rxCallback, bytes) && h.base.hw == get(states[|bytes|]).1
  {
    events := [];
    ghost var i: nat := 0;
    while true
      invariant i <= |bytes| && h.base.hw == states[i]
      invariant events == RxEvents(h.rxCallback, bytes[..i])
      decreases |bytes| - i
    {
      // The loop body is the same STATUS test and RX_FIFO read as
      // uart_getc_nonblocking's.
      var byte := GetcNonblocking(h, get);
      if byte < 0 {
        assert i == |bytes|;
        assert bytes[..i] == bytes;
        break;
      }
      ReportOneMore(h.rxCallback, bytes, i, byte);
      if h.rxCallback.Some? {
        events := events + [RxCall(h.rxCallback.value, (byte % 256) as bv8)];
      }
      i := i + 1;
    }
  }

  /** Reporting the byte `c` the next get returned extends the report by
      one call. */
  lemma ReportOneMore(cb: Option<Callback>, bytes: seq<bv8>, i: nat, c: int)
    requires i < |bytes| && c == bytes[i] as int
    ensures RxEvents(cb, bytes[..i + 1])
            == RxEvents(cb, bytes[..i]) + (if cb.Some? then [RxCall(cb.value, (c % 256) as bv8)] else [])
  {
    RxEventsAppend(cb, bytes[..i], bytes[i]);
    TakeOneMore(bytes, i);
    ByteRoundTrip(bytes[i]);
  }

  method IrqHandler(h: UartHandle?) returns (events: seq<Event>)
    requires h != null ==> h.base != null
    modifies Port(h)
    ensures h == null ==> events == [] && unchanged(Port(h))
    ensures h != null ==> var (e, hw) := IrqSpec(Getter(1), old(h.base.hw), h.rxCallback, h.txCallback);
      events == e && h.base.hw == hw
  {
    if h == null {
      return [];
    }
    events := HandleIrq(h, Getter(1));
  }

  /** The handler's body, its drain made of `get`s. */
  method HandleIrq(h: UartHandle, ghost get: Get) returns (events: seq<Event>)
    requires h.base != null && IsGetter(get, 1)
    modifies h.base
    ensures var (e, hw) := IrqSpec(get, old(h.base.hw), h.rxCallback, h.txCallback);
      events == e && h.base.hw == hw
  {
    var status := h.base.Load(Status);
    var irqEnable := h.base.Load(InterruptEnable);
    events := DispatchIrq(h, status, irqEnable, get);
  }

  method DispatchIrq(h: UartHandle, status: bv32, irqEnable: bv32, ghost get: Get) returns (events: seq<Event>)
    requires h.base != null && IsGetter(get, 1)
    modifies h.base
    ensures var (e, hw) := IrqDispatch(get, old(h.base.hw), status, irqEnable, h.rxCallback, h.txCallback);
      events == e && h.base.hw == hw
  {
    var active := status & irqEnable;
    events := [];
    if active & UART_IRQ_RX_GROUP != 0 {
      ghost var hw := h.base.hw;
      GetterShrinks(get);
      DrainStops(get, hw);
      ghost var states := GetManyTrace(get, hw, DrainMeasure(hw) + 1);
      events := DrainLoop(h, get, Drain(get, hw).0, states);
    }
    if active & UART_IRQ_TX_GROUP != 0 {
      if h.txCallback.Some? {
        events := events + [TxCall(h.txCallback.value)];
      }
    }
  }

  // ---------------------------------------------------------------------
  // Waiting for the transmitter
  // ---------------------------------------------------------------------

  /** The 32-bit countdown uart_wait_tx_complete starts from for a nonzero
      timeout: timeout_ms * 1000, wrapped to 32 bits. */
  function WaitCount(timeoutMs: bv32): (t: nat)
    ensures t < 0x1_0000_0000
  {
    (timeoutMs as int * 1000) % 0x1_0000_0000
  }

  /** The number of STATUS reads a countdown `t` allows: `--timeout == 0`
      first holds after `t` decrements, or after 2^32 when `t` is 0. */
  function Budget(t: nat): (n: nat)
    requires t < 0x1_0000_0000
    ensures 1 <= n <= 0x1_0000_0000
  {
    if t == 0 then 0x1_0000_0000 else t
  }

  /** The wait loop of uart_wait_tx_complete from the countdown value
      `timeout`: read STATUS and stop with 0 once it shows the TX FIFO
      empty; otherwise, for a nonzero timeout_ms only, decrement the 32-bit
      countdown and give up with -1 when it reaches 0.  With a zero
      timeout_ms the loop has no bound, so it is defined only when the TX
      FIFO eventually shows empty. */
  function WaitLoop(hw: Hw, timeoutMs: bv32, timeout: nat): (int, Hw)
    requires timeout < 0x1_0000_0000
    requires timeoutMs == 0 ==> Eventually(hw, TxDrained)
    decreases if timeoutMs != 0 then Budget(timeout) else |hw.env|
  {
    var (empty, h) := StatusTest(hw, TxDrained);
    if empty then (0, h)
    else if timeoutMs != 0 then
      var t := (timeout - 1) % 0x1_0000_0000;
      if t == 0 then (-1, h) else WaitLoop(h, timeoutMs, t)
    else WaitLoop(h, timeoutMs, timeout)
  }

  /** The countdown uart_wait_tx_complete starts from. */
  function StartCount(timeoutMs: bv32): (t: nat)
    ensures t < 0x1_0000_0000
    ensures timeoutMs != 0 ==> t == WaitCount(timeoutMs)
  {
    if timeoutMs != 0 then WaitCount(timeoutMs) else TIMEOUT_COUNT
  }

  /** The wait loop is a bounded poll of `Budget(timeout)` STATUS reads
      for a nonzero timeout_ms, succeeding with 0 and failing with -1, and
      an unbounded poll for a zero timeout_ms. */
  lemma {:induction false} WaitLoopIsPoll(hw: Hw, timeoutMs: bv32, timeout: nat)
    requires timeout < 0x1_0000_0000
    requires timeoutMs == 0 ==> Eventually(hw, TxDrained)
    ensures timeoutMs != 0 ==>
      var (ok, h) := PollStatus(hw, TxDrained, Budget(timeout));
      WaitLoop(hw, timeoutMs, timeout) == (if ok then 0 else -1, h)
    ensures timeoutMs == 0 ==> WaitLoop(hw, timeoutMs, timeout) == (0, PollUntil(hw, TxDrained))
    decreases if timeoutMs != 0 then Budget(timeout) else |hw.env|
  {
    var (empty, h1) := StatusTest(hw, TxDrained);
    if !empty {
      if timeoutMs != 0 {
        var t := (timeout - 1) % 0x1_0000_0000;
        if t == 0 {
          assert Budget(timeout) == 1;
        } else {
          assert Budget(t) == Budget(timeout) - 1;
          WaitLoopIsPoll(h1, timeoutMs, t);
          assert PollStatus(hw, TxDrained, Budget(timeout)) == PollStatus(h1, TxDrained, Budget(t));
        }
      } else {
        WaitLoopIsPoll(h1, timeoutMs, timeout);
      }
    }
  }

  /** What uart_wait_tx_complete's loop is promised to do from `hw` and
      countdown `timeout`, given the result `r` and the device `h` it
      left: it returns 0 only after a STATUS read showed the TX FIFO empty
      (and it is empty), and -1 only for a nonzero timeout_ms, after
      `Budget(timeout)` STATUS reads all showing it not empty; it does
      nothing but read STATUS. */
  predicate WaitDone(hw: Hw, timeoutMs: bv32, timeout: nat, r: int, h: Hw)
    requires timeout < 0x1_0000_0000
  {
    && (r == 0 || r == -1)
    && PollLog(hw.log, h.log, TxDrained)
    && (r == 0 ==> Ready(TxDrained, h.log[|h.log| - 1].value) && |h.tx| == 0)
    && (r == -1 ==> timeoutMs != 0 && |h.log| == |hw.log| + Budget(timeout)
                    && Polls(h.log[|hw.log|..], TxDrained, false))
    && TxPushes(h.log) == TxPushes(hw.log) && RxPops(h.log) == RxPops(hw.log)
    && h.ie == hw.ie && h.config == hw.config
  }

  lemma WaitLoopOutcome(hw: Hw, timeoutMs: bv32, timeout: nat)
    requires timeout < 0x1_0000_0000
    requires timeoutMs == 0 ==> Eventually(hw, TxDrained)
    ensures WaitDone(hw, timeoutMs, timeout, WaitLoop(hw, timeoutMs, timeout).0, WaitLoop(hw, timeoutMs, timeout).1)
  {
    WaitLoopIsPoll(hw, timeoutMs, timeout);
    if timeoutMs != 0 {
      PollStatusOutcome(hw, TxDrained, Budget(timeout));
      var p := PollStatus(hw, TxDrained, Budget(timeout));
      WaitFromPoll(hw, p.1, p.0, timeoutMs, timeout);
    } else {
      PollUntilOutcome(hw, TxDrained);
      WaitFromPoll(hw, PollUntil(hw, TxDrained), true, timeoutMs, timeout);
    }
  }

  /** A poll for an empty TX FIFO that did what `PollStatusOutcome` or
      `PollUntilOutcome` says is a wait that did what `WaitDone` says. */
  lemma WaitFromPoll(hw: Hw, h: Hw, ok: bool, timeoutMs: bv32, timeout: nat)
    requires timeout < 0x1_0000_0000
    requires PollLog(hw.log, h.log, TxDrained)
    requires Ready(TxDrained, h.log[|h.log| - 1].value) <==> ok
    requires !ok ==> timeoutMs != 0 && |h.log| == |hw.log| + Budget(timeout)
    requires PollState(hw, h) && (ok ==> Holds(TxDrained, h))
    ensures WaitDone(hw, timeoutMs, timeout, if ok then 0 else -1, h)
  {
    PollLogMovesNoData(hw.log, h.log, TxDrained);
    if !ok {
      FailedPollLog(hw.log, h.log, TxDrained);
    }
  }

  method WaitTxComplete(h: UartHandle?, timeoutMs: bv32) returns (r: int)
    requires h != null ==> h.base != null
    requires h != null && timeoutMs == 0 ==> Eventually(h.base.hw, TxDrained)
    modifies Port(h)
    ensures h == null ==> r == -1 && unchanged(Port(h))
    ensures h != null ==> var (code, hw) := WaitLoop(old(h.base.hw), timeoutMs, StartCount(timeoutMs));
      r == code && h.base.hw == hw
  {
    if h == null {
      return -1;
    }
    var timeout: int := if timeoutMs != 0 then WaitCount(timeoutMs) else TIMEOUT_COUNT;
    r := WaitTxLoop(h, timeoutMs, timeout);
    // The busy-wait for the shift register that follows a success is not
    // modelled.
  }

  /** The polling loop of uart_wait_tx_complete from countdown `timeout`. */
  method WaitTxLoop(h: UartHandle, timeoutMs: bv32, timeout0: int) returns (r: int)
    requires h.base != null
    requires 0 <= timeout0 < 0x1_0000_0000
    requires timeoutMs == 0 ==> Eventually(h.base.hw, TxDrained)
    modifies h.base
    ensures r == WaitLoop(old(h.base.hw), timeoutMs, timeout0).0
    ensures h.base.hw == WaitLoop(old(h.base.hw), timeoutMs, timeout0).1
  {
    ghost var spec := WaitLoop(h.base.hw, timeoutMs, timeout0);
    var timeout := timeout0;
    while true
      invariant 0 <= timeout < 0x1_0000_0000
      invariant timeoutMs == 0 ==> Eventually(h.base.hw, TxDrained)
      invariant WaitLoop(h.base.hw, timeoutMs, timeout).0 == spec.0
      invariant WaitLoop(h.base.hw, timeoutMs, timeout).1 == spec.1
      decreases if timeoutMs != 0 then Budget(timeout) else |h.base.hw.env|
    {
      var empty := TxFifoEmpty(h);
      if empty {
        return 0;
      }
      if timeoutMs != 0 {
        timeout := (timeout - 1) % 0x1_0000_0000;
        if timeout == 0 {
          return -1;
        }
      }
    }
  }
}

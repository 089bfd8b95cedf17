/** The interrupt-capable UART driver: a handle that remembers the block's
    base, the configuration and two callbacks; blocking operations with a
    bounded spin of TIMEOUT_COUNT STATUS polls; non-blocking variants that
    poll once; and an interrupt handler that drains the RX FIFO through the
    RX callback and signals TX demand through the TX callback.  Register
    accesses go through a `UartPort`; the callbacks are identified by
    number and each call is reported as an `Event`. */
module UartDriver {
  import opened Common
  import opened UartRegs
  import opened UartHw

  /** The bound of the blocking spins. */
  const TIMEOUT_COUNT: nat := 100000

  // Codes of the driver's enumerations.  The header that declares them is
  // not part of this model: the baud codes follow the switch of
  // uart_get_baud_rate_value and the other codes are the usual ones.
  const UART_BAUD_9600: bv32 := 0
  const UART_BAUD_19200: bv32 := 1
  const UART_BAUD_38400: bv32 := 2
  const UART_BAUD_57600: bv32 := 3
  const UART_BAUD_115200: bv32 := 4
  const UART_BAUD_230400: bv32 := 5
  const UART_BAUD_460800: bv32 := 6
  const UART_BAUD_921600: bv32 := 7
  const UART_DATA_BITS_8: bv32 := 3
  const UART_STOP_BITS_1: bv32 := 0
  const UART_THRESHOLD_1: bv32 := 0
  const UART_THRESHOLD_14: bv32 := 7

  // CONFIG field positions as the field comments of uart_build_config give them.
  const UART_CONFIG_DATA_BITS_POS: bv32 := 0
  const UART_CONFIG_USE_PARITY_POS: bv32 := 2
  const UART_CONFIG_PARITY_TYPE_POS: bv32 := 3
  const UART_CONFIG_STOP_BITS_POS: bv32 := 4
  const UART_CONFIG_BAUD_RATE_POS: bv32 := 5
  const UART_CONFIG_RX_THRESHOLD_POS: bv32 := 9
  const UART_CONFIG_TX_THRESHOLD_POS: bv32 := 12

  const UART_FIFO_CLEAR_BOTH: bv32 := UART_FIFO_CLEAR_TX | UART_FIFO_CLEAR_RX

  // The interrupt groups the handler dispatches on.
  const UART_IRQ_RX_GROUP: bv32 := UART_IE_RX_FIFO_THRESHOLD | UART_IE_RX_FIFO_FULL
  const UART_IRQ_TX_GROUP: bv32 := UART_IE_TX_FIFO_THRESHOLD | UART_IE_TX_FIFO_EMPTY

  datatype Parity = ParityNone | ParityEven | ParityOdd

  datatype UartConfig = UartConfig(
    baudRate: bv32,
    dataBits: bv32,
    parity: Parity,
    stopBits: bv32,
    txThreshold: bv32,
    rxThreshold: bv32)

  /** 115200 baud, 8 data bits, no parity, 1 stop bit; TX threshold
      "almost empty", RX threshold "almost full". */
  const DEFAULT_CONFIG := UartConfig(UART_BAUD_115200, UART_DATA_BITS_8, ParityNone,
                                     UART_STOP_BITS_1, UART_THRESHOLD_1, UART_THRESHOLD_14)

  // ---------------------------------------------------------------------------
  // CONFIG register value
  // ---------------------------------------------------------------------------

  /** The CONFIG register value for a configuration. */
  function BuildConfig(c: UartConfig): bv32
  {
    var data := (c.dataBits & 0x3) << UART_CONFIG_DATA_BITS_POS;
    var parity := ParityBits(c.parity);
    var stop := (c.stopBits & 0x1) << UART_CONFIG_STOP_BITS_POS;
    var baud := (c.baudRate & 0x7) << UART_CONFIG_BAUD_RATE_POS;
    var rx := (c.rxThreshold & 0x7) << UART_CONFIG_RX_THRESHOLD_POS;
    var tx := (c.txThreshold & 0x7) << UART_CONFIG_TX_THRESHOLD_POS;
    data | parity | stop | baud | rx | tx
  }

  /** The parity part of CONFIG: bit 2 enables parity, bit 3 selects odd. */
  function ParityBits(p: Parity): bv32
  {
    if p != ParityNone then
      (1 << UART_CONFIG_USE_PARITY_POS) | (if p == ParityOdd then 1 << UART_CONFIG_PARITY_TYPE_POS else 0)
    else 0
  }

  /** Each field of the configuration, masked to its width, is at its
      position in the CONFIG value, and no other bit is set. */
  lemma BuildConfigLayout(c: UartConfig)
    ensures var r := BuildConfig(c);
      && r & 0x3 == c.dataBits & 0x3
      && (r >> 2) & 1 == (if c.parity != ParityNone then 1 else 0)
      && (r >> 3) & 1 == (if c.parity == ParityOdd then 1 else 0)
      && (r >> 4) & 1 == c.stopBits & 1
      && (r >> 5) & 0x7 == c.baudRate & 0x7
      && (r >> 9) & 0x7 == c.rxThreshold & 0x7
      && (r >> 12) & 0x7 == c.txThreshold & 0x7
      && r & 0xFFFF_8100 == 0
  {
    var p := ParityBits(c.parity);
    ParityBitsLayout(c.parity);
    FieldsLayout(c.dataBits, p, c.stopBits, c.baudRate, c.rxThreshold, c.txThreshold);
  }

  lemma ParityBitsLayout(p: Parity)
    ensures ParityBits(p) & !0xC == 0
    ensures (ParityBits(p) >> 2) & 1 == (if p != ParityNone then 1 else 0)
    ensures (ParityBits(p) >> 3) & 1 == (if p == ParityOdd then 1 else 0)
  {
  }

  /** The bit-level core of the layout: ORing fields masked to disjoint
      positions keeps each one recoverable. */
  lemma FieldsLayout(d: bv32, p: bv32, s: bv32, b: bv32, rx: bv32, tx: bv32)
    requires p & !0xC == 0
    ensures var r := ((d & 0x3) << 0) | p | ((s & 0x1) << 4) | ((b & 0x7) << 5) | ((rx & 0x7) << 9) | ((tx & 0x7) << 12);
      && r & 0x3 == d & 0x3
      && (r >> 2) & 1 == (p >> 2) & 1
      && (r >> 3) & 1 == (p >> 3) & 1
      && (r >> 4) & 1 == s & 1
      && (r >> 5) & 0x7 == b & 0x7
      && (r >> 9) & 0x7 == rx & 0x7
      && (r >> 12) & 0x7 == tx & 0x7
      && r & 0xFFFF_8100 == 0
  {
  }

  /** The fields of a CONFIG value, read back at the driver's positions. */
  datatype ConfigFields = ConfigFields(
    dataBits: bv32, useParity: bool, oddParity: bool, stopBits: bv32,
    baudRate: bv32, rxThreshold: bv32, txThreshold: bv32)

  function DecodeConfig(r: bv32): ConfigFields
  {
    ConfigFields(
      (r >> UART_CONFIG_DATA_BITS_POS) & 0x3,
      (r >> UART_CONFIG_USE_PARITY_POS) & 1 == 1,
      (r >> UART_CONFIG_PARITY_TYPE_POS) & 1 == 1,
      (r >> UART_CONFIG_STOP_BITS_POS) & 1,
      (r >> UART_CONFIG_BAUD_RATE_POS) & 0x7,
      (r >> UART_CONFIG_RX_THRESHOLD_POS) & 0x7,
      (r >> UART_CONFIG_TX_THRESHOLD_POS) & 0x7)
  }

  /** Every field of a configuration fits its width. */
  predicate FitsFields(c: UartConfig)
  {
    c.dataBits < 4 && c.stopBits < 2 && c.baudRate < 8 && c.rxThreshold < 8 && c.txThreshold < 8
  }

  /** Decoding a built CONFIG value gives back each field, truncated to its width. */
  lemma DecodeBuildConfig(c: UartConfig)
    ensures DecodeConfig(BuildConfig(c)) ==
      ConfigFields(c.dataBits & 0x3, c.parity != ParityNone, c.parity == ParityOdd,
                   c.stopBits & 1, c.baudRate & 0x7, c.rxThreshold & 0x7, c.txThreshold & 0x7)
  {
    BuildConfigLayout(c);
  }

  /** Configurations whose fields fit are told apart by their CONFIG value. */
  lemma BuildConfigInjective(c1: UartConfig, c2: UartConfig)
    requires FitsFields(c1) && FitsFields(c2)
    requires BuildConfig(c1) == BuildConfig(c2)
    ensures c1 == c2
  {
    DecodeBuildConfig(c1);
    DecodeBuildConfig(c2);
    assert c1.dataBits & 0x3 == c1.dataBits && c2.dataBits & 0x3 == c2.dataBits;
    assert c1.stopBits & 1 == c1.stopBits && c2.stopBits & 1 == c2.stopBits;
    assert c1.baudRate & 0x7 == c1.baudRate && c2.baudRate & 0x7 == c2.baudRate;
    assert c1.rxThreshold & 0x7 == c1.rxThreshold && c2.rxThreshold & 0x7 == c2.rxThreshold;
    assert c1.txThreshold & 0x7 == c1.txThreshold && c2.txThreshold & 0x7 == c2.txThreshold;
  }

  /** The driver's layout agrees with the register map's CONFIG fields,
      except for bit 3: the driver sets it for odd parity, while the
      register map calls it UART_CFG_PARITY_EVEN. */
  lemma ConfigAgreesWithRegisterMap(c: UartConfig)
    ensures BuildConfig(c) & UART_CFG_DATA_BITS_MASK == c.dataBits & 0x3
    ensures BuildConfig(c) & UART_CFG_BAUD_MASK == BaudField(c.baudRate & 0x7)
    ensures BuildConfig(c) & UART_CFG_RX_THRESH_MASK == (c.rxThreshold & 0x7) << UART_CFG_RX_THRESH_SHIFT
    ensures BuildConfig(c) & UART_CFG_TX_THRESH_MASK == (c.txThreshold & 0x7) << UART_CFG_TX_THRESH_SHIFT
    ensures (BuildConfig(c) & UART_CFG_USE_PARITY != 0) == (c.parity != ParityNone)
    ensures (BuildConfig(c) & UART_CFG_STOP_2 != 0) == (c.stopBits & 1 == 1)
    ensures (BuildConfig(c) & UART_CFG_PARITY_EVEN != 0) == (c.parity == ParityOdd)
  {
    BuildConfigLayout(c);
    RegisterMasksSelectFields(BuildConfig(c));
  }

  /** Each register-map mask selects the bits of one field. */
  lemma RegisterMasksSelectFields(r: bv32)
    ensures r & UART_CFG_DATA_BITS_MASK == r & 0x3
    ensures r & UART_CFG_BAUD_MASK == ((r >> 5) & 0x7) << UART_CFG_BAUD_SHIFT
    ensures r & UART_CFG_RX_THRESH_MASK == ((r >> 9) & 0x7) << UART_CFG_RX_THRESH_SHIFT
    ensures r & UART_CFG_TX_THRESH_MASK == ((r >> 12) & 0x7) << UART_CFG_TX_THRESH_SHIFT
    ensures (r & UART_CFG_USE_PARITY != 0) == ((r >> 2) & 1 == 1)
    ensures (r & UART_CFG_PARITY_EVEN != 0) == ((r >> 3) & 1 == 1)
    ensures (r & UART_CFG_STOP_2 != 0) == ((r >> 4) & 1 == 1)
  {
  }

  /** The default configuration is the register map's 8N1 at 115200 baud
      with RX threshold code 7. */
  lemma DefaultConfigValue()
    ensures BuildConfig(DEFAULT_CONFIG) ==
      UART_CFG_DATA_8 | UART_CFG_BAUD_115200 | (UART_THRESHOLD_14 << UART_CFG_RX_THRESH_SHIFT)
    ensures BaudRateValue(DEFAULT_CONFIG.baudRate) == 115200
  {
    BuildConfigLayout(DEFAULT_CONFIG);
  }

  /** The line rate in bits per second of a baud code; an unknown code
      means 115200. */
  function BaudRateValue(code: bv32): (bps: nat)
    ensures bps % 9600 == 0 && 9600 <= bps <= 921600
    ensures code >= 8 ==> bps == 115200
  {
    match code
    case 0 => 9600
    case 1 => 19200
    case 2 => 38400
    case 3 => 57600
    case 4 => 115200
    case 5 => 230400
    case 6 => 460800
    case 7 => 921600
    case _ => 115200
  }

  /** A higher baud code means a faster line. */
  lemma BaudRateValueIncreases(a: bv32, b: bv32)
    requires a < b < 8
    ensures BaudRateValue(a) < BaudRateValue(b)
  {
  }

  // ---------------------------------------------------------------------------
  // Handle
  // ---------------------------------------------------------------------------

  /** A callback, by its identity. */
  type Callback = nat

  /** One call the interrupt handler makes. */
  datatype Event = RxCall(cb: Callback, data: bv8) | TxCall(cb: Callback)

  class UartHandle {
    var base: UartPort?
    var config: UartConfig
    var rxCallback: Option<Callback>
    var txCallback: Option<Callback>

    /** Storage for a handle, not yet initialized. */
    constructor ()
      ensures base == null && rxCallback == None && txCallback == None
    {
      base := null;
      config := DEFAULT_CONFIG;
      rxCallback := None;
      txCallback := None;
    }
  }

  /** The register block a handle refers to, as a frame. */
  function Port(h: UartHandle?): set<object>
    reads h
  {
    if h != null && h.base != null then {h.base} else {}
  }

  /** The register accesses of uart_configure: CONFIG, then one STATUS read
      to clear the sticky error bits. */
  function ConfigureSequence(hw: Hw, c: UartConfig): Hw
  {
    LoadStep(StoreStep(hw, Config, BuildConfig(c)), Status).1
  }

  /** The register accesses of uart_init_with_config: interrupts off, both
      FIFOs flushed, then configure. */
  function InitSequence(hw: Hw, c: UartConfig): Hw
  {
    ConfigureSequence(StoreStep(StoreStep(hw, InterruptEnable, 0), FifoClear, UART_FIFO_CLEAR_BOTH), c)
  }

  /** The register accesses of uart_deinit: interrupts off, both FIFOs flushed. */
  function DeinitSequence(hw: Hw): Hw
  {
    StoreStep(StoreStep(hw, InterruptEnable, 0), FifoClear, UART_FIFO_CLEAR_BOTH)
  }

  /** Initialization writes IE, FIFO_CLEAR and CONFIG in that order and
      then reads STATUS once; it leaves interrupts off, the TX FIFO empty,
      the RX FIFO holding at most a byte that arrived during the read, no
      sticky error and no byte moved. */
  lemma InitSequenceOutcome(hw: Hw, c: UartConfig)
    ensures var h := InitSequence(hw, c);
      && |h.log| == |hw.log| + 4
      && h.log[..|hw.log| + 3] == hw.log + [Write(InterruptEnable, 0), Write(FifoClear, UART_FIFO_CLEAR_BOTH),
                                           Write(Config, BuildConfig(c))]
      && h.log[|hw.log| + 3].Read? && h.log[|hw.log| + 3].reg == Status
      && h.ie == 0 && h.config == BuildConfig(c) && h.tx == [] && |h.rx| <= 1 && h.sticky == 0
  {
  }

  /** Deinitialization writes IE then FIFO_CLEAR and leaves interrupts off
      and both FIFOs empty. */
  lemma DeinitSequenceOutcome(hw: Hw)
    ensures var h := DeinitSequence(hw);
      && h.log == hw.log + [Write(InterruptEnable, 0), Write(FifoClear, UART_FIFO_CLEAR_BOTH)]
      && h.ie == 0 && h.tx == [] && h.rx == [] && h.config == hw.config
  {
  }

  method Init(h: UartHandle?, base: UartPort) returns (r: int)
    modifies h, base
    ensures h == null ==> r == -1 && unchanged(base)
    ensures h != null ==> r == 0 && h.base == base && h.config == DEFAULT_CONFIG
                          && h.rxCallback == None && h.txCallback == None
                          && base.hw == InitSequence(old(base.hw), DEFAULT_CONFIG)
  {
    r := InitWithConfig(h, base, Some(DEFAULT_CONFIG));
  }

  method InitWithConfig(h: UartHandle?, base: UartPort, config: Option<UartConfig>) returns (r: int)
    modifies h, base
    ensures h == null || config.None? ==> r == -1 && unchanged(base) && (h != null ==> unchanged(h))
    ensures h != null && config.Some? ==>
      && r == 0 && h.base == base && h.config == config.value
      && h.rxCallback == None && h.txCallback == None
      && base.hw == InitSequence(old(base.hw), config.value)
  {
    if h == null || config.None? {
      return -1;
    }
    h.base := base;
    h.rxCallback := None;
    h.txCallback := None;
    base.Store(InterruptEnable, 0);
    ClearFifos(h);
    r := Configure(h, config);
  }

  method Configure(h: UartHandle?, config: Option<UartConfig>) returns (r: int)
    requires h != null ==> h.base != null
    modifies h, Port(h)
    ensures h == null || config.None? ==> r == -1 && (h != null ==> unchanged(h)) && unchanged(Port(h))
    ensures h != null && config.Some? ==>
      && r == 0 && h.config == config.value && h.base == old(h.base)
      && h.rxCallback == old(h.rxCallback) && h.txCallback == old(h.txCallback)
      && h.base.hw == ConfigureSequence(old(h.base.hw), config.value)
  {
    if h == null || config.None? {
      return -1;
    }
    var configReg := BuildConfig(config.value);
    h.base.Store(Config, configReg);
    h.config := config.value;
    var _ := h.base.Load(Status);
    return 0;
  }

  method Deinit(h: UartHandle?)
    requires h != null ==> h.base != null
    modifies h, Port(h)
    ensures h != null ==> && h.base == null && h.rxCallback == None && h.txCallback == None
                          && h.config == old(h.config)
                          && old(h.base).hw == DeinitSequence(old(h.base.hw))
  {
    if h == null {
      return;
    }
    h.base.Store(InterruptEnable, 0);
    ClearFifos(h);
    h.base := null;
    h.rxCallback := None;
    h.txCallback := None;
  }

  // ---------------------------------------------------------------------------
  // FIFO management and status
  // ---------------------------------------------------------------------------

  method ClearTxFifo(h: UartHandle?)
    requires h != null ==> h.base != null
    modifies Port(h)
    ensures h != null ==> h.base.hw == StoreStep(old(h.base.hw), FifoClear, UART_FIFO_CLEAR_TX)
  {
    if h == null {
      return;
    }
    h.base.Store(FifoClear, UART_FIFO_CLEAR_TX);
  }

  method ClearRxFifo(h: UartHandle?)
    requires h != null ==> h.base != null
    modifies Port(h)
    ensures h != null ==> h.base.hw == StoreStep(old(h.base.hw), FifoClear, UART_FIFO_CLEAR_RX)
  {
    if h == null {
      return;
    }
    h.base.Store(FifoClear, UART_FIFO_CLEAR_RX);
  }

  method ClearFifos(h: UartHandle?)
    requires h != null ==> h.base != null
    modifies Port(h)
    ensures h != null ==> h.base.hw == StoreStep(old(h.base.hw), FifoClear, UART_FIFO_CLEAR_BOTH)
  {
    if h == null {
      return;
    }
    h.base.Store(FifoClear, UART_FIFO_CLEAR_BOTH);
  }

  /** Each clear empties exactly the FIFOs it names. */
  lemma FifoClearsEmptyTheNamedFifos(hw: Hw)
    ensures StoreStep(hw, FifoClear, UART_FIFO_CLEAR_TX).tx == [] && StoreStep(hw, FifoClear, UART_FIFO_CLEAR_TX).rx == hw.rx
    ensures StoreStep(hw, FifoClear, UART_FIFO_CLEAR_RX).rx == [] && StoreStep(hw, FifoClear, UART_FIFO_CLEAR_RX).tx == hw.tx
    ensures StoreStep(hw, FifoClear, UART_FIFO_CLEAR_BOTH).tx == [] && StoreStep(hw, FifoClear, UART_FIFO_CLEAR_BOTH).rx == []
  {
  }

  method TxFifoEmpty(h: UartHandle?) returns (b: bool)
    requires h != null ==> h.base != null
    modifies Port(h)
    ensures h == null ==> b
    ensures h != null ==> (b, h.base.hw) == StatusTest(old(h.base.hw), TxDrained)
  {
    if h == null {
      return true;
    }
    var status := h.base.Load(Status);
    return status & UART_STATUS_TX_FIFO_EMPTY != 0;
  }

  method TxFifoFull(h: UartHandle?) returns (b: bool)
    requires h != null ==> h.base != null
    modifies Port(h)
    ensures h == null ==> b
    ensures h != null ==> (!b, h.base.hw) == StatusTest(old(h.base.hw), TxRoom)
  {
    if h == null {
      return true;
    }
    var status := h.base.Load(Status);
    return status & UART_STATUS_TX_FIFO_FULL != 0;
  }

  method RxFifoEmpty(h: UartHandle?) returns (b: bool)
    requires h != null ==> h.base != null
    modifies Port(h)
    ensures h == null ==> b
    ensures h != null ==> (!b, h.base.hw) == StatusTest(old(h.base.hw), RxData)
  {
    if h == null {
      return true;
    }
    var status := h.base.Load(Status);
    return status & UART_STATUS_RX_FIFO_EMPTY != 0;
  }

  method RxFifoFull(h: UartHandle?) returns (b: bool)
    requires h != null ==> h.base != null
    modifies Port(h)
    ensures h == null ==> b
    ensures h != null ==> && h.base.hw == LoadStep(old(h.base.hw), Status).1
                          && b == (LoadStep(old(h.base.hw), Status).0 & UART_STATUS_RX_FIFO_FULL != 0)
  {
    if h == null {
      return true;
    }
    var status := h.base.Load(Status);
    return status & UART_STATUS_RX_FIFO_FULL != 0;
  }

  method TxThresholdReached(h: UartHandle?) returns (b: bool)
    requires h != null ==> h.base != null
    modifies Port(h)
    ensures h == null ==> !b
    ensures h != null ==> && h.base.hw == LoadStep(old(h.base.hw), Status).1
                          && b == (LoadStep(old(h.base.hw), Status).0 & UART_STATUS_TX_FIFO_THRESHOLD != 0)
  {
    if h == null {
      return false;
    }
    var status := h.base.Load(Status);
    return status & UART_STATUS_TX_FIFO_THRESHOLD != 0;
  }

  method RxThresholdReached(h: UartHandle?) returns (b: bool)
    requires h != null ==> h.base != null
    modifies Port(h)
    ensures h == null ==> !b
    ensures h != null ==> && h.base.hw == LoadStep(old(h.base.hw), Status).1
                          && b == (LoadStep(old(h.base.hw), Status).0 & UART_STATUS_RX_FIFO_THRESHOLD != 0)
  {
    if h == null {
      return false;
    }
    var status := h.base.Load(Status);
    return status & UART_STATUS_RX_FIFO_THRESHOLD != 0;
  }

  method GetStatus(h: UartHandle?) returns (status: bv32)
    requires h != null ==> h.base != null
    modifies Port(h)
    ensures h == null ==> status == 0
    ensures h != null ==> (status, h.base.hw) == LoadStep(old(h.base.hw), Status)
  {
    if h == null {
      return 0;
    }
    status := h.base.Load(Status);
  }

  /** The five error flags as uart_get_errors reports them. */
  class UartErrors {
    var parityError: bool
    var frameError: bool
    var txOverflow: bool
    var rxOverflow: bool
    var rxUnderflow: bool

    constructor ()
    {
    }
  }

  method GetErrors(h: UartHandle?, errors: UartErrors?) returns (any: bool)
    requires h != null ==> h.base != null
    modifies Port(h), errors
    ensures h == null || errors == null ==> !any && unchanged(Port(h)) && (errors != null ==> unchanged(errors))
    ensures h != null && errors != null ==>
      var (status, hw) := LoadStep(old(h.base.hw), Status);
      && h.base.hw == hw
      && errors.parityError == (status & UART_STATUS_PARITY_ERROR != 0)
      && errors.frameError == (status & UART_STATUS_FRAME_ERROR != 0)
      && errors.txOverflow == (status & UART_STATUS_TX_FIFO_OVERFLOW != 0)
      && errors.rxOverflow == (status & UART_STATUS_RX_FIFO_OVERFLOW != 0)
      && errors.rxUnderflow == (status & UART_STATUS_RX_FIFO_UNDERFLOW != 0)
      && any == (status & UART_STATUS_ERROR_MASK != 0)
  {
    if h == null || errors == null {
      return false;
    }
    var status := h.base.Load(Status);
    errors.parityError := status & UART_STATUS_PARITY_ERROR != 0;
    errors.frameError := status & UART_STATUS_FRAME_ERROR != 0;
    errors.txOverflow := status & UART_STATUS_TX_FIFO_OVERFLOW != 0;
    errors.rxOverflow := status & UART_STATUS_RX_FIFO_OVERFLOW != 0;
    errors.rxUnderflow := status & UART_STATUS_RX_FIFO_UNDERFLOW != 0;
    return status & UART_STATUS_ERROR_MASK != 0;
  }

  /** A STATUS read reports an error exactly when some sticky error bit was
      set (by the past or by the event just before the read), and clears
      them all: a second read reports none unless a new error happens. */
  lemma StatusReadReportsAndClearsErrors(hw: Hw)
    requires Valid(hw)
    ensures var (status, h) := LoadStep(hw, Status);
      && ((status & UART_STATUS_ERROR_MASK != 0) <==> Step(hw).sticky != 0)
      && h.sticky == 0
      && (Step(h).sticky == 0 ==> LoadStep(h, Status).0 & UART_STATUS_ERROR_MASK == 0)
  {
    StepPreservesValid(hw);
    StatusWordReflectsQueues(Step(hw));
    var (status, h) := LoadStep(hw, Status);
    StatusWordReflectsQueues(Step(h));
  }

  method HasErrors(h: UartHandle?) returns (any: bool)
    requires h != null ==> h.base != null
    modifies Port(h)
    ensures h == null ==> !any
    ensures h != null ==> && h.base.hw == LoadStep(old(h.base.hw), Status).1
                          && any == (LoadStep(old(h.base.hw), Status).0 & UART_STATUS_ERROR_MASK != 0)
  {
    if h == null {
      return false;
    }
    var status := h.base.Load(Status);
    return status & UART_STATUS_ERROR_MASK != 0;
  }

  method ClearErrors(h: UartHandle?)
    requires h != null ==> h.base != null
    modifies Port(h)
    ensures h != null ==> h.base.hw == LoadStep(old(h.base.hw), Status).1 && h.base.hw.sticky == 0
  {
    if h == null {
      return;
    }
    var _ := h.base.Load(Status);
  }

  // ---------------------------------------------------------------------------
  // Interrupt enables and callbacks
  // ---------------------------------------------------------------------------

  /** Read-modify-write of IE setting `mask` and the global enable. */
  function EnableSequence(hw: Hw, mask: bv32): Hw
  {
    var r := LoadStep(hw, InterruptEnable);
    StoreStep(r.1, InterruptEnable, r.0 | mask | UART_IE_GLOBAL)
  }

  /** Read-modify-write of IE clearing `mask`. */
  function DisableSequence(hw: Hw, mask: bv32): Hw
  {
    var r := LoadStep(hw, InterruptEnable);
    StoreStep(r.1, InterruptEnable, r.0 & !mask)
  }

  /** Enabling keeps every bit that was enabled, adds the mask and the
      global enable and nothing else; it is idempotent.  Only IE is read
      and written, and the FIFOs are untouched. */
  lemma EnableInterruptsOutcome(hw: Hw, mask: bv32)
    ensures var h := EnableSequence(hw, mask);
      && h.ie == hw.ie | mask | UART_IE_GLOBAL
      && hw.ie & !h.ie == 0 && mask & !h.ie == 0 && h.ie & UART_IE_GLOBAL != 0
      && EnableSequence(h, mask).ie == h.ie
      && h.log == hw.log + [Read(InterruptEnable, hw.ie), Write(InterruptEnable, h.ie)]
      && h.tx == hw.tx && h.rx == hw.rx && h.env == hw.env
  {
    EnableSetsBits(hw, mask);
    EnableIsIdempotent(hw, mask);
    RmwTouchesOnlyIe(hw, hw.ie | mask | UART_IE_GLOBAL);
  }

  lemma EnableSetsBits(hw: Hw, mask: bv32)
    ensures var h := EnableSequence(hw, mask);
      && h.ie == hw.ie | mask | UART_IE_GLOBAL
      && hw.ie & !h.ie == 0 && mask & !h.ie == 0 && h.ie & UART_IE_GLOBAL != 0
  {
    RmwTouchesOnlyIe(hw, hw.ie | mask | UART_IE_GLOBAL);
    EnableBits(hw.ie, mask);
  }

  lemma EnableIsIdempotent(hw: Hw, mask: bv32)
    ensures var h := EnableSequence(hw, mask);
      EnableSequence(h, mask).ie == h.ie
  {
  }

  /** Disabling clears the mask, keeps every other bit (the global enable
      included, unless the mask names it) and is idempotent. */
  lemma DisableInterruptsOutcome(hw: Hw, mask: bv32)
    ensures var h := DisableSequence(hw, mask);
      && h.ie & mask == 0 && h.ie & !mask == hw.ie & !mask
      && DisableSequence(h, mask).ie == h.ie
      && h.log == hw.log + [Read(InterruptEnable, hw.ie), Write(InterruptEnable, h.ie)]
      && h.tx == hw.tx && h.rx == hw.rx && h.env == hw.env
  {
    DisableClearsBits(hw, mask);
    DisableIsIdempotent(hw, mask);
    RmwTouchesOnlyIe(hw, hw.ie & !mask);
  }

  lemma DisableClearsBits(hw: Hw, mask: bv32)
    ensures var h := DisableSequence(hw, mask);
      h.ie & mask == 0 && h.ie & !mask == hw.ie & !mask
  {
    RmwTouchesOnlyIe(hw, hw.ie & !mask);
    DisableBits(hw.ie, mask);
  }

  lemma DisableIsIdempotent(hw: Hw, mask: bv32)
    ensures var h := DisableSequence(hw, mask);
      DisableSequence(h, mask).ie == h.ie
  {
  }

  /** Reading IE and writing `v` back changes IE and the log only. */
  lemma RmwTouchesOnlyIe(hw: Hw, v: bv32)
    ensures var h := StoreStep(LoadStep(hw, InterruptEnable).1, InterruptEnable, v);
      && h.ie == v
      && h.log == hw.log + [Read(InterruptEnable, hw.ie), Write(InterruptEnable, v)]
      && h.tx == hw.tx && h.rx == hw.rx && h.env == hw.env
  {
  }

  lemma EnableBits(cur: bv32, mask: bv32)
    ensures var n := cur | mask | UART_IE_GLOBAL;
      cur & !n == 0 && mask & !n == 0 && n & UART_IE_GLOBAL != 0 && n | mask | UART_IE_GLOBAL == n
  {
  }

  lemma DisableBits(cur: bv32, mask: bv32)
    ensures var n := cur & !mask;
      n & mask == 0 && n & !mask == cur & !mask && n & !mask == n
  {
  }

  method EnableInterrupts(h: UartHandle?, mask: bv32)
    requires h != null ==> h.base != null
    modifies Port(h)
    ensures h != null ==> h.base.hw == EnableSequence(old(h.base.hw), mask)
  {
    if h == null {
      return;
    }
    var current := h.base.Load(InterruptEnable);
    h.base.Store(InterruptEnable, current | mask | UART_IE_GLOBAL);
  }

  method DisableInterrupts(h: UartHandle?, mask: bv32)
    requires h != null ==> h.base != null
    modifies Port(h)
    ensures h != null ==> h.base.hw == DisableSequence(old(h.base.hw), mask)
  {
    if h == null {
      return;
    }
    var current := h.base.Load(InterruptEnable);
    h.base.Store(InterruptEnable, current & !mask);
  }

  method SetCallbacks(h: UartHandle?, rx: Option<Callback>, tx: Option<Callback>)
    modifies h
    ensures h != null ==> && h.rxCallback == rx && h.txCallback == tx
                          && h.base == old(h.base) && h.config == old(h.config)
  {
    if h == null {
      return;
    }
    h.rxCallback := rx;
    h.txCallback := tx;
  }
}

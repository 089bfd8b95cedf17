/** The UART register map of sw/hello_world/uart.h: register offsets, the
    STATUS and INTERRUPT_ENABLE bits, the CONFIG fields, the FIFO_CLEAR
    command bits and the FIFO depth.  Only constants live here; the lemmas
    state the layout facts the drivers rely on. */
module UartRegs {

  // Register offsets (bytes from the block's base address).
  const UART_REG_STATUS: bv32 := 0x00
  const UART_REG_INTERRUPT_ENABLE: bv32 := 0x04
  const UART_REG_CONFIG: bv32 := 0x08
  const UART_REG_FIFO_CLEAR: bv32 := 0x0C
  const UART_REG_RX_FIFO: bv32 := 0x10
  const UART_REG_TX_FIFO: bv32 := 0x14

  // STATUS bits (the error bits are sticky and cleared by a read).
  const UART_STATUS_RX_FIFO_EMPTY: bv32 := 1 << 0
  const UART_STATUS_RX_FIFO_THRESHOLD: bv32 := 1 << 1
  const UART_STATUS_RX_FIFO_FULL: bv32 := 1 << 2
  const UART_STATUS_RX_FIFO_OVERFLOW: bv32 := 1 << 3
  const UART_STATUS_RX_FIFO_UNDERFLOW: bv32 := 1 << 4
  const UART_STATUS_TX_FIFO_EMPTY: bv32 := 1 << 5
  const UART_STATUS_TX_FIFO_THRESHOLD: bv32 := 1 << 6
  const UART_STATUS_TX_FIFO_FULL: bv32 := 1 << 7
  const UART_STATUS_TX_FIFO_OVERFLOW: bv32 := 1 << 8
  const UART_STATUS_FRAME_ERROR: bv32 := 1 << 9
  const UART_STATUS_PARITY_ERROR: bv32 := 1 << 10

  const UART_STATUS_ERROR_MASK: bv32 :=
    UART_STATUS_PARITY_ERROR | UART_STATUS_FRAME_ERROR | UART_STATUS_TX_FIFO_OVERFLOW
    | UART_STATUS_RX_FIFO_OVERFLOW | UART_STATUS_RX_FIFO_UNDERFLOW

  // INTERRUPT_ENABLE bits.
  const UART_IE_RX_FIFO_EMPTY: bv32 := 1 << 0
  const UART_IE_RX_FIFO_THRESHOLD: bv32 := 1 << 1
  const UART_IE_RX_FIFO_FULL: bv32 := 1 << 2
  const UART_IE_RX_FIFO_OVERFLOW: bv32 := 1 << 3
  const UART_IE_RX_FIFO_UNDERFLOW: bv32 := 1 << 4
  const UART_IE_TX_FIFO_EMPTY: bv32 := 1 << 5
  const UART_IE_TX_FIFO_THRESHOLD: bv32 := 1 << 6
  const UART_IE_TX_FIFO_FULL: bv32 := 1 << 7
  const UART_IE_TX_FIFO_OVERFLOW: bv32 := 1 << 8
  const UART_IE_FRAME_ERROR: bv32 := 1 << 9
  const UART_IE_PARITY_ERROR: bv32 := 1 << 10
  const UART_IE_GLOBAL: bv32 := 1 << 11

  // CONFIG fields.
  const UART_CFG_DATA_BITS_SHIFT: bv32 := 0
  const UART_CFG_DATA_BITS_MASK: bv32 := 0x3 << UART_CFG_DATA_BITS_SHIFT
  const UART_CFG_DATA_5: bv32 := 0x0 << UART_CFG_DATA_BITS_SHIFT
  const UART_CFG_DATA_6: bv32 := 0x1 << UART_CFG_DATA_BITS_SHIFT
  const UART_CFG_DATA_7: bv32 := 0x2 << UART_CFG_DATA_BITS_SHIFT
  const UART_CFG_DATA_8: bv32 := 0x3 << UART_CFG_DATA_BITS_SHIFT
  const UART_CFG_USE_PARITY: bv32 := 1 << 2
  const UART_CFG_PARITY_EVEN: bv32 := 1 << 3
  const UART_CFG_STOP_2: bv32 := 1 << 4
  const UART_CFG_BAUD_SHIFT: bv32 := 5
  const UART_CFG_BAUD_MASK: bv32 := 0x7 << UART_CFG_BAUD_SHIFT
  const UART_CFG_BAUD_9600: bv32 := 0x0 << UART_CFG_BAUD_SHIFT
  const UART_CFG_BAUD_19200: bv32 := 0x1 << UART_CFG_BAUD_SHIFT
  const UART_CFG_BAUD_38400: bv32 := 0x2 << UART_CFG_BAUD_SHIFT
  const UART_CFG_BAUD_57600: bv32 := 0x3 << UART_CFG_BAUD_SHIFT
  const UART_CFG_BAUD_115200: bv32 := 0x4 << UART_CFG_BAUD_SHIFT
  const UART_CFG_BAUD_230400: bv32 := 0x5 << UART_CFG_BAUD_SHIFT
  const UART_CFG_BAUD_460800: bv32 := 0x6 << UART_CFG_BAUD_SHIFT
  const UART_CFG_BAUD_921600: bv32 := 0x7 << UART_CFG_BAUD_SHIFT
  const UART_CFG_RX_THRESH_SHIFT: bv32 := 9
  const UART_CFG_RX_THRESH_MASK: bv32 := 0x7 << UART_CFG_RX_THRESH_SHIFT
  const UART_CFG_TX_THRESH_SHIFT: bv32 := 12
  const UART_CFG_TX_THRESH_MASK: bv32 := 0x7 << UART_CFG_TX_THRESH_SHIFT

  // FIFO_CLEAR command bits (write one to clear, self-clearing).
  const UART_FIFO_CLEAR_TX: bv32 := 1 << 0
  const UART_FIFO_CLEAR_RX: bv32 := 1 << 1

  /** Entries in each hardware FIFO. */
  const UART_FIFO_DEPTH: nat := 16

  /** The STATUS bits in position order: entry i is the bit for position i. */
  const STATUS_BITS: seq<bv32> := [
    UART_STATUS_RX_FIFO_EMPTY, UART_STATUS_RX_FIFO_THRESHOLD, UART_STATUS_RX_FIFO_FULL,
    UART_STATUS_RX_FIFO_OVERFLOW, UART_STATUS_RX_FIFO_UNDERFLOW, UART_STATUS_TX_FIFO_EMPTY,
    UART_STATUS_TX_FIFO_THRESHOLD, UART_STATUS_TX_FIFO_FULL, UART_STATUS_TX_FIFO_OVERFLOW,
    UART_STATUS_FRAME_ERROR, UART_STATUS_PARITY_ERROR]

  /** The INTERRUPT_ENABLE bits in position order, the global enable last. */
  const IE_BITS: seq<bv32> := [
    UART_IE_RX_FIFO_EMPTY, UART_IE_RX_FIFO_THRESHOLD, UART_IE_RX_FIFO_FULL,
    UART_IE_RX_FIFO_OVERFLOW, UART_IE_RX_FIFO_UNDERFLOW, UART_IE_TX_FIFO_EMPTY,
    UART_IE_TX_FIFO_THRESHOLD, UART_IE_TX_FIFO_FULL, UART_IE_TX_FIFO_OVERFLOW,
    UART_IE_FRAME_ERROR, UART_IE_PARITY_ERROR, UART_IE_GLOBAL]

  /** The CONFIG field masks: data bits, parity enable, parity type, stop
      bits, baud selector, RX threshold, TX threshold. */
  const CONFIG_MASKS: seq<bv32> := [
    UART_CFG_DATA_BITS_MASK, UART_CFG_USE_PARITY, UART_CFG_PARITY_EVEN, UART_CFG_STOP_2,
    UART_CFG_BAUD_MASK, UART_CFG_RX_THRESH_MASK, UART_CFG_TX_THRESH_MASK]

  /** The STATUS flags are the single bits 0 through 10, each at its own
      position, so no two of them overlap. */
  lemma StatusBitsAreDistinctSingleBits()
    ensures |STATUS_BITS| == 11
    ensures forall i :: 0 <= i < |STATUS_BITS| ==> STATUS_BITS[i] == 1 << i
    ensures forall i, j :: 0 <= i < j < |STATUS_BITS| ==> STATUS_BITS[i] & STATUS_BITS[j] == 0
  {
  }

  /** The interrupt-enable bits reuse the STATUS positions, and the global
      enable is bit 11, outside every STATUS flag. */
  lemma InterruptBitsMatchStatusBits()
    ensures |IE_BITS| == 12 && IE_BITS[..11] == STATUS_BITS
    ensures UART_IE_GLOBAL == 1 << 11
    ensures forall i :: 0 <= i < |STATUS_BITS| ==> STATUS_BITS[i] & UART_IE_GLOBAL == 0
  {
  }

  /** The error mask is exactly bits 3, 4, 8, 9 and 10: RX overflow, RX
      underflow, TX overflow, frame error and parity error. */
  lemma ErrorMaskIsTheFiveErrorBits()
    ensures UART_STATUS_ERROR_MASK == (1 << 3) | (1 << 4) | (1 << 8) | (1 << 9) | (1 << 10)
    ensures UART_STATUS_ERROR_MASK == 0x718
    ensures forall i :: 0 <= i < |STATUS_BITS| ==>
      (STATUS_BITS[i] & UART_STATUS_ERROR_MASK != 0 <==> i in {3, 4, 8, 9, 10})
  {
  }

  /** The CONFIG masks do not overlap; together they cover bits 0-7 and
      9-14, leaving bit 8 and bits 15-31 unused. */
  lemma ConfigMasksAreDisjoint()
    ensures forall i, j :: 0 <= i < j < |CONFIG_MASKS| ==> CONFIG_MASKS[i] & CONFIG_MASKS[j] == 0
    ensures UART_CFG_DATA_BITS_MASK | UART_CFG_USE_PARITY | UART_CFG_PARITY_EVEN | UART_CFG_STOP_2
            | UART_CFG_BAUD_MASK | UART_CFG_RX_THRESH_MASK | UART_CFG_TX_THRESH_MASK == 0x7EFF
  {
  }

  /** A baud selector code moved to its CONFIG position. */
  function BaudField(code: bv32): bv32
  {
    code << UART_CFG_BAUD_SHIFT
  }

  /** Every baud code 0..7 shifted into place lies inside the baud mask, and
      different codes give different field values. */
  lemma BaudCodesFitTheirField()
    ensures forall c: bv32 :: c < 8 ==> BaudField(c) & !UART_CFG_BAUD_MASK == 0
    ensures forall c: bv32, d: bv32 :: c < 8 && d < 8 && c != d ==> BaudField(c) != BaudField(d)
    ensures [UART_CFG_BAUD_9600, UART_CFG_BAUD_19200, UART_CFG_BAUD_38400, UART_CFG_BAUD_57600,
             UART_CFG_BAUD_115200, UART_CFG_BAUD_230400, UART_CFG_BAUD_460800, UART_CFG_BAUD_921600]
            == [0 << 5, 1 << 5, 2 << 5, 3 << 5, 4 << 5, 5 << 5, 6 << 5, 7 << 5]
  {
  }

  /** FIFO_CLEAR uses bit 0 for TX and bit 1 for RX; each FIFO holds 16
      entries; the six registers are consecutive 32-bit words. */
  lemma FifoClearAndDepth()
    ensures UART_FIFO_CLEAR_TX == 1 && UART_FIFO_CLEAR_RX == 2
    ensures UART_FIFO_CLEAR_TX & UART_FIFO_CLEAR_RX == 0
    ensures UART_FIFO_DEPTH == 16
    ensures [UART_REG_STATUS, UART_REG_INTERRUPT_ENABLE, UART_REG_CONFIG, UART_REG_FIFO_CLEAR,
             UART_REG_RX_FIFO, UART_REG_TX_FIFO] == [0, 4, 8, 12, 16, 20]
  {
  }
}

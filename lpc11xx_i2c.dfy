/**
 * The LPC11xx I2C master driver (arch/arm/mach/lpc11xx/i2c.c): the instance
 * table, the peripheral clock gate, the clock divider, the polled/buffered mode
 * manager and the polled protocol engine.
 *
 * The peripheral's register block is the class `I2cRegs`; the system control
 * block's `SYSAHBCLKCTRL` and `PRESETCTRL` are the class `Rcc`. The kernel
 * services the driver calls (closing handles, creating FIFOs, masking
 * interrupts, destroying handles) are recorded in order in `Kernel.log`; what
 * they return is passed in as a parameter.
 */
module Lpc11xxI2c {
  import opened Common
  import opened I2cProtocol

  /** `BT_I2C_OPERATING_MODE`. */
  datatype Mode = Polled | Buffered | OtherMode(code: int)

  /** `BT_I2C_CLOCKRATE`. */
  datatype ClockRate = Rate100kHz | Rate400kHz | Rate1000kHz | Rate3400kHz | OtherRate(code: int)

  /** `BT_POWER_STATE`. */
  datatype PowerState = Asleep | Awake | OtherPowerState(code: int)

  /** A ring-buffer handle, or NULL. */
  datatype FifoHandle = NullFifo | Fifo(id: nat)

  /** `BT_I2C_CONFIG`. */
  datatype Config = Config(mode: Mode, clockrate: ClockRate, rxBufferSize: UInt32, txBufferSize: UInt32)

  /**
   * The integrated device: the first MEM, ENUM and IRQ resources that
   * `BT_GetIntegratedResource` finds for it (`ulStart` of each), if any.
   */
  datatype IntegratedDevice = IntegratedDevice(mem: Option<UInt32>, enumIndex: Option<UInt32>, irq: Option<UInt32>)

  /** The part of a handle the mode manager owns. */
  datatype ModeState = ModeState(mode: Mode, rx: FifoHandle, tx: FifoHandle)

  /**
   * The kernel services the driver calls, in the order it calls them. During
   * `i2cCleanup` the log also records the driver's own steps between those calls:
   * the controller reset, the clock gated off, and the table slot freed.
   */
  datatype KernelCall =
    | CloseHandle(fifo: FifoHandle)
    | FifoCreate(size: UInt32)
    | DisableInterrupt(irq: UInt32)
    | DestroyHandle(handle: I2cHandle?)
    | ControllerReset
    | ClockGatedOff(index: UInt32)
    | SlotFreed(slot: nat)

  /** Number of entries of `g_I2C_HANDLES`. */
  const MAX_INSTANCES: nat := 3

  /** `LPC11xx_RCC_SYSAHBCLKCTRL_I2C0EN`: bit 5 of `SYSAHBCLKCTRL` (UM10398, section 3.5.14). */
  const I2C0EN: bv32 := 0x20

  /** `LPC11xx_RCC_PRESETCTRL_I2C_DEASSERT`: bit 1 of `PRESETCTRL` (UM10398, section 3.5.2). */
  const I2C_RST_N: bv32 := 0x2

  // ---------------------------------------------------------------------------
  // Clock divider (i2c.c:106-152)
  // ---------------------------------------------------------------------------

  /** The bus frequency a clock-rate setting selects; an unrecognised one selects 100 kHz. */
  function BusHz(rate: ClockRate): (hz: nat)
    ensures hz == 100000 || hz == 400000 || hz == 1000000 || hz == 3400000
    ensures rate.OtherRate? ==> hz == 100000
  {
    match rate
    case Rate100kHz => 100000
    case Rate400kHz => 400000
    case Rate1000kHz => 1000000
    case Rate3400kHz => 3400000
    case OtherRate(_) => 100000
  }

  /**
   * The `(SCLH, SCLL)` pair for an input clock: the two halves add up to the
   * period `inputClk / BusHz(rate)`, and the low half is the high half or one
   * more (so `SCLH` is the period halved rounding down).
   */
  function Divider(inputClk: UInt32, rate: ClockRate): (d: (UInt32, UInt32))
    ensures d.0 + d.1 == inputClk / BusHz(rate)
    ensures d.0 <= d.1 <= d.0 + 1
    ensures d.1 <= 0xFFFF
  {
    var period := inputClk / BusHz(rate);
    assert period <= 42949 by {
      assert BusHz(rate) >= 100000;
    }
    (period / 2, period - period / 2)
  }

  // ---------------------------------------------------------------------------
  // Peripheral clock gate and power state (i2c.c:157-243)
  // ---------------------------------------------------------------------------

  /** `SYSAHBCLKCTRL` after enabling (`on`) or disabling the gate of instance `index`: only index 0 is wired. */
  function GateClock(ctrl: bv32, index: UInt32, on: bool): bv32 {
    if index != 0 then ctrl
    else if on then ctrl | I2C0EN
    else ctrl & !I2C0EN
  }

  /** `SYSAHBCLKCTRL` after `i2cSetPowerState`, or None when it returns -1. */
  function PowerSet(ctrl: bv32, index: UInt32, p: PowerState): Option<bv32> {
    match p
    case Asleep => Some(GateClock(ctrl, index, false))
    case Awake => Some(GateClock(ctrl, index, true))
    case OtherPowerState(_) => None
  }

  /** What `i2cGetPowerState` reports for a given `SYSAHBCLKCTRL`. */
  function PowerOf(ctrl: bv32, index: UInt32): PowerState {
    if index == 0 && ctrl & I2C0EN != 0 then Awake else Asleep
  }

  /**
   * Setting instance 0 asleep or awake and reading the state back gives what was
   * set, and the other clock gates in `SYSAHBCLKCTRL` are left as they were. Any
   * other instance always reads back asleep and its setting changes nothing.
   */
  lemma PowerRoundTrip(ctrl: bv32, index: UInt32, p: PowerState)
    requires p == Asleep || p == Awake
    ensures PowerSet(ctrl, index, p) == Some(GateClock(ctrl, index, p == Awake))
    ensures index == 0 ==> PowerOf(GateClock(ctrl, index, p == Awake), index) == p
    ensures GateClock(ctrl, index, p == Awake) & !I2C0EN == ctrl & !I2C0EN
    ensures index != 0 ==> GateClock(ctrl, index, p == Awake) == ctrl && PowerOf(ctrl, index) == Asleep
  {
    if index == 0 {
      if p == Awake {
        GateSetsBit(ctrl);
        assert GateClock(ctrl, index, true) == ctrl | I2C0EN;
      } else {
        GateClearsBit(ctrl);
        assert GateClock(ctrl, index, false) == ctrl & !I2C0EN;
      }
    }
  }

  /** Setting the I2C0EN gate raises it and keeps every other bit. */
  lemma GateSetsBit(ctrl: bv32)
    ensures (ctrl | I2C0EN) & I2C0EN != 0
    ensures (ctrl | I2C0EN) & !I2C0EN == ctrl & !I2C0EN
  {
  }

  /** Clearing the I2C0EN gate lowers it and keeps every other bit. */
  lemma GateClearsBit(ctrl: bv32)
    ensures (ctrl & !I2C0EN) & I2C0EN == 0
    ensures (ctrl & !I2C0EN) & !I2C0EN == ctrl & !I2C0EN
  {
  }

  // ---------------------------------------------------------------------------
  // Mode manager (i2c.c:248-296)
  // ---------------------------------------------------------------------------

  /** The mode and FIFO handles after `i2cSetConfig` asks for mode `want`. */
  function NextModeState(s: ModeState, want: Mode, createdRx: FifoHandle, createdTx: FifoHandle): ModeState {
    match want
    case Polled =>
      if s.mode != Polled then ModeState(Polled, NullFifo, NullFifo) else s
    case Buffered =>
      if s.mode != Buffered && s.rx == NullFifo && s.tx == NullFifo then ModeState(Buffered, createdRx, createdTx)
      else s
    case OtherMode(_) => s
  }

  /** The kernel calls `i2cSetConfig` makes for its mode switch. */
  function ModeSwitchCalls(s: ModeState, cfg: Config): seq<KernelCall> {
    match cfg.mode
    case Polled =>
      if s.mode != Polled then
        (if s.tx != NullFifo then [CloseHandle(s.tx)] else []) + (if s.rx != NullFifo then [CloseHandle(s.rx)] else [])
      else []
    case Buffered =>
      if s.mode != Buffered && s.rx == NullFifo && s.tx == NullFifo then
        [FifoCreate(cfg.rxBufferSize), FifoCreate(cfg.txBufferSize)]
      else []
    case OtherMode(_) => []
  }

  /** Both FIFO handles are non-NULL exactly in Buffered mode. */
  predicate FifosMatchMode(s: ModeState) {
    (s.rx != NullFifo <==> s.mode == Buffered) && (s.tx != NullFifo <==> s.mode == Buffered)
  }

  /**
   * When FIFO creation succeeds, every configuration keeps "FIFOs exist iff
   * Buffered"; a Buffered -> Buffered switch keeps the FIFO handles it had; an
   * unknown mode changes nothing; a switch to Polled leaves no FIFO behind.
   */
  lemma ModeSwitchKeepsFifoInvariant(s: ModeState, want: Mode, createdRx: FifoHandle, createdTx: FifoHandle)
    requires FifosMatchMode(s)
    requires createdRx != NullFifo && createdTx != NullFifo
    ensures FifosMatchMode(NextModeState(s, want, createdRx, createdTx))
    ensures want == Buffered && s.mode == Buffered ==> NextModeState(s, want, createdRx, createdTx) == s
    ensures want.OtherMode? ==> NextModeState(s, want, createdRx, createdTx) == s
    ensures want == Polled ==> NextModeState(s, want, createdRx, createdTx) == ModeState(Polled, NullFifo, NullFifo)
  {
  }

  // ---------------------------------------------------------------------------
  // Hardware
  // ---------------------------------------------------------------------------

  /**
   * The I2C register block (`LPC11xx_I2C_REGS`). `i2en`, `sta`, `sto`, `si` and `aa`
   * are the bits `CONSET` reads back; writes to `CONCLR` clear them. The controller's answers are the oracle
   * `hw`, `cursor` counts the SI waits so far, and `trace` is what the master has
   * put on the bus.
   */
  class I2cRegs {
    var i2en: bool
    var sta: bool
    var sto: bool
    var si: bool
    var aa: bool
    var dat: UInt32
    var stat: Status
    var sclh: UInt32
    var scll: UInt32
    const hw: Oracle
    var cursor: nat
    ghost var trace: seq<BusEvent>

    /** The register block at reset; STAT reads 0xF8 ("no relevant state", UM10398 table 236). */
    constructor (hw: Oracle)
      ensures this.hw == hw && cursor == 0 && trace == []
      ensures !i2en && !sta && !sto && !si && !aa
    {
      this.hw := hw;
      i2en, sta, sto, si, aa := false, false, false, false, false;
      dat := 0;
      stat := OtherStatus(0xF8);
      sclh := 0;
      scll := 0;
      cursor := 0;
      trace := [];
    }

    /** `while (!(CONSET & SI));`: the controller answers with its next status and raises SI. */
    method AwaitSI()
      modifies this`si, this`stat, this`dat, this`cursor
      ensures si
      ensures HwStep(stat, dat) == Answer(hw, old(cursor)) && cursor == old(cursor) + 1
    {
      stat := Answer(hw, cursor).stat;
      dat := Answer(hw, cursor).dat;
      si := true;
      cursor := cursor + 1;
    }
  }

  /** The system control block's `SYSAHBCLKCTRL` (clock gates) and `PRESETCTRL` (peripheral resets). */
  class Rcc {
    var sysAhbClkCtrl: bv32
    var presetCtrl: bv32

    constructor (sysAhbClkCtrl: bv32, presetCtrl: bv32)
      ensures this.sysAhbClkCtrl == sysAhbClkCtrl && this.presetCtrl == presetCtrl
    {
      this.sysAhbClkCtrl := sysAhbClkCtrl;
      this.presetCtrl := presetCtrl;
    }
  }

  /** The record of kernel services called. */
  class Kernel {
    ghost var log: seq<KernelCall>

    constructor ()
      ensures log == []
    {
      log := [];
    }
  }

  // ---------------------------------------------------------------------------
  // The handle (struct _BT_OPAQUE_HANDLE, i2c.c:34-41)
  // ---------------------------------------------------------------------------

  class I2cHandle {
    const device: IntegratedDevice
    const rcc: Rcc
    var regs: I2cRegs?
    var mode: Mode
    var rxFifo: FifoHandle
    var txFifo: FifoHandle

    /** A freshly created handle, zero-filled: Polled, no FIFOs, no registers yet. */
    constructor (device: IntegratedDevice, rcc: Rcc)
      ensures this.device == device && this.rcc == rcc
      ensures regs == null && mode == Polled && rxFifo == NullFifo && txFifo == NullFifo
    {
      this.device := device;
      this.rcc := rcc;
      regs := null;
      mode := Polled;
      rxFifo := NullFifo;
      txFifo := NullFifo;
    }

    function ModeView(): ModeState
      reads this
    {
      ModeState(mode, rxFifo, txFifo)
    }

    /** `ResetI2C`: `CONCLR = 0xFFFFFFFF` clears AA, SI, STA and I2EN (CONCLR has no STO bit). */
    method Reset()
      requires regs != null
      modifies regs`i2en, regs`sta, regs`si, regs`aa
      ensures !regs.i2en && !regs.sta && !regs.si && !regs.aa
    {
      regs.i2en, regs.sta, regs.si, regs.aa := false, false, false, false;
    }

    /** `i2cSetClockrate`: program the divider for the current input clock; always succeeds. */
    method SetClockrate(rate: ClockRate, inputClk: UInt32) returns (err: BtError)
      requires regs != null
      modifies regs`sclh, regs`scll
      ensures err == ErrNone
      ensures (regs.sclh, regs.scll) == Divider(inputClk, rate)
    {
      var period := inputClk / BusHz(rate);
      regs.sclh := period / 2;
      regs.scll := period - regs.sclh;
      err := ErrNone;
    }

    method EnablePeripheralClock()
      requires device.enumIndex.Some?
      modifies rcc`sysAhbClkCtrl
      ensures rcc.sysAhbClkCtrl == GateClock(old(rcc.sysAhbClkCtrl), device.enumIndex.value, true)
    {
      if device.enumIndex.value == 0 {
        rcc.sysAhbClkCtrl := rcc.sysAhbClkCtrl | I2C0EN;
      }
    }

    method DisablePeripheralClock()
      requires device.enumIndex.Some?
      modifies rcc`sysAhbClkCtrl
      ensures rcc.sysAhbClkCtrl == GateClock(old(rcc.sysAhbClkCtrl), device.enumIndex.value, false)
    {
      if device.enumIndex.value == 0 {
        rcc.sysAhbClkCtrl := rcc.sysAhbClkCtrl & !I2C0EN;
      }
    }

    /** `isi2cPeripheralClockEnabled`: only instance 0 has a gate; any other reports false. */
    method IsPeripheralClockEnabled() returns (on: bool)
      requires device.enumIndex.Some?
      ensures on <==> device.enumIndex.value == 0 && rcc.sysAhbClkCtrl & I2C0EN != 0
    {
      on := false;
      if device.enumIndex.value == 0 {
        if rcc.sysAhbClkCtrl & I2C0EN != 0 {
          on := true;
        }
      }
    }

    /** `i2cSetPowerState`: Asleep gates the clock off, Awake on, anything else fails with -1. */
    method SetPowerState(p: PowerState) returns (err: BtError)
      requires device.enumIndex.Some?
      modifies rcc`sysAhbClkCtrl
      ensures PowerSet(old(rcc.sysAhbClkCtrl), device.enumIndex.value, p).Some? ==>
        err == ErrNone && rcc.sysAhbClkCtrl == PowerSet(old(rcc.sysAhbClkCtrl), device.enumIndex.value, p).value
      ensures PowerSet(old(rcc.sysAhbClkCtrl), device.enumIndex.value, p).None? ==>
        err == ErrFailed && rcc.sysAhbClkCtrl == old(rcc.sysAhbClkCtrl)
    {
      match p
      case Asleep =>
        DisablePeripheralClock();
        err := ErrNone;
      case Awake =>
        EnablePeripheralClock();
        err := ErrNone;
      case OtherPowerState(_) =>
        err := ErrFailed;
    }

    /**
     * `i2cGetPowerState`: the state is the return value (the out-parameter is never
     * written); Awake exactly when instance 0's gate is on.
     */
    method GetPowerState() returns (p: PowerState)
      requires device.enumIndex.Some?
      ensures p == Awake || p == Asleep
      ensures p == Awake <==> device.enumIndex.value == 0 && rcc.sysAhbClkCtrl & I2C0EN != 0
    {
      var on := IsPeripheralClockEnabled();
      if on {
        return Awake;
      }
      return Asleep;
    }

    /** `i2cEnable`: release the peripheral from reset and set I2EN. */
    method Enable() returns (err: BtError)
      requires regs != null
      modifies rcc`presetCtrl, regs`i2en
      ensures err == ErrNone
      ensures rcc.presetCtrl == old(rcc.presetCtrl) | I2C_RST_N
      ensures regs.i2en
    {
      rcc.presetCtrl := rcc.presetCtrl | I2C_RST_N;
      regs.i2en := true;
      err := ErrNone;
    }

    /** `i2cDisable`: put the peripheral back in reset and clear I2EN. */
    method Disable() returns (err: BtError)
      requires regs != null
      modifies rcc`presetCtrl, regs`i2en
      ensures err == ErrNone
      ensures rcc.presetCtrl == old(rcc.presetCtrl) & !I2C_RST_N
      ensures !regs.i2en
    {
      rcc.presetCtrl := rcc.presetCtrl & !I2C_RST_N;
      regs.i2en := false;
      err := ErrNone;
    }

    /**
     * `i2cSetConfig`: always enable the peripheral and reprogram the divider, then
     * switch mode as `NextModeState` says, closing or creating FIFOs as
     * `ModeSwitchCalls` says. `createdRx`/`createdTx` are what `BT_FifoCreate`
     * returns. The result is always `BT_ERR_NONE`.
     */
    method SetConfig(cfg: Config, inputClk: UInt32, createdRx: FifoHandle, createdTx: FifoHandle, k: Kernel)
      returns (err: BtError)
      requires regs != null
      modifies this`mode, this`rxFifo, this`txFifo, regs`i2en, regs`sclh, regs`scll, rcc`presetCtrl, k`log
      ensures err == ErrNone
      ensures rcc.presetCtrl == old(rcc.presetCtrl) | I2C_RST_N
      ensures regs.i2en
      ensures (regs.sclh, regs.scll) == Divider(inputClk, cfg.clockrate)
      ensures ModeView() == NextModeState(old(ModeView()), cfg.mode, createdRx, createdTx)
      ensures k.log == old(k.log) + ModeSwitchCalls(old(ModeView()), cfg)
    {
      var _ := Enable();
      var _ := SetClockrate(cfg.clockrate, inputClk);
      err := ErrNone;
      match cfg.mode
      case Polled =>
        if mode != Polled {
          if txFifo != NullFifo {
            k.log := k.log + [CloseHandle(txFifo)];
            txFifo := NullFifo;
          }
          if rxFifo != NullFifo {
            k.log := k.log + [CloseHandle(rxFifo)];
            rxFifo := NullFifo;
          }
          mode := Polled;
        }
      case Buffered =>
        if mode != Buffered {
          if rxFifo == NullFifo && txFifo == NullFifo {
            k.log := k.log + [FifoCreate(cfg.rxBufferSize), FifoCreate(cfg.txBufferSize)];
            rxFifo := createdRx;
            txFifo := createdTx;
            mode := Buffered;
          }
        }
      case OtherMode(_) =>
    }

    // -------------------------------------------------------------------------
    // Protocol engine (i2c.c:369-477)
    // -------------------------------------------------------------------------

    /** `i2cStart`: clear SI, set STA, wait; -1 unless a (repeated) START was transmitted. */
    method Start() returns (err: BtError)
      requires regs != null
      modifies regs`sta, regs`si, regs`stat, regs`dat, regs`cursor, regs`trace
      ensures var p := StartPhase(regs.hw, old(regs.cursor));
        err == p.err && regs.trace == old(regs.trace) + p.events && regs.cursor == old(regs.cursor) + p.steps
      ensures regs.sta && regs.si && HwStep(regs.stat, regs.dat) == Answer(regs.hw, old(regs.cursor))
    {
      regs.si := false;
      regs.sta := true;
      regs.trace := regs.trace + [StartCond];
      regs.AwaitSI();
      err := if regs.stat != StartTransmitted && regs.stat != RepeatStartTransmitted then ErrFailed else ErrNone;
    }

    /**
     * `i2cSendAddress`: write `address << 1 | mode` to DAT, which keeps its low
     * eight bits, clear STA and SI, wait; -1 unless the status is either
     * address-ACK code.
     */
    method SendAddress(address: UInt32, m: AccessMode) returns (err: BtError)
      requires regs != null
      modifies regs`sta, regs`si, regs`stat, regs`dat, regs`cursor, regs`trace
      ensures var p := AddressPhase(regs.hw, old(regs.cursor), address, m);
        err == p.err && regs.trace == old(regs.trace) + p.events && regs.cursor == old(regs.cursor) + p.steps
      ensures !regs.sta && regs.si && HwStep(regs.stat, regs.dat) == Answer(regs.hw, old(regs.cursor))
    {
      regs.dat := WireAddress(address, m);
      regs.sta := false;
      regs.si := false;
      regs.trace := regs.trace + [AddrByte(regs.dat)];
      regs.AwaitSI();
      err := if regs.stat != AddressWAck && regs.stat != AddressRAck then ErrFailed else ErrNone;
    }

    /** `i2cSendNack`: clear AA so the next received byte is not acknowledged, clear SI. */
    method SendNack() returns (err: BtError)
      requires regs != null
      modifies regs`aa, regs`si, regs`trace
      ensures err == ErrNone
      ensures !regs.aa && !regs.si
      ensures regs.trace == old(regs.trace) + [NackSet]
    {
      regs.aa := false;
      regs.si := false;
      regs.trace := regs.trace + [NackSet];
      err := ErrNone;
    }

    /** `i2cSendAck`: set AA so the next received byte is acknowledged, clear SI. */
    method SendAck() returns (err: BtError)
      requires regs != null
      modifies regs`aa, regs`si, regs`trace
      ensures err == ErrNone
      ensures regs.aa && !regs.si
      ensures regs.trace == old(regs.trace) + [AckSet]
    {
      regs.aa := true;
      regs.si := false;
      regs.trace := regs.trace + [AckSet];
      err := ErrNone;
    }

    /**
     * `i2cGetData`: receive `length` bytes into `dest`, ACKing all but the last and
     * NACKing the last; every iteration runs, and the -1 is sticky.
     */
    method GetData(dest: array<Byte>, length: UInt32) returns (err: BtError)
      requires regs != null && length <= dest.Length
      modifies regs`aa, regs`si, regs`stat, regs`dat, regs`cursor, regs`trace, dest
      ensures var p := RecvPhase(regs.hw, old(regs.cursor), length);
        err == p.err && regs.trace == old(regs.trace) + p.events && regs.cursor == old(regs.cursor) + p.steps
      ensures dest[..length] == Received(regs.hw, old(regs.cursor), length)
      ensures dest[length..] == old(dest[length..])
      ensures length > 0 ==> !regs.aa && regs.si && HwStep(regs.stat, regs.dat) == Answer(regs.hw, regs.cursor - 1)
      ensures length == 0 ==> unchanged(regs`aa, regs`si, regs`stat, regs`dat)
    {
      var r := regs;
      ghost var c0 := r.cursor;
      ghost var t0 := r.trace;
      var remaining: nat := length;
      var i: nat := 0;
      err := ErrNone;
      while remaining > 0
        invariant regs == r
        invariant i + remaining == length
        invariant r.cursor == c0 + i
        invariant r.trace + AckPlan(remaining) == t0 + AckPlan(length)
        invariant forall j :: 0 <= j < i ==> dest[j] == Answer(r.hw, c0 + j).dat % 256
        invariant forall j :: i <= j < dest.Length ==> dest[j] == old(dest[j])
        invariant err == (if DataAcked(r.hw, c0, i) then ErrNone else ErrFailed)
        invariant i > 0 ==> r.aa == (remaining > 0) && r.si && HwStep(r.stat, r.dat) == Answer(r.hw, r.cursor - 1)
        invariant i == 0 ==> unchanged(r`aa, r`si, r`stat, r`dat)
      {
        remaining := remaining - 1;
        AckPlanStep(remaining + 1);
        var acked := ReceiveByte(dest, i, remaining == 0);
        if !acked {
          err := ErrFailed;
        }
        DataAckedStep(r.hw, c0, i);
        i := i + 1;
      }
      assert dest[..length] == Received(r.hw, c0, length);
    }

    /**
     * One pass of the receive loop: arm NACK for the last byte and ACK otherwise,
     * wait for the byte, store `DAT & 0xFF` at position i, and report whether the
     * status was `DATA_W_ACK`.
     */
    method ReceiveByte(dest: array<Byte>, i: nat, last: bool) returns (acked: bool)
      requires regs != null && i < dest.Length
      modifies regs`aa, regs`si, regs`stat, regs`dat, regs`cursor, regs`trace, dest
      ensures regs.trace == old(regs.trace) + [if last then NackSet else AckSet]
      ensures regs.cursor == old(regs.cursor) + 1 && HwStep(regs.stat, regs.dat) == Answer(regs.hw, old(regs.cursor))
      ensures regs.aa == !last && regs.si
      ensures dest[i] == Answer(regs.hw, old(regs.cursor)).dat % 256
      ensures forall j :: 0 <= j < dest.Length && j != i ==> dest[j] == old(dest[j])
      ensures acked <==> Answer(regs.hw, old(regs.cursor)).stat == DataWAck
    {
      if !last {
        var _ := SendAck();
      } else {
        var _ := SendNack();
      }
      regs.AwaitSI();
      dest[i] := regs.dat % 256;
      acked := regs.stat == DataWAck;
    }

    /** `i2cSendData`: send the first `length` bytes of `src` in order; every iteration runs, and the -1 is sticky. */
    method SendData(src: array<Byte>, length: UInt32) returns (err: BtError)
      requires regs != null && length <= src.Length
      modifies regs`si, regs`stat, regs`dat, regs`cursor, regs`trace
      ensures var p := SendPhase(regs.hw, old(regs.cursor), src[..length]);
        err == p.err && regs.trace == old(regs.trace) + p.events && regs.cursor == old(regs.cursor) + p.steps
      ensures length > 0 ==> regs.si && HwStep(regs.stat, regs.dat) == Answer(regs.hw, regs.cursor - 1)
      ensures length == 0 ==> unchanged(regs`si, regs`stat, regs`dat)
    {
      var r := regs;
      ghost var c0 := r.cursor;
      ghost var t0 := r.trace;
      var remaining: nat := length;
      var i: nat := 0;
      err := ErrNone;
      while remaining > 0
        invariant regs == r
        invariant i + remaining == length
        invariant r.cursor == c0 + i
        invariant r.trace == t0 + Sent(src[..i])
        invariant err == (if DataAcked(r.hw, c0, i) then ErrNone else ErrFailed)
        invariant i > 0 ==> r.si && HwStep(r.stat, r.dat) == Answer(r.hw, r.cursor - 1)
        invariant i == 0 ==> unchanged(r`si, r`stat, r`dat)
      {
        remaining := remaining - 1;
        var acked := TransmitByte(src[i]);
        if !acked {
          err := ErrFailed;
        }
        SentSnoc(src[..i], src[i]);
        assert src[..i + 1] == src[..i] + [src[i]];
        DataAckedStep(r.hw, c0, i);
        i := i + 1;
      }
    }

    /**
     * One pass of the send loop: put the byte in DAT, clear SI, wait, and report
     * whether the status was `DATA_W_ACK`.
     */
    method TransmitByte(b: Byte) returns (acked: bool)
      requires regs != null
      modifies regs`si, regs`stat, regs`dat, regs`cursor, regs`trace
      ensures regs.trace == old(regs.trace) + [DataOut(b)]
      ensures regs.cursor == old(regs.cursor) + 1 && HwStep(regs.stat, regs.dat) == Answer(regs.hw, old(regs.cursor))
      ensures regs.si
      ensures acked <==> Answer(regs.hw, old(regs.cursor)).stat == DataWAck
    {
      regs.dat := b;
      regs.si := false;
      regs.trace := regs.trace + [DataOut(b)];
      regs.AwaitSI();
      acked := regs.stat == DataWAck;
    }

    /** `i2cGetAck`: whether the last status is one of the four ACK codes; writes no register. */
    method GetAck() returns (ack: bool, err: BtError)
      requires regs != null
      ensures err == ErrNone
      ensures ack <==> regs.stat in {AddressWAck, AddressRAck, DataWAck, DataRAck}
    {
      err := ErrNone;
      if regs.stat != AddressWAck && regs.stat != AddressRAck && regs.stat != DataWAck && regs.stat != DataRAck {
        return false, err;
      }
      return true, err;
    }

    /** `i2cStop`: set STO and clear SI; always succeeds. */
    method Stop() returns (err: BtError)
      requires regs != null
      modifies regs`sto, regs`si, regs`trace
      ensures err == StopPhase().err && regs.trace == old(regs.trace) + StopPhase().events
      ensures regs.sto && !regs.si
    {
      regs.sto := true;
      regs.si := false;
      regs.trace := regs.trace + [StopCond];
      err := ErrNone;
    }

    /**
     * `i2cRead`. Polled: START (result discarded), read address, receive, STOP, with
     * every failure going to STOP; the result, the bus events and the bytes stored
     * are those of `PolledRead`. Buffered or unknown mode: nothing is touched and
     * `BT_ERR_NONE` is returned.
     */
    method Read(target: Byte, dest: array<Byte>, length: UInt32) returns (err: BtError)
      requires regs != null && length <= dest.Length
      modifies regs`sta, regs`sto, regs`si, regs`aa, regs`stat, regs`dat, regs`cursor, regs`trace, dest
      ensures mode != Polled ==> err == ErrNone && unchanged(regs) && unchanged(dest)
      ensures mode == Polled ==>
        var t := PolledRead(regs.hw, old(regs.cursor), target, length);
        && err == t.err
        && regs.trace == old(regs.trace) + t.events
        && regs.cursor == old(regs.cursor) + t.steps
        && HwStep(regs.stat, regs.dat) == Answer(regs.hw, regs.cursor - 1)
        && !regs.sta && regs.sto && !regs.si
        && (AddressAcked(Answer(regs.hw, old(regs.cursor) + 1).stat) ==>
              && dest[..length] == Received(regs.hw, old(regs.cursor) + 2, length)
              && dest[length..] == old(dest[length..])
              && regs.aa == (if length > 0 then false else old(regs.aa)))
        && (!AddressAcked(Answer(regs.hw, old(regs.cursor) + 1).stat) ==>
              dest[..] == old(dest[..]) && regs.aa == old(regs.aa))
    {
      err := ErrNone;
      match mode
      case Polled =>
        var r := regs;
        ghost var t0 := r.trace;
        ghost var s := StartPhase(r.hw, r.cursor);
        ghost var a := AddressPhase(r.hw, r.cursor + 1, target, ReadAccess);
        ghost var d := RecvPhase(r.hw, r.cursor + 2, length);
        var _ := Start();
        err := SendAddress(target, ReadAccess);
        assert r.trace == t0 + s.events + a.events;
        if err != ErrNone {
          var _ := Stop();
          assert r.trace == t0 + (s.events + a.events + StopPhase().events);
          return;
        }
        err := GetData(dest, length);
        assert r.trace == t0 + s.events + a.events + d.events;
        if err != ErrNone {
          var _ := Stop();
          assert r.trace == t0 + (s.events + a.events + d.events + StopPhase().events);
          return;
        }
        err := Stop();
        assert r.trace == t0 + (s.events + a.events + d.events + StopPhase().events);
      case Buffered =>
      case OtherMode(_) =>
    }

    /**
     * `i2cWrite`. Polled: START (result discarded), write address, send, STOP, with
     * every failure going to STOP; the result and the bus events are those of
     * `PolledWrite`. Buffered or unknown mode: nothing is touched and
     * `BT_ERR_NONE` is returned.
     */
    method Write(target: Byte, src: array<Byte>, length: UInt32) returns (err: BtError)
      requires regs != null && length <= src.Length
      modifies regs`sta, regs`sto, regs`si, regs`stat, regs`dat, regs`cursor, regs`trace
      ensures mode != Polled ==> err == ErrNone && unchanged(regs)
      ensures mode == Polled ==>
        var t := PolledWrite(regs.hw, old(regs.cursor), target, src[..length]);
        && err == t.err
        && regs.trace == old(regs.trace) + t.events
        && regs.cursor == old(regs.cursor) + t.steps
        && HwStep(regs.stat, regs.dat) == Answer(regs.hw, regs.cursor - 1)
        && !regs.sta && regs.sto && !regs.si
    {
      err := ErrNone;
      match mode
      case Polled =>
        var r := regs;
        ghost var t0 := r.trace;
        ghost var s := StartPhase(r.hw, r.cursor);
        ghost var a := AddressPhase(r.hw, r.cursor + 1, target, WriteAccess);
        ghost var d := SendPhase(r.hw, r.cursor + 2, src[..length]);
        var _ := Start();
        err := SendAddress(target, WriteAccess);
        assert r.trace == t0 + s.events + a.events;
        if err != ErrNone {
          var _ := Stop();
          assert r.trace == t0 + (s.events + a.events + StopPhase().events);
          return;
        }
        err := SendData(src, length);
        assert r.trace == t0 + s.events + a.events + d.events;
        if err != ErrNone {
          var _ := Stop();
          assert r.trace == t0 + (s.events + a.events + d.events + StopPhase().events);
          return;
        }
        err := Stop();
        assert r.trace == t0 + (s.events + a.events + d.events + StopPhase().events);
      case Buffered =>
      case OtherMode(_) =>
    }
  }

  // ---------------------------------------------------------------------------
  // The instance table (i2c.c:43-47, 81-102, 597-662)
  // ---------------------------------------------------------------------------

  class I2cDriver {
    /** `g_I2C_HANDLES`, indexed by the ENUM resource. */
    const table: array<I2cHandle?>
    const rcc: Rcc

    ghost predicate Valid()
      reads this
    {
      table.Length == MAX_INSTANCES
    }

    /** The static initialiser: every slot NULL. */
    constructor (rcc: Rcc)
      ensures Valid() && fresh(table) && this.rcc == rcc
      ensures forall i :: 0 <= i < table.Length ==> table[i] == null
    {
      table := new I2cHandle?[MAX_INSTANCES](_ => null);
      this.rcc := rcc;
    }

    /**
     * `i2c_probe`. `bus` is the register block at the device's MEM address and
     * `created` says whether `BT_CreateHandle` succeeds. `perr` is what probe
     * itself writes to `*pError` (None when it leaves it alone). The slot is
     * written before the MEM and IRQ checks, which can still fail.
     */
    method Probe(device: IntegratedDevice, bus: I2cRegs, created: bool, k: Kernel)
      returns (h: I2cHandle?, perr: Option<BtError>)
      requires Valid()
      requires device.enumIndex.Some? ==> device.enumIndex.value < MAX_INSTANCES
      modifies table, rcc`sysAhbClkCtrl, bus`i2en, bus`sta, bus`si, bus`aa, k`log
      ensures device.enumIndex.None? ==>
        h == null && perr == Some(ErrNoMemory) && table[..] == old(table[..]) && unchanged(rcc, bus)
        && k.log == old(k.log) + [DestroyHandle(null)]
      ensures device.enumIndex.Some? && old(table[device.enumIndex.value]) != null ==>
        h == null && perr == Some(ErrGeneric) && table[..] == old(table[..]) && unchanged(rcc, bus)
        && k.log == old(k.log) + [DestroyHandle(null)]
      ensures device.enumIndex.Some? && old(table[device.enumIndex.value]) == null && !created ==>
        h == null && perr == Some(ErrNone) && table[..] == old(table[..]) && unchanged(rcc, bus)
        && k.log == old(k.log)
      ensures device.enumIndex.Some? && old(table[device.enumIndex.value]) == null && created ==>
        var e := device.enumIndex.value;
        var slot := table[e];
        && slot != null && fresh(slot)
        && table[..] == old(table[..])[e := slot]
        && slot.device == device && slot.rcc == rcc
        && slot.mode == Polled && slot.rxFifo == NullFifo && slot.txFifo == NullFifo
        && (device.mem.None? ==>
              h == null && perr == Some(ErrNoMemory) && unchanged(rcc, bus)
              && k.log == old(k.log) + [DestroyHandle(slot)])
        && (device.mem.Some? ==>
              && slot.regs == bus
              && rcc.sysAhbClkCtrl == GateClock(old(rcc.sysAhbClkCtrl), e, true)
              && !bus.i2en && !bus.sta && !bus.si && !bus.aa
              && (device.irq.None? ==>
                    h == null && perr == Some(ErrGeneric) && k.log == old(k.log) + [DestroyHandle(slot)])
              && (device.irq.Some? ==> h == slot && perr == None && k.log == old(k.log)))
    {
      if device.enumIndex.None? {
        k.log := k.log + [DestroyHandle(null)];
        return null, Some(ErrNoMemory);
      }
      var e := device.enumIndex.value;
      if table[e] != null {
        k.log := k.log + [DestroyHandle(null)];
        return null, Some(ErrGeneric);
      }
      if !created {
        return null, Some(ErrNone);
      }
      var handle := new I2cHandle(device, rcc);
      table[e] := handle;
      if device.mem.None? {
        k.log := k.log + [DestroyHandle(handle)];
        return null, Some(ErrNoMemory);
      }
      handle.regs := bus;
      var _ := handle.SetPowerState(Awake);
      handle.Reset();
      if device.irq.None? {
        k.log := k.log + [DestroyHandle(handle)];
        return null, Some(ErrGeneric);
      }
      return handle, None;
    }

    /**
     * `i2cCleanup`: reset the controller, gate its clock off, close both FIFOs in
     * Buffered mode, mask its interrupt, and finally empty its table slot.
     */
    method Cleanup(h: I2cHandle, k: Kernel) returns (err: BtError)
      requires Valid() && h.regs != null
      requires h.device.enumIndex.Some? && h.device.enumIndex.value < MAX_INSTANCES && h.device.irq.Some?
      modifies h.regs`i2en, h.regs`sta, h.regs`si, h.regs`aa, h.rcc`sysAhbClkCtrl, k`log, table
      ensures err == ErrNone
      ensures !h.regs.i2en && !h.regs.sta && !h.regs.si && !h.regs.aa
      ensures h.rcc.sysAhbClkCtrl == GateClock(old(h.rcc.sysAhbClkCtrl), h.device.enumIndex.value, false)
      ensures k.log == old(k.log)
        + [ControllerReset, ClockGatedOff(h.device.enumIndex.value)]
        + (if h.mode == Buffered then [CloseHandle(h.txFifo), CloseHandle(h.rxFifo)] else [])
        + [DisableInterrupt(h.device.irq.value), SlotFreed(h.device.enumIndex.value)]
      ensures table[..] == old(table[..])[h.device.enumIndex.value := null]
    {
      h.Reset();
      k.log := k.log + [ControllerReset];
      h.DisablePeripheralClock();
      k.log := k.log + [ClockGatedOff(h.device.enumIndex.value)];
      if h.mode == Buffered {
        k.log := k.log + [CloseHandle(h.txFifo), CloseHandle(h.rxFifo)];
      }
      k.log := k.log + [DisableInterrupt(h.device.irq.value)];
      table[h.device.enumIndex.value] := null;
      k.log := k.log + [SlotFreed(h.device.enumIndex.value)];
      err := ErrNone;
    }
  }
}

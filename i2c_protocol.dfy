/**
 * The wire-level meaning of the LPC11xx I2C driver's polled protocol engine.
 *
 * The bus controller reports, each time it raises SI, a status code (and the
 * byte in its data register). Those reports are an oracle `hw`: the k-th wait on
 * SI sees `hw(k)`. What the master puts on the bus is recorded as a sequence of
 * `BusEvent`s. Each protocol phase of arch/arm/mach/lpc11xx/i2c.c is given here
 * as a `Phase` (its error result, the events it issues and how many SI waits it
 * consumes), and a polled read or write is the composition of those phases in
 * the order `i2cRead` and `i2cWrite` run them.
 */
module I2cProtocol {
  import opened Common

  /**
   * `LPC11xx_I2C_STAT` values. The six named codes are the ones the driver tests;
   * their numeric values come from a header that is not part of this model, so
   * they are kept distinct and opaque. Every other code is `OtherStatus`.
   */
  datatype Status =
    | StartTransmitted
    | RepeatStartTransmitted
    | AddressWAck
    | AddressRAck
    | DataWAck
    | DataRAck
    | OtherStatus(code: int)

  /** `BT_I2C_ACCESS_MODE`: the R/W bit that follows the 7-bit address. */
  datatype AccessMode = WriteAccess | ReadAccess {
    function Bit(): nat {
      if ReadAccess? then 1 else 0
    }
  }

  /** What the controller shows when it raises SI: `STAT` and `DAT`. */
  datatype HwStep = HwStep(stat: Status, dat: UInt32)

  type Oracle = nat -> HwStep

  /**
   * What the master does on the bus: a START condition, the address byte written
   * to `DAT`, arming ACK (AA set) or NACK (AA cleared) for the next received byte,
   * a data byte sent, a STOP condition.
   */
  datatype BusEvent =
    | StartCond
    | AddrByte(value: Byte)
    | AckSet
    | NackSet
    | DataOut(b: Byte)
    | StopCond

  /** One protocol phase: its `BT_ERROR`, the events it issues, the SI waits it consumes. */
  datatype Phase = Phase(err: BtError, events: seq<BusEvent>, steps: nat)

  /** `ulAddress << 1 | eAccessMode` in 32-bit arithmetic. */
  function AddressByte(address: UInt32, m: AccessMode): UInt32 {
    (address % 0x8000_0000) * 2 + m.Bit()
  }

  /**
   * The byte that goes on the bus: `I2C0DAT` is an 8-bit register, so only the
   * low eight bits of `AddressByte` are kept.
   */
  function WireAddress(address: UInt32, m: AccessMode): Byte {
    AddressByte(address, m) % 256
  }

  predicate StartSeen(s: Status) {
    s == StartTransmitted || s == RepeatStartTransmitted
  }

  /** The address check accepts either address-ACK code, whatever the direction. */
  predicate AddressAcked(s: Status) {
    s == AddressWAck || s == AddressRAck
  }

  /** Every data status in positions [c, c + n) is `DataWAck`. */
  predicate DataAcked(hw: Oracle, c: nat, n: nat) {
    forall k :: c <= k < c + n ==> Answer(hw, k).stat == DataWAck
  }

  /**
   * The controller's k-th answer. Every use of the oracle goes through this
   * function so that it is a plain function of its arguments in every heap.
   */
  function Answer(hw: Oracle, k: nat): HwStep {
    hw(k)
  }

  /** The events the receive loop still issues when `remaining` bytes are left. */
  function AckPlan(remaining: nat): seq<BusEvent> {
    if remaining == 0 then []
    else [if remaining == 1 then NackSet else AckSet] + AckPlan(remaining - 1)
  }

  /** The data bytes of `src` as they go onto the bus. */
  function Sent(src: seq<Byte>): seq<BusEvent> {
    if src == [] then [] else [DataOut(src[0])] + Sent(src[1..])
  }

  /** The low byte of `DAT` at each of the n receive steps starting at c. */
  function Received(hw: Oracle, c: nat, n: nat): seq<Byte> {
    seq(n, i requires 0 <= i < n => Answer(hw, c + i).dat % 256)
  }

  /** One more data step is acknowledged exactly when the earlier ones were and its status is `DataWAck`. */
  lemma DataAckedStep(hw: Oracle, c: nat, n: nat)
    ensures DataAcked(hw, c, n + 1) <==> DataAcked(hw, c, n) && Answer(hw, c + n).stat == DataWAck
  {
  }

  // ---------------------------------------------------------------------------
  // The phases (i2c.c:369-477)
  // ---------------------------------------------------------------------------

  function StartPhase(hw: Oracle, c: nat): Phase {
    Phase(if StartSeen(Answer(hw, c).stat) then ErrNone else ErrFailed, [StartCond], 1)
  }

  function AddressPhase(hw: Oracle, c: nat, address: UInt32, m: AccessMode): Phase {
    Phase(if AddressAcked(Answer(hw, c).stat) then ErrNone else ErrFailed,
          [AddrByte(WireAddress(address, m))], 1)
  }

  /** `i2cGetData`: every status is compared against `DataWAck`, and the error is sticky. */
  function RecvPhase(hw: Oracle, c: nat, n: nat): Phase {
    Phase(if DataAcked(hw, c, n) then ErrNone else ErrFailed, AckPlan(n), n)
  }

  function SendPhase(hw: Oracle, c: nat, src: seq<Byte>): Phase {
    Phase(if DataAcked(hw, c, |src|) then ErrNone else ErrFailed, Sent(src), |src|)
  }

  function StopPhase(): Phase {
    Phase(ErrNone, [StopCond], 0)
  }

  /**
   * `i2cRead` in polled mode: the START result is discarded, an address failure
   * jumps to STOP, a data failure jumps to STOP, and otherwise STOP's own result
   * is returned.
   */
  function PolledRead(hw: Oracle, c: nat, target: Byte, n: nat): Phase {
    var s := StartPhase(hw, c);
    var a := AddressPhase(hw, c + 1, target, ReadAccess);
    if a.err != ErrNone then
      Phase(a.err, s.events + a.events + StopPhase().events, s.steps + a.steps)
    else
      var d := RecvPhase(hw, c + 2, n);
      Phase(if d.err != ErrNone then d.err else StopPhase().err,
            s.events + a.events + d.events + StopPhase().events, s.steps + a.steps + d.steps)
  }

  /** `i2cWrite` in polled mode, with the same shape as `PolledRead`. */
  function PolledWrite(hw: Oracle, c: nat, target: Byte, src: seq<Byte>): Phase {
    var s := StartPhase(hw, c);
    var a := AddressPhase(hw, c + 1, target, WriteAccess);
    if a.err != ErrNone then
      Phase(a.err, s.events + a.events + StopPhase().events, s.steps + a.steps)
    else
      var d := SendPhase(hw, c + 2, src);
      Phase(if d.err != ErrNone then d.err else StopPhase().err,
            s.events + a.events + d.events + StopPhase().events, s.steps + a.steps + d.steps)
  }

  // ---------------------------------------------------------------------------
  // Properties
  // ---------------------------------------------------------------------------

  /**
   * The address byte of UM10204 section 3.1.10: for a 7-bit address the byte is
   * the address followed by the R/W bit (0 write, 1 read).
   */
  lemma AddressByteForm(address: UInt32, m: AccessMode)
    ensures WireAddress(address, m) / 2 == address % 128
    ensures WireAddress(address, m) % 2 == m.Bit()
    ensures address < 128 ==> WireAddress(address, m) == AddressByte(address, m)
  {
    var high := address / 128 % 0x100_0000;
    var byte := 2 * (address % 128) + m.Bit();
    KeptBits(address);
    assert AddressByte(address, m) == 256 * high + byte;
    LowByte(high, byte);
  }

  /** Reducing modulo 2^31 keeps the low seven bits: the kept value is 128 * (bits 7..30) + bits 0..6. */
  lemma KeptBits(address: UInt32)
    ensures address % 0x8000_0000 == 128 * (address / 128 % 0x100_0000) + address % 128
  {
  }

  /** The low byte of 256 * high + byte is byte. */
  lemma LowByte(high: int, byte: int)
    requires 0 <= byte < 256
    ensures (256 * high + byte) % 256 == byte
  {
  }

  /**
   * Bit 7 of the target is shifted out of the 8-bit data register: 0x80 + a goes
   * on the bus as the same byte as a, so 0x80 addresses the general call.
   */
  lemma HighAddressBitLost(address: UInt32, m: AccessMode)
    requires address < 128
    ensures WireAddress(address + 128, m) == WireAddress(address, m)
  {
    AddressByteForm(address + 128, m);
    AddressByteForm(address, m);
  }

  /**
   * Master-receiver ACK policy (UM10204 section 3.1.6): for n bytes, AA is set
   * before each of the first n - 1 bytes and cleared before the last one.
   */
  lemma {:induction false} AckPlanShape(n: nat)
    ensures |AckPlan(n)| == n
    ensures forall i :: 0 <= i < n - 1 ==> AckPlan(n)[i] == AckSet
    ensures n > 0 ==> AckPlan(n)[n - 1] == NackSet
  {
    if n > 0 {
      AckPlanShape(n - 1);
      var rest := AckPlan(n - 1);
      assert AckPlan(n) == [if n == 1 then NackSet else AckSet] + rest;
      forall i | 0 <= i < n - 1
        ensures AckPlan(n)[i] == AckSet
      {
        if i > 0 {
          assert AckPlan(n)[i] == rest[i - 1];
        }
      }
    }
  }

  /** One step of the receive loop: the next event, then the rest of the plan. */
  lemma AckPlanStep(remaining: nat)
    requires remaining > 0
    ensures AckPlan(remaining) == [if remaining == 1 then NackSet else AckSet] + AckPlan(remaining - 1)
  {
  }

  /** NACK is armed exactly once for a non-empty read and ACK n - 1 times. */
  lemma {:induction false} AckPlanCounts(n: nat)
    ensures |AckPlan(n)| == n
    ensures multiset(AckPlan(n))[NackSet] == (if n == 0 then 0 else 1)
    ensures multiset(AckPlan(n))[AckSet] == (if n == 0 then 0 else n - 1)
  {
    if n > 0 {
      AckPlanCounts(n - 1);
      AckPlanStep(n);
      var first := if n == 1 then NackSet else AckSet;
      assert multiset(AckPlan(n)) == multiset([first]) + multiset(AckPlan(n - 1));
      assert multiset([first])[NackSet] == (if n == 1 then 1 else 0);
      assert multiset([first])[AckSet] == (if n == 1 then 0 else 1);
    }
  }

  /** The receive loop only arms ACK or NACK: it issues no START, STOP, address or data byte. */
  lemma {:induction false} AckPlanOnlyArms(n: nat)
    ensures forall e :: e in AckPlan(n) ==> e == AckSet || e == NackSet
    ensures StartCond !in AckPlan(n) && StopCond !in AckPlan(n)
  {
    if n > 0 {
      AckPlanOnlyArms(n - 1);
      AckPlanStep(n);
    }
  }

  /** The bytes of `src` go onto the bus in order, one event each and nothing else. */
  lemma {:induction false} SentInOrder(src: seq<Byte>)
    ensures |Sent(src)| == |src|
    ensures forall i :: 0 <= i < |src| ==> Sent(src)[i] == DataOut(src[i])
  {
    if src != [] {
      SentInOrder(src[1..]);
      forall i | 0 <= i < |src|
        ensures Sent(src)[i] == DataOut(src[i])
      {
        if i > 0 {
          assert Sent(src)[i] == Sent(src[1..])[i - 1];
        }
      }
    }
  }

  /** Sending one more byte appends its data event. */
  lemma {:induction false} SentSnoc(src: seq<Byte>, b: Byte)
    ensures Sent(src + [b]) == Sent(src) + [DataOut(b)]
  {
    if src == [] {
      assert [] + [b] == [b];
    } else {
      assert (src + [b])[1..] == src[1..] + [b];
      SentSnoc(src[1..], b);
    }
  }

  /** Sending data issues no START and no STOP. */
  lemma {:induction false} SentCarriesOnlyData(src: seq<Byte>)
    ensures StartCond !in Sent(src) && StopCond !in Sent(src)
  {
    if src != [] {
      SentCarriesOnlyData(src[1..]);
    }
  }

  /**
   * A transaction framed as START, address byte, a middle part without START or
   * STOP, and STOP has exactly one START (first) and exactly one STOP (last).
   */
  lemma Framed(address: Byte, middle: seq<BusEvent>)
    requires StartCond !in middle && StopCond !in middle
    ensures var ev := [StartCond, AddrByte(address)] + middle + [StopCond];
      && |ev| == |middle| + 3
      && ev[0] == StartCond
      && ev[1] == AddrByte(address)
      && ev[|ev| - 1] == StopCond
      && multiset(ev)[StartCond] == 1
      && multiset(ev)[StopCond] == 1
  {
    var ev := [StartCond, AddrByte(address)] + middle + [StopCond];
    assert multiset(ev) == multiset([StartCond, AddrByte(address)]) + multiset(middle) + multiset([StopCond]);
    assert multiset(middle)[StartCond] == 0 && multiset(middle)[StopCond] == 0;
  }

  /** The events of a polled read: the middle part is the ACK plan, or nothing after an address failure. */
  lemma ReadEvents(hw: Oracle, c: nat, target: Byte, n: nat)
    ensures PolledRead(hw, c, target, n).events
      == [StartCond, AddrByte(WireAddress(target, ReadAccess))]
         + (if AddressAcked(Answer(hw, c + 1).stat) then AckPlan(n) else [])
         + [StopCond]
  {
    var head := [StartCond, AddrByte(WireAddress(target, ReadAccess))];
    if AddressAcked(Answer(hw, c + 1).stat) {
      assert [StartCond] + [AddrByte(WireAddress(target, ReadAccess))] + AckPlan(n) + [StopCond]
        == head + AckPlan(n) + [StopCond];
    } else {
      assert [StartCond] + [AddrByte(WireAddress(target, ReadAccess))] + [StopCond]
        == head + [] + [StopCond];
    }
  }

  /** The events of a polled write: the middle part is the sent bytes, or nothing after an address failure. */
  lemma WriteEvents(hw: Oracle, c: nat, target: Byte, src: seq<Byte>)
    ensures PolledWrite(hw, c, target, src).events
      == [StartCond, AddrByte(WireAddress(target, WriteAccess))]
         + (if AddressAcked(Answer(hw, c + 1).stat) then Sent(src) else [])
         + [StopCond]
  {
    var head := [StartCond, AddrByte(WireAddress(target, WriteAccess))];
    if AddressAcked(Answer(hw, c + 1).stat) {
      assert [StartCond] + [AddrByte(WireAddress(target, WriteAccess))] + Sent(src) + [StopCond]
        == head + Sent(src) + [StopCond];
    } else {
      assert [StartCond] + [AddrByte(WireAddress(target, WriteAccess))] + [StopCond]
        == head + [] + [StopCond];
    }
  }

  /**
   * A polled read opens with START and the read-address byte and ends with STOP,
   * and issues exactly one START and exactly one STOP, on every path including the
   * abort after an address or data failure.
   */
  lemma ReadStopsExactlyOnce(hw: Oracle, c: nat, target: Byte, n: nat)
    ensures var t := PolledRead(hw, c, target, n);
      && |t.events| >= 3
      && t.events[0] == StartCond
      && t.events[1] == AddrByte(WireAddress(target, ReadAccess))
      && t.events[|t.events| - 1] == StopCond
      && multiset(t.events)[StartCond] == 1
      && multiset(t.events)[StopCond] == 1
  {
    ReadEvents(hw, c, target, n);
    AckPlanOnlyArms(n);
    var middle: seq<BusEvent> := if AddressAcked(Answer(hw, c + 1).stat) then AckPlan(n) else [];
    assert StartCond !in middle && StopCond !in middle;
    Framed(WireAddress(target, ReadAccess), middle);
  }

  /**
   * Between the address byte and STOP a polled read arms ACK before every byte but
   * the last and NACK before the last; after an address failure it arms neither.
   */
  lemma ReadNacksOnlyTheLastByte(hw: Oracle, c: nat, target: Byte, n: nat)
    ensures var t := PolledRead(hw, c, target, n);
      && (AddressAcked(Answer(hw, c + 1).stat) ==>
            && |t.events| == n + 3
            && (forall i :: 2 <= i < n + 1 ==> t.events[i] == AckSet)
            && (n > 0 ==> t.events[n + 1] == NackSet))
      && (!AddressAcked(Answer(hw, c + 1).stat) ==> AckSet !in t.events && NackSet !in t.events)
  {
    ReadEvents(hw, c, target, n);
    var head := [StartCond, AddrByte(WireAddress(target, ReadAccess))];
    var ev := PolledRead(hw, c, target, n).events;
    if AddressAcked(Answer(hw, c + 1).stat) {
      AckPlanShape(n);
      assert ev == head + AckPlan(n) + [StopCond];
      forall i | 2 <= i < n + 1
        ensures ev[i] == AckSet
      {
        assert ev[i] == AckPlan(n)[i - 2];
      }
      if n > 0 {
        assert ev[n + 1] == AckPlan(n)[n - 1];
      }
    } else {
      assert ev == head + [StopCond];
    }
  }

  /** A polled read of n > 0 bytes after an acknowledged address arms NACK exactly once. */
  lemma ReadNacksExactlyOnce(hw: Oracle, c: nat, target: Byte, n: nat)
    requires AddressAcked(Answer(hw, c + 1).stat)
    ensures multiset(PolledRead(hw, c, target, n).events)[NackSet] == (if n == 0 then 0 else 1)
  {
    ReadEvents(hw, c, target, n);
    AckPlanCounts(n);
    var head := [StartCond, AddrByte(WireAddress(target, ReadAccess))];
    var ev := PolledRead(hw, c, target, n).events;
    assert multiset(ev) == multiset(head) + multiset(AckPlan(n)) + multiset([StopCond]);
  }

  /**
   * A polled read succeeds exactly when the address status is one of the two
   * address-ACK codes and every data status is `DataWAck`; otherwise it returns
   * the -1 of the first failing phase. The START status plays no part.
   */
  lemma ReadErrorCharacterisation(hw: Oracle, c: nat, target: Byte, n: nat)
    ensures var t := PolledRead(hw, c, target, n);
      && (t.err == ErrNone || t.err == ErrFailed)
      && (t.err == ErrNone <==>
            && (Answer(hw, c + 1).stat == AddressWAck || Answer(hw, c + 1).stat == AddressRAck)
            && forall k :: c + 2 <= k < c + 2 + n ==> Answer(hw, k).stat == DataWAck)
  {
  }

  /** Two bus histories that differ only in the START status give the same read. */
  lemma ReadIgnoresStartStatus(hw: Oracle, hw': Oracle, c: nat, target: Byte, n: nat)
    requires forall k :: k != c ==> Answer(hw, k) == Answer(hw', k)
    ensures PolledRead(hw, c, target, n) == PolledRead(hw', c, target, n)
  {
    assert Answer(hw, c + 1) == Answer(hw', c + 1);
    assert DataAcked(hw, c + 2, n) == DataAcked(hw', c + 2, n) by {
      forall k | c + 2 <= k < c + 2 + n
        ensures Answer(hw, k).stat == Answer(hw', k).stat
      {
      }
    }
  }

  /**
   * A polled write opens with START and the write-address byte and always ends
   * with exactly one START and exactly one STOP; after an address failure those
   * three events are all it issues.
   */
  lemma WriteStopsExactlyOnce(hw: Oracle, c: nat, target: Byte, src: seq<Byte>)
    ensures var t := PolledWrite(hw, c, target, src);
      && |t.events| >= 3
      && t.events[0] == StartCond
      && t.events[1] == AddrByte(WireAddress(target, WriteAccess))
      && t.events[|t.events| - 1] == StopCond
      && multiset(t.events)[StartCond] == 1
      && multiset(t.events)[StopCond] == 1
      && (!AddressAcked(Answer(hw, c + 1).stat) ==> |t.events| == 3)
  {
    WriteEvents(hw, c, target, src);
    var middle: seq<BusEvent> := if AddressAcked(Answer(hw, c + 1).stat) then Sent(src) else [];
    SentCarriesOnlyData(src);
    assert StartCond !in middle && StopCond !in middle;
    Framed(WireAddress(target, WriteAccess), middle);
  }

  /** After an acknowledged address, a polled write puts the source bytes on the bus in order, between the address and STOP. */
  lemma WriteSendsInOrder(hw: Oracle, c: nat, target: Byte, src: seq<Byte>)
    requires AddressAcked(Answer(hw, c + 1).stat)
    ensures var t := PolledWrite(hw, c, target, src);
      && |t.events| == |src| + 3
      && forall i :: 0 <= i < |src| ==> t.events[i + 2] == DataOut(src[i])
  {
    WriteEvents(hw, c, target, src);
    SentInOrder(src);
    var head := [StartCond, AddrByte(WireAddress(target, WriteAccess))];
    var ev := PolledWrite(hw, c, target, src).events;
    assert ev == head + Sent(src) + [StopCond];
    forall i | 0 <= i < |src|
      ensures ev[i + 2] == DataOut(src[i])
    {
      assert ev[i + 2] == Sent(src)[i];
    }
  }

  /** A polled write succeeds exactly when the address and every data byte were acknowledged. */
  lemma WriteErrorCharacterisation(hw: Oracle, c: nat, target: Byte, src: seq<Byte>)
    ensures var t := PolledWrite(hw, c, target, src);
      && (t.err == ErrNone || t.err == ErrFailed)
      && (t.err == ErrNone <==>
            && (Answer(hw, c + 1).stat == AddressWAck || Answer(hw, c + 1).stat == AddressRAck)
            && forall k :: c + 2 <= k < c + 2 + |src| ==> Answer(hw, k).stat == DataWAck)
  {
  }
}

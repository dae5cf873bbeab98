/**
 The PN512's SPI framing, and the bus traces the driver's procedures leave.

 Every transfer starts with an address byte: bits 6..1 hold the register
 number, bit 7 says read (1) or write (0), bit 0 is always 0. The chip
 pipelines its answers: the byte clocked in while byte N goes out answers
 byte N-1, so a read sends one byte more than it wants back and drops the
 first byte received.

 The predicates on traces describe, event by event, what a successful call
 of each procedure puts on the bus and what it then returns.
 */
module Pn512Frames {
  import opened BitUtils
  import opened SpiTransport
  import opened Pn512Constants

  // ---------------------------------------------------------------------
  // Address encoding
  // ---------------------------------------------------------------------

  /** The register number an address byte carries. */
  function RegisterOf(address: Byte): (r: Byte)
    ensures r < 64
  {
    (address >> 1) & 0x3F
  }

  /** The address byte asks for a read. */
  predicate IsReadAddress(address: Byte)
  {
    address & 0x80 == 0x80
  }

  /** The address byte that reads register `reg` (only its six low bits count). */
  function ReadAddress(reg: Byte): (r: Byte)
    ensures r & 0x01 == 0 && IsReadAddress(r)
    ensures RegisterOf(r) == reg & 0x3F
    ensures reg < 64 ==> RegisterOf(r) == reg
  {
    0x80 | ((reg & 0x3F) << 1)
  }

  /** The address byte that writes register `reg` (only its six low bits count). */
  function WriteAddress(reg: Byte): (r: Byte)
    ensures r & 0x01 == 0 && r & 0x80 == 0 && !IsReadAddress(r)
    ensures RegisterOf(r) == reg & 0x3F
    ensures reg < 64 ==> RegisterOf(r) == reg
  {
    0x00 | ((reg & 0x3F) << 1)
  }

  /** Two registers that differ in their six low bits never share an address
      byte, and a read address is never a write address. */
  lemma AddressesDistinct(reg1: Byte, reg2: Byte)
    ensures ReadAddress(reg1) != WriteAddress(reg2)
    ensures reg1 & 0x3F != reg2 & 0x3F ==> ReadAddress(reg1) != ReadAddress(reg2)
    ensures reg1 & 0x3F != reg2 & 0x3F ==> WriteAddress(reg1) != WriteAddress(reg2)
  {
  }

  // ---------------------------------------------------------------------
  // Frames
  // ---------------------------------------------------------------------

  /** A fresh block of `length` bytes, each `fill`. */
  function NewData(length: nat, fill: Byte): (r: seq<Byte>)
    ensures |r| == length
    ensures forall i | 0 <= i < length :: r[i] == fill
  {
    seq(length, _ => fill)
  }

  /** What a multi-byte read of `length` bytes clocks out: one read address
      per wanted byte, then the dummy 0x00 that clocks in the last answer. */
  function ReadDataFrame(reg: Byte, length: nat): (r: seq<Byte>)
    ensures |r| == length + 1
    ensures forall i | 0 <= i < length :: r[i] == ReadAddress(reg)
    ensures r[length] == 0x00
  {
    NewData(length, ReadAddress(reg)) + [0x00]
  }

  /** The bus event of writing `value` to register `reg`. */
  function RegisterWrite(reg: Byte, value: Byte): Event
  {
    Write([WriteAddress(reg), value])
  }

  /** The bus event of writing `data` to consecutive cycles of register `reg`. */
  function DataWrite(reg: Byte, data: seq<Byte>): Event
  {
    Write([WriteAddress(reg)] + data)
  }

  /** `e` is a completed read of register `reg`: the read address, then the
      dummy byte, with two bytes clocked in. */
  predicate IsRegisterRead(e: Event, reg: Byte)
  {
    e.Transfer? && e.tx == [ReadAddress(reg), 0x00] && |e.rx| == 2
  }

  /** The value a register read yields: the second byte clocked in. The first
      one is the chip's answer to the previous cycle and is dropped. */
  function ValueRead(e: Event): Byte
    requires e.Transfer? && |e.rx| == 2
  {
    e.rx[1]
  }

  /** `e` is a completed read of `length` bytes from register `reg`. */
  predicate IsDataRead(e: Event, reg: Byte, length: nat)
  {
    e.Transfer? && e.tx == ReadDataFrame(reg, length) && |e.rx| == length + 1
  }

  /** The bytes a multi-byte read yields: all but the first byte clocked in. */
  function DataRead(e: Event): seq<Byte>
    requires e.Transfer? && |e.rx| >= 1
  {
    e.rx[1..]
  }

  /** Every byte the driver puts on the bus is framed the way the chip expects:
      a write starts with a write address; a transfer clocks in as many bytes
      as it clocks out, every byte but the last is a read address, and the
      last is the 0x00 dummy. */
  predicate WellFramed(e: Event)
  {
    match e
    case Write(bytes) =>
      |bytes| >= 1 && bytes[0] & 0x01 == 0 && !IsReadAddress(bytes[0])
    case Transfer(tx, rx) =>
      |tx| >= 1 && |rx| == |tx| && tx[|tx| - 1] == 0x00 &&
      forall k | 0 <= k < |tx| - 1 :: tx[k] & 0x01 == 0 && IsReadAddress(tx[k])
  }

  /** The three kinds of event the driver produces are well framed: a
      register write, a data write, and a multi-byte read. */
  lemma DriverEventsWellFramed(reg: Byte, value: Byte, data: seq<Byte>, length: nat, rx: seq<Byte>)
    ensures WellFramed(RegisterWrite(reg, value))
    ensures WellFramed(DataWrite(reg, data))
    ensures |rx| == length + 1 ==> WellFramed(Transfer(ReadDataFrame(reg, length), rx))
  {
  }

  // ---------------------------------------------------------------------
  // Polling
  // ---------------------------------------------------------------------

  /** The bits of `value` that `mask` selects read `want`. */
  predicate FieldIs(value: Byte, mask: Byte, want: Byte)
  {
    value & mask == want
  }

  /** `es` are reads of register `reg`, none of whose values masked with
      `mask` equals `want`. */
  predicate IsBusyPoll(es: seq<Event>, reg: Byte, mask: Byte, want: Byte)
  {
    forall i | 0 <= i < |es| :: IsRegisterRead(es[i], reg) && !FieldIs(ValueRead(es[i]), mask, want)
  }

  /** `es` is a complete polling loop: reads of `reg` that continue exactly
      until the value masked with `mask` equals `want`. */
  predicate IsPoll(es: seq<Event>, reg: Byte, mask: Byte, want: Byte)
  {
    |es| > 0 && IsBusyPoll(es[..|es| - 1], reg, mask, want) &&
    IsRegisterRead(es[|es| - 1], reg) && FieldIs(ValueRead(es[|es| - 1]), mask, want)
  }

  /** Waiting until the command register's low nibble shows Idle. */
  predicate IsIdlePoll(es: seq<Event>)
  {
    IsPoll(es, CommandReg, CommandMask, CmdIdle)
  }

  /** Waiting until the modem-state bits of status register 2 are zero. */
  predicate IsModemIdlePoll(es: seq<Event>)
  {
    IsPoll(es, Status2Reg, ModemStateMask, 0)
  }

  /** Waiting until both completion flags of the comm-IRQ register are set. */
  predicate IsIrqPoll(es: seq<Event>)
  {
    IsPoll(es, CommIrqReg, RxTxIrqBits, RxTxIrqBits)
  }

  /** Every event of a poll is well framed. */
  lemma PollWellFramed(es: seq<Event>, reg: Byte, mask: Byte, want: Byte)
    requires IsPoll(es, reg, mask, want)
    ensures forall k | 0 <= k < |es| :: WellFramed(es[k])
  {
  }

  // ---------------------------------------------------------------------
  // Procedure traces
  // ---------------------------------------------------------------------

  /** The bus steps of the self test, with the first Idle poll occupying
      `es[3..i]`: soft reset; 25 zero bytes to the FIFO; Configure; wait for
      Idle; enable the self test; one zero byte to the FIFO; CalcCRC; wait
      for Idle; read 64 bytes from the FIFO. */
  predicate SelfTestStepsAt(es: seq<Event>, i: nat)
  {
    3 < i && i + 4 < |es| &&
    es[0] == RegisterWrite(CommandReg, CmdSoftReset) &&
    es[1] == DataWrite(FifoDataReg, NewData(SelfTestClearLength, 0x00)) &&
    es[2] == RegisterWrite(CommandReg, CmdConfigure) &&
    IsIdlePoll(es[3..i]) &&
    es[i] == RegisterWrite(AutoTestReg, AutoTestEnableSelfTest) &&
    es[i + 1] == DataWrite(FifoDataReg, [0x00]) &&
    es[i + 2] == RegisterWrite(CommandReg, CmdCalcCrc) &&
    IsIdlePoll(es[i + 3..|es| - 1]) &&
    IsDataRead(es[|es| - 1], FifoDataReg, SelfTestResultLength)
  }

  /** A self-test trace, whatever the length of its first Idle poll; it
      passes iff the 64 bytes read are the signature. */
  ghost predicate SelfTestTrace(es: seq<Event>, passed: bool)
  {
    exists i: nat :: SelfTestStepsAt(es, i) && passed == (DataRead(es[|es| - 1]) == SelfTestExpectedResult)
  }

  /** The self-test trace built from its two Idle polls and the final FIFO read. */
  function SelfTestEvents(poll1: seq<Event>, poll2: seq<Event>, fifoRead: Event): seq<Event>
  {
    [RegisterWrite(CommandReg, CmdSoftReset),
     DataWrite(FifoDataReg, NewData(SelfTestClearLength, 0x00)),
     RegisterWrite(CommandReg, CmdConfigure)]
    + poll1 +
    [RegisterWrite(AutoTestReg, AutoTestEnableSelfTest),
     DataWrite(FifoDataReg, [0x00]),
     RegisterWrite(CommandReg, CmdCalcCrc)]
    + poll2 + [fifoRead]
  }

  /** Any two Idle polls and a 64-byte FIFO read assemble into the steps of
      a self test. */
  lemma {:induction false} SelfTestEventsAreSelfTestTrace(poll1: seq<Event>, poll2: seq<Event>, fifoRead: Event)
    requires IsIdlePoll(poll1) && IsIdlePoll(poll2)
    requires IsDataRead(fifoRead, FifoDataReg, SelfTestResultLength)
    ensures SelfTestStepsAt(SelfTestEvents(poll1, poll2, fifoRead), 3 + |poll1|)
  {
    var es := SelfTestEvents(poll1, poll2, fifoRead);
    var i := 3 + |poll1|;
    assert es[3..i] == poll1;
    assert es[i + 3..|es| - 1] == poll2;
  }

  /** A trace that grows, step by step, the way the self test drives the bus
      ends in a self-test trace. */
  lemma SelfTestSteps(s0: seq<Event>, s1: seq<Event>, s2: seq<Event>, s3: seq<Event>, s4: seq<Event>,
                      s5: seq<Event>, s6: seq<Event>, s7: seq<Event>, s8: seq<Event>, s9: seq<Event>,
                      fifoRead: Event)
    requires s1 == s0 + [RegisterWrite(CommandReg, CmdSoftReset)]
    requires s2 == s1 + [DataWrite(FifoDataReg, NewData(SelfTestClearLength, 0x00))]
    requires s3 == s2 + [RegisterWrite(CommandReg, CmdConfigure)]
    requires s3 <= s4 && IsIdlePoll(s4[|s3|..])
    requires s5 == s4 + [RegisterWrite(AutoTestReg, AutoTestEnableSelfTest)]
    requires s6 == s5 + [DataWrite(FifoDataReg, [0x00])]
    requires s7 == s6 + [RegisterWrite(CommandReg, CmdCalcCrc)]
    requires s7 <= s8 && IsIdlePoll(s8[|s7|..])
    requires s9 == s8 + [fifoRead]
    requires IsDataRead(fifoRead, FifoDataReg, SelfTestResultLength)
    ensures s0 <= s9
    ensures SelfTestTrace(s9[|s0|..], DataRead(fifoRead) == SelfTestExpectedResult)
  {
    var poll1, poll2 := s4[|s3|..], s8[|s7|..];
    assert s9[|s0|..] == SelfTestEvents(poll1, poll2, fifoRead);
    SelfTestEventsAreSelfTestTrace(poll1, poll2, fifoRead);
  }

  /** Starting the CRC coprocessor: the mode register is read and written
      back with the two CRC preset bits cleared, then CalcCRC is issued. */
  predicate IsCrcStart(es: seq<Event>)
  {
    |es| == 3 &&
    IsRegisterRead(es[0], ModeReg) &&
    es[1] == RegisterWrite(ModeReg, ClearBits(ValueRead(es[0]), CrcPresetBits)) &&
    es[2] == RegisterWrite(CommandReg, CmdCalcCrc)
  }

  /** Reading the CRC result: the MSB register, then the LSB one. */
  predicate IsCrcResultRead(es: seq<Event>)
  {
    |es| == 2 && IsRegisterRead(es[0], CrcResultMsbReg) && IsRegisterRead(es[1], CrcResultLsbReg)
  }

  /** The CRC such a read yields, MSB first. */
  function CrcRead(es: seq<Event>): seq<Byte>
    requires IsCrcResultRead(es)
  {
    [ValueRead(es[0]), ValueRead(es[1])]
  }

  /** The CRC coprocessor test: soft reset; start the coprocessor with preset
      0x0000; the payload to the FIFO; read the CRC result; Idle. It passes
      iff the two bytes read are 0xD1 then 0x5E. */
  predicate CrcTestTrace(es: seq<Event>, passed: bool)
  {
    |es| == 8 &&
    es[0] == RegisterWrite(CommandReg, CmdSoftReset) &&
    IsCrcStart(es[1..4]) &&
    es[4] == DataWrite(FifoDataReg, CrcTestPayload) &&
    IsCrcResultRead(es[5..7]) &&
    es[7] == RegisterWrite(CommandReg, CmdIdle) &&
    passed == (CrcRead(es[5..7]) == ExpectedCrcResult)
  }

  /** A trace that grows, step by step, the way the CRC test drives the bus
      ends in a CRC-test trace. */
  lemma CrcTestSteps(s0: seq<Event>, s1: seq<Event>, s2: seq<Event>, s3: seq<Event>, s4: seq<Event>,
                     s5: seq<Event>)
    requires s1 == s0 + [RegisterWrite(CommandReg, CmdSoftReset)]
    requires s1 <= s2 && IsCrcStart(s2[|s1|..])
    requires s3 == s2 + [DataWrite(FifoDataReg, CrcTestPayload)]
    requires s3 <= s4 && IsCrcResultRead(s4[|s3|..])
    requires s5 == s4 + [RegisterWrite(CommandReg, CmdIdle)]
    ensures s0 <= s5
    ensures CrcTestTrace(s5[|s0|..], CrcRead(s4[|s3|..]) == ExpectedCrcResult)
  {
  }

  /** A read-modify-write that sets the bits of `mask` in register `reg`: the
      register is read, then written back with those bits set. */
  predicate IsSetBitsUpdate(es: seq<Event>, reg: Byte, mask: Byte)
  {
    |es| == 2 &&
    IsRegisterRead(es[0], reg) &&
    es[1] == RegisterWrite(reg, SetBits(ValueRead(es[0]), mask))
  }

  /** The transmit half of the wake-up probe: NoCmdChange; set the initiator
      bit of the control register; RF on; flush the FIFO; set the
      tx-last-bits field to 7; WUPA to the FIFO; clear the interrupt flags;
      Transceive; set StartSend. */
  predicate WupaSendTrace(es: seq<Event>)
  {
    |es| == 12 &&
    es[0] == RegisterWrite(CommandReg, CmdNoCmdChange) &&
    IsSetBitsUpdate(es[1..3], ControlReg, InitiatorBit) &&
    es[3] == RegisterWrite(TxControlReg, RfOnValue) &&
    es[4] == RegisterWrite(FifoLevelReg, FlushBufferBit) &&
    IsSetBitsUpdate(es[5..7], BitFramingReg, TxLastBitsSeven) &&
    es[7] == DataWrite(FifoDataReg, [Wupa]) &&
    es[8] == RegisterWrite(CommIrqReg, ClearAllIrqs) &&
    es[9] == RegisterWrite(CommandReg, CmdTransceive) &&
    IsSetBitsUpdate(es[10..12], BitFramingReg, StartSendBit)
  }

  /** A trace that grows, step by step, the way the transmit half of the
      wake-up probe drives the bus ends in a transmit-half trace. */
  lemma WupaSendSteps(s0: seq<Event>, s1: seq<Event>, s2: seq<Event>, s3: seq<Event>,
                                         s4: seq<Event>, s5: seq<Event>, s6: seq<Event>, s7: seq<Event>,
                                         s8: seq<Event>, s9: seq<Event>)
    requires s1 == s0 + [RegisterWrite(CommandReg, CmdNoCmdChange)]
    requires s1 <= s2 && IsSetBitsUpdate(s2[|s1|..], ControlReg, InitiatorBit)
    requires s3 == s2 + [RegisterWrite(TxControlReg, RfOnValue)]
    requires s4 == s3 + [RegisterWrite(FifoLevelReg, FlushBufferBit)]
    requires s4 <= s5 && IsSetBitsUpdate(s5[|s4|..], BitFramingReg, TxLastBitsSeven)
    requires s6 == s5 + [DataWrite(FifoDataReg, [Wupa])]
    requires s7 == s6 + [RegisterWrite(CommIrqReg, ClearAllIrqs)]
    requires s8 == s7 + [RegisterWrite(CommandReg, CmdTransceive)]
    requires s8 <= s9 && IsSetBitsUpdate(s9[|s8|..], BitFramingReg, StartSendBit)
    ensures s0 <= s9
    ensures WupaSendTrace(s9[|s0|..])
  {
  }

  /** The whole wake-up probe: the transmit half; wait for both completion
      flags; Idle; read two bytes from the FIFO. It succeeds iff they are the
      expected ATQA. */
  predicate MiFareTrace(es: seq<Event>, activated: bool)
  {
    |es| >= 15 &&
    WupaSendTrace(es[..12]) &&
    IsIrqPoll(es[12..|es| - 2]) &&
    es[|es| - 2] == RegisterWrite(CommandReg, CmdIdle) &&
    IsDataRead(es[|es| - 1], FifoDataReg, 2) &&
    activated == (DataRead(es[|es| - 1]) == ExpectedAtqa)
  }

  /** A transmit half, an interrupt poll, Idle and a two-byte FIFO read,
      recorded one after the other, make a wake-up trace that succeeds
      exactly when the bytes read are the ATQA. */
  lemma {:induction false} MiFareSteps(s0: seq<Event>, s1: seq<Event>, s2: seq<Event>, s3: seq<Event>,
                                       s4: seq<Event>, fifoRead: Event)
    requires s0 <= s1 && WupaSendTrace(s1[|s0|..])
    requires s1 <= s2 && IsIrqPoll(s2[|s1|..])
    requires s3 == s2 + [RegisterWrite(CommandReg, CmdIdle)]
    requires s4 == s3 + [fifoRead]
    requires IsDataRead(fifoRead, FifoDataReg, 2)
    ensures s0 <= s4
    ensures MiFareTrace(s4[|s0|..], DataRead(fifoRead) == ExpectedAtqa)
  {
    var es := s4[|s0|..];
    assert es[..12] == s1[|s0|..];
    assert es[12..|es| - 2] == s2[|s1|..];
  }

  /** In a wake-up trace the Transceive command is written before a write to
      the bit-framing register sets StartSend: StartSend only takes effect
      while Transceive is active. */
  lemma TransceiveBeforeStartSend(es: seq<Event>, activated: bool)
    requires MiFareTrace(es, activated)
    ensures exists i, j ::
              (0 <= i < j < |es| &&
               es[i] == RegisterWrite(CommandReg, CmdTransceive) &&
               es[j].Write? && |es[j].bytes| == 2 && es[j].bytes[0] == WriteAddress(BitFramingReg) &&
               es[j].bytes[1] & StartSendBit == StartSendBit)
  {
    var w := es[..12];
    assert WupaSendTrace(w);
    var startSend := w[10..12];
    assert IsSetBitsUpdate(startSend, BitFramingReg, StartSendBit);
    assert w[9] == es[9] && startSend[1] == es[11];
  }

  /** The wake-up probe's 7-bit framing step sets the tx-last-bits field to 7
      by OR-ing it in: every other bit of the bit-framing register is written
      back as it was read. */
  lemma FramingUpdateKeepsOtherBits(es: seq<Event>, activated: bool)
    requires MiFareTrace(es, activated)
    ensures IsRegisterRead(es[5], BitFramingReg) && es[6].Write? && |es[6].bytes| == 2
    ensures es[6].bytes[0] == WriteAddress(BitFramingReg)
    ensures es[6].bytes[1] & 0x07 == 0x07
    ensures es[6].bytes[1] & 0xF8 == ValueRead(es[5]) & 0xF8
  {
    var w := es[..12];
    assert WupaSendTrace(w);
    var framing := w[5..7];
    assert IsSetBitsUpdate(framing, BitFramingReg, TxLastBitsSeven);
    assert framing[0] == es[5] && framing[1] == es[6];
  }

  // ---------------------------------------------------------------------
  // Framing of whole procedures
  // ---------------------------------------------------------------------

  /** A completed register read is well framed. */
  lemma RegisterReadWellFramed(e: Event, reg: Byte)
    requires IsRegisterRead(e, reg)
    ensures WellFramed(e)
  {
    assert e.tx == ReadDataFrame(reg, 1);
    DriverEventsWellFramed(reg, 0x00, [], 1, e.rx);
  }

  /** Every write to register `reg` is well framed. */
  lemma WritesWellFramed(reg: Byte)
    ensures forall value :: WellFramed(RegisterWrite(reg, value))
    ensures forall data :: WellFramed(DataWrite(reg, data))
  {
    forall value ensures WellFramed(RegisterWrite(reg, value)) {
      DriverEventsWellFramed(reg, value, [], 0, [0x00]);
    }
    forall data ensures WellFramed(DataWrite(reg, data)) {
      DriverEventsWellFramed(reg, 0x00, data, 0, [0x00]);
    }
  }

  /** Every event of the self-test steps is well framed. */
  lemma SelfTestStepsWellFramed(es: seq<Event>, i: nat)
    requires SelfTestStepsAt(es, i)
    ensures forall k | 0 <= k < |es| :: WellFramed(es[k])
  {
    var poll1, poll2 := es[3..i], es[i + 3..|es| - 1];
    PollWellFramed(poll1, CommandReg, CommandMask, CmdIdle);
    PollWellFramed(poll2, CommandReg, CommandMask, CmdIdle);
    WritesWellFramed(CommandReg);
    WritesWellFramed(FifoDataReg);
    WritesWellFramed(AutoTestReg);
    forall k | 0 <= k < |es|
      ensures WellFramed(es[k])
    {
      if k < 3 {
      } else if k < i {
        assert es[k] == poll1[k - 3];
      } else if k < i + 3 {
      } else if k < |es| - 1 {
        assert es[k] == poll2[k - (i + 3)];
      } else {
        DriverEventsWellFramed(FifoDataReg, 0x00, [], SelfTestResultLength, es[k].rx);
      }
    }
  }

  /** Every event of a self-test trace is well framed. */
  lemma SelfTestTraceWellFramed(es: seq<Event>, passed: bool)
    requires SelfTestTrace(es, passed)
    ensures forall k | 0 <= k < |es| :: WellFramed(es[k])
  {
    var i: nat :| SelfTestStepsAt(es, i);
    SelfTestStepsWellFramed(es, i);
  }

  /** Every event of a CRC-test trace is well framed. */
  lemma CrcTestTraceWellFramed(es: seq<Event>, passed: bool)
    requires CrcTestTrace(es, passed)
    ensures forall k | 0 <= k < |es| :: WellFramed(es[k])
  {
    var start, result := es[1..4], es[5..7];
    RegisterReadWellFramed(start[0], ModeReg);
    RegisterReadWellFramed(result[0], CrcResultMsbReg);
    RegisterReadWellFramed(result[1], CrcResultLsbReg);
    WritesWellFramed(CommandReg);
    WritesWellFramed(ModeReg);
    WritesWellFramed(FifoDataReg);
    assert es == [es[0]] + start + [es[4]] + result + [es[7]];
  }

  /** Every event of a transmit-half trace is well framed. */
  lemma WupaSendTraceWellFramed(es: seq<Event>)
    requires WupaSendTrace(es)
    ensures forall k | 0 <= k < |es| :: WellFramed(es[k])
  {
    var initiator, framing, startSend := es[1..3], es[5..7], es[10..12];
    RegisterReadWellFramed(initiator[0], ControlReg);
    RegisterReadWellFramed(framing[0], BitFramingReg);
    RegisterReadWellFramed(startSend[0], BitFramingReg);
    WritesWellFramed(CommandReg);
    WritesWellFramed(ControlReg);
    WritesWellFramed(TxControlReg);
    WritesWellFramed(FifoLevelReg);
    WritesWellFramed(BitFramingReg);
    WritesWellFramed(FifoDataReg);
    WritesWellFramed(CommIrqReg);
    assert es == [es[0]] + initiator + es[3..5] + framing + es[7..10] + startSend;
  }

  /** Every event of a wake-up trace is well framed. */
  lemma MiFareTraceWellFramed(es: seq<Event>, activated: bool)
    requires MiFareTrace(es, activated)
    ensures forall k | 0 <= k < |es| :: WellFramed(es[k])
  {
    var send, poll := es[..12], es[12..|es| - 2];
    WupaSendTraceWellFramed(send);
    PollWellFramed(poll, CommIrqReg, RxTxIrqBits, RxTxIrqBits);
    WritesWellFramed(CommandReg);
    forall k | 0 <= k < |es|
      ensures WellFramed(es[k])
    {
      if k < 12 {
        assert es[k] == send[k];
      } else if k < |es| - 2 {
        assert es[k] == poll[k - 12];
      } else if k == |es| - 1 {
        DriverEventsWellFramed(FifoDataReg, 0x00, [], 2, es[k].rx);
      }
    }
  }
}

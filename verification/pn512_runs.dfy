/**
 The driver's operations as functions of the bus: each one takes the events
 recorded so far and the replies still to come, and says what the driver
 returns and which bus it leaves. They are the reference the driver's methods
 are proved against, and they fix outright when an operation succeeds: only
 a refused reply makes it fail, and then with the error of that step and the
 events recorded before it.

 The lemmas connect these functions with the trace predicates of
 `Pn512Frames`, and work out what a device that answers every step
 returns.
 */
module Pn512Runs {
  import opened BitUtils
  import opened SpiTransport
  import opened Pn512Constants
  import opened Pn512Frames

  // ---------------------------------------------------------------------
  // Register and data access
  // ---------------------------------------------------------------------

  function RegisterWriteRun(b: Bus, reg: Byte, value: Byte): (r: Outcome<()>)
    ensures r.Done? ==> r.bus.events == b.events + [RegisterWrite(reg, value)]
  {
    WriteRun(b, [WriteAddress(reg), value])
  }

  /** One register read: the value is the second byte clocked in. */
  function RegisterReadRun(b: Bus, reg: Byte): (r: Outcome<Byte>)
    ensures r.bus.script == Rest(b.script)
    ensures r.Done? ==> |r.bus.events| == |b.events| + 1 && b.events <= r.bus.events
    ensures r.Done? ==> IsRegisterRead(r.bus.events[|b.events|], reg)
    ensures r.Done? ==> ValueRead(r.bus.events[|b.events|]) == r.value
    ensures r.Failed? ==> r.error == TransportFault && r.bus.events == b.events
  {
    var t :- TransferRun(b, [ReadAddress(reg), 0x00]);
    Done(t.value[1], t.bus)
  }

  /** A data write refuses, before it touches the bus, a payload that leaves
      no room for the address byte in the 256-byte buffer. */
  function DataWriteRun(b: Bus, reg: Byte, data: seq<Byte>): (r: Outcome<()>)
    ensures |data| >= BufferSize ==> r == Failed(IllegalArgument, b)
    ensures r.Done? ==> r.bus.events == b.events + [DataWrite(reg, data)]
    ensures |data| < BufferSize && r.Failed? ==> r.error == TransportFault && r.bus.events == b.events
  {
    if |data| >= BufferSize then Failed(IllegalArgument, b)
    else WriteRun(b, [WriteAddress(reg)] + data)
  }

  /** A read of `length` bytes: all but the first byte clocked in. */
  function DataReadRun(b: Bus, reg: Byte, length: nat): (r: Outcome<seq<Byte>>)
    ensures r.bus.script == Rest(b.script)
    ensures r.Done? ==> |r.value| == length
    ensures r.Done? ==> |r.bus.events| == |b.events| + 1 && b.events <= r.bus.events
    ensures r.Done? ==> IsDataRead(r.bus.events[|b.events|], reg, length)
    ensures r.Done? ==> DataRead(r.bus.events[|b.events|]) == r.value
    ensures r.Failed? ==> r.error == TransportFault && r.bus.events == b.events
  {
    var t :- TransferRun(b, ReadDataFrame(reg, length));
    Done(t.value[1..], t.bus)
  }

  // ---------------------------------------------------------------------
  // Polling
  // ---------------------------------------------------------------------

  /** Reads register `reg` until its value masked with `mask` is `want`. */
  function PollRun(b: Bus, reg: Byte, mask: Byte, want: Byte): (r: Outcome<()>)
    ensures b.events <= r.bus.events
    ensures r.Failed? ==> r.error == TransportFault
    decreases |b.script|
  {
    var read :- RegisterReadRun(b, reg);
    if FieldIs(read.value, mask, want) then Done((), read.bus)
    else PollRun(read.bus, reg, mask, want)
  }

  /** A busy read in front of a busy poll, or of a complete one, keeps it so. */
  lemma PrependBusyRead(e: Event, es: seq<Event>, reg: Byte, mask: Byte, want: Byte)
    requires IsRegisterRead(e, reg) && !FieldIs(ValueRead(e), mask, want)
    ensures IsBusyPoll(es, reg, mask, want) ==> IsBusyPoll([e] + es, reg, mask, want)
    ensures IsPoll(es, reg, mask, want) ==> IsPoll([e] + es, reg, mask, want)
  {
    if IsPoll(es, reg, mask, want) {
      assert ([e] + es)[..|es|] == [e] + es[..|es| - 1];
    }
  }

  /** What a step that records one event adds, seen from before that step. */
  lemma SplitAfterOne(s0: seq<Event>, s1: seq<Event>, s2: seq<Event>)
    requires s0 <= s1 <= s2 && |s1| == |s0| + 1
    ensures s2[|s0|..] == [s1[|s0|]] + s2[|s1|..]
  {
  }

  /** A poll records register reads only: busy ones and, if it completes,
      one final read that shows the awaited value. */
  lemma {:induction false} PollRunIsPoll(b: Bus, reg: Byte, mask: Byte, want: Byte)
    ensures var r := PollRun(b, reg, mask, want);
      r.Done? ==> IsPoll(r.bus.events[|b.events|..], reg, mask, want)
    ensures var r := PollRun(b, reg, mask, want);
      r.Failed? ==> IsBusyPoll(r.bus.events[|b.events|..], reg, mask, want)
    decreases |b.script|
  {
    var read := RegisterReadRun(b, reg);
    if read.Failed? {
      assert PollRun(b, reg, mask, want) == Failed(read.error, read.bus);
      assert read.bus.events[|b.events|..] == [];
    } else if FieldIs(read.value, mask, want) {
      assert PollRun(b, reg, mask, want) == Done((), read.bus);
      assert read.bus.events[|b.events|..] == [read.bus.events[|b.events|]];
    } else {
      assert PollRun(b, reg, mask, want) == PollRun(read.bus, reg, mask, want);
      PollRunIsPoll(read.bus, reg, mask, want);
      var r := PollRun(read.bus, reg, mask, want);
      var e := read.bus.events[|b.events|];
      SplitAfterOne(b.events, read.bus.events, r.bus.events);
      PrependBusyRead(e, r.bus.events[|read.bus.events|..], reg, mask, want);
    }
  }

  /** The replies of a poll that completes: each answers a register read,
      and only the last shows the awaited value. */
  predicate PollReplies(replies: seq<Reply>, mask: Byte, want: Byte)
  {
    |replies| > 0 &&
    (forall i | 0 <= i < |replies| :: replies[i].Data? && |replies[i].rx| == 2) &&
    (forall i | 0 <= i < |replies| - 1 :: !FieldIs(replies[i].rx[1], mask, want)) &&
    FieldIs(replies[|replies| - 1].rx[1], mask, want)
  }

  /** A poll over such replies completes, records one read per reply and
      leaves the rest of the script. */
  lemma {:induction false} PollRunCompletes(events: seq<Event>, replies: seq<Reply>, rest: seq<Reply>,
                                            reg: Byte, mask: Byte, want: Byte)
    requires PollReplies(replies, mask, want)
    ensures var r := PollRun(Bus(events, replies + rest), reg, mask, want);
      r.Done? && r.bus.script == rest && |r.bus.events| == |events| + |replies|
    decreases |replies|
  {
    var b := Bus(events, replies + rest);
    var read := RegisterReadRun(b, reg);
    assert (replies + rest)[0] == replies[0];
    if |replies| > 1 {
      assert read.bus.script == replies[1..] + rest;
      assert PollReplies(replies[1..], mask, want);
      PollRunCompletes(read.bus.events, replies[1..], rest, reg, mask, want);
    }
  }

  // ---------------------------------------------------------------------
  // Register updates
  // ---------------------------------------------------------------------

  /** Read-modify-write of register `reg` that sets the bits of `mask`. */
  function SetBitsRun(b: Bus, reg: Byte, mask: Byte): (r: Outcome<()>)
    ensures b.events <= r.bus.events
    ensures r.Failed? ==> r.error == TransportFault
  {
    var read :- RegisterReadRun(b, reg);
    RegisterWriteRun(read.bus, reg, SetBits(read.value, mask))
  }

  /** A read-modify-write that completes records the read and then the value
      read with the bits of `mask` set. */
  lemma SetBitsRunIsSetBitsUpdate(b: Bus, reg: Byte, mask: Byte)
    ensures var r := SetBitsRun(b, reg, mask);
      r.Done? ==> IsSetBitsUpdate(r.bus.events[|b.events|..], reg, mask)
  {
    var r := SetBitsRun(b, reg, mask);
    if r.Done? {
      var read := RegisterReadRun(b, reg);
      assert r.bus.events[|b.events|..] == [read.bus.events[|b.events|], RegisterWrite(reg, SetBits(read.value, mask))];
    }
  }

  /** Clears the CRC preset bits of the mode register, then starts CalcCRC. */
  function ClearAndStartCrcRun(b: Bus): (r: Outcome<()>)
    ensures b.events <= r.bus.events
    ensures r.Done? ==> IsCrcStart(r.bus.events[|b.events|..])
    ensures r.Failed? ==> r.error == TransportFault
  {
    var mode :- RegisterReadRun(b, ModeReg);
    var write :- RegisterWriteRun(mode.bus, ModeReg, ClearBits(mode.value, CrcPresetBits));
    RegisterWriteRun(write.bus, CommandReg, CmdCalcCrc)
  }

  /** Reads the CRC result, MSB register first. */
  function CrcReadRun(b: Bus): (r: Outcome<seq<Byte>>)
    ensures b.events <= r.bus.events
    ensures r.Done? ==> var es := r.bus.events[|b.events|..];
      IsCrcResultRead(es) && r.value == CrcRead(es)
    ensures r.Failed? ==> r.error == TransportFault
  {
    var msb :- RegisterReadRun(b, CrcResultMsbReg);
    var lsb :- RegisterReadRun(msb.bus, CrcResultLsbReg);
    Done([msb.value, lsb.value], lsb.bus)
  }

  // ---------------------------------------------------------------------
  // Procedures
  // ---------------------------------------------------------------------

  /** The chip's self test. */
  function SelfTestRun(b: Bus): (r: Outcome<bool>)
    ensures b.events <= r.bus.events
    ensures r.Failed? ==> r.error == TransportFault
  {
    var reset :- RegisterWriteRun(b, CommandReg, CmdSoftReset);
    var clear :- DataWriteRun(reset.bus, FifoDataReg, NewData(SelfTestClearLength, 0x00));
    var configure :- RegisterWriteRun(clear.bus, CommandReg, CmdConfigure);
    var idle1 :- PollRun(configure.bus, CommandReg, CommandMask, CmdIdle);
    var enable :- RegisterWriteRun(idle1.bus, AutoTestReg, AutoTestEnableSelfTest);
    var zero :- DataWriteRun(enable.bus, FifoDataReg, [0x00]);
    var calcCrc :- RegisterWriteRun(zero.bus, CommandReg, CmdCalcCrc);
    var idle2 :- PollRun(calcCrc.bus, CommandReg, CommandMask, CmdIdle);
    var read :- DataReadRun(idle2.bus, FifoDataReg, SelfTestResultLength);
    Done(read.value == SelfTestExpectedResult, read.bus)
  }

  /** The CRC coprocessor test. */
  function CrcTestRun(b: Bus): (r: Outcome<bool>)
    ensures b.events <= r.bus.events
    ensures r.Failed? ==> r.error == TransportFault
  {
    var reset :- RegisterWriteRun(b, CommandReg, CmdSoftReset);
    var start :- ClearAndStartCrcRun(reset.bus);
    var payload :- DataWriteRun(start.bus, FifoDataReg, CrcTestPayload);
    var crc :- CrcReadRun(payload.bus);
    var idle :- RegisterWriteRun(crc.bus, CommandReg, CmdIdle);
    Done(crc.value == ExpectedCrcResult, idle.bus)
  }

  /** The transmit half of the wake-up probe. */
  function WupaSendRun(b: Bus): (r: Outcome<()>)
    ensures b.events <= r.bus.events
    ensures r.Failed? ==> r.error == TransportFault
  {
    var receive :- RegisterWriteRun(b, CommandReg, CmdNoCmdChange);
    var initiator :- SetBitsRun(receive.bus, ControlReg, InitiatorBit);
    var rfOn :- RegisterWriteRun(initiator.bus, TxControlReg, RfOnValue);
    var flush :- RegisterWriteRun(rfOn.bus, FifoLevelReg, FlushBufferBit);
    var framing :- SetBitsRun(flush.bus, BitFramingReg, TxLastBitsSeven);
    var wupa :- DataWriteRun(framing.bus, FifoDataReg, [Wupa]);
    var clearIrqs :- RegisterWriteRun(wupa.bus, CommIrqReg, ClearAllIrqs);
    var transceive :- RegisterWriteRun(clearIrqs.bus, CommandReg, CmdTransceive);
    SetBitsRun(transceive.bus, BitFramingReg, StartSendBit)
  }

  /** The receive half of the wake-up probe: wait for both completion flags,
      cancel Transceive, and compare the two bytes in the FIFO with the ATQA. */
  function WupaAnswerRun(b: Bus): (r: Outcome<bool>)
    ensures b.events <= r.bus.events
    ensures r.Failed? ==> r.error == TransportFault
  {
    var irqs :- PollRun(b, CommIrqReg, RxTxIrqBits, RxTxIrqBits);
    var idle :- RegisterWriteRun(irqs.bus, CommandReg, CmdIdle);
    var answer :- DataReadRun(idle.bus, FifoDataReg, 2);
    Done(ExpectedAtqa == answer.value, answer.bus)
  }

  /** The whole wake-up probe. */
  function MiFareRun(b: Bus): (r: Outcome<bool>)
    ensures b.events <= r.bus.events
    ensures r.Failed? ==> r.error == TransportFault
  {
    var send :- WupaSendRun(b);
    WupaAnswerRun(send.bus)
  }

  // ---------------------------------------------------------------------
  // What the procedures record
  // ---------------------------------------------------------------------

  /** A self test that completes has recorded a self-test trace, and returns
      its verdict. */
  lemma SelfTestRunIsSelfTestTrace(b: Bus)
    ensures var r := SelfTestRun(b);
      r.Done? ==> SelfTestTrace(r.bus.events[|b.events|..], r.value)
  {
    if SelfTestRun(b).Done? {
      var reset := RegisterWriteRun(b, CommandReg, CmdSoftReset);
      var clear := DataWriteRun(reset.bus, FifoDataReg, NewData(SelfTestClearLength, 0x00));
      var configure := RegisterWriteRun(clear.bus, CommandReg, CmdConfigure);
      var idle1 := PollRun(configure.bus, CommandReg, CommandMask, CmdIdle);
      PollRunIsPoll(configure.bus, CommandReg, CommandMask, CmdIdle);
      var enable := RegisterWriteRun(idle1.bus, AutoTestReg, AutoTestEnableSelfTest);
      var zero := DataWriteRun(enable.bus, FifoDataReg, [0x00]);
      var calcCrc := RegisterWriteRun(zero.bus, CommandReg, CmdCalcCrc);
      var idle2 := PollRun(calcCrc.bus, CommandReg, CommandMask, CmdIdle);
      PollRunIsPoll(calcCrc.bus, CommandReg, CommandMask, CmdIdle);
      var read := DataReadRun(idle2.bus, FifoDataReg, SelfTestResultLength);
      assert read.Done? && SelfTestRun(b) == Done(read.value == SelfTestExpectedResult, read.bus);
      var fifoRead := read.bus.events[|idle2.bus.events|];
      assert read.bus.events == idle2.bus.events + [fifoRead];
      SelfTestSteps(b.events, reset.bus.events, clear.bus.events, configure.bus.events, idle1.bus.events,
                    enable.bus.events, zero.bus.events, calcCrc.bus.events, idle2.bus.events, read.bus.events,
                    fifoRead);
    }
  }

  /** A CRC test that completes has recorded a CRC-test trace, and returns
      its verdict. */
  lemma CrcTestRunIsCrcTestTrace(b: Bus)
    ensures var r := CrcTestRun(b);
      r.Done? ==> CrcTestTrace(r.bus.events[|b.events|..], r.value)
  {
    if CrcTestRun(b).Done? {
      var reset := RegisterWriteRun(b, CommandReg, CmdSoftReset);
      var start := ClearAndStartCrcRun(reset.bus);
      var payload := DataWriteRun(start.bus, FifoDataReg, CrcTestPayload);
      var crc := CrcReadRun(payload.bus);
      var idle := RegisterWriteRun(crc.bus, CommandReg, CmdIdle);
      assert idle.Done? && CrcTestRun(b) == Done(crc.value == ExpectedCrcResult, idle.bus);
      CrcTestSteps(b.events, reset.bus.events, start.bus.events, payload.bus.events, crc.bus.events,
                   idle.bus.events);
    }
  }

  /** A transmit half that completes has recorded a transmit-half trace. */
  lemma WupaSendRunIsWupaSendTrace(b: Bus)
    ensures var r := WupaSendRun(b);
      r.Done? ==> WupaSendTrace(r.bus.events[|b.events|..])
  {
    if WupaSendRun(b).Done? {
      var receive := RegisterWriteRun(b, CommandReg, CmdNoCmdChange);
      var initiator := SetBitsRun(receive.bus, ControlReg, InitiatorBit);
      SetBitsRunIsSetBitsUpdate(receive.bus, ControlReg, InitiatorBit);
      var rfOn := RegisterWriteRun(initiator.bus, TxControlReg, RfOnValue);
      var flush := RegisterWriteRun(rfOn.bus, FifoLevelReg, FlushBufferBit);
      var framing := SetBitsRun(flush.bus, BitFramingReg, TxLastBitsSeven);
      SetBitsRunIsSetBitsUpdate(flush.bus, BitFramingReg, TxLastBitsSeven);
      var wupa := DataWriteRun(framing.bus, FifoDataReg, [Wupa]);
      var clearIrqs := RegisterWriteRun(wupa.bus, CommIrqReg, ClearAllIrqs);
      var transceive := RegisterWriteRun(clearIrqs.bus, CommandReg, CmdTransceive);
      var startSend := SetBitsRun(transceive.bus, BitFramingReg, StartSendBit);
      SetBitsRunIsSetBitsUpdate(transceive.bus, BitFramingReg, StartSendBit);
      assert startSend.Done? && WupaSendRun(b) == startSend;
      WupaSendSteps(b.events, receive.bus.events, initiator.bus.events, rfOn.bus.events, flush.bus.events,
                    framing.bus.events, wupa.bus.events, clearIrqs.bus.events, transceive.bus.events,
                    startSend.bus.events);
    }
  }

  /** A wake-up probe that completes has recorded a wake-up trace, and
      returns whether the card answered with the ATQA. */
  lemma MiFareRunIsMiFareTrace(b: Bus)
    ensures var r := MiFareRun(b);
      r.Done? ==> MiFareTrace(r.bus.events[|b.events|..], r.value)
  {
    if MiFareRun(b).Done? {
      var send := WupaSendRun(b);
      WupaSendRunIsWupaSendTrace(b);
      var irqs := PollRun(send.bus, CommIrqReg, RxTxIrqBits, RxTxIrqBits);
      PollRunIsPoll(send.bus, CommIrqReg, RxTxIrqBits, RxTxIrqBits);
      var idle := RegisterWriteRun(irqs.bus, CommandReg, CmdIdle);
      var answer := DataReadRun(idle.bus, FifoDataReg, 2);
      assert MiFareRun(b) == WupaAnswerRun(send.bus);
      assert answer.Done? && WupaAnswerRun(send.bus) == Done(ExpectedAtqa == answer.value, answer.bus);
      var fifoRead := answer.bus.events[|idle.bus.events|];
      assert answer.bus.events == idle.bus.events + [fifoRead];
      MiFareSteps(b.events, send.bus.events, irqs.bus.events, idle.bus.events, answer.bus.events, fifoRead);
    }
  }

  // ---------------------------------------------------------------------
  // Devices that answer every step
  // ---------------------------------------------------------------------

  /** A register write that the device acknowledges completes. */
  lemma RegisterWriteOnAck(b: Bus, reg: Byte, value: Byte)
    requires |b.script| >= 1 && b.script[0] == Ack
    ensures RegisterWriteRun(b, reg, value).Done?
    ensures RegisterWriteRun(b, reg, value).bus.script == b.script[1..]
  {
  }

  /** A data write of a payload that fits, which the device acknowledges,
      completes. */
  lemma DataWriteOnAck(b: Bus, reg: Byte, data: seq<Byte>)
    requires |data| < BufferSize && |b.script| >= 1 && b.script[0] == Ack
    ensures DataWriteRun(b, reg, data).Done?
    ensures DataWriteRun(b, reg, data).bus.script == b.script[1..]
  {
  }

  /** A data read that the device answers with the right number of bytes
      completes and yields all of them but the first. */
  lemma DataReadOnAnswer(b: Bus, reg: Byte, length: nat)
    requires |b.script| >= 1 && b.script[0].Data? && |b.script[0].rx| == length + 1
    ensures DataReadRun(b, reg, length).Done?
    ensures DataReadRun(b, reg, length).value == b.script[0].rx[1..]
    ensures DataReadRun(b, reg, length).bus.script == b.script[1..]
  {
  }

  /** A read-modify-write whose read is answered and whose write is
      acknowledged completes. */
  lemma SetBitsOnAnswers(b: Bus, reg: Byte, mask: Byte)
    requires |b.script| >= 2 && b.script[0].Data? && |b.script[0].rx| == 2 && b.script[1] == Ack
    ensures SetBitsRun(b, reg, mask).Done?
    ensures SetBitsRun(b, reg, mask).bus.script == b.script[2..]
  {
  }

  /** Starting the CRC coprocessor completes when the mode read is answered
      and both writes are acknowledged. */
  lemma ClearAndStartCrcOnAnswers(b: Bus)
    requires |b.script| >= 3 && b.script[0].Data? && |b.script[0].rx| == 2
    requires b.script[1] == Ack && b.script[2] == Ack
    ensures ClearAndStartCrcRun(b).Done?
    ensures ClearAndStartCrcRun(b).bus.script == b.script[3..]
  {
  }

  /** Reading the CRC result completes when both register reads are
      answered, and yields the second byte of each answer. */
  lemma CrcReadOnAnswers(b: Bus)
    requires |b.script| >= 2 && b.script[0].Data? && |b.script[0].rx| == 2
    requires b.script[1].Data? && |b.script[1].rx| == 2
    ensures CrcReadRun(b).Done?
    ensures CrcReadRun(b).value == [b.script[0].rx[1], b.script[1].rx[1]]
    ensures CrcReadRun(b).bus.script == b.script[2..]
  {
  }

  /** If the device answers every step of the self test, and each Idle poll
      ends, the test completes, consumes exactly those replies, and passes
      exactly when the 64 bytes read back are the signature. */
  lemma SelfTestOnAnsweringDevice(events: seq<Event>, poll1: seq<Reply>, poll2: seq<Reply>,
                                  rx: seq<Byte>, rest: seq<Reply>)
    requires PollReplies(poll1, CommandMask, CmdIdle) && PollReplies(poll2, CommandMask, CmdIdle)
    requires |rx| == SelfTestResultLength + 1
    ensures var r := SelfTestRun(Bus(events, [Ack, Ack, Ack] + poll1 + [Ack, Ack, Ack] + poll2 + [Data(rx)] + rest));
      r.Done? && r.bus.script == rest && r.value == (rx[1..] == SelfTestExpectedResult)
  {
    var writes := [Ack, Ack, Ack];
    var tail2 := [Data(rx)] + rest;
    var tail1 := writes + (poll2 + tail2);
    var replies := writes + (poll1 + tail1);
    assert writes + poll1 + writes + poll2 + [Data(rx)] + rest == replies;
    var b := Bus(events, replies);
    RegisterWriteOnAck(b, CommandReg, CmdSoftReset);
    var reset := RegisterWriteRun(b, CommandReg, CmdSoftReset);
    DataWriteOnAck(reset.bus, FifoDataReg, NewData(SelfTestClearLength, 0x00));
    var clear := DataWriteRun(reset.bus, FifoDataReg, NewData(SelfTestClearLength, 0x00));
    RegisterWriteOnAck(clear.bus, CommandReg, CmdConfigure);
    var configure := RegisterWriteRun(clear.bus, CommandReg, CmdConfigure);
    assert configure.bus.script == poll1 + tail1;
    PollRunCompletes(configure.bus.events, poll1, tail1, CommandReg, CommandMask, CmdIdle);
    var idle1 := PollRun(configure.bus, CommandReg, CommandMask, CmdIdle);
    RegisterWriteOnAck(idle1.bus, AutoTestReg, AutoTestEnableSelfTest);
    var enable := RegisterWriteRun(idle1.bus, AutoTestReg, AutoTestEnableSelfTest);
    DataWriteOnAck(enable.bus, FifoDataReg, [0x00]);
    var zero := DataWriteRun(enable.bus, FifoDataReg, [0x00]);
    RegisterWriteOnAck(zero.bus, CommandReg, CmdCalcCrc);
    var calcCrc := RegisterWriteRun(zero.bus, CommandReg, CmdCalcCrc);
    assert calcCrc.bus.script == poll2 + tail2;
    PollRunCompletes(calcCrc.bus.events, poll2, tail2, CommandReg, CommandMask, CmdIdle);
    var idle2 := PollRun(calcCrc.bus, CommandReg, CommandMask, CmdIdle);
    DataReadOnAnswer(idle2.bus, FifoDataReg, SelfTestResultLength);
  }

  /** If the device answers every step of the CRC test, the test completes,
      consumes exactly its eight replies, and passes exactly when the two
      CRC bytes read are 0xD1, then 0x5E. */
  lemma CrcTestOnAnsweringDevice(events: seq<Event>, mode: seq<Byte>, msb: seq<Byte>, lsb: seq<Byte>,
                                 rest: seq<Reply>)
    requires |mode| == 2 && |msb| == 2 && |lsb| == 2
    ensures var r := CrcTestRun(Bus(events, [Ack, Data(mode), Ack, Ack, Ack, Data(msb), Data(lsb), Ack] + rest));
      r.Done? && r.bus.script == rest && r.value == (msb[1] == 0xD1 && lsb[1] == 0x5E)
  {
    var replies := [Ack, Data(mode), Ack, Ack, Ack, Data(msb), Data(lsb), Ack] + rest;
    var b := Bus(events, replies);
    RegisterWriteOnAck(b, CommandReg, CmdSoftReset);
    var reset := RegisterWriteRun(b, CommandReg, CmdSoftReset);
    assert reset.bus.script == replies[1..];
    ClearAndStartCrcOnAnswers(reset.bus);
    var start := ClearAndStartCrcRun(reset.bus);
    assert start.bus.script == replies[4..];
    DataWriteOnAck(start.bus, FifoDataReg, CrcTestPayload);
    var payload := DataWriteRun(start.bus, FifoDataReg, CrcTestPayload);
    assert payload.bus.script == replies[5..];
    CrcReadOnAnswers(payload.bus);
    var crc := CrcReadRun(payload.bus);
    assert crc.bus.script == replies[7..];
    RegisterWriteOnAck(crc.bus, CommandReg, CmdIdle);
    var idle := RegisterWriteRun(crc.bus, CommandReg, CmdIdle);
    assert idle.bus.script == rest;
    assert CrcTestRun(b) == Done(crc.value == ExpectedCrcResult, idle.bus);
  }

  /** A fault while the CRC test loads its payload aborts it: the four events
      before it stay recorded, nothing after it is, and the faulty reply
      is consumed. */
  lemma CrcTestAbortsOnFault(events: seq<Event>, mode: seq<Byte>, fault: Reply, rest: seq<Reply>)
    requires |mode| == 2 && !fault.Ack?
    ensures var r := CrcTestRun(Bus(events, [Ack, Data(mode), Ack, Ack, fault] + rest));
      r.Failed? && r.error == TransportFault && r.bus.script == rest && |r.bus.events| == |events| + 4
  {
    var b := Bus(events, [Ack, Data(mode), Ack, Ack, fault] + rest);
    var reset := RegisterWriteRun(b, CommandReg, CmdSoftReset);
    var start := ClearAndStartCrcRun(reset.bus);
    assert start.Done? && start.bus.script == [fault] + rest;
  }

  /** `reply` answers a register read: two bytes clocked in. */
  predicate AnswersRead(reply: Reply)
  {
    reply.Data? && |reply.rx| == 2
  }

  /** The first twelve replies answer the transmit half: each write is
      acknowledged and each of the three register reads is answered. */
  predicate AnswersWupaSend(replies: seq<Reply>)
  {
    |replies| >= 12 &&
    replies[0] == Ack && AnswersRead(replies[1]) && replies[2] == Ack &&
    replies[3] == Ack && replies[4] == Ack && AnswersRead(replies[5]) &&
    replies[6] == Ack && replies[7] == Ack && replies[8] == Ack &&
    replies[9] == Ack && AnswersRead(replies[10]) && replies[11] == Ack
  }

  /** If the device answers every step of the transmit half, it completes
      and consumes exactly its twelve replies. */
  lemma WupaSendOnAnsweringDevice(events: seq<Event>, replies: seq<Reply>)
    requires AnswersWupaSend(replies)
    ensures var r := WupaSendRun(Bus(events, replies));
      r.Done? && r.bus.script == replies[12..]
  {
    var b := Bus(events, replies);
    RegisterWriteOnAck(b, CommandReg, CmdNoCmdChange);
    var receive := RegisterWriteRun(b, CommandReg, CmdNoCmdChange);
    assert receive.bus.script == replies[1..];
    SetBitsOnAnswers(receive.bus, ControlReg, InitiatorBit);
    var initiator := SetBitsRun(receive.bus, ControlReg, InitiatorBit);
    assert initiator.bus.script == replies[3..];
    RegisterWriteOnAck(initiator.bus, TxControlReg, RfOnValue);
    var rfOn := RegisterWriteRun(initiator.bus, TxControlReg, RfOnValue);
    assert rfOn.bus.script == replies[4..];
    RegisterWriteOnAck(rfOn.bus, FifoLevelReg, FlushBufferBit);
    var flush := RegisterWriteRun(rfOn.bus, FifoLevelReg, FlushBufferBit);
    assert flush.bus.script == replies[5..];
    SetBitsOnAnswers(flush.bus, BitFramingReg, TxLastBitsSeven);
    var framing := SetBitsRun(flush.bus, BitFramingReg, TxLastBitsSeven);
    assert framing.bus.script == replies[7..];
    DataWriteOnAck(framing.bus, FifoDataReg, [Wupa]);
    var wupa := DataWriteRun(framing.bus, FifoDataReg, [Wupa]);
    assert wupa.bus.script == replies[8..];
    RegisterWriteOnAck(wupa.bus, CommIrqReg, ClearAllIrqs);
    var clearIrqs := RegisterWriteRun(wupa.bus, CommIrqReg, ClearAllIrqs);
    assert clearIrqs.bus.script == replies[9..];
    RegisterWriteOnAck(clearIrqs.bus, CommandReg, CmdTransceive);
    var transceive := RegisterWriteRun(clearIrqs.bus, CommandReg, CmdTransceive);
    assert transceive.bus.script == replies[10..];
    SetBitsOnAnswers(transceive.bus, BitFramingReg, StartSendBit);
    var startSend := SetBitsRun(transceive.bus, BitFramingReg, StartSendBit);
    assert startSend.bus.script == replies[12..];
    assert WupaSendRun(b) == startSend;
  }

  /** If the interrupt poll ends and the device acknowledges Idle and
      answers the FIFO read, the receive half completes, consumes exactly
      those replies, and reports a card exactly when the two bytes read back
      are the ATQA 0x44 0x00. */
  lemma WupaAnswerOnAnsweringDevice(events: seq<Event>, irqs: seq<Reply>, after: seq<Reply>)
    requires PollReplies(irqs, RxTxIrqBits, RxTxIrqBits)
    requires |after| >= 2 && after[0] == Ack && after[1].Data? && |after[1].rx| == 3
    ensures var r := WupaAnswerRun(Bus(events, irqs + after));
      r.Done? && r.bus.script == after[2..] &&
      r.value == (after[1].rx[1] == 0x44 && after[1].rx[2] == 0x00)
  {
    var b := Bus(events, irqs + after);
    PollRunCompletes(events, irqs, after, CommIrqReg, RxTxIrqBits, RxTxIrqBits);
    var polled := PollRun(b, CommIrqReg, RxTxIrqBits, RxTxIrqBits);
    RegisterWriteOnAck(polled.bus, CommandReg, CmdIdle);
    var idle := RegisterWriteRun(polled.bus, CommandReg, CmdIdle);
    assert idle.bus.script == after[1..];
    DataReadOnAnswer(idle.bus, FifoDataReg, 2);
    var answer := DataReadRun(idle.bus, FifoDataReg, 2);
    assert WupaAnswerRun(b) == Done(ExpectedAtqa == answer.value, answer.bus);
    assert answer.value == [after[1].rx[1], after[1].rx[2]];
  }

  /** If the device answers every step of the wake-up probe, and the
      interrupt poll ends, the probe completes, consumes exactly those
      replies, and reports a card exactly when the two bytes read back are
      the ATQA 0x44 0x00. */
  lemma MiFareOnAnsweringDevice(events: seq<Event>, replies: seq<Reply>, irqs: seq<Reply>, after: seq<Reply>)
    requires AnswersWupaSend(replies) && replies[12..] == irqs + after
    requires PollReplies(irqs, RxTxIrqBits, RxTxIrqBits)
    requires |after| >= 2 && after[0] == Ack && after[1].Data? && |after[1].rx| == 3
    ensures var r := MiFareRun(Bus(events, replies));
      r.Done? && r.bus.script == after[2..] &&
      r.value == (after[1].rx[1] == 0x44 && after[1].rx[2] == 0x00)
  {
    WupaSendOnAnsweringDevice(events, replies);
    var sent := WupaSendRun(Bus(events, replies));
    WupaAnswerOnAnsweringDevice(sent.bus.events, irqs, after);
  }
}

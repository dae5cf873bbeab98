/**
 The PN512 register/FIFO driver: a class that owns the SPI transport and two
 256-byte scratch buffers, overwritten in place by every bus operation.

 Each method returns a `Result`: `Err(TransportFault)` models the
 `IOException` of a failed bus operation, which aborts whatever the driver was
 doing; `Err(IllegalArgument)` models the `IllegalArgumentException` of an
 oversized payload. The procedures report a failed test as `Ok(false)`.
 */
module Pn512 {
  import opened BitUtils
  import opened SpiTransport
  import opened Pn512Constants
  import opened Pn512Frames
  import opened Pn512Runs

  class Pn512NfcDevice {
    const spi: SpiBus
    const txBuffer: array<Byte>
    const rxBuffer: array<Byte>

    ghost predicate Valid()
    {
      txBuffer.Length == BufferSize && rxBuffer.Length == BufferSize && txBuffer != rxBuffer
    }

    /** Takes over the SPI device and allocates the two scratch buffers. The
        driver's constructor also configures the device (a 250 kHz clock,
        8-bit words, SPI mode 0, chip select held between words); that
        configuration is left out of the model. */
    constructor (spiDevice: SpiBus)
      ensures Valid() && spi == spiDevice
      ensures fresh(txBuffer) && fresh(rxBuffer)
    {
      spi := spiDevice;
      txBuffer := new Byte[BufferSize];
      rxBuffer := new Byte[BufferSize];
    }

    // -------------------------------------------------------------------
    // Register and data access
    // -------------------------------------------------------------------

    /** Writes one register: the write address, then the value. */
    method WriteRegister(reg: Byte, data: Byte) returns (r: Result<()>)
      requires Valid()
      modifies spi, txBuffer
      ensures spi.script == Rest(old(spi.script))
      ensures r.Ok? <==> WriteAccepted(old(spi.script))
      ensures r.Ok? ==> spi.trace == old(spi.trace) + [RegisterWrite(reg, data)]
      ensures r.Err? ==> r.error == TransportFault && spi.trace == old(spi.trace)
      ensures txBuffer[..2] == [WriteAddress(reg), data] && txBuffer[2..] == old(txBuffer[2..])
      ensures r == RegisterWriteRun(old(spi.State()), reg, data).AsResult()
      ensures spi.State() == RegisterWriteRun(old(spi.State()), reg, data).bus
    {
      txBuffer[0] := WriteAddress(reg);
      txBuffer[1] := data;
      assert txBuffer[..2] == [WriteAddress(reg), data];
      r := spi.Write(txBuffer, 2);
    }

    /** Reads one register: clocks out the read address and a dummy 0x00 and
        returns the SECOND byte clocked in; the first is pipeline residue. */
    method ReadRegister(reg: Byte) returns (r: Result<Byte>)
      requires Valid()
      modifies spi, txBuffer, rxBuffer
      ensures spi.script == Rest(old(spi.script))
      ensures r.Ok? <==> TransferAccepted(old(spi.script), 2)
      ensures r.Ok? ==> spi.trace == old(spi.trace) + [Transfer([ReadAddress(reg), 0x00], old(spi.script)[0].rx)]
      ensures r.Ok? ==> r.value == old(spi.script)[0].rx[1]
      ensures r.Err? ==> r.error == TransportFault && spi.trace == old(spi.trace)
      ensures txBuffer[..2] == [ReadAddress(reg), 0x00] && txBuffer[2..] == old(txBuffer[2..])
      ensures r.Ok? ==> rxBuffer[..2] == old(spi.script)[0].rx && rxBuffer[2..] == old(rxBuffer[2..])
      ensures r.Err? ==> rxBuffer[..] == old(rxBuffer[..])
      ensures r == RegisterReadRun(old(spi.State()), reg).AsResult()
      ensures spi.State() == RegisterReadRun(old(spi.State()), reg).bus
    {
      txBuffer[0] := ReadAddress(reg);
      txBuffer[1] := 0x00;
      assert txBuffer[..2] == [ReadAddress(reg), 0x00];
      var _ :- spi.Transfer(txBuffer, rxBuffer, 2);
      return Ok(rxBuffer[1]);
    }

    /** Writes `data` to register `reg` in one transfer behind a single write
        address; refuses, before touching the bus, a payload that does not
        leave room for the address byte. */
    method WriteData(reg: Byte, data: seq<Byte>) returns (r: Result<()>)
      requires Valid()
      modifies spi, txBuffer
      ensures |data| >= BufferSize ==> r == Err(IllegalArgument)
      ensures |data| >= BufferSize ==>
        spi.trace == old(spi.trace) && spi.script == old(spi.script) && txBuffer[..] == old(txBuffer[..])
      ensures |data| < BufferSize ==> spi.script == Rest(old(spi.script))
      ensures |data| < BufferSize ==> (r.Ok? <==> WriteAccepted(old(spi.script)))
      ensures |data| < BufferSize && r.Ok? ==> spi.trace == old(spi.trace) + [DataWrite(reg, data)]
      ensures |data| < BufferSize && r.Err? ==> r.error == TransportFault && spi.trace == old(spi.trace)
      ensures |data| < BufferSize ==>
        txBuffer[..|data| + 1] == [WriteAddress(reg)] + data &&
        txBuffer[|data| + 1..] == old(txBuffer[|data| + 1..])
      ensures r == DataWriteRun(old(spi.State()), reg, data).AsResult()
      ensures spi.State() == DataWriteRun(old(spi.State()), reg, data).bus
    {
      if |data| >= txBuffer.Length {
        return Err(IllegalArgument);
      }
      txBuffer[0] := WriteAddress(reg);
      forall i | 0 <= i < |data| {
        txBuffer[i + 1] := data[i];
      }
      assert txBuffer[..|data| + 1] == [WriteAddress(reg)] + data;
      r := spi.Write(txBuffer, |data| + 1);
    }

    /** Reads `length` bytes from register `reg`: clocks out the read address
        `length` times and then a dummy 0x00, and returns a fresh array of
        every byte clocked in but the first. The caller keeps
        `length + 1` within the buffer: the driver does not check it. */
    method ReadData(reg: Byte, length: nat) returns (r: Result<array<Byte>>)
      requires Valid() && length + 1 <= BufferSize
      modifies spi, txBuffer, rxBuffer
      ensures spi.script == Rest(old(spi.script))
      ensures r.Ok? <==> TransferAccepted(old(spi.script), length + 1)
      ensures r.Ok? ==> fresh(r.value) && r.value.Length == length
      ensures r.Ok? ==> spi.trace == old(spi.trace) + [Transfer(ReadDataFrame(reg, length), old(spi.script)[0].rx)]
      ensures r.Ok? ==> r.value[..] == old(spi.script)[0].rx[1..]
      ensures r.Err? ==> r.error == TransportFault && spi.trace == old(spi.trace)
      ensures txBuffer[..length + 1] == ReadDataFrame(reg, length)
      ensures txBuffer[length + 1..] == old(txBuffer[length + 1..])
      ensures r.Ok? ==> rxBuffer[..length + 1] == old(spi.script)[0].rx
      ensures r.Ok? ==> rxBuffer[length + 1..] == old(rxBuffer[length + 1..])
      ensures r.Err? ==> rxBuffer[..] == old(rxBuffer[..])
      ensures r.Ok? <==> DataReadRun(old(spi.State()), reg, length).Done?
      ensures r.Ok? ==> r.value[..] == DataReadRun(old(spi.State()), reg, length).value
      ensures r.Err? ==> r.error == DataReadRun(old(spi.State()), reg, length).error
      ensures spi.State() == DataReadRun(old(spi.State()), reg, length).bus
    {
      FillReadFrame(reg, length);
      var _ :- spi.Transfer(txBuffer, rxBuffer, length + 1);
      var result := CopyReceived(length);
      return Ok(result);
    }

    /** Fills the transmit buffer with the frame of a `length`-byte read: the
        read address `length` times, then 0x00. */
    method FillReadFrame(reg: Byte, length: nat)
      requires Valid() && length + 1 <= BufferSize
      modifies txBuffer
      ensures txBuffer[..length + 1] == ReadDataFrame(reg, length)
      ensures txBuffer[length + 1..] == old(txBuffer[length + 1..])
    {
      var address := ReadAddress(reg);
      forall i | 0 <= i < length {
        txBuffer[i] := address;
      }
      txBuffer[length] := 0x00;
      assert txBuffer[..length + 1] == ReadDataFrame(reg, length);
    }

    /** A fresh array with the `length` bytes received after the first one. */
    method CopyReceived(length: nat) returns (result: array<Byte>)
      requires Valid() && length + 1 <= BufferSize
      ensures fresh(result) && result[..] == rxBuffer[1..length + 1]
    {
      result := new Byte[length];
      forall i | 0 <= i < length {
        result[i] := rxBuffer[i + 1];
      }
    }

    method WriteFifo(data: seq<Byte>) returns (r: Result<()>)
      requires Valid()
      modifies spi, txBuffer
      ensures |data| >= BufferSize ==> r == Err(IllegalArgument) && spi.trace == old(spi.trace)
      ensures |data| < BufferSize ==> spi.script == Rest(old(spi.script))
      ensures |data| < BufferSize ==> (r.Ok? <==> WriteAccepted(old(spi.script)))
      ensures |data| < BufferSize && r.Ok? ==> spi.trace == old(spi.trace) + [DataWrite(FifoDataReg, data)]
      ensures |data| < BufferSize && r.Err? ==> r.error == TransportFault && spi.trace == old(spi.trace)
      ensures r == DataWriteRun(old(spi.State()), FifoDataReg, data).AsResult()
      ensures spi.State() == DataWriteRun(old(spi.State()), FifoDataReg, data).bus
    {
      r := WriteData(FifoDataReg, data);
    }

    method ReadFifo(length: nat) returns (r: Result<array<Byte>>)
      requires Valid() && length + 1 <= BufferSize
      modifies spi, txBuffer, rxBuffer
      ensures spi.script == Rest(old(spi.script))
      ensures r.Ok? <==> TransferAccepted(old(spi.script), length + 1)
      ensures r.Ok? ==> fresh(r.value) && r.value.Length == length
      ensures r.Ok? ==> spi.trace == old(spi.trace) + [Transfer(ReadDataFrame(FifoDataReg, length), old(spi.script)[0].rx)]
      ensures r.Ok? ==> r.value[..] == old(spi.script)[0].rx[1..]
      ensures r.Err? ==> r.error == TransportFault && spi.trace == old(spi.trace)
      ensures r.Ok? <==> DataReadRun(old(spi.State()), FifoDataReg, length).Done?
      ensures r.Ok? ==> r.value[..] == DataReadRun(old(spi.State()), FifoDataReg, length).value
      ensures r.Err? ==> r.error == DataReadRun(old(spi.State()), FifoDataReg, length).error
      ensures spi.State() == DataReadRun(old(spi.State()), FifoDataReg, length).bus
    {
      r := ReadData(FifoDataReg, length);
    }

    // -------------------------------------------------------------------
    // Commands
    // -------------------------------------------------------------------

    /** Writes a command code to the command register. */
    method WriteCommand(command: Byte) returns (r: Result<()>)
      requires Valid()
      modifies spi, txBuffer
      ensures spi.script == Rest(old(spi.script))
      ensures r.Ok? <==> WriteAccepted(old(spi.script))
      ensures r.Ok? ==> spi.trace == old(spi.trace) + [RegisterWrite(CommandReg, command)]
      ensures r.Err? ==> r.error == TransportFault && spi.trace == old(spi.trace)
      ensures r == RegisterWriteRun(old(spi.State()), CommandReg, command).AsResult()
      ensures spi.State() == RegisterWriteRun(old(spi.State()), CommandReg, command).bus
    {
      r := WriteRegister(CommandReg, command);
    }

    method SoftReset() returns (r: Result<()>)
      requires Valid()
      modifies spi, txBuffer
      ensures spi.script == Rest(old(spi.script))
      ensures r.Ok? <==> WriteAccepted(old(spi.script))
      ensures r.Ok? ==> spi.trace == old(spi.trace) + [RegisterWrite(CommandReg, CmdSoftReset)]
      ensures r.Err? ==> r.error == TransportFault && spi.trace == old(spi.trace)
      ensures r == RegisterWriteRun(old(spi.State()), CommandReg, CmdSoftReset).AsResult()
      ensures spi.State() == RegisterWriteRun(old(spi.State()), CommandReg, CmdSoftReset).bus
    {
      r := WriteCommand(CmdSoftReset);
    }

    method SendIdleCommand() returns (r: Result<()>)
      requires Valid()
      modifies spi, txBuffer
      ensures spi.script == Rest(old(spi.script))
      ensures r.Ok? <==> WriteAccepted(old(spi.script))
      ensures r.Ok? ==> spi.trace == old(spi.trace) + [RegisterWrite(CommandReg, CmdIdle)]
      ensures r.Err? ==> r.error == TransportFault && spi.trace == old(spi.trace)
      ensures r == RegisterWriteRun(old(spi.State()), CommandReg, CmdIdle).AsResult()
      ensures spi.State() == RegisterWriteRun(old(spi.State()), CommandReg, CmdIdle).bus
    {
      r := WriteCommand(CmdIdle);
    }

    /** Empties the chip's FIFO by setting the flush bit of the FIFO-level register. */
    method FlushFifo() returns (r: Result<()>)
      requires Valid()
      modifies spi, txBuffer
      ensures spi.script == Rest(old(spi.script))
      ensures r.Ok? <==> WriteAccepted(old(spi.script))
      ensures r.Ok? ==> spi.trace == old(spi.trace) + [RegisterWrite(FifoLevelReg, FlushBufferBit)]
      ensures r.Err? ==> r.error == TransportFault && spi.trace == old(spi.trace)
      ensures r == RegisterWriteRun(old(spi.State()), FifoLevelReg, FlushBufferBit).AsResult()
      ensures spi.State() == RegisterWriteRun(old(spi.State()), FifoLevelReg, FlushBufferBit).bus
    {
      r := WriteRegister(FifoLevelReg, FlushBufferBit);
    }

    /** Clears the seven interrupt flags of the comm-IRQ register. */
    method ClearAllInterruptFlags() returns (r: Result<()>)
      requires Valid()
      modifies spi, txBuffer
      ensures spi.script == Rest(old(spi.script))
      ensures r.Ok? <==> WriteAccepted(old(spi.script))
      ensures r.Ok? ==> spi.trace == old(spi.trace) + [RegisterWrite(CommIrqReg, ClearAllIrqs)]
      ensures r.Err? ==> r.error == TransportFault && spi.trace == old(spi.trace)
      ensures r == RegisterWriteRun(old(spi.State()), CommIrqReg, ClearAllIrqs).AsResult()
      ensures spi.State() == RegisterWriteRun(old(spi.State()), CommIrqReg, ClearAllIrqs).bus
    {
      r := WriteRegister(CommIrqReg, ClearAllIrqs);
    }

    // -------------------------------------------------------------------
    // Polling
    // -------------------------------------------------------------------

    /** Reads the command register until its low nibble is Idle. Every
        iteration reads the register exactly once. */
    method WaitForIdle() returns (r: Result<()>)
      requires Valid()
      modifies spi, txBuffer, rxBuffer
      ensures r == PollRun(old(spi.State()), CommandReg, CommandMask, CmdIdle).AsResult()
      ensures spi.State() == PollRun(old(spi.State()), CommandReg, CommandMask, CmdIdle).bus
      ensures old(spi.trace) <= spi.trace
      ensures r.Ok? ==> IsIdlePoll(spi.trace[|old(spi.trace)|..])
      ensures r.Err? ==> r.error == TransportFault
      ensures r.Err? ==> IsBusyPoll(spi.trace[|old(spi.trace)|..], CommandReg, CommandMask, CmdIdle)
    {
      ghost var start := spi.State();
      PollRunIsPoll(start, CommandReg, CommandMask, CmdIdle);
      while true
        invariant PollRun(spi.State(), CommandReg, CommandMask, CmdIdle) == PollRun(start, CommandReg, CommandMask, CmdIdle)
        decreases |spi.script|
      {
        var commandRegValue :- ReadRegister(CommandReg);
        var command := commandRegValue & CommandMask;
        if command == CmdIdle {
          return Ok(());
        }
      }
    }

    /** Reads status register 2 until its modem-state bits are zero. */
    method WaitForModemIdle() returns (r: Result<()>)
      requires Valid()
      modifies spi, txBuffer, rxBuffer
      ensures r == PollRun(old(spi.State()), Status2Reg, ModemStateMask, 0).AsResult()
      ensures spi.State() == PollRun(old(spi.State()), Status2Reg, ModemStateMask, 0).bus
      ensures old(spi.trace) <= spi.trace
      ensures r.Ok? ==> IsModemIdlePoll(spi.trace[|old(spi.trace)|..])
      ensures r.Err? ==> r.error == TransportFault
      ensures r.Err? ==> IsBusyPoll(spi.trace[|old(spi.trace)|..], Status2Reg, ModemStateMask, 0)
    {
      ghost var start := spi.State();
      PollRunIsPoll(start, Status2Reg, ModemStateMask, 0);
      while true
        invariant PollRun(spi.State(), Status2Reg, ModemStateMask, 0) == PollRun(start, Status2Reg, ModemStateMask, 0)
        decreases |spi.script|
      {
        var status2RegValue :- ReadRegister(Status2Reg);
        var modemState := status2RegValue & ModemStateMask;
        if modemState == 0 {
          return Ok(());
        }
      }
    }

    /** The polling loop of the wake-up probe: reads the comm-IRQ register until
        both completion flags are set. Every iteration reads the register
        exactly once. */
    method WaitForIrqFlags() returns (r: Result<()>)
      requires Valid()
      modifies spi, txBuffer, rxBuffer
      ensures r == PollRun(old(spi.State()), CommIrqReg, RxTxIrqBits, RxTxIrqBits).AsResult()
      ensures spi.State() == PollRun(old(spi.State()), CommIrqReg, RxTxIrqBits, RxTxIrqBits).bus
      ensures old(spi.trace) <= spi.trace
      ensures r.Ok? ==> IsIrqPoll(spi.trace[|old(spi.trace)|..])
      ensures r.Err? ==> r.error == TransportFault
      ensures r.Err? ==> IsBusyPoll(spi.trace[|old(spi.trace)|..], CommIrqReg, RxTxIrqBits, RxTxIrqBits)
    {
      ghost var start := spi.State();
      PollRunIsPoll(start, CommIrqReg, RxTxIrqBits, RxTxIrqBits);
      while true
        invariant PollRun(spi.State(), CommIrqReg, RxTxIrqBits, RxTxIrqBits) == PollRun(start, CommIrqReg, RxTxIrqBits, RxTxIrqBits)
        decreases |spi.script|
      {
        var irqRegValue :- ReadRegister(CommIrqReg);
        if irqRegValue & RxTxIrqBits == RxTxIrqBits {
          return Ok(());
        }
      }
    }

    // -------------------------------------------------------------------
    // Procedures
    // -------------------------------------------------------------------

    /** Compares a FIFO read-back with the self-test signature, stopping at
        the first mismatch. */
    static method MatchesSelfTestSignature(result: array<Byte>) returns (valid: bool)
      requires result.Length == SelfTestResultLength
      ensures valid <==> result[..] == SelfTestExpectedResult
    {
      valid := true;
      for i := 0 to SelfTestResultLength
        invariant valid
        invariant result[..i] == SelfTestExpectedResult[..i]
      {
        if result[i] != SelfTestExpectedResult[i] {
          valid := false;
          break;
        }
      }
    }

    /** The chip's self test: configure, enable the self test, run CalcCRC and
        compare the 64 bytes left in the FIFO with the signature. */
    method SelfTest() returns (r: Result<bool>)
      requires Valid()
      modifies spi, txBuffer, rxBuffer
      ensures r == SelfTestRun(old(spi.State())).AsResult()
      ensures spi.State() == SelfTestRun(old(spi.State())).bus
      ensures old(spi.trace) <= spi.trace
      ensures r.Ok? ==> SelfTestTrace(spi.trace[|old(spi.trace)|..], r.value)
      ensures r.Err? ==> r.error == TransportFault
    {
      ghost var start := spi.State();
      // the first refused bus operation ends the test with its error
      label steps: {
        var reset := SoftReset();
        if reset.Err? { r := Err(reset.error); break steps; }
        var clear := WriteFifo(NewData(SelfTestClearLength, 0x00));
        if clear.Err? { r := Err(clear.error); break steps; }
        var configure := WriteCommand(CmdConfigure);
        if configure.Err? { r := Err(configure.error); break steps; }
        var idle1 := WaitForIdle();
        if idle1.Err? { r := Err(idle1.error); break steps; }
        var enable := WriteRegister(AutoTestReg, AutoTestEnableSelfTest);
        if enable.Err? { r := Err(enable.error); break steps; }
        var zero := WriteFifo([0x00]);
        if zero.Err? { r := Err(zero.error); break steps; }
        var calcCrc := WriteCommand(CmdCalcCrc);
        if calcCrc.Err? { r := Err(calcCrc.error); break steps; }
        var idle2 := WaitForIdle();
        if idle2.Err? { r := Err(idle2.error); break steps; }
        var result := ReadFifo(SelfTestResultLength);
        if result.Err? { r := Err(result.error); break steps; }
        var valid := MatchesSelfTestSignature(result.value);
        r := Ok(valid);
      }
      SelfTestRunIsSelfTestTrace(start);
    }

    /** Clears the CRC preset bits of the mode register and starts CalcCRC. */
    method ClearAndStartCrc() returns (r: Result<()>)
      requires Valid()
      modifies spi, txBuffer, rxBuffer
      ensures r == ClearAndStartCrcRun(old(spi.State())).AsResult()
      ensures spi.State() == ClearAndStartCrcRun(old(spi.State())).bus
      ensures old(spi.trace) <= spi.trace
      ensures r.Ok? ==> IsCrcStart(spi.trace[|old(spi.trace)|..])
      ensures r.Err? ==> r.error == TransportFault
    {
      var modeValue :- ReadRegister(ModeReg);
      modeValue := ClearBits(modeValue, CrcPresetBits);
      var _ :- WriteRegister(ModeReg, modeValue);
      r := WriteCommand(CmdCalcCrc);
    }

    /** Reads the CRC result, MSB register first, into a fresh two-byte array. */
    method ReadCrcReg() returns (r: Result<array<Byte>>)
      requires Valid()
      modifies spi, txBuffer, rxBuffer
      ensures r.Ok? <==> CrcReadRun(old(spi.State())).Done?
      ensures r.Ok? ==> fresh(r.value) && r.value[..] == CrcReadRun(old(spi.State())).value
      ensures r.Err? ==> r.error == CrcReadRun(old(spi.State())).error
      ensures spi.State() == CrcReadRun(old(spi.State())).bus
      ensures old(spi.trace) <= spi.trace
      ensures r.Ok? ==> var es := spi.trace[|old(spi.trace)|..];
        IsCrcResultRead(es) && r.value[..] == CrcRead(es)
      ensures r.Err? ==> r.error == TransportFault
    {
      ghost var start := spi.State();
      var result := new Byte[2];
      result[0] :- ReadRegister(CrcResultMsbReg);
      result[1] :- ReadRegister(CrcResultLsbReg);
      assert result[..] == [result[0], result[1]];
      assert CrcReadRun(start) == Done(result[..], spi.State());
      return Ok(result);
    }

    /** The CRC coprocessor test over "Hello, world!" with preset 0x0000. */
    method TestCrc() returns (r: Result<bool>)
      requires Valid()
      modifies spi, txBuffer, rxBuffer
      ensures r == CrcTestRun(old(spi.State())).AsResult()
      ensures spi.State() == CrcTestRun(old(spi.State())).bus
      ensures old(spi.trace) <= spi.trace
      ensures r.Ok? ==> CrcTestTrace(spi.trace[|old(spi.trace)|..], r.value)
      ensures r.Err? ==> r.error == TransportFault
    {
      ghost var start := spi.State();
      // the first refused bus operation ends the test with its error
      label steps: {
        var reset := SoftReset();
        if reset.Err? { r := Err(reset.error); break steps; }
        var started := ClearAndStartCrc();
        if started.Err? { r := Err(started.error); break steps; }
        var loaded := WriteFifo(CrcTestPayload);
        if loaded.Err? { r := Err(loaded.error); break steps; }
        ghost var beforeRead := spi.State();
        var crcResult := ReadCrcReg();
        if crcResult.Err? { r := Err(crcResult.error); break steps; }
        ghost var crc := CrcReadRun(beforeRead).value;
        var idle := SendIdleCommand();
        if idle.Err? { r := Err(idle.error); break steps; }
        assert crcResult.value[..] == crc;
        r := Ok(crcResult.value[..] == ExpectedCrcResult);
      }
      CrcTestRunIsCrcTestTrace(start);
    }

    /** Read-modify-write of register `reg` that sets the bits of `mask`. */
    method SetRegisterBits(reg: Byte, mask: Byte) returns (r: Result<()>)
      requires Valid()
      modifies spi, txBuffer, rxBuffer
      ensures r == SetBitsRun(old(spi.State()), reg, mask).AsResult()
      ensures spi.State() == SetBitsRun(old(spi.State()), reg, mask).bus
      ensures old(spi.trace) <= spi.trace
      ensures r.Ok? ==> IsSetBitsUpdate(spi.trace[|old(spi.trace)|..], reg, mask)
      ensures r.Err? ==> r.error == TransportFault
    {
      SetBitsRunIsSetBitsUpdate(spi.State(), reg, mask);
      var regValue :- ReadRegister(reg);
      regValue := SetBits(regValue, mask);
      r := WriteRegister(reg, regValue);
    }

    /** The transmit half of the wake-up probe: switch the receiver and the
        RF field on in initiator mode, load WUPA as a 7-bit frame, start
        Transceive and set StartSend. */
    method SendWupa() returns (r: Result<()>)
      requires Valid()
      modifies spi, txBuffer, rxBuffer
      ensures r == WupaSendRun(old(spi.State())).AsResult()
      ensures spi.State() == WupaSendRun(old(spi.State())).bus
      ensures old(spi.trace) <= spi.trace
      ensures r.Ok? ==> WupaSendTrace(spi.trace[|old(spi.trace)|..])
      ensures r.Err? ==> r.error == TransportFault
    {
      ghost var start := spi.State();
      // the first refused bus operation ends the probe with its error
      label steps: {
        // re-enable the receiver
        var receive := WriteRegister(CommandReg, CmdNoCmdChange);
        if receive.Err? { r := Err(receive.error); break steps; }
        // initiator mode
        var initiator := SetRegisterBits(ControlReg, InitiatorBit);
        if initiator.Err? { r := Err(initiator.error); break steps; }
        // RF on
        var rfOn := WriteRegister(TxControlReg, RfOnValue);
        if rfOn.Err? { r := Err(rfOn.error); break steps; }
        var flush := FlushFifo();
        if flush.Err? { r := Err(flush.error); break steps; }
        // WUPA is a 7-bit frame
        var framing := SetRegisterBits(BitFramingReg, TxLastBitsSeven);
        if framing.Err? { r := Err(framing.error); break steps; }
        var wupa := WriteFifo([Wupa]);
        if wupa.Err? { r := Err(wupa.error); break steps; }
        var clearIrqs := ClearAllInterruptFlags();
        if clearIrqs.Err? { r := Err(clearIrqs.error); break steps; }
        var transceive := WriteCommand(CmdTransceive);
        if transceive.Err? { r := Err(transceive.error); break steps; }
        // StartSend only takes effect once Transceive is active
        r := SetRegisterBits(BitFramingReg, StartSendBit);
      }
      WupaSendRunIsWupaSendTrace(start);
    }

    /** The card wake-up probe: send WUPA as a 7-bit frame with Transceive,
        wait for both completion flags, and compare the answer with the ATQA. */
    method TryActivateMiFare() returns (r: Result<bool>)
      requires Valid()
      modifies spi, txBuffer, rxBuffer
      ensures r == MiFareRun(old(spi.State())).AsResult()
      ensures spi.State() == MiFareRun(old(spi.State())).bus
      ensures old(spi.trace) <= spi.trace
      ensures r.Ok? ==> MiFareTrace(spi.trace[|old(spi.trace)|..], r.value)
      ensures r.Err? ==> r.error == TransportFault
    {
      ghost var start := spi.State();
      // the first refused bus operation ends the probe with its error
      label steps: {
        var send := SendWupa();
        if send.Err? { r := Err(send.error); break steps; }
        // wait for both completion flags
        var irqs := WaitForIrqFlags();
        if irqs.Err? { r := Err(irqs.error); break steps; }
        // cancel the Transceive command
        var idle := WriteCommand(CmdIdle);
        if idle.Err? { r := Err(idle.error); break steps; }
        var result := ReadFifo(2);
        if result.Err? { r := Err(result.error); break steps; }
        r := Ok(ExpectedAtqa == result.value[..]);
      }
      MiFareRunIsMiFareTrace(start);
    }
  }
}

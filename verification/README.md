# PN512 NFC driver: a Dafny model

This project models the register/FIFO driver of an NXP PN512 NFC front-end,
`Pn512NfcDevice`, together with its two byte-mask helpers in `BitUtils`.
The driver talks to the chip over SPI through two 256-byte scratch buffers,
which it overwrites in place on every bus operation. It offers:

- single-register read and write;
- multi-byte data and FIFO read and write;
- command issue and two polling loops;
- three fixed procedures: the chip self test, a CRC coprocessor test, and a
  MIFARE wake-up (WUPA) probe.

Files:

- `bit_utils.dfy` (module `BitUtils`): `ClearBits` and `SetBits` on 8-bit
  values (`bv8`).
- `spi_transport.dfy` (module `SpiTransport`): the SPI device as a class
  `SpiBus`. It has a ghost `trace` of completed bus events (`Write(bytes)`
  or `Transfer(tx, rx)`) and a script of the device's replies, which each
  bus operation consumes one at a time. A bus fault, the wrong kind of
  reply, a reply of the wrong length or an exhausted script makes the
  operation fail with `TransportFault` (the driver's `IOException`), and
  nothing is recorded. The same module gives the bus as a value, `Bus`
  (events so far and replies to come), and the two bus operations as
  functions on it, `WriteRun` and `TransferRun`, whose result is an
  `Outcome`: a value and the bus left behind, or an error and the bus at
  the point of failure.
- `pn512_constants.dfy` (module `Pn512Constants`): the register map, the
  command codes, the self-test signature and the constants the procedures
  write and compare.
- `pn512_frames.dfy` (module `Pn512Frames`):
  - the SPI address encoding;
  - the byte frames each access clocks out;
  - predicates describing, event by event, the bus trace that a successful
    poll and each procedure leave behind;
  - lemmas about those traces.
- `pn512_runs.dfy` (module `Pn512Runs`): every driver operation as a
  function from a `Bus` to an `Outcome`, composed from `WriteRun` and
  `TransferRun` in the driver's order with `:-`, so that the first refused
  reply aborts the rest. Lemmas connect these functions to the trace
  predicates and work out the outcome of the self test, the CRC test and
  the wake-up probe against a device that answers every step.
- `pn512_device.dfy` (module `Pn512`): the driver as a class
  `Pn512NfcDevice`. Its fields are the transport and the two scratch arrays.
  Its methods update the arrays and the transport in place.

The chip pipelines its answers, so every read clocks out one byte more than
it wants and drops the first byte it receives. `ReadRegister` returns
`rx[1]`, and `ReadData` returns `rx[1..]` of a transfer of `length + 1`
bytes. Their contracts state this against the scripted reply.

Every method's contract states that its result and the bus it leaves are
exactly those of its run function in `Pn512Runs` applied to the bus it
started from. So it fails exactly when one of its bus operations meets a
refused reply, it then stops with that error, and it succeeds on every
other script. Each procedure's contract also does two things:

- It ties the bus events the call appended to a trace predicate, such as
  `SelfTestTrace`, `CrcTestTrace` or `MiFareTrace`.
- It ties the returned verdict to the bytes read back from the chip.

Other places where the model's structure differs from the source:

- The source inlines four pieces of code that the model gives their own
  methods:
  - the signature comparison of `selfTest`;
  - the transmit half of `tryActivateMiFare`;
  - its three read-modify-write steps;
  - its interrupt poll;
  - the `Arrays.fill` and `System.arraycopy` steps of `readData`.
- The SPI device is a constructor parameter. The driver's constructor also
  configures it; that step is left out.
- Arrays the driver only reads (`data` of `writeData`) are sequences.

## Model

| member | source | states |
|---|---|---|
| BitUtils.ClearBits | app/src/main/java/com/schoovello/pichef/nfc/testing/BitUtils.java:5-7 | no bit of the mask survives, every bit outside the mask is kept, and clearing an empty mask changes nothing; the result is one byte |
| BitUtils.SetBits | app/src/main/java/com/schoovello/pichef/nfc/testing/BitUtils.java:9-11 | every bit of the mask is set, every bit outside it is kept, and a value that already holds the mask is returned unchanged (idempotence); the result is one byte |
| BitUtils.ClearBitsAt | app/src/main/java/com/schoovello/pichef/nfc/testing/BitUtils.java:5-7 | bit by bit: bit i of the result is set iff it is set in the value and clear in the mask |
| BitUtils.SetBitsAt | app/src/main/java/com/schoovello/pichef/nfc/testing/BitUtils.java:9-11 | bit by bit: bit i of the result is set iff it is set in the value or in the mask |
| SpiTransport.SpiBus.Write | app/src/main/java/com/schoovello/pichef/nfc/testing/Pn512NfcDevice.java:164 | a write of the first n buffer bytes completes iff the device acknowledges it, and then exactly that byte string is appended to the trace; a fault records nothing |
| SpiTransport.SpiBus.Transfer | app/src/main/java/com/schoovello/pichef/nfc/testing/Pn512NfcDevice.java:171 | a full-duplex transfer of n bytes completes iff the device supplies n bytes; those bytes land in the first n cells of the receive buffer, the rest of it is untouched, and the transfer is appended to the trace |
| SpiTransport.WriteRun | app/src/main/java/com/schoovello/pichef/nfc/testing/Pn512NfcDevice.java:164 | a write consumes exactly one reply; it completes iff that reply is an acknowledgement, and then exactly that byte string is appended; a refused write records nothing and fails with TransportFault |
| SpiTransport.TransferRun | app/src/main/java/com/schoovello/pichef/nfc/testing/Pn512NfcDevice.java:171 | a transfer consumes exactly one reply; it completes iff that reply supplies exactly as many bytes as are clocked out, and then those bytes are what is received and what is recorded; a refused transfer records nothing and fails with TransportFault |
| Pn512Frames.RegisterOf | app/src/main/java/com/schoovello/pichef/nfc/testing/Pn512NfcDevice.java:283-290 | the register number an address byte carries is below 64; it is the inverse of both address encoders |
| Pn512Frames.ReadAddress | app/src/main/java/com/schoovello/pichef/nfc/testing/Pn512NfcDevice.java:283-285 | the read address has bit 0 clear and bit 7 set, and decodes back to the register's six low bits (to the register itself when it is below 64) |
| Pn512Frames.WriteAddress | app/src/main/java/com/schoovello/pichef/nfc/testing/Pn512NfcDevice.java:287-290 | the write address has bits 0 and 7 clear, and decodes back to the register's six low bits (to the register itself when it is below 64) |
| Pn512Frames.AddressesDistinct | app/src/main/java/com/schoovello/pichef/nfc/testing/Pn512NfcDevice.java:283-290 | a read address is never a write address, and registers with different six low bits never share an address |
| Pn512Frames.NewData | app/src/main/java/com/schoovello/pichef/nfc/testing/Pn512NfcDevice.java:269-273 | a block of exactly `length` bytes, each equal to the fill value |
| Pn512Frames.ReadDataFrame | app/src/main/java/com/schoovello/pichef/nfc/testing/Pn512NfcDevice.java:190-191 | a multi-byte read clocks out `length + 1` bytes: `length` copies of the read address, then 0x00 |
| Pn512Frames.DriverEventsWellFramed | app/src/main/java/com/schoovello/pichef/nfc/testing/Pn512NfcDevice.java:160-199 | register writes, data writes and multi-byte reads are all well framed: a write starts with a write address; a read clocks in as many bytes as it clocks out, every byte but the last is a read address, and the last is the dummy 0x00 |
| Pn512Frames.PollWellFramed | app/src/main/java/com/schoovello/pichef/nfc/testing/Pn512NfcDevice.java:251-267 | every read of a completed poll is well framed |
| Pn512Frames.SelfTestEventsAreSelfTestTrace | app/src/main/java/com/schoovello/pichef/nfc/testing/Pn512NfcDevice.java:60-92 | any two Idle polls and a 64-byte FIFO read, placed between the fixed writes, form a self-test trace whose verdict is "the bytes read equal the signature" |
| Pn512Frames.SelfTestSteps | app/src/main/java/com/schoovello/pichef/nfc/testing/Pn512NfcDevice.java:60-92 | a trace that grows by the self test's steps, in the source's order, only grows, and its new part is a self-test trace with that verdict |
| Pn512Frames.WupaSendSteps | app/src/main/java/com/schoovello/pichef/nfc/testing/Pn512NfcDevice.java:95-127 | a trace that grows by the wake-up probe's transmit steps, in order, ends in a transmit-half trace |
| Pn512Frames.CrcTestSteps | app/src/main/java/com/schoovello/pichef/nfc/testing/Pn512NfcDevice.java:201-217 | a trace that grows by the CRC test's steps, in order, ends in a CRC-test trace whose verdict is the CRC read compared with 0xD1 0x5E |
| Pn512Frames.MiFareSteps | app/src/main/java/com/schoovello/pichef/nfc/testing/Pn512NfcDevice.java:94-146 | a transmit half, an interrupt poll, Idle and a two-byte FIFO read make a wake-up trace that succeeds iff the bytes read are [0x44, 0x00] |
| Pn512Frames.TransceiveBeforeStartSend | app/src/main/java/com/schoovello/pichef/nfc/testing/Pn512NfcDevice.java:121-127 | in every wake-up trace, the Transceive command is written before a bit-framing write that has the StartSend bit set |
| Pn512Frames.FramingUpdateKeepsOtherBits | app/src/main/java/com/schoovello/pichef/nfc/testing/Pn512NfcDevice.java:110-113 | the 7-bit framing step ORs 0b111 into the value it read: the tx-last-bits field becomes 7 and the five other bits are written back unchanged |
| Pn512Frames.SelfTestTraceWellFramed | app/src/main/java/com/schoovello/pichef/nfc/testing/Pn512NfcDevice.java:60-92 | every event of a self-test trace is well framed |
| Pn512Frames.CrcTestTraceWellFramed | app/src/main/java/com/schoovello/pichef/nfc/testing/Pn512NfcDevice.java:201-237 | every event of a CRC-test trace is well framed |
| Pn512Frames.WupaSendTraceWellFramed | app/src/main/java/com/schoovello/pichef/nfc/testing/Pn512NfcDevice.java:95-127 | every event of a transmit-half trace is well framed |
| Pn512Frames.MiFareTraceWellFramed | app/src/main/java/com/schoovello/pichef/nfc/testing/Pn512NfcDevice.java:94-146 | every event of a wake-up trace is well framed |
| Pn512Runs.RegisterWriteRun | app/src/main/java/com/schoovello/pichef/nfc/testing/Pn512NfcDevice.java:160-165 | a completed register write appends exactly [write address, value] |
| Pn512Runs.RegisterReadRun | app/src/main/java/com/schoovello/pichef/nfc/testing/Pn512NfcDevice.java:167-174 | a register read consumes one reply; if it completes it appends one register-read event and returns the value that event carries (the second byte received); otherwise it records nothing and fails with TransportFault |
| Pn512Runs.DataWriteRun | app/src/main/java/com/schoovello/pichef/nfc/testing/Pn512NfcDevice.java:176-185 | a payload of 256 bytes or more fails with an argument error and leaves the bus untouched; otherwise a completed write appends the write address followed by the payload, and a refused one records nothing |
| Pn512Runs.DataReadRun | app/src/main/java/com/schoovello/pichef/nfc/testing/Pn512NfcDevice.java:187-199 | a data read consumes one reply; if it completes it appends one read of `length` bytes and returns exactly `length` bytes, those that read yields; otherwise it records nothing |
| Pn512Runs.PollRun | app/src/main/java/com/schoovello/pichef/nfc/testing/Pn512NfcDevice.java:251-267 | a poll only appends to the trace and fails only with TransportFault |
| Pn512Runs.PollRunIsPoll | app/src/main/java/com/schoovello/pichef/nfc/testing/Pn512NfcDevice.java:251-267 | the events a completed poll appends are busy reads of the register followed by one read showing the awaited value; the events of a failed poll are busy reads only |
| Pn512Runs.PollRunCompletes | app/src/main/java/com/schoovello/pichef/nfc/testing/Pn512NfcDevice.java:251-267 | against replies that answer every read and show the awaited value only in the last one, a poll completes, records one read per reply and leaves exactly the remaining script |
| Pn512Runs.SetBitsRun | app/src/main/java/com/schoovello/pichef/nfc/testing/Pn512NfcDevice.java:99-101 | a read-modify-write only appends to the trace and fails only with TransportFault |
| Pn512Runs.SetBitsRunIsSetBitsUpdate | app/src/main/java/com/schoovello/pichef/nfc/testing/Pn512NfcDevice.java:99-101 | a completed read-modify-write appends the register read and then a write of the value read with the mask OR-ed in |
| Pn512Runs.ClearAndStartCrcRun | app/src/main/java/com/schoovello/pichef/nfc/testing/Pn512NfcDevice.java:219-230 | if it completes it has appended a mode-register read, the value read written back with bits 0-1 cleared, and CalcCRC; it fails only with TransportFault |
| Pn512Runs.CrcReadRun | app/src/main/java/com/schoovello/pichef/nfc/testing/Pn512NfcDevice.java:232-237 | if it completes it has appended a read of the MSB result register, then of the LSB one, and returns [MSB, LSB]; it fails only with TransportFault |
| Pn512Runs.SelfTestRun | app/src/main/java/com/schoovello/pichef/nfc/testing/Pn512NfcDevice.java:60-92 | the self test only appends to the trace and aborts only on a transport fault: no argument error can occur |
| Pn512Runs.CrcTestRun | app/src/main/java/com/schoovello/pichef/nfc/testing/Pn512NfcDevice.java:201-217 | the CRC test only appends to the trace and aborts only on a transport fault |
| Pn512Runs.WupaSendRun | app/src/main/java/com/schoovello/pichef/nfc/testing/Pn512NfcDevice.java:95-127 | the transmit half only appends to the trace and aborts only on a transport fault |
| Pn512Runs.WupaAnswerRun | app/src/main/java/com/schoovello/pichef/nfc/testing/Pn512NfcDevice.java:129-145 | the receive half only appends to the trace and aborts only on a transport fault |
| Pn512Runs.MiFareRun | app/src/main/java/com/schoovello/pichef/nfc/testing/Pn512NfcDevice.java:94-146 | the wake-up probe only appends to the trace and aborts only on a transport fault |
| Pn512Runs.SelfTestRunIsSelfTestTrace | app/src/main/java/com/schoovello/pichef/nfc/testing/Pn512NfcDevice.java:60-92 | a completed self test has appended a self-test trace and returns its verdict |
| Pn512Runs.CrcTestRunIsCrcTestTrace | app/src/main/java/com/schoovello/pichef/nfc/testing/Pn512NfcDevice.java:201-217 | a completed CRC test has appended a CRC-test trace and returns its verdict |
| Pn512Runs.WupaSendRunIsWupaSendTrace | app/src/main/java/com/schoovello/pichef/nfc/testing/Pn512NfcDevice.java:95-127 | a completed transmit half has appended a transmit-half trace |
| Pn512Runs.MiFareRunIsMiFareTrace | app/src/main/java/com/schoovello/pichef/nfc/testing/Pn512NfcDevice.java:94-146 | a completed wake-up probe has appended a wake-up trace and returns its verdict |
| Pn512Runs.SelfTestOnAnsweringDevice | app/src/main/java/com/schoovello/pichef/nfc/testing/Pn512NfcDevice.java:60-92 | against a device that acknowledges every write, ends both Idle polls and answers the FIFO read, the self test completes, consumes exactly those replies and returns true iff the 64 bytes read are the signature (a mismatch is `Ok(false)`, not an error) |
| Pn512Runs.ClearAndStartCrcOnAnswers | app/src/main/java/com/schoovello/pichef/nfc/testing/Pn512NfcDevice.java:219-230 | when the mode read is answered and both writes are acknowledged, starting the CRC coprocessor completes and consumes exactly three replies |
| Pn512Runs.CrcReadOnAnswers | app/src/main/java/com/schoovello/pichef/nfc/testing/Pn512NfcDevice.java:232-237 | when both result reads are answered, reading the CRC completes, consumes two replies and yields the second byte of each answer, MSB first |
| Pn512Runs.CrcTestOnAnsweringDevice | app/src/main/java/com/schoovello/pichef/nfc/testing/Pn512NfcDevice.java:201-217 | against a device that answers all eight steps, the CRC test completes, consumes exactly those replies and returns true iff the CRC bytes read are 0xD1 then 0x5E |
| Pn512Runs.CrcTestAbortsOnFault | app/src/main/java/com/schoovello/pichef/nfc/testing/Pn512NfcDevice.java:201-217 | a refused reply to the payload write aborts the CRC test with TransportFault: the four earlier events stay recorded, nothing later is sent |
| Pn512Runs.WupaSendOnAnsweringDevice | app/src/main/java/com/schoovello/pichef/nfc/testing/Pn512NfcDevice.java:95-127 | against replies that acknowledge every write and answer each of the three register reads, the transmit half completes and consumes exactly its twelve replies |
| Pn512Runs.WupaAnswerOnAnsweringDevice | app/src/main/java/com/schoovello/pichef/nfc/testing/Pn512NfcDevice.java:129-145 | against a device that ends the interrupt poll, acknowledges Idle and answers the FIFO read, the receive half completes, consumes exactly those replies and returns true iff the two bytes read are 0x44, 0x00 |
| Pn512Runs.MiFareOnAnsweringDevice | app/src/main/java/com/schoovello/pichef/nfc/testing/Pn512NfcDevice.java:94-146 | against a device that answers every step and ends the interrupt poll, the probe completes, consumes exactly those replies and returns true iff the two bytes read are 0x44, 0x00 |
| Pn512.Pn512NfcDevice.constructor | app/src/main/java/com/schoovello/pichef/nfc/testing/Pn512NfcDevice.java:31-42 | the driver keeps the given SPI device and owns two fresh, distinct 256-byte buffers |
| Pn512.Pn512NfcDevice.WriteRegister | app/src/main/java/com/schoovello/pichef/nfc/testing/Pn512NfcDevice.java:160-165 | result and new bus equal RegisterWriteRun; so it succeeds iff the device acknowledges, and exactly one 2-byte write [write address, value] is appended and nothing is read; the transmit buffer holds those two bytes, and the rest of it is unchanged |
| Pn512.Pn512NfcDevice.ReadRegister | app/src/main/java/com/schoovello/pichef/nfc/testing/Pn512NfcDevice.java:167-174 | result and new bus equal RegisterReadRun; so exactly one 2-byte transfer with tx [read address, 0x00] is appended iff the device supplies two bytes; the value returned is the second byte received, not the first; the new buffer contents are stated |
| Pn512.Pn512NfcDevice.WriteData | app/src/main/java/com/schoovello/pichef/nfc/testing/Pn512NfcDevice.java:176-185 | result and new bus equal DataWriteRun: a payload of 256 bytes or more fails with an argument error before any bus activity, leaving trace, script and buffer unchanged; otherwise one write of n+1 bytes, the write address followed by the payload, which succeeds iff acknowledged |
| Pn512.Pn512NfcDevice.ReadData | app/src/main/java/com/schoovello/pichef/nfc/testing/Pn512NfcDevice.java:187-199 | result and new bus equal DataReadRun: one transfer of `length` read addresses and a 0x00; the result is a fresh array of `length` bytes, equal to every received byte but the first |
| Pn512.Pn512NfcDevice.FillReadFrame | app/src/main/java/com/schoovello/pichef/nfc/testing/Pn512NfcDevice.java:189-190 | the first `length + 1` transmit-buffer bytes become the read frame (`length` read addresses, then 0x00) and the rest of the buffer is unchanged |
| Pn512.Pn512NfcDevice.CopyReceived | app/src/main/java/com/schoovello/pichef/nfc/testing/Pn512NfcDevice.java:194-196 | a fresh array holding the `length` received bytes after the first one |
| Pn512.Pn512NfcDevice.WriteFifo | app/src/main/java/com/schoovello/pichef/nfc/testing/Pn512NfcDevice.java:243-245 | result and new bus equal DataWriteRun on the FIFO-data register; the payload-size rule and single write of WriteData, aimed at the FIFO-data register |
| Pn512.Pn512NfcDevice.ReadFifo | app/src/main/java/com/schoovello/pichef/nfc/testing/Pn512NfcDevice.java:247-249 | result and new bus equal DataReadRun on the FIFO-data register; the framing and result of ReadData, aimed at the FIFO-data register |
| Pn512.Pn512NfcDevice.WriteCommand | app/src/main/java/com/schoovello/pichef/nfc/testing/Pn512NfcDevice.java:156-158 | result and new bus equal RegisterWriteRun on the command register; one register write of the command code to the command register |
| Pn512.Pn512NfcDevice.SoftReset | app/src/main/java/com/schoovello/pichef/nfc/testing/Pn512NfcDevice.java:52-54 | result and new bus equal RegisterWriteRun of SoftReset (0xF) to the command register; one write of SoftReset (0xF) to the command register |
| Pn512.Pn512NfcDevice.SendIdleCommand | app/src/main/java/com/schoovello/pichef/nfc/testing/Pn512NfcDevice.java:239-241 | result and new bus equal RegisterWriteRun of Idle (0x0) to the command register; one write of Idle (0x0) to the command register |
| Pn512.Pn512NfcDevice.FlushFifo | app/src/main/java/com/schoovello/pichef/nfc/testing/Pn512NfcDevice.java:152-154 | result and new bus equal RegisterWriteRun of the flush bit 0x80 to the FIFO-level register; one write of the flush bit 0x80 to the FIFO-level register |
| Pn512.Pn512NfcDevice.ClearAllInterruptFlags | app/src/main/java/com/schoovello/pichef/nfc/testing/Pn512NfcDevice.java:148-150 | result and new bus equal RegisterWriteRun of 0x7F to the comm-IRQ register; one write of 0x7F to the comm-IRQ register |
| Pn512.Pn512NfcDevice.WaitForIdle | app/src/main/java/com/schoovello/pichef/nfc/testing/Pn512NfcDevice.java:251-258 | result and new bus equal PollRun on the command register; each iteration reads it exactly once; it returns only after a read whose low nibble is Idle, all earlier reads being non-Idle; after a fault, every read so far was non-Idle |
| Pn512.Pn512NfcDevice.WaitForModemIdle | app/src/main/java/com/schoovello/pichef/nfc/testing/Pn512NfcDevice.java:260-267 | result and new bus equal PollRun on status register 2, exiting on the first read whose three modem-state bits are zero; the same polling property as WaitForIdle |
| Pn512.Pn512NfcDevice.WaitForIrqFlags | app/src/main/java/com/schoovello/pichef/nfc/testing/Pn512NfcDevice.java:129-134 | result and new bus equal PollRun on the comm-IRQ register, exiting on the first read with both bits of 0x30 set; the same polling property as WaitForIdle |
| Pn512.Pn512NfcDevice.MatchesSelfTestSignature | app/src/main/java/com/schoovello/pichef/nfc/testing/Pn512NfcDevice.java:82-91 | the early-exit comparison answers true iff all 64 bytes equal the self-test signature |
| Pn512.Pn512NfcDevice.SelfTest | app/src/main/java/com/schoovello/pichef/nfc/testing/Pn512NfcDevice.java:60-92 | result and new bus equal SelfTestRun; on success the new bus events are a self-test trace: reset, 25 zero bytes, Configure, Idle poll, 0x09 to auto-test, one zero byte, CalcCRC, Idle poll, 64-byte FIFO read; it returns true iff those bytes are the signature; any fault aborts with TransportFault |
| Pn512.Pn512NfcDevice.ClearAndStartCrc | app/src/main/java/com/schoovello/pichef/nfc/testing/Pn512NfcDevice.java:219-230 | result and new bus equal ClearAndStartCrcRun: it reads the mode register, writes it back with bits 0-1 cleared, then issues CalcCRC |
| Pn512.Pn512NfcDevice.ReadCrcReg | app/src/main/java/com/schoovello/pichef/nfc/testing/Pn512NfcDevice.java:232-237 | success, new bus and the array contents equal CrcReadRun: it reads the MSB result register before the LSB one and returns [MSB, LSB] |
| Pn512.Pn512NfcDevice.TestCrc | app/src/main/java/com/schoovello/pichef/nfc/testing/Pn512NfcDevice.java:201-217 | result and new bus equal CrcTestRun; on success the new bus events are a CRC-test trace (reset, mode clear, CalcCRC, "Hello, world!" to the FIFO, MSB read, LSB read, Idle), and it returns true iff the reads were 0xD1 then 0x5E |
| Pn512.Pn512NfcDevice.SetRegisterBits | app/src/main/java/com/schoovello/pichef/nfc/testing/Pn512NfcDevice.java:99-101 | result and new bus equal SetBitsRun: one read of the register, then one write of the value read with the mask OR-ed in |
| Pn512.Pn512NfcDevice.SendWupa | app/src/main/java/com/schoovello/pichef/nfc/testing/Pn512NfcDevice.java:95-127 | result and new bus equal WupaSendRun; on success the new bus events are the probe's transmit half: NoCmdChange, set initiator bit, RF on (0x82), flush, OR 0b111 into bit framing, WUPA 0xA4 to the FIFO, clear IRQs, Transceive, set StartSend |
| Pn512.Pn512NfcDevice.TryActivateMiFare | app/src/main/java/com/schoovello/pichef/nfc/testing/Pn512NfcDevice.java:94-146 | result and new bus equal MiFareRun; on success the new bus events are a wake-up trace (transmit half, interrupt poll until 0x30 is set, Idle, 2-byte FIFO read), and it returns true iff the bytes read are [0x44, 0x00] |

## Left out

- The SPI configuration in the constructor (frequency, word size, mode, chip-select behaviour) and `close()`. These are calls into the Android peripheral library, outside this model.
- The 1 ms sleep before each poll read. It is timing only and has no logical effect.
- Unbounded waiting: the source polls forever if the chip never answers. In the model, every read consumes one scripted reply, so a poll ends either on its exit condition or with `TransportFault` once the script runs out. Waits that never end are not modelled.
- The CRC-16 computation and the self-test firmware. Both run inside the chip; the driver only compares bytes.
- `MainActivity` (Android lifecycle, threading, logging). `MiFareDevice` is only inlined as the constant `Wupa = 0xA4`; its REQA and READ codes are unused by the core.
- Pn512.Pn512NfcDevice.ReadData: requires `length + 1 <= 256`. The source does not check this. A longer read would overflow the 256-byte buffer and raise an unchecked index exception, which is not modelled.
- Pn512.Pn512NfcDevice.WriteFifo: does not restate WriteData's transmit-buffer contents.
- Pn512.Pn512NfcDevice.ReadFifo: does not restate ReadData's buffer contents.
- Pn512.Pn512NfcDevice.WriteCommand: does not state the transmit-buffer contents.
- Pn512.Pn512NfcDevice.SoftReset: does not state the transmit-buffer contents.
- Pn512.Pn512NfcDevice.SendIdleCommand: does not state the transmit-buffer contents.
- Pn512.Pn512NfcDevice.FlushFifo: does not state the transmit-buffer contents.
- Pn512.Pn512NfcDevice.ClearAllInterruptFlags: does not state the transmit-buffer contents.
- Pn512.Pn512NfcDevice.WaitForIdle: does not state the scratch-buffer contents it leaves.
- Pn512.Pn512NfcDevice.WaitForModemIdle: does not state the scratch-buffer contents it leaves.
- Pn512.Pn512NfcDevice.WaitForIrqFlags: does not state the scratch-buffer contents it leaves.
- Pn512.Pn512NfcDevice.SelfTest: does not state the scratch-buffer contents it leaves.
- Pn512.Pn512NfcDevice.ClearAndStartCrc: does not state the scratch-buffer contents it leaves.
- Pn512.Pn512NfcDevice.ReadCrcReg: does not state the scratch-buffer contents it leaves.
- Pn512.Pn512NfcDevice.TestCrc: does not state the scratch-buffer contents it leaves.
- Pn512.Pn512NfcDevice.SetRegisterBits: does not state the scratch-buffer contents it leaves.
- Pn512.Pn512NfcDevice.SendWupa: does not state the scratch-buffer contents it leaves.
- Pn512.Pn512NfcDevice.TryActivateMiFare: does not state the scratch-buffer contents it leaves.
- Java's signed `byte` is not modelled: the driver only masks, ORs, shifts, truncates with `(byte)` and compares bytes for equality, so an unsigned 8-bit model behaves the same.
- Concurrency: the driver is single-threaded and owns its buffers, so it is not modelled.

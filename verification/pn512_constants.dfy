/**
 The fixed tables of the PN512 driver: the register map, the command codes
 of the command register's low nibble, the self-test enable value, the
 self-test signature, and the constants of the three procedures.
 */
module Pn512Constants {
  import opened BitUtils

  /** Size of each of the driver's two scratch buffers. */
  const BufferSize: nat := 256

  // Register addresses (six significant bits)
  const CommandReg: Byte := 0x01
  const CommIrqReg: Byte := 0x04
  const Status2Reg: Byte := 0x08
  const FifoDataReg: Byte := 0x09
  const FifoLevelReg: Byte := 0x0a
  const ControlReg: Byte := 0x0c
  const BitFramingReg: Byte := 0x0d
  const ModeReg: Byte := 0x11
  const TxControlReg: Byte := 0x14
  const TxAutoReg: Byte := 0x15
  const CrcResultMsbReg: Byte := 0x21
  const CrcResultLsbReg: Byte := 0x22
  const AutoTestReg: Byte := 0x36

  // Command codes: the low nibble of the command register
  const CommandMask: Byte := 0x0F
  const CmdIdle: Byte := 0x0
  const CmdConfigure: Byte := 0x1
  const CmdGenerateRandomId: Byte := 0x2
  const CmdCalcCrc: Byte := 0x3
  const CmdTransmit: Byte := 0x4
  const CmdNoCmdChange: Byte := 0x7
  const CmdReceive: Byte := 0x8
  const CmdTransceive: Byte := 0xC
  const CmdAutoColl: Byte := 0xD
  const CmdMfAuthent: Byte := 0xE
  const CmdSoftReset: Byte := 0xF

  /** Written to the auto-test register to turn CalcCRC into the self test. */
  const AutoTestEnableSelfTest: Byte := 0x09

  /** How many bytes the self test leaves in the FIFO. */
  const SelfTestResultLength: nat := 64

  /** The 64 bytes the chip's self test leaves in the FIFO when it passes. */
  const SelfTestExpectedResult: seq<Byte> := [
    0x00, 0xEB, 0x66, 0xBA, 0x57, 0xBF,
    0x23, 0x95, 0xD0, 0xE3, 0x0D, 0x3D,
    0x27, 0x89, 0x5C, 0xDE, 0x9D, 0x3B,
    0xA7, 0x00, 0x21, 0x5B, 0x89, 0x82,
    0x51, 0x3A, 0xEB, 0x02, 0x0C, 0xA5,
    0x00, 0x49, 0x7C, 0x84, 0x4D, 0xB3,
    0xCC, 0xD2, 0x1B, 0x81, 0x5D, 0x48,
    0x76, 0xD5, 0x71, 0x61, 0x21, 0xA9,
    0x86, 0x96, 0x83, 0x38, 0xCF, 0x9D,
    0x5B, 0x6D, 0xDC, 0x15, 0xBA, 0x3E,
    0x7D, 0x95, 0x3B, 0x2F
  ]

  /** Bytes of the chip's self-test configuration step: 25 zero bytes. */
  const SelfTestClearLength: nat := 25

  /** The CRC test payload, the US-ASCII bytes of "Hello, world!". */
  const CrcTestPayload: seq<Byte> := [
    0x48, 0x65, 0x6C, 0x6C, 0x6F, 0x2C, 0x20, 0x77, 0x6F, 0x72, 0x6C, 0x64, 0x21
  ]

  /** CRC-16 (KERMIT) of the payload, as read from the MSB then the LSB register. */
  const ExpectedCrcResult: seq<Byte> := [0xD1, 0x5E]

  /** The wake-up command as the driver writes it to the FIFO: the 7-bit
      code 0x52 shifted left by one, i.e. 0xA4. */
  const Wupa: Byte := 0xA4

  /** The answer to request the wake-up probe expects from a card. */
  const ExpectedAtqa: seq<Byte> := [0x44, 0x00]

  // Register values the procedures write
  const InitiatorBit: Byte := 0x10      // control register
  const RfOnValue: Byte := 0x82         // TX-control register: the RF-enable pattern
  const FlushBufferBit: Byte := 0x80    // FIFO-level register
  const TxLastBitsSeven: Byte := 0x07   // bit-framing register, low three bits
  const StartSendBit: Byte := 0x80      // bit-framing register
  const ClearAllIrqs: Byte := 0x7F      // comm-IRQ register
  const CrcPresetBits: Byte := 0x03     // mode register, cleared for preset 0x0000
  const RxTxIrqBits: Byte := 0x30       // comm-IRQ register: the two completion flags, bits 4 and 5
  const ModemStateMask: Byte := 0x07    // status-2 register
}

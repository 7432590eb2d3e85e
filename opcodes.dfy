/** The device opcodes (`enum Command` of commands.rs), each a fixed `u32`
    sent big-endian as the first word of a command frame. */
module Opcodes {
  import opened Bytes

  datatype Command =
    | WriteBlock | ReadBlock
    | WriteBlockAndSpare | ReadBlockAndSpare | InitFS
    | GetNumBlocks | SetSeqNo | GetSeqNo
    | FileChksum | SetLED | SetTime | GetBBID | SignHash

  /** The `#[repr(u32)]` discriminant of each opcode. */
  function Opcode(c: Command): u32
  {
    match c
    case WriteBlock => 0x06
    case ReadBlock => 0x07
    case WriteBlockAndSpare => 0x10
    case ReadBlockAndSpare => 0x11
    case InitFS => 0x12
    case GetNumBlocks => 0x15
    case SetSeqNo => 0x16
    case GetSeqNo => 0x17
    case FileChksum => 0x1C
    case SetLED => 0x1D
    case SetTime => 0x1E
    case GetBBID => 0x1F
    case SignHash => 0x20
  }

  /** Distinct opcodes have distinct wire values, so the device can tell every
      request apart from its first word. */
  lemma OpcodeInjective(c: Command, d: Command)
    ensures Opcode(c) == Opcode(d) ==> c == d
  {
  }
}

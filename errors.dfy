/** Failures of the model: the transport errors of `rusb`, the crate's own
    `LibBBError` kinds, and Rust panics, which no caller catches. */
module Errors {
  import opened Bytes
  import Opcodes

  /** The `rusb::Error` kinds the model distinguishes. */
  datatype UsbError = Io | InvalidParam | Timeout | Overflow | Pipe | NoDevice | Other

  /** A Rust panic: a failed `assert!` or an out-of-range slice. */
  datatype Fatal =
    | LengthMismatch   // "Data length does not match expected" in the piecemeal decoder
    | IndexOutOfRange  // `buf[4..8]`, `spare[5]` or `data[..3]` on too short a buffer

  datatype Error =
    | Usb(usb: UsbError)
    | Panic(fatal: Fatal)
    | Command(command: Opcodes.Command, ret: i32)
    | ReadBlock(block: u32)
    | WriteBlock(block: u32)
    | CheckBlockWrite(ret: i32)
    | InitFS(ret: i32)
    | SetTime(ret: i32)
    | GetBBID(ret: i32)
    | FileNameTooLong(name: seq<byte>)
    | FileNameCString(name: seq<byte>)
    | NoConsole
    | FS

  datatype Option<+T> = None | Some(value: T)

  datatype Result<+T> = Ok(value: T) | Err(error: Error) {
    predicate IsFailure() { Err? }
    function PropagateFailure<U>(): Result<U>
      requires Err?
    {
      Err(error)
    }
    function Extract(): T
      requires Ok?
    {
      value
    }
  }

  /** `try_continue!` in the retry loops moves on to the next attempt after an
      `Err`; a panic is not an `Err` value and unwinds past it. */
  predicate Retryable(e: Error) { !e.Panic? }
}

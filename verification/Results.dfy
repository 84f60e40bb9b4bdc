// Outcomes of fallible operations across the crates.
module Results {

  datatype Error =
    | GuestAddressOutOfRange(address: nat)
    | MemoryAllocationFailed
    | MemoryMapFailed
    | ConfigError
    | NoDataDescriptor
    | InvalidStatusDescriptor
    | NullStatusAddress
    | ReadBufferNotWritable
    | WriteBufferNotReadable
    | HostIo
    | KernelNotFound
    | InitramfsNotFound
    | KernelLoadFailed
    | MissingHeaderField(offset: nat)
    | InvalidPayloadRange
    | HeaderNotRetained
    | CommandLineTooLong
    | MessageTooShort
    | InvalidMagic
    | IncompletePayload
    | ChecksumMismatch
    | EndOfStream
    | TooManyDevices
    | Panicked

  /** `Panicked` stands for a Rust panic: unlike the other errors no caller handles it. */
  datatype Result<+T> = Ok(value: T) | Err(error: Error) {
    predicate IsFailure() {
      Err?
    }

    function PropagateFailure<U>(): Result<U>
      requires Err?
    {
      Err(error)
    }

    function Extract(): T
      requires Ok?
    {
      value
    }
  }

  datatype Unit = Unit

  datatype Option<+T> = None | Some(value: T)
}

// The kernel's error values and the result types that carry them.
module Errors {
  datatype Option<+T> = None | Some(value: T)

  datatype MemoryError =
    | OutOfMemory
    | InvalidAddress
    | InvalidAlignment
    | AlreadyMapped
    | NotMapped
    | InvalidSize
    | DoubleFree

  datatype KernelError =
    | Memory(memory: MemoryError)
    | PermissionDenied
    | ProcessNotFound
    | TooManyProcesses
    | InvalidParameter
    | BadAddress
    | OperationFailed
    | ResourceExhausted

  datatype Result<+T> = Ok(value: T) | Err(error: KernelError)
}

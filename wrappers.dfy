/** Option and Result values shared by the tracer models. */
module Wrappers {

  datatype Option<+T> = None | Some(value: T) {
    /** The wrapped value, or `default` when there is none. */
    function GetOr(default: T): T {
      match this
      case Some(v) => v
      case None => default
    }
  }

  datatype Result<+T, +E> = Success(value: T) | Failure(error: E)
}

/** The JSON value `json.Marshal` produces for a Go string.  The escaping
    of the string's characters belongs to the encoding library and is kept
    abstract: a marshalled string is the string itself, wrapped. */
module Json {

  datatype Json = JsonString(text: string)
}

/** EVM opcodes.  The mnemonic (`vm.OpCode.String`) is defined outside the
    tracers; every member that prints an opcode takes it as a parameter
    `name: OpCode -> string`. */
module Vm {

  newtype OpCode = x: int | 0 <= x < 256
}

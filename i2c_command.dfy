/**
 * The message that carries one bus transaction from the proxy to the
 * capability (`I2cCommand` and the `call_i2c` result type in src/i2c_proxy.rs).
 */
module I2cCommand {

  /**
   * One bus transaction. A payload the caller only lends for reading is a
   * value; a buffer the handler fills is an array the caller and the handler
   * share, so the handler's writes are seen by the caller.
   */
  datatype Command =
    | Write(address: bv8, bytes: seq<bv8>)
    | Read(address: bv8, buffer: array<bv8>)
    | WriteRead(address: bv8, bytes: seq<bv8>, buffer: array<bv8>)
  {
    predicate HasBuffer() { Read? || WriteRead? }

    /** The caller's memory the command lends out for writing. */
    function Buffers(): set<object> { if HasBuffer() then {buffer} else {} }

    /** The command's content (address, payload, buffer bytes) at the moment it is handed over. */
    ghost function Content(): Request
      reads Buffers()
    {
      match this
      case Write(a, bytes) => WriteOf(a, bytes)
      case Read(a, buf) => ReadOf(a, buf[..])
      case WriteRead(a, bytes, buf) => WriteReadOf(a, bytes, buf[..])
    }
  }

  /** A command compared by content only: buffer identity is not part of it. */
  datatype Request =
    | WriteOf(address: bv8, bytes: seq<bv8>)
    | ReadOf(address: bv8, contents: seq<bv8>)
    | WriteReadOf(address: bv8, bytes: seq<bv8>, contents: seq<bv8>)

  /** Why the program stopped with a panic. */
  datatype Abort =
    | NoSpawn        // a bus call reached the proxy with an empty slot
    | Unimplemented  // i2c_handler received Write or WriteRead
    | Unwrap         // the driver unwrapped an Err from the bus

  /**
   * The result of a bus call or a routing call: `Ok(())`, `Err(command)`,
   * or a panic, which ends the program and so never returns to the caller.
   */
  datatype Outcome = Ok | Err(cmd: Command) | Panic(why: Abort)
}

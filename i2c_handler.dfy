/**
 * The high-priority `i2c_handler` task and the `I2cHandlerCallable`
 * implementation for the scheduler's `Spawn` capability (src/main.rs).
 * The handler preempts the caller, so routing a command runs it to
 * completion before `CallI2c` returns.
 */
module Handler {
  import opened I2cCommand

  /** The byte the handler writes into every slot of a Read buffer. */
  const FILL: bv8 := 0xAE

  function Filled(n: nat): seq<bv8> { seq(n, _ => FILL) }

  /**
   * The `i2c_handler` task body: fills a Read buffer with 0xAE; Write and
   * WriteRead are `unimplemented!` and abort without touching any buffer.
   */
  method I2cHandler(cmd: Command) returns (r: Outcome)
    modifies cmd.Buffers()
    ensures r == (if cmd.Read? then Ok else Panic(Unimplemented))
    ensures cmd.Read? ==> cmd.buffer[..] == Filled(cmd.buffer.Length)
    ensures !cmd.Read? ==> unchanged(cmd.Buffers())
  {
    match cmd
    case Write(_, _) =>
      r := Panic(Unimplemented);
    case Read(_, buffer) =>
      for i := 0 to buffer.Length
        invariant forall k :: 0 <= k < i ==> buffer[k] == FILL
      {
        buffer[i] := FILL;
      }
      r := Ok;
    case WriteRead(_, _, _) =>
      r := Panic(Unimplemented);
  }

  /**
   * The capability a task invocation receives from the scheduler. Spawning
   * `i2c_handler` fails, handing the command back, when the scheduler's
   * queue for it is full.
   */
  class Spawn {
    /** Whether the scheduler's queue for `i2c_handler` is full. */
    const queueFull: bool
    /** Every command routed through this capability, in order. */
    ghost var calls: seq<Command>
    /** The content of each routed command at the moment it was handed over. */
    ghost var requests: seq<Request>

    constructor(queueFull: bool)
      ensures this.queueFull == queueFull && calls == [] && requests == []
    {
      this.queueFull := queueFull;
      calls, requests := [], [];
    }

    /** What routing `cmd` returns. */
    function Reply(cmd: Command): (r: Outcome)
      ensures r.Err? <==> queueFull
      ensures r.Err? ==> r.cmd == cmd
      ensures !queueFull ==> (r == Ok <==> cmd.Read?)
    {
      if queueFull then Err(cmd) else if cmd.Read? then Ok else Panic(Unimplemented)
    }

    /** What a buffer holding `before` holds once `cmd` has been routed. */
    function Effect(cmd: Command, before: seq<bv8>): seq<bv8>
    {
      if !queueFull && cmd.Read? then Filled(|before|) else before
    }

    /** `call_i2c`: spawns `i2c_handler` with the command and returns the spawn's result. */
    method CallI2c(cmd: Command) returns (r: Outcome)
      modifies this, cmd.Buffers()
      ensures calls == old(calls) + [cmd]
      ensures requests == old(requests) + [old(cmd.Content())]
      ensures r == Reply(cmd)
      ensures cmd.HasBuffer() ==> cmd.buffer[..] == Effect(cmd, old(cmd.buffer[..]))
    {
      calls := calls + [cmd];
      requests := requests + [cmd.Content()];
      if queueFull {
        r := Err(cmd);
      } else {
        r := I2cHandler(cmd);
      }
    }
  }
}

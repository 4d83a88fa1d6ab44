/**
 * `SomeDriver` (src/some_driver.rs): a generic I2C client that knows nothing
 * of the proxy or of scopes, and the `expose` hook through which a scope
 * guard reaches the proxy it owns.
 */
module Driver {
  import opened Wrappers
  import opened I2cCommand
  import opened I2cProxy

  /** How a driver call or a task ended: normally, or in a panic that halts the program. */
  datatype Status = Finished | Panicked(why: Abort)

  /** `.unwrap()` on a bus result. */
  function Unwrapped(r: Outcome): Status
  {
    match r
    case Ok => Finished
    case Err(_) => Panicked(Unwrap)
    case Panic(why) => Panicked(why)
  }

  /** The size of the buffer `do_stuff` reads into. */
  const BUFFER_LEN: nat := 100
  /** The bus address `do_stuff` reads from. */
  const DEVICE_ADDRESS: bv8 := 0xFF

  function Zeros(n: nat): seq<bv8> { seq(n, _ => 0) }

  class SomeDriver {
    /** The bus the driver owns; here always a proxy. */
    const i2c: Proxy

    constructor(i2c: Proxy)
      ensures this.i2c == i2c
    {
      this.i2c := i2c;
    }

    /** `expose`: hands out the driver's own proxy, not a copy. */
    method Expose() returns (p: Proxy)
      ensures p == i2c
    {
      p := i2c;
    }

    /**
     * `do_stuff`: one 100-byte read at 0xFF into a fresh zeroed buffer,
     * unwrapped. The buffer is returned so that what the driver sees after
     * the call can be stated.
     */
    method DoStuff() returns (st: Status, buffer: array<bv8>)
      modifies i2c.Cap()
      ensures fresh(buffer) && buffer.Length == BUFFER_LEN
      ensures i2c.slot == old(i2c.slot)
      ensures i2c.slot.None? ==> st == Panicked(NoSpawn) && buffer[..] == Zeros(BUFFER_LEN)
      ensures i2c.slot.Some? ==>
        var c, cmd := i2c.slot.value, Read(DEVICE_ADDRESS, buffer);
        && c.calls == old(c.calls) + [cmd]
        && c.requests == old(c.requests) + [ReadOf(DEVICE_ADDRESS, Zeros(BUFFER_LEN))]
        && st == Unwrapped(c.Reply(cmd))
        && buffer[..] == c.Effect(cmd, Zeros(BUFFER_LEN))
    {
      buffer := new bv8[BUFFER_LEN](_ => 0);
      assert buffer[..] == Zeros(BUFFER_LEN);
      var r := i2c.Read(DEVICE_ADDRESS, buffer);
      st := Unwrapped(r);
    }
  }
}

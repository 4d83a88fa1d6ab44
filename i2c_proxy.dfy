/**
 * `I2cHandlerProxy` (src/i2c_proxy.rs): a stand-in I2C bus that turns each
 * bus call into a command and forwards it through the capability installed
 * in its slot, or panics when the slot is empty.
 */
module I2cProxy {
  import opened Wrappers
  import I2cCommand
  import opened Handler

  type Outcome = I2cCommand.Outcome

  class Proxy {
    /**
     * The capability slot: empty, or the capability bus calls go through.
     * `Spawn` stands for any `I2cHandlerCallable`: it is the one the program installs.
     */
    var slot: Option<Spawn>

    constructor()
      ensures slot == None
    {
      slot := None;
    }

    /** The capability a bus call may route through (and whose log it extends). */
    function Cap(): set<object>
      reads this
    {
      if slot.Some? then {slot.value} else {}
    }

    /** `set_spawn`: installs or clears the capability; no check of what was there. */
    method SetSpawn(spawn: Option<Spawn>)
      modifies this
      ensures slot == spawn
    {
      slot := spawn;
    }

    /** Bus `write`. */
    method Write(addr: bv8, bytes: seq<bv8>) returns (r: Outcome)
      modifies Cap()
      ensures slot == old(slot)
      ensures slot.None? ==> r == I2cCommand.Panic(I2cCommand.NoSpawn)
      ensures slot.Some? ==>
        var c, cmd := slot.value, I2cCommand.Write(addr, bytes);
        && c.calls == old(c.calls) + [cmd]
        && c.requests == old(c.requests) + [I2cCommand.WriteOf(addr, bytes)]
        && r == c.Reply(cmd)
    {
      match slot
      case Some(c) =>
        r := c.CallI2c(I2cCommand.Write(addr, bytes));
      case None =>
        r := I2cCommand.Panic(I2cCommand.NoSpawn);
    }

    /** Bus `read`: the capability writes into the caller's own buffer. */
    method Read(address: bv8, buffer: array<bv8>) returns (r: Outcome)
      modifies Cap(), buffer
      ensures slot == old(slot)
      ensures slot.None? ==> r == I2cCommand.Panic(I2cCommand.NoSpawn) && unchanged(buffer)
      ensures slot.Some? ==>
        var c, cmd := slot.value, I2cCommand.Read(address, buffer);
        && c.calls == old(c.calls) + [cmd]
        && c.requests == old(c.requests) + [I2cCommand.ReadOf(address, old(buffer[..]))]
        && r == c.Reply(cmd)
        && buffer[..] == c.Effect(cmd, old(buffer[..]))
    {
      match slot
      case Some(c) =>
        r := c.CallI2c(I2cCommand.Read(address, buffer));
      case None =>
        r := I2cCommand.Panic(I2cCommand.NoSpawn);
    }

    /** Bus `write_read`. */
    method WriteRead(address: bv8, bytes: seq<bv8>, buffer: array<bv8>) returns (r: Outcome)
      modifies Cap(), buffer
      ensures slot == old(slot)
      ensures slot.None? ==> r == I2cCommand.Panic(I2cCommand.NoSpawn) && unchanged(buffer)
      ensures slot.Some? ==>
        var c, cmd := slot.value, I2cCommand.WriteRead(address, bytes, buffer);
        && c.calls == old(c.calls) + [cmd]
        && c.requests == old(c.requests) + [I2cCommand.WriteReadOf(address, bytes, old(buffer[..]))]
        && r == c.Reply(cmd)
        && buffer[..] == c.Effect(cmd, old(buffer[..]))
    {
      match slot
      case Some(c) =>
        r := c.CallI2c(I2cCommand.WriteRead(address, bytes, buffer));
      case None =>
        r := I2cCommand.Panic(I2cCommand.NoSpawn);
    }
  }
}

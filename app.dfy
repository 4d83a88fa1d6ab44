/**
 * The application (src/main.rs): `init` builds the driver around an empty
 * proxy, `some_driver_handler` uses the driver inside a scope guard, and
 * `invalid_handler`, which the scheduler runs after it, uses the driver
 * outside any scope. Tasks run one after the other; `i2c_handler` runs
 * inside each routing call because it preempts.
 */
module App {
  import opened Wrappers
  import opened I2cCommand
  import opened Handler
  import opened I2cProxy
  import opened Driver
  import opened ScopedProvider

  /** `init`: the shared driver, around a freshly created proxy whose slot is empty. */
  method Init() returns (driver: SomeDriver)
    ensures fresh(driver) && fresh(driver.i2c)
    ensures driver.i2c.slot == None
  {
    var proxy := new Proxy();
    driver := new SomeDriver(proxy);
  }

  /**
   * `some_driver_handler`: creates the guard around its own `spawn`, runs
   * `do_stuff` and drops the guard when the function ends. A panic halts
   * the program inside the scope, so the drop is not reached then.
   */
  method SomeDriverHandler(driver: SomeDriver, spawn: Spawn) returns (st: Status, buffer: array<bv8>)
    modifies driver.i2c, spawn
    ensures fresh(buffer) && buffer.Length == BUFFER_LEN
    ensures spawn.calls == old(spawn.calls) + [Read(DEVICE_ADDRESS, buffer)]
    ensures spawn.requests == old(spawn.requests) + [ReadOf(DEVICE_ADDRESS, Zeros(BUFFER_LEN))]
    ensures st == (if spawn.queueFull then Panicked(Unwrap) else Finished)
    ensures st.Finished? ==> driver.i2c.slot == None && buffer[..] == Filled(BUFFER_LEN)
    ensures st.Panicked? ==> driver.i2c.slot == Some(spawn) && buffer[..] == Zeros(BUFFER_LEN)
  {
    var scope := new Guard(spawn, driver);
    st, buffer := driver.DoStuff();
    if st.Panicked? {
      return;
    }
    scope.Drop();
  }

  /** `invalid_handler`: calls `do_stuff` with no guard of its own. */
  method InvalidHandler(driver: SomeDriver) returns (st: Status)
    modifies driver.i2c.Cap()
    ensures driver.i2c.slot == old(driver.i2c.slot)
    ensures driver.i2c.slot.None? ==> st == Panicked(NoSpawn)
  {
    var buffer;
    st, buffer := driver.DoStuff();
  }

  /**
   * The whole run: `init`, then `some_driver_handler` with the capability
   * the scheduler gives it, then `invalid_handler`. Exactly one command
   * reaches the capability, a 100-byte zeroed Read at 0xFF, and the run
   * ends in a panic: the out-of-scope call when the read succeeded, the
   * unwrap when the spawn queue was full.
   */
  method Boot(queueFull: bool) returns (st: Status, spawn: Spawn)
    ensures fresh(spawn) && spawn.queueFull == queueFull
    ensures |spawn.calls| == 1 && spawn.calls[0].Read? && spawn.calls[0].address == DEVICE_ADDRESS
    ensures spawn.requests == [ReadOf(DEVICE_ADDRESS, Zeros(BUFFER_LEN))]
    ensures st == Panicked(if queueFull then Unwrap else NoSpawn)
  {
    var driver := Init();
    spawn := new Spawn(queueFull);
    var buffer;
    st, buffer := SomeDriverHandler(driver, spawn);
    if st.Panicked? {
      return;
    }
    st := InvalidHandler(driver);
  }
}

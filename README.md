# Scoped capability proxy for a shared I2C bus

A Dafny model of the core of `shared-i2c-rtic-exercise`. A low-priority RTIC
task lends a driver a capability to spawn the high-priority `i2c_handler`
task, and only for the length of one scope.

- `I2cHandlerProxy` stands in for the I2C bus. Each `write`, `read` or
  `write_read` becomes an `I2cCommand`. The proxy forwards that command through
  the capability in its one slot. With an empty slot, the call panics.
- `ScopedTaskSpawnProvider` is a scope guard. Creating it installs the
  capability into the slot, through the driver's `expose` hook. Dropping it
  empties the slot, whatever the slot holds at that moment.
- `SomeDriver` is a generic bus client. Its `do_stuff` reads 100 bytes at
  address 0xFF.
- `i2c_handler` fills a Read buffer with 0xAE. The tasks `init`,
  `some_driver_handler` and `invalid_handler` make up the scenario.

Modules and the source each one models:

| file | module | models |
|---|---|---|
| `i2c_command.dfy` | `I2cCommand` | `I2cCommand`, the bus result, the panics |
| `i2c_handler.dfy` | `Handler` | `i2c_handler` and `call_i2c` for `Spawn` (src/main.rs) |
| `i2c_proxy.dfy` | `I2cProxy` | `I2cHandlerProxy` (src/i2c_proxy.rs) |
| `some_driver.dfy` | `Driver` | `SomeDriver` and `expose` (src/some_driver.rs) |
| `scoped_task_spawn_provider.dfy` | `ScopedProvider` | the guard and the slot's state machine |
| `app.dfy` | `App` | `init` and the two driver tasks (src/main.rs) |
| `wrappers.dfy` | `Wrappers` | `Option` |

Modelling choices:

- The capability (`I2cHandlerCallable`) is represented by its only implementer
  in the program, the scheduler's `Spawn` (class `Handler.Spawn`). The proxy
  module therefore imports `Handler`, where the Rust proxy knows only the trait.
  - Its `CallI2c` spawns `i2c_handler`, and `i2c_handler` preempts the caller. So
    the handler runs to completion inside the call.
  - The scheduler's queue state is the constant `queueFull`. When the queue is
    full, the spawn fails and hands the command back unchanged.
- `Spawn` keeps two ghost logs:
  - `calls`: each command routed through it, so buffer identity is kept;
  - `requests`: each command's content at hand-over.
  These logs state "exactly once" and "content-equal".
- A panic is a value: `Outcome.Panic` for bus calls, `Status.Panicked` for
  driver calls and tasks. It is not a precondition. A panicking call never
  returns to its caller: the model's callers stop when they receive one.
- Byte payloads the handler only reads are `seq<bv8>`. Buffers it writes are
  `array<bv8>`, shared between the caller and the handler.
- `do_stuff`'s local buffer is returned as an out-parameter. This lets the
  contract state what the driver sees after the read. The source prints the
  buffer's first two bytes.
- The slot also has a value-level state machine. A guard is either `Created(c)`
  or `Dropped`.
  - `SlotAfter` runs a sequence of these events over the slot.
  - `LiveAfter` gives the guards still alive.
  - `Guard`'s constructor and `Drop` state their effect through the same `Step`.
- A scope guard is usually expected to run on a failure unwind as well. This
  program is `no_std` with `panic_semihosting`, whose panic handler halts the
  program instead of unwinding. So when `do_stuff` panics inside `some_driver_handler`, the
  guard's drop is never reached. `App.SomeDriverHandler` follows the code.

## Model

| member | source | states |
|---|---|---|
| `I2cProxy.Proxy.constructor` | src/i2c_proxy.rs:21-25 | a new proxy's slot is empty |
| `I2cProxy.Proxy.SetSpawn` | src/i2c_proxy.rs:27-29 | the slot holds exactly the given value afterwards, whatever it held before (last write wins; `None` empties it) |
| `I2cProxy.Proxy.Write` | src/i2c_proxy.rs:35-45 | the slot is unchanged; empty slot: panic, no capability touched; installed `c`: `c` receives exactly one `Write(addr, bytes)` with the same content, and the call returns `c`'s reply unchanged, an `Err` included |
| `I2cProxy.Proxy.Read` | src/i2c_proxy.rs:51-63 | as `Write`, with `Read(address, buffer)` on the caller's own buffer: the buffer ends as the capability leaves it; with an empty slot it is untouched |
| `I2cProxy.Proxy.WriteRead` | src/i2c_proxy.rs:69-87 | as `Read`, forwarding `WriteRead(address, bytes, buffer)` exactly once |
| `Handler.I2cHandler` | src/main.rs:84-102 | Read: every byte of the buffer becomes 0xAE and its length is kept; Write and WriteRead: `unimplemented!` panic with no buffer changed |
| `Handler.Spawn.Reply` | src/main.rs:112-115 | routing fails exactly when the spawn queue is full, and the failure carries back the very command routed; otherwise it succeeds exactly for Read |
| `Handler.Spawn.CallI2c` | src/main.rs:112-115 | appends the command and its content to the capability's log, returns `Reply(cmd)` and leaves the command's buffer as the handler writes it |
| `Driver.SomeDriver.constructor` | src/some_driver.rs:15-17 | the driver holds the given bus itself |
| `Driver.SomeDriver.Expose` | src/some_driver.rs:32-35 | returns the driver's own proxy, so setting its slot changes the proxy `do_stuff` uses |
| `Driver.SomeDriver.DoStuff` | src/some_driver.rs:19-29 | a fresh 100-byte buffer; exactly one command reaches the capability, a Read at 0xFF of 100 zero bytes on that buffer; `Err` becomes an unwrap panic; the buffer ends as the capability leaves it; empty slot: panic |
| `ScopedProvider.Guard.constructor` | src/scoped_task_spawn_provider.rs:43-48 | the guard keeps the driver; the driver's proxy slot holds `spawn`, overwriting whatever was installed; nothing but that proxy changes |
| `ScopedProvider.Guard.Drop` | src/scoped_task_spawn_provider.rs:56-60 | the driver's proxy slot is empty afterwards, whatever it held; nothing but that proxy changes |
| `ScopedProvider.SlotAfterLastEvent` | src/scoped_task_spawn_provider.rs:43-60 | after any non-empty sequence of guard events, the slot is decided by the last one alone: `Some(c)` after creating a guard around `c`, empty after a drop |
| `ScopedProvider.SlotAfterAppend` | src/scoped_task_spawn_provider.rs:43-60 | the slot after two sequences of guard events run back to back is the second run from where the first left it |
| `ScopedProvider.LiveAfterAppend` | src/scoped_task_spawn_provider.rs:43-60 | the same composition for the set of live guards |
| `ScopedProvider.NestingHazard` | src/scoped_task_spawn_provider.rs:43-60 | after any history, create guard A, create guard B, drop B: the slot is empty while A is still the live guard |
| `ScopedProvider.DisciplineKeepsSlotInStep` | src/scoped_task_spawn_provider.rs:43-60 | when a guard is only created while none is live, the slot always holds the live guard's capability, and is empty exactly when no guard is live |
| `ScopedProvider.NestedScopes` | src/scoped_task_spawn_provider.rs:43-60 | the nesting hazard on the classes: after guards A and B are created and B is dropped, A is live on the driver and its proxy slot is empty |
| `App.Init` | src/main.rs:43-52 | the driver is built around a fresh proxy whose slot is empty |
| `App.SomeDriverHandler` | src/main.rs:54-69 | the guard is installed around `do_stuff`; its single Read at 0xFF reaches the task's `spawn`; on success, the buffer ends as 100 bytes of 0xAE and the slot is empty at the end; with a full queue, the unwrap panics inside the scope |
| `App.InvalidHandler` | src/main.rs:71-82 | with an empty slot, the `do_stuff` call panics ("Spawn object not available") |
| `App.Boot` | src/main.rs:43-82 | the whole run: exactly one zeroed 100-byte Read at 0xFF reaches the capability; the run ends in the out-of-scope panic of `invalid_handler`, or in the unwrap panic when the spawn queue was full |

## Left out

- The RTIC framework is not modelled. That covers the `#[app]` macro, task
  priorities, spawn queues, interrupt binding (`GPIOA`/`GPIOB`) and device setup.
  - Preemption is a synchronous call into `i2c_handler`.
  - The spawn queue is reduced to one injected flag per capability, `queueFull`.
  - The spawns of `some_driver_handler` (in `init`) and of `invalid_handler`
    are assumed to succeed. Their `.unwrap()` panics are not modelled.
- `hprintln!` and its `.unwrap()`, `panic_semihosting` and
  `cortex_m_semihosting` are not modelled. They are diagnostic I/O.
- Raw pointers, `transmute` and lifetime erasure (`SpawnUnsafe`, `set_spawn`,
  the bus calls) are not modelled. They are unsafe-Rust mechanics. Here the slot
  holds a reference to the capability, and buffers are shared arrays.
- The `RefCell` borrow tracking and `unsafe impl Send` are not modelled. They
  serve only the framework's aliasing and concurrency rules.
- The generic `I2cHandlerCallable` trait and the double type parameter of the
  guard are not modelled. Each is replaced by the one concrete capability,
  `Spawn`.
- The `embedded_hal` trait definitions are not modelled. They are external;
  only the three method signatures are kept.
- A guard can be dropped only LIFO (innermost first), as scope-based drops are.
  An explicit out-of-order `drop` is not in the program and is not modelled.

/**
 * `ScopedTaskSpawnProvider` (src/scoped_task_spawn_provider.rs): a scope
 * guard that installs a capability into a driver's proxy when it is created
 * and clears the slot when it is dropped, together with the slot's state
 * machine over sequences of guard creations and drops.
 */
module ScopedProvider {
  import opened Wrappers
  import opened Handler
  import opened Driver

  /** What happens to one proxy's slot: a guard is created around a capability, or the innermost live guard is dropped. */
  datatype GuardEvent<C> = Created(cap: C) | Dropped

  /** One transition of the slot: creation installs (overwriting), drop clears unconditionally. */
  function Step<C>(slot: Option<C>, e: GuardEvent<C>): Option<C>
  {
    match e
    case Created(c) => Some(c)
    case Dropped => None
  }

  /** The slot after the guard events of `t`, starting from `slot`. */
  function SlotAfter<C>(slot: Option<C>, t: seq<GuardEvent<C>>): Option<C>
    decreases |t|
  {
    if |t| == 0 then slot else SlotAfter(Step(slot, t[0]), t[1..])
  }

  /** The live guards (outermost first) once `e` happens: guards are dropped innermost first. */
  function Scope<C>(live: seq<C>, e: GuardEvent<C>): seq<C>
  {
    match e
    case Created(c) => live + [c]
    case Dropped => if |live| == 0 then live else live[..|live| - 1]
  }

  /** The live guards after the guard events of `t`. */
  function LiveAfter<C>(live: seq<C>, t: seq<GuardEvent<C>>): seq<C>
    decreases |t|
  {
    if |t| == 0 then live else LiveAfter(Scope(live, t[0]), t[1..])
  }

  /** The capability of the innermost live guard. */
  function Innermost<C>(live: seq<C>): Option<C>
  {
    if |live| == 0 then None else Some(live[|live| - 1])
  }

  /** The intended discipline: a guard is only created when none is live, and only a live guard is dropped. */
  predicate OneGuardAtATime<C>(live: seq<C>, t: seq<GuardEvent<C>>)
    decreases |t|
  {
    |t| == 0 ||
    ((if t[0].Created? then |live| == 0 else |live| != 0) && OneGuardAtATime(Scope(live, t[0]), t[1..]))
  }

  /** Running two traces one after the other. */
  lemma {:induction false} SlotAfterAppend<C>(slot: Option<C>, t: seq<GuardEvent<C>>, u: seq<GuardEvent<C>>)
    ensures SlotAfter(slot, t + u) == SlotAfter(SlotAfter(slot, t), u)
    decreases |t|
  {
    if |t| == 0 {
      assert t + u == u;
    } else {
      assert (t + u)[0] == t[0] && (t + u)[1..] == t[1..] + u;
      SlotAfterAppend(Step(slot, t[0]), t[1..], u);
    }
  }

  lemma {:induction false} LiveAfterAppend<C>(live: seq<C>, t: seq<GuardEvent<C>>, u: seq<GuardEvent<C>>)
    ensures LiveAfter(live, t + u) == LiveAfter(LiveAfter(live, t), u)
    decreases |t|
  {
    if |t| == 0 {
      assert t + u == u;
    } else {
      assert (t + u)[0] == t[0] && (t + u)[1..] == t[1..] + u;
      LiveAfterAppend(Scope(live, t[0]), t[1..], u);
    }
  }

  /**
   * Only the most recent event decides the slot: the last creation wins
   * whatever was installed before, and a drop empties the slot whatever
   * it held.
   */
  lemma {:induction false} SlotAfterLastEvent<C>(slot: Option<C>, t: seq<GuardEvent<C>>)
    requires |t| != 0
    ensures t[|t| - 1].Created? ==> SlotAfter(slot, t) == Some(t[|t| - 1].cap)
    ensures t[|t| - 1].Dropped? ==> SlotAfter(slot, t) == None
    decreases |t|
  {
    if |t| > 1 {
      SlotAfterLastEvent(Step(slot, t[0]), t[1..]);
    }
  }

  /**
   * The nesting hazard: after guard A, then guard B, is created and B is
   * dropped, A is still live but the slot is empty.
   */
  lemma NestingHazard<C>(slot: Option<C>, live: seq<C>, t: seq<GuardEvent<C>>, a: C, b: C)
    ensures var u := t + [Created(a), Created(b), Dropped];
      && SlotAfter(slot, u) == None
      && LiveAfter(live, u) == LiveAfter(live, t) + [a]
      && Innermost(LiveAfter(live, u)) == Some(a)
  {
    var ev: seq<GuardEvent<C>> := [Created(a), Created(b), Dropped];
    // Whatever the history left in the slot, the three events end with a drop.
    SlotAfterAppend(slot, t, ev);
    SlotAfterLastEvent(SlotAfter(slot, t), ev);
    LiveAfterAppend(live, t, ev);
    var l := LiveAfter(live, t);
    assert ev[1..][1..][1..] == [];
    assert LiveAfter(l, ev) == LiveAfter(l + [a], ev[1..]) == LiveAfter(l + [a] + [b], ev[1..][1..]);
    assert (l + [a] + [b])[..|l| + 1] == l + [a];
  }

  /**
   * Under the one-guard-at-a-time discipline the slot always holds exactly
   * the live guard's capability, and is empty when no guard is live.
   */
  lemma {:induction false} DisciplineKeepsSlotInStep<C>(slot: Option<C>, live: seq<C>, t: seq<GuardEvent<C>>)
    requires |live| <= 1 && slot == Innermost(live)
    requires OneGuardAtATime(live, t)
    ensures SlotAfter(slot, t) == Innermost(LiveAfter(live, t))
    ensures |LiveAfter(live, t)| <= 1
    decreases |t|
  {
    if |t| != 0 {
      DisciplineKeepsSlotInStep(Step(slot, t[0]), Scope(live, t[0]), t[1..]);
    }
  }

  /** The scope guard: it holds only the driver whose proxy it installed a capability into. */
  class Guard {
    const driver: SomeDriver

    /** `new`: installs `spawn` into the driver's proxy through `expose`, overwriting any capability there. */
    constructor(spawn: Spawn, driver: SomeDriver)
      modifies driver.i2c
      ensures this.driver == driver
      ensures driver.i2c.slot == Step(old(driver.i2c.slot), Created(spawn)) == Some(spawn)
    {
      this.driver := driver;
      new;
      var proxy := driver.Expose();
      proxy.SetSpawn(Some(spawn));
    }

    /** `drop`: clears the driver's proxy slot, whatever capability it holds now. */
    method Drop()
      modifies driver.i2c
      ensures driver.i2c.slot == Step(old(driver.i2c.slot), Dropped) == None
    {
      var proxy := driver.Expose();
      proxy.SetSpawn(None);
    }
  }

  /** Guard A, then guard B, is created on one driver and B is dropped: A is live and the slot is empty. */
  method NestedScopes(driver: SomeDriver, a: Spawn, b: Spawn) returns (outer: Guard)
    modifies driver.i2c
    ensures fresh(outer) && outer.driver == driver
    ensures driver.i2c.slot == None
  {
    outer := new Guard(a, driver);
    var inner := new Guard(b, driver);
    inner.Drop();
  }
}

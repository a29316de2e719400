/**
 * ImplicitWaitContext (Contexts/ImplicitWaitContext.cs): a scope that
 * overrides the implicit wait on entry and restores the saved value on exit.
 */
module ImplicitWaitContext {
  import opened Wrappers
  import opened Exceptions
  import opened Driver
  import opened Globals

  class ImplicitWaitContext {
    const globals: Globals
    /** The implicit wait this scope installed. */
    const timeout: nat

    /** The constructor body, once the driver is known to be set: saves the current wait and installs `t`. */
    constructor(g: Globals, t: nat)
      requires g.driver != null
      modifies g, g.driver
      ensures globals == g && timeout == t
      ensures g.Waits() == Change(old(g.Waits()), t) && g.Rest() == old(g.Rest())
      ensures g.driver.implicitWait == t && g.driver.log == old(g.driver.log) + [SetImplicitWait(t)]
      ensures g.driver.Position() == old(g.driver.Position())
    {
      globals := g;
      timeout := t;
      new;
      var _ := g.ChangeImplicitWait(t);
    }

    /**
     * Create(t): the Driver property is read before anything else, so with no
     * driver nothing is saved and InstanceNotFound is raised.
     */
    static method Create(g: Globals, t: nat) returns (r: Result<ImplicitWaitContext>)
      modifies g, g.driver
      ensures old(g.driver) == null ==> r == Err(InstanceNotFound(DriverMissing))
      ensures g.Rest() == old(g.Rest())
      ensures old(g.driver) == null ==> g.Waits() == old(g.Waits())
      ensures old(g.driver) != null ==> r.Ok? && fresh(r.value) && r.value.globals == g && r.value.timeout == t
      ensures old(g.driver) != null ==> g.Waits() == Change(old(g.Waits()), t)
      ensures g.driver != null ==> g.driver.implicitWait == t && g.driver.log == old(g.driver.log) + [SetImplicitWait(t)]
      ensures g.driver != null ==> g.driver.Position() == old(g.driver.Position())
    {
      var drv := g.GetDriver();
      if drv.Err? {
        return Err(drv.error);
      }
      var c := new ImplicitWaitContext(g, t);
      r := Ok(c);
    }

    /**
     * Dispose(): restores one level of the wait stack, after reading the
     * Driver property, which raises when no driver is set.
     */
    method Dispose() returns (r: Outcome)
      modifies globals, globals.driver
      ensures old(globals.driver) == null ==> r == Fail(InstanceNotFound(DriverMissing))
      ensures old(globals.driver) == null ==> globals.Waits() == old(globals.Waits())
      ensures old(globals.driver) != null ==> r == Pass && globals.Waits() == Restore(old(globals.Waits()))
      ensures globals.Rest() == old(globals.Rest())
      ensures globals.driver != null ==> globals.driver.implicitWait == globals.implicitWait
      ensures globals.driver != null ==>
        globals.driver.log == old(globals.driver.log) + [SetImplicitWait(globals.implicitWait)]
      ensures globals.driver != null ==> globals.driver.Position() == old(globals.driver.Position())
    {
      var drv := globals.GetDriver();
      if drv.Err? {
        return Fail(drv.error);
      }
      r := globals.RestoreImplicitWait();
    }
  }
}

/**
 * The process-wide state of the framework (Globals.cs): the implicit-wait
 * value with its stack of saved values, the driver and test configuration
 * of the session, and the registry of navigation triggers. The two wait
 * defaults that BasePage keeps in static properties, and the page
 * configuration singleton it reads, live here too, since they are just as
 * global.
 */
module Globals {
  import opened Wrappers
  import opened Exceptions
  import opened Enums
  import opened Driver
  import opened ElementConfiguration
  import opened ElementLookup

  /** The implicit-wait state: the current value, the saved values (top last) and the default. */
  datatype WaitState = WaitState(current: nat, stack: seq<nat>, default: nat)

  /** ChangeImplicitWait: saves the current value and makes `t` current. */
  function Change(s: WaitState, t: nat): WaitState {
    WaitState(t, s.stack + [s.current], s.default)
  }

  /** RestoreImplicitWait: the most recently saved value, or the default when none is saved. */
  function Restore(s: WaitState): WaitState {
    if |s.stack| > 0 then WaitState(s.stack[|s.stack| - 1], s.stack[..|s.stack| - 1], s.default)
    else WaitState(s.default, s.stack, s.default)
  }

  /** Changes to each of `ts` in turn, as nested scopes do on entry. */
  function ChangeAll(s: WaitState, ts: seq<nat>): (r: WaitState)
    ensures |r.stack| == |s.stack| + |ts| && r.default == s.default
    ensures ts != [] ==> r.current == ts[|ts| - 1]
  {
    if ts == [] then s else Change(ChangeAll(s, ts[..|ts| - 1]), ts[|ts| - 1])
  }

  /** `n` restores in a row, as nested scopes do on exit. */
  function RestoreTimes(s: WaitState, n: nat): WaitState
    decreases n
  {
    if n == 0 then s else RestoreTimes(Restore(s), n - 1)
  }

  /** A restore undoes the change just before it. */
  lemma RestoreUndoesChange(s: WaitState, t: nat)
    ensures Restore(Change(s, t)) == s
  {
    assert (s.stack + [s.current])[..|s.stack|] == s.stack;
  }

  /** Restoring with nothing saved installs the default and leaves the stack empty. */
  lemma RestoreEmptyInstallsDefault(s: WaitState)
    requires s.stack == []
    ensures Restore(s).current == s.default && Restore(s).stack == []
  {
  }

  /**
   * Scopes nested to any depth and closed in reverse order give back the
   * value and the stack that were there before the outermost one.
   */
  lemma {:induction false} NestedScopesRestore(s: WaitState, ts: seq<nat>)
    ensures RestoreTimes(ChangeAll(s, ts), |ts|) == s
    decreases |ts|
  {
    if ts != [] {
      var inner := ts[..|ts| - 1];
      calc {
        RestoreTimes(ChangeAll(s, ts), |ts|);
        RestoreTimes(Restore(Change(ChangeAll(s, inner), ts[|ts| - 1])), |inner|);
        { RestoreUndoesChange(ChangeAll(s, inner), ts[|ts| - 1]); }
        RestoreTimes(ChangeAll(s, inner), |inner|);
        { NestedScopesRestore(s, inner); }
        s;
      }
    }
  }

  /** Two nested changes closed in reverse order restore the value and stack depth. */
  lemma TwoChangesTwoRestores(s: WaitState, v1: nat, v2: nat)
    ensures Restore(Restore(Change(Change(s, v1), v2))) == s
  {
    NestedScopesRestore(s, [v1, v2]);
    assert [v1, v2][..1] == [v1];
    assert [v1][..0] == [];
  }

  /** What a test configuration provides: its entry points, or null when they cannot be read. */
  datatype TestSettings = TestSettings(entryPoints: Option<map<string, string>>)

  const DriverMissing := "Driver was not initialized properly !"
  const ConfigurationMissing := "Test Configuration was not initialized properly !"

  /**
   * The outcome of `TriggerNavigationFor(p)` when the browser shows `snap`:
   * nothing for a kind with no trigger; otherwise a click on the trigger's
   * element, whose stale-element failure is swallowed. A trigger whose
   * element is not found raises NullReference.
   */
  function TriggerOutcome(triggers: map<PageKind, Locator>, p: PageKind, snap: Snapshot): (r: Outcome)
    ensures p !in triggers ==> r == Pass
    ensures r.Fail? ==> r.error != StaleElementReference
    ensures p in triggers && Resolve(triggers[p], snap) == Ok(None) ==> r == Fail(NullReference)
    ensures p in triggers && Resolve(triggers[p], snap).Ok? && Resolve(triggers[p], snap).value.Some? ==>
      (r.Pass? <==> ClickResult(snap, Resolve(triggers[p], snap).value.value) in {Pass, Fail(StaleElementReference)})
  {
    if p !in triggers then Pass
    else
      match Resolve(triggers[p], snap)
      case Err(e) => Fail(e)
      case Ok(None) => Fail(NullReference)
      case Ok(Some(h)) =>
        var c := ClickResult(snap, h);
        if c == Fail(StaleElementReference) then Pass else c
  }

  /** The element a trigger click lands on, if the click goes through. */
  function TriggerClick(triggers: map<PageKind, Locator>, p: PageKind, snap: Snapshot): Option<By> {
    if p !in triggers then None
    else
      match Resolve(triggers[p], snap)
      case Ok(Some(h)) => if ClickResult(snap, h).Pass? then Some(h.locator) else None
      case _ => None
  }

  /** The registry after RegisterTrigger followed by UnregisterTrigger is the old one without `p`. */
  lemma RegisterThenUnregister(m: map<PageKind, Locator>, p: PageKind, e: Locator)
    ensures m[p := e] - {p} == m - {p}
    ensures p !in m ==> m[p := e] - {p} == m
  {
  }

  class Globals {
    var implicitWaitDefault: nat
    var implicitWait: nat
    var timeoutStack: seq<nat>
    var driver: Browser?
    var configuration: Option<TestSettings>
    var triggers: map<PageKind, Locator>
    /** BasePage.DefaultTimeout, in milliseconds. */
    var defaultTimeout: nat
    /** BasePage.DefaultPollingFrequency, in milliseconds. */
    var defaultPollingFrequency: nat
    /** The page entries of the application's configuration section. */
    const pages: seq<PageConfig>

    constructor(pages: seq<PageConfig>)
      ensures this.pages == pages && driver == null && configuration.None?
      ensures implicitWait == 0 && implicitWaitDefault == 0 && timeoutStack == [] && triggers == map[]
      ensures defaultTimeout == 0 && defaultPollingFrequency == 0
    {
      this.pages := pages;
      implicitWaitDefault := 0;
      implicitWait := 0;
      timeoutStack := [];
      driver := null;
      configuration := None;
      triggers := map[];
      defaultTimeout := 0;
      defaultPollingFrequency := 0;
    }

    /** The implicit-wait state as a value. */
    function Waits(): WaitState
      reads this
    {
      WaitState(implicitWait, timeoutStack, implicitWaitDefault)
    }

    /** Everything but the implicit-wait state. */
    function Rest(): (Browser?, Option<TestSettings>, map<PageKind, Locator>, nat, nat)
      reads this
    {
      (driver, configuration, triggers, defaultTimeout, defaultPollingFrequency)
    }

    /** Setup(driver, waitDefault): both the current wait and the default become `waitDefault`. */
    method Setup(drv: Browser, waitDefault: nat)
      modifies this
      ensures driver == drv && implicitWait == waitDefault && implicitWaitDefault == waitDefault
      ensures timeoutStack == old(timeoutStack) && triggers == old(triggers) && configuration == old(configuration)
      ensures defaultTimeout == old(defaultTimeout) && defaultPollingFrequency == old(defaultPollingFrequency)
    {
      implicitWaitDefault := waitDefault;
      implicitWait := waitDefault;
      driver := drv;
    }

    /** Setup(testConfiguration). */
    method SetupConfiguration(settings: TestSettings)
      modifies this
      ensures configuration == Some(settings)
      ensures Waits() == old(Waits()) && driver == old(driver) && triggers == old(triggers)
      ensures defaultTimeout == old(defaultTimeout) && defaultPollingFrequency == old(defaultPollingFrequency)
    {
      configuration := Some(settings);
    }

    /** The Driver property: raises InstanceNotFound until Setup has run. */
    function GetDriver(): (r: Result<Browser>)
      reads this
      ensures r.Ok? <==> driver != null
      ensures r.Ok? ==> r.value == driver
      ensures r.Err? ==> r.error == InstanceNotFound(DriverMissing)
    {
      if driver == null then Err(InstanceNotFound(DriverMissing)) else Ok(driver)
    }

    /** The Configuration property: raises InstanceNotFound until Setup has run. */
    function GetConfiguration(): (r: Result<TestSettings>)
      reads this
      ensures r.Ok? <==> configuration.Some?
      ensures r.Ok? ==> r.value == configuration.value
      ensures r.Err? ==> r.error == InstanceNotFound(ConfigurationMissing)
    {
      if configuration.None? then Err(InstanceNotFound(ConfigurationMissing)) else Ok(configuration.value)
    }

    /**
     * ChangeImplicitWait(t): saves the current value, makes `t` current and
     * installs it on the driver. The driver is fetched after the push, so a
     * missing driver raises with the change already made.
     */
    method ChangeImplicitWait(t: nat) returns (r: Outcome)
      modifies this, driver
      ensures Waits() == Change(old(Waits()), t)
      ensures r.Fail? <==> old(driver) == null
      ensures r.Fail? ==> r.error == InstanceNotFound(DriverMissing)
      ensures driver == old(driver) && triggers == old(triggers) && configuration == old(configuration)
      ensures defaultTimeout == old(defaultTimeout) && defaultPollingFrequency == old(defaultPollingFrequency)
      ensures driver != null ==> driver.implicitWait == t && driver.log == old(driver.log) + [SetImplicitWait(t)]
      ensures driver != null ==> driver.clock == old(driver.clock) && driver.frame == old(driver.frame)
      ensures driver != null ==> driver.currentWindow == old(driver.currentWindow)
    {
      timeoutStack := timeoutStack + [implicitWait];
      implicitWait := t;
      if driver == null {
        return Fail(InstanceNotFound(DriverMissing));
      }
      driver.SetImplicitWait(implicitWait);
      r := Pass;
    }

    /**
     * RestoreImplicitWait(): pops the most recently saved value, or takes the
     * default when nothing is saved, and installs it on the driver.
     */
    method RestoreImplicitWait() returns (r: Outcome)
      modifies this, driver
      ensures Waits() == Restore(old(Waits()))
      ensures r.Fail? <==> old(driver) == null
      ensures r.Fail? ==> r.error == InstanceNotFound(DriverMissing)
      ensures driver == old(driver) && triggers == old(triggers) && configuration == old(configuration)
      ensures defaultTimeout == old(defaultTimeout) && defaultPollingFrequency == old(defaultPollingFrequency)
      ensures driver != null ==> driver.implicitWait == implicitWait
      ensures driver != null ==> driver.log == old(driver.log) + [SetImplicitWait(implicitWait)]
      ensures driver != null ==> driver.clock == old(driver.clock) && driver.frame == old(driver.frame)
      ensures driver != null ==> driver.currentWindow == old(driver.currentWindow)
    {
      var timeToWait: nat;
      if |timeoutStack| > 0 {
        timeToWait := timeoutStack[|timeoutStack| - 1];
        timeoutStack := timeoutStack[..|timeoutStack| - 1];
      } else {
        timeToWait := implicitWaitDefault;
      }
      implicitWait := timeToWait;
      if driver == null {
        return Fail(InstanceNotFound(DriverMissing));
      }
      driver.SetImplicitWait(timeToWait);
      r := Pass;
    }

    /**
     * RegisterTrigger(p, e): reports whether `p` had no trigger, and makes `e`
     * its trigger either way.
     */
    method RegisterTrigger(p: PageKind, e: Locator) returns (newlyAdded: bool)
      modifies this`triggers
      ensures newlyAdded <==> p !in old(triggers)
      ensures triggers == old(triggers)[p := e]
    {
      newlyAdded := p !in triggers;
      triggers := triggers[p := e];
    }

    /** UnregisterTrigger(p): drops the trigger of `p`, if any; the others stay. */
    method UnregisterTrigger(p: PageKind)
      modifies this`triggers
      ensures p !in triggers
      ensures triggers == old(triggers) - {p}
    {
      if p in triggers {
        triggers := triggers - {p};
      }
    }

    /**
     * TriggerNavigationFor(p): clicks the element registered for `p` on the
     * browser `drv` that shows it; a stale element is ignored.
     */
    method TriggerNavigationFor(p: PageKind, drv: Browser) returns (r: Outcome)
      modifies drv
      ensures r == TriggerOutcome(triggers, p, old(drv.Now()))
      ensures r.Fail? ==> drv.log == old(drv.log)
      ensures var c := TriggerClick(triggers, p, old(drv.Now()));
        drv.log == old(drv.log) + (if c.Some? then [Click(c.value)] else [])
      ensures drv.clock == old(drv.clock) && drv.implicitWait == old(drv.implicitWait)
      ensures drv.currentWindow == old(drv.currentWindow) && drv.frame == old(drv.frame)
    {
      if p !in triggers {
        return Pass;
      }
      var element := Resolve(triggers[p], drv.Now());
      if element.Err? {
        return Fail(element.error);
      }
      if element.value.None? {
        return Fail(NullReference);
      }
      var clicked := drv.ClickOn(element.value.value);
      if clicked == Fail(StaleElementReference) {
        return Pass;
      }
      r := clicked;
    }
  }
}

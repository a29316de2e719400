/**
 * The fluent wait builder (WaitHelper.cs) and the polling of Selenium's
 * WebDriverWait that its `Wait` runs: check the condition, succeed on
 * `true`, let through any exception other than the NotFound kinds, give up
 * with WebDriverTimeout once the deadline is reached, otherwise sleep for
 * the polling interval and check again.
 */
module WaitHelper {
  import opened Wrappers
  import opened Exceptions
  import opened Driver
  import opened ElementLookup
  import opened Globals
  import C = Conditions
  import Text

  datatype WaitType =
    | ElementExists
    | ElementNotExist
    | ElementIsVisible
    | ElementIsNotVisible
    | TitleContains
    | TitleIs
    | ElementIsEnabled
    | ElementIsNotStale
    | TextNotPresent
    | TextPresent
    | ElementIsNotEnabled
    | ElementIsVisibleAndEnabled

  /** What one poll checks: an element condition, or the page title. */
  datatype Probe =
    | ElementProbe(condition: C.Condition, target: Locator)
    | TitleIsProbe(title: Option<string>)
    | TitleContainsProbe(part: Option<string>)

  /**
   * The value of one poll on the page `snap`. The title conditions read the
   * title first (a failed read raises WebDriverFailure); TitleIs compares for
   * equality, so a null title never matches; TitleContains is an ordinal,
   * case-sensitive substring test that raises ArgumentNull for a null part.
   */
  function ProbeValue(p: Probe, driverSet: bool, snap: Snapshot): Result<bool> {
    match p
    case ElementProbe(c, target) => C.Check(c, driverSet, target, snap)
    case TitleIsProbe(t) =>
      if snap.title.None? then Err(WebDriverFailure) else Ok(t == snap.title)
    case TitleContainsProbe(t) =>
      if snap.title.None? then Err(WebDriverFailure)
      else if t.None? then Err(ArgumentNull)
      else Ok(Text.Contains(snap.title.value, t.value))
  }

  /**
   * WebDriverWait.Until from instant `t` with deadline `end`: the outcome of
   * polling `p` every `step` milliseconds. It fails only with the timeout or
   * with an exception that is not ignored.
   */
  function Poll(world: nat -> Snapshot, p: Probe, driverSet: bool, t: nat, end: nat, step: nat, message: Option<string>): (r: Outcome)
    requires step >= 1
    ensures r.Fail? ==> r.error == WebDriverTimeout(message) || !r.error.IsNotFound()
    ensures ProbeValue(p, driverSet, world(t)) == Ok(true) ==> r == Pass
    decreases if t < end then end - t else 0
  {
    var v := ProbeValue(p, driverSet, world(t));
    if v == Ok(true) then Pass
    else if v.Err? && !v.error.IsNotFound() then Fail(v.error)
    else if t >= end then Fail(WebDriverTimeout(message))
    else Poll(world, p, driverSet, t + step, end, step, message)
  }

  /** A wait that succeeds has seen its condition hold at some instant it polled, no earlier than its start. */
  lemma {:induction false} PassMeansObserved(world: nat -> Snapshot, p: Probe, ds: bool, t: nat, end: nat, step: nat, m: Option<string>)
    requires step >= 1
    requires Poll(world, p, ds, t, end, step, m) == Pass
    ensures exists u: nat :: t <= u && ProbeValue(p, ds, world(u)) == Ok(true)
    decreases if t < end then end - t else 0
  {
    if ProbeValue(p, ds, world(t)) != Ok(true) {
      PassMeansObserved(world, p, ds, t + step, end, step, m);
    }
  }

  /**
   * A wait succeeds when its condition holds for good from some instant `u`
   * no later than the deadline, and until then every poll is false or raises
   * only an ignored exception.
   */
  lemma {:induction false} StableConditionPasses(world: nat -> Snapshot, p: Probe, ds: bool, t: nat, end: nat, step: nat, m: Option<string>, u: nat)
    requires step >= 1 && u <= end
    requires forall s: nat :: u <= s ==> ProbeValue(p, ds, world(s)) == Ok(true)
    requires forall s: nat :: t <= s < u ==>
      ProbeValue(p, ds, world(s)).Ok? || ProbeValue(p, ds, world(s)).error.IsNotFound()
    ensures Poll(world, p, ds, t, end, step, m) == Pass
    decreases if t < u then u - t else 0
  {
    var v := ProbeValue(p, ds, world(t));
    if t < u {
      assert v.Ok? || v.error.IsNotFound();
      StableConditionPasses(world, p, ds, t + step, end, step, m, u);
    } else {
      assert v == Ok(true);
    }
  }

  /** A wait whose condition stays false from its start on ends with the timeout. */
  lemma {:induction false} FalseConditionTimesOut(world: nat -> Snapshot, p: Probe, ds: bool, t: nat, end: nat, step: nat, m: Option<string>)
    requires step >= 1
    requires forall s: nat :: t <= s ==> ProbeValue(p, ds, world(s)) == Ok(false)
    ensures Poll(world, p, ds, t, end, step, m) == Fail(WebDriverTimeout(m))
    decreases if t < end then end - t else 0
  {
    if t < end {
      FalseConditionTimesOut(world, p, ds, t + step, end, step, m);
    }
  }

  /** The timeout message: the caller's, unless it is null or blank. */
  function TimeoutMessage(m: Option<string>): (r: Option<string>)
    ensures r.Some? <==> !Text.IsNullOrWhiteSpace(m)
    ensures r.Some? ==> r == m
  {
    if Text.IsNullOrWhiteSpace(m) then None else m
  }

  /** The polling interval as a number of clock ticks: a zero interval still lets one millisecond pass. */
  function Step(polling: nat): (s: nat)
    ensures s >= 1 && (polling > 0 ==> s == polling)
  {
    if polling == 0 then 1 else polling
  }

  /**
   * The element condition `Wait` polls for a wait type. BecomesDisabled's
   * type waits for the element to be enabled; the title types have none.
   */
  function ConditionFor(w: WaitType, text: Option<string>): (r: Option<C.Condition>)
    ensures r.None? <==> w == TitleIs || w == TitleContains
  {
    match w
    case ElementIsVisible => Some(C.ElementIsVisible)
    case ElementIsNotVisible => Some(C.ElementIsNotVisible)
    case ElementIsEnabled => Some(C.ElementIsEnabled)
    case ElementIsNotEnabled => Some(C.ElementIsEnabled)
    case ElementIsNotStale => Some(C.IsNotStale)
    case ElementExists => Some(C.ElementExists)
    case ElementNotExist => Some(C.ElementNotExists)
    case TextNotPresent => Some(C.TextNotPresent(text))
    case TextPresent => Some(C.TextPresent(text))
    case ElementIsVisibleAndEnabled => Some(C.IsVisibleAndEnabled)
    case TitleIs => None
    case TitleContains => None
  }

  /** The title condition `Wait` polls for a wait type; the element types have none. */
  function TitleProbeFor(w: WaitType, title: Option<string>): (r: Option<Probe>)
    ensures r.Some? <==> w == TitleIs || w == TitleContains
    ensures r.Some? ==> !r.value.ElementProbe?
  {
    match w
    case TitleIs => Some(TitleIsProbe(title))
    case TitleContains => Some(TitleContainsProbe(title))
    case _ => None
  }

  /** BecomesDisabled waits for the same thing as BecomesEnabled, and the two negative conditions are not used. */
  lemma DisabledWaitsForEnabled(text: Option<string>)
    ensures ConditionFor(ElementIsNotEnabled, text) == ConditionFor(ElementIsEnabled, text) == Some(C.ElementIsEnabled)
    ensures forall w: WaitType :: ConditionFor(w, text) != Some(C.ElementIsNotEnabled)
  {
  }

  /** One poll: the probe's value on the page as it is now, with the wait state left as it was. */
  method RunProbe(g: Globals, drv: Browser, p: Probe) returns (v: Result<bool>)
    requires g.driver == null || g.driver == drv
    modifies g, drv
    ensures v == ProbeValue(p, old(g.driver) != null, old(drv.Now()))
    ensures g.Waits() == old(g.Waits()) && g.Rest() == old(g.Rest())
    ensures drv.Position() == old(drv.Position())
    ensures p.ElementProbe? && g.driver != null ==> drv.implicitWait == g.implicitWait
    ensures !p.ElementProbe? || g.driver == null ==> drv.implicitWait == old(drv.implicitWait)
    ensures old(drv.log) <= drv.log
    ensures !p.ElementProbe? ==> drv.log == old(drv.log)
  {
    match p
    case ElementProbe(c, target) =>
      v := C.Evaluate(c, g, target, drv);
    case _ =>
      v := ProbeValue(p, g.driver != null, drv.Now());
  }

  /**
   * WebDriverWait(timeout).Until(p) with the given polling interval: the
   * outcome Poll predicts from the instant the wait starts.
   */
  method PollUntil(g: Globals, drv: Browser, p: Probe, timeout: nat, step: nat, message: Option<string>) returns (r: Outcome)
    requires step >= 1
    requires g.driver == null || g.driver == drv
    modifies g, drv
    ensures r == Poll(drv.world, p, old(g.driver) != null, old(drv.clock), old(drv.clock) + timeout, step, message)
    ensures g.Waits() == old(g.Waits()) && g.Rest() == old(g.Rest())
    ensures drv.clock >= old(drv.clock) && drv.currentWindow == old(drv.currentWindow) && drv.frame == old(drv.frame)
    ensures p.ElementProbe? && g.driver != null ==> drv.implicitWait == g.implicitWait
    ensures !p.ElementProbe? || g.driver == null ==> drv.implicitWait == old(drv.implicitWait)
    ensures old(drv.log) <= drv.log
    ensures ProbeValue(p, old(g.driver) != null, old(drv.Now())) == Ok(true) ==> drv.clock == old(drv.clock)
    ensures !p.ElementProbe? ==> forall i | |old(drv.log)| <= i < |drv.log| :: drv.log[i].Sleep?
  {
    ghost var ds := g.driver != null;
    var start := drv.clock;
    var end := start + timeout;
    while true
      invariant g.driver == old(g.driver) && g.Waits() == old(g.Waits()) && g.Rest() == old(g.Rest())
      invariant drv.clock >= start && drv.currentWindow == old(drv.currentWindow) && drv.frame == old(drv.frame)
      invariant Poll(drv.world, p, ds, drv.clock, end, step, message) == Poll(drv.world, p, ds, start, end, step, message)
      invariant p.ElementProbe? && g.driver != null && drv.clock > start ==> drv.implicitWait == g.implicitWait
      invariant !p.ElementProbe? || g.driver == null ==> drv.implicitWait == old(drv.implicitWait)
      invariant old(drv.log) <= drv.log
      invariant ProbeValue(p, ds, drv.world(start)) == Ok(true) ==> drv.clock == start
      invariant !p.ElementProbe? ==> forall i | |old(drv.log)| <= i < |drv.log| :: drv.log[i].Sleep?
      decreases if drv.clock < end then end - drv.clock else 0
    {
      var done;
      done, r := PollStep(g, drv, p, end, step, message);
      if done {
        return;
      }
    }
  }

  /**
   * One poll of the wait: the probe is run; a true value, an exception
   * other than NotFound or the end of the time ends the wait, otherwise the
   * wait sleeps for the polling interval.
   */
  method PollStep(g: Globals, drv: Browser, p: Probe, end: nat, step: nat, message: Option<string>)
    returns (done: bool, r: Outcome)
    requires step >= 1
    requires g.driver == null || g.driver == drv
    modifies g, drv
    ensures done ==> r == Poll(drv.world, p, old(g.driver) != null, old(drv.clock), end, step, message)
    ensures done ==> drv.clock == old(drv.clock)
    ensures !done ==> old(drv.clock) < end && drv.clock == old(drv.clock) + step
    ensures !done ==>
      Poll(drv.world, p, old(g.driver) != null, old(drv.clock), end, step, message)
      == Poll(drv.world, p, old(g.driver) != null, drv.clock, end, step, message)
    ensures ProbeValue(p, old(g.driver) != null, old(drv.Now())) == Ok(true) ==> done
    ensures g.Waits() == old(g.Waits()) && g.Rest() == old(g.Rest())
    ensures drv.currentWindow == old(drv.currentWindow) && drv.frame == old(drv.frame)
    ensures p.ElementProbe? && g.driver != null ==> drv.implicitWait == g.implicitWait
    ensures !p.ElementProbe? || g.driver == null ==> drv.implicitWait == old(drv.implicitWait)
    ensures old(drv.log) <= drv.log
    ensures !p.ElementProbe? ==> forall i | |old(drv.log)| <= i < |drv.log| :: drv.log[i].Sleep?
  {
    var v := RunProbe(g, drv, p);
    if v == Ok(true) {
      done, r := true, Pass;
    } else if v.Err? && !v.error.IsNotFound() {
      done, r := true, Fail(v.error);
    } else if drv.clock >= end {
      done, r := true, Fail(WebDriverTimeout(message));
    } else {
      drv.Sleep(step);
      done, r := false, Pass;
    }
  }

  /**
   * A wait builder: WaitElementHelper when `element` is set, WaitTitleHelper
   * otherwise. The setters return the builder itself.
   */
  class WaitHelper {
    /** The element an element helper waits on. */
    const element: Option<Locator>
    /** The element's page driver, or the driver the title helper was given. */
    const driver: Browser
    var waitType: WaitType
    var timeout: Option<nat>
    var pollingFrequency: Option<nat>
    var textToWait: Option<string>
    var title: Option<string>

    /** `Until.Element(webElement)`. */
    constructor ForElement(target: Locator, drv: Browser)
      ensures element == Some(target) && driver == drv && waitType == ElementExists
      ensures timeout.None? && pollingFrequency.None? && textToWait.None? && title.None?
    {
      element := Some(target);
      driver := drv;
      waitType := ElementExists;
      timeout := None;
      pollingFrequency := None;
      textToWait := None;
      title := None;
    }

    /** The WaitTitleHelper constructor. */
    constructor ForTitle(drv: Browser)
      ensures element == None && driver == drv && waitType == ElementExists
      ensures timeout.None? && pollingFrequency.None? && textToWait.None? && title.None?
    {
      element := None;
      driver := drv;
      waitType := ElementExists;
      timeout := None;
      pollingFrequency := None;
      textToWait := None;
      title := None;
    }

    predicate IsElement() {
      element.Some?
    }

    /** The builder's settings other than its wait type. */
    function Settings(): (Option<nat>, Option<nat>, Option<string>, Option<string>)
      reads this
    {
      (timeout, pollingFrequency, textToWait, title)
    }

    /** The element setters: each sets the wait type and nothing else. */
    method SetWaitType(w: WaitType) returns (h: WaitHelper)
      modifies this
      ensures h == this && waitType == w && Settings() == old(Settings())
    {
      waitType := w;
      h := this;
    }

    method BecomesVisible() returns (h: WaitHelper)
      modifies this
      ensures h == this && waitType == ElementIsVisible && Settings() == old(Settings())
    {
      h := SetWaitType(ElementIsVisible);
    }

    method BecomesNotVisible() returns (h: WaitHelper)
      modifies this
      ensures h == this && waitType == ElementIsNotVisible && Settings() == old(Settings())
    {
      h := SetWaitType(ElementIsNotVisible);
    }

    method Exists() returns (h: WaitHelper)
      modifies this
      ensures h == this && waitType == ElementExists && Settings() == old(Settings())
    {
      h := SetWaitType(ElementExists);
    }

    method DoesNotExist() returns (h: WaitHelper)
      modifies this
      ensures h == this && waitType == ElementNotExist && Settings() == old(Settings())
    {
      h := SetWaitType(ElementNotExist);
    }

    method BecomesEnabled() returns (h: WaitHelper)
      modifies this
      ensures h == this && waitType == ElementIsEnabled && Settings() == old(Settings())
    {
      h := SetWaitType(ElementIsEnabled);
    }

    method BecomesDisabled() returns (h: WaitHelper)
      modifies this
      ensures h == this && waitType == ElementIsNotEnabled && Settings() == old(Settings())
    {
      h := SetWaitType(ElementIsNotEnabled);
    }

    method IsNotStale() returns (h: WaitHelper)
      modifies this
      ensures h == this && waitType == ElementIsNotStale && Settings() == old(Settings())
    {
      h := SetWaitType(ElementIsNotStale);
    }

    method BecomesVisibleAndEnabled() returns (h: WaitHelper)
      modifies this
      ensures h == this && waitType == ElementIsVisibleAndEnabled && Settings() == old(Settings())
    {
      h := SetWaitType(ElementIsVisibleAndEnabled);
    }

    /** DoesNotContain(text): the wait type and the text to wait for. */
    method DoesNotContain(text: Option<string>) returns (h: WaitHelper)
      modifies this
      ensures h == this && waitType == TextNotPresent && textToWait == text
      ensures timeout == old(timeout) && pollingFrequency == old(pollingFrequency) && title == old(title)
    {
      waitType := TextNotPresent;
      textToWait := text;
      h := this;
    }

    /** DoesContain(text): the wait type and the text to wait for. */
    method DoesContain(text: Option<string>) returns (h: WaitHelper)
      modifies this
      ensures h == this && waitType == TextPresent && textToWait == text
      ensures timeout == old(timeout) && pollingFrequency == old(pollingFrequency) && title == old(title)
    {
      waitType := TextPresent;
      textToWait := text;
      h := this;
    }

    /** Is(title): the title must equal `t`. */
    method Is(t: Option<string>) returns (h: WaitHelper)
      modifies this
      ensures h == this && waitType == TitleIs && title == t
      ensures timeout == old(timeout) && pollingFrequency == old(pollingFrequency) && textToWait == old(textToWait)
    {
      waitType := TitleIs;
      title := t;
      h := this;
    }

    /** Contains(titlePart): the title must contain `t`. */
    method Contains(t: Option<string>) returns (h: WaitHelper)
      modifies this
      ensures h == this && waitType == TitleContains && title == t
      ensures timeout == old(timeout) && pollingFrequency == old(pollingFrequency) && textToWait == old(textToWait)
    {
      waitType := TitleContains;
      title := t;
      h := this;
    }

    /** ForNoMoreThan(d): the timeout. */
    method ForNoMoreThan(d: nat) returns (h: WaitHelper)
      modifies this
      ensures h == this && timeout == Some(d) && waitType == old(waitType)
      ensures pollingFrequency == old(pollingFrequency) && textToWait == old(textToWait) && title == old(title)
    {
      timeout := Some(d);
      h := this;
    }

    /** WithPollingFrequency(d): sets the timeout, not the polling interval. */
    method WithPollingFrequency(d: nat) returns (h: WaitHelper)
      modifies this
      ensures h == this && timeout == Some(d) && waitType == old(waitType)
      ensures pollingFrequency == old(pollingFrequency) && textToWait == old(textToWait) && title == old(title)
    {
      timeout := Some(d);
      h := this;
    }

    /** The probe `Wait` polls, if any. */
    function ProbeOf(): (r: Option<Probe>)
      reads this
      ensures element.Some? ==> (r.Some? <==> waitType != TitleIs && waitType != TitleContains)
      ensures element.None? ==> (r.Some? <==> waitType == TitleIs || waitType == TitleContains)
    {
      if element.Some? then
        match ConditionFor(waitType, textToWait)
        case Some(c) => Some(ElementProbe(c, element.value))
        case None => None
      else TitleProbeFor(waitType, title)
    }

    /**
     * The timeout `Wait` uses: the one set, else the current implicit wait
     * for an element and the default timeout for a title.
     */
    function EffectiveTimeout(g: Globals): (t: nat)
      reads this, g
      ensures timeout.Some? ==> t == timeout.value
      ensures timeout.None? && element.Some? ==> t == g.implicitWait
      ensures timeout.None? && element.None? ==> t == g.defaultTimeout
    {
      if timeout.Some? then timeout.value
      else if element.Some? then g.implicitWait
      else g.defaultTimeout
    }

    /** The polling interval `Wait` uses: the one set, else the default polling frequency. */
    function EffectivePolling(g: Globals): (p: nat)
      reads this, g
      ensures pollingFrequency.Some? ==> p == pollingFrequency.value
      ensures pollingFrequency.None? ==> p == g.defaultPollingFrequency
    {
      pollingFrequency.GetOr(g.defaultPollingFrequency)
    }

    /**
     * Wait(timeoutMessage): polls the condition of the wait type with the
     * effective timeout and polling interval. A title wait reads the title
     * before and after polling, and either read can fail. With no condition
     * for the wait type it returns at once.
     */
    method Wait(timeoutMessage: Option<string>, g: Globals) returns (r: Outcome)
      requires g.driver == null || g.driver == driver
      modifies g, driver
      ensures ProbeOf().None? ==> r == Pass && driver.clock == old(driver.clock)
      ensures ProbeOf().Some? && element.Some? ==>
        r == Poll(driver.world, ProbeOf().value, old(g.driver) != null, old(driver.clock),
                  old(driver.clock) + old(EffectiveTimeout(g)), Step(old(EffectivePolling(g))),
                  TimeoutMessage(timeoutMessage))
      ensures ProbeOf().Some? && element.None? ==>
        var poll := Poll(driver.world, ProbeOf().value, old(g.driver) != null, old(driver.clock),
                         old(driver.clock) + old(EffectiveTimeout(g)), Step(old(EffectivePolling(g))),
                         TimeoutMessage(timeoutMessage));
          r == if old(driver.Now()).title.None? then Fail(WebDriverFailure)
               else if poll.Fail? then poll
               else if driver.Now().title.None? then Fail(WebDriverFailure)
               else Pass
      ensures g.Waits() == old(g.Waits()) && g.Rest() == old(g.Rest())
      ensures driver.clock >= old(driver.clock)
      ensures driver.currentWindow == old(driver.currentWindow) && driver.frame == old(driver.frame)
      ensures old(driver.log) <= driver.log
      ensures element.None? ==> forall i | |old(driver.log)| <= i < |driver.log| :: driver.log[i].Sleep?
      ensures element.None? || ProbeOf().None? || g.driver == null ==> driver.implicitWait == old(driver.implicitWait)
      ensures element.Some? && ProbeOf().Some? && g.driver != null ==> driver.implicitWait == g.implicitWait
    {
      var probe := ProbeOf();
      if probe.None? {
        return Pass;
      }
      var timeoutValue := EffectiveTimeout(g);
      var step := Step(EffectivePolling(g));
      var message := TimeoutMessage(timeoutMessage);
      if element.Some? {
        r := PollUntil(g, driver, probe.value, timeoutValue, step, message);
      } else {
        r := PollTitle(g, driver, probe.value, timeoutValue, step, message);
      }
    }
  }

  /**
   * The title helper's wait: the title is read for the log before and
   * after polling, and reading a missing title fails.
   */
  method PollTitle(g: Globals, drv: Browser, p: Probe, timeout: nat, step: nat, message: Option<string>) returns (r: Outcome)
    requires step >= 1 && !p.ElementProbe?
    requires g.driver == null || g.driver == drv
    modifies g, drv
    ensures var poll := Poll(drv.world, p, old(g.driver) != null, old(drv.clock), old(drv.clock) + timeout, step, message);
      r == if old(drv.Now()).title.None? then Fail(WebDriverFailure)
           else if poll.Fail? then poll
           else if drv.Now().title.None? then Fail(WebDriverFailure)
           else Pass
    ensures g.Waits() == old(g.Waits()) && g.Rest() == old(g.Rest())
    ensures drv.clock >= old(drv.clock) && drv.implicitWait == old(drv.implicitWait)
    ensures drv.currentWindow == old(drv.currentWindow) && drv.frame == old(drv.frame)
    ensures old(drv.log) <= drv.log
    ensures forall i | |old(drv.log)| <= i < |drv.log| :: drv.log[i].Sleep?
  {
    if drv.Now().title.None? {
      return Fail(WebDriverFailure);
    }
    r := PollUntil(g, drv, p, timeout, step, message);
    if r.Pass? && drv.Now().title.None? {
      r := Fail(WebDriverFailure);
    }
  }

  /** `Until.Element(webElement)`: an element helper waiting, by default, for existence. */
  method UntilElement(target: Locator, drv: Browser) returns (h: WaitHelper)
    ensures fresh(h) && h.element == Some(target) && h.driver == drv && h.waitType == ElementExists
    ensures h.timeout.None? && h.pollingFrequency.None? && h.textToWait.None? && h.title.None?
  {
    h := new WaitHelper.ForElement(target, drv);
  }

  /** `Until.Title`: a title helper on the global driver, which raises InstanceNotFound when unset. */
  method UntilTitle(g: Globals) returns (r: Result<WaitHelper>)
    ensures g.driver == null ==> r == Err(InstanceNotFound(DriverMissing))
    ensures g.driver != null ==> r.Ok? && fresh(r.value) && r.value.element.None? && r.value.driver == g.driver
    ensures r.Ok? ==> r.value.waitType == ElementExists && r.value.timeout.None? && r.value.pollingFrequency.None?
    ensures r.Ok? ==> r.value.textToWait.None? && r.value.title.None?
  {
    var drv :- g.GetDriver();
    var h := new WaitHelper.ForTitle(drv);
    r := Ok(h);
  }
}

/**
 * The elements of a page object (WebElement.cs, LinkWebElement.cs) and the
 * helpers on them (WebElementExtensions.cs).
 *
 * A WebElement never holds on to a DOM node: every read resolves its
 * identifier again through its parent page's table, on the page the browser
 * shows at that instant. Its actions wait for the element as the source
 * does, through `Until.Element(this)` helpers with the global defaults.
 * Navigation from one page object to the next goes through the trigger
 * registry of Globals and the reflective `Page.CreateInstance`.
 */
module Elements {
  import opened Wrappers
  import opened Exceptions
  import opened Enums
  import opened Driver
  import opened ElementConfiguration
  import opened ElementLookup
  import opened Globals
  import opened Pages
  import W = WaitHelper
  import C = Conditions
  import Text

  /** What reading a property of the element `found` gives: null raises NullReference. */
  function ReadState(found: Result<Option<ElementHandle>>, snap: Snapshot): (r: Result<ElementObs>)
    ensures found == Ok(None) ==> r == Err(NullReference)
    ensures found.Err? ==> r == Err(found.error)
    ensures r.Ok? ==> found.Ok? && found.value.Some? && Observe(snap, found.value.value) == r
  {
    match found
    case Err(e) => Err(e)
    case Ok(None) => Err(NullReference)
    case Ok(Some(h)) => Observe(snap, h)
  }

  /**
   * The locator the page's table gives an element name: the entry's query
   * with no arguments, when the table holds the name and the entry formats.
   */
  function Selector(loc: Locator): (r: Option<By>)
    ensures r.Some? ==> Key(loc.identifier) in loc.table
  {
    if Key(loc.identifier) !in loc.table then None
    else
      match ElementConfiguration.FindElement(loc.table[Key(loc.identifier)], [])
      case Ok(q) => Some(ToBy(q))
      case Err(_) => None
  }

  /** Whatever the instant, a found element is found by the selector of its name, and only there. */
  lemma ResolvedBySelector(loc: Locator, snap: Snapshot)
    ensures Resolve(loc, snap).Ok? && Resolve(loc, snap).value.Some? ==>
      Selector(loc) == Some(Resolve(loc, snap).value.value.locator)
    ensures Selector(loc).Some? ==>
      (Resolve(loc, snap) == Ok(None) <==> Selector(loc).value !in snap.elements)
  {
  }

  /**
   * At `snap` the element `loc` is found, displayed, enabled and does not
   * carry `disabled="true"`: what the visible-and-enabled wait waits for.
   */
  ghost predicate ReadyAt(loc: Locator, snap: Snapshot) {
    var found := Resolve(loc, snap);
    found.Ok? && found.value.Some?
    && Observe(snap, found.value.value).Ok?
    && Observe(snap, found.value.value).value.displayed
    && C.EffectivelyEnabled(Observe(snap, found.value.value).value)
  }

  /** The visible-and-enabled condition holds exactly when the element is ready. */
  lemma VisibleAndEnabledMeansReady(loc: Locator, snap: Snapshot)
    ensures C.Check(C.IsVisibleAndEnabled, true, loc, snap) == Ok(true) <==> ReadyAt(loc, snap)
  {
    var found := Resolve(loc, snap);
    if found.Ok? {
      C.VisibleAndEnabledExactly(found.value, snap, loc.identifier);
    }
  }

  class WebElement {
    const identifier: string
    const parentPage: Page
    /** The page object a click on this element leads to, if any (NextPage). */
    const nextPage: Option<PageClass>
    const nextPageContainerType: Option<ContainerType>
    const parentContainer: ContainerElement?

    constructor(identifier: string, parentPage: Page, nextPage: Option<PageClass>,
                containerType: Option<ContainerType>, parentContainer: ContainerElement?)
      ensures this.identifier == identifier && this.parentPage == parentPage && this.nextPage == nextPage
      ensures nextPageContainerType == containerType && this.parentContainer == parentContainer
    {
      this.identifier := identifier;
      this.parentPage := parentPage;
      this.nextPage := nextPage;
      nextPageContainerType := containerType;
      this.parentContainer := parentContainer;
    }

    /** The parent page's chain is finite, and so is the container's page chain. */
    ghost predicate Valid() {
      parentPage.Chained() && (parentContainer != null ==> parentContainer.Valid())
    }

    /** What the element resolves through: its identifier in the parent page's table. */
    function Target(): Locator
      reads parentPage
    {
      parentPage.Locate(identifier)
    }

    /**
     * Element: the parent page's Find of the identifier on the page shown
     * now, looked up again on every read; null for a name the page does
     * not configure.
     */
    function Element(): (r: Result<Option<ElementHandle>>)
      reads parentPage, parentPage.driver
      ensures r == Find(parentPage.queries, identifier, [], parentPage.driver.Now())
      ensures Key(identifier) !in parentPage.queries ==> r == Ok(None)
    {
      Resolve(Target(), parentPage.driver.Now())
    }

    /** Exists: the element resolves to a node. */
    function Exists(): (r: Result<bool>)
      reads parentPage, parentPage.driver
      ensures r.Ok? <==> Element().Ok?
      ensures r.Ok? ==> (r.value <==> Element().value.Some?)
      ensures Key(identifier) !in parentPage.queries ==> r == Ok(false)
    {
      match Element()
      case Err(e) => Err(e)
      case Ok(found) => Ok(found.Some?)
    }

    /** Displayed: the node's Displayed; reading it on null raises NullReference. */
    function Displayed(): (r: Result<bool>)
      reads parentPage, parentPage.driver
      ensures Element() == Ok(None) ==> r == Err(NullReference)
      ensures r.Ok? <==> ReadState(Element(), parentPage.driver.Now()).Ok?
      ensures r.Ok? ==> r.value == ReadState(Element(), parentPage.driver.Now()).value.displayed
    {
      match ReadState(Element(), parentPage.driver.Now())
      case Err(e) => Err(e)
      case Ok(o) => Ok(o.displayed)
    }

    /** Enabled: the node's Enabled, with no regard for a `disabled` attribute. */
    function Enabled(): (r: Result<bool>)
      reads parentPage, parentPage.driver
      ensures Element() == Ok(None) ==> r == Err(NullReference)
      ensures r.Ok? <==> ReadState(Element(), parentPage.driver.Now()).Ok?
      ensures r.Ok? ==> r.value == ReadState(Element(), parentPage.driver.Now()).value.enabled
    {
      match ReadState(Element(), parentPage.driver.Now())
      case Err(e) => Err(e)
      case Ok(o) => Ok(o.enabled)
    }

    /** ReadOnly: the `disabled` or the `readOnly` attribute is present and not empty. */
    function ReadOnly(): (r: Result<bool>)
      reads parentPage, parentPage.driver
      ensures Element() == Ok(None) ==> r == Err(NullReference)
      ensures r.Ok? <==> ReadState(Element(), parentPage.driver.Now()).Ok?
      ensures r.Ok? ==>
        var o := ReadState(Element(), parentPage.driver.Now()).value;
        (r.value <==> (o.Attribute("disabled").Some? && o.Attribute("disabled").value != "")
                      || (o.Attribute("readOnly").Some? && o.Attribute("readOnly").value != ""))
    {
      match ReadState(Element(), parentPage.driver.Now())
      case Err(e) => Err(e)
      case Ok(o) => Ok(!Text.IsNullOrEmpty(o.Attribute("disabled")) || !Text.IsNullOrEmpty(o.Attribute("readOnly")))
    }

    /**
     * The outcome of `Until.Element(this)` waiting for condition `c` from
     * now, with the current implicit wait as timeout and the default
     * polling frequency.
     */
    ghost function WaitOutcome(c: C.Condition, g: Globals): Outcome
      reads parentPage, parentPage.driver, g
    {
      W.Poll(parentPage.driver.world, W.ElementProbe(c, Target()), g.driver != null,
             parentPage.driver.clock, parentPage.driver.clock + g.implicitWait,
             W.Step(g.defaultPollingFrequency), W.TimeoutMessage(None))
    }

    /** Until.Element(this) with condition `c`, waited with no custom message. */
    method WaitFor(g: Globals, c: C.Condition) returns (r: Outcome)
      requires g.driver == null || g.driver == parentPage.driver
      requires c in {C.ElementIsVisible, C.ElementIsEnabled, C.IsNotStale, C.IsVisibleAndEnabled}
      modifies g, parentPage.driver
      ensures r == old(WaitOutcome(c, g))
      ensures g.Waits() == old(g.Waits()) && g.Rest() == old(g.Rest())
      ensures parentPage.driver.clock >= old(parentPage.driver.clock) && old(parentPage.driver.log) <= parentPage.driver.log
      ensures parentPage.driver.currentWindow == old(parentPage.driver.currentWindow)
      ensures parentPage.driver.frame == old(parentPage.driver.frame)
    {
      var h := Until(c);
      r := h.Wait(None, g);
    }

    /** `Until.Element(this)` set to wait for condition `c`, with no timeout or polling of its own. */
    method Until(c: C.Condition) returns (h: W.WaitHelper)
      requires c in {C.ElementIsVisible, C.ElementIsEnabled, C.IsNotStale, C.IsVisibleAndEnabled}
      ensures fresh(h) && h.element == Some(Target()) && h.driver == parentPage.driver
      ensures h.ProbeOf() == Some(W.ElementProbe(c, Target()))
      ensures h.timeout.None? && h.pollingFrequency.None?
    {
      h := W.UntilElement(Target(), parentPage.driver);
      if c == C.ElementIsVisible {
        h := h.BecomesVisible();
      } else if c == C.ElementIsEnabled {
        h := h.BecomesEnabled();
      } else if c == C.IsNotStale {
        h := h.IsNotStale();
      } else {
        h := h.BecomesVisibleAndEnabled();
      }
    }

    /**
     * WaitForElementVisibleAndEnabled: waits with the global defaults until
     * the element is found, displayed and enabled; when the wait passes the
     * element was ready at some instant of it.
     */
    method WaitForElementVisibleAndEnabled(g: Globals) returns (r: Outcome)
      requires g.driver == null || g.driver == parentPage.driver
      modifies g, parentPage.driver
      ensures r == old(WaitOutcome(C.IsVisibleAndEnabled, g))
      ensures r.Pass? ==> exists u: nat :: old(parentPage.driver.clock) <= u && ReadyAt(Target(), parentPage.driver.world(u))
      ensures g.Waits() == old(g.Waits()) && g.Rest() == old(g.Rest())
      ensures parentPage.driver.clock >= old(parentPage.driver.clock) && old(parentPage.driver.log) <= parentPage.driver.log
      ensures parentPage.driver.currentWindow == old(parentPage.driver.currentWindow)
      ensures parentPage.driver.frame == old(parentPage.driver.frame)
    {
      ghost var ds := g.driver != null;
      ghost var start := parentPage.driver.clock;
      r := WaitFor(g, C.IsVisibleAndEnabled);
      if r.Pass? {
        var probe := W.ElementProbe(C.IsVisibleAndEnabled, Target());
        W.PassMeansObserved(parentPage.driver.world, probe, ds, start, start + old(g.implicitWait),
                            W.Step(old(g.defaultPollingFrequency)), W.TimeoutMessage(None));
        ghost var u: nat :| start <= u && W.ProbeValue(probe, ds, parentPage.driver.world(u)) == Ok(true);
        VisibleAndEnabledMeansReady(Target(), parentPage.driver.world(u));
      }
    }

    /**
     * The action of SendKeys, Clear and Blur on the element as it resolves
     * now: null raises NullReference, otherwise the driver's action.
     */
    method Act(call: DriverCall) returns (r: Outcome)
      requires call.SendKeys? || call.Clear?
      modifies parentPage.driver
      ensures r.Pass? <==> ReadState(old(Element()), old(parentPage.driver.Now())).Ok?
                           && ReadState(old(Element()), old(parentPage.driver.Now())).value.displayed
      ensures r.Fail? ==> parentPage.driver.log == old(parentPage.driver.log)
      ensures r.Pass? ==> Selector(Target()).Some?
      ensures r.Pass? ==>
        (parentPage.driver.log == old(parentPage.driver.log) +
          [if call.SendKeys? then DriverCall.SendKeys(Selector(Target()).value, call.keys)
           else DriverCall.Clear(Selector(Target()).value)])
      ensures parentPage.driver.Position() == old(parentPage.driver.Position())
      ensures parentPage.driver.implicitWait == old(parentPage.driver.implicitWait)
    {
      var found := Element();
      ResolvedBySelector(Target(), parentPage.driver.Now());
      if found.Err? {
        return Fail(found.error);
      }
      if found.value.None? {
        return Fail(NullReference);
      }
      if call.SendKeys? {
        r := parentPage.driver.SendKeysTo(found.value.value, call.keys);
      } else {
        r := parentPage.driver.ClearOn(found.value.value);
      }
    }

    /**
     * SendKeys(text, waitForItself): waits for the element to be visible
     * and enabled when asked, then types `text` into it.
     */
    method SendKeys(g: Globals, text: string, waitForItself: bool) returns (r: Outcome)
      requires g.driver == null || g.driver == parentPage.driver
      modifies g, parentPage.driver
      ensures waitForItself && old(WaitOutcome(C.IsVisibleAndEnabled, g)).Fail? ==>
        r == old(WaitOutcome(C.IsVisibleAndEnabled, g))
      ensures !waitForItself ==>
        parentPage.driver.clock == old(parentPage.driver.clock)
        && (r.Pass? <==> ReadState(old(Element()), old(parentPage.driver.Now())).Ok?
                         && ReadState(old(Element()), old(parentPage.driver.Now())).value.displayed)
      ensures r.Pass? ==>
        (Selector(Target()).Some? && |parentPage.driver.log| > |old(parentPage.driver.log)|
         && parentPage.driver.log[|parentPage.driver.log| - 1] == DriverCall.SendKeys(Selector(Target()).value, text))
      ensures g.Waits() == old(g.Waits()) && g.Rest() == old(g.Rest())
      ensures parentPage.driver.clock >= old(parentPage.driver.clock) && old(parentPage.driver.log) <= parentPage.driver.log
      ensures parentPage.driver.currentWindow == old(parentPage.driver.currentWindow)
      ensures parentPage.driver.frame == old(parentPage.driver.frame)
    {
      if waitForItself {
        var waited := WaitForElementVisibleAndEnabled(g);
        if waited.Fail? {
          return waited;
        }
      }
      r := Act(DriverCall.SendKeys(ById(""), text));
    }

    /**
     * Clear(waitForItself, waitForDynamicContentLoad): waits for the element
     * when asked, clears it, then waits for the page's dynamic content when
     * asked.
     */
    method Clear(g: Globals, waitForItself: bool, waitForDynamicContentLoad: bool) returns (r: Outcome)
      requires g.driver == null || g.driver == parentPage.driver
      requires parentPage.driver.Valid()
      modifies g, parentPage.driver
      ensures waitForItself && old(WaitOutcome(C.IsVisibleAndEnabled, g)).Fail? ==>
        r == old(WaitOutcome(C.IsVisibleAndEnabled, g))
      ensures !waitForItself ==>
        (r.Pass? <==> ReadState(old(Element()), old(parentPage.driver.Now())).Ok?
                      && ReadState(old(Element()), old(parentPage.driver.Now())).value.displayed)
      ensures r.Pass? ==>
        (Selector(Target()).Some?
         && CalledSince(old(parentPage.driver.log), parentPage.driver.log, DriverCall.Clear(Selector(Target()).value)))
      ensures !waitForDynamicContentLoad && r.Pass? ==>
        parentPage.driver.log[|parentPage.driver.log| - 1] == DriverCall.Clear(Selector(Target()).value)
      ensures g.Waits() == old(g.Waits()) && g.Rest() == old(g.Rest())
      ensures parentPage.driver.clock >= old(parentPage.driver.clock) && old(parentPage.driver.log) <= parentPage.driver.log
      ensures parentPage.driver.currentWindow == old(parentPage.driver.currentWindow)
      ensures parentPage.driver.frame == old(parentPage.driver.frame)
    {
      if waitForItself {
        var waited := WaitForElementVisibleAndEnabled(g);
        if waited.Fail? {
          return waited;
        }
      }
      ghost var before := parentPage.driver.log;
      r := Act(DriverCall.Clear(ById("")));
      if r.Fail? {
        return;
      }
      ghost var acted := parentPage.driver.log;
      assert acted[|acted| - 1] == DriverCall.Clear(Selector(Target()).value);
      if waitForDynamicContentLoad {
        parentPage.WaitForDynamicContentToLoad();
        assert parentPage.driver.log[|acted| - 1] == DriverCall.Clear(Selector(Target()).value);
      }
    }

    /**
     * Blur(waitForItself, waitForDynamicContentLoad): waits for the element
     * when asked, sends it a tab, then waits for the page's dynamic content
     * when asked.
     */
    method Blur(g: Globals, waitForItself: bool, waitForDynamicContentLoad: bool) returns (r: Outcome)
      requires g.driver == null || g.driver == parentPage.driver
      requires parentPage.driver.Valid()
      modifies g, parentPage.driver
      ensures waitForItself && old(WaitOutcome(C.IsVisibleAndEnabled, g)).Fail? ==>
        r == old(WaitOutcome(C.IsVisibleAndEnabled, g))
      ensures r.Pass? ==>
        (Selector(Target()).Some?
         && CalledSince(old(parentPage.driver.log), parentPage.driver.log, DriverCall.SendKeys(Selector(Target()).value, "\t")))
      ensures g.Waits() == old(g.Waits()) && g.Rest() == old(g.Rest())
      ensures parentPage.driver.clock >= old(parentPage.driver.clock) && old(parentPage.driver.log) <= parentPage.driver.log
      ensures parentPage.driver.currentWindow == old(parentPage.driver.currentWindow)
      ensures parentPage.driver.frame == old(parentPage.driver.frame)
    {
      r := SendKeys(g, "\t", waitForItself);
      if r.Fail? {
        return;
      }
      ghost var acted := parentPage.driver.log;
      assert acted[|acted| - 1] == DriverCall.SendKeys(Selector(Target()).value, "\t");
      if waitForDynamicContentLoad {
        parentPage.WaitForDynamicContentToLoad();
        assert parentPage.driver.log[|acted| - 1] == DriverCall.SendKeys(Selector(Target()).value, "\t");
      }
    }

    /**
     * The checks ClickNoWait makes before it clicks: the stale test when
     * asked; a wait for visibility when the element is not displayed; a
     * wait for enabled when it is not enabled; then ConstraintException
     * unless the element is now displayed and enabled. `checked` says the
     * method came to that last test.
     */
    method ReadyToClick(g: Globals, waitForItself: bool) returns (r: Outcome, ghost checked: bool)
      requires g.driver == null || g.driver == parentPage.driver
      modifies g, parentPage.driver
      ensures waitForItself && old(WaitOutcome(C.IsNotStale, g)).Fail? ==> r == old(WaitOutcome(C.IsNotStale, g))
      ensures !waitForItself && old(Displayed()).Err? ==> r == Fail(old(Displayed()).error)
      ensures !waitForItself && old(Displayed()) == Ok(false) && old(WaitOutcome(C.ElementIsVisible, g)).Fail? ==>
        r == old(WaitOutcome(C.ElementIsVisible, g))
      ensures !waitForItself && old(Displayed()) == Ok(true) && old(Enabled()) == Ok(false)
              && old(WaitOutcome(C.ElementIsEnabled, g)).Fail? ==>
        r == old(WaitOutcome(C.ElementIsEnabled, g))
      ensures !waitForItself && old(Displayed()) == Ok(true) && old(Enabled()) == Ok(true) ==>
        r == Pass && parentPage.driver.log == old(parentPage.driver.log) && parentPage.driver.clock == old(parentPage.driver.clock)
      ensures !checked ==> r.Fail?
      ensures checked && Displayed().Err? ==> r == Fail(Displayed().error)
      ensures checked && Displayed() == Ok(false) ==> r == Fail(Constraint(NotClickableMessage))
      ensures checked && Displayed() == Ok(true) ==>
        r == (match Enabled()
              case Err(e) => Fail(e)
              case Ok(b) => if b then Pass else Fail(Constraint(NotClickableMessage)))
      ensures r.Pass? ==> checked && Displayed() == Ok(true) && Enabled() == Ok(true)
      ensures g.Waits() == old(g.Waits()) && g.Rest() == old(g.Rest())
      ensures parentPage.driver.clock >= old(parentPage.driver.clock) && old(parentPage.driver.log) <= parentPage.driver.log
      ensures parentPage.driver.currentWindow == old(parentPage.driver.currentWindow)
      ensures parentPage.driver.frame == old(parentPage.driver.frame)
    {
      checked := false;
      if waitForItself {
        r := WaitFor(g, C.IsNotStale);
        if r.Fail? {
          return;
        }
      }
      var displayed := Displayed();
      if displayed.Err? {
        return Fail(displayed.error), false;
      }
      if !displayed.value {
        r := WaitFor(g, C.ElementIsVisible);
        if r.Fail? {
          return;
        }
      }
      var enabled := Enabled();
      if enabled.Err? {
        return Fail(enabled.error), false;
      }
      if !enabled.value {
        r := WaitFor(g, C.ElementIsEnabled);
        if r.Fail? {
          return;
        }
      }
      checked := true;
      displayed := Displayed();
      if displayed.Err? {
        return Fail(displayed.error), true;
      }
      if !displayed.value {
        return Fail(Constraint(NotClickableMessage)), true;
      }
      enabled := Enabled();
      if enabled.Err? {
        return Fail(enabled.error), true;
      }
      if !enabled.value {
        return Fail(Constraint(NotClickableMessage)), true;
      }
      r := Pass;
    }

    /**
     * ClickNoWait(waitForItself, skipPageCreation): the checks of
     * ReadyToClick, then either the native click (no next page, or page
     * creation skipped) or the navigation to the next page: register this
     * element as the page's trigger, fire it when the registration is new,
     * create the page, and unregister the trigger also when the creation
     * fails.
     */
    method ClickNoWait(g: Globals, waitForItself: bool, skipPageCreation: bool) returns (r: Result<Option<Page>>)
      requires Valid() && (g.driver == null || g.driver == parentPage.driver)
      modifies g, parentPage.driver
      ensures waitForItself && old(WaitOutcome(C.IsNotStale, g)).Fail? ==>
        r == Err(old(WaitOutcome(C.IsNotStale, g)).error) && g.triggers == old(g.triggers)
      ensures !waitForItself && old(Displayed()).Err? ==> r == Err(old(Displayed()).error) && g.triggers == old(g.triggers)
      ensures !waitForItself && old(Displayed()) == Ok(false) && old(WaitOutcome(C.ElementIsVisible, g)).Fail? ==>
        r == Err(old(WaitOutcome(C.ElementIsVisible, g)).error) && g.triggers == old(g.triggers)
      ensures !waitForItself && old(Displayed()) == Ok(true) && old(Enabled()) == Ok(false)
              && old(WaitOutcome(C.ElementIsEnabled, g)).Fail? ==>
        r == Err(old(WaitOutcome(C.ElementIsEnabled, g)).error) && g.triggers == old(g.triggers)
      // the native click
      ensures nextPage.None? || skipPageCreation ==> g.triggers == old(g.triggers)
      ensures r.Ok? && (nextPage.None? || skipPageCreation) ==>
        r.value.None? && Selector(Target()).Some? && |parentPage.driver.log| > |old(parentPage.driver.log)|
        && parentPage.driver.log[|parentPage.driver.log| - 1] == DriverCall.Click(Selector(Target()).value)
      ensures (nextPage.None? || skipPageCreation) && !waitForItself && old(Displayed()) == Ok(true) && old(Enabled()) == Ok(true) ==>
        r == Ok(None) && Selector(Target()).Some?
        && parentPage.driver.log == old(parentPage.driver.log) + [DriverCall.Click(Selector(Target()).value)]
        && parentPage.driver.clock == old(parentPage.driver.clock)
      // the navigation
      ensures r.Ok? && nextPage.Some? && !skipPageCreation ==>
        r.value.Some? && fresh(r.value.value) && r.value.value.Chained() && r.value.value.ContextReady()
        && r.value.value.kind == nextPage.value.kind && r.value.value.driver == parentPage.driver
        && r.value.value.url.None? && r.value.value.container == null && !r.value.value.isContainer
      ensures r.Ok? && nextPage.Some? && !skipPageCreation ==> g.triggers == old(g.triggers) - {nextPage.value.kind}
      ensures nextPage.Some? && !skipPageCreation && !BindsFourArguments(nextPage.value, nextPageContainerType) ==> r.Err?
      ensures nextPage.Some? && !skipPageCreation ==>
        || g.triggers == old(g.triggers) - {nextPage.value.kind}
        || (r.Err? && g.triggers == old(g.triggers))
        || (r.Err? && nextPage.value.kind !in old(g.triggers) && g.triggers == old(g.triggers)[nextPage.value.kind := Target()])
      ensures g.Waits() == old(g.Waits()) && g.driver == old(g.driver)
      ensures parentPage.driver.clock >= old(parentPage.driver.clock) && old(parentPage.driver.log) <= parentPage.driver.log
    {
      var ready, checked := ReadyToClick(g, waitForItself);
      if ready.Fail? {
        return Err(ready.error);
      }
      var drv := parentPage.driver;
      if nextPage.None? || skipPageCreation {
        var found := Element();
        ResolvedBySelector(Target(), drv.Now());
        var clicked := drv.ClickOn(found.value.value);
        return Ok(None);
      }
      var page := OpenNextPage(g);
      if page.Err? {
        return Err(page.error);
      }
      r := Ok(Some(page.value));
    }

    /**
     * The navigation of ClickNoWait: register this element as the next
     * page's trigger, fire it when the registration is new, create the
     * page, and unregister the trigger whether the creation succeeds or
     * raises. A failure of the trigger itself comes before the creation and
     * leaves the new registration in place.
     */
    method OpenNextPage(g: Globals) returns (r: Result<Page>)
      requires Valid() && nextPage.Some? && (g.driver == null || g.driver == parentPage.driver)
      modifies g, parentPage.driver
      ensures r.Ok? ==>
        fresh(r.value) && r.value.Chained() && r.value.ContextReady()
        && r.value.kind == nextPage.value.kind && r.value.driver == parentPage.driver
        && r.value.url.None? && r.value.container == null && !r.value.isContainer
      ensures r.Ok? ==> g.triggers == old(g.triggers) - {nextPage.value.kind}
      ensures r.Err? && !r.error.TargetInvocation? && r != Err(MissingMethod) ==>
        g.triggers == old(g.triggers)[nextPage.value.kind := Target()] && nextPage.value.kind !in old(g.triggers)
      ensures !BindsFourArguments(nextPage.value, nextPageContainerType) ==> r.Err?
      ensures !BindsFourArguments(nextPage.value, nextPageContainerType)
              && (nextPage.value.kind in old(g.triggers)
                  || TriggerOutcome(old(g.triggers)[nextPage.value.kind := Target()], nextPage.value.kind,
                                    old(parentPage.driver.Now())).Pass?) ==>
        r == Err(MissingMethod) && g.triggers == old(g.triggers) - {nextPage.value.kind}
      ensures || g.triggers == old(g.triggers) - {nextPage.value.kind}
              || (r.Err? && nextPage.value.kind !in old(g.triggers) && g.triggers == old(g.triggers)[nextPage.value.kind := Target()])
      ensures g.Waits() == old(g.Waits()) && g.driver == old(g.driver)
      ensures parentPage.driver.clock >= old(parentPage.driver.clock) && old(parentPage.driver.log) <= parentPage.driver.log
    {
      var drv := parentPage.driver;
      var kind := nextPage.value.kind;
      var newlyAdded := g.RegisterTrigger(kind, Target());
      if newlyAdded {
        var triggered := g.TriggerNavigationFor(kind, drv);
        if triggered.Fail? {
          return Err(triggered.error);
        }
      }
      r := Page.CreateInstance(g, nextPage.value, drv, nextPageContainerType, None, parentContainer);
      g.UnregisterTrigger(kind);
    }

    /**
     * The alert part of Click on the page `target` (the new page, or the
     * parent page): wait for an alert, test for one, and when one shows
     * accept or dismiss it as asked (TreatAfter leaves it). The result says
     * whether an alert showed.
     */
    method TreatAlert(g: Globals, target: Page, alertResolveStatus: AlertResolveType, timeToWaitForAlert: int,
                      waitForPageToLoadAfterAlert: bool) returns (r: Result<bool>)
      requires parentPage.Chained() && target.Chained() && target.driver == parentPage.driver
      requires g.driver == null || g.driver == parentPage.driver
      modifies g, parentPage.driver
      ensures r == Ok(true) && alertResolveStatus == Accept ==>
        CalledSince(old(parentPage.driver.log), parentPage.driver.log, DriverCall.AcceptAlert)
      ensures r == Ok(true) && alertResolveStatus == Dismiss ==>
        CalledSince(old(parentPage.driver.log), parentPage.driver.log, DriverCall.DismissAlert)
      ensures alertResolveStatus == TreatAfter || r == Ok(false) ==>
        r.Ok? && forall i | |old(parentPage.driver.log)| <= i < |parentPage.driver.log| ::
          parentPage.driver.log[i].Sleep? || parentPage.driver.log[i] == SwitchToAlert
      ensures r == Ok(false) ==>
        var elapsed := parentPage.driver.clock - old(parentPage.driver.clock);
        parentPage.driver.Now().alert.None?
        && (elapsed > g.implicitWait || (timeToWaitForAlert > 0 && elapsed > timeToWaitForAlert))
      ensures g.Waits() == old(g.Waits()) && g.Rest() == old(g.Rest())
      ensures parentPage.driver.clock >= old(parentPage.driver.clock) && old(parentPage.driver.log) <= parentPage.driver.log
    {
      var waited := target.WaitForAlert(g, timeToWaitForAlert);
      var pageAlert := target.IsAlertPresent();
      if !pageAlert {
        return Ok(false);
      }
      // The alert's text is read for the log.
      var text := parentPage.Alert();
      match alertResolveStatus {
        case Accept =>
          var accepted := target.AcceptAlert(g, waitForPageToLoadAfterAlert);
          if accepted.Err? {
            return Err(accepted.error);
          }
        case Dismiss =>
          var dismissed := target.DismissAlert(g, waitForPageToLoadAfterAlert);
          if dismissed.Err? {
            return Err(dismissed.error);
          }
        case TreatAfter =>
      }
      r := Ok(true);
    }

    /**
     * Click(waitForItself, waitForPageToLoad, alertResolveStatus,
     * timeToWaitForAlert, skipPageCreation, waitForPageToLoadAfterAlert):
     * waits for the page's dynamic content, clicks (ClickNoWait), then
     * waits for an alert on the new page, or on the parent page when there
     * is none, and accepts or dismisses it as asked. Only a click that
     * created no page and raised no alert waits for the dynamic content
     * again, and only when asked. `pageAlert` says whether an alert showed;
     * `clicked` is the trace up to the end of the click.
     */
    method Click(g: Globals, waitForItself: bool, waitForPageToLoad: bool, alertResolveStatus: AlertResolveType,
                 timeToWaitForAlert: int, skipPageCreation: bool, waitForPageToLoadAfterAlert: bool)
      returns (r: Result<Option<Page>>, ghost pageAlert: bool, ghost clicked: seq<DriverCall>)
      requires Valid() && parentPage.driver.Valid() && (g.driver == null || g.driver == parentPage.driver)
      modifies g, parentPage.driver
      ensures old(parentPage.driver.log) <= clicked <= parentPage.driver.log
      ensures r.Ok? && (nextPage.None? || skipPageCreation) ==> r.value.None?
      ensures r.Ok? && nextPage.Some? && !skipPageCreation ==>
        r.value.Some? && fresh(r.value.value) && r.value.value.Chained()
        && r.value.value.kind == nextPage.value.kind && r.value.value.driver == parentPage.driver
      ensures r.Ok? && pageAlert && alertResolveStatus == Accept ==>
        CalledSince(clicked, parentPage.driver.log, DriverCall.AcceptAlert)
      ensures r.Ok? && pageAlert && alertResolveStatus == Dismiss ==>
        CalledSince(clicked, parentPage.driver.log, DriverCall.DismissAlert)
      ensures r.Ok? && alertResolveStatus == TreatAfter ==>
        forall i | |clicked| <= i < |parentPage.driver.log| ::
          parentPage.driver.log[i] != DriverCall.AcceptAlert && parentPage.driver.log[i] != DriverCall.DismissAlert
      ensures r.Ok? && (alertResolveStatus == TreatAfter || !pageAlert) && !(waitForPageToLoad && !pageAlert && r.value.None?) ==>
        forall i | |clicked| <= i < |parentPage.driver.log| ::
          parentPage.driver.log[i].Sleep? || parentPage.driver.log[i] == SwitchToAlert
      ensures r.Ok? && waitForPageToLoad && !pageAlert && r.value.None? && parentPage.driver.isScriptExecutor ==>
        CalledSince(clicked, parentPage.driver.log, ExecuteScript)
      ensures nextPage.None? || skipPageCreation ==> g.triggers == old(g.triggers)
      ensures r.Ok? && nextPage.Some? && !skipPageCreation ==> g.triggers == old(g.triggers) - {nextPage.value.kind}
      ensures g.Waits() == old(g.Waits()) && g.driver == old(g.driver)
      ensures parentPage.driver.clock >= old(parentPage.driver.clock)
    {
      parentPage.WaitForDynamicContentToLoad();
      var result := ClickNoWait(g, waitForItself, skipPageCreation);
      clicked := parentPage.driver.log;
      if result.Err? {
        return Err(result.error), false, clicked;
      }
      var treated := AfterClick(g, result.value, alertResolveStatus, timeToWaitForAlert, waitForPageToLoad,
                                waitForPageToLoadAfterAlert);
      if treated.Err? {
        return Err(treated.error), false, clicked;
      }
      r, pageAlert := result, treated.value;
    }

    /**
     * The part of Click after the click itself: the alert is awaited on the
     * page created, or on the parent page when none was, and treated; with
     * no page and no alert, the dynamic content is awaited when asked.
     * Returns whether an alert showed.
     */
    method AfterClick(g: Globals, created: Option<Page>, alertResolveStatus: AlertResolveType, timeToWaitForAlert: int,
                      waitForPageToLoad: bool, waitForPageToLoadAfterAlert: bool) returns (r: Result<bool>)
      requires parentPage.Chained() && parentPage.driver.Valid() && (g.driver == null || g.driver == parentPage.driver)
      requires created.Some? ==> created.value.Chained() && created.value.driver == parentPage.driver
      modifies g, parentPage.driver
      ensures r == Ok(true) && alertResolveStatus == Accept ==>
        CalledSince(old(parentPage.driver.log), parentPage.driver.log, DriverCall.AcceptAlert)
      ensures r == Ok(true) && alertResolveStatus == Dismiss ==>
        CalledSince(old(parentPage.driver.log), parentPage.driver.log, DriverCall.DismissAlert)
      ensures r.Ok? && (alertResolveStatus == TreatAfter || !r.value) && !(waitForPageToLoad && !r.value && created.None?) ==>
        forall i | |old(parentPage.driver.log)| <= i < |parentPage.driver.log| ::
          parentPage.driver.log[i].Sleep? || parentPage.driver.log[i] == SwitchToAlert
      ensures r.Ok? && alertResolveStatus == TreatAfter ==>
        forall i | |old(parentPage.driver.log)| <= i < |parentPage.driver.log| ::
          parentPage.driver.log[i] != DriverCall.AcceptAlert && parentPage.driver.log[i] != DriverCall.DismissAlert
      ensures r == Ok(false) && waitForPageToLoad && created.None? && parentPage.driver.isScriptExecutor ==>
        CalledSince(old(parentPage.driver.log), parentPage.driver.log, ExecuteScript)
      ensures g.Waits() == old(g.Waits()) && g.Rest() == old(g.Rest())
      ensures parentPage.driver.clock >= old(parentPage.driver.clock) && old(parentPage.driver.log) <= parentPage.driver.log
    {
      var target := if created.Some? then created.value else parentPage;
      r := TreatAlert(g, target, alertResolveStatus, timeToWaitForAlert, waitForPageToLoadAfterAlert);
      if r == Ok(false) && waitForPageToLoad && created.None? {
        parentPage.WaitForDynamicContentToLoad();
      }
    }

    /**
     * ClickAndTreatAlert(alertResolveStatus, timeToWaitForAlert,
     * skipPageCreation, waitForPageToLoadAfterAlert): with TreatAfter,
     * Click with no wait for the page and no page creation skipped,
     * whatever the caller asked; with Accept or Dismiss, Click with the
     * caller's arguments and a wait for the page.
     */
    method ClickAndTreatAlert(g: Globals, alertResolveStatus: AlertResolveType, timeToWaitForAlert: int,
                              skipPageCreation: bool, waitForPageToLoadAfterAlert: bool)
      returns (r: Result<Option<Page>>, ghost pageAlert: bool, ghost clicked: seq<DriverCall>)
      requires Valid() && parentPage.driver.Valid() && (g.driver == null || g.driver == parentPage.driver)
      modifies g, parentPage.driver
      ensures old(parentPage.driver.log) <= clicked <= parentPage.driver.log
      ensures alertResolveStatus == TreatAfter && r.Ok? ==> (r.value.Some? <==> nextPage.Some?)
      ensures alertResolveStatus == TreatAfter && r.Ok? ==>
        forall i | |clicked| <= i < |parentPage.driver.log| ::
          parentPage.driver.log[i].Sleep? || parentPage.driver.log[i] == SwitchToAlert
      ensures alertResolveStatus != TreatAfter && r.Ok? ==> (r.value.Some? <==> nextPage.Some? && !skipPageCreation)
      ensures r.Ok? && r.value.Some? ==>
        fresh(r.value.value) && r.value.value.Chained()
        && r.value.value.kind == nextPage.value.kind && r.value.value.driver == parentPage.driver
      ensures r.Ok? && pageAlert && alertResolveStatus == Accept ==>
        CalledSince(clicked, parentPage.driver.log, DriverCall.AcceptAlert)
      ensures r.Ok? && pageAlert && alertResolveStatus == Dismiss ==>
        CalledSince(clicked, parentPage.driver.log, DriverCall.DismissAlert)
      ensures alertResolveStatus != TreatAfter && r.Ok? && !pageAlert && r.value.None? && parentPage.driver.isScriptExecutor ==>
        CalledSince(clicked, parentPage.driver.log, ExecuteScript)
      ensures g.Waits() == old(g.Waits()) && g.driver == old(g.driver)
      ensures parentPage.driver.clock >= old(parentPage.driver.clock)
    {
      if alertResolveStatus == TreatAfter {
        r, pageAlert, clicked := Click(g, true, false, alertResolveStatus, timeToWaitForAlert, false, false);
      } else {
        r, pageAlert, clicked := Click(g, true, true, alertResolveStatus, timeToWaitForAlert, skipPageCreation,
                                       waitForPageToLoadAfterAlert);
      }
    }

    /**
     * GetPageInstance(popup): a new page object of the next page's class,
     * created by reflection from the next page's container type and
     * `popup`; only a plain page class binds those arguments, and it keeps
     * no container. With no next page the reflective creation raises
     * ArgumentNull.
     */
    method GetPageInstance(g: Globals, popup: ContainerElement?) returns (r: Result<Page>)
      requires (g.driver == null || g.driver == parentPage.driver) && (popup != null ==> popup.Valid())
      modifies g, parentPage.driver
      ensures nextPage.None? ==> r == Err(ArgumentNull) && parentPage.driver.log == old(parentPage.driver.log)
      ensures nextPage.Some? && !BindsFourArguments(nextPage.value, nextPageContainerType) ==>
        r == Err(MissingMethod) && parentPage.driver.log == old(parentPage.driver.log)
      ensures nextPage.Some? && r.Err? ==> r.error.TargetInvocation? || r.error == MissingMethod
      ensures r.Ok? ==>
        nextPage.Some? && BindsFourArguments(nextPage.value, nextPageContainerType)
        && fresh(r.value) && r.value.Chained() && r.value.ContextReady()
        && r.value.kind == nextPage.value.kind && r.value.driver == parentPage.driver && r.value.url.None?
        && r.value.container == null && !r.value.isContainer
      ensures g.Waits() == old(g.Waits()) && g.driver == old(g.driver) && g.triggers == old(g.triggers)
      ensures parentPage.driver.clock >= old(parentPage.driver.clock) && old(parentPage.driver.log) <= parentPage.driver.log
    {
      if nextPage.None? {
        return Err(ArgumentNull);
      }
      r := Page.CreateInstance(g, nextPage.value, parentPage.driver, nextPageContainerType, None, popup);
    }
  }

  /** Exists is the ElementExists condition on the element, read on the page shown now. */
  lemma ExistsIsTheExistsCondition(e: WebElement)
    ensures C.Check(C.ElementExists, true, e.Target(), e.parentPage.driver.Now()) == e.Exists()
  {
  }

  /**
   * On a table the page built itself, Exists raises only a pattern that
   * does not format, and an element that exists is found by its selector.
   */
  lemma ExistsOnParsedTable(e: WebElement)
    requires AllInstalled(e.parentPage.queries)
    ensures e.Exists().Ok? || e.Exists() == Err(Exceptions.Format)
    ensures e.Exists() == Ok(true) ==>
      Selector(e.Target()).Some? && Selector(e.Target()).value in e.parentPage.driver.Now().elements
  {
    var snap := e.parentPage.driver.Now();
    FindNeverRaisesForMissingElement(e.parentPage.queries, e.identifier, [], snap);
    ResolvedBySelector(e.Target(), snap);
  }

  /**
   * Displayed agrees with the Visible condition wherever it can be read;
   * where it raises NullReference for a missing element the condition is
   * false instead.
   */
  lemma DisplayedIsTheVisibleCondition(e: WebElement)
    ensures e.Displayed().Ok? ==> C.Check(C.ElementIsVisible, true, e.Target(), e.parentPage.driver.Now()) == e.Displayed()
    ensures e.Element() == Ok(None) ==>
      e.Displayed() == Err(NullReference)
      && C.Check(C.ElementIsVisible, true, e.Target(), e.parentPage.driver.Now()) == Ok(false)
  {
  }

  /**
   * Enabled ignores the `disabled` attribute that the Enabled condition
   * honours: the condition implies Enabled, and an element that is Enabled
   * but carries `disabled="true"` fails the condition.
   */
  lemma EnabledAgainstTheEnabledCondition(e: WebElement)
    ensures C.Check(C.ElementIsEnabled, true, e.Target(), e.parentPage.driver.Now()) == Ok(true) ==> e.Enabled() == Ok(true)
    ensures e.Enabled() == Ok(false) ==> C.Check(C.ElementIsEnabled, true, e.Target(), e.parentPage.driver.Now()) == Ok(false)
    ensures e.Enabled() == Ok(true) && C.DisabledAttribute(ReadState(e.Element(), e.parentPage.driver.Now()).value) ==>
      C.Check(C.ElementIsEnabled, true, e.Target(), e.parentPage.driver.Now()) == Ok(false)
  {
  }

  /** An element carrying `disabled="true"` is read-only. */
  lemma DisabledAttributeMeansReadOnly(e: WebElement)
    requires ReadState(e.Element(), e.parentPage.driver.Now()).Ok?
    requires C.DisabledAttribute(ReadState(e.Element(), e.parentPage.driver.Now()).value)
    ensures e.ReadOnly() == Ok(true)
  {
  }

  // WebElementExtensions

  /** IsDisabled: the element is not Enabled. */
  function IsDisabled(control: WebElement): (r: Result<bool>)
    reads control.parentPage, control.parentPage.driver
    ensures control.Element() == Ok(None) ==> r == Err(NullReference)
    ensures r.Ok? <==> control.Enabled().Ok?
    ensures control.Enabled().Ok? ==> r == Ok(!control.Enabled().value)
  {
    match control.Enabled()
    case Err(e) => Err(e)
    case Ok(enabled) => Ok(!enabled)
  }

  /**
   * IsDisabled is weaker than the NotEnabled condition: a disabled element
   * meets the condition, but an element with `disabled="true"` that the
   * browser reports enabled meets the condition without being IsDisabled.
   * A missing element raises in IsDisabled and fails the condition; an
   * element that cannot be read also raises in IsDisabled, where the
   * condition absorbs the exception.
   */
  lemma IsDisabledAgainstTheNotEnabledCondition(control: WebElement)
    ensures IsDisabled(control) == Ok(true) ==>
      C.Check(C.ElementIsNotEnabled, true, control.Target(), control.parentPage.driver.Now()) == Ok(true)
    ensures IsDisabled(control).Ok? && C.Check(C.ElementIsNotEnabled, true, control.Target(), control.parentPage.driver.Now()) == Ok(false) ==>
      IsDisabled(control) == Ok(false)
    ensures control.Element() == Ok(None) ==>
      IsDisabled(control) == Err(NullReference)
      && C.Check(C.ElementIsNotEnabled, true, control.Target(), control.parentPage.driver.Now()) == Ok(false)
    ensures IsDisabled(control) == Ok(false) && C.DisabledAttribute(ReadState(control.Element(), control.parentPage.driver.Now()).value) ==>
      C.Check(C.ElementIsNotEnabled, true, control.Target(), control.parentPage.driver.Now()) == Ok(true)
  {
  }

  /** The value of the attribute `name` of the element as it resolves now. */
  function AttributeOf(control: WebElement, name: string): (r: Result<Option<string>>)
    reads control.parentPage, control.parentPage.driver
    ensures control.Element() == Ok(None) ==> r == Err(NullReference)
    ensures r.Ok? <==> ReadState(control.Element(), control.parentPage.driver.Now()).Ok?
  {
    match ReadState(control.Element(), control.parentPage.driver.Now())
    case Err(e) => Err(e)
    case Ok(o) => Ok(o.Attribute(name))
  }

  /** IsReadOnly: the `readOnly` attribute is exactly "true". */
  function IsReadOnly(control: WebElement): (r: Result<bool>)
    reads control.parentPage, control.parentPage.driver
    ensures r.Ok? <==> AttributeOf(control, "readOnly").Ok?
    ensures r == Ok(true) <==> AttributeOf(control, "readOnly") == Ok(Some("true"))
  {
    match AttributeOf(control, "readOnly")
    case Err(e) => Err(e)
    case Ok(a) => Ok(a.Some? && a.value == "true")
  }

  /** An element IsReadOnly finds read-only is also read-only for WebElement.ReadOnly, but not conversely. */
  lemma IsReadOnlyImpliesReadOnly(control: WebElement)
    ensures IsReadOnly(control) == Ok(true) ==> control.ReadOnly() == Ok(true)
    ensures IsReadOnly(control).Ok? <==> control.ReadOnly().Ok?
  {
  }

  /** HasClass(className): the `class` attribute is present and contains `className`, case-sensitively. */
  function HasClass(control: WebElement, className: string): (r: Result<bool>)
    reads control.parentPage, control.parentPage.driver
    ensures r.Ok? <==> AttributeOf(control, "class").Ok?
    ensures r == Ok(true) <==>
      AttributeOf(control, "class").Ok? && AttributeOf(control, "class").value.Some?
      && Text.Contains(AttributeOf(control, "class").value.value, className)
  {
    match AttributeOf(control, "class")
    case Err(e) => Err(e)
    case Ok(a) => Ok(a.Some? && Text.Contains(a.value, className))
  }

  /**
   * HasClass tests the whole attribute for a substring: any element with
   * a `class` attribute has the empty class and its whole attribute as a
   * class, and none without one has any class.
   */
  lemma {:induction false} HasClassIsSubstringTest(control: WebElement, className: string)
    requires AttributeOf(control, "class").Ok?
    ensures AttributeOf(control, "class").value.None? ==> HasClass(control, className) == Ok(false)
    ensures AttributeOf(control, "class").value.Some? ==>
      HasClass(control, "") == Ok(true)
      && HasClass(control, AttributeOf(control, "class").value.value) == Ok(true)
  {
    var a := AttributeOf(control, "class").value;
    if a.Some? {
      Text.ContainsTrivial(a.value);
    }
  }

  /** IsTextbox: the `type` attribute is exactly "text". */
  function IsTextbox(control: WebElement): (r: Result<bool>)
    reads control.parentPage, control.parentPage.driver
    ensures r.Ok? <==> AttributeOf(control, "type").Ok?
    ensures r == Ok(true) <==> AttributeOf(control, "type") == Ok(Some("text"))
  {
    match AttributeOf(control, "type")
    case Err(e) => Err(e)
    case Ok(a) => Ok(a == Some("text"))
  }

  /**
   * TryAction(action, success, retries): while `success` does not hold and
   * retries are left, runs `action` and counts one retry down. The action
   * and the test are the caller's code; `succeeded(k)` stands for what the
   * test says after `k` runs of the action. Returns how many times the
   * action ran.
   */
  method TryAction(succeeded: nat -> bool, retries: int) returns (runs: nat)
    ensures retries <= 0 ==> runs == 0
    ensures retries > 0 ==> runs <= retries
    ensures forall k: nat | k < runs :: !succeeded(k)
    ensures runs < retries ==> succeeded(runs)
  {
    var left := retries;
    runs := 0;
    while !succeeded(runs) && left > 0
      invariant left == retries - runs || (retries <= 0 && runs == 0 && left == retries)
      invariant retries > 0 ==> 0 <= left
      invariant retries <= 0 ==> runs == 0
      invariant forall k: nat | k < runs :: !succeeded(k)
      decreases if left > 0 then left else 0
    {
      runs := runs + 1;
      left := left - 1;
    }
  }

  /**
   * LinkWebElement<T>: an element whose click leads to a page of class
   * `page` (the type argument T). The element's next page is fixed to
   * `page`; the model holds that element rather than inheriting from it.
   * Every click first records on the parent page the window it was in and
   * the windows open, so that a popup window can be told apart later.
   */
  class LinkWebElement {
    const element: WebElement
    const page: PageClass

    constructor(identifier: string, parentPage: Page, page: PageClass,
                containerType: Option<ContainerType>, containerWebElement: ContainerElement?)
      ensures this.page == page && fresh(element)
      ensures element.identifier == identifier && element.parentPage == parentPage && element.nextPage == Some(page)
      ensures element.nextPageContainerType == containerType && element.parentContainer == containerWebElement
    {
      this.page := page;
      element := new WebElement(identifier, parentPage, Some(page), containerType, containerWebElement);
    }

    /** The element's page chains are finite and its next page is this link's page. */
    ghost predicate Valid() {
      element.Valid() && element.nextPage == Some(page)
    }

    /** Records the current window and the open windows on the parent page. */
    method SnapshotWindows()
      modifies element.parentPage`lastKnownWindowHandle, element.parentPage`windowHandlesSnapshot
      ensures element.parentPage.lastKnownWindowHandle == Some(element.parentPage.driver.currentWindow)
      ensures element.parentPage.windowHandlesSnapshot == Some(element.parentPage.driver.Now().windowHandles)
    {
      var p := element.parentPage;
      p.lastKnownWindowHandle := Some(p.driver.currentWindow);
      p.windowHandlesSnapshot := Some(p.driver.Now().windowHandles);
    }

    /**
     * Click(waitForItself, waitForPageToLoad): records the windows, then
     * the element's Click with an alert treated after (500 ms to detect
     * one) and the page created, returned as the link's page.
     */
    method Click(g: Globals, waitForItself: bool, waitForPageToLoad: bool)
      returns (r: Result<Page>, ghost clicked: seq<DriverCall>)
      requires Valid() && element.parentPage.driver.Valid() && (g.driver == null || g.driver == element.parentPage.driver)
      modifies g, element.parentPage.driver, element.parentPage`lastKnownWindowHandle, element.parentPage`windowHandlesSnapshot
      ensures element.parentPage.lastKnownWindowHandle == Some(old(element.parentPage.driver.currentWindow))
      ensures element.parentPage.windowHandlesSnapshot == Some(old(element.parentPage.driver.Now().windowHandles))
      ensures r.Ok? ==>
        fresh(r.value) && r.value.Chained() && r.value.kind == page.kind && r.value.driver == element.parentPage.driver
      ensures r.Ok? ==> g.triggers == old(g.triggers) - {page.kind}
      ensures old(element.parentPage.driver.log) <= clicked <= element.parentPage.driver.log
      ensures r.Ok? ==>
        forall i | |clicked| <= i < |element.parentPage.driver.log| ::
          element.parentPage.driver.log[i].Sleep? || element.parentPage.driver.log[i] == SwitchToAlert
      ensures g.Waits() == old(g.Waits()) && g.driver == old(g.driver)
    {
      SnapshotWindows();
      var res;
      ghost var alert;
      res, alert, clicked := element.Click(g, waitForItself, waitForPageToLoad, TreatAfter, 500, false, true);
      if res.Err? {
        return Err(res.error), clicked;
      }
      r := Ok(res.value.value);
    }

    /**
     * ClickAndTreatAlertAndOpenPopup(popupContainer, alertResolveStatus,
     * timeToWaitForAlert): records the windows, clicks with the alert
     * treated and page creation skipped, then creates the link's page in
     * `popupContainer`. With TreatAfter the click creates a page of its
     * own regardless, so two page objects are built; `clickPage` is the
     * click's.
     */
    method ClickAndTreatAlertAndOpenPopup(g: Globals, popupContainer: ContainerElement?,
                                          alertResolveStatus: AlertResolveType, timeToWaitForAlert: int)
      returns (r: Result<Page>, ghost clickPage: Option<Page>, ghost pageAlert: bool)
      requires Valid() && element.parentPage.driver.Valid() && (g.driver == null || g.driver == element.parentPage.driver)
      requires popupContainer != null ==> popupContainer.Valid()
      modifies g, element.parentPage.driver, element.parentPage`lastKnownWindowHandle, element.parentPage`windowHandlesSnapshot
      ensures element.parentPage.lastKnownWindowHandle == Some(old(element.parentPage.driver.currentWindow))
      ensures element.parentPage.windowHandlesSnapshot == Some(old(element.parentPage.driver.Now().windowHandles))
      ensures r.Ok? ==>
        fresh(r.value) && r.value.Chained() && r.value.ContextReady() && r.value.kind == page.kind
        && r.value.driver == element.parentPage.driver && r.value.url.None? && r.value.container == null
      ensures r.Ok? && alertResolveStatus == TreatAfter ==>
        clickPage.Some? && fresh(clickPage.value) && clickPage.value.kind == page.kind && clickPage.value != r.value
      ensures r.Ok? && alertResolveStatus != TreatAfter ==> clickPage.None?
      ensures r.Ok? && pageAlert && alertResolveStatus == Accept ==>
        CalledSince(old(element.parentPage.driver.log), element.parentPage.driver.log, DriverCall.AcceptAlert)
      ensures r.Ok? && pageAlert && alertResolveStatus == Dismiss ==>
        CalledSince(old(element.parentPage.driver.log), element.parentPage.driver.log, DriverCall.DismissAlert)
      ensures g.Waits() == old(g.Waits()) && g.driver == old(g.driver)
    {
      SnapshotWindows();
      r, clickPage, pageAlert := ClickThenCreate(g, alertResolveStatus, timeToWaitForAlert, true, popupContainer);
    }

    /**
     * ClickAndTreatAlertAndOpenPage(alertResolveStatus, timeToWaitForAlert):
     * as ClickAndTreatAlertAndOpenPopup with no container, except that the
     * page is not awaited after an alert is treated.
     */
    method ClickAndTreatAlertAndOpenPage(g: Globals, alertResolveStatus: AlertResolveType, timeToWaitForAlert: int)
      returns (r: Result<Page>, ghost clickPage: Option<Page>, ghost pageAlert: bool)
      requires Valid() && element.parentPage.driver.Valid() && (g.driver == null || g.driver == element.parentPage.driver)
      modifies g, element.parentPage.driver, element.parentPage`lastKnownWindowHandle, element.parentPage`windowHandlesSnapshot
      ensures element.parentPage.lastKnownWindowHandle == Some(old(element.parentPage.driver.currentWindow))
      ensures element.parentPage.windowHandlesSnapshot == Some(old(element.parentPage.driver.Now().windowHandles))
      ensures r.Ok? ==>
        fresh(r.value) && r.value.Chained() && r.value.ContextReady() && r.value.kind == page.kind
        && r.value.driver == element.parentPage.driver && r.value.url.None? && r.value.container == null
      ensures r.Ok? && alertResolveStatus == TreatAfter ==>
        clickPage.Some? && fresh(clickPage.value) && clickPage.value.kind == page.kind && clickPage.value != r.value
      ensures r.Ok? && alertResolveStatus != TreatAfter ==> clickPage.None?
      ensures r.Ok? && pageAlert && alertResolveStatus == Accept ==>
        CalledSince(old(element.parentPage.driver.log), element.parentPage.driver.log, DriverCall.AcceptAlert)
      ensures r.Ok? && pageAlert && alertResolveStatus == Dismiss ==>
        CalledSince(old(element.parentPage.driver.log), element.parentPage.driver.log, DriverCall.DismissAlert)
      ensures g.Waits() == old(g.Waits()) && g.driver == old(g.driver)
    {
      SnapshotWindows();
      r, clickPage, pageAlert := ClickThenCreate(g, alertResolveStatus, timeToWaitForAlert, false, null);
    }

    /** The steps the two "treat alert and open" clicks share after recording the windows. */
    method ClickThenCreate(g: Globals, alertResolveStatus: AlertResolveType, timeToWaitForAlert: int,
                           waitForPageToLoadAfterAlert: bool, popup: ContainerElement?)
      returns (r: Result<Page>, ghost clickPage: Option<Page>, ghost pageAlert: bool)
      requires Valid() && element.parentPage.driver.Valid() && (g.driver == null || g.driver == element.parentPage.driver)
      requires popup != null ==> popup.Valid()
      modifies g, element.parentPage.driver
      ensures r.Ok? ==>
        fresh(r.value) && r.value.Chained() && r.value.ContextReady() && r.value.kind == page.kind
        && r.value.driver == element.parentPage.driver && r.value.url.None? && r.value.container == null
      ensures r.Ok? && alertResolveStatus == TreatAfter ==>
        clickPage.Some? && fresh(clickPage.value) && clickPage.value.kind == page.kind && clickPage.value != r.value
      ensures r.Ok? && alertResolveStatus != TreatAfter ==> clickPage.None?
      ensures r.Ok? && pageAlert && alertResolveStatus == Accept ==>
        CalledSince(old(element.parentPage.driver.log), element.parentPage.driver.log, DriverCall.AcceptAlert)
      ensures r.Ok? && pageAlert && alertResolveStatus == Dismiss ==>
        CalledSince(old(element.parentPage.driver.log), element.parentPage.driver.log, DriverCall.DismissAlert)
      ensures g.Waits() == old(g.Waits()) && g.driver == old(g.driver)
    {
      var drv := element.parentPage.driver;
      ghost var clicked: seq<DriverCall>;
      var first;
      first, pageAlert, clicked := element.ClickAndTreatAlert(g, alertResolveStatus, timeToWaitForAlert, true,
                                                              waitForPageToLoadAfterAlert);
      if first.Err? {
        return Err(first.error), None, false;
      }
      clickPage := first.value;
      ghost var mid := drv.log;
      if pageAlert && alertResolveStatus in {Accept, Dismiss} {
        ghost var c := Resolution(if alertResolveStatus == Accept then AcceptIt else DismissIt);
        ghost var i :| |clicked| <= i < |mid| && mid[i] == c;
        assert CalledSince(old(drv.log), mid, c);
      }
      r := element.GetPageInstance(g, popup);
      if r.Ok? && pageAlert && alertResolveStatus in {Accept, Dismiss} {
        CalledSinceGrows(old(drv.log), mid, drv.log, Resolution(if alertResolveStatus == Accept then AcceptIt else DismissIt));
      }
    }
  }
}

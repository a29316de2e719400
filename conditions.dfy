/**
 * The expected conditions of BeazleyWebDriverExtensions: each looks the
 * element up under a one-second implicit wait (PeekElement), tests it, and
 * runs inside TryAction, which turns the driver's transient failures into
 * `false`.
 */
module Conditions {
  import opened Wrappers
  import opened Exceptions
  import opened Driver
  import opened ElementLookup
  import opened Globals
  import opened ImplicitWaitContext
  import Text

  datatype Condition =
    | ElementIsVisible
    | ElementIsNotVisible
    | ElementExists
    | ElementNotExists
    | IsNotStale
    | IsVisibleAndEnabled
    | ElementIsEnabled
    | ElementIsNotEnabled
    | TextPresent(text: Option<string>)
    | TextNotPresent(text: Option<string>)

  /** The implicit wait PeekElement and the visibility test install: one second. */
  const PeekWait: nat := 1000

  /** The tags, lower-cased, whose stale test reads Displayed and Enabled instead of clicking. */
  const ClickableTags: set<string> := {"input", "a", "img", "select", "option", "button", "tr", "td"}

  /** The `disabled` attribute is exactly "true". */
  predicate DisabledAttribute(o: ElementObs) {
    o.Attribute("disabled") == Some("true")
  }

  /** The enabled test of the conditions: no `disabled="true"`, and Enabled. */
  predicate EffectivelyEnabled(o: ElementObs) {
    !DisabledAttribute(o) && o.enabled
  }

  /** The value the text conditions search: the `value` attribute, else the text, else "". */
  function ElementValue(o: ElementObs): string {
    match o.Attribute("value")
    case Some(v) => v
    case None => o.text.GetOr("")
  }

  /** Whether the element's value contains `text`, ignoring case; a null `text` raises NullReference. */
  function TextTest(o: ElementObs, text: Option<string>): Result<bool> {
    if text.None? then Err(NullReference) else Ok(Text.ContainsIgnoreCase(ElementValue(o), text.value))
  }

  /** The test a condition makes on a found element, or the exception reading it raises. */
  function Test(c: Condition, h: ElementHandle, snap: Snapshot): Result<bool> {
    // The existence tests do not read the element.
    if c == ElementExists || c == ElementNotExists then Ok(c == ElementExists)
    else
    match Observe(snap, h)
    case Err(e) => Err(e)
    case Ok(o) =>
      match c
      case ElementExists | ElementNotExists => Ok(c == ElementExists)
      case ElementIsVisible => Ok(o.displayed)
      case ElementIsNotVisible => Ok(!o.displayed)
      case IsVisibleAndEnabled => Ok(o.displayed && EffectivelyEnabled(o))
      case ElementIsEnabled => Ok(EffectivelyEnabled(o))
      case ElementIsNotEnabled => Ok(DisabledAttribute(o) || !o.enabled)
      case TextPresent(text) => TextTest(o, text)
      case TextNotPresent(text) =>
        (match TextTest(o, text)
         case Err(e) => Err(e)
         case Ok(b) => Ok(!b))
      case IsNotStale =>
        if Text.Lower(o.tag) in ClickableTags then Ok(o.displayed && EffectivelyEnabled(o))
        else if ClickResult(snap, h).Fail? then Err(ClickResult(snap, h).error)
        else Ok(true)
  }

  /**
   * The action inside TryAction, given what PeekElement found: its result or
   * the exception it raises. A missing element makes every test false, except
   * NotExists, which is true, and TextNotPresent, which raises.
   */
  function Body(c: Condition, found: Option<ElementHandle>, snap: Snapshot, identifier: string): Result<bool> {
    match found
    case None =>
      if c == ElementNotExists then Ok(true)
      else if c.TextNotPresent? then Err(ElementNotPresent(identifier))
      else Ok(false)
    case Some(h) => Test(c, h, snap)
  }

  /** The exceptions TryAction catches: the WebDriver family and InvalidOperation. */
  predicate Absorbed(e: Exception) {
    e.IsWebDriverException() || e == InvalidOperation
  }

  /** TryAction: the action's result, `false` for a caught exception, any other exception raised on. */
  function Absorb(r: Result<bool>): (a: Result<bool>)
    ensures r.Ok? ==> a == r
    ensures r.Err? && Absorbed(r.error) ==> a == Ok(false)
    ensures r.Err? && !Absorbed(r.error) ==> a == r
  {
    if r.Err? && Absorbed(r.error) then Ok(false) else r
  }

  /**
   * What a condition returns on the page `snap`: InstanceNotFound when no
   * driver is set (PeekElement's wait context fails first), a failure of the
   * page's lookup raised unchanged, otherwise the absorbed action.
   */
  function Check(c: Condition, driverSet: bool, loc: Locator, snap: Snapshot): Result<bool> {
    if !driverSet then Err(InstanceNotFound(DriverMissing))
    else
      match Resolve(loc, snap)
      case Err(e) => Err(e)
      case Ok(found) => Absorb(Body(c, found, snap, loc.identifier))
  }

  /** The click the stale test makes on an element whose tag is not in the clickable list. */
  function StaleTestClick(c: Condition, driverSet: bool, loc: Locator, snap: Snapshot): Option<By> {
    if c != IsNotStale || !driverSet then None
    else
      match Resolve(loc, snap)
      case Ok(Some(h)) =>
        if Observe(snap, h).Ok? && Text.Lower(Observe(snap, h).value.tag) !in ClickableTags
           && ClickResult(snap, h).Pass?
        then Some(h.locator) else None
      case _ => None
  }

  /** A trace made only of implicit-wait changes has no actions. */
  lemma {:induction false} WaitCallsOnly(s: seq<DriverCall>)
    requires forall i | 0 <= i < |s| :: s[i].SetImplicitWait?
    ensures Actions(s) == []
  {
    if s != [] {
      WaitCallsOnly(s[1..]);
    }
  }

  /**
   * PeekElement: the element as the page finds it, looked up under a
   * one-second implicit wait that is restored afterwards, also when the
   * lookup raises.
   */
  method PeekElement(g: Globals, loc: Locator, drv: Browser) returns (r: Result<Option<ElementHandle>>)
    requires g.driver == null || g.driver == drv
    modifies g, drv
    ensures old(g.driver) == null ==> r == Err(InstanceNotFound(DriverMissing))
    ensures old(g.driver) != null ==> r == Resolve(loc, old(drv.Now()))
    ensures g.Waits() == old(g.Waits()) && g.Rest() == old(g.Rest())
    ensures drv.Position() == old(drv.Position())
    ensures g.driver != null ==> drv.implicitWait == g.implicitWait
    ensures g.driver != null ==> drv.log == old(drv.log) + [SetImplicitWait(PeekWait), SetImplicitWait(g.implicitWait)]
    ensures g.driver == null ==> drv.implicitWait == old(drv.implicitWait) && drv.log == old(drv.log)
  {
    var ctx :- ImplicitWaitContext.Create(g, PeekWait);
    r := Resolve(loc, drv.Now());
    var _ := ctx.Dispose();
    RestoreUndoesChange(old(g.Waits()), PeekWait);
  }

  /** The visibility test on a found element: Displayed, read inside a second one-second wait context. */
  method ReadDisplayed(g: Globals, h: ElementHandle, drv: Browser) returns (r: Result<bool>)
    requires g.driver == drv
    modifies g, drv
    ensures r == Absorb(Test(ElementIsVisible, h, old(drv.Now())))
    ensures g.Waits() == old(g.Waits()) && g.Rest() == old(g.Rest())
    ensures drv.Position() == old(drv.Position()) && drv.implicitWait == g.implicitWait
    ensures drv.log == old(drv.log) + [SetImplicitWait(PeekWait), SetImplicitWait(g.implicitWait)]
  {
    var ctx := ImplicitWaitContext.Create(g, PeekWait);
    var o := Observe(drv.Now(), h);
    var _ := ctx.value.Dispose();
    RestoreUndoesChange(old(g.Waits()), PeekWait);
    r := Absorb(if o.Err? then Err(o.error) else Ok(o.value.displayed));
  }

  /** The stale test on a found element: the tag decides between reading its state and clicking it. */
  method StaleTest(h: ElementHandle, drv: Browser) returns (r: Result<bool>)
    modifies drv
    ensures r == Absorb(Test(IsNotStale, h, old(drv.Now())))
    ensures drv.Position() == old(drv.Position()) && drv.implicitWait == old(drv.implicitWait)
    ensures var o := Observe(old(drv.Now()), h);
      drv.log == old(drv.log) +
        (if o.Ok? && Text.Lower(o.value.tag) !in ClickableTags && ClickResult(old(drv.Now()), h).Pass?
         then [Click(h.locator)] else [])
  {
    var o := Observe(drv.Now(), h);
    if o.Err? || Text.Lower(o.value.tag) in ClickableTags {
      r := Absorb(Test(IsNotStale, h, drv.Now()));
      return;
    }
    var clicked := drv.ClickOn(h);
    r := Absorb(if clicked.Fail? then Err(clicked.error) else Ok(true));
  }

  /**
   * One evaluation of condition `c` on the element `loc`: the value of
   * Check on the page as it is, with the implicit wait state left as it was.
   * Apart from implicit-wait changes the only command sent is the stale
   * test's click.
   */
  method Evaluate(c: Condition, g: Globals, loc: Locator, drv: Browser) returns (r: Result<bool>)
    requires g.driver == null || g.driver == drv
    modifies g, drv
    ensures r == Check(c, old(g.driver) != null, loc, old(drv.Now()))
    ensures g.Waits() == old(g.Waits()) && g.Rest() == old(g.Rest())
    ensures drv.Position() == old(drv.Position())
    ensures g.driver != null ==> drv.implicitWait == g.implicitWait
    ensures g.driver == null ==> drv.implicitWait == old(drv.implicitWait)
    ensures old(drv.log) <= drv.log
    ensures var click := StaleTestClick(c, old(g.driver) != null, loc, old(drv.Now()));
      Actions(drv.log[|old(drv.log)|..]) == (if click.Some? then [Click(click.value)] else [])
  {
    ghost var log0 := drv.log;
    ghost var snap := drv.Now();
    var found := PeekElement(g, loc, drv);
    WaitCallsOnly(drv.log[|log0|..]);
    if found.Err? {
      return Err(found.error);
    }
    assert found == Resolve(loc, snap) && drv.Now() == snap;
    ghost var log1 := drv.log;
    if found.value.Some? {
      r := TestFound(c, g, found.value.value, drv, loc.identifier);
    } else {
      r := Absorb(Body(c, found.value, drv.Now(), loc.identifier));
      assert drv.log[|log1|..] == [];
    }
    assert drv.log[|log0|..] == log1[|log0|..] + drv.log[|log1|..];
    ActionsAppend(log1[|log0|..], drv.log[|log1|..]);
  }

  /**
   * The test of condition `c` on a found element, as Evaluate makes it:
   * Visible reads the element inside a wait context, the stale test may
   * click it, and every other test only reads it.
   */
  method TestFound(c: Condition, g: Globals, h: ElementHandle, drv: Browser, identifier: string) returns (r: Result<bool>)
    requires g.driver == drv && drv.implicitWait == g.implicitWait
    modifies g, drv
    ensures r == Absorb(Body(c, Some(h), old(drv.Now()), identifier))
    ensures g.Waits() == old(g.Waits()) && g.Rest() == old(g.Rest())
    ensures drv.Position() == old(drv.Position()) && drv.implicitWait == g.implicitWait
    ensures old(drv.log) <= drv.log
    ensures var o := Observe(old(drv.Now()), h);
      Actions(drv.log[|old(drv.log)|..]) ==
        (if c == IsNotStale && o.Ok? && Text.Lower(o.value.tag) !in ClickableTags && ClickResult(old(drv.Now()), h).Pass?
         then [Click(h.locator)] else [])
  {
    if c == ElementIsVisible {
      r := ReadDisplayed(g, h, drv);
      WaitCallsOnly(drv.log[|old(drv.log)|..]);
    } else if c == IsNotStale {
      r := StaleTest(h, drv);
      if drv.log != old(drv.log) {
        assert drv.log[|old(drv.log)|..] == [Click(h.locator)];
        assert Actions(drv.log[|old(drv.log)|..]) == [Click(h.locator)];
      } else {
        assert drv.log[|old(drv.log)|..] == [];
      }
    } else {
      r := Absorb(Body(c, Some(h), drv.Now(), identifier));
      assert drv.log[|old(drv.log)|..] == [];
    }
  }

  /** Visible and NotVisible are both false for a missing element, and opposites for a readable one. */
  lemma VisibilityOfMissingElement(found: Option<ElementHandle>, snap: Snapshot, id: string)
    ensures found.None? ==> Body(ElementIsVisible, found, snap, id) == Ok(false)
    ensures found.None? ==> Body(ElementIsNotVisible, found, snap, id) == Ok(false)
    ensures found.Some? && Observe(snap, found.value).Ok? ==>
      Body(ElementIsNotVisible, found, snap, id).Ok? &&
      Body(ElementIsNotVisible, found, snap, id).value == !Body(ElementIsVisible, found, snap, id).value
  {
  }

  /** Exists and NotExists are exact complements of whether the lookup found the element. */
  lemma ExistenceIsComplementary(found: Option<ElementHandle>, snap: Snapshot, id: string)
    ensures Body(ElementExists, found, snap, id) == Ok(found.Some?)
    ensures Body(ElementNotExists, found, snap, id) == Ok(!found.Some?)
  {
  }

  /** On a found, readable element NotEnabled is the negation of Enabled; a missing one fails both. */
  lemma NotEnabledNegatesEnabled(found: Option<ElementHandle>, snap: Snapshot, id: string)
    ensures found.None? ==> Body(ElementIsEnabled, found, snap, id) == Body(ElementIsNotEnabled, found, snap, id) == Ok(false)
    ensures found.Some? && Observe(snap, found.value).Ok? ==>
      Body(ElementIsNotEnabled, found, snap, id).Ok? &&
      Body(ElementIsNotEnabled, found, snap, id).value == !Body(ElementIsEnabled, found, snap, id).value
    ensures found.Some? && Observe(snap, found.value).Ok? && DisabledAttribute(Observe(snap, found.value).value) ==>
      Body(ElementIsEnabled, found, snap, id) == Ok(false) && Body(ElementIsNotEnabled, found, snap, id) == Ok(true)
  {
  }

  /** VisibleAndEnabled holds exactly when the element is found, displayed, not `disabled="true"` and enabled. */
  lemma VisibleAndEnabledExactly(found: Option<ElementHandle>, snap: Snapshot, id: string)
    ensures Body(IsVisibleAndEnabled, found, snap, id) == Ok(true) <==>
      found.Some? && Observe(snap, found.value).Ok? && Observe(snap, found.value).value.displayed
      && Observe(snap, found.value).value.Attribute("disabled") != Some("true")
      && Observe(snap, found.value).value.enabled
  {
  }

  /**
   * The stale test is the visible-and-enabled test on the clickable tags; on
   * any other tag it is true whenever the click goes through.
   */
  lemma StaleTestByTag(found: Option<ElementHandle>, snap: Snapshot, id: string)
    requires found.Some? && Observe(snap, found.value).Ok?
    ensures Text.Lower(Observe(snap, found.value).value.tag) in ClickableTags ==>
      Body(IsNotStale, found, snap, id) == Body(IsVisibleAndEnabled, found, snap, id)
    ensures Text.Lower(Observe(snap, found.value).value.tag) !in ClickableTags ==>
      (Body(IsNotStale, found, snap, id) == Ok(true) <==> ClickResult(snap, found.value).Pass?)
  {
  }

  /**
   * TextNotPresent negates TextPresent on a readable element, but raises
   * ElementNotPresent for a missing one, where TextPresent is false; TryAction
   * lets that exception through.
   */
  lemma TextNotPresentOnMissingElement(text: Option<string>, loc: Locator, snap: Snapshot)
    ensures Resolve(loc, snap) == Ok(None) ==>
      Check(TextNotPresent(text), true, loc, snap) == Err(ElementNotPresent(loc.identifier))
      && Check(TextPresent(text), true, loc, snap) == Ok(false)
    ensures (Resolve(loc, snap).Ok? && Resolve(loc, snap).value.Some? && text.Some?
             && Observe(snap, Resolve(loc, snap).value.value).Ok?) ==>
      Check(TextNotPresent(text), true, loc, snap).Ok?
      && Check(TextNotPresent(text), true, loc, snap).value == !Check(TextPresent(text), true, loc, snap).value
  {
  }

  /**
   * A condition never raises a WebDriver exception: whatever it raises is
   * one TryAction does not catch.
   */
  lemma ConditionsRaiseNoDriverErrors(c: Condition, driverSet: bool, loc: Locator, snap: Snapshot)
    ensures Check(c, driverSet, loc, snap).Err? ==> !Absorbed(Check(c, driverSet, loc, snap).error)
  {
    if driverSet && Resolve(loc, snap).Err? {
      var e := Resolve(loc, snap).error;
      assert Key(loc.identifier) in loc.table;
      var q := ElementConfiguration.FindElement(loc.table[Key(loc.identifier)], []);
      assert e == NullReference || e == Exceptions.Format;
    }
  }
}

/**
 * The browser behind Selenium's IWebDriver, as the framework sees it.
 *
 * What the page shows is a schedule fixed in advance: `world(t)` is the
 * snapshot at millisecond `t` (title, alert, the elements each locator
 * finds, the open windows, the pending-ajax count). Every schedule is
 * allowed, so whatever the browser does in reaction to a click is one of
 * the schedules the proofs cover. The framework's own influence on the
 * driver (the clock it spends sleeping, the implicit wait it installs, the
 * window and frame it switches to) is state of the `Browser` object, and
 * every command sent to the browser is appended to the ghost `log`.
 */
module Driver {
  import opened Wrappers
  import opened Exceptions

  /** Selenium's locators (OpenQA.Selenium.By). */
  datatype By =
    | ById(query: string)
    | ByName(query: string)
    | ByXPath(query: string)
    | ByLinkText(query: string)
    | ByPartialLinkText(query: string)
    | ByClassName(query: string)

  /**
   * One DOM element as the driver reports it. Reading any of its properties,
   * or acting on it, raises `fault` when there is one.
   */
  datatype ElementObs = ElementObs(
    tag: string,
    displayed: bool,
    enabled: bool,
    attributes: map<string, string>,
    text: Option<string>,
    fault: Option<Exception>)
  {
    /** `IWebElement.GetAttribute(name)`: null for an absent attribute. */
    function Attribute(name: string): Option<string> {
      if name in attributes then Some(attributes[name]) else None
    }
  }

  /**
   * What the browser shows at one instant. `title` is None when reading the
   * title fails; `pendingAjax` is None when the ajax-count script yields null
   * or throws.
   */
  datatype Snapshot = Snapshot(
    title: Option<string>,
    alert: Option<string>,
    elements: map<By, ElementObs>,
    windowHandles: seq<string>,
    pendingAjax: Option<int>)
  {
    predicate AjaxSettled() {
      pendingAjax.None? || pendingAjax.value <= 0
    }
  }

  /** An IWebElement reference: the node the locator found. */
  datatype ElementHandle = ElementHandle(locator: By)

  /** Reads a found element: it raises StaleElementReference once its node is gone. */
  function Observe(snap: Snapshot, h: ElementHandle): (r: Result<ElementObs>)
    ensures r.Ok? <==> h.locator in snap.elements && snap.elements[h.locator].fault.None?
    ensures r.Ok? ==> r.value == snap.elements[h.locator]
  {
    if h.locator !in snap.elements then Err(StaleElementReference)
    else
      var o := snap.elements[h.locator];
      if o.fault.Some? then Err(o.fault.value) else Ok(o)
  }

  /** `driver.FindElement(locator)`: the element, or NoSuchElementException. */
  function FindElement(snap: Snapshot, locator: By): (r: Result<ElementHandle>)
    ensures r.Ok? <==> locator in snap.elements
    ensures r.Ok? ==> r.value.locator == locator
    ensures r.Err? ==> r.error == NoSuchElement
  {
    if locator in snap.elements then Ok(ElementHandle(locator)) else Err(NoSuchElement)
  }

  /** The commands the framework sends to the browser. */
  datatype DriverCall =
    | SetImplicitWait(ms: nat)
    | Sleep(ms: nat)
    | Click(locator: By)
    | SendKeys(locator: By, keys: string)
    | Clear(locator: By)
    | GoToUrl(url: string)
    | SwitchToFrame(locator: By)
    | SwitchToAlert
    | SwitchToWindow(handle: string)
    | SwitchToDefaultContent
    | SwitchToActiveElement
    | AcceptAlert
    | DismissAlert
    | ExecuteScript

  /** The commands of a trace other than implicit-wait changes: what the page is actually asked to do. */
  function Actions(log: seq<DriverCall>): (r: seq<DriverCall>)
    ensures |r| <= |log|
    ensures forall c | c in r :: c in log && !c.SetImplicitWait?
  {
    if log == [] then []
    else (if log[0].SetImplicitWait? then [] else [log[0]]) + Actions(log[1..])
  }

  /** The actions of two traces run one after the other are the actions of each, in order. */
  lemma {:induction false} ActionsAppend(a: seq<DriverCall>, b: seq<DriverCall>)
    ensures Actions(a + b) == Actions(a) + Actions(b)
  {
    if a == [] {
      assert a + b == b;
    } else {
      assert (a + b)[0] == a[0];
      assert (a + b)[1..] == a[1..] + b;
      ActionsAppend(a[1..], b);
    }
  }

  /** The number of clicks in a trace. */
  function ClickCount(log: seq<DriverCall>): (n: nat)
    ensures n <= |log|
    ensures n == 0 <==> forall i | 0 <= i < |log| :: !log[i].Click?
  {
    if log == [] then 0
    else (if log[0].Click? then 1 else 0) + ClickCount(log[1..])
  }

  /** Clicks of two traces run one after the other add up. */
  lemma {:induction false} ClickCountAppend(a: seq<DriverCall>, b: seq<DriverCall>)
    ensures ClickCount(a + b) == ClickCount(a) + ClickCount(b)
  {
    if a == [] {
      assert a + b == b;
    } else {
      assert (a + b)[0] == a[0];
      assert (a + b)[1..] == a[1..] + b;
      ClickCountAppend(a[1..], b);
    }
  }

  class Browser {
    /** What the browser shows at each millisecond. */
    const world: nat -> Snapshot
    /** Whether the driver implements IJavaScriptExecutor. */
    const isScriptExecutor: bool
    /** From this instant on the page reports no pending ajax calls. */
    ghost const settledFrom: nat

    var clock: nat
    var implicitWait: nat
    var currentWindow: string
    var frame: Option<By>
    ghost var log: seq<DriverCall>

    /** The ajax count settles for good at some instant. */
    ghost predicate Valid() {
      forall t: nat :: t >= settledFrom ==> world(t).AjaxSettled()
    }

    constructor(world: nat -> Snapshot, isScriptExecutor: bool, window: string, ghost settledFrom: nat)
      requires forall t: nat :: t >= settledFrom ==> world(t).AjaxSettled()
      ensures Valid()
      ensures this.world == world && this.isScriptExecutor == isScriptExecutor
      ensures clock == 0 && implicitWait == 0 && currentWindow == window && frame == None && log == []
    {
      this.world := world;
      this.isScriptExecutor := isScriptExecutor;
      this.settledFrom := settledFrom;
      clock := 0;
      implicitWait := 0;
      currentWindow := window;
      frame := None;
      log := [];
    }

    /** Where the framework has put the browser: its clock, window and frame. */
    function Position(): (nat, string, Option<By>)
      reads this
    {
      (clock, currentWindow, frame)
    }

    /** The snapshot the browser shows now. */
    function Now(): Snapshot
      reads this
    {
      world(clock)
    }

    /** `Manage().Timeouts().ImplicitlyWait(ms)`. */
    method SetImplicitWait(ms: nat)
      modifies this
      ensures implicitWait == ms && log == old(log) + [DriverCall.SetImplicitWait(ms)]
      ensures clock == old(clock) && currentWindow == old(currentWindow) && frame == old(frame)
    {
      implicitWait := ms;
      log := log + [DriverCall.SetImplicitWait(ms)];
    }

    /** `Thread.Sleep(ms)`: the only way time passes. */
    method Sleep(ms: nat)
      modifies this
      ensures clock == old(clock) + ms && log == old(log) + [DriverCall.Sleep(ms)]
      ensures implicitWait == old(implicitWait) && currentWindow == old(currentWindow) && frame == old(frame)
    {
      clock := clock + ms;
      log := log + [DriverCall.Sleep(ms)];
    }

    /**
     * `IWebElement.Click()`: raises the element's fault, StaleElementReference
     * when its node is gone, ElementNotVisible when it is not displayed.
     */
    method ClickOn(h: ElementHandle) returns (r: Outcome)
      modifies this
      ensures r == ClickResult(Now(), h)
      ensures log == old(log) + (if r.Pass? then [Click(h.locator)] else [])
      ensures clock == old(clock) && implicitWait == old(implicitWait)
      ensures currentWindow == old(currentWindow) && frame == old(frame)
    {
      r := ClickResult(Now(), h);
      if r.Pass? {
        log := log + [Click(h.locator)];
      }
    }

    /** `IWebElement.SendKeys(keys)`, with the same failures as a click. */
    method SendKeysTo(h: ElementHandle, keys: string) returns (r: Outcome)
      modifies this
      ensures r == ClickResult(Now(), h)
      ensures log == old(log) + (if r.Pass? then [SendKeys(h.locator, keys)] else [])
      ensures clock == old(clock) && implicitWait == old(implicitWait)
      ensures currentWindow == old(currentWindow) && frame == old(frame)
    {
      r := ClickResult(Now(), h);
      if r.Pass? {
        log := log + [SendKeys(h.locator, keys)];
      }
    }

    /** `IWebElement.Clear()`, with the same failures as a click. */
    method ClearOn(h: ElementHandle) returns (r: Outcome)
      modifies this
      ensures r == ClickResult(Now(), h)
      ensures log == old(log) + (if r.Pass? then [Clear(h.locator)] else [])
      ensures clock == old(clock) && implicitWait == old(implicitWait)
      ensures currentWindow == old(currentWindow) && frame == old(frame)
    {
      r := ClickResult(Now(), h);
      if r.Pass? {
        log := log + [Clear(h.locator)];
      }
    }

    /** `Navigate().GoToUrl(url)`: leaves any frame. */
    method GoTo(url: string)
      modifies this
      ensures log == old(log) + [GoToUrl(url)] && frame == None
      ensures clock == old(clock) && implicitWait == old(implicitWait) && currentWindow == old(currentWindow)
    {
      frame := None;
      log := log + [GoToUrl(url)];
    }

    /** `SwitchTo().Frame(element)`: null raises ArgumentNull, a gone node StaleElementReference. */
    method SwitchFrame(h: Option<ElementHandle>) returns (r: Outcome)
      modifies this
      ensures h.None? ==> r == Fail(ArgumentNull)
      ensures h.Some? ==> (r.Pass? <==> h.value.locator in Now().elements)
      ensures r.Fail? ==> frame == old(frame) && log == old(log)
      ensures r.Pass? ==> frame == Some(h.value.locator) && log == old(log) + [SwitchToFrame(h.value.locator)]
      ensures r.Fail? && h.Some? ==> r == Fail(StaleElementReference)
      ensures clock == old(clock) && implicitWait == old(implicitWait) && currentWindow == old(currentWindow)
    {
      if h.None? {
        return Fail(ArgumentNull);
      }
      if h.value.locator !in Now().elements {
        return Fail(StaleElementReference);
      }
      frame := Some(h.value.locator);
      log := log + [SwitchToFrame(h.value.locator)];
      r := Pass;
    }

    /** `SwitchTo().Alert()`: NoAlertPresent when the page shows none. */
    method SwitchAlert() returns (r: Outcome)
      modifies this
      ensures r.Pass? <==> Now().alert.Some?
      ensures r.Fail? ==> r.error == NoAlertPresent && log == old(log)
      ensures r.Pass? ==> log == old(log) + [SwitchToAlert]
      ensures clock == old(clock) && implicitWait == old(implicitWait)
      ensures currentWindow == old(currentWindow) && frame == old(frame)
    {
      if Now().alert.None? {
        return Fail(NoAlertPresent);
      }
      log := log + [SwitchToAlert];
      r := Pass;
    }

    /**
     * `SwitchTo().Window(handle)`: a null handle or one the browser does not
     * have raises NoSuchWindow; otherwise the window becomes current, at its
     * top-level document.
     */
    method SwitchWindow(handle: Option<string>) returns (r: Outcome)
      modifies this
      ensures r.Pass? <==> handle.Some? && handle.value in Now().windowHandles
      ensures r.Fail? ==> r.error == NoSuchWindow && log == old(log)
      ensures r.Fail? ==> currentWindow == old(currentWindow) && frame == old(frame)
      ensures r.Pass? ==> currentWindow == handle.value && frame == None
      ensures r.Pass? ==> log == old(log) + [SwitchToWindow(handle.value)]
      ensures clock == old(clock) && implicitWait == old(implicitWait)
    {
      if handle.None? || handle.value !in Now().windowHandles {
        return Fail(NoSuchWindow);
      }
      currentWindow := handle.value;
      frame := None;
      log := log + [SwitchToWindow(handle.value)];
      r := Pass;
    }

    /** `SwitchTo().DefaultContent()`. */
    method SwitchDefaultContent()
      modifies this
      ensures frame == None && log == old(log) + [SwitchToDefaultContent]
      ensures clock == old(clock) && implicitWait == old(implicitWait) && currentWindow == old(currentWindow)
    {
      frame := None;
      log := log + [SwitchToDefaultContent];
    }

    /** `SwitchTo().ActiveElement()`: focuses nothing new, only logged. */
    method SwitchActiveElement()
      modifies this
      ensures log == old(log) + [SwitchToActiveElement]
      ensures clock == old(clock) && implicitWait == old(implicitWait)
      ensures currentWindow == old(currentWindow) && frame == old(frame)
    {
      log := log + [SwitchToActiveElement];
    }

    /** `IAlert.Accept()` / `IAlert.Dismiss()` on an alert that is showing. */
    method ResolveAlert(accept: bool)
      modifies this
      ensures log == old(log) + [if accept then AcceptAlert else DismissAlert]
      ensures clock == old(clock) && implicitWait == old(implicitWait)
      ensures currentWindow == old(currentWindow) && frame == old(frame)
    {
      log := log + [if accept then AcceptAlert else DismissAlert];
    }

    /**
     * Runs the pending-ajax script: the count, or None when the script yields
     * null or throws. A script round trip takes one millisecond.
     */
    method RunAjaxScript() returns (count: Option<int>)
      modifies this
      ensures count == old(Now()).pendingAjax
      ensures clock == old(clock) + 1 && log == old(log) + [ExecuteScript]
      ensures implicitWait == old(implicitWait) && currentWindow == old(currentWindow) && frame == old(frame)
    {
      count := Now().pendingAjax;
      clock := clock + 1;
      log := log + [ExecuteScript];
    }
  }

  /** What acting on element `h` in snapshot `snap` raises, if anything. */
  function ClickResult(snap: Snapshot, h: ElementHandle): (r: Outcome)
    ensures r.Pass? <==> Observe(snap, h).Ok? && Observe(snap, h).value.displayed
    ensures Observe(snap, h).Err? ==> r == Fail(Observe(snap, h).error)
  {
    match Observe(snap, h)
    case Err(e) => Fail(e)
    case Ok(o) => if o.displayed then Pass else Fail(ElementNotVisible)
  }
}

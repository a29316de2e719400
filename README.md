# BeazleyAF core, modelled in Dafny

BeazleyAF is a C# page-object framework on top of Selenium WebDriver. The
core modelled here is the part every test goes through:

- **Globals**: the process-wide browser session, the implicit-wait stack and
  the registry of navigation triggers.
- **ImplicitWaitContext**: a scope that raises the implicit wait on entry and
  restores it on exit.
- **ElementConfiguration**: the element table read from configuration.
- **BasePage, ContainerBasePage, ContainerContext, ContainerWebElement**: page
  objects. A page object loads itself with a navigation guard and then waits
  for its title. It looks elements up in its element table, handles alerts,
  waits for pending ajax calls, and switches into and out of frames, alerts
  and windows.
- **WaitHelper** with the `Until` entry points: a fluent builder of explicit
  waits.
- **BeazleyWebDriverExtensions**: the expected conditions those waits poll.
- **WebElement, LinkWebElement and WebElementExtensions**: element actions.
  The central one is Click. It checks that the element is not stale, visible
  and enabled. It then either clicks natively or navigates to the next page
  object through a registered trigger, and afterwards treats the alerts that
  appear.
- **Website**: the entry points a test starts from.

## How the model is built

- **The browser.** The browser is a class `Driver.Browser`. Its state is the
  part the framework controls: a millisecond clock, the implicit wait, the
  current window and frame, and a ghost log of every call sent to the browser.
  What the browser shows is an oracle `world: nat -> Snapshot`. A snapshot
  holds the title, the open alert, the elements found by each locator, the
  window handles and the jQuery active count. Sleeping advances the clock, and
  every observation reads `world(clock)`. Many contracts are therefore stated
  in terms of the log. Examples:
  - "only sleeps and alert switches happened since the click";
  - "an AcceptAlert was sent";
  - "at most four clicks were sent by the navigation guard".
- **Exceptions.** Exceptions are values. Operations return `Result`/`Outcome`
  carrying the .NET exception the source would raise. The catch-all handlers
  of the source appear as explicit absorption. Examples:
  - `Conditions.Absorb` turns the WebDriver exception family into `false`,
    as `TryAction` does;
  - `Exceptions.Format` is what a bad `string.Format` pattern raises.
- **Process-wide state.** Static C# state becomes fields of one `Globals`
  object:
  - the driver and implicit waits;
  - the timeout stack;
  - the trigger dictionary;
  - the page-object configuration;
  - `BasePage.DefaultTimeout`/`DefaultPollingFrequency`.
- **Stateful objects.** Objects whose fields change are classes with
  `modifies` frames:
  - page objects (`Pages.Page`, with their element table `queries`);
  - container contexts and container elements;
  - wait helpers;
  - web elements;
  - the website.
- **Waits.** `WebDriverWait.Until` is specified by the function
  `WaitHelper.Poll`. Polling loops (`PollUntil`, the navigation guard,
  `WaitForAlertAsLongAs`, `WaitForPendingAjaxCalls`) are `while` loops proved
  against that function or against stated bounds.

Source facts the model makes explicit and proves:

- `BecomesDisabled()` polls the *enabled* condition (WaitHelper.cs:74-76).
  See `WaitHelper.DisabledWaitsForEnabled`.
- `WithPollingFrequency` sets the timeout, not the polling interval
  (WaitHelper.cs:130-134). The model does the same.
- Load's guard compares titles ignoring case (BasePage.cs:92). The title wait
  that follows compares them case-sensitively (BasePage.cs:458). A page that
  shows "myBeazley UAT" for a page object titled "MyBeazley UAT" is loaded,
  yet its title wait always times out. See `Pages.LoadedPageTitleWaitTimesOut`
  and `Pages.CaseOnlyMatch`.
- When `TriggerNavigationFor` fails inside `OpenNextPage`, the trigger that
  was just registered stays registered. The `finally` block of the source is
  never reached on that path. See the third disjunct in
  `Elements.WebElement.ClickNoWait`.
- `WaitForPendingAjaxCalls` polls `jQuery.active` with no timeout and no
  pause (BasePage.cs:426-443; the loop's own comment leaves the timeout to be
  handled elsewhere). On a page whose count never falls to 0 it never
  returns. `Pages.UnsettledAjaxNeverEnds` proves that no number of script
  calls ends the loop on such a page, and the model's browsers are therefore
  ones that settle (see "Left out").
- Pages are created by `Activator.CreateInstance` with four arguments: the
  driver, the container type, a string and a container (WebElement.cs:202
  and 258, Website.cs:24). The default binder fills no optional parameter,
  and ContainerBasePage's only constructor takes five, so a container page
  can never be created this way: MissingMethodException. A plain page with a
  container type set fails the same way, because the boxed ContainerType
  lands on the `title` string parameter. An exception the constructor raises
  reaches the caller wrapped in TargetInvocationException. See
  `Pages.BindsFourArguments` and `Pages.Page.CreateInstance`.

## Model

| member | source | states |
|---|---|---|
| Text.Lower | BeazleyAF/Beazley.AutomationFramework/InfrastructureObjects/BasePage.cs:92 | lower-casing keeps the length and maps each character by the invariant lower-case mapping |
| Text.LowerIdempotent | BeazleyAF/Beazley.AutomationFramework/InfrastructureObjects/BasePage.cs:92 | lower-casing an already lower-cased title changes nothing, so comparing lowered strings is stable |
| Text.Format | BeazleyAF/Beazley.AutomationFramework/InfrastructureObjects/BasePage.cs:235 | a parameterised query either formats or fails with exactly the FormatException |
| Text.ParseItem | BeazleyAF/Beazley.AutomationFramework/InfrastructureObjects/BasePage.cs:235 | a format item that parses ends at its closing brace and names an existing argument; anything else is a FormatException |
| Text.Aligned | BeazleyAF/Beazley.AutomationFramework/InfrastructureObjects/BasePage.cs:235 | an aligned argument is as long as the width, or the argument when longer; it keeps the argument at the left (negative alignment) or right end and fills the rest with spaces |
| Text.FormatBraceFreePrefix | BeazleyAF/Beazley.AutomationFramework/InfrastructureObjects/BasePage.cs:235 | brace-free text in front of a pattern is copied unchanged to the front of its result, or the pattern fails as it would alone |
| Text.FormatOneItem | BeazleyAF/Beazley.AutomationFramework/InfrastructureObjects/BasePage.cs:235 | a well-formed item between brace-free texts is replaced by its argument padded to the item's alignment |
| Text.AlignedItem | BeazleyAF/Beazley.AutomationFramework/InfrastructureObjects/BasePage.cs:235 | `{0,3}` between brace-free texts formats "1" as "  1", e.g. `//td[{0,3}]` gives `//td[  1]` |
| Text.FormatStringIgnored | BeazleyAF/Beazley.AutomationFramework/InfrastructureObjects/BasePage.cs:235 | `{0:x}` between brace-free texts formats any string argument as itself: a string ignores the format string |
| Text.SpacesBeforeClosingBrace | BeazleyAF/Beazley.AutomationFramework/InfrastructureObjects/BasePage.cs:235 | `{0 }` between brace-free texts formats any argument as itself: spaces may precede the closing brace |
| Text.FormatWithoutBraces | BeazleyAF/Beazley.AutomationFramework/InfrastructureObjects/BasePage.cs:235 | a query with no braces formats to itself, whatever the arguments |
| Text.FormatPlaceholder | BeazleyAF/Beazley.AutomationFramework/InfrastructureObjects/BasePage.cs:235 | a query with one `{0}` placeholder and one argument formats to the query with the argument substituted |
| Driver.Observe | BeazleyAF/Beazley.AutomationFramework/InfrastructureObjects/BasePage.cs:85 | reading an element yields its observed state exactly when it is present and raises no fault |
| Driver.FindElement | BeazleyAF/Beazley.AutomationFramework/InfrastructureObjects/BasePage.cs:203-222 | FindElement succeeds exactly when the locator matches an element and otherwise raises NoSuchElement |
| Driver.ClickResult | BeazleyAF/Beazley.AutomationFramework/InfrastructureObjects/WebElement.cs:243 | a native click goes through exactly when the element can be read and is displayed; a fault is raised unchanged |
| Driver.Browser.SetImplicitWait | BeazleyAF/Beazley.AutomationFramework/Globals.cs:69 | the browser's implicit wait becomes the value and the call is logged; clock, window and frame are untouched |
| Driver.Browser.Sleep | BeazleyAF/Beazley.AutomationFramework/InfrastructureObjects/BasePage.cs:162 | Thread.Sleep advances the clock by exactly the duration and changes nothing else |
| Driver.Browser.ClickOn | BeazleyAF/Beazley.AutomationFramework/InfrastructureObjects/WebElement.cs:243 | a click is logged exactly when it succeeds, with ClickResult as its outcome |
| Driver.Browser.SendKeysTo | BeazleyAF/Beazley.AutomationFramework/InfrastructureObjects/WebElement.cs:112 | keys are logged as sent to the element exactly when it is interactable |
| Driver.Browser.ClearOn | BeazleyAF/Beazley.AutomationFramework/InfrastructureObjects/WebElement.cs:324 | a clear is logged exactly when the element is interactable |
| Driver.Browser.GoTo | BeazleyAF/Beazley.AutomationFramework/InfrastructureObjects/BasePage.cs:327 | navigation logs the URL and leaves any frame |
| Driver.Browser.SwitchFrame | BeazleyAF/Beazley.AutomationFramework/Contexts/ContainerContext.cs:32 | switching to a null frame element raises ArgumentNull; a missing one raises StaleElementReference; on success the frame becomes the element |
| Driver.Browser.SwitchAlert | BeazleyAF/Beazley.AutomationFramework/InfrastructureObjects/BasePage.cs:133 | switching to the alert succeeds exactly when an alert is shown, else NoAlertPresent with nothing logged |
| Driver.Browser.SwitchWindow | BeazleyAF/Beazley.AutomationFramework/Contexts/ContainerContext.cs:35 | switching window succeeds exactly for a handle the browser has open, else NoSuchWindow and no change |
| Driver.Browser.SwitchDefaultContent | BeazleyAF/Beazley.AutomationFramework/Contexts/ContainerContext.cs:68 | default content leaves every frame |
| Driver.Browser.SwitchActiveElement | BeazleyAF/Beazley.AutomationFramework/Contexts/ContainerContext.cs:36 | switching to the active element changes no window or frame |
| Driver.Browser.ResolveAlert | BeazleyAF/Beazley.AutomationFramework/InfrastructureObjects/BasePage.cs:520-530 | accepting or dismissing logs exactly that resolution |
| Driver.Browser.RunAjaxScript | BeazleyAF/Beazley.AutomationFramework/InfrastructureObjects/BasePage.cs:284-303 | the jQuery probe returns the browser's pending-ajax count, where -1 (jQuery not loaded) counts as nothing pending; None stands for the null the catch leaves when the script throws; each call costs one millisecond |
| ElementConfiguration.ParseElement | BeazleyAF/Beazley.AutomationFramework/Configuration/ElementConfiguration.cs:10-60 | name and value are required; `by` defaults to Name and `isParameterized` to false; no finder is installed yet |
| ElementConfiguration.FindElement | BeazleyAF/Beazley.AutomationFramework/Configuration/ElementConfiguration.cs:66-73 | a parameterised element uses its parameterised finder with the arguments formatted in, a plain one its finder; a finder not installed raises NullReference |
| ElementConfiguration.PlainIgnoresArgs | BeazleyAF/Beazley.AutomationFramework/Configuration/ElementConfiguration.cs:66-73 | the arguments are irrelevant to a non-parameterised element |
| ElementConfiguration.InstalledNeverUnset | BeazleyAF/Beazley.AutomationFramework/InfrastructureObjects/BasePage.cs:259-273 | once ParsePageConfig installed the finders, FindElement never raises NullReference; only a parameterised query's formatting can fail |
| ElementLookup.Add | BeazleyAF/Beazley.AutomationFramework/InfrastructureObjects/BasePage.cs:275 | adding to the case-insensitive table succeeds exactly for a new name and raises DuplicateKey otherwise |
| ElementLookup.AttributeQueriesAreXPath | BeazleyAF/Beazley.AutomationFramework/InfrastructureObjects/BasePage.cs:211-214 | Href and Value lookups become the `//*[@href='…']` and `//*[@value='…']` XPath queries; the others keep the query text |
| ElementLookup.FindElementBy | BeazleyAF/Beazley.AutomationFramework/InfrastructureObjects/BasePage.cs:199-231 | FindElementBy yields an element exactly when the translated locator matches one, swallowing the not-found exception |
| ElementLookup.Find | BeazleyAF/Beazley.AutomationFramework/InfrastructureObjects/BasePage.cs:100-109 | Find yields null for an unknown name and otherwise the element the configured query finds, propagating finder errors |
| ElementLookup.FindIgnoresCase | BeazleyAF/Beazley.AutomationFramework/InfrastructureObjects/BasePage.cs:47 | element names that differ only in case find the same element |
| ElementLookup.FindNeverRaisesForMissingElement | BeazleyAF/Beazley.AutomationFramework/InfrastructureObjects/BasePage.cs:100-109 | on a parsed table Find only raises a FormatException, and an element it returns is present in the browser |
| Globals.ChangeAll | BeazleyAF/Beazley.AutomationFramework/Globals.cs:64-72 | each change pushes one entry and the last value pushed becomes the implicit wait |
| Globals.RestoreUndoesChange | BeazleyAF/Beazley.AutomationFramework/Globals.cs:64-82 | RestoreImplicitWait undoes ChangeImplicitWait exactly |
| Globals.RestoreEmptyInstallsDefault | BeazleyAF/Beazley.AutomationFramework/Globals.cs:76 | restoring with an empty stack installs the default wait |
| Globals.NestedScopesRestore | BeazleyAF/Beazley.AutomationFramework/Globals.cs:64-82 | any number of nested changes followed by as many restores gives back the original wait state |
| Globals.TwoChangesTwoRestores | BeazleyAF/Beazley.AutomationFramework/Globals.cs:64-82 | two nested changes and two restores return to the starting state |
| Globals.TriggerOutcome | BeazleyAF/Beazley.AutomationFramework/Globals.cs:107-133 | triggering a page with no trigger does nothing; a StaleElementReference from the click is swallowed; a missing element raises NullReference |
| Globals.RegisterThenUnregister | BeazleyAF/Beazley.AutomationFramework/Globals.cs:86-105 | register followed by unregister leaves the trigger table as before when the page had no trigger |
| Globals.Globals.constructor | BeazleyAF/Beazley.AutomationFramework/Globals.cs:14-19 | a fresh process has no driver, no configuration, zero waits, an empty stack and no triggers |
| Globals.Globals.Setup | BeazleyAF/Beazley.AutomationFramework/Globals.cs:21-25 | Setup installs the driver and sets both current and default implicit wait |
| Globals.Globals.SetupConfiguration | BeazleyAF/Beazley.AutomationFramework/Globals.cs:27-30 | the configuration is stored and nothing else changes |
| Globals.Globals.GetDriver | BeazleyAF/Beazley.AutomationFramework/Globals.cs:42-51 | the driver getter raises InstanceNotFound with the source's message exactly when no driver is set |
| Globals.Globals.GetConfiguration | BeazleyAF/Beazley.AutomationFramework/Globals.cs:53-62 | the configuration getter raises InstanceNotFound exactly when none is set |
| Globals.Globals.ChangeImplicitWait | BeazleyAF/Beazley.AutomationFramework/Globals.cs:64-72 | the old wait is pushed and the new one installed in the browser; with no driver the push happens and the call raises |
| Globals.Globals.RestoreImplicitWait | BeazleyAF/Beazley.AutomationFramework/Globals.cs:74-82 | the top of the stack (or the default) is popped and installed in the browser |
| Globals.Globals.RegisterTrigger | BeazleyAF/Beazley.AutomationFramework/Globals.cs:86-96 | the trigger is set for the page and the result says whether the page had none before |
| Globals.Globals.UnregisterTrigger | BeazleyAF/Beazley.AutomationFramework/Globals.cs:98-105 | the page's trigger is removed and the others kept |
| Globals.Globals.TriggerNavigationFor | BeazleyAF/Beazley.AutomationFramework/Globals.cs:107-133 | the registered element is clicked once, or nothing happens; failures other than staleness propagate with nothing logged |
| ImplicitWaitContext.ImplicitWaitContext.constructor | BeazleyAF/Beazley.AutomationFramework/Contexts/ImplicitWaitContext.cs:11-17 | entering the scope pushes the new implicit wait and installs it in the browser |
| ImplicitWaitContext.ImplicitWaitContext.Create | BeazleyAF/Beazley.AutomationFramework/Contexts/ImplicitWaitContext.cs:25-28 | Create raises InstanceNotFound without a driver, and otherwise opens a scope |
| ImplicitWaitContext.ImplicitWaitContext.Dispose | BeazleyAF/Beazley.AutomationFramework/Contexts/ImplicitWaitContext.cs:19-23 | leaving the scope restores the previous implicit wait |
| Conditions.Absorb | BeazleyAF/Beazley.AutomationFramework/Selenium/BeazleyWebDriverExtensions.cs:315-344 | TryAction turns the WebDriver exception family into false and lets other exceptions through |
| Conditions.PeekElement | BeazleyAF/Beazley.AutomationFramework/Selenium/BeazleyWebDriverExtensions.cs:23-29 | peeking resolves the element under a one-second implicit wait and restores the previous wait afterwards |
| Conditions.ReadDisplayed | BeazleyAF/Beazley.AutomationFramework/Selenium/BeazleyWebDriverExtensions.cs:49-52 | the visibility read happens under a one-second wait scope and gives the visible condition's value |
| Conditions.StaleTest | BeazleyAF/Beazley.AutomationFramework/Selenium/BeazleyWebDriverExtensions.cs:136-167 | the stale test of a clickable tag is the visible-and-enabled test; for other tags it clicks the element once |
| Conditions.Evaluate | BeazleyAF/Beazley.AutomationFramework/Selenium/BeazleyWebDriverExtensions.cs:36-312 | evaluating any expected condition gives its specified value, restores the implicit wait, and sends at most the stale test's click |
| Conditions.VisibilityOfMissingElement | BeazleyAF/Beazley.AutomationFramework/Selenium/BeazleyWebDriverExtensions.cs:36-76 | a missing element is neither visible nor not-visible; a readable one is not-visible exactly when it is not visible |
| Conditions.ExistenceIsComplementary | BeazleyAF/Beazley.AutomationFramework/Selenium/BeazleyWebDriverExtensions.cs:78-115 | exists and not-exists are exact complements |
| Conditions.NotEnabledNegatesEnabled | BeazleyAF/Beazley.AutomationFramework/Selenium/BeazleyWebDriverExtensions.cs:211-260 | on a readable element not-enabled is the negation of enabled, and `disabled="true"` overrides the enabled flag |
| Conditions.VisibleAndEnabledExactly | BeazleyAF/Beazley.AutomationFramework/Selenium/BeazleyWebDriverExtensions.cs:175-208 | visible-and-enabled holds exactly for a found, readable, displayed element that is enabled and not marked disabled |
| Conditions.StaleTestByTag | BeazleyAF/Beazley.AutomationFramework/Selenium/BeazleyWebDriverExtensions.cs:136-167 | the stale test agrees with visible-and-enabled on clickable tags and with click success on others |
| Conditions.TextNotPresentOnMissingElement | BeazleyAF/Beazley.AutomationFramework/Selenium/BeazleyWebDriverExtensions.cs:262-312 | text-not-present raises ElementNotPresent for a missing element while text-present is false; otherwise they are complements |
| Conditions.ConditionsRaiseNoDriverErrors | BeazleyAF/Beazley.AutomationFramework/Selenium/BeazleyWebDriverExtensions.cs:315-344 | no condition ever lets a WebDriver-family exception escape |
| WaitHelper.Poll | BeazleyAF/Beazley.AutomationFramework/WaitHelper.cs:50-120 | an explicit wait passes as soon as the condition holds, and fails only by timeout or by a non-WebDriver exception |
| WaitHelper.PassMeansObserved | BeazleyAF/Beazley.AutomationFramework/WaitHelper.cs:50-120 | a passing wait saw the condition hold at some moment not before its start |
| WaitHelper.StableConditionPasses | BeazleyAF/Beazley.AutomationFramework/WaitHelper.cs:50-120 | a condition that becomes and stays true before the deadline, after only false or not-found readings, makes the wait pass |
| WaitHelper.FalseConditionTimesOut | BeazleyAF/Beazley.AutomationFramework/WaitHelper.cs:50-120 | a condition that stays false makes the wait fail with WebDriverTimeout carrying the message |
| WaitHelper.TimeoutMessage | BeazleyAF/Beazley.AutomationFramework/WaitHelper.cs:59-60 | a blank timeout message is ignored and any other message is used |
| WaitHelper.Step | BeazleyAF/Beazley.AutomationFramework/WaitHelper.cs:61 | the polling interval used is the configured one, at least one millisecond |
| WaitHelper.ConditionFor | BeazleyAF/Beazley.AutomationFramework/WaitHelper.cs:63-95 | every element wait type maps to an expected condition and the title types to none |
| WaitHelper.TitleProbeFor | BeazleyAF/Beazley.AutomationFramework/WaitHelper.cs:106-118 | only the title wait types produce a title probe |
| WaitHelper.DisabledWaitsForEnabled | BeazleyAF/Beazley.AutomationFramework/WaitHelper.cs:74-76 | BecomesDisabled waits for the enabled condition, and no wait type uses the not-enabled condition |
| WaitHelper.RunProbe | BeazleyAF/Beazley.AutomationFramework/WaitHelper.cs:63-118 | one probe gives the condition's value and leaves the wait state and position unchanged |
| WaitHelper.PollUntil | BeazleyAF/Beazley.AutomationFramework/WaitHelper.cs:55-95 | the polling loop computes exactly Poll: it stops at the first true reading and otherwise sleeps one interval up to the timeout |
| WaitHelper.PollStep | BeazleyAF/Beazley.AutomationFramework/WaitHelper.cs:55-95 | one polling round either finishes with the wait's verdict or sleeps one interval without changing that verdict |
| WaitHelper.PollTitle | BeazleyAF/Beazley.AutomationFramework/WaitHelper.cs:97-119 | a title wait fails when the title cannot be read before or after, and otherwise gives the polling verdict; it only sleeps |
| WaitHelper.WaitHelper.ForElement | BeazleyAF/Beazley.AutomationFramework/WaitHelper.cs:157-161 | an element wait starts as ElementExists with no timeout, polling, text or title |
| WaitHelper.WaitHelper.ForTitle | BeazleyAF/Beazley.AutomationFramework/WaitHelper.cs:240-244 | a title wait starts with no element and no settings |
| WaitHelper.WaitHelper.BecomesVisible | BeazleyAF/Beazley.AutomationFramework/WaitHelper.cs:171-176 | the wait type becomes ElementIsVisible and no setting changes |
| WaitHelper.WaitHelper.BecomesNotVisible | BeazleyAF/Beazley.AutomationFramework/WaitHelper.cs:178-182 | the wait type becomes ElementIsNotVisible |
| WaitHelper.WaitHelper.Exists | BeazleyAF/Beazley.AutomationFramework/WaitHelper.cs:184-188 | the wait type becomes ElementExists |
| WaitHelper.WaitHelper.DoesNotExist | BeazleyAF/Beazley.AutomationFramework/WaitHelper.cs:190-194 | the wait type becomes ElementNotExist |
| WaitHelper.WaitHelper.BecomesEnabled | BeazleyAF/Beazley.AutomationFramework/WaitHelper.cs:196-200 | the wait type becomes ElementIsEnabled |
| WaitHelper.WaitHelper.BecomesDisabled | BeazleyAF/Beazley.AutomationFramework/WaitHelper.cs:202-206 | the wait type becomes ElementIsNotEnabled |
| WaitHelper.WaitHelper.IsNotStale | BeazleyAF/Beazley.AutomationFramework/WaitHelper.cs:208-212 | the wait type becomes ElementIsNotStale |
| WaitHelper.WaitHelper.BecomesVisibleAndEnabled | BeazleyAF/Beazley.AutomationFramework/WaitHelper.cs:228-232 | the wait type becomes ElementIsVisibleAndEnabled |
| WaitHelper.WaitHelper.DoesNotContain | BeazleyAF/Beazley.AutomationFramework/WaitHelper.cs:214-219 | the wait type becomes TextNotPresent with the given text |
| WaitHelper.WaitHelper.DoesContain | BeazleyAF/Beazley.AutomationFramework/WaitHelper.cs:221-226 | the wait type becomes TextPresent with the given text |
| WaitHelper.WaitHelper.Is | BeazleyAF/Beazley.AutomationFramework/WaitHelper.cs:258-263 | the wait type becomes TitleIs with the given title |
| WaitHelper.WaitHelper.Contains | BeazleyAF/Beazley.AutomationFramework/WaitHelper.cs:265-270 | the wait type becomes TitleContains with the given title part |
| WaitHelper.WaitHelper.ForNoMoreThan | BeazleyAF/Beazley.AutomationFramework/WaitHelper.cs:143-148 | the timeout is set and the rest kept |
| WaitHelper.WaitHelper.WithPollingFrequency | BeazleyAF/Beazley.AutomationFramework/WaitHelper.cs:130-134 | as written, the timeout is set and the polling interval is left alone |
| WaitHelper.WaitHelper.ProbeOf | BeazleyAF/Beazley.AutomationFramework/WaitHelper.cs:63-118 | an element wait probes for every type but the title ones, a title wait only for those |
| WaitHelper.WaitHelper.EffectiveTimeout | BeazleyAF/Beazley.AutomationFramework/WaitHelper.cs:55 | a wait uses its own timeout, else the implicit wait for elements and the default timeout for titles |
| WaitHelper.WaitHelper.EffectivePolling | BeazleyAF/Beazley.AutomationFramework/WaitHelper.cs:61 | a wait uses its own polling interval, else the page default |
| WaitHelper.WaitHelper.Wait | BeazleyAF/Beazley.AutomationFramework/WaitHelper.cs:50-120 | an element wait is exactly Poll of its condition; a title wait is Poll with the title read before and after; a wait with no probe passes at once |
| WaitHelper.UntilElement | BeazleyAF/Beazley.AutomationFramework/Selenium/BeazleyWebDriverExtensions.cs:349-352 | Until.Element gives a fresh default element wait on the element |
| WaitHelper.UntilTitle | BeazleyAF/Beazley.AutomationFramework/Selenium/BeazleyWebDriverExtensions.cs:354-357 | Until.Title raises InstanceNotFound without a driver and otherwise gives a fresh title wait |
| Pages.ConfigFor | BeazleyAF/Beazley.AutomationFramework/InfrastructureObjects/BasePage.cs:180 | the configuration found for a page class is the first entry of that type, and none is found exactly when no entry has it |
| Pages.ConfigNamed | BeazleyAF/Beazley.AutomationFramework/InfrastructureObjects/BasePage.cs:245 | the configuration found is the first entry with the requested name, and none is found exactly when no entry has it |
| Pages.BasePageOf | BeazleyAF/Beazley.AutomationFramework/InfrastructureObjects/BasePage.cs:239-249 | there is no base page exactly when the base name is null or empty or no entry has it; otherwise it is the first entry with that name |
| Pages.AddAllSucceedsExactly | BeazleyAF/Beazley.AutomationFramework/InfrastructureObjects/BasePage.cs:259-276 | adding a page's elements succeeds exactly when their names are new to the table and pairwise distinct, ignoring case |
| Pages.AddAllOnFreshNames | BeazleyAF/Beazley.AutomationFramework/InfrastructureObjects/BasePage.cs:259-276 | fresh, distinct names are always added |
| Pages.AddAllNeedsFreshNames | BeazleyAF/Beazley.AutomationFramework/InfrastructureObjects/BasePage.cs:259-276 | a successful add implies the names were fresh and distinct |
| Pages.AddAllContents | BeazleyAF/Beazley.AutomationFramework/InfrastructureObjects/BasePage.cs:259-276 | after the add the table keeps its old entries, holds each element with its finder installed, and holds nothing else |
| Pages.AddAllKeepsInstalled | BeazleyAF/Beazley.AutomationFramework/InfrastructureObjects/BasePage.cs:259-276 | adding preserves the invariant that every entry has its finder installed |
| Pages.InstallTwice | BeazleyAF/Beazley.AutomationFramework/InfrastructureObjects/BasePage.cs:264-273 | installing finders twice is the same as once |
| Pages.ParsedTableHoldsOwnElements | BeazleyAF/Beazley.AutomationFramework/InfrastructureObjects/BasePage.cs:251-282 | the parsed table keeps what came before, holds every element of the page installed, and the page's own names never clash with the inherited ones |
| Pages.DuplicateNameIsRejected | BeazleyAF/Beazley.AutomationFramework/InfrastructureObjects/BasePage.cs:275 | two elements whose names differ only in case make parsing fail |
| Pages.FirstNotIn | BeazleyAF/Beazley.AutomationFramework/InfrastructureObjects/ContainerBasePage.cs:49-55 | the newest window handle is the first one not in the snapshot, and there is none only when all were in it |
| Pages.ContainerElement.constructor | BeazleyAF/Beazley.AutomationFramework/InfrastructureObjects/ContainerWebElement.cs:10-15 | a container element keeps its identifier, page and type, with no window name and inactive |
| Pages.ContainerElement.Switch | BeazleyAF/Beazley.AutomationFramework/InfrastructureObjects/ContainerWebElement.cs:21-30 | Switch marks the container active when its element or window name exists, and propagates lookup errors |
| Pages.ContainerElement.Restore | BeazleyAF/Beazley.AutomationFramework/InfrastructureObjects/ContainerWebElement.cs:32-36 | Restore goes back to the default content and marks the container inactive |
| Pages.ContainerContext.constructor | BeazleyAF/Beazley.AutomationFramework/Contexts/ContainerContext.cs:23-27 | a context records the page, its container element and type, and its parent |
| Pages.ContainerContext.Open | BeazleyAF/Beazley.AutomationFramework/Contexts/ContainerContext.cs:23-53 | constructing a context switches into the container; on success the context is active |
| Pages.ContainerContext.ChangeNotNeeded | BeazleyAF/Beazley.AutomationFramework/Contexts/ContainerContext.cs:102-105 | only frames can skip the switch, and only as DoesntNeedSwitch says |
| Pages.ContainerContext.Switch | BeazleyAF/Beazley.AutomationFramework/Contexts/ContainerContext.cs:78-88 | the switch goes to the frame element, the alert, the newest window or the active element by type, failing with the driver's exception and marking the context active on success |
| Pages.ContainerContext.Restore | BeazleyAF/Beazley.AutomationFramework/Contexts/ContainerContext.cs:90-100 | restoring a frame re-enters the parent context or the default content; alerts go to the default content, windows to the last known handle |
| Pages.ContainerContext.Dispose | BeazleyAF/Beazley.AutomationFramework/Contexts/ContainerContext.cs:72-75 | disposing is restoring |
| Pages.Page.constructor | BeazleyAF/Beazley.AutomationFramework/InfrastructureObjects/BasePage.cs:26-38 | a page object starts with its class's title, the given URL, an empty element table and no window snapshot |
| Pages.Page.TitleToWaitFor | BeazleyAF/Beazley.AutomationFramework/InfrastructureObjects/BasePage.cs:53-72 | a plain page waits for its own title; a container with no container element raises NullReference |
| Pages.Page.IsLoaded | BeazleyAF/Beazley.AutomationFramework/InfrastructureObjects/BasePage.cs:74-98 | a page with no title to wait for raises; otherwise it is loaded exactly when the browser title contains it ignoring case |
| Pages.Page.ParentPage | BeazleyAF/Beazley.AutomationFramework/InfrastructureObjects/ContainerBasePage.cs:44-47 | a container page's parent is its container element's page, NullReference without one |
| Pages.Page.DoesntNeedSwitch | BeazleyAF/Beazley.AutomationFramework/InfrastructureObjects/ContainerBasePage.cs:70-83 | DoesntNeedSwitch never says true and raises only when the container is missing |
| Pages.Page.NewestWindowHandle | BeazleyAF/Beazley.AutomationFramework/InfrastructureObjects/ContainerBasePage.cs:49-55 | the newest handle is the first open window not in the snapshot; without a snapshot it raises unless no window is open |
| Pages.Page.ParsePageConfig | BeazleyAF/Beazley.AutomationFramework/InfrastructureObjects/BasePage.cs:251-282 | parsing installs exactly the table ParseTable describes (base page first) or fails with its exception |
| Pages.Page.GetPageFromConfig | BeazleyAF/Beazley.AutomationFramework/InfrastructureObjects/BasePage.cs:178-197 | a page with no configuration keeps its table; otherwise the table becomes the parsed one |
| Pages.Page.StoreWindowHandle | BeazleyAF/Beazley.AutomationFramework/InfrastructureObjects/BasePage.cs:171-175 | the current window and the open handles are recorded |
| Pages.Page.NavigationGuard | BeazleyAF/Beazley.AutomationFramework/InfrastructureObjects/BasePage.cs:334-355 | the guard ends loaded or with its retries spent; it re-triggers at most four times, once per 30-second period, and only sleeps and clicks |
| Pages.Page.GuardStep | BeazleyAF/Beazley.AutomationFramework/InfrastructureObjects/BasePage.cs:340-352 | one guard round re-triggers navigation exactly when more than 30 seconds passed since the stopwatch started, then sleeps 100 ms |
| Pages.Page.Navigate | BeazleyAF/Beazley.AutomationFramework/InfrastructureObjects/BasePage.cs:325-355 | the first call is the GoToUrl of a non-blank URL; without one only the guard's sleeps and clicks happen |
| Pages.Page.Load | BeazleyAF/Beazley.AutomationFramework/InfrastructureObjects/BasePage.cs:315-367 | Load navigates to the URL when not loaded, guards, and passes only after the expected title was shown |
| Pages.Page.WaitForTitleChange | BeazleyAF/Beazley.AutomationFramework/InfrastructureObjects/BasePage.cs:449-462 | a titled page waits, case-sensitively, until the browser title contains the target; a pass means it was seen |
| Pages.Page.WaitForPageToLoad | BeazleyAF/Beazley.AutomationFramework/InfrastructureObjects/BasePage.cs:469-476 | waiting for the page is waiting for its title; it only sleeps |
| Pages.Page.IsAlertPresent | BeazleyAF/Beazley.AutomationFramework/InfrastructureObjects/BasePage.cs:127-141 | an alert is reported exactly when the browser shows one |
| Pages.Page.Alert | BeazleyAF/Beazley.AutomationFramework/InfrastructureObjects/BasePage.cs:111-125 | the alert is returned when shown, else null |
| Pages.Page.ResolveShownAlert | BeazleyAF/Beazley.AutomationFramework/InfrastructureObjects/BasePage.cs:514-536 | the shown alert is switched to, resolved with the requested action and its text returned |
| Pages.Page.WaitForAlertAsLongAs | BeazleyAF/Beazley.AutomationFramework/InfrastructureObjects/BasePage.cs:143-167 | the loop stops when its condition fails or after the implicit wait or the custom time has elapsed, and returns the alert text it resolved |
| Pages.Page.AlertStep | BeazleyAF/Beazley.AutomationFramework/InfrastructureObjects/BasePage.cs:157-162 | one loop round resolves the shown alert when asked to, then sleeps 100 ms |
| Pages.Page.WaitForAlert | BeazleyAF/Beazley.AutomationFramework/InfrastructureObjects/BasePage.cs:498-503 | waiting for an alert ends with one shown or the time spent, and only sleeps and probes |
| Pages.Page.ActOnAlert | BeazleyAF/Beazley.AutomationFramework/InfrastructureObjects/BasePage.cs:511-543 | with an alert shown it is resolved with the action and its text returned; with none, nothing is sent |
| Pages.Page.AcceptAlert | BeazleyAF/Beazley.AutomationFramework/InfrastructureObjects/BasePage.cs:484-487 | a shown alert is accepted |
| Pages.Page.DismissAlert | BeazleyAF/Beazley.AutomationFramework/InfrastructureObjects/BasePage.cs:493-496 | a shown alert is dismissed |
| Pages.Page.WaitForPendingAjaxCalls | BeazleyAF/Beazley.AutomationFramework/InfrastructureObjects/BasePage.cs:414-447 | the wait polls jQuery until the first moment nothing is pending, once per millisecond, and its run is the loop `AjaxLoop` ending there; without a script executor it does nothing |
| Pages.AjaxLoop | BeazleyAF/Beazley.AutomationFramework/InfrastructureObjects/BasePage.cs:426-443 | when the loop ends within a number of script calls, it ends right after a call that found nothing pending |
| Pages.UnsettledAjaxNeverEnds | BeazleyAF/Beazley.AutomationFramework/InfrastructureObjects/BasePage.cs:426-443 | on a page whose count never falls to 0, no number of script calls ends the loop |
| Pages.AjaxLoopEndsAtFirstSettled | BeazleyAF/Beazley.AutomationFramework/InfrastructureObjects/BasePage.cs:426-443 | the loop ends right after the first moment nothing is pending |
| Pages.Page.WaitForDynamicContentToLoad | BeazleyAF/Beazley.AutomationFramework/InfrastructureObjects/BasePage.cs:406-412 | with an alert shown nothing is waited for; otherwise the pending ajax calls are |
| Pages.Page.InitContainerContext | BeazleyAF/Beazley.AutomationFramework/InfrastructureObjects/ContainerBasePage.cs:38-42 | an active context is kept; otherwise a new one is opened, and it is active on success |
| Pages.Page.GetContainerContext | BeazleyAF/Beazley.AutomationFramework/InfrastructureObjects/ContainerBasePage.cs:62-68 | returns the active context, opening one when needed |
| Pages.Page.Dispose | BeazleyAF/Beazley.AutomationFramework/InfrastructureObjects/ContainerBasePage.cs:57-60 | disposing the page disposes its context |
| Pages.Page.BuildBase | BeazleyAF/Beazley.AutomationFramework/InfrastructureObjects/BasePage.cs:26-43 | building a page parses its configuration, sets the wait defaults, loads the page and stores the window handles |
| Pages.Page.New | BeazleyAF/Beazley.AutomationFramework/InfrastructureObjects/ContainerBasePage.cs:16-22 | a container page gets its type and an active context; a plain page has none |
| Pages.Page.CreateInstance | BeazleyAF/Beazley.AutomationFramework/InfrastructureObjects/WebElement.cs:258 | MissingMethod, with nothing sent to the browser, for a container class or a container type set; otherwise a fresh plain page, or the constructor's failure wrapped in TargetInvocation |
| Pages.ContainerWaitsForParentTitle | BeazleyAF/Beazley.AutomationFramework/InfrastructureObjects/BasePage.cs:57-68 | a container page waits for its parent page's title |
| Pages.TitleOfOutermostPage | BeazleyAF/Beazley.AutomationFramework/InfrastructureObjects/BasePage.cs:53-72 | the title waited for is the outermost non-container page's title |
| Pages.DoesntNeedSwitchNever | BeazleyAF/Beazley.AutomationFramework/InfrastructureObjects/ContainerBasePage.cs:77-82 | the switch can never be skipped, since the flag is always false |
| Pages.SetWaitDefaults | BeazleyAF/Beazley.AutomationFramework/InfrastructureObjects/BasePage.cs:309-313 | the default timeout and polling interval are set |
| Pages.LoadedPageTitleWaitTimesOut | BeazleyAF/Beazley.AutomationFramework/InfrastructureObjects/BasePage.cs:449-462 | a page loaded by the case-insensitive test can still time out in the case-sensitive title wait |
| Pages.FirstLetterCaseOnly | BeazleyAF/Beazley.AutomationFramework/InfrastructureObjects/BasePage.cs:92 | titles differing only in the case of the first letter match ignoring case but not exactly |
| Pages.CaseOnlyMatch | BeazleyAF/Beazley.AutomationFramework/InfrastructureObjects/BasePage.cs:92 | "myBeazley UAT" contains "MyBeazley UAT" ignoring case, not case-sensitively |
| Elements.ReadState | BeazleyAF/Beazley.AutomationFramework/InfrastructureObjects/WebElement.cs:52-63 | reading a null element raises NullReference; lookup errors propagate; otherwise the observation is returned |
| Elements.ResolvedBySelector | BeazleyAF/Beazley.AutomationFramework/InfrastructureObjects/WebElement.cs:102-105 | a resolved element is the one the table's query selects, and it is missing exactly when the selector matches nothing |
| Elements.VisibleAndEnabledMeansReady | BeazleyAF/Beazley.AutomationFramework/Selenium/BeazleyWebDriverExtensions.cs:175-208 | the visible-and-enabled condition holds exactly when the element is ready to click |
| Elements.WebElement.constructor | BeazleyAF/Beazley.AutomationFramework/InfrastructureObjects/WebElement.cs:18-25 | an element keeps its identifier, page, next page, container type and parent container |
| Elements.WebElement.Element | BeazleyAF/Beazley.AutomationFramework/InfrastructureObjects/WebElement.cs:31-43 | the element is whatever its page finds under its identifier, null for an unknown name |
| Elements.WebElement.Exists | BeazleyAF/Beazley.AutomationFramework/InfrastructureObjects/WebElement.cs:47-50 | an element exists exactly when its lookup returns one |
| Elements.WebElement.Displayed | BeazleyAF/Beazley.AutomationFramework/InfrastructureObjects/WebElement.cs:52-58 | Displayed reads the found element, raising NullReference when there is none |
| Elements.WebElement.Enabled | BeazleyAF/Beazley.AutomationFramework/InfrastructureObjects/WebElement.cs:60-63 | Enabled reads the found element, raising NullReference when there is none |
| Elements.WebElement.ReadOnly | BeazleyAF/Beazley.AutomationFramework/InfrastructureObjects/WebElement.cs:88-95 | an element is read-only exactly when its disabled or readOnly attribute is non-empty |
| Elements.WebElement.WaitFor | BeazleyAF/Beazley.AutomationFramework/InfrastructureObjects/WebElement.cs:218-230 | `Until.Element(this).X().Wait()` is exactly the element wait on that condition |
| Elements.WebElement.WaitForElementVisibleAndEnabled | BeazleyAF/Beazley.AutomationFramework/InfrastructureObjects/WebElement.cs:128-133 | the wait passes only after the element was seen visible and enabled |
| Elements.WebElement.SendKeys | BeazleyAF/Beazley.AutomationFramework/InfrastructureObjects/WebElement.cs:107-113 | after the optional wait the keys are sent to the element, which is the last call on success |
| Elements.WebElement.Clear | BeazleyAF/Beazley.AutomationFramework/InfrastructureObjects/WebElement.cs:318-328 | after the optional wait the element is cleared, then dynamic content is waited for |
| Elements.WebElement.Blur | BeazleyAF/Beazley.AutomationFramework/InfrastructureObjects/WebElement.cs:302-311 | after the optional wait a tab is sent to the element, then dynamic content is waited for |
| Elements.WebElement.ReadyToClick | BeazleyAF/Beazley.AutomationFramework/InfrastructureObjects/WebElement.cs:215-234 | the stale, visible and enabled waits run as needed; the click goes ahead only for an element that is then displayed and enabled, else Constraint |
| Elements.WebElement.ClickNoWait | BeazleyAF/Beazley.AutomationFramework/InfrastructureObjects/WebElement.cs:211-280 | without a next page it clicks natively; with one it triggers navigation and returns a fresh plain next page, unregistering the trigger; a next page that cannot bind the four arguments makes it fail |
| Elements.WebElement.OpenNextPage | BeazleyAF/Beazley.AutomationFramework/InfrastructureObjects/WebElement.cs:245-275 | the trigger is registered and fired, and the next page is created by reflection on the same driver with no URL; a container class or a set container type raises MissingMethod after the trigger fired, and the trigger is then unregistered |
| Elements.WebElement.TreatAlert | BeazleyAF/Beazley.AutomationFramework/InfrastructureObjects/WebElement.cs:154-187 | the alert is waited for, then accepted or dismissed as requested, or left for TreatAfter |
| Elements.WebElement.Click | BeazleyAF/Beazley.AutomationFramework/InfrastructureObjects/WebElement.cs:146-198 | Click returns the next page when there is one; a shown alert is accepted or dismissed as requested, never under TreatAfter; and, when waitForPageToLoad is set and neither an alert nor a new page shows, it waits for the parent page's ajax calls |
| Elements.WebElement.AfterClick | BeazleyAF/Beazley.AutomationFramework/InfrastructureObjects/WebElement.cs:154-195 | after the click the alert is treated on the new page or the parent, and the parent waits for ajax only when no alert and no new page |
| Elements.WebElement.ClickAndTreatAlert | BeazleyAF/Beazley.AutomationFramework/InfrastructureObjects/WebElement.cs:290-295 | TreatAfter runs Click with the stale check and the alert wait, without the final wait for the page, and never skips page creation; other statuses pass the caller's arguments, wait for the page and resolve the alert |
| Elements.WebElement.GetPageInstance | BeazleyAF/Beazley.AutomationFramework/InfrastructureObjects/WebElement.cs:200-205 | a plain next page is created by reflection on the element's driver; a container class or set container type raises MissingMethod, a constructor failure comes wrapped in TargetInvocation, and with no next page it raises ArgumentNull |
| Elements.ExistsIsTheExistsCondition | BeazleyAF/Beazley.AutomationFramework/InfrastructureObjects/WebElement.cs:47-50 | Exists agrees exactly with the exists expected condition |
| Elements.ExistsOnParsedTable | BeazleyAF/Beazley.AutomationFramework/InfrastructureObjects/WebElement.cs:47-50 | on a parsed table Exists can only raise a FormatException, and true means the element is in the browser |
| Elements.DisplayedIsTheVisibleCondition | BeazleyAF/Beazley.AutomationFramework/InfrastructureObjects/WebElement.cs:52-58 | a readable Displayed agrees with the visible condition; a missing element raises where the condition says false |
| Elements.EnabledAgainstTheEnabledCondition | BeazleyAF/Beazley.AutomationFramework/InfrastructureObjects/WebElement.cs:60-63 | the enabled condition implies Enabled, Enabled false implies the condition is false, and the disabled attribute can make them differ |
| Elements.DisabledAttributeMeansReadOnly | BeazleyAF/Beazley.AutomationFramework/InfrastructureObjects/WebElement.cs:88-95 | a `disabled="true"` element is read-only |
| Elements.IsDisabled | BeazleyAF/Beazley.AutomationFramework/Selenium/WebElementExtensions.cs:9-12 | IsDisabled raises on a missing element, is defined exactly when Enabled is, and is then the negation of Enabled |
| Elements.IsDisabledAgainstTheNotEnabledCondition | BeazleyAF/Beazley.AutomationFramework/Selenium/WebElementExtensions.cs:9-12 | IsDisabled true implies the not-enabled condition; they differ only through the disabled attribute or a missing element |
| Elements.AttributeOf | BeazleyAF/Beazley.AutomationFramework/Selenium/WebElementExtensions.cs:16 | GetAttribute raises NullReference on a missing element and is defined exactly when the element can be read |
| Elements.IsReadOnly | BeazleyAF/Beazley.AutomationFramework/Selenium/WebElementExtensions.cs:14-17 | IsReadOnly is defined exactly when the attribute can be read, and is true exactly when the readOnly attribute equals "true" |
| Elements.IsReadOnlyImpliesReadOnly | BeazleyAF/Beazley.AutomationFramework/Selenium/WebElementExtensions.cs:14-17 | IsReadOnly true implies ReadOnly true |
| Elements.HasClass | BeazleyAF/Beazley.AutomationFramework/Selenium/WebElementExtensions.cs:19-23 | HasClass is defined exactly when the class attribute can be read, and is true exactly when that attribute is present and contains the class name as an ordinal substring |
| Elements.HasClassIsSubstringTest | BeazleyAF/Beazley.AutomationFramework/Selenium/WebElementExtensions.cs:19-23 | a missing class attribute gives false; an empty name and the whole attribute always match |
| Elements.IsTextbox | BeazleyAF/Beazley.AutomationFramework/Selenium/WebElementExtensions.cs:25-29 | an element is a textbox exactly when its type attribute is "text" |
| Elements.TryAction | BeazleyAF/Beazley.AutomationFramework/Selenium/WebElementExtensions.cs:31-38 | the action runs only while it has not succeeded and retries remain, at most `retries` times, stopping at the first success |
| Elements.LinkWebElement.constructor | BeazleyAF/Beazley.AutomationFramework/InfrastructureObjects/LinkWebElement.cs:8-12 | a link is an element whose next page is its page class |
| Elements.LinkWebElement.Click | BeazleyAF/Beazley.AutomationFramework/InfrastructureObjects/LinkWebElement.cs:20-26 | the window handles are recorded, then the click returns a fresh page of the link's class and unregisters its trigger |
| Elements.LinkWebElement.ClickAndTreatAlertAndOpenPopup | BeazleyAF/Beazley.AutomationFramework/InfrastructureObjects/LinkWebElement.cs:28-38 | after the snapshot and the click with alert treatment, a further plain page of the class is created by reflection |
| Elements.LinkWebElement.ClickAndTreatAlertAndOpenPage | BeazleyAF/Beazley.AutomationFramework/InfrastructureObjects/LinkWebElement.cs:41-51 | after the snapshot and the click, a further page of the class is created with no container |
| Website.NotAnEntryPointMessage | BeazleyAF/Beazley.AutomationFramework/InfrastructureObjects/Website.cs:26 | the message names the requested page |
| Website.EntryUrl | BeazleyAF/Beazley.AutomationFramework/InfrastructureObjects/Website.cs:17-27 | the entry URL is the configured one, with "not initialised" and "not an entry point" as the two failures |
| Website.EntryUrlErrorsDiffer | BeazleyAF/Beazley.AutomationFramework/InfrastructureObjects/Website.cs:20-26 | the two failures are told apart |
| Website.Website.constructor | BeazleyAF/Beazley.AutomationFramework/InfrastructureObjects/Website.cs:9 | the site starts uninitialised |
| Website.Website.Initialize | BeazleyAF/Beazley.AutomationFramework/InfrastructureObjects/Website.cs:11-15 | the first initialisation copies the entry points; later ones are ignored; a missing configuration raises ArgumentNull |
| Website.Website.GoTo | BeazleyAF/Beazley.AutomationFramework/InfrastructureObjects/Website.cs:17-27 | GoTo raises the lookup failure, or raises when there is no driver, or creates a fresh plain page of the class at the entry URL; a container class raises MissingMethod and a constructor failure comes wrapped in TargetInvocation |

## Left out

- Logging (log4net), benchmarking contexts, screenshots (`TakeScreenshot`) and thread locks: no effect on the modelled state.
- The URL computed from the test configuration in `GetPageFromConfig` (TestConfiguration.cs is not part of this model): a page's URL is the one passed in.
- Reflection: the `Values` property setters of `ParsePageConfig` are not modelled. Page classes are a `PageClass` value whose constructor has BasePage's four parameters (or ContainerBasePage's five), so `Activator.CreateInstance` binds as `Pages.BindsFourArguments` says; a page class declaring other constructors is not modelled.
- Pages.Page.WaitForPendingAjaxCalls: the source never returns while `jQuery.active` stays above 0. The model takes only browsers whose count settles for good at some instant (`Driver.Browser.settledFrom`, required through `Driver.Browser.Valid` by this method, `WaitForDynamicContentToLoad` and the clicks that call it), and charges each script call 1 ms so that the loop ends. The never-ending case is captured only by `Pages.UnsettledAjaxNeverEnds`.
- Text.Format: the arguments are strings, so a null argument and formattable (numeric, date) arguments are not modelled, and the format string follows the .NET Framework's rules (`{{` and `}}` are escapes inside it).
- Text: `ToLowerInvariant` is modelled for ASCII letters only, and GetAttribute's attribute-name matching is case-sensitive.
- The implicit wait does not make a lookup block: element lookups answer at once from the current snapshot.
- The browser does not react to the framework's actions. What it shows at each millisecond is fixed in advance (`world`), and titles of page objects are fixed after construction.
- A polling interval of 0 is treated as 1 ms (`WaitHelper.Step`), so every wait ends.
- One browser session: methods require that the global driver, when set, is the driver of the page they act on.
- `WebElement.Value`, `InnerText`, `Selected`, `SendKeysWithClickAndBlur`, `ClearWithClick`, `CreateModel` and `BasePage.Refresh`/`ExecuteScript`: thin compositions of modelled operations, not modelled separately.
- `LinkWebElement.PerformActionAndWaitForPageToLoad`: takes an arbitrary callback.
- `Elements.TryAction`: the action and the success predicate are abstracted as `succeeded(k)`, whether the test succeeds before the k-th run.
- `Pages.Page.ParsePageConfig`: the chain of base pages is followed for at most `fuel` levels. A `BasePageName` chain longer than `fuel`, such as a cyclic one that overflows the stack in the source, fails with StackOverflow.
- `ContainerContext`'s parent context: the source never passes one, and the model accepts one but no caller sets it.
- `Elements.LinkWebElement`: holds a `WebElement` instead of inheriting from it.
- `Website.Website`: the static entry-point dictionary is a field of one object.
- DropdownWebElement, the test base class and the XML configuration sections are outside this core.

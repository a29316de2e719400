/**
 * Page objects (BasePage.cs, ContainerBasePage.cs) and the two container
 * abstractions they rely on: the container element that hosts a container
 * page (ContainerWebElement.cs) and the context that switches the driver
 * into a container and back (ContainerContext.cs). The three refer to each
 * other, so they share one module.
 *
 * A page object class is identified by a `PageClass`: its kind, the title
 * its constructor passes to BasePage, and whether it is the container page
 * class. `Page.New` is the constructor of a page class, and the framework
 * calls it through `Page.CreateInstance`, the reflective
 * `Activator.CreateInstance` of the source.
 */
module Pages {
  import opened Wrappers
  import opened Exceptions
  import opened Enums
  import opened Driver
  import opened ElementConfiguration
  import opened ElementLookup
  import opened Globals
  import W = WaitHelper
  import Text

  /** The wait defaults every page constructor installs: 30 s and 250 ms. */
  const PageDefaultTimeout: nat := 30000
  const PageDefaultPolling: nat := 250
  /** The navigation guard re-triggers after 30 s without the page loading, at most four times. */
  const GuardPeriod: nat := 30000
  const GuardRetries: int := 3
  /** The pause of the navigation guard and of the alert wait loop. */
  const LoopSleep: nat := 100
  const NoTitleMessage := "PageObject has no Title specified"
  const NotClickableMessage := "Button is not displayed or not enabled !"

  /** A page-object class: its kind, the title it gives BasePage, and whether it is ContainerBasePage. */
  datatype PageClass = PageClass(kind: PageKind, title: Option<string>, isContainer: bool)

  /*
   * The page configuration: which entry configures a page, the entry its
   * `basePageName` names, and the element table the entries build.
   */

  /** The first page entry whose type is `kind` (`FirstOrDefault`). */
  function ConfigFor(pages: seq<PageConfig>, kind: PageKind): (r: Option<PageConfig>)
    ensures r.Some? ==>
      exists i | 0 <= i < |pages| :: pages[i] == r.value && r.value.pageType == kind
        && forall j | 0 <= j < i :: pages[j].pageType != kind
    ensures r.None? <==> forall p | p in pages :: p.pageType != kind
  {
    if pages == [] then None
    else if pages[0].pageType == kind then
      assert pages[0] == pages[0];
      Some(pages[0])
    else
      var r := ConfigFor(pages[1..], kind);
      if r.Some? then
        var i :| 0 <= i < |pages[1..]| && pages[1..][i] == r.value && r.value.pageType == kind
          && forall j | 0 <= j < i :: pages[1..][j].pageType != kind;
        assert pages[i + 1] == r.value;
        assert forall j | 0 <= j < i + 1 :: pages[j].pageType != kind by {
          forall j | 0 <= j < i + 1 ensures pages[j].pageType != kind {
            if j > 0 { assert pages[j] == pages[1..][j - 1]; }
          }
        }
        r
      else
        assert forall p | p in pages :: p == pages[0] || p in pages[1..];
        r
  }

  /** The first page entry with the given name (`FirstOrDefault`). */
  function ConfigNamed(pages: seq<PageConfig>, name: Option<string>): (r: Option<PageConfig>)
    ensures r.Some? ==>
      exists i | 0 <= i < |pages| :: pages[i] == r.value && r.value.name == name
        && forall j | 0 <= j < i :: pages[j].name != name
    ensures r.None? <==> forall p | p in pages :: p.name != name
  {
    if pages == [] then None
    else if pages[0].name == name then
      assert pages[0] == pages[0];
      Some(pages[0])
    else
      var r := ConfigNamed(pages[1..], name);
      if r.Some? then
        var i :| 0 <= i < |pages[1..]| && pages[1..][i] == r.value && r.value.name == name
          && forall j | 0 <= j < i :: pages[1..][j].name != name;
        assert pages[i + 1] == r.value;
        assert forall j | 0 <= j < i + 1 :: pages[j].name != name by {
          forall j | 0 <= j < i + 1 ensures pages[j].name != name {
            if j > 0 { assert pages[j] == pages[1..][j - 1]; }
          }
        }
        r
      else
        assert forall p | p in pages :: p == pages[0] || p in pages[1..];
        r
  }

  /**
   * GetBasePage: the first entry named by `basePageName`, looked up only
   * when that name is not null or empty.
   */
  function BasePageOf(pages: seq<PageConfig>, config: PageConfig): (r: Option<PageConfig>)
    ensures r.None? <==>
      Text.IsNullOrEmpty(config.basePageName) || forall p | p in pages :: p.name != config.basePageName
    ensures r.Some? ==>
      exists i | 0 <= i < |pages| :: pages[i] == r.value && r.value.name == config.basePageName
        && forall j | 0 <= j < i :: pages[j].name != config.basePageName
  {
    if Text.IsNullOrEmpty(config.basePageName) then None else ConfigNamed(pages, config.basePageName)
  }

  /** The elements of one entry added in order, each with its finder installed. */
  function AddAll(table: QueryTable, elements: seq<ElementConfig>): Result<QueryTable>
    decreases |elements|
  {
    if elements == [] then Ok(table)
    else
      var next :- Add(table, Install(elements[0]));
      AddAll(next, elements[1..])
  }

  /**
   * ParsePageConfig: the base-page chain's elements, then the entry's own.
   * A chain that comes back to an entry recurses without end in the source;
   * a chain of distinct entries is shorter than `fuel` = |pages|, so running
   * out of fuel is that StackOverflowException.
   */
  function ParseTable(pages: seq<PageConfig>, config: PageConfig, fuel: nat, table: QueryTable): Result<QueryTable>
    decreases fuel
  {
    match BasePageOf(pages, config)
    case None => AddAll(table, config.elements)
    case Some(b) =>
      if fuel == 0 then Err(StackOverflow)
      else
        var inherited :- ParseTable(pages, b, fuel - 1, table);
        AddAll(inherited, config.elements)
  }

  /** Every entry of the table has the finder its flag calls for. */
  ghost predicate AllInstalled(table: QueryTable) {
    forall k | k in table :: table[k] == Install(table[k])
  }

  /** The names of `elements` are new to `table` and distinct from each other, ignoring case. */
  ghost predicate FreshNames(table: QueryTable, elements: seq<ElementConfig>) {
    (forall i | 0 <= i < |elements| :: Key(elements[i].name) !in table)
    && (forall i, j | 0 <= i < j < |elements| :: Key(elements[i].name) != Key(elements[j].name))
  }

  /** Adding a list of entries succeeds exactly when their names are new and distinct, ignoring case. */
  lemma AddAllSucceedsExactly(table: QueryTable, elements: seq<ElementConfig>)
    ensures AddAll(table, elements).Ok? <==>
      (forall i | 0 <= i < |elements| :: Key(elements[i].name) !in table)
      && (forall i, j | 0 <= i < j < |elements| :: Key(elements[i].name) != Key(elements[j].name))
  {
    AddAllOnFreshNames(table, elements);
    AddAllNeedsFreshNames(table, elements);
    assert FreshNames(table, elements) <==>
      (forall i | 0 <= i < |elements| :: Key(elements[i].name) !in table)
      && (forall i, j | 0 <= i < j < |elements| :: Key(elements[i].name) != Key(elements[j].name));
  }

  /** Entries with new, distinct names are all added. */
  lemma {:induction false} AddAllOnFreshNames(table: QueryTable, elements: seq<ElementConfig>)
    ensures FreshNames(table, elements) ==> AddAll(table, elements).Ok?
    decreases |elements|
  {
    if elements != [] && FreshNames(table, elements) {
      var e := Install(elements[0]);
      assert Key(e.name) == Key(elements[0].name);
      var next := table[Key(e.name) := e];
      var rest := elements[1..];
      forall i | 0 <= i < |rest|
        ensures Key(rest[i].name) !in next
      {
        assert rest[i] == elements[i + 1];
      }
      forall i, j | 0 <= i < j < |rest|
        ensures Key(rest[i].name) != Key(rest[j].name)
      {
        assert rest[i] == elements[i + 1] && rest[j] == elements[j + 1];
      }
      AddAllOnFreshNames(next, rest);
      assert AddAll(table, elements) == AddAll(next, rest);
    }
  }

  /** A list of entries is added only when their names are new and distinct. */
  lemma {:induction false} AddAllNeedsFreshNames(table: QueryTable, elements: seq<ElementConfig>)
    ensures AddAll(table, elements).Ok? ==> FreshNames(table, elements)
    decreases |elements|
  {
    if elements != [] && AddAll(table, elements).Ok? {
      var e := Install(elements[0]);
      assert Key(e.name) == Key(elements[0].name);
      var next := table[Key(e.name) := e];
      var rest := elements[1..];
      assert AddAll(table, elements) == AddAll(next, rest);
      AddAllNeedsFreshNames(next, rest);
      forall i | 0 <= i < |elements|
        ensures Key(elements[i].name) !in table
      {
        if i > 0 {
          assert elements[i] == rest[i - 1];
        }
      }
      forall i, j | 0 <= i < j < |elements|
        ensures Key(elements[i].name) != Key(elements[j].name)
      {
        if i > 0 {
          assert elements[i] == rest[i - 1];
        }
        assert elements[j] == rest[j - 1];
      }
    }
  }

  /**
   * A successful addition keeps the old entries, holds each new one with its
   * finder installed, and holds nothing else.
   */
  lemma AddAllContents(table: QueryTable, elements: seq<ElementConfig>)
    ensures AddAll(table, elements).Ok? ==>
      var r := AddAll(table, elements).value;
      (forall k | k in table :: k in r && r[k] == table[k])
      && (forall i | 0 <= i < |elements| :: Key(elements[i].name) in r && r[Key(elements[i].name)] == Install(elements[i]))
      && (forall k | k in r :: k in table || exists i | 0 <= i < |elements| :: k == Key(elements[i].name))
  {
    AddAllKeepsOld(table, elements);
    AddAllHoldsNew(table, elements);
    AddAllHoldsNothingElse(table, elements);
  }

  /** A successful addition keeps every entry the table had. */
  lemma {:induction false} AddAllKeepsOld(table: QueryTable, elements: seq<ElementConfig>)
    ensures AddAll(table, elements).Ok? ==>
      forall k | k in table :: k in AddAll(table, elements).value && AddAll(table, elements).value[k] == table[k]
    decreases |elements|
  {
    if elements != [] && AddAll(table, elements).Ok? {
      var e := Install(elements[0]);
      var next := table[Key(e.name) := e];
      AddAllKeepsOld(next, elements[1..]);
      assert AddAll(table, elements) == AddAll(next, elements[1..]);
    }
  }

  /** A successful addition holds each new entry with its finder installed. */
  lemma {:induction false} AddAllHoldsNew(table: QueryTable, elements: seq<ElementConfig>)
    ensures AddAll(table, elements).Ok? ==>
      var r := AddAll(table, elements).value;
      forall i | 0 <= i < |elements| :: Key(elements[i].name) in r && r[Key(elements[i].name)] == Install(elements[i])
    decreases |elements|
  {
    if elements != [] && AddAll(table, elements).Ok? {
      var e := Install(elements[0]);
      assert Key(e.name) == Key(elements[0].name);
      var next := table[Key(e.name) := e];
      var rest := elements[1..];
      AddAllHoldsNew(next, rest);
      AddAllKeepsOld(next, rest);
      assert AddAll(table, elements) == AddAll(next, rest);
      var r := AddAll(table, elements).value;
      forall i | 0 <= i < |elements|
        ensures Key(elements[i].name) in r && r[Key(elements[i].name)] == Install(elements[i])
      {
        if i > 0 {
          assert elements[i] == rest[i - 1];
        }
      }
    }
  }

  /** A successful addition holds no entry but the old ones and the new ones. */
  lemma {:induction false} AddAllHoldsNothingElse(table: QueryTable, elements: seq<ElementConfig>)
    ensures AddAll(table, elements).Ok? ==>
      forall k | k in AddAll(table, elements).value :: k in table || exists i | 0 <= i < |elements| :: k == Key(elements[i].name)
    decreases |elements|
  {
    if elements != [] && AddAll(table, elements).Ok? {
      var e := Install(elements[0]);
      assert Key(e.name) == Key(elements[0].name);
      var next := table[Key(e.name) := e];
      var rest := elements[1..];
      AddAllHoldsNothingElse(next, rest);
      assert AddAll(table, elements) == AddAll(next, rest);
      forall k | k in AddAll(table, elements).value
        ensures k in table || exists i | 0 <= i < |elements| :: k == Key(elements[i].name)
      {
        if k !in next {
          var i :| 0 <= i < |rest| && k == Key(rest[i].name);
          assert k == Key(elements[i + 1].name);
        }
      }
    }
  }

  /** Building a table from installed entries gives installed entries. */
  lemma AddAllKeepsInstalled(table: QueryTable, elements: seq<ElementConfig>)
    requires AllInstalled(table)
    ensures AddAll(table, elements).Ok? ==> AllInstalled(AddAll(table, elements).value)
  {
    AddAllContents(table, elements);
    if AddAll(table, elements).Ok? {
      var r := AddAll(table, elements).value;
      forall k | k in r
        ensures r[k] == Install(r[k])
      {
        if k !in table {
          var i :| 0 <= i < |elements| && k == Key(elements[i].name);
          InstallTwice(elements[i]);
        }
      }
    }
  }

  /** Installing a finder twice installs the same one. */
  lemma InstallTwice(c: ElementConfig)
    ensures Install(Install(c)) == Install(c)
  {
  }

  /**
   * A parsed table holds the page's own elements with their finders, keeps
   * what the base chain registered, and only arises when no own element
   * repeats a name the chain registered.
   */
  lemma {:induction false} ParsedTableHoldsOwnElements(pages: seq<PageConfig>, config: PageConfig, fuel: nat, table: QueryTable)
    requires AllInstalled(table)
    ensures ParseTable(pages, config, fuel, table).Ok? ==>
      var r := ParseTable(pages, config, fuel, table).value;
      AllInstalled(r)
      && (forall k | k in table :: k in r && r[k] == table[k])
      && (forall e | e in config.elements :: Key(e.name) in r && r[Key(e.name)] == Install(e))
    ensures BasePageOf(pages, config).Some? && fuel > 0 && ParseTable(pages, config, fuel, table).Ok? ==>
      var inherited := ParseTable(pages, BasePageOf(pages, config).value, fuel - 1, table);
      inherited.Ok? && forall e | e in config.elements :: Key(e.name) !in inherited.value
    decreases fuel
  {
    var start: QueryTable;
    match BasePageOf(pages, config) {
    case None =>
      start := table;
    case Some(b) =>
      if fuel == 0 {
        return;
      }
      ParsedTableHoldsOwnElements(pages, b, fuel - 1, table);
      if ParseTable(pages, b, fuel - 1, table).Err? {
        return;
      }
      start := ParseTable(pages, b, fuel - 1, table).value;
    }
    assert ParseTable(pages, config, fuel, table) == AddAll(start, config.elements);
    AddedEntries(start, config.elements);
  }

  /** What ParsedTableHoldsOwnElements needs of one entry's addition, stated per element. */
  lemma AddedEntries(start: QueryTable, elements: seq<ElementConfig>)
    requires AllInstalled(start)
    ensures AddAll(start, elements).Ok? ==>
      var r := AddAll(start, elements).value;
      AllInstalled(r)
      && (forall k | k in start :: k in r && r[k] == start[k])
      && (forall e | e in elements :: Key(e.name) in r && r[Key(e.name)] == Install(e) && Key(e.name) !in start)
  {
    AddAllKeepsInstalled(start, elements);
    if AddAll(start, elements).Ok? {
      AddAllKeepsOld(start, elements);
      AddAllHoldsNew(start, elements);
      AddAllNeedsFreshNames(start, elements);
      var r := AddAll(start, elements).value;
      forall e | e in elements
        ensures Key(e.name) in r && r[Key(e.name)] == Install(e) && Key(e.name) !in start
      {
        var i :| 0 <= i < |elements| && elements[i] == e;
      }
    }
  }

  /** The element configured twice under names equal but for case stops the page with DuplicateKey. */
  lemma DuplicateNameIsRejected(table: QueryTable, elements: seq<ElementConfig>, i: nat, j: nat)
    requires i < j < |elements| && Text.Lower(elements[i].name) == Text.Lower(elements[j].name)
    ensures AddAll(table, elements).Err?
  {
    AddAllSucceedsExactly(table, elements);
  }

  /** The first handle of `handles` that `snapshot` does not hold. */
  function FirstNotIn(handles: seq<string>, snapshot: seq<string>): (r: Option<string>)
    ensures r.Some? ==> r.value in handles && r.value !in snapshot
    ensures r.Some? ==> exists i | 0 <= i < |handles| :: handles[i] == r.value && forall j | 0 <= j < i :: handles[j] in snapshot
    ensures r.None? <==> forall h | h in handles :: h in snapshot
  {
    if handles == [] then None
    else if handles[0] !in snapshot then Some(handles[0])
    else
      var rest := FirstNotIn(handles[1..], snapshot);
      assert rest.Some? ==> exists i | 0 <= i < |handles[1..]| :: handles[1..][i] == rest.value && forall j | 0 <= j < i :: handles[1..][j] in snapshot;
      assert rest.Some? ==> exists i | 0 <= i < |handles| :: handles[i] == rest.value && forall j | 0 <= j < i :: handles[j] in snapshot by {
        if rest.Some? {
          var i :| 0 <= i < |handles[1..]| && handles[1..][i] == rest.value && forall j | 0 <= j < i :: handles[1..][j] in snapshot;
          assert handles[i + 1] == rest.value;
          assert forall j | 0 <= j < i + 1 :: handles[j] in snapshot by {
            forall j | 0 <= j < i + 1
              ensures handles[j] in snapshot
            {
              if j > 0 {
                assert handles[j] == handles[1..][j - 1];
              }
            }
          }
        }
      }
      rest
  }

  /** The way a page waits on alerts (BasePage.WaitForAlertAsLongAs): its condition and its action. */
  datatype AlertWatch =
    /** WaitForAlert: as long as no alert shows, doing nothing. */
    | UntilAlert
    /** ActOnAlert: as long as an alert shows, accepting or dismissing it. */
    | WhileAlert(action: AlertAction, waitForPageToLoadAfter: bool)
  {
    /** The loop condition, given whether an alert shows. */
    predicate Holds(alertPresent: bool) {
      if UntilAlert? then !alertPresent else alertPresent
    }
  }

  /**
   * A ContainerWebElement: the element of a page that hosts a container
   * page. It resolves itself through its page on every access.
   */
  class ContainerElement {
    const identifier: string
    const parentPage: Page
    var containerType: ContainerType
    var windowName: Option<string>
    var isActive: bool

    /** The constructor: the given type (Element by default) and no window name. */
    constructor(identifier: string, parentPage: Page, containerType: ContainerType)
      requires parentPage.Chained()
      ensures Valid()
      ensures this.identifier == identifier && this.parentPage == parentPage
      ensures this.containerType == containerType && windowName.None? && !isActive
    {
      this.identifier := identifier;
      this.parentPage := parentPage;
      this.containerType := containerType;
      windowName := None;
      isActive := false;
    }

    ghost predicate Valid() {
      parentPage.Chained()
    }

    /** `Element`: the parent page's lookup of the identifier. */
    function Element(): Result<Option<ElementHandle>>
      reads parentPage, parentPage.driver
    {
      Resolve(parentPage.Locate(identifier), parentPage.driver.Now())
    }

    /** HasContainerOrWindowName. */
    predicate HasContainerOrWindowName(found: Option<ElementHandle>)
      reads this
    {
      found.Some? || !Text.IsNullOrWhiteSpace(windowName)
    }

    /**
     * Switch: becomes active when the element resolves or a window name is
     * set, and otherwise stays as it was; it sends nothing to the driver.
     */
    method Switch() returns (r: Outcome)
      modifies this`isActive
      ensures Element().Err? ==> r == Fail(Element().error) && isActive == old(isActive)
      ensures Element().Ok? ==> r == Pass && isActive == (old(isActive) || HasContainerOrWindowName(Element().value))
    {
      var found := Element();
      if found.Err? {
        return Fail(found.error);
      }
      if HasContainerOrWindowName(found.value) {
        isActive := true;
      }
      r := Pass;
    }

    /** Restore: the driver goes back to the top-level document, and the element is inactive. */
    method Restore()
      modifies this`isActive, parentPage.driver
      ensures !isActive
      ensures parentPage.driver.frame == None
      ensures parentPage.driver.log == old(parentPage.driver.log) + [SwitchToDefaultContent]
      ensures parentPage.driver.clock == old(parentPage.driver.clock)
      ensures parentPage.driver.currentWindow == old(parentPage.driver.currentWindow)
      ensures parentPage.driver.implicitWait == old(parentPage.driver.implicitWait)
    {
      parentPage.driver.SwitchDefaultContent();
      isActive := false;
    }
  }

  /**
   * A ContainerContext: switches the driver of a container page into its
   * container and back. The kind and the container element are fixed when
   * the context is made; `parent` is the context to go back to when leaving
   * a frame.
   */
  class ContainerContext {
    const page: Page
    const element: ContainerElement?
    const containerType: ContainerType
    const parent: ContainerContext?
    var isActive: bool

    /** The fields of the context; `Open` then switches. */
    constructor(page: Page, parent: ContainerContext?)
      requires page.isContainer
      ensures this.page == page && element == page.container && containerType == page.containerType
      ensures this.parent == parent && !isActive
    {
      this.page := page;
      element := page.container;
      containerType := page.containerType;
      this.parent := parent;
      isActive := false;
    }

    /**
     * `new ContainerContext(page)`: the context's fields, then a switch into
     * the container; a switch that raises means no context.
     */
    static method Open(page: Page, parent: ContainerContext?) returns (r: Result<ContainerContext>)
      requires page.isContainer && page.Chained()
      modifies page.driver
      ensures r.Ok? ==> fresh(r.value) && r.value.page == page && r.value.parent == parent && r.value.Ready()
      ensures r.Ok? ==> r.value.isActive && r.value.containerType == page.containerType
      ensures r.Err? ==> page.driver.log == old(page.driver.log) && page.driver.Position() == old(page.driver.Position())
      ensures old(page.driver.log) <= page.driver.log
      ensures page.driver.clock == old(page.driver.clock) && page.driver.implicitWait == old(page.driver.implicitWait)
    {
      var c := new ContainerContext(page, parent);
      DoesntNeedSwitchNever(page);
      var switched := c.Switch();
      if switched.Fail? {
        return Err(switched.error);
      }
      r := Ok(c);
    }

    /** The context belongs to a container page and holds that page's container element. */
    ghost predicate Ready() {
      page.isContainer && page.Chained() && element == page.container
    }

    /** A parent context, when there is one, is another ready context on the same driver. */
    ghost predicate ParentReady() {
      parent != null ==> parent != this && parent.Ready() && parent.page.driver == page.driver
    }

    /** ContainerContextChangeNotNeeded: only a frame may skip, when its page says it needs no switch. */
    function ChangeNotNeeded(): (r: Result<bool>)
      requires page.isContainer
      ensures containerType != Frame ==> r == Ok(false)
      ensures containerType == Frame ==> r == page.DoesntNeedSwitch()
    {
      if containerType != Frame then Ok(false) else page.DoesntNeedSwitch()
    }

    /** The frame element as the container element resolves it now. */
    function FrameElement(): Result<Option<ElementHandle>>
      reads element, if element != null then {element.parentPage, element.parentPage.driver} else {}
    {
      if element == null then Err(NullReference) else element.Element()
    }

    /**
     * Switch: nothing when the change is not needed; otherwise the switch of
     * the context's kind, after which the context is active. Frame switches
     * to the container element's frame, Alert to the alert, Window to the
     * page's newest window, Element to the active element.
     */
    method Switch() returns (r: Outcome)
      requires Ready()
      modifies this`isActive, page.driver
      ensures ChangeNotNeeded().Err? ==> r == Fail(ChangeNotNeeded().error)
      ensures ChangeNotNeeded() == Ok(true) ==> r == Pass
      ensures ChangeNotNeeded().Err? || ChangeNotNeeded() == Ok(true) ==>
        isActive == old(isActive) && page.driver.log == old(page.driver.log) && page.driver.Position() == old(page.driver.Position())
      ensures r.Pass? && ChangeNotNeeded() == Ok(false) ==> isActive
      ensures r.Fail? ==> isActive == old(isActive) && page.driver.log == old(page.driver.log)
      ensures r.Fail? ==> page.driver.Position() == old(page.driver.Position())
      ensures ChangeNotNeeded() == Ok(false) && containerType == Frame ==>
        (var f := old(FrameElement());
         (f.Err? ==> r == Fail(f.error))
         && (f == Ok(None) ==> r == Fail(ArgumentNull))
         && (f.Ok? && f.value.Some? ==>
               (r.Pass? <==> f.value.value.locator in old(page.driver.Now()).elements)
               && (r.Pass? ==> page.driver.frame == Some(f.value.value.locator)
                               && page.driver.log == old(page.driver.log) + [SwitchToFrame(f.value.value.locator)])))
      ensures containerType == Alert ==>
        (r.Pass? <==> old(page.driver.Now()).alert.Some?)
        && (r.Pass? ==> page.driver.log == old(page.driver.log) + [SwitchToAlert])
      ensures containerType == Window ==>
        (var w := old(page.NewestWindowHandle());
         (w.Err? ==> r == Fail(w.error))
         && (w.Ok? ==> (r.Pass? <==> w.value.Some? && w.value.value in old(page.driver.Now()).windowHandles))
         && (r.Pass? ==> w.Ok? && w.value.Some? && page.driver.currentWindow == w.value.value && page.driver.frame == None
                         && page.driver.log == old(page.driver.log) + [SwitchToWindow(w.value.value)]))
      ensures containerType == Element ==> r == Pass && page.driver.log == old(page.driver.log) + [SwitchToActiveElement]
      ensures old(page.driver.log) <= page.driver.log
      ensures page.driver.clock == old(page.driver.clock) && page.driver.implicitWait == old(page.driver.implicitWait)
    {
      var notNeeded := ChangeNotNeeded();
      if notNeeded.Err? {
        return Fail(notNeeded.error);
      }
      if notNeeded.value {
        return Pass;
      }
      match containerType {
      case Frame =>
        var f := FrameElement();
        if f.Err? {
          return Fail(f.error);
        }
        r := page.driver.SwitchFrame(f.value);
      case Alert =>
        r := page.driver.SwitchAlert();
      case Window =>
        var w := page.NewestWindowHandle();
        if w.Err? {
          return Fail(w.error);
        }
        r := page.driver.SwitchWindow(w.value);
      case Element =>
        page.driver.SwitchActiveElement();
        r := Pass;
      }
      if r.Pass? {
        isActive := true;
      }
    }

    /**
     * Restore: nothing when the change is not needed; otherwise the restore
     * of the context's kind, after which the context is inactive. It does not
     * look at whether the context is active. Leaving a frame switches the
     * parent context again when there is one, and goes to the top-level
     * document otherwise; leaving an alert goes to the top-level document;
     * leaving a window goes back to the page's last known window.
     */
    method Restore() returns (r: Outcome)
      requires Ready() && ParentReady()
      modifies this`isActive, page.driver, parent
      ensures ChangeNotNeeded().Err? ==> r == Fail(ChangeNotNeeded().error)
      ensures ChangeNotNeeded() == Ok(true) ==> r == Pass
      ensures ChangeNotNeeded().Err? || ChangeNotNeeded() == Ok(true) ==>
        isActive == old(isActive) && page.driver.log == old(page.driver.log) && page.driver.Position() == old(page.driver.Position())
      ensures r.Pass? && ChangeNotNeeded() == Ok(false) ==> !isActive
      ensures r.Fail? ==> isActive == old(isActive)
      ensures ChangeNotNeeded() == Ok(false) && containerType == Frame && parent == null ==>
        r == Pass && page.driver.frame == None && page.driver.log == old(page.driver.log) + [SwitchToDefaultContent]
      ensures ChangeNotNeeded() == Ok(false) && containerType == Frame && parent != null ==>
        (r.Pass? && parent.ChangeNotNeeded() == Ok(false) ==> parent.isActive)
      ensures containerType == Alert ==>
        r == Pass && page.driver.frame == None && page.driver.log == old(page.driver.log) + [SwitchToDefaultContent]
      ensures containerType == Window ==>
        (var h := page.lastKnownWindowHandle;
         (r.Pass? <==> h.Some? && h.value in old(page.driver.Now()).windowHandles)
         && (r.Pass? ==> page.driver.currentWindow == h.value && page.driver.log == old(page.driver.log) + [SwitchToWindow(h.value)]))
      ensures containerType == Element ==> r == Pass && page.driver.log == old(page.driver.log) + [SwitchToActiveElement]
      ensures old(page.driver.log) <= page.driver.log
      ensures page.driver.clock == old(page.driver.clock) && page.driver.implicitWait == old(page.driver.implicitWait)
    {
      var notNeeded := ChangeNotNeeded();
      if notNeeded.Err? {
        return Fail(notNeeded.error);
      }
      if notNeeded.value {
        return Pass;
      }
      match containerType {
      case Frame =>
        if parent != null {
          r := parent.Switch();
        } else {
          page.driver.SwitchDefaultContent();
          r := Pass;
        }
      case Alert =>
        page.driver.SwitchDefaultContent();
        r := Pass;
      case Window =>
        r := page.driver.SwitchWindow(page.lastKnownWindowHandle);
      case Element =>
        page.driver.SwitchActiveElement();
        r := Pass;
      }
      if r.Pass? {
        isActive := false;
      }
    }

    /** Dispose: exactly Restore, so disposing twice restores twice. */
    method Dispose() returns (r: Outcome)
      requires Ready() && ParentReady()
      modifies this`isActive, page.driver, parent
      ensures ChangeNotNeeded().Err? ==> r == Fail(ChangeNotNeeded().error)
      ensures ChangeNotNeeded() == Ok(false) && r.Pass? ==> !isActive
      ensures r.Fail? ==> isActive == old(isActive)
      ensures containerType == Alert || (containerType == Frame && parent == null && ChangeNotNeeded() == Ok(false)) ==>
        r == Pass && page.driver.frame == None && page.driver.log == old(page.driver.log) + [SwitchToDefaultContent]
      ensures containerType == Window ==>
        (var h := page.lastKnownWindowHandle;
         (r.Pass? <==> h.Some? && h.value in old(page.driver.Now()).windowHandles)
         && (r.Pass? ==> page.driver.currentWindow == h.value))
      ensures containerType == Element ==> r == Pass && page.driver.log == old(page.driver.log) + [SwitchToActiveElement]
      ensures page.driver.clock == old(page.driver.clock) && page.driver.implicitWait == old(page.driver.implicitWait)
    {
      r := Restore();
    }
  }

  /**
   * A page object. The container part (`containerType`, `container`,
   * `context`) is used only when `isContainer`, that is for
   * ContainerBasePage.
   */
  class Page {
    const kind: PageKind
    const driver: Browser
    const title: Option<string>
    const isContainer: bool
    /** The container element of a container page (ContainerBasePage.Container). */
    const container: ContainerElement?
    /** ContainerBasePage.ForceNoSwitch: set to false and never assigned. */
    const forceNoSwitch: bool := false
    /** How many container pages lead from this page to a page that is not one. */
    ghost const depth: nat
    var url: Option<string>
    var queries: QueryTable
    var lastKnownWindowHandle: Option<string>
    var windowHandlesSnapshot: Option<seq<string>>
    var containerType: ContainerType
    var context: ContainerContext?

    /** The fields of a page before any of its constructor's steps has run. */
    constructor(cls: PageClass, drv: Browser, url: Option<string>, parentContainer: ContainerElement?)
      requires parentContainer != null ==> parentContainer.Valid()
      ensures Chained()
      ensures kind == cls.kind && driver == drv && title == cls.title && isContainer == cls.isContainer
      ensures container == (if cls.isContainer then parentContainer else null)
      ensures this.url == url && queries == map[] && lastKnownWindowHandle.None? && windowHandlesSnapshot.None?
      ensures containerType == Element && context == null
    {
      kind := cls.kind;
      driver := drv;
      title := cls.title;
      isContainer := cls.isContainer;
      container := if cls.isContainer then parentContainer else null;
      depth := if cls.isContainer && parentContainer != null then parentContainer.parentPage.depth + 1 else 0;
      this.url := url;
      queries := map[];
      lastKnownWindowHandle := None;
      windowHandlesSnapshot := None;
      containerType := Element;
      context := null;
    }

    /** The chain of container pages above this page is finite. */
    ghost predicate Chained()
      decreases depth
    {
      isContainer && container != null ==>
        container.parentPage.depth < depth && container.parentPage.Chained()
    }

    /** The locator of a named element of this page. */
    function Locate(identifier: string): Locator
      reads this
    {
      Locator(identifier, queries)
    }

    /**
     * TitleToWaitFor: a page's own title, unless it is a container page; a
     * container page takes the title of the first page up its chain that is
     * not a container page. A container page with no container element
     * raises NullReference.
     */
    function TitleToWaitFor(): (r: Result<Option<string>>)
      requires Chained()
      ensures !isContainer ==> r == Ok(title)
      ensures isContainer && container == null ==> r == Err(NullReference)
      decreases depth
    {
      if !isContainer then Ok(title)
      else if container == null then Err(NullReference)
      else if !container.parentPage.isContainer then Ok(container.parentPage.title)
      else container.parentPage.TitleToWaitFor()
    }

    /** The page that is not a container page at the top of this page's container chain. */
    ghost function Outermost(): (r: Option<Page>)
      requires Chained()
      ensures r.Some? ==> !r.value.isContainer
      decreases depth
    {
      if !isContainer then Some(this)
      else if container == null then None
      else container.parentPage.Outermost()
    }

    /**
     * IsLoaded: raises when there is no title to wait for; false when the
     * title cannot be read; otherwise whether the browser's title contains
     * that title, ignoring case.
     */
    function IsLoaded(): (r: Result<bool>)
      requires Chained()
      reads this, driver
      ensures TitleToWaitFor().Err? ==> r == Err(TitleToWaitFor().error)
      ensures TitleToWaitFor() == Ok(None) ==> r == Err(General(NoTitleMessage))
      ensures TitleToWaitFor().Ok? && TitleToWaitFor().value.Some? ==>
        (r == Ok(true) <==> driver.Now().title.Some? && Text.ContainsIgnoreCase(driver.Now().title.value, TitleToWaitFor().value.value))
      ensures TitleToWaitFor().Ok? && TitleToWaitFor().value.Some? ==> r.Ok?
    {
      match TitleToWaitFor()
      case Err(e) => Err(e)
      case Ok(None) => Err(General(NoTitleMessage))
      case Ok(Some(t)) =>
        var pageTitle := driver.Now().title;
        Ok(pageTitle.Some? && Text.ContainsIgnoreCase(pageTitle.value, t))
    }

    /** ContainerBasePage.ParentPage: the container element's page. */
    function ParentPage(): (r: Result<Page>)
      requires isContainer
      ensures container == null <==> r == Err(NullReference)
      ensures container != null ==> r == Ok(container.parentPage)
    {
      if container == null then Err(NullReference) else Ok(container.parentPage)
    }

    /**
     * DoesntNeedSwitch: false when the parent page is not a container page,
     * ForceNoSwitch otherwise; since that is never set, never true.
     */
    function DoesntNeedSwitch(): (r: Result<bool>)
      requires isContainer
      ensures r != Ok(true)
      ensures r.Err? <==> container == null
    {
      match ParentPage()
      case Err(e) => Err(e)
      case Ok(p) => if !p.isContainer then Ok(false) else Ok(forceNoSwitch)
    }

    /**
     * NewestWindowHandle: the first of the browser's windows, in the
     * browser's order, that the page's snapshot of windows does not hold.
     * With no snapshot taken, any window raises NullReference.
     */
    function NewestWindowHandle(): (r: Result<Option<string>>)
      reads this, driver
      ensures windowHandlesSnapshot.Some? ==> r == Ok(FirstNotIn(driver.Now().windowHandles, windowHandlesSnapshot.value))
      ensures windowHandlesSnapshot.None? ==> (r.Err? <==> driver.Now().windowHandles != [])
    {
      var handles := driver.Now().windowHandles;
      match windowHandlesSnapshot
      case None => if handles == [] then Ok(None) else Err(NullReference)
      case Some(snapshot) => Ok(FirstNotIn(handles, snapshot))
    }

    /** The context, when there is one, is this page's and has no parent context. */
    ghost predicate ContextReady()
      reads this, context
    {
      context != null ==> context.page == this && context.Ready() && context.parent == null
    }

    /**
     * ParsePageConfig: registers the elements of the base-page chain, then
     * the page's own, each under its name with its finder installed; a name
     * registered twice raises DuplicateKey. The table it leaves on failure is
     * not used, since the page is then never created.
     */
    method ParsePageConfig(pages: seq<PageConfig>, config: PageConfig, fuel: nat) returns (r: Outcome)
      modifies this`queries
      ensures ParseTable(pages, config, fuel, old(queries)).Ok? ==>
        r == Pass && queries == ParseTable(pages, config, fuel, old(queries)).value
      ensures ParseTable(pages, config, fuel, old(queries)).Err? ==>
        r == Fail(ParseTable(pages, config, fuel, old(queries)).error)
      decreases fuel
    {
      var basePage := BasePageOf(pages, config);
      if basePage.Some? {
        if fuel == 0 {
          return Fail(StackOverflow);
        }
        var inherited := ParsePageConfig(pages, basePage.value, fuel - 1);
        if inherited.Fail? {
          return inherited;
        }
      }
      r := AddElements(config.elements);
    }

    /** The loop of ParsePageConfig over one entry's elements: each is added in turn, and a repeated name stops it. */
    method AddElements(elements: seq<ElementConfig>) returns (r: Outcome)
      modifies this`queries
      ensures AddAll(old(queries), elements).Ok? ==> r == Pass && queries == AddAll(old(queries), elements).value
      ensures AddAll(old(queries), elements).Err? ==> r == Fail(AddAll(old(queries), elements).error)
    {
      var i := 0;
      while i < |elements|
        invariant 0 <= i <= |elements|
        invariant AddAll(queries, elements[i..]) == AddAll(old(queries), elements)
      {
        assert elements[i..][1..] == elements[i + 1..];
        var added := Add(queries, Install(elements[i]));
        if added.Err? {
          return Fail(added.error);
        }
        queries := added.value;
        i := i + 1;
      }
      assert elements[i..] == [];
      r := Pass;
    }

    /**
     * GetPageFromConfig: the page's entry in the configuration, if any,
     * builds the page's element table. (The URL it computes is overwritten
     * by the constructor.)
     */
    method GetPageFromConfig(pages: seq<PageConfig>) returns (r: Outcome)
      modifies this`queries
      ensures ParsedQueries(pages, kind, old(queries)).Ok? ==>
        r == Pass && queries == ParsedQueries(pages, kind, old(queries)).value
      ensures ParsedQueries(pages, kind, old(queries)).Err? ==>
        r == Fail(ParsedQueries(pages, kind, old(queries)).error)
    {
      var config := ConfigFor(pages, kind);
      if config.None? {
        return Pass;
      }
      r := ParsePageConfig(pages, config.value, |pages|);
    }

    /** StoreWindowHandle: remembers the current window and the windows open now. */
    method StoreWindowHandle()
      modifies this`lastKnownWindowHandle, this`windowHandlesSnapshot
      ensures lastKnownWindowHandle == Some(driver.currentWindow)
      ensures windowHandlesSnapshot == Some(driver.Now().windowHandles)
    {
      lastKnownWindowHandle := Some(driver.currentWindow);
      windowHandlesSnapshot := Some(driver.Now().windowHandles);
    }

    /**
     * The navigation guard of Load: while the page is not loaded and retries
     * are left, it waits 100 ms at a time; after more than 30 s without the
     * page loading it triggers the navigation registered for the page's
     * kind again, restarts the 30 s, and uses up one retry.
     */
    method NavigationGuard(g: Globals) returns (r: Outcome, retriesLeft: int)
      requires Chained() && TitleToWaitFor().Ok? && TitleToWaitFor().value.Some?
      modifies driver
      ensures -1 <= retriesLeft <= GuardRetries
      ensures r.Pass? ==> IsLoaded() == Ok(true) || retriesLeft == -1
      ensures r.Fail? ==> r == TriggerOutcome(g.triggers, kind, driver.Now())
      ensures retriesLeft == -1 ==> driver.clock >= old(driver.clock) + (GuardRetries + 1) * (GuardPeriod + 1)
      ensures SleepsAndClicks(old(driver.log), driver.log)
      ensures ClickCount(driver.log[|old(driver.log)|..]) <= GuardRetries - retriesLeft
      ensures driver.clock >= old(driver.clock) && driver.implicitWait == old(driver.implicitWait)
      ensures driver.currentWindow == old(driver.currentWindow) && driver.frame == old(driver.frame)
    {
      ghost var log0 := driver.log;
      ghost var start := driver.clock;
      var stopwatch := driver.clock;
      retriesLeft := GuardRetries;
      while IsLoaded() != Ok(true) && retriesLeft >= 0
        invariant -1 <= retriesLeft <= GuardRetries
        invariant start <= stopwatch <= driver.clock <= stopwatch + GuardPeriod + LoopSleep
        invariant stopwatch >= start + (GuardRetries - retriesLeft) * (GuardPeriod + 1)
        invariant SleepsAndClicks(log0, driver.log)
        invariant ClickCount(driver.log[|log0|..]) <= GuardRetries - retriesLeft
        invariant driver.implicitWait == old(driver.implicitWait)
        invariant driver.currentWindow == old(driver.currentWindow) && driver.frame == old(driver.frame)
        decreases retriesLeft + 1, stopwatch + GuardPeriod + LoopSleep - driver.clock
      {
        ghost var before := driver.log;
        var now := driver.clock;
        var step, retriggered := GuardStep(g, stopwatch);
        if step.Fail? {
          return step, retriesLeft;
        }
        ClickCountSplit(log0, before, driver.log);
        if retriggered {
          stopwatch := now;
          retriesLeft := retriesLeft - 1;
        }
      }
      r := Pass;
    }

    /**
     * One turn of the navigation guard's loop: after more than 30 s since
     * `stopwatch` the navigation is triggered again; then a 100 ms pause.
     */
    method GuardStep(g: Globals, stopwatch: nat) returns (r: Outcome, retriggered: bool)
      modifies driver
      ensures retriggered <==> old(driver.clock) - stopwatch > GuardPeriod
      ensures r.Fail? ==> retriggered && r == TriggerOutcome(g.triggers, kind, driver.Now())
      ensures r.Pass? ==> driver.clock == old(driver.clock) + LoopSleep
      ensures r.Fail? ==> driver.clock == old(driver.clock) && driver.log == old(driver.log)
      ensures SleepsAndClicks(old(driver.log), driver.log)
      ensures ClickCount(driver.log[|old(driver.log)|..]) <= if retriggered then 1 else 0
      ensures driver.implicitWait == old(driver.implicitWait)
      ensures driver.currentWindow == old(driver.currentWindow) && driver.frame == old(driver.frame)
    {
      retriggered := driver.clock - stopwatch > GuardPeriod;
      ghost var before := driver.log;
      if retriggered {
        var triggered := g.TriggerNavigationFor(kind, driver);
        if triggered.Fail? {
          return triggered, true;
        }
      }
      ghost var beforeSleep := driver.log;
      driver.Sleep(LoopSleep);
      ClickCountSplit(before, beforeSleep, driver.log);
      assert driver.log[|beforeSleep|..] == [DriverCall.Sleep(LoopSleep)];
      r := Pass;
    }

    /**
     * Load: a page that is not loaded yet is navigated to by its URL, when
     * it has one that is not blank, and guarded; then it waits for the page
     * to load. A page with nothing to wait for raises at once.
     */
    method Load(g: Globals) returns (r: Outcome)
      requires Chained() && (g.driver == null || g.driver == driver)
      modifies g, driver
      ensures TitleToWaitFor().Err? ==> r == Fail(TitleToWaitFor().error) && driver.log == old(driver.log)
      ensures TitleToWaitFor() == Ok(None) ==> r == Fail(General(NoTitleMessage)) && driver.log == old(driver.log)
      ensures old(IsLoaded()) == Ok(true) ==> SleepsOnly(old(driver.log), driver.log)
      ensures old(IsLoaded()) == Ok(false) && !Text.IsNullOrWhiteSpace(url) ==>
        |driver.log| > |old(driver.log)| && driver.log[|old(driver.log)|] == GoToUrl(url.value)
      ensures Text.IsNullOrWhiteSpace(url) ==> SleepsAndClicks(old(driver.log), driver.log)
      ensures old(driver.log) <= driver.log
      ensures ClickCount(driver.log[|old(driver.log)|..]) <= GuardRetries + 1
      ensures r.Pass? ==> TitleToWaitFor().Ok? && TitleToWaitFor().value.Some?
      ensures r.Pass? && title.Some? ==>
        exists u: nat :: old(driver.clock) <= u && ShowsTitle(driver.world(u), TitleToWaitFor().value)
      ensures g.Waits() == old(g.Waits()) && g.Rest() == old(g.Rest())
      ensures driver.clock >= old(driver.clock) && driver.currentWindow == old(driver.currentWindow)
      ensures driver.implicitWait == old(driver.implicitWait)
    {
      var loaded := IsLoaded();
      if loaded.Err? {
        return Fail(loaded.error);
      }
      ghost var log0 := driver.log;
      if !loaded.value {
        var guard := Navigate(g);
        if guard.Fail? {
          return guard;
        }
      }
      ghost var log2 := driver.log;
      r := WaitForPageToLoad(g);
      ClickCountSplit(log0, log2, driver.log);
    }

    /**
     * The part of Load for a page not loaded yet: the browser is sent to
     * the page's URL, when it is not blank, and the navigation guard runs.
     */
    method Navigate(g: Globals) returns (r: Outcome)
      requires Chained() && TitleToWaitFor().Ok? && TitleToWaitFor().value.Some?
      modifies driver
      ensures !Text.IsNullOrWhiteSpace(url) ==>
        |driver.log| > |old(driver.log)| && driver.log[|old(driver.log)|] == GoToUrl(url.value)
      ensures Text.IsNullOrWhiteSpace(url) ==> SleepsAndClicks(old(driver.log), driver.log)
      ensures old(driver.log) <= driver.log
      ensures ClickCount(driver.log[|old(driver.log)|..]) <= GuardRetries + 1
      ensures r.Fail? ==> r == TriggerOutcome(g.triggers, kind, driver.Now())
      ensures driver.clock >= old(driver.clock) && driver.currentWindow == old(driver.currentWindow)
      ensures driver.implicitWait == old(driver.implicitWait)
    {
      if !Text.IsNullOrWhiteSpace(url) {
        driver.GoTo(url.value);
      }
      ghost var log1 := driver.log;
      var retriesLeft;
      r, retriesLeft := NavigationGuard(g);
      ClickCountSplit(old(driver.log), log1, driver.log);
    }

    /** The title WaitForTitleChange waits for: the given one, or else the page's title to wait for. */
    function TitleTarget(titleArg: Option<string>): Result<Option<string>>
      requires Chained()
    {
      if titleArg.Some? then Ok(titleArg) else TitleToWaitFor()
    }

    /**
     * WaitForTitleChange(title): for a page with a title of its own, waits
     * with the global defaults until the browser's title contains the
     * target title, case-sensitively; the browser's title is read before and
     * after for the log. A page without a title of its own waits for nothing.
     */
    method WaitForTitleChange(g: Globals, titleArg: Option<string>) returns (r: Outcome)
      requires Chained() && (g.driver == null || g.driver == driver)
      modifies g, driver
      ensures title.None? ==> r == Pass && driver.log == old(driver.log) && driver.clock == old(driver.clock)
      ensures title.Some? && TitleTarget(titleArg).Err? ==>
        r == Fail(TitleTarget(titleArg).error) && driver.log == old(driver.log)
      ensures title.Some? && TitleTarget(titleArg).Ok? && old(driver.Now()).title.None? ==>
        r == Fail(WebDriverFailure) && driver.log == old(driver.log)
      ensures title.Some? && TitleTarget(titleArg).Ok? && old(driver.Now()).title.Some? && old(g.driver) == null ==>
        r == Fail(InstanceNotFound(DriverMissing))
      ensures title.Some? && TitleTarget(titleArg).Ok? && old(driver.Now()).title.Some? && old(g.driver) != null ==>
        (var poll := TitleWait(driver.world, TitleTarget(titleArg).value, old(driver.clock), old(g.defaultTimeout), old(g.defaultPollingFrequency));
         r == if poll.Fail? then poll else if driver.Now().title.None? then Fail(WebDriverFailure) else Pass)
      ensures r.Pass? && title.Some? ==>
        TitleTarget(titleArg).Ok? && exists u: nat :: old(driver.clock) <= u && ShowsTitle(driver.world(u), TitleTarget(titleArg).value)
      ensures g.Waits() == old(g.Waits()) && g.Rest() == old(g.Rest())
      ensures driver.clock >= old(driver.clock) && driver.implicitWait == old(driver.implicitWait)
      ensures driver.currentWindow == old(driver.currentWindow) && driver.frame == old(driver.frame)
      ensures SleepsOnly(old(driver.log), driver.log)
    {
      if title.None? {
        return Pass;
      }
      var target := TitleTarget(titleArg);
      if target.Err? {
        return Fail(target.error);
      }
      if driver.Now().title.None? {
        return Fail(WebDriverFailure);
      }
      ghost var start, timeout, polling := driver.clock, g.defaultTimeout, g.defaultPollingFrequency;
      r := WaitForTitleContains(g, target.value);
      if r.Pass? {
        W.PassMeansObserved(driver.world, W.TitleContainsProbe(target.value), true, start,
                            start + timeout, W.Step(polling), W.TimeoutMessage(None));
      }
    }

    /** `Until.Title.Contains(target).Wait()` on a browser that shows a title, with the global defaults. */
    method WaitForTitleContains(g: Globals, target: Option<string>) returns (r: Outcome)
      requires (g.driver == null || g.driver == driver) && driver.Now().title.Some?
      modifies g, driver
      ensures old(g.driver) == null ==> r == Fail(InstanceNotFound(DriverMissing))
      ensures old(g.driver) != null ==>
        (var poll := TitleWait(driver.world, target, old(driver.clock), old(g.defaultTimeout), old(g.defaultPollingFrequency));
         r == if poll.Fail? then poll else if driver.Now().title.None? then Fail(WebDriverFailure) else Pass)
      ensures g.Waits() == old(g.Waits()) && g.Rest() == old(g.Rest())
      ensures driver.clock >= old(driver.clock) && driver.implicitWait == old(driver.implicitWait)
      ensures driver.currentWindow == old(driver.currentWindow) && driver.frame == old(driver.frame)
      ensures SleepsOnly(old(driver.log), driver.log)
    {
      var until := W.UntilTitle(g);
      if until.Err? {
        return Fail(until.error);
      }
      var helper := until.value.Contains(target);
      assert helper.driver == driver && helper.ProbeOf() == Some(W.TitleContainsProbe(target));
      assert helper.EffectiveTimeout(g) == g.defaultTimeout && helper.EffectivePolling(g) == g.defaultPollingFrequency;
      r := helper.Wait(None, g);
    }

    /** WaitForPageToLoad: waits for the page's title to wait for. */
    method WaitForPageToLoad(g: Globals) returns (r: Outcome)
      requires Chained() && (g.driver == null || g.driver == driver)
      modifies g, driver
      ensures title.None? ==> r == Pass && driver.log == old(driver.log) && driver.clock == old(driver.clock)
      ensures title.Some? && TitleToWaitFor().Err? ==> r == Fail(TitleToWaitFor().error)
      ensures r.Pass? && title.Some? ==>
        TitleToWaitFor().Ok? && exists u: nat :: old(driver.clock) <= u && ShowsTitle(driver.world(u), TitleToWaitFor().value)
      ensures g.Waits() == old(g.Waits()) && g.Rest() == old(g.Rest())
      ensures driver.clock >= old(driver.clock) && driver.implicitWait == old(driver.implicitWait)
      ensures driver.currentWindow == old(driver.currentWindow) && driver.frame == old(driver.frame)
      ensures SleepsOnly(old(driver.log), driver.log)
    {
      r := WaitForTitleChange(g, None);
    }

    /** IsAlertPresent: whether an alert shows; switching to it is the test. */
    method IsAlertPresent() returns (present: bool)
      modifies driver
      ensures present == old(driver.Now()).alert.Some?
      ensures driver.log == old(driver.log) + (if present then [SwitchToAlert] else [])
      ensures driver.Position() == old(driver.Position()) && driver.implicitWait == old(driver.implicitWait)
    {
      var switched := driver.SwitchAlert();
      present := switched.Pass?;
    }

    /** Alert: the alert that shows, by its text, or null when none does. */
    method Alert() returns (alert: Option<string>)
      modifies driver
      ensures alert == old(driver.Now()).alert
      ensures driver.log == old(driver.log) + (if alert.Some? then [SwitchToAlert] else [])
      ensures driver.Position() == old(driver.Position()) && driver.implicitWait == old(driver.implicitWait)
    {
      var switched := driver.SwitchAlert();
      alert := if switched.Pass? then driver.Now().alert else None;
    }

    /**
     * The action of ActOnAlert on an alert that shows: switch to it, read its
     * text, accept or dismiss it, and wait for the page to load when asked.
     */
    method ResolveShownAlert(g: Globals, action: AlertAction, waitForPageToLoadAfter: bool) returns (r: Result<Option<string>>)
      requires Chained() && (g.driver == null || g.driver == driver)
      modifies g, driver
      ensures old(driver.Now()).alert.None? ==> r == Err(NoAlertPresent) && driver.log == old(driver.log)
      ensures r.Ok? ==> r.value == old(driver.Now()).alert && r.value.Some?
      ensures old(driver.Now()).alert.Some? ==>
        |driver.log| >= |old(driver.log)| + 2
        && driver.log[..|old(driver.log)| + 2] == old(driver.log) + [SwitchToAlert, Resolution(action)]
      ensures !waitForPageToLoadAfter && old(driver.Now()).alert.Some? ==> r.Ok? && driver.clock == old(driver.clock)
      ensures g.Waits() == old(g.Waits()) && g.Rest() == old(g.Rest())
      ensures driver.clock >= old(driver.clock) && driver.implicitWait == old(driver.implicitWait)
      ensures driver.currentWindow == old(driver.currentWindow) && driver.frame == old(driver.frame)
      ensures old(driver.log) <= driver.log
    {
      var switched := driver.SwitchAlert();
      if switched.Fail? {
        return Err(switched.error);
      }
      var text := driver.Now().alert;
      driver.ResolveAlert(action == AcceptIt);
      ghost var log1 := driver.log;
      if waitForPageToLoadAfter {
        var loaded := WaitForPageToLoad(g);
        assert log1 <= driver.log;
        if loaded.Fail? {
          return Err(loaded.error);
        }
      }
      r := Ok(text);
    }

    /**
     * WaitForAlertAsLongAs: while the watched condition holds, doing the
     * watch's action each time and pausing 100 ms, until more than the
     * global implicit wait has passed, or more than the custom time when
     * that is positive. It returns the text of the last alert acted on.
     */
    method WaitForAlertAsLongAs(g: Globals, watch: AlertWatch, customTime: int) returns (r: Result<Option<string>>)
      requires Chained() && (g.driver == null || g.driver == driver)
      modifies g, driver
      ensures watch.UntilAlert? ==> r == Ok(None)
      ensures watch.WhileAlert? && old(driver.Now()).alert.None? ==>
        r == Ok(None) && driver.log == old(driver.log) && driver.clock == old(driver.clock)
      ensures watch.WhileAlert? && r.Ok? && r.value.Some? ==>
        CalledSince(old(driver.log), driver.log, SwitchToAlert) && CalledSince(old(driver.log), driver.log, Resolution(watch.action))
      ensures r.Ok? ==>
        var elapsed := driver.clock - old(driver.clock);
        !watch.Holds(driver.Now().alert.Some?) || elapsed > g.implicitWait || (customTime > 0 && elapsed > customTime)
      ensures r.Ok? && r.value.Some? ==> exists u: nat :: old(driver.clock) <= u && driver.world(u).alert == r.value
      ensures watch.WhileAlert? && old(driver.Now()).alert.Some? && r.Ok? ==> r.value.Some?
      ensures watch.UntilAlert? ==> forall i | |old(driver.log)| <= i < |driver.log| :: driver.log[i].Sleep? || driver.log[i] == SwitchToAlert
      ensures g.Waits() == old(g.Waits()) && g.Rest() == old(g.Rest())
      ensures driver.clock >= old(driver.clock) && driver.implicitWait == old(driver.implicitWait)
      ensures driver.currentWindow == old(driver.currentWindow) && driver.frame == old(driver.frame)
      ensures old(driver.log) <= driver.log
    {
      var start := driver.clock;
      var result: Option<string> := None;
      while true
        invariant driver.clock >= start && old(driver.log) <= driver.log
        invariant g.Waits() == old(g.Waits()) && g.Rest() == old(g.Rest())
        invariant driver.implicitWait == old(driver.implicitWait)
        invariant driver.currentWindow == old(driver.currentWindow) && driver.frame == old(driver.frame)
        invariant watch.UntilAlert? ==> result.None?
        invariant watch.WhileAlert? && result.Some? ==>
          CalledSince(old(driver.log), driver.log, SwitchToAlert) && CalledSince(old(driver.log), driver.log, Resolution(watch.action))
        invariant watch.WhileAlert? && old(driver.Now()).alert.None? ==> driver.log == old(driver.log) && driver.clock == start
        invariant watch.WhileAlert? && old(driver.Now()).alert.Some? ==>
          result.Some? || (driver.log == old(driver.log) && driver.clock == start)
        invariant result.Some? ==> exists u: nat :: start <= u && driver.world(u).alert == result
        invariant watch.UntilAlert? ==> forall i | |old(driver.log)| <= i < |driver.log| :: driver.log[i].Sleep? || driver.log[i] == SwitchToAlert
        decreases if driver.clock - start <= g.implicitWait then g.implicitWait + 1 - (driver.clock - start) else 0
      {
        ghost var top := driver.log;
        var present := IsAlertPresent();
        if watch.WhileAlert? && result.Some? {
          CalledSinceGrows(old(driver.log), top, driver.log, SwitchToAlert);
          CalledSinceGrows(old(driver.log), top, driver.log, Resolution(watch.action));
        }
        if !watch.Holds(present) {
          break;
        }
        var elapsed := driver.clock - start;
        if elapsed > g.implicitWait || (customTime > 0 && elapsed > customTime) {
          break;
        }
        ghost var now := driver.clock;
        ghost var before := driver.log;
        var acted := AlertStep(g, watch);
        if acted.Err? {
          return Err(acted.error);
        }
        if watch.WhileAlert? {
          result := acted.value;
          assert driver.world(now).alert == result;
          CalledSinceFrom(old(driver.log), before, driver.log, SwitchToAlert);
          CalledSinceFrom(old(driver.log), before, driver.log, Resolution(watch.action));
        }
      }
      r := Ok(result);
    }

    /**
     * One turn of WaitForAlertAsLongAs's loop once the watch holds and
     * time is left: the watch's action on the alert shown, if it watches
     * an alert, then a 100 ms pause.
     */
    method AlertStep(g: Globals, watch: AlertWatch) returns (acted: Result<Option<string>>)
      requires Chained() && (g.driver == null || g.driver == driver)
      modifies g, driver
      ensures acted.Ok? ==> driver.clock >= old(driver.clock) + LoopSleep
      ensures driver.clock >= old(driver.clock)
      ensures watch.UntilAlert? ==> acted == Ok(None) && driver.log == old(driver.log) + [DriverCall.Sleep(LoopSleep)]
      ensures watch.WhileAlert? && acted.Ok? ==>
        acted.value == old(driver.Now()).alert
        && CalledSince(old(driver.log), driver.log, SwitchToAlert) && CalledSince(old(driver.log), driver.log, Resolution(watch.action))
      ensures g.Waits() == old(g.Waits()) && g.Rest() == old(g.Rest())
      ensures driver.implicitWait == old(driver.implicitWait)
      ensures driver.currentWindow == old(driver.currentWindow) && driver.frame == old(driver.frame)
      ensures old(driver.log) <= driver.log
    {
      acted := Ok(None);
      if watch.WhileAlert? {
        ghost var before := driver.log;
        acted := ResolveShownAlert(g, watch.action, watch.waitForPageToLoadAfter);
        if acted.Err? {
          return;
        }
        assert driver.log[|before|] == SwitchToAlert && driver.log[|before| + 1] == Resolution(watch.action);
      }
      ghost var mid := driver.log;
      driver.Sleep(LoopSleep);
      if watch.WhileAlert? {
        CalledSinceGrows(old(driver.log), mid, driver.log, SwitchToAlert);
        CalledSinceGrows(old(driver.log), mid, driver.log, Resolution(watch.action));
      }
    }

    /** WaitForAlert(time): waits until an alert shows or the time is up. */
    method WaitForAlert(g: Globals, timeToWaitForAlert: int) returns (r: Outcome)
      requires Chained() && (g.driver == null || g.driver == driver)
      modifies g, driver
      ensures r == Pass
      ensures var elapsed := driver.clock - old(driver.clock);
        driver.Now().alert.Some? || elapsed > g.implicitWait || (timeToWaitForAlert > 0 && elapsed > timeToWaitForAlert)
      ensures forall i | |old(driver.log)| <= i < |driver.log| :: driver.log[i].Sleep? || driver.log[i] == SwitchToAlert
      ensures g.Waits() == old(g.Waits()) && g.Rest() == old(g.Rest())
      ensures driver.clock >= old(driver.clock) && old(driver.log) <= driver.log
    {
      var waited := WaitForAlertAsLongAs(g, UntilAlert, timeToWaitForAlert);
      r := Pass;
    }

    /**
     * ActOnAlert(action, wait): accepts or dismisses alerts as long as they
     * show, then waits for the page to load when asked; returns the text of
     * the last alert acted on.
     */
    method ActOnAlert(g: Globals, action: AlertAction, waitForPageToLoadAfter: bool) returns (r: Result<Option<string>>)
      requires Chained() && (g.driver == null || g.driver == driver)
      modifies g, driver
      ensures old(driver.Now()).alert.None? && (!waitForPageToLoadAfter || title.None?) ==>
        r == Ok(None) && driver.log == old(driver.log) && driver.clock == old(driver.clock)
      ensures r.Ok? && r.value.Some? ==> exists u: nat :: old(driver.clock) <= u && driver.world(u).alert == r.value
      ensures r.Ok? && r.value.Some? ==>
        CalledSince(old(driver.log), driver.log, SwitchToAlert) && CalledSince(old(driver.log), driver.log, Resolution(action))
      ensures old(driver.Now()).alert.Some? && r.Ok? ==> r.value.Some?
      ensures g.Waits() == old(g.Waits()) && g.Rest() == old(g.Rest())
      ensures driver.clock >= old(driver.clock) && old(driver.log) <= driver.log
    {
      r := WaitForAlertAsLongAs(g, WhileAlert(action, waitForPageToLoadAfter), -1);
      if r.Err? {
        return;
      }
      if waitForPageToLoadAfter {
        var loaded := WaitForPageToLoad(g);
        if loaded.Fail? {
          return Err(loaded.error);
        }
      }
    }

    /** AcceptAlert(wait): ActOnAlert with Accept. */
    method AcceptAlert(g: Globals, waitForPageToLoadAfter: bool) returns (r: Result<Option<string>>)
      requires Chained() && (g.driver == null || g.driver == driver)
      modifies g, driver
      ensures r.Ok? && r.value.Some? ==> CalledSince(old(driver.log), driver.log, DriverCall.AcceptAlert)
      ensures old(driver.Now()).alert.Some? && r.Ok? ==> CalledSince(old(driver.log), driver.log, DriverCall.AcceptAlert)
      ensures old(driver.Now()).alert.None? && !waitForPageToLoadAfter ==> r == Ok(None) && driver.log == old(driver.log)
      ensures g.Waits() == old(g.Waits()) && g.Rest() == old(g.Rest())
      ensures driver.clock >= old(driver.clock) && old(driver.log) <= driver.log
    {
      r := ActOnAlert(g, AcceptIt, waitForPageToLoadAfter);
    }

    /** DismissAlert(wait): ActOnAlert with Dismiss. */
    method DismissAlert(g: Globals, waitForPageToLoadAfter: bool) returns (r: Result<Option<string>>)
      requires Chained() && (g.driver == null || g.driver == driver)
      modifies g, driver
      ensures r.Ok? && r.value.Some? ==> CalledSince(old(driver.log), driver.log, DriverCall.DismissAlert)
      ensures old(driver.Now()).alert.Some? && r.Ok? ==> CalledSince(old(driver.log), driver.log, DriverCall.DismissAlert)
      ensures old(driver.Now()).alert.None? && !waitForPageToLoadAfter ==> r == Ok(None) && driver.log == old(driver.log)
      ensures g.Waits() == old(g.Waits()) && g.Rest() == old(g.Rest())
      ensures driver.clock >= old(driver.clock) && old(driver.log) <= driver.log
    {
      r := ActOnAlert(g, DismissIt, waitForPageToLoadAfter);
    }

    /**
     * WaitForPendingAjaxCalls: on a browser that runs scripts, asks for the
     * number of pending jQuery calls until none is pending or the script
     * fails; on any other browser returns at once. The loop has no bound of
     * its own: on a page that never settles it never returns
     * (`UnsettledAjaxNeverEnds`), so the model takes browsers that settle
     * (`Driver.Browser.Valid`).
     */
    method WaitForPendingAjaxCalls()
      requires driver.Valid()
      modifies driver
      ensures !driver.isScriptExecutor ==> driver.log == old(driver.log) && driver.clock == old(driver.clock)
      ensures driver.isScriptExecutor ==>
        driver.clock > old(driver.clock) && driver.world(driver.clock - 1).AjaxSettled()
        && (forall u: nat | old(driver.clock) <= u < driver.clock - 1 :: !driver.world(u).AjaxSettled())
        && (forall i | |old(driver.log)| <= i < |driver.log| :: driver.log[i] == ExecuteScript)
        && |driver.log| - |old(driver.log)| == driver.clock - old(driver.clock)
      ensures driver.isScriptExecutor ==>
        AjaxLoop(driver.world, old(driver.clock), driver.clock - old(driver.clock)) == Some(driver.clock)
      ensures old(driver.log) <= driver.log
      ensures driver.implicitWait == old(driver.implicitWait)
      ensures driver.currentWindow == old(driver.currentWindow) && driver.frame == old(driver.frame)
    {
      if !driver.isScriptExecutor {
        return;
      }
      PollAjax();
      AjaxLoopEndsAtFirstSettled(driver.world, old(driver.clock), driver.clock);
    }

    /** The polling loop of WaitForPendingAjaxCalls: script calls until one finds nothing pending. */
    method PollAjax()
      requires driver.Valid() && driver.isScriptExecutor
      modifies driver
      ensures driver.clock > old(driver.clock) && driver.world(driver.clock - 1).AjaxSettled()
      ensures forall u: nat | old(driver.clock) <= u < driver.clock - 1 :: !driver.world(u).AjaxSettled()
      ensures forall i | |old(driver.log)| <= i < |driver.log| :: driver.log[i] == ExecuteScript
      ensures |driver.log| - |old(driver.log)| == driver.clock - old(driver.clock)
      ensures old(driver.log) <= driver.log
      ensures driver.implicitWait == old(driver.implicitWait)
      ensures driver.currentWindow == old(driver.currentWindow) && driver.frame == old(driver.frame)
    {
      var pending := true;
      while pending
        invariant driver.clock >= old(driver.clock) && old(driver.log) <= driver.log
        invariant pending ==> forall u: nat | old(driver.clock) <= u < driver.clock :: !driver.world(u).AjaxSettled()
        invariant !pending ==> driver.clock > old(driver.clock) && driver.world(driver.clock - 1).AjaxSettled()
        invariant !pending ==> forall u: nat | old(driver.clock) <= u < driver.clock - 1 :: !driver.world(u).AjaxSettled()
        invariant forall i | |old(driver.log)| <= i < |driver.log| :: driver.log[i] == ExecuteScript
        invariant |driver.log| - |old(driver.log)| == driver.clock - old(driver.clock)
        invariant driver.implicitWait == old(driver.implicitWait)
        invariant driver.currentWindow == old(driver.currentWindow) && driver.frame == old(driver.frame)
        decreases if driver.clock <= driver.settledFrom then driver.settledFrom + 1 - driver.clock else 0, pending
      {
        var count := driver.RunAjaxScript();
        pending := count.Some? && count.value > 0;
      }
    }

    /** WaitForDynamicContentToLoad: waits for pending ajax calls unless an alert shows. */
    method WaitForDynamicContentToLoad()
      requires driver.Valid()
      modifies driver
      ensures old(driver.Now()).alert.Some? ==> driver.log == old(driver.log) + [SwitchToAlert] && driver.clock == old(driver.clock)
      ensures old(driver.Now()).alert.None? && driver.isScriptExecutor ==>
        driver.clock > old(driver.clock) && driver.world(driver.clock - 1).AjaxSettled()
        && forall u: nat | old(driver.clock) <= u < driver.clock - 1 :: !driver.world(u).AjaxSettled()
      ensures old(driver.Now()).alert.None? && !driver.isScriptExecutor ==> driver.log == old(driver.log) && driver.clock == old(driver.clock)
      ensures old(driver.Now()).alert.None? && driver.isScriptExecutor ==> CalledSince(old(driver.log), driver.log, ExecuteScript)
      ensures old(driver.log) <= driver.log
      ensures forall i | |old(driver.log)| <= i < |driver.log| :: driver.log[i] == SwitchToAlert || driver.log[i] == ExecuteScript
      ensures driver.implicitWait == old(driver.implicitWait)
      ensures driver.currentWindow == old(driver.currentWindow) && driver.frame == old(driver.frame)
    {
      var alertShown := IsAlertPresent();
      if !alertShown {
        WaitForPendingAjaxCalls();
        if driver.isScriptExecutor {
          assert driver.log[|old(driver.log)|] == ExecuteScript;
        }
      }
    }

    /**
     * InitContainerContext: makes a new context, which switches into the
     * container, unless the page holds an active one.
     */
    method InitContainerContext() returns (r: Outcome)
      requires isContainer && Chained() && ContextReady()
      modifies this`context, driver
      ensures ContextReady()
      ensures old(context) != null && old(context.isActive) ==>
        r == Pass && context == old(context) && driver.log == old(driver.log)
      ensures r.Pass? ==> context != null && context.isActive
      ensures r.Fail? ==> context == old(context) && driver.log == old(driver.log) && driver.Position() == old(driver.Position())
      ensures r.Pass? && context != old(context) ==> fresh(context)
      ensures old(driver.log) <= driver.log
      ensures driver.clock == old(driver.clock) && driver.implicitWait == old(driver.implicitWait)
    {
      if context != null && context.isActive {
        return Pass;
      }
      var made := ContainerContext.Open(this, null);
      if made.Err? {
        return Fail(made.error);
      }
      context := made.value;
      r := Pass;
    }

    /** GetContainerContext: the active context, made anew when there is none. */
    method GetContainerContext() returns (r: Result<ContainerContext>)
      requires isContainer && Chained() && ContextReady()
      modifies this`context, driver
      ensures ContextReady()
      ensures r.Ok? ==> r.value == context && context.isActive
      ensures old(context) != null && old(context.isActive) ==> r == Ok(old(context)) && driver.log == old(driver.log)
      ensures r.Err? ==> context == old(context) && driver.log == old(driver.log)
      ensures driver.clock == old(driver.clock) && driver.implicitWait == old(driver.implicitWait)
    {
      var init := InitContainerContext();
      if init.Fail? {
        return Err(init.error);
      }
      r := Ok(context);
    }

    /** Dispose: restores the page's context; a page without one raises NullReference. */
    method Dispose() returns (r: Outcome)
      requires isContainer && Chained() && ContextReady()
      modifies context, driver
      ensures context == null ==> r == Fail(NullReference)
      ensures context != null && r.Pass? ==> !context.isActive
      ensures context != null && containerType == Window && context.containerType == Window ==>
        (r.Pass? <==> lastKnownWindowHandle.Some? && lastKnownWindowHandle.value in old(driver.Now()).windowHandles)
      ensures context != null && context.containerType == ContainerType.Alert ==>
        r == Pass && driver.frame == None && driver.log == old(driver.log) + [SwitchToDefaultContent]
      ensures driver.clock == old(driver.clock) && driver.implicitWait == old(driver.implicitWait)
    {
      if context == null {
        return Fail(NullReference);
      }
      DoesntNeedSwitchNever(this);
      r := context.Dispose();
    }

    /**
     * The BasePage constructor: builds the element table, installs the
     * 30 s / 250 ms wait defaults, keeps the given URL (the one computed
     * from the configuration is overwritten), loads the page and remembers
     * its windows. Any failure on the way means no page.
     */
    static method BuildBase(g: Globals, cls: PageClass, drv: Browser, url: Option<string>,
                            parentContainer: ContainerElement?) returns (r: Result<Page>)
      requires g.driver == null || g.driver == drv
      requires parentContainer != null ==> parentContainer.Valid()
      modifies g, drv
      ensures ParsedQueries(g.pages, cls.kind, map[]).Err? ==>
        r == Err(ParsedQueries(g.pages, cls.kind, map[]).error) && drv.log == old(drv.log)
      ensures r.Ok? ==> fresh(r.value) && r.value.Chained() && r.value.context == null && r.value.containerType == Element
      ensures r.Ok? ==> r.value.kind == cls.kind && r.value.driver == drv && r.value.title == cls.title
      ensures r.Ok? ==> r.value.isContainer == cls.isContainer && r.value.url == url
      ensures r.Ok? ==> r.value.container == (if cls.isContainer then parentContainer else null)
      ensures r.Ok? ==> ParsedQueries(g.pages, cls.kind, map[]) == Ok(r.value.queries)
      ensures r.Ok? ==> r.value.TitleToWaitFor().Ok? && r.value.TitleToWaitFor().value.Some?
      ensures r.Ok? ==> g.defaultTimeout == PageDefaultTimeout && g.defaultPollingFrequency == PageDefaultPolling
      ensures r.Ok? ==>
        r.value.lastKnownWindowHandle == Some(drv.currentWindow) && r.value.windowHandlesSnapshot == Some(drv.Now().windowHandles)
      ensures g.Waits() == old(g.Waits()) && g.driver == old(g.driver) && g.triggers == old(g.triggers)
      ensures old(drv.log) <= drv.log && drv.clock >= old(drv.clock)
    {
      var page := new Page(cls, drv, url, parentContainer);
      var parsed := page.GetPageFromConfig(g.pages);
      if parsed.Fail? {
        return Err(parsed.error);
      }
      SetWaitDefaults(g, PageDefaultTimeout, PageDefaultPolling);
      var loaded := page.Load(g);
      if loaded.Fail? {
        return Err(loaded.error);
      }
      page.StoreWindowHandle();
      r := Ok(page);
    }

    /**
     * Creating a page object: the BasePage constructor, then for a
     * container page (ContainerBasePage) the given type, if any, and the
     * switch into the container.
     */
    static method New(g: Globals, cls: PageClass, drv: Browser, containerType: Option<ContainerType>,
                      url: Option<string>, parentContainer: ContainerElement?) returns (r: Result<Page>)
      requires g.driver == null || g.driver == drv
      requires parentContainer != null ==> parentContainer.Valid()
      modifies g, drv
      ensures ParsedQueries(g.pages, cls.kind, map[]).Err? ==>
        r == Err(ParsedQueries(g.pages, cls.kind, map[]).error) && drv.log == old(drv.log)
      ensures r.Ok? ==> fresh(r.value) && r.value.Chained() && r.value.ContextReady()
      ensures r.Ok? ==> r.value.kind == cls.kind && r.value.driver == drv && r.value.title == cls.title
      ensures r.Ok? ==> r.value.isContainer == cls.isContainer && r.value.url == url
      ensures r.Ok? ==> r.value.container == (if cls.isContainer then parentContainer else null)
      ensures r.Ok? ==> ParsedQueries(g.pages, cls.kind, map[]) == Ok(r.value.queries)
      ensures r.Ok? ==> r.value.TitleToWaitFor().Ok? && r.value.TitleToWaitFor().value.Some?
      ensures r.Ok? ==> g.defaultTimeout == PageDefaultTimeout && g.defaultPollingFrequency == PageDefaultPolling
      ensures r.Ok? && !cls.isContainer ==>
        r.value.lastKnownWindowHandle == Some(drv.currentWindow) && r.value.windowHandlesSnapshot == Some(drv.Now().windowHandles)
      ensures r.Ok? && cls.isContainer ==>
        r.value.containerType == containerType.GetOr(Element) && r.value.context != null && r.value.context.isActive
      ensures r.Ok? && !cls.isContainer ==> r.value.containerType == Element && r.value.context == null
      ensures g.Waits() == old(g.Waits()) && g.driver == old(g.driver) && g.triggers == old(g.triggers)
      ensures old(drv.log) <= drv.log && drv.clock >= old(drv.clock)
    {
      r := BuildBase(g, cls, drv, url, parentContainer);
      if r.Err? || !cls.isContainer {
        return;
      }
      var page := r.value;
      if containerType.Some? {
        page.containerType := containerType.value;
      }
      var init := page.InitContainerContext();
      if init.Fail? {
        return Err(init.error);
      }
    }

    /**
     * `Activator.CreateInstance(cls, driver, containerType, url, parentContainer)`,
     * the reflective creation the framework uses for the next page of a
     * click and for an entry point. The four arguments bind only as
     * `BindsFourArguments` says, and otherwise MissingMethod is raised before
     * any constructor runs. An exception the constructor raises reaches the
     * caller wrapped in TargetInvocation.
     */
    static method CreateInstance(g: Globals, cls: PageClass, drv: Browser, containerType: Option<ContainerType>,
                                 url: Option<string>, parentContainer: ContainerElement?) returns (r: Result<Page>)
      requires g.driver == null || g.driver == drv
      requires parentContainer != null ==> parentContainer.Valid()
      modifies g, drv
      ensures !BindsFourArguments(cls, containerType) ==>
        r == Err(MissingMethod) && drv.log == old(drv.log) && drv.clock == old(drv.clock)
      ensures BindsFourArguments(cls, containerType) && r.Err? ==> r.error.TargetInvocation?
      ensures BindsFourArguments(cls, containerType) && ParsedQueries(g.pages, cls.kind, map[]).Err? ==>
        r == Err(TargetInvocation(ParsedQueries(g.pages, cls.kind, map[]).error)) && drv.log == old(drv.log)
      ensures r.Ok? ==> BindsFourArguments(cls, containerType)
      ensures r.Ok? ==> fresh(r.value) && r.value.Chained() && r.value.ContextReady()
      ensures r.Ok? ==> r.value.kind == cls.kind && r.value.driver == drv && r.value.title == cls.title
      ensures r.Ok? ==> !r.value.isContainer && r.value.url == url && r.value.container == null
      ensures r.Ok? ==> r.value.containerType == Element && r.value.context == null
      ensures r.Ok? ==> ParsedQueries(g.pages, cls.kind, map[]) == Ok(r.value.queries)
      ensures r.Ok? ==>
        r.value.lastKnownWindowHandle == Some(drv.currentWindow) && r.value.windowHandlesSnapshot == Some(drv.Now().windowHandles)
      ensures g.Waits() == old(g.Waits()) && g.driver == old(g.driver) && g.triggers == old(g.triggers)
      ensures old(drv.log) <= drv.log && drv.clock >= old(drv.clock)
    {
      if !BindsFourArguments(cls, containerType) {
        return Err(MissingMethod);
      }
      r := New(g, cls, drv, containerType, url, parentContainer);
      if r.Err? {
        r := Err(TargetInvocation(r.error));
      }
    }
  }

  /**
   * Whether `Activator.CreateInstance` finds a constructor of `cls` for the
   * arguments (driver, containerType, string, container). The default
   * binder fills no optional parameter, so ContainerBasePage, whose one
   * constructor takes five, never binds; a BasePage class's four-parameter
   * constructor binds only when the container type is null, since a boxed
   * ContainerType does not convert to its `title` string.
   */
  predicate BindsFourArguments(cls: PageClass, containerType: Option<ContainerType>) {
    !cls.isContainer && containerType.None?
  }

  /**
   * The loop of WaitForPendingAjaxCalls as written, allowed at most
   * `rounds` script calls from instant `t`, one per millisecond: the instant
   * after the call that found no pending call (or no answer), or None while
   * the loop is still polling. The source sets no bound of its own.
   */
  function AjaxLoop(world: nat -> Snapshot, t: nat, rounds: nat): (r: Option<nat>)
    ensures r.Some? ==> t < r.value <= t + rounds && world(r.value - 1).AjaxSettled()
    decreases rounds
  {
    if rounds == 0 then None
    else if world(t).AjaxSettled() then Some(t + 1)
    else AjaxLoop(world, t + 1, rounds - 1)
  }

  /** On a page whose pending-ajax count never falls to zero, no number of script calls ends the loop. */
  lemma {:induction false} UnsettledAjaxNeverEnds(world: nat -> Snapshot, t: nat, rounds: nat)
    requires forall u: nat | u >= t :: !world(u).AjaxSettled()
    ensures AjaxLoop(world, t, rounds) == None
    decreases rounds
  {
    if rounds > 0 {
      UnsettledAjaxNeverEnds(world, t + 1, rounds - 1);
    }
  }

  /** The loop ends right after the first instant with nothing pending. */
  lemma {:induction false} AjaxLoopEndsAtFirstSettled(world: nat -> Snapshot, t: nat, e: nat)
    requires t < e && world(e - 1).AjaxSettled()
    requires forall u: nat | t <= u < e - 1 :: !world(u).AjaxSettled()
    ensures AjaxLoop(world, t, e - t) == Some(e)
    decreases e - t
  {
    if t < e - 1 {
      AjaxLoopEndsAtFirstSettled(world, t + 1, e);
    }
  }

  /** The title a container page waits for is its parent page's. */
  lemma ContainerWaitsForParentTitle(p: Page)
    requires p.Chained() && p.isContainer && p.container != null
    ensures p.TitleToWaitFor() == p.container.parentPage.TitleToWaitFor()
  {
  }

  /**
   * TitleToWaitFor is the title of the outermost page of the chain, and
   * raises exactly when the chain breaks at a container page without a
   * container element.
   */
  lemma {:induction false} TitleOfOutermostPage(p: Page)
    requires p.Chained()
    ensures p.Outermost().Some? ==> p.TitleToWaitFor() == Ok(p.Outermost().value.title)
    ensures p.Outermost().None? ==> p.TitleToWaitFor() == Err(NullReference)
    decreases p.depth
  {
    if p.isContainer && p.container != null {
      TitleOfOutermostPage(p.container.parentPage);
    }
  }

  /** The table a page of `kind` starts from `table`: its configuration entry's, or `table` without one. */
  function ParsedQueries(pages: seq<PageConfig>, kind: PageKind, table: QueryTable): Result<QueryTable> {
    match ConfigFor(pages, kind)
    case None => Ok(table)
    case Some(c) => ParseTable(pages, c, |pages|, table)
  }

  /** The browser shows a title that contains `t`, case-sensitively. */
  predicate ShowsTitle(snap: Snapshot, t: Option<string>) {
    snap.title.Some? && t.Some? && Text.Contains(snap.title.value, t.value)
  }

  /** The title wait of WaitForTitleChange: Until.Title.Contains(t).Wait() with the global defaults. */
  function TitleWait(world: nat -> Snapshot, t: Option<string>, start: nat, timeout: nat, polling: nat): Outcome {
    W.Poll(world, W.TitleContainsProbe(t), true, start, start + timeout, W.Step(polling), W.TimeoutMessage(None))
  }

  /** Every call `log` adds to `log0` is a pause. */
  ghost predicate SleepsOnly(log0: seq<DriverCall>, log: seq<DriverCall>) {
    log0 <= log && forall i | |log0| <= i < |log| :: log[i].Sleep?
  }

  /** Every call `log` adds to `log0` is a pause or a click. */
  ghost predicate SleepsAndClicks(log0: seq<DriverCall>, log: seq<DriverCall>) {
    log0 <= log && forall i | |log0| <= i < |log| :: log[i].Sleep? || log[i].Click?
  }

  /** `log` holds the call `c` after its prefix `log0`. */
  ghost predicate CalledSince(log0: seq<DriverCall>, log: seq<DriverCall>, c: DriverCall) {
    exists i | |log0| <= i < |log| :: log[i] == c
  }

  /** A call made since a later point of the log was made since `log0`. */
  lemma CalledSinceFrom(log0: seq<DriverCall>, mid: seq<DriverCall>, log: seq<DriverCall>, c: DriverCall)
    requires log0 <= mid && CalledSince(mid, log, c)
    ensures CalledSince(log0, log, c)
  {
    var i :| |mid| <= i < |log| && log[i] == c;
    assert |log0| <= i;
  }

  /** A call made since `log0` stays made as the log grows. */
  lemma CalledSinceGrows(log0: seq<DriverCall>, a: seq<DriverCall>, b: seq<DriverCall>, c: DriverCall)
    requires CalledSince(log0, a, c) && a <= b
    ensures CalledSince(log0, b, c)
  {
    var i :| |log0| <= i < |a| && a[i] == c;
    assert b[i] == c;
  }

  /** The driver call that accepts or dismisses an alert. */
  function Resolution(action: AlertAction): DriverCall {
    if action == AcceptIt then DriverCall.AcceptAlert else DriverCall.DismissAlert
  }

  /** Clicks added in two stretches add up. */
  lemma ClickCountSplit(a: seq<DriverCall>, b: seq<DriverCall>, c: seq<DriverCall>)
    requires a <= b <= c
    ensures ClickCount(c[|a|..]) == ClickCount(b[|a|..]) + ClickCount(c[|b|..])
  {
    assert c[|a|..] == b[|a|..] + c[|b|..];
    ClickCountAppend(b[|a|..], c[|b|..]);
  }

  /** DoesntNeedSwitch is never true, so a context's change is always needed when it can be decided. */
  lemma DoesntNeedSwitchNever(p: Page)
    requires p.isContainer
    ensures p.DoesntNeedSwitch() != Ok(true)
  {
  }

  /** SetWaitDefaults: the global default timeout and polling frequency. */
  method SetWaitDefaults(g: Globals, timeout: nat, pollingFrequency: nat)
    modifies g`defaultTimeout, g`defaultPollingFrequency
    ensures g.defaultTimeout == timeout && g.defaultPollingFrequency == pollingFrequency
    ensures g.Waits() == old(g.Waits())
  {
    g.defaultTimeout := timeout;
    g.defaultPollingFrequency := pollingFrequency;
  }

  /**
   * Load's guard compares titles ignoring case, but the title wait that
   * follows compares them case-sensitively: a browser that keeps showing a
   * title which contains the page's title only up to case has the page
   * loaded, yet the wait for it runs out.
   */
  lemma {:induction false} LoadedPageTitleWaitTimesOut(p: Page, start: nat, timeout: nat, polling: nat)
    requires p.Chained() && p.TitleToWaitFor().Ok? && p.TitleToWaitFor().value.Some?
    requires p.driver.Now().title.Some?
    requires forall s: nat :: p.driver.world(s).title == p.driver.Now().title
    requires Text.ContainsIgnoreCase(p.driver.Now().title.value, p.TitleToWaitFor().value.value)
    requires !Text.Contains(p.driver.Now().title.value, p.TitleToWaitFor().value.value)
    ensures p.IsLoaded() == Ok(true)
    ensures TitleWait(p.driver.world, p.TitleToWaitFor().value, start, timeout, polling) == Fail(WebDriverTimeout(W.TimeoutMessage(None)))
  {
    var t := p.TitleToWaitFor().value;
    forall s: nat | start <= s
      ensures W.ProbeValue(W.TitleContainsProbe(t), true, p.driver.world(s)) == Ok(false)
    {
      assert p.driver.world(s).title == p.driver.Now().title;
    }
    W.FalseConditionTimesOut(p.driver.world, W.TitleContainsProbe(t), true, start, start + timeout, W.Step(polling), W.TimeoutMessage(None));
  }

  /** Two titles of one length that differ in the case of the first letter only match ignoring case. */
  lemma {:induction false} FirstLetterCaseOnly(shown: string, wanted: string)
    requires |shown| == |wanted| > 0 && shown[0] != wanted[0]
    requires Text.LowerChar(shown[0]) == Text.LowerChar(wanted[0]) && shown[1..] == wanted[1..]
    ensures Text.ContainsIgnoreCase(shown, wanted)
    ensures !Text.Contains(shown, wanted)
  {
    assert Text.Lower(shown) == Text.Lower(wanted) by {
      forall i | 0 <= i < |shown|
        ensures Text.Lower(shown)[i] == Text.Lower(wanted)[i]
      {
        if i > 0 {
          assert shown[i] == shown[1..][i - 1] == wanted[1..][i - 1] == wanted[i];
        }
      }
    }
    assert Text.OccursAt(Text.Lower(shown), Text.Lower(wanted), 0);
    assert !Text.OccursAt(shown, wanted, 0) by {
      assert shown[0..|wanted|][0] != wanted[0];
    }
  }

  /** Such titles exist: "myBeazley UAT" contains "MyBeazley UAT" up to case only. */
  lemma CaseOnlyMatch()
    ensures Text.ContainsIgnoreCase("myBeazley UAT", "MyBeazley UAT")
    ensures !Text.Contains("myBeazley UAT", "MyBeazley UAT")
  {
    var shown := "myBeazley UAT";
    var wanted := "MyBeazley UAT";
    assert Text.LowerChar(wanted[0]) == 'm';
    assert shown[1..] == wanted[1..];
    FirstLetterCaseOnly(shown, wanted);
  }
}

/**
 * The entry to a site under test (Website.cs): a collection of entry points
 * naming, for each page class, the URL a test starts that page from.
 * The collection is static in the source and is set once; here it is the
 * one field of a Website object.
 */
module Website {
  import opened Wrappers
  import opened Exceptions
  import opened Enums
  import opened Globals
  import opened Pages

  const NotInitialisedMessage := "Entry Points collection not initialised"

  /** The message GoTo raises for a page class with no entry point. */
  function NotAnEntryPointMessage(pageName: string): (m: string)
    ensures |m| > |pageName|
  {
    "Requested Page (" + pageName + ") is not defined as Entry Point. Please Check Entry Points config."
  }

  /**
   * The URL of the entry point for the page class named `pageName`, or the
   * exception GoTo raises for it.
   */
  function EntryUrl(entryPoints: Option<map<string, string>>, pageName: string): (r: Result<string>)
    ensures entryPoints.None? ==> r == Err(General(NotInitialisedMessage))
    ensures entryPoints.Some? && pageName !in entryPoints.value ==> r == Err(General(NotAnEntryPointMessage(pageName)))
    ensures r.Ok? <==> entryPoints.Some? && pageName in entryPoints.value
    ensures r.Ok? ==> r.value == entryPoints.value[pageName]
  {
    if entryPoints.None? then Err(General(NotInitialisedMessage))
    else if pageName in entryPoints.value then Ok(entryPoints.value[pageName])
    else Err(General(NotAnEntryPointMessage(pageName)))
  }

  /** The two failures of an entry lookup are told apart by their messages. */
  lemma EntryUrlErrorsDiffer(pageName: string)
    ensures EntryUrl(None, pageName) != EntryUrl(Some(map[]), pageName)
  {
    assert NotAnEntryPointMessage(pageName)[0] == 'R';
    assert NotInitialisedMessage[0] == 'E';
  }

  class Website {
    /** The entry points, page class name to URL; None until initialised. */
    var entryPoints: Option<map<string, string>>

    constructor()
      ensures entryPoints.None?
    {
      entryPoints := None;
    }

    /**
     * Initialize(entryPointsConfig): copies the configuration in on the
     * first call and ignores every later one. Copying a missing
     * configuration raises ArgumentNull.
     */
    method Initialize(entryPointsConfig: Option<map<string, string>>) returns (r: Outcome)
      modifies this
      ensures old(entryPoints).Some? ==> r.Pass? && entryPoints == old(entryPoints)
      ensures old(entryPoints).None? && entryPointsConfig.Some? ==> r.Pass? && entryPoints == entryPointsConfig
      ensures old(entryPoints).None? && entryPointsConfig.None? ==> r == Fail(ArgumentNull) && entryPoints.None?
    {
      if entryPoints.None? {
        if entryPointsConfig.None? {
          return Fail(ArgumentNull);
        }
        entryPoints := entryPointsConfig;
      }
      r := Pass;
    }

    /**
     * GoTo<T>(): a new page object of class `cls` created by reflection on
     * the global driver, with no container type, the entry point's URL and
     * no container. A failure of the page constructor reaches the caller
     * wrapped in TargetInvocation, and ContainerBasePage cannot be created
     * this way (MissingMethod).
     */
    method GoTo(g: Globals, cls: PageClass) returns (r: Result<Page>)
      modifies g, g.driver
      ensures EntryUrl(entryPoints, cls.kind.name).Err? ==>
        r == Err(EntryUrl(entryPoints, cls.kind.name).error) && g.driver == old(g.driver)
        && (g.driver != null ==> g.driver.log == old(g.driver.log))
      ensures EntryUrl(entryPoints, cls.kind.name).Ok? && old(g.driver) == null ==> r == Err(InstanceNotFound(DriverMissing))
      ensures EntryUrl(entryPoints, cls.kind.name).Ok? && old(g.driver) != null && cls.isContainer ==> r == Err(MissingMethod)
      ensures EntryUrl(entryPoints, cls.kind.name).Ok? && old(g.driver) != null && r.Err? ==>
        r.error.TargetInvocation? || r.error == MissingMethod
      ensures r.Ok? ==>
        !cls.isContainer && old(g.driver) != null && fresh(r.value) && r.value.Chained() && r.value.ContextReady()
        && r.value.kind == cls.kind && r.value.driver == old(g.driver) && r.value.container == null
        && r.value.url == Some(EntryUrl(entryPoints, cls.kind.name).value)
      ensures g.Waits() == old(g.Waits()) && g.driver == old(g.driver) && g.triggers == old(g.triggers)
    {
      var url :- EntryUrl(entryPoints, cls.kind.name);
      var drv :- g.GetDriver();
      r := Page.CreateInstance(g, cls, drv, None, Some(url), null);
    }
  }
}

/**
 * One `<Element>` entry of a page's configuration (ElementConfiguration.cs)
 * and the entry of a page (PageObjectConfiguration.cs) that holds such
 * entries.
 */
module ElementConfiguration {
  import opened Wrappers
  import opened Exceptions
  import opened Enums
  import Text

  /** The lookup a page installs as a finder delegate: `value` searched with `findBy`. */
  datatype Finder = Finder(value: string, findBy: FindBy)

  /** An element entry: its configured attributes and the delegates a page installs. */
  datatype ElementConfig = ElementConfig(
    name: string,
    findBy: FindBy,
    value: string,
    isParameterized: bool,
    finder: Option<Finder>,
    parameterizedFinder: Option<Finder>)

  /** What a finder ends up searching for: the concrete query and its strategy. */
  datatype Query = Query(query: string, findBy: FindBy)

  /**
   * The `<Page>` entry of the configuration: its name, the page it inherits
   * elements from, the page-object class it configures and its own elements.
   */
  datatype PageConfig = PageConfig(
    name: Option<string>,
    basePageName: Option<string>,
    pageType: PageKind,
    elements: seq<ElementConfig>)

  /** `ParseEnum` for the `by` attribute: the enumeration's member names. */
  function ParseFindBy(s: string): Option<FindBy> {
    match s
    case "Id" => Some(Id)
    case "Name" => Some(Name)
    case "XPath" => Some(XPath)
    case "Href" => Some(Href)
    case "Value" => Some(Value)
    case "LinkText" => Some(LinkText)
    case "PartialLinkText" => Some(PartialLinkText)
    case "ClassName" => Some(ClassName)
    case _ => None
  }

  /** The boolean converter: "true" or "false" in any case. */
  function ParseBool(s: string): Option<bool> {
    var l := Text.Lower(s);
    if l == "true" then Some(true) else if l == "false" then Some(false) else None
  }

  /**
   * Reads an `<Element>` from its XML attributes: `name` and `value` are
   * required, `by` defaults to Name and `isParameterized` to false; no
   * finder is installed yet.
   */
  function ParseElement(attributes: map<string, string>): (r: Result<ElementConfig>)
    ensures r.Ok? ==> "name" in attributes && "value" in attributes
    ensures r.Ok? ==> r.value.name == attributes["name"] && r.value.value == attributes["value"]
    ensures r.Ok? && "by" !in attributes ==> r.value.findBy == Name
    ensures r.Ok? && "isParameterized" !in attributes ==> !r.value.isParameterized
    ensures r.Ok? ==> r.value.finder.None? && r.value.parameterizedFinder.None?
    ensures "name" !in attributes || "value" !in attributes ==> r.Err? && r.error.ConfigurationErrors?
  {
    if "name" !in attributes then Err(ConfigurationErrors("Required attribute 'name' not found."))
    else if "value" !in attributes then Err(ConfigurationErrors("Required attribute 'value' not found."))
    else
      var findBy :=
        if "by" in attributes then ParseFindBy(attributes["by"]) else Some(Name);
      var isParameterized :=
        if "isParameterized" in attributes then ParseBool(attributes["isParameterized"]) else Some(false);
      if findBy.None? then Err(ConfigurationErrors("The value of the property 'by' cannot be parsed."))
      else if isParameterized.None? then Err(ConfigurationErrors("The value of the property 'isParameterized' cannot be parsed."))
      else Ok(ElementConfig(attributes["name"], findBy.value, attributes["value"], isParameterized.value, None, None))
  }

  /**
   * `ElementConfiguration.FindElement(args)`: a parameterized entry calls its
   * parameterized finder, which fills the pattern with `args`; any other entry
   * calls its plain finder with its own value. An unset delegate raises
   * NullReference.
   */
  function FindElement(c: ElementConfig, args: seq<string>): (r: Result<Query>)
    ensures c.isParameterized ==>
      (c.parameterizedFinder.None? <==> r == Err(NullReference))
    ensures c.isParameterized && c.parameterizedFinder.Some? ==>
      r.Ok? == Text.Format(c.parameterizedFinder.value.value, args).Ok?
      && (r.Ok? ==> r.value == Query(Text.Format(c.parameterizedFinder.value.value, args).value,
                                      c.parameterizedFinder.value.findBy))
    ensures !c.isParameterized ==>
      (c.finder.None? <==> r == Err(NullReference))
      && (c.finder.Some? ==> r == Ok(Query(c.finder.value.value, c.finder.value.findBy)))
  {
    if c.isParameterized then
      match c.parameterizedFinder
      case None => Err(NullReference)
      case Some(f) =>
        match Text.Format(f.value, args)
        case Ok(q) => Ok(Query(q, f.findBy))
        case Err(e) => Err(e)
    else
      match c.finder
      case None => Err(NullReference)
      case Some(f) => Ok(Query(f.value, f.findBy))
  }

  /** A plain entry ignores the arguments it is given. */
  lemma PlainIgnoresArgs(c: ElementConfig, args1: seq<string>, args2: seq<string>)
    requires !c.isParameterized
    ensures FindElement(c, args1) == FindElement(c, args2)
  {
  }

  /**
   * What a page installs on an entry (BasePage.ParsePageConfig): the finder
   * matching the entry's flag, over the entry's own value and strategy.
   */
  function Install(c: ElementConfig): ElementConfig {
    if c.isParameterized then c.(parameterizedFinder := Some(Finder(c.value, c.findBy)))
    else c.(finder := Some(Finder(c.value, c.findBy)))
  }

  /**
   * An installed entry never reaches an unset delegate: its lookup fails only
   * when a parameterized pattern does not format, and a plain entry's lookup
   * is its own value.
   */
  lemma InstalledNeverUnset(c: ElementConfig, args: seq<string>)
    ensures FindElement(Install(c), args) != Err(NullReference)
    ensures FindElement(Install(c), args).Err? ==>
      c.isParameterized && FindElement(Install(c), args) == Err(Exceptions.Format)
    ensures !c.isParameterized ==> FindElement(Install(c), args) == Ok(Query(c.value, c.findBy))
  {
  }
}

/**
 * How a page finds an element by its configured name (BasePage.Find,
 * FindElementBy and ParameterizedFindElementBy) and how a WebElement
 * resolves itself through its parent page (WebElement.Element).
 */
module ElementLookup {
  import opened Wrappers
  import opened Exceptions
  import opened Enums
  import opened Driver
  import opened ElementConfiguration
  import Text

  /**
   * A page's element table. Its dictionary compares names ignoring case, so
   * the table is keyed by the lower-cased name.
   */
  type QueryTable = map<string, ElementConfig>

  /** The key a name is stored under. */
  function Key(name: string): string {
    Text.Lower(name)
  }

  /** `Dictionary.Add`: a name already present, in any case, raises DuplicateKey. */
  function Add(table: QueryTable, c: ElementConfig): (r: Result<QueryTable>)
    ensures r.Ok? <==> Key(c.name) !in table
    ensures r.Ok? ==> r.value == table[Key(c.name) := c]
    ensures r.Err? ==> r.error == DuplicateKey(c.name)
  {
    if Key(c.name) in table then Err(DuplicateKey(c.name)) else Ok(table[Key(c.name) := c])
  }

  /** The Selenium locator for a configured query; Href and Value become XPath attribute tests. */
  function ToBy(q: Query): By {
    match q.findBy
    case Id => ById(q.query)
    case Name => ByName(q.query)
    case XPath => ByXPath(q.query)
    case Href => ByXPath("//*[@href='" + q.query + "']")
    case Value => ByXPath("//*[@value='" + q.query + "']")
    case LinkText => ByLinkText(q.query)
    case PartialLinkText => ByPartialLinkText(q.query)
    case ClassName => ByClassName(q.query)
  }

  /** Href and Value queries are XPath attribute tests on any element. */
  lemma AttributeQueriesAreXPath(q: Query)
    ensures q.findBy == Href ==> ToBy(q) == ByXPath("//*[@href='" + q.query + "']")
    ensures q.findBy == Value ==> ToBy(q) == ByXPath("//*[@value='" + q.query + "']")
    ensures q.findBy !in {Href, Value, XPath} ==> !ToBy(q).ByXPath? && ToBy(q).query == q.query
  {
  }

  /** `FindElementBy`: every failure of the driver's lookup is caught and becomes null. */
  function FindElementBy(q: Query, snap: Snapshot): (r: Option<ElementHandle>)
    ensures r.Some? <==> ToBy(q) in snap.elements
    ensures r.Some? ==> r.value.locator == ToBy(q)
  {
    match Driver.FindElement(snap, ToBy(q))
    case Ok(h) => Some(h)
    case Err(_) => None
  }

  /**
   * `BasePage.Find(name, args)`: null for a name the table does not hold;
   * otherwise the entry's lookup, whose only failures are an unset delegate
   * and a pattern that does not format (both raised outside the catch-all).
   */
  function Find(table: QueryTable, name: string, args: seq<string>, snap: Snapshot): (r: Result<Option<ElementHandle>>)
    ensures Key(name) !in table ==> r == Ok(None)
    ensures Key(name) in table ==>
      match ElementConfiguration.FindElement(table[Key(name)], args)
      case Err(e) => r == Err(e)
      case Ok(q) => r == Ok(FindElementBy(q, snap))
  {
    if Key(name) !in table then Ok(None)
    else
      match ElementConfiguration.FindElement(table[Key(name)], args)
      case Err(e) => Err(e)
      case Ok(q) => Ok(FindElementBy(q, snap))
  }

  /** Names that differ only in the case of ASCII letters find the same element. */
  lemma FindIgnoresCase(table: QueryTable, a: string, b: string, args: seq<string>, snap: Snapshot)
    requires Text.Lower(a) == Text.Lower(b)
    ensures Find(table, a, args, snap) == Find(table, b, args, snap)
  {
  }

  /** A missing element is null, never an exception. */
  lemma {:induction false} FindNeverRaisesForMissingElement(table: QueryTable, name: string, args: seq<string>, snap: Snapshot)
    requires forall k | k in table :: table[k] == Install(table[k])
    ensures Find(table, name, args, snap).Err? ==> Find(table, name, args, snap) == Err(Exceptions.Format)
    ensures Find(table, name, args, snap).Ok? && Find(table, name, args, snap).value.Some? ==>
      Find(table, name, args, snap).value.value.locator in snap.elements
  {
    if Key(name) in table {
      var c := table[Key(name)];
      assert c == Install(c);
      InstalledNeverUnset(c, args);
    }
  }

  /**
   * What a WebElement needs to find itself: its identifier and the table of
   * the page that holds it.
   */
  datatype Locator = Locator(identifier: string, table: QueryTable)

  /** `WebElement.Element`: the page's lookup of the identifier, with no arguments. */
  function Resolve(loc: Locator, snap: Snapshot): Result<Option<ElementHandle>> {
    Find(loc.table, loc.identifier, [], snap)
  }
}

/** The framework's enumerations and the identity of a page-object class. */
module Enums {

  /** How `WebElement.Click` treats an alert raised by the click. */
  datatype AlertResolveType = Dismiss | Accept | TreatAfter

  /** What a container page or container element wraps. */
  datatype ContainerType = Element | Alert | Frame | Window

  /** What `BasePage.ActOnAlert` does with an alert. */
  datatype AlertAction = AcceptIt | DismissIt

  /** The lookup strategies an element entry of the page configuration can name. */
  datatype FindBy = Id | Name | XPath | Href | Value | LinkText | PartialLinkText | ClassName

  /** A page-object class, identified by its simple type name (`typeof(T).Name`). */
  datatype PageKind = PageKind(name: string)
}

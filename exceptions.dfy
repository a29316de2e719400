/**
 * The exceptions the framework raises, catches or lets through, and a Result
 * type for operations that can end in one of them.
 *
 * Selenium's exceptions all derive from WebDriverException, so a
 * `catch (WebDriverException)` also catches the more specific kinds listed
 * first below; `IsWebDriverException` says which kinds belong to that family.
 */
module Exceptions {
  import opened Wrappers

  datatype Exception =
    // Selenium's WebDriverException family
    | WebDriverTimeout(customMessage: Option<string>)   // None: Selenium's own "Timed out after ..." text
    | StaleElementReference
    | ElementNotVisible
    | NoSuchElement
    | NoAlertPresent
    | NoSuchWindow
    | UnhandledAlert
    | WebDriverFailure
    // .NET exceptions
    | InvalidOperation
    | NullReference
    | ArgumentNull
    | DuplicateKey(key: string)
    | Format
    | InstanceNotFound(message: string)
    | Constraint(message: string)
    | StackOverflow
    | ConfigurationErrors(message: string)
    | General(message: string)
    | MissingMethod
    | TargetInvocation(inner: Exception)   // wraps what a constructor called by reflection raised
    // the framework's own (BeazleyExceptions.cs)
    | ElementNotPresent(identifier: string)
  {
    /** Whether `catch (WebDriverException)` catches this exception. */
    predicate IsWebDriverException() {
      || WebDriverTimeout? || StaleElementReference? || ElementNotVisible? || NoSuchElement?
      || NoAlertPresent? || NoSuchWindow? || UnhandledAlert? || WebDriverFailure?
    }

    /** Whether this is one of Selenium's NotFoundException kinds, which WebDriverWait ignores while polling. */
    predicate IsNotFound() {
      NoSuchElement? || NoSuchWindow?
    }
  }

  /** The outcome of an operation that returns a value or throws. */
  datatype Result<+T> = Ok(value: T) | Err(error: Exception) {

    predicate IsFailure() {
      Err?
    }

    function PropagateFailure<U>(): Result<U>
      requires Err?
    {
      Err(error)
    }

    function Extract(): T
      requires Ok?
    {
      value
    }
  }

  /** The outcome of an operation that returns nothing or throws. */
  datatype Outcome = Pass | Fail(error: Exception) {

    predicate IsFailure() {
      Fail?
    }

    function PropagateFailure(): Outcome
      requires Fail?
    {
      this
    }
  }
}

/**
 * Stream-parse failures as seen by the configuration persister.
 *
 * `javax.xml.stream.XMLStreamException` is modelled by the `Unstructured`
 * variant; its subclass `XMLStreamValidationException`, which rides a
 * located, classified `ValidationError` along with the failure, is the
 * `Structured` variant. Both are stream failures, so both are caught by the
 * same `catch (XMLStreamException e)` clause of the loader.
 */
module StreamFailures {
  import opened Wrappers

  /** A position in the source document. */
  datatype Location = Location(line: int, column: int, offset: int)

  /**
   * The classification of a validation error. The closed set of kinds lives
   * in an external library; the loader itself only ever produces
   * `UnknownError`, every other kind is carried through opaquely.
   */
  datatype ErrorType = UnknownError | Classified(name: string)

  /**
   * A normalized validation failure: its kind, where it happened, the
   * message of the failure it came from, and an optional fallback message
   * shown when no richer rendering is possible.
   */
  datatype ValidationError = ValidationError(
    kind: ErrorType,
    location: Option<Location>,
    message: string,
    fallbackMessage: Option<string>)
  {
    /** The error with its fallback message set (the mutator `fallbackMessage(String)`). */
    function WithFallbackMessage(text: string): ValidationError
    {
      this.(fallbackMessage := Some(text))
    }
  }

  /** A throwable, as far as the loader can tell them apart. */
  datatype Throwable =
    | Stream(failure: StreamFailure)
    | Other(description: string)

  /**
   * A stream-parse failure. `message` is what `getMessage()` returns for
   * `Unstructured`, and the constructor's message argument for `Structured`;
   * `nested` is the nested exception (`None` for null).
   */
  datatype StreamFailure =
    | Unstructured(message: string, location: Option<Location>, nested: Option<Throwable>)
    | Structured(message: string, validationError: ValidationError, nested: Option<Throwable>)
  {
    /** `getLocation()`: a structured failure reports its error's location. */
    function GetLocation(): Option<Location>
    {
      match this
      case Unstructured(_, loc, _) => loc
      case Structured(_, ve, _) => ve.location
    }

    /** `getNestedException()`. */
    function NestedException(): Option<Throwable>
    {
      nested
    }

    /** The instance test `instanceof XMLStreamValidationException`. */
    predicate IsValidationException()
    {
      Structured?
    }
  }

  /** The constructor `XMLStreamValidationException(message, validationError, nested)`. */
  function ValidationException(message: string, validationError: ValidationError, nested: Option<Throwable>): (e: StreamFailure)
    ensures e.IsValidationException()
  {
    Structured(message, validationError, nested)
  }

  /** `getValidationError()`, defined only on the structured variant. */
  function GetValidationError(e: StreamFailure): ValidationError
    requires e.IsValidationException()
  {
    e.validationError
  }

  /**
   * The external `ValidationError.from(exception, type)`: an error of the
   * given kind at the failure's location, carrying its message and no
   * fallback message.
   */
  function ValidationErrorFrom(e: StreamFailure, kind: ErrorType): ValidationError
  {
    ValidationError(kind, e.GetLocation(), e.message, None)
  }

  /**
   * A constructed validation exception gives back exactly what it was built
   * from: the carried error, its location, the message and the nested cause.
   */
  lemma ValidationExceptionCarrier(message: string, ve: ValidationError, nested: Option<Throwable>)
    ensures var e := ValidationException(message, ve, nested);
      && e.IsValidationException()
      && GetValidationError(e) == ve
      && e.GetLocation() == ve.location
      && e.message == message
      && e.NestedException() == nested
  {
  }
}

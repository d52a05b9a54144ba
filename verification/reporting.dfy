/**
 * `reportValidationError`: translate a stream failure into a validation
 * error, then try to render it against the schema documents found under
 * `${jboss.home.dir}/docs/schema`. The outcome says whether schemas were
 * available, which is true only when the rendering ran to completion.
 */
module Reporting {
  import opened Wrappers
  import opened StreamFailures
  import MessagePattern

  /**
   * The environment the decision depends on: the `jboss.home.dir` property,
   * whether the schema directory exists, its listing (`None` when
   * `listFiles()` returns null), and whether printing a given job throws.
   * The printer reads the error and the schema list it is handed, so its
   * failure is a property of the job, not a fixed bit.
   */
  datatype SchemaEnv = SchemaEnv(
    home: Option<string>,
    schemaDirExists: bool,
    listing: Option<seq<string>>,
    printerThrows: PrintJob -> bool)

  /** The call made on the error printer: what error, against which schema files. */
  datatype PrintJob = PrintJob(error: ValidationError, schemas: seq<string>)

  /** What one `reportValidationError` call did and returned. */
  datatype Report = Report(error: ValidationError, printJob: Option<PrintJob>, schemasAvailable: bool)

  /**
   * The validation error for a stream failure: a structured failure's own
   * error unchanged; otherwise an error of kind `UnknownError` whose fallback
   * message is the text of the first "Message: " line, when there is one.
   */
  function Translate(e: StreamFailure): (r: ValidationError)
    ensures e.IsValidationException() ==> r == GetValidationError(e)
    ensures !e.IsValidationException() ==>
              && r.kind == UnknownError
              && r.location == e.GetLocation()
              && r.message == e.message
    ensures !e.IsValidationException() ==>
              (r.fallbackMessage.Some? <==> MessagePattern.Contains(e.message, MessagePattern.Marker))
    ensures !e.IsValidationException() && r.fallbackMessage.Some? ==>
              MessagePattern.FindsGroup(e.message, r.fallbackMessage.value)
  {
    if e.IsValidationException() then
      GetValidationError(e)
    else
      var error := ValidationErrorFrom(e, UnknownError);
      match MessagePattern.ExtractMessage(e.message)
      case Some(text) => error.WithFallbackMessage(text)
      case None => error
  }

  /** `name.endsWith(".xsd")`, case-sensitive. */
  predicate IsSchemaName(name: string)
  {
    |name| >= 4 && name[|name| - 4..] == ".xsd"
  }

  /** The listing filtered to schema documents, in listing order. */
  function SchemaFiles(listing: seq<string>): (r: seq<string>)
    ensures |r| <= |listing|
    ensures forall x :: x in r <==> x in listing && IsSchemaName(x)
  {
    if listing == [] then []
    else (if IsSchemaName(listing[0]) then [listing[0]] else []) + SchemaFiles(listing[1..])
  }

  /** The filter works piecewise, so it keeps the listing's order. */
  lemma {:induction false} SchemaFilesAppend(a: seq<string>, b: seq<string>)
    ensures SchemaFiles(a + b) == SchemaFiles(a) + SchemaFiles(b)
    decreases |a|
  {
    if a == [] {
      assert a + b == b;
    } else {
      assert (a + b)[0] == a[0];
      assert (a + b)[1..] == a[1..] + b;
      SchemaFilesAppend(a[1..], b);
    }
  }

  /** Every schema name occurs as often as in the listing, every other name not at all. */
  lemma {:induction false} SchemaFilesCounts(listing: seq<string>, x: string)
    ensures multiset(SchemaFiles(listing))[x] == if IsSchemaName(x) then multiset(listing)[x] else 0
    decreases |listing|
  {
    if listing != [] {
      SchemaFilesCounts(listing[1..], x);
      assert listing == [listing[0]] + listing[1..];
    }
  }

  /** Filtering twice is filtering once. */
  lemma {:induction false} SchemaFilesIdempotent(listing: seq<string>)
    ensures SchemaFiles(SchemaFiles(listing)) == SchemaFiles(listing)
    decreases |listing|
  {
    if listing != [] {
      var head := if IsSchemaName(listing[0]) then [listing[0]] else [];
      SchemaFilesAppend(head, SchemaFiles(listing[1..]));
      SchemaFilesIdempotent(listing[1..]);
    }
  }

  /**
   * `reportValidationError`. The printer is built and run when the home
   * property is set, the schema directory exists and its listing is not
   * null; schemas count as available only if that run does not throw.
   */
  function ReportValidationError(e: StreamFailure, env: SchemaEnv): (r: Report)
    ensures r.error == Translate(e)
    ensures r.printJob.Some? <==> env.home.Some? && env.schemaDirExists && env.listing.Some?
    ensures r.printJob.Some? ==> r.printJob.value == PrintJob(r.error, SchemaFiles(env.listing.value))
    ensures r.schemasAvailable <==> r.printJob.Some? && !env.printerThrows(r.printJob.value)
  {
    var error := Translate(e);
    match env.home
    case None => Report(error, None, false)
    case Some(_) =>
      if env.schemaDirExists && env.listing.Some? then
        var job := PrintJob(error, SchemaFiles(env.listing.value));
        Report(error, Some(job), !env.printerThrows(job))
      else
        Report(error, None, false)
  }

  /**
   * No home property, no schema directory or a null listing: nothing is
   * printed and the error counts as not reported, whatever the failure.
   */
  lemma NoSchemaDirectoryNoReport(e: StreamFailure, env: SchemaEnv)
    requires env.home.None? || !env.schemaDirExists || env.listing.None?
    ensures ReportValidationError(e, env).printJob.None?
    ensures !ReportValidationError(e, env).schemasAvailable
  {
  }

  /**
   * An empty but non-null listing still counts as schemas being available,
   * as long as printing the job with an empty schema list does not throw.
   */
  lemma EmptyListingIsAvailable(e: StreamFailure, home: string, printerThrows: PrintJob -> bool)
    requires !printerThrows(PrintJob(Translate(e), []))
    ensures ReportValidationError(e, SchemaEnv(Some(home), true, Some([]), printerThrows)).schemasAvailable
    ensures ReportValidationError(e, SchemaEnv(Some(home), true, Some([]), printerThrows)).printJob.value.schemas == []
  {
  }

  /** A structured failure is reported with exactly the error it carries. */
  lemma StructuredFailureReportsCarriedError(message: string, ve: ValidationError, nested: Option<Throwable>, env: SchemaEnv)
    ensures ReportValidationError(ValidationException(message, ve, nested), env).error == ve
  {
  }
}

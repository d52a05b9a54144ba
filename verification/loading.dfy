/**
 * `load`: the suppress-load short cut, the dispatch-table build, and the
 * choice of cause for the failure raised when parsing fails.
 *
 * Opening the file and running the document mapper over it is an external
 * collaborator, passed in as `parse`: given the dispatch table it either
 * produces the parsed updates or throws.
 */
module Loading {
  import opened Wrappers
  import opened StreamFailures
  import opened Registry
  import opened Dispatch
  import opened Reporting

  /** What the file-reading and parsing step did. */
  datatype ParseOutcome =
    | Parsed(updates: seq<ModelNode>)
    | Threw(exception: Throwable)

  /**
   * What `load` gives its caller: the updates, or a
   * `ConfigurationPersistenceException` with its cause (`None` for null) and,
   * when the failure was a stream failure, what reporting it did.
   */
  datatype LoadResult =
    | Loaded(updates: seq<ModelNode>)
    | FailedToParse(cause: Option<Throwable>, report: Option<Report>)

  /**
   * The handling of the parse outcome. Parsed updates are returned as they
   * are. A stream failure, structured or not, is reported; the raised
   * failure then has no cause when the report was printed, and the stream
   * failure's nested exception otherwise. Any other exception becomes the
   * cause itself, without a report.
   */
  function Settle(outcome: ParseOutcome, env: SchemaEnv): (r: LoadResult)
    ensures outcome.Parsed? <==> r.Loaded?
    ensures outcome.Parsed? ==> r.updates == outcome.updates
    ensures outcome.Threw? && outcome.exception.Stream? ==>
              var report := ReportValidationError(outcome.exception.failure, env);
              && r.report == Some(report)
              && (report.schemasAvailable ==> r.cause.None?)
              && (!report.schemasAvailable ==> r.cause == outcome.exception.failure.NestedException())
    ensures outcome.Threw? && outcome.exception.Other? ==>
              r == FailedToParse(Some(outcome.exception), None)
  {
    match outcome
    case Parsed(updates) => Loaded(updates)
    case Threw(Stream(e)) =>
      var report := ReportValidationError(e, env);
      FailedToParse(if report.schemasAvailable then None else e.NestedException(), Some(report))
    case Threw(other) => FailedToParse(Some(other), None)
  }

  /**
   * `load`. With loading suppressed it returns no updates and neither builds
   * a dispatch table nor calls `parse` (so it reads no file). Otherwise it
   * builds the dispatch table from the primary root and the registered
   * additional roots, parses with it, and settles the outcome.
   */
  method Load(p: Persister, parse: seq<Registration> -> ParseOutcome, env: SchemaEnv)
    returns (r: LoadResult, table: Option<seq<Registration>>)
    ensures p.suppressLoad ==> r == Loaded([]) && table.None?
    ensures !p.suppressLoad ==> table.Some? && IsDispatchTable(table.value, p)
    ensures !p.suppressLoad ==> TableKeys(table.value) == {p.rootElement} + p.additionalParsers.Keys
    ensures !p.suppressLoad ==> r == Settle(parse(table.value), env)
  {
    if p.suppressLoad {
      return Loaded([]), None;
    }
    var t := BuildDispatch(p);
    table := Some(t);
    r := Settle(parse(t), env);
  }

  /**
   * A validation exception takes the same path as any stream failure: its
   * carried error is what is reported, and the raised failure's cause is
   * null exactly when schemas were available, its nested exception otherwise.
   */
  lemma ValidationExceptionSettles(message: string, ve: ValidationError, nested: Option<Throwable>, env: SchemaEnv)
    ensures var r := Settle(Threw(Stream(ValidationException(message, ve, nested))), env);
      && r.FailedToParse?
      && r.report.Some? && r.report.value.error == ve
      && r.cause == (if r.report.value.schemasAvailable then None else nested)
  {
  }

  /** When schemas were unavailable the original nested cause is never lost. */
  lemma UnreportedFailureKeepsCause(e: StreamFailure, env: SchemaEnv)
    requires env.home.None? || !env.schemaDirExists || env.listing.None?
             || env.printerThrows(PrintJob(Translate(e), SchemaFiles(env.listing.value)))
    ensures Settle(Threw(Stream(e)), env) == FailedToParse(e.NestedException(), Some(ReportValidationError(e, env)))
  {
  }
}

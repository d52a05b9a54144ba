# XmlConfigurationPersister: load decisions

A Dafny model of the decision layer of WildFly Core's XML configuration
persister. It covers the registry of additional root elements and the
dispatch table `load` builds from it. It covers the `suppressLoad`
short cut and the translation of a stream-parse failure into a validation
error, including the `Message: (.*)` fallback-message extraction. It covers
the decision whether schema documents are available for a rich error report,
with the `.xsd` filter over the schema directory's listing. Finally, it
covers the choice of cause for the failure `load` raises. The
`XMLStreamValidationException` carrier is the `Structured` variant of the
stream-failure datatype.

Everything is a pure function over immutable datatypes, except two methods.
`BuildDispatch` walks the registry in an unspecified order, as a hash map's
iteration does. `Load` calls it. The environment is passed in explicitly:
- the `jboss.home.dir` property;
- whether `docs/schema` exists;
- the directory listing (`None` for a null `listFiles()`);
- whether the error printer throws.

Opening and parsing the file is an explicit `parse` argument of `Load`.

Files:
- `wrappers.dfy`: `Option`, where `None` is Java's null.
- `stream_failures.dfy`: locations, error kinds, `ValidationError`, the stream-failure datatype, and the validation exception's constructor and getter.
- `message_pattern.dfy`: the regex `Message: (.*)` with `find()` / `group(1)`, plus a declarative reference meaning of the match.
- `registry.dfy`: qualified names, the persister record, its constructors and `registerAdditionalRootElement`.
- `dispatch.dfy`: the dispatch table built in `load`.
- `reporting.dfy`: `reportValidationError`, covering translation, the `.xsd` filter and schema availability.
- `loading.dfy`: `load` and the choice of cause.

Behaviours of the code worth knowing, all stated in the model:
- An empty but non-null listing of the schema directory counts as schemas
  being available: `reportValidationError` returns true.
- A structured failure's carried error is returned verbatim, whatever its
  kind, so it can be of kind "unknown".
- A printer that throws makes schemas unavailable, even with one or more
  schema files. The printer runs only when the home property is set, the
  directory exists and the listing is non-null.

## Model

| member | source | states |
|---|---|---|
| StreamFailures.ValidationException | controller/src/main/java/org/jboss/as/controller/parsing/XMLStreamValidationException.java:7-13 | a constructed validation exception is a stream failure recognised as structured by the type test |
| StreamFailures.ValidationExceptionCarrier | controller/src/main/java/org/jboss/as/controller/parsing/XMLStreamValidationException.java:8-17 | the getter returns exactly the error given to the constructor; the location is the error's location; message and nested cause are preserved |
| MessagePattern.ExtractMessage | controller/src/main/java/org/jboss/as/controller/persistence/XmlConfigurationPersister.java:158-161 | a fallback text is found exactly when the message contains "Message: "; it is what the pattern's leftmost match captures (reference predicate `FindsGroup`) |
| MessagePattern.ExtractMessageComplete | controller/src/main/java/org/jboss/as/controller/persistence/XmlConfigurationPersister.java:158-161 | conversely, any text the leftmost match captures is the extracted text, so the result is uniquely determined |
| MessagePattern.ExtractedTextIsOneLine | controller/src/main/java/org/jboss/as/controller/persistence/XmlConfigurationPersister.java:158-161 | the extracted text has no line terminator and "Message: " followed by it is a substring of the message |
| MessagePattern.ExtractMessageExample | controller/src/main/java/org/jboss/as/controller/persistence/XmlConfigurationPersister.java:158-161 | with two "Message: " lines, the text of the first line up to its line break is taken |
| Registry.NewPersister | controller/src/main/java/org/jboss/as/controller/persistence/XmlConfigurationPersister.java:94-102 | a new persister keeps its file, root element, root parser and suppress flag and has no additional root element |
| Registry.NewLoadingPersister | controller/src/main/java/org/jboss/as/controller/persistence/XmlConfigurationPersister.java:82-84 | the short constructor keeps the file name, root element and root parser, never suppresses loading and starts with no additional root element |
| Registry.RegisterAdditionalRootElement | controller/src/main/java/org/jboss/as/controller/persistence/XmlConfigurationPersister.java:104-108 | afterwards the name maps to the parser, the key set gains exactly that name, other bindings and all other fields are unchanged |
| Registry.RegisterLastWins | controller/src/main/java/org/jboss/as/controller/persistence/XmlConfigurationPersister.java:104-108 | registering a name twice equals registering only the second parser |
| Registry.RegisterCommutes | controller/src/main/java/org/jboss/as/controller/persistence/XmlConfigurationPersister.java:104-108 | registrations of different names can be applied in either order |
| Registry.RegisterAllDistinct | controller/src/main/java/org/jboss/as/controller/persistence/XmlConfigurationPersister.java:104-108 | N registrations of distinct new names add exactly N bindings, each to its own parser, keeping the earlier bindings |
| Registry.FreshRegistrationCount | controller/src/main/java/org/jboss/as/controller/persistence/XmlConfigurationPersister.java:100-108 | from a new persister, N distinct registrations leave exactly N bindings |
| Dispatch.BuildDispatch | controller/src/main/java/org/jboss/as/controller/persistence/XmlConfigurationPersister.java:123-129 | the table starts with the primary root and its parser, then holds every additional binding exactly once with its own parser; its keys are the primary root plus the registry's keys |
| Dispatch.RegisteredParserIsDispatched | controller/src/main/java/org/jboss/as/controller/persistence/XmlConfigurationPersister.java:104-129 | after a registration, every table built carries that name with that parser among the additional entries, and no other parser under that name |
| Dispatch.OverwrittenParserIsNotDispatched | controller/src/main/java/org/jboss/as/controller/persistence/XmlConfigurationPersister.java:104-129 | after re-registering a name, tables carry only the second parser for it |
| Dispatch.FreshPersisterDispatchesRootOnly | controller/src/main/java/org/jboss/as/controller/persistence/XmlConfigurationPersister.java:123-129 | with no additional root element the table holds only the primary root |
| Reporting.Translate | controller/src/main/java/org/jboss/as/controller/persistence/XmlConfigurationPersister.java:152-162 | a structured failure yields its carried error unchanged; any other yields kind UnknownError at the failure's location, with a fallback message exactly when "Message: " occurs, being the leftmost match's capture |
| Reporting.SchemaFiles | controller/src/main/java/org/jboss/as/controller/persistence/XmlConfigurationPersister.java:176-185 | the schema list holds exactly the listed names ending in ".xsd" and is no longer than the listing |
| Reporting.SchemaFilesAppend | controller/src/main/java/org/jboss/as/controller/persistence/XmlConfigurationPersister.java:176-185 | the filter distributes over concatenation, so listing order is preserved |
| Reporting.SchemaFilesCounts | controller/src/main/java/org/jboss/as/controller/persistence/XmlConfigurationPersister.java:176-185 | each ".xsd" name occurs as often as in the listing and nothing else occurs: nothing is added or duplicated |
| Reporting.SchemaFilesIdempotent | controller/src/main/java/org/jboss/as/controller/persistence/XmlConfigurationPersister.java:176-185 | filtering the schema list again changes nothing |
| Reporting.ReportValidationError | controller/src/main/java/org/jboss/as/controller/persistence/XmlConfigurationPersister.java:152-201 | the printer runs exactly when the home property is set, the directory exists and the listing is non-null, with the translated error and the filtered list; schemas are available exactly when it runs without throwing |
| Reporting.NoSchemaDirectoryNoReport | controller/src/main/java/org/jboss/as/controller/persistence/XmlConfigurationPersister.java:163-170 | no home property, no directory or a null listing means no printing and false |
| Reporting.EmptyListingIsAvailable | controller/src/main/java/org/jboss/as/controller/persistence/XmlConfigurationPersister.java:169-171 | an empty non-null listing still gives true, with an empty schema list, when printing that job does not throw |
| Reporting.StructuredFailureReportsCarriedError | controller/src/main/java/org/jboss/as/controller/persistence/XmlConfigurationPersister.java:154-155 | a validation exception is reported with exactly the error it carries, no fallback message added |
| Loading.Settle | controller/src/main/java/org/jboss/as/controller/persistence/XmlConfigurationPersister.java:143-149 | parsed updates are returned unchanged; a stream failure is reported and raised with no cause if reported, its nested exception otherwise; any other exception is raised with itself as cause |
| Loading.Load | controller/src/main/java/org/jboss/as/controller/persistence/XmlConfigurationPersister.java:118-149 | with suppressLoad the result is empty and no table is built nor file parsed; otherwise a table as in BuildDispatch is built, parsed with, and its outcome settled |
| Loading.ValidationExceptionSettles | controller/src/main/java/org/jboss/as/controller/persistence/XmlConfigurationPersister.java:143-145 | a validation exception takes the stream-failure path: its carried error is reported and the cause is null or its nested exception |
| Loading.UnreportedFailureKeepsCause | controller/src/main/java/org/jboss/as/controller/persistence/XmlConfigurationPersister.java:143-145 | when schemas are unavailable the raised failure keeps the stream failure's nested exception as cause |

## Left out

- File and stream I/O (`FileInputStream`, `BufferedInputStream`, the XML input factory): `Load`'s `parse` argument stands for opening the file, parsing it and the explicit closes of the reader and streams. A close that throws is therefore a `Threw` outcome, and the parsed updates are lost. Only `safeClose` in the `finally` block never affects the result.
- The document mapper (`XMLMapper.parseDocument`): root-element matching and fragment production are library code that is not part of this model. In particular the model does not say which parser wins when an additional name equals the primary root.
- The vdx error printer, stringifiers and report format: the printer is modelled only as the call it receives (`PrintJob`: the error and the schema list) and whether that call throws. Its failure is taken to depend on the job alone, not on the configuration file's contents or on other state.
- `ValidationError.from` is library code that is not part of this model. It is taken to give an error of the requested kind at the failure's location, with the failure's message and no fallback message.
- `getMessage()` of a JDK stream exception prefixes the location to the detail message. The model's `message` of an unstructured failure is the text `getMessage()` returns. For the structured variant it is the constructor's message, which reporting never reads.
- Schema files are named by their file names. Converting them to URLs, and the file URL of the configuration, is not modelled. A failure of these conversions is part of "the printer throws".
- A null exception message: `matcher(null)` would throw. Dafny strings cannot be null, so the model only covers non-null messages.
- A null location on the validation error handed to the exception's constructor is not modelled.
- Throwables that are not exceptions (Java `Error`s) are not caught by `load`; `Other` stands for an exception.
- Logging (`ControllerLogger`) and `System.getProperty`: the property is an explicit input and log output is not modelled.
- `synchronized` locking: the registry is modelled sequentially. Concurrent registration is covered only by `RegisterCommutes` and `RegisterAllDistinct`: distinct registrations in any order give the same bindings.
- `store`, `snapshot` and `successfulBoot`: persistence write-back and trivial overrides.

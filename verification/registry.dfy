/**
 * The persister's configuration and its registry of additional root
 * elements: a map from qualified root-element names to parsers, where a
 * registration for a name already present replaces the earlier parser.
 */
module Registry {

  /** `javax.xml.namespace.QName`: equality is by namespace and local part. */
  datatype QName = QName(namespaceUri: string, localPart: string)

  /** An externally supplied element parser, known only by its identity. */
  datatype Parser = Parser(id: nat)

  /** One parsed configuration update, opaque to the loader. */
  datatype ModelNode = ModelNode(id: nat)

  /** A (root element, parser) pair as handed to the document mapper. */
  datatype Registration = Registration(key: QName, parser: Parser)

  /** The state of one `XmlConfigurationPersister`. */
  datatype Persister = Persister(
    fileName: string,
    rootElement: QName,
    rootParser: Parser,
    additionalParsers: map<QName, Parser>,
    suppressLoad: bool)

  /** The five-argument constructor: no additional root element is registered yet. */
  function NewPersister(fileName: string, rootElement: QName, rootParser: Parser, suppressLoad: bool): (p: Persister)
    ensures p.additionalParsers == map[]
    ensures p.rootElement == rootElement && p.rootParser == rootParser
    ensures p.fileName == fileName && p.suppressLoad == suppressLoad
  {
    Persister(fileName, rootElement, rootParser, map[], suppressLoad)
  }

  /** The four-argument constructor, which never suppresses loading. */
  function NewLoadingPersister(fileName: string, rootElement: QName, rootParser: Parser): (p: Persister)
    ensures !p.suppressLoad
    ensures p.additionalParsers == map[]
    ensures p.fileName == fileName && p.rootElement == rootElement && p.rootParser == rootParser
  {
    NewPersister(fileName, rootElement, rootParser, false)
  }

  /**
   * `registerAdditionalRootElement`: afterwards `anotherRoot` is bound to
   * `parser`, every other binding is as before, and nothing else of the
   * persister changes.
   */
  function RegisterAdditionalRootElement(p: Persister, anotherRoot: QName, parser: Parser): (r: Persister)
    ensures anotherRoot in r.additionalParsers && r.additionalParsers[anotherRoot] == parser
    ensures r.additionalParsers.Keys == p.additionalParsers.Keys + {anotherRoot}
    ensures forall k :: k in p.additionalParsers && k != anotherRoot ==>
              r.additionalParsers[k] == p.additionalParsers[k]
    ensures r == p.(additionalParsers := r.additionalParsers)
  {
    p.(additionalParsers := p.additionalParsers[anotherRoot := parser])
  }

  /** Applies the registrations in order, as a sequence of calls would. */
  function RegisterAll(p: Persister, regs: seq<Registration>): Persister
    decreases |regs|
  {
    if regs == [] then p
    else RegisterAll(RegisterAdditionalRootElement(p, regs[0].key, regs[0].parser), regs[1..])
  }

  predicate DistinctKeys(regs: seq<Registration>)
  {
    forall i, j :: 0 <= i < j < |regs| ==> regs[i].key != regs[j].key
  }

  /** Registering a name again replaces the earlier parser: last write wins. */
  lemma RegisterLastWins(p: Persister, q: QName, first: Parser, second: Parser)
    ensures RegisterAdditionalRootElement(RegisterAdditionalRootElement(p, q, first), q, second)
            == RegisterAdditionalRootElement(p, q, second)
  {
  }

  /** Registrations of different names do not interfere: their order is irrelevant. */
  lemma RegisterCommutes(p: Persister, q1: QName, a: Parser, q2: QName, b: Parser)
    requires q1 != q2
    ensures RegisterAdditionalRootElement(RegisterAdditionalRootElement(p, q1, a), q2, b)
            == RegisterAdditionalRootElement(RegisterAdditionalRootElement(p, q2, b), q1, a)
  {
  }

  /**
   * Registering N distinct new names adds exactly N bindings, each to the
   * parser it was registered with, and leaves the other bindings alone.
   */
  lemma {:induction false} RegisterAllDistinct(p: Persister, regs: seq<Registration>)
    requires DistinctKeys(regs)
    requires forall i :: 0 <= i < |regs| ==> regs[i].key !in p.additionalParsers
    ensures |RegisterAll(p, regs).additionalParsers| == |p.additionalParsers| + |regs|
    ensures forall i :: 0 <= i < |regs| ==>
              regs[i].key in RegisterAll(p, regs).additionalParsers
              && RegisterAll(p, regs).additionalParsers[regs[i].key] == regs[i].parser
    ensures forall k :: k in p.additionalParsers ==>
              k in RegisterAll(p, regs).additionalParsers
              && RegisterAll(p, regs).additionalParsers[k] == p.additionalParsers[k]
    decreases |regs|
  {
    if regs != [] {
      var p' := RegisterAdditionalRootElement(p, regs[0].key, regs[0].parser);
      assert p'.additionalParsers.Keys == p.additionalParsers.Keys + {regs[0].key};
      assert |p'.additionalParsers| == |p.additionalParsers| + 1;
      var rest := regs[1..];
      assert forall i :: 0 <= i < |rest| ==> rest[i] == regs[i + 1];
      RegisterAllDistinct(p', rest);
      var r := RegisterAll(p, regs);
      assert r == RegisterAll(p', rest);
      forall i | 0 <= i < |regs|
        ensures regs[i].key in r.additionalParsers && r.additionalParsers[regs[i].key] == regs[i].parser
      {
        if i > 0 {
          assert regs[i] == rest[i - 1];
        }
      }
    }
  }

  /** From a fresh persister, N registrations of distinct names leave exactly N bindings. */
  lemma FreshRegistrationCount(p: Persister, regs: seq<Registration>)
    requires p.additionalParsers == map[]
    requires DistinctKeys(regs)
    ensures |RegisterAll(p, regs).additionalParsers| == |regs|
  {
    RegisterAllDistinct(p, regs);
  }
}

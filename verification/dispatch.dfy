/**
 * The dispatch table `load` hands to the document mapper: the primary root
 * element first, then one entry per additional root element, in the
 * (unspecified) iteration order of the registry's hash map.
 */
module Dispatch {
  import opened Registry

  /** The set of root elements a table registers. */
  function TableKeys(table: seq<Registration>): set<QName>
  {
    set r | r in table :: r.key
  }

  /**
   * `table` is a registration sequence `load` may build for `p`: the primary
   * root first, followed by every additional binding exactly once, in some
   * order.
   */
  ghost predicate IsDispatchTable(table: seq<Registration>, p: Persister)
  {
    && |table| == 1 + |p.additionalParsers|
    && table[0] == Registration(p.rootElement, p.rootParser)
    && (forall i :: 1 <= i < |table| ==>
          table[i].key in p.additionalParsers && p.additionalParsers[table[i].key] == table[i].parser)
    && (forall i, j :: 1 <= i < j < |table| ==> table[i].key != table[j].key)
    && (forall k :: k in p.additionalParsers ==> Registration(k, p.additionalParsers[k]) in table[1..])
  }

  /**
   * The registration steps of `load`: register the primary root, then walk
   * the additional bindings. Each binding is registered once, with its own
   * parser, and the table's keys are exactly the primary root and the
   * registry's keys.
   */
  method BuildDispatch(p: Persister) returns (table: seq<Registration>)
    ensures IsDispatchTable(table, p)
    ensures TableKeys(table) == {p.rootElement} + p.additionalParsers.Keys
  {
    var additional := p.additionalParsers;
    var entries: seq<Registration> := [];
    var done: set<QName> := {};
    var remaining := additional.Keys;
    while remaining != {}
      invariant done == additional.Keys - remaining && remaining <= additional.Keys
      invariant |entries| == |done|
      invariant Faithful(entries, additional, done)
      invariant Covers(entries, additional, done)
      decreases remaining
    {
      var k :| k in remaining;
      var entry := Registration(k, additional[k]);
      ExtendFaithful(entries, additional, done, entry);
      entries := entries + [entry];
      done := done + {k};
      remaining := remaining - {k};
    }
    table := [Registration(p.rootElement, p.rootParser)] + entries;
    DispatchTableOf(p, entries);
  }

  /** Every entry is a binding of `additional` whose name is in `done`, each name once. */
  predicate Faithful(entries: seq<Registration>, additional: map<QName, Parser>, done: set<QName>)
  {
    && (forall i :: 0 <= i < |entries| ==>
          entries[i].key in done && entries[i].key in additional && additional[entries[i].key] == entries[i].parser)
    && (forall i, j :: 0 <= i < j < |entries| ==> entries[i].key != entries[j].key)
  }

  /** Every name in `done` is registered with its binding. */
  ghost predicate Covers(entries: seq<Registration>, additional: map<QName, Parser>, done: set<QName>)
  {
    forall k :: k in done ==> k in additional && Registration(k, additional[k]) in entries
  }

  lemma ExtendFaithful(entries: seq<Registration>, additional: map<QName, Parser>, done: set<QName>, entry: Registration)
    requires Faithful(entries, additional, done) && Covers(entries, additional, done)
    requires |entries| == |done|
    requires entry.key in additional && additional[entry.key] == entry.parser && entry.key !in done
    ensures Faithful(entries + [entry], additional, done + {entry.key})
    ensures Covers(entries + [entry], additional, done + {entry.key})
    ensures |entries + [entry]| == |done + {entry.key}|
  {
  }

  /** Once every binding is covered, the primary root followed by the entries is a dispatch table. */
  lemma DispatchTableOf(p: Persister, entries: seq<Registration>)
    requires Faithful(entries, p.additionalParsers, p.additionalParsers.Keys)
    requires Covers(entries, p.additionalParsers, p.additionalParsers.Keys)
    requires |entries| == |p.additionalParsers.Keys|
    ensures IsDispatchTable([Registration(p.rootElement, p.rootParser)] + entries, p)
    ensures TableKeys([Registration(p.rootElement, p.rootParser)] + entries) == {p.rootElement} + p.additionalParsers.Keys
  {
    var table := [Registration(p.rootElement, p.rootParser)] + entries;
    assert table[1..] == entries;
    assert forall i :: 1 <= i < |table| ==> table[i] == entries[i - 1];
    TableKeysOf(p, entries);
  }

  lemma TableKeysOf(p: Persister, entries: seq<Registration>)
    requires forall r :: r in entries ==> r.key in p.additionalParsers
    requires forall k :: k in p.additionalParsers ==> Registration(k, p.additionalParsers[k]) in entries
    ensures TableKeys([Registration(p.rootElement, p.rootParser)] + entries) == {p.rootElement} + p.additionalParsers.Keys
  {
    var table := [Registration(p.rootElement, p.rootParser)] + entries;
    forall k | k in {p.rootElement} + p.additionalParsers.Keys
      ensures k in TableKeys(table)
    {
      if k != p.rootElement {
        assert Registration(k, p.additionalParsers[k]) in table;
      }
    }
  }

  /** A registration for a name reaches every dispatch table built afterwards, with that parser. */
  lemma RegisteredParserIsDispatched(p: Persister, q: QName, parser: Parser, table: seq<Registration>)
    requires IsDispatchTable(table, RegisterAdditionalRootElement(p, q, parser))
    ensures Registration(q, parser) in table[1..]
    ensures forall i :: 1 <= i < |table| && table[i].key == q ==> table[i].parser == parser
  {
  }

  /**
   * After a second registration for the same name, no dispatch table carries
   * the first parser under that name (unless both parsers are the same).
   */
  lemma OverwrittenParserIsNotDispatched(p: Persister, q: QName, first: Parser, second: Parser, table: seq<Registration>)
    requires first != second
    requires IsDispatchTable(table, RegisterAdditionalRootElement(RegisterAdditionalRootElement(p, q, first), q, second))
    ensures Registration(q, first) !in table[1..]
    ensures Registration(q, second) in table[1..]
  {
    RegisterLastWins(p, q, first, second);
    RegisteredParserIsDispatched(p, q, second, table);
  }

  /** A persister with no additional root element dispatches to its primary root alone. */
  lemma FreshPersisterDispatchesRootOnly(p: Persister, table: seq<Registration>)
    requires p.additionalParsers == map[]
    requires IsDispatchTable(table, p)
    ensures table == [Registration(p.rootElement, p.rootParser)]
  {
  }
}

/**
 * The part of a transaction event the handlers read: its decoded logs and
 * the log filter of the monitoring SDK, plus the cauldron registry
 * (a Map<string, string> from cauldron address to display name, walked in
 * insertion order).
 */
module Transaction {

  /** One decoded log: the emitting contract, the event name and the
      arguments `from`, `to` and `share` (an unbounded unsigned integer). */
  datatype LogEvent = LogEvent(address: string, name: string, from: string, to: string, share: nat)

  /** One registry entry: cauldron address and display name. */
  datatype Cauldron = Cauldron(address: string, name: string)

  /** The entries of the registry in iteration (insertion) order. */
  type Registry = seq<Cauldron>

  /** A JavaScript Map never holds one key twice. */
  predicate DistinctAddresses(registry: Registry) {
    forall i, j :: 0 <= i < j < |registry| ==> registry[i].address != registry[j].address
  }

  /** The set of registered cauldron addresses. */
  function Addresses(registry: Registry): (r: set<string>)
    ensures forall a :: a in r <==> exists i :: 0 <= i < |registry| && registry[i].address == a
    decreases |registry|
  {
    if registry == [] then {}
    else
      var last := registry[|registry| - 1];
      assert forall i :: 0 <= i < |registry| - 1 ==> registry[..|registry| - 1][i] == registry[i];
      Addresses(registry[..|registry| - 1]) + {last.address}
  }

  /** Does the log come from one of `addresses` and carry one of `names`? */
  predicate Matches(log: LogEvent, names: set<string>, addresses: set<string>) {
    log.name in names && log.address in addresses
  }

  /**
   * txEvent.filterLog(names, address): the logs emitted by the given
   * contracts whose event is one of the given names, in log order.
   */
  function FilterLog(logs: seq<LogEvent>, names: set<string>, addresses: set<string>): (r: seq<LogEvent>)
    ensures |r| <= |logs|
    decreases |logs|
  {
    if logs == [] then []
    else
      var last := logs[|logs| - 1];
      FilterLog(logs[..|logs| - 1], names, addresses) + (if Matches(last, names, addresses) then [last] else [])
  }

  /** filterLog keeps exactly the logs of the given events at the given contracts. */
  lemma {:induction false} FilterLogMembers(logs: seq<LogEvent>, names: set<string>, addresses: set<string>)
    ensures forall l :: l in FilterLog(logs, names, addresses) <==> l in logs && Matches(l, names, addresses)
    decreases |logs|
  {
    if logs != [] {
      var init := logs[..|logs| - 1];
      FilterLogMembers(init, names, addresses);
      assert logs == init + [logs[|logs| - 1]];
    }
  }

  /** Looking up two disjoint sets of addresses finds the two lots of logs. */
  lemma {:induction false} FilterLogDisjointAddresses(logs: seq<LogEvent>, names: set<string>, a: set<string>, b: set<string>)
    requires a !! b
    ensures |FilterLog(logs, names, a + b)| == |FilterLog(logs, names, a)| + |FilterLog(logs, names, b)|
    decreases |logs|
  {
    if logs != [] {
      FilterLogDisjointAddresses(logs[..|logs| - 1], names, a, b);
    }
  }

  /** Filtering for two disjoint sets of names finds the two lots of logs. */
  lemma {:induction false} FilterLogDisjointNames(logs: seq<LogEvent>, m: set<string>, n: set<string>, addresses: set<string>)
    requires m !! n
    ensures |FilterLog(logs, m + n, addresses)| == |FilterLog(logs, m, addresses)| + |FilterLog(logs, n, addresses)|
    decreases |logs|
  {
    if logs != [] {
      FilterLogDisjointNames(logs[..|logs| - 1], m, n, addresses);
    }
  }

  /** A filter that no log matches returns nothing. */
  lemma NothingMatches(logs: seq<LogEvent>, names: set<string>, addresses: set<string>)
    requires forall l :: l in logs ==> !Matches(l, names, addresses)
    ensures FilterLog(logs, names, addresses) == []
  {
    FilterLogMembers(logs, names, addresses);
  }

  /** One more log is kept at the end exactly when it matches. */
  lemma FilterLogAppend(init: seq<LogEvent>, l: LogEvent, names: set<string>, addresses: set<string>)
    ensures FilterLog(init + [l], names, addresses)
         == FilterLog(init, names, addresses) + (if Matches(l, names, addresses) then [l] else [])
  {
    assert (init + [l])[..|init|] == init;
  }

  /** filterLog over a two-log transaction keeps each log that matches, in order. */
  lemma FilterLogPair(a: LogEvent, b: LogEvent, names: set<string>, addresses: set<string>)
    ensures FilterLog([a, b], names, addresses)
         == (if Matches(a, names, addresses) then [a] else []) + (if Matches(b, names, addresses) then [b] else [])
  {
    assert [a, b][..1] == [a];
    assert [a][..0] == [];
  }

  /**
   * In a two-log transaction where only one log comes from the contract,
   * filtering at that contract finds that log exactly when its name is asked for.
   */
  lemma OneLogAt(address: string, only: LogEvent, other: LogEvent, logs: seq<LogEvent>, names: set<string>)
    requires only.address == address && other.address != address
    requires logs == [only, other] || logs == [other, only]
    ensures FilterLog(logs, names, {address}) == if only.name in names then [only] else []
  {
    FilterLogPair(logs[0], logs[1], names, {address});
  }
}

/** The remove-only handler: one LogRemoveCollateral filter call per cauldron. */
module RemoveCollateralEvent {
  import opened Seqs
  import opened Transaction
  import opened Findings

  /** The findings pushed for the LogRemoveCollateral logs filtered at one cauldron, in log order. */
  function EntryFindings(cauldronName: string, collateralRemove: seq<LogEvent>): (r: seq<Finding>)
    ensures |r| == |collateralRemove|
    ensures forall k :: 0 <= k < |collateralRemove| ==> r[k] == RemoveCollateralFinding(cauldronName, collateralRemove[k])
    decreases |collateralRemove|
  {
    if collateralRemove == [] then []
    else
      var n := |collateralRemove| - 1;
      EntryFindings(cauldronName, collateralRemove[..n]) + [RemoveCollateralFinding(cauldronName, collateralRemove[n])]
  }

  /** The findings for one registry entry: its LogRemoveCollateral logs, in log order. */
  function CauldronFindings(entry: Cauldron, logs: seq<LogEvent>): seq<Finding>
  {
    EntryFindings(entry.name, FilterLog(logs, {RemoveEventName}, {entry.address}))
  }

  /** The findings for the registry entries in iteration order. */
  function Scan(cauldronMap: Registry, logs: seq<LogEvent>): seq<Finding>
  {
    FlatMap(cauldronMap, entry => CauldronFindings(entry, logs))
  }

  /** handleTransaction of the remove-only provider, over the captured registry. */
  method HandleTransaction(cauldronMap: Registry, txLogs: seq<LogEvent>) returns (findings: seq<Finding>)
    ensures findings == Scan(cauldronMap, txLogs)
  {
    findings := [];
    for i := 0 to |cauldronMap|
      invariant findings == Scan(cauldronMap[..i], txLogs)
    {
      var cauldronAddress := cauldronMap[i].address;
      var cauldronName := cauldronMap[i].name;
      ScanStep(cauldronMap, i, txLogs);
      var collateralRemove := FilterLog(txLogs, {RemoveEventName}, {cauldronAddress});
      if |collateralRemove| == 0 {
        continue;
      }
      ghost var scanned := findings;
      for j := 0 to |collateralRemove|
        invariant findings == scanned + EntryFindings(cauldronName, collateralRemove[..j])
      {
        EntryFindingsStep(cauldronName, collateralRemove, j);
        AppendAssoc(scanned, EntryFindings(cauldronName, collateralRemove[..j]), [RemoveCollateralFinding(cauldronName, collateralRemove[j])]);
        findings := findings + [RemoveCollateralFinding(cauldronName, collateralRemove[j])];
      }
      assert collateralRemove[..|collateralRemove|] == collateralRemove;
    }
    assert cauldronMap[..|cauldronMap|] == cauldronMap;
  }

  /** One more filtered log appends its finding. */
  lemma EntryFindingsStep(cauldronName: string, collateralRemove: seq<LogEvent>, j: nat)
    requires j < |collateralRemove|
    ensures EntryFindings(cauldronName, collateralRemove[..j + 1])
         == EntryFindings(cauldronName, collateralRemove[..j]) + [RemoveCollateralFinding(cauldronName, collateralRemove[j])]
  {
    assert collateralRemove[..j + 1][..j] == collateralRemove[..j];
  }

  /** A further LogRemoveCollateral log appends its finding. */
  lemma EntryFindingsAppendOne(cauldronName: string, collateralRemove: seq<LogEvent>, log: LogEvent)
    ensures EntryFindings(cauldronName, collateralRemove + [log])
         == EntryFindings(cauldronName, collateralRemove) + [RemoveCollateralFinding(cauldronName, log)]
  {
    assert (collateralRemove + [log])[..|collateralRemove|] == collateralRemove;
  }

  /** One more registry entry appends its findings to the scan. */
  lemma ScanStep(cauldronMap: Registry, i: nat, logs: seq<LogEvent>)
    requires i < |cauldronMap|
    ensures Scan(cauldronMap[..i + 1], logs) == Scan(cauldronMap[..i], logs) + CauldronFindings(cauldronMap[i], logs)
  {
    assert cauldronMap[..i + 1][..i] == cauldronMap[..i];
  }

  /**
   * Every finding is the LogRemoveCollateral finding of a LogRemoveCollateral log emitted by a registered
   * cauldron, named after that cauldron; and every such log has its finding.
   */
  lemma {:induction false} ScanMembers(cauldronMap: Registry, logs: seq<LogEvent>, f: Finding)
    ensures f in Scan(cauldronMap, logs) <==>
      exists c, l :: c in cauldronMap && l in logs && l.address == c.address && l.name == RemoveEventName
        && f == RemoveCollateralFinding(c.name, l)
  {
    FlatMapMembers(cauldronMap, entry => CauldronFindings(entry, logs), f);
    forall c | c in cauldronMap {
      CauldronMembers(c, logs, f);
    }
  }

  /** The findings for one cauldron are those of its own logs of the event. */
  lemma CauldronMembers(c: Cauldron, logs: seq<LogEvent>, f: Finding)
    ensures f in CauldronFindings(c, logs) <==>
      exists l :: l in logs && l.address == c.address && l.name == RemoveEventName && f == RemoveCollateralFinding(c.name, l)
  {
    FilterLogMembers(logs, {RemoveEventName}, {c.address});
    EntryMembers(c.name, FilterLog(logs, {RemoveEventName}, {c.address}), f);
  }

  /** One finding per filtered log and nothing else. */
  lemma EntryMembers(cauldronName: string, collateralRemove: seq<LogEvent>, f: Finding)
    ensures f in EntryFindings(cauldronName, collateralRemove) <==> exists l :: l in collateralRemove && f == RemoveCollateralFinding(cauldronName, l)
  {
    var found := EntryFindings(cauldronName, collateralRemove);
    if f in found {
      var k :| 0 <= k < |found| && found[k] == f;
      assert collateralRemove[k] in collateralRemove;
    }
    if exists l :: l in collateralRemove && f == RemoveCollateralFinding(cauldronName, l) {
      var l :| l in collateralRemove && f == RemoveCollateralFinding(cauldronName, l);
      var k :| 0 <= k < |collateralRemove| && collateralRemove[k] == l;
      assert found[k] == f;
    }
  }

  /**
   * With distinct registry addresses, there is exactly one finding per
   * LogRemoveCollateral log emitted by a registered cauldron.
   */
  lemma {:induction false} ScanCount(cauldronMap: Registry, logs: seq<LogEvent>)
    requires DistinctAddresses(cauldronMap)
    ensures |Scan(cauldronMap, logs)| == |FilterLog(logs, {RemoveEventName}, Addresses(cauldronMap))|
    decreases |cauldronMap|
  {
    if cauldronMap == [] {
      NothingMatches(logs, {RemoveEventName}, {});
    } else {
      var init, c := cauldronMap[..|cauldronMap| - 1], cauldronMap[|cauldronMap| - 1];
      ScanCount(init, logs);
      assert c.address !in Addresses(init);
      FilterLogDisjointAddresses(logs, {RemoveEventName}, Addresses(init), {c.address});
    }
  }
}

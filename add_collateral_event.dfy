/** The add-only handler: one LogAddCollateral filter call per cauldron. */
module AddCollateralEvent {
  import opened Seqs
  import opened Transaction
  import opened Findings

  /** The findings pushed for the LogAddCollateral logs filtered at one cauldron, in log order. */
  function EntryFindings(cauldronName: string, collateralAdd: seq<LogEvent>): (r: seq<Finding>)
    ensures |r| == |collateralAdd|
    ensures forall k :: 0 <= k < |collateralAdd| ==> r[k] == AddCollateralFinding(cauldronName, collateralAdd[k])
    decreases |collateralAdd|
  {
    if collateralAdd == [] then []
    else
      var n := |collateralAdd| - 1;
      EntryFindings(cauldronName, collateralAdd[..n]) + [AddCollateralFinding(cauldronName, collateralAdd[n])]
  }

  /** The findings for one registry entry: its LogAddCollateral logs, in log order. */
  function CauldronFindings(entry: Cauldron, logs: seq<LogEvent>): seq<Finding>
  {
    EntryFindings(entry.name, FilterLog(logs, {AddEventName}, {entry.address}))
  }

  /** The findings for the registry entries in iteration order. */
  function Scan(cauldronMap: Registry, logs: seq<LogEvent>): seq<Finding>
  {
    FlatMap(cauldronMap, entry => CauldronFindings(entry, logs))
  }

  /** handleTransaction of the add-only provider, over the captured registry. */
  method HandleTransaction(cauldronMap: Registry, txLogs: seq<LogEvent>) returns (findings: seq<Finding>)
    ensures findings == Scan(cauldronMap, txLogs)
  {
    findings := [];
    for i := 0 to |cauldronMap|
      invariant findings == Scan(cauldronMap[..i], txLogs)
    {
      var cauldronAddress := cauldronMap[i].address;
      var cauldronName := cauldronMap[i].name;
      ScanStep(cauldronMap, i, txLogs);
      var collateralAdd := FilterLog(txLogs, {AddEventName}, {cauldronAddress});
      if |collateralAdd| == 0 {
        continue;
      }
      ghost var scanned := findings;
      for j := 0 to |collateralAdd|
        invariant findings == scanned + EntryFindings(cauldronName, collateralAdd[..j])
      {
        EntryFindingsStep(cauldronName, collateralAdd, j);
        AppendAssoc(scanned, EntryFindings(cauldronName, collateralAdd[..j]), [AddCollateralFinding(cauldronName, collateralAdd[j])]);
        findings := findings + [AddCollateralFinding(cauldronName, collateralAdd[j])];
      }
      assert collateralAdd[..|collateralAdd|] == collateralAdd;
    }
    assert cauldronMap[..|cauldronMap|] == cauldronMap;
  }

  /** One more filtered log appends its finding. */
  lemma EntryFindingsStep(cauldronName: string, collateralAdd: seq<LogEvent>, j: nat)
    requires j < |collateralAdd|
    ensures EntryFindings(cauldronName, collateralAdd[..j + 1])
         == EntryFindings(cauldronName, collateralAdd[..j]) + [AddCollateralFinding(cauldronName, collateralAdd[j])]
  {
    assert collateralAdd[..j + 1][..j] == collateralAdd[..j];
  }

  /** A further LogAddCollateral log appends its finding. */
  lemma EntryFindingsAppendOne(cauldronName: string, collateralAdd: seq<LogEvent>, log: LogEvent)
    ensures EntryFindings(cauldronName, collateralAdd + [log])
         == EntryFindings(cauldronName, collateralAdd) + [AddCollateralFinding(cauldronName, log)]
  {
    assert (collateralAdd + [log])[..|collateralAdd|] == collateralAdd;
  }

  /** One more registry entry appends its findings to the scan. */
  lemma ScanStep(cauldronMap: Registry, i: nat, logs: seq<LogEvent>)
    requires i < |cauldronMap|
    ensures Scan(cauldronMap[..i + 1], logs) == Scan(cauldronMap[..i], logs) + CauldronFindings(cauldronMap[i], logs)
  {
    assert cauldronMap[..i + 1][..i] == cauldronMap[..i];
  }

  /**
   * Every finding is the LogAddCollateral finding of a LogAddCollateral log emitted by a registered
   * cauldron, named after that cauldron; and every such log has its finding.
   */
  lemma {:induction false} ScanMembers(cauldronMap: Registry, logs: seq<LogEvent>, f: Finding)
    ensures f in Scan(cauldronMap, logs) <==>
      exists c, l :: c in cauldronMap && l in logs && l.address == c.address && l.name == AddEventName
        && f == AddCollateralFinding(c.name, l)
  {
    FlatMapMembers(cauldronMap, entry => CauldronFindings(entry, logs), f);
    forall c | c in cauldronMap {
      CauldronMembers(c, logs, f);
    }
  }

  /** The findings for one cauldron are those of its own logs of the event. */
  lemma CauldronMembers(c: Cauldron, logs: seq<LogEvent>, f: Finding)
    ensures f in CauldronFindings(c, logs) <==>
      exists l :: l in logs && l.address == c.address && l.name == AddEventName && f == AddCollateralFinding(c.name, l)
  {
    FilterLogMembers(logs, {AddEventName}, {c.address});
    EntryMembers(c.name, FilterLog(logs, {AddEventName}, {c.address}), f);
  }

  /** One finding per filtered log and nothing else. */
  lemma EntryMembers(cauldronName: string, collateralAdd: seq<LogEvent>, f: Finding)
    ensures f in EntryFindings(cauldronName, collateralAdd) <==> exists l :: l in collateralAdd && f == AddCollateralFinding(cauldronName, l)
  {
    var found := EntryFindings(cauldronName, collateralAdd);
    if f in found {
      var k :| 0 <= k < |found| && found[k] == f;
      assert collateralAdd[k] in collateralAdd;
    }
    if exists l :: l in collateralAdd && f == AddCollateralFinding(cauldronName, l) {
      var l :| l in collateralAdd && f == AddCollateralFinding(cauldronName, l);
      var k :| 0 <= k < |collateralAdd| && collateralAdd[k] == l;
      assert found[k] == f;
    }
  }

  /**
   * With distinct registry addresses, there is exactly one finding per
   * LogAddCollateral log emitted by a registered cauldron.
   */
  lemma {:induction false} ScanCount(cauldronMap: Registry, logs: seq<LogEvent>)
    requires DistinctAddresses(cauldronMap)
    ensures |Scan(cauldronMap, logs)| == |FilterLog(logs, {AddEventName}, Addresses(cauldronMap))|
    decreases |cauldronMap|
  {
    if cauldronMap == [] {
      NothingMatches(logs, {AddEventName}, {});
    } else {
      var init, c := cauldronMap[..|cauldronMap| - 1], cauldronMap[|cauldronMap| - 1];
      ScanCount(init, logs);
      assert c.address !in Addresses(init);
      FilterLogDisjointAddresses(logs, {AddEventName}, Addresses(init), {c.address});
    }
  }
}

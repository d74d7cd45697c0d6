/**
 * The combined handler: one filter call per cauldron for both collateral
 * events, so that within a cauldron adds and removes come out in log order.
 */
module AddRemoveCollateralEvent {
  import opened Seqs
  import opened Transaction
  import opened Findings

  /** The findings pushed for the logs filtered at one cauldron, in log order. */
  function EntryFindings(cauldronName: string, collateralEvent: seq<LogEvent>): seq<Finding>
  {
    FlatMap(collateralEvent, log => CollateralEventFindings(cauldronName, log))
  }

  /** The findings for one registry entry: its logs of either event, in log order. */
  function CauldronFindings(entry: Cauldron, logs: seq<LogEvent>): seq<Finding>
  {
    EntryFindings(entry.name, FilterLog(logs, CollateralEvents, {entry.address}))
  }

  /** The findings for the registry entries in iteration order. */
  function Scan(cauldronMap: Registry, logs: seq<LogEvent>): seq<Finding>
  {
    FlatMap(cauldronMap, entry => CauldronFindings(entry, logs))
  }

  /** handleTransaction of the combined provider, over the captured registry. */
  method HandleTransaction(cauldronMap: Registry, txLogs: seq<LogEvent>) returns (findings: seq<Finding>)
    ensures findings == Scan(cauldronMap, txLogs)
  {
    findings := [];
    for i := 0 to |cauldronMap|
      invariant findings == Scan(cauldronMap[..i], txLogs)
    {
      var cauldronAddress := cauldronMap[i].address;
      var cauldronName := cauldronMap[i].name;
      ScanStep(cauldronMap, i, txLogs);
      var collateralEvent := FilterLog(txLogs, CollateralEvents, {cauldronAddress});
      if |collateralEvent| == 0 {
        continue;
      }
      ghost var scanned := findings;
      for j := 0 to |collateralEvent|
        invariant findings == scanned + EntryFindings(cauldronName, collateralEvent[..j])
      {
        var log := collateralEvent[j];
        ghost var before := findings;
        if log.name == AddEventName {
          findings := findings + [AddCollateralFinding(cauldronName, log)];
        }
        if log.name == RemoveEventName {
          findings := findings + [RemoveCollateralFinding(cauldronName, log)];
        }
        assert findings == before + CollateralEventFindings(cauldronName, log);
        EntryFindingsStep(cauldronName, collateralEvent, j);
        AppendAssoc(scanned, EntryFindings(cauldronName, collateralEvent[..j]), CollateralEventFindings(cauldronName, log));
      }
      assert collateralEvent[..|collateralEvent|] == collateralEvent;
    }
    assert cauldronMap[..|cauldronMap|] == cauldronMap;
  }

  /** One more filtered log appends the findings of that log. */
  lemma EntryFindingsStep(cauldronName: string, collateralEvent: seq<LogEvent>, j: nat)
    requires j < |collateralEvent|
    ensures EntryFindings(cauldronName, collateralEvent[..j + 1])
         == EntryFindings(cauldronName, collateralEvent[..j]) + CollateralEventFindings(cauldronName, collateralEvent[j])
  {
    assert collateralEvent[..j + 1][..j] == collateralEvent[..j];
  }

  /** One more registry entry appends its findings to the scan. */
  lemma ScanStep(cauldronMap: Registry, i: nat, logs: seq<LogEvent>)
    requires i < |cauldronMap|
    ensures Scan(cauldronMap[..i + 1], logs) == Scan(cauldronMap[..i], logs) + CauldronFindings(cauldronMap[i], logs)
  {
    assert cauldronMap[..i + 1][..i] == cauldronMap[..i];
  }

  /**
   * One finding per filtered log, in log order: the k-th finding is the add
   * or remove finding of the k-th log, adds and removes interleaved as the
   * logs are.
   */
  lemma EntryFindingsPerLog(cauldronName: string, collateralEvent: seq<LogEvent>)
    requires forall l :: l in collateralEvent ==> l.name in CollateralEvents
    ensures |EntryFindings(cauldronName, collateralEvent)| == |collateralEvent|
    ensures forall k :: 0 <= k < |collateralEvent| ==>
      EntryFindings(cauldronName, collateralEvent)[k] == LogFinding(cauldronName, collateralEvent[k])
  {
    FlatMapSingletons(collateralEvent, log => CollateralEventFindings(cauldronName, log), log => LogFinding(cauldronName, log));
  }

  /** The finding a log yields when it is one of the two collateral events. */
  function LogFinding(cauldronName: string, log: LogEvent): (f: Finding)
    ensures log.name == AddEventName ==> f == AddCollateralFinding(cauldronName, log)
    ensures log.name == RemoveEventName ==> f == RemoveCollateralFinding(cauldronName, log)
    ensures log.name in CollateralEvents ==> CollateralEventFindings(cauldronName, log) == [f]
  {
    assert AddEventName[3] != RemoveEventName[3];
    if log.name == AddEventName then AddCollateralFinding(cauldronName, log)
    else RemoveCollateralFinding(cauldronName, log)
  }
}

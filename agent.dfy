/**
 * The composition root: the add-only handler's findings followed by the
 * remove-only handler's findings, both over the same registry. Compared
 * with the combined handler it reports the same findings, partitioned by
 * kind with the order inside each kind kept.
 */
module Agent {
  import opened Seqs
  import opened Transaction
  import opened Findings
  import AddRemoveCollateralEvent
  import AddCollateralEvent
  import RemoveCollateralEvent

  /** What handleTransaction returns for a transaction with the given logs. */
  function Handle(cauldronMap: Registry, logs: seq<LogEvent>): seq<Finding>
  {
    AddCollateralEvent.Scan(cauldronMap, logs) + RemoveCollateralEvent.Scan(cauldronMap, logs)
  }

  /** No ABRA-2 finding comes before an ABRA-1 finding. */
  predicate AddsFirst(fs: seq<Finding>) {
    forall i, j :: 0 <= i < j < |fs| && fs[i].alertId == RemoveAlertId ==> fs[j].alertId != AddAlertId
  }

  /** handleTransaction: build both handlers for the registry, run them, concatenate. */
  method HandleTransaction(cauldronMap: Registry, txLogs: seq<LogEvent>) returns (findings: seq<Finding>)
    ensures findings == Handle(cauldronMap, txLogs)
    ensures AddsFirst(findings)
    ensures findings == WithAlertId(AddRemoveCollateralEvent.Scan(cauldronMap, txLogs), AddAlertId)
                      + WithAlertId(AddRemoveCollateralEvent.Scan(cauldronMap, txLogs), RemoveAlertId)
    ensures multiset(findings) == multiset(AddRemoveCollateralEvent.Scan(cauldronMap, txLogs))
  {
    var addCollateralEventFindings := AddCollateralEvent.HandleTransaction(cauldronMap, txLogs);
    var removeCollateralEventFindings := RemoveCollateralEvent.HandleTransaction(cauldronMap, txLogs);
    findings := addCollateralEventFindings + removeCollateralEventFindings;
    HandleAddsFirst(cauldronMap, txLogs);
    HandleIsPartition(cauldronMap, txLogs);
    HandlePermutesCombined(cauldronMap, txLogs);
  }

  /** Within one cauldron, the add-only handler keeps exactly the combined handler's ABRA-1 findings. */
  lemma {:induction false} EntrySelectsAdds(cauldronName: string, logs: seq<LogEvent>, addresses: set<string>)
    ensures AddCollateralEvent.EntryFindings(cauldronName, FilterLog(logs, {AddEventName}, addresses))
         == WithAlertId(AddRemoveCollateralEvent.EntryFindings(cauldronName, FilterLog(logs, CollateralEvents, addresses)), AddAlertId)
    decreases |logs|
  {
    if logs != [] {
      EntrySelectsAdds(cauldronName, logs[..|logs| - 1], addresses);
      EntrySelectsAddsStep(cauldronName, logs, addresses);
    }
  }

  /** The selection carries over when one more log is appended. */
  lemma EntrySelectsAddsStep(cauldronName: string, logs: seq<LogEvent>, addresses: set<string>)
    requires logs != []
    requires AddCollateralEvent.EntryFindings(cauldronName, FilterLog(logs[..|logs| - 1], {AddEventName}, addresses))
          == WithAlertId(AddRemoveCollateralEvent.EntryFindings(cauldronName, FilterLog(logs[..|logs| - 1], CollateralEvents, addresses)), AddAlertId)
    ensures AddCollateralEvent.EntryFindings(cauldronName, FilterLog(logs, {AddEventName}, addresses))
         == WithAlertId(AddRemoveCollateralEvent.EntryFindings(cauldronName, FilterLog(logs, CollateralEvents, addresses)), AddAlertId)
  {
    var init, l := logs[..|logs| - 1], logs[|logs| - 1];
    assert logs == init + [l];
    var selected := FilterLog(init, {AddEventName}, addresses);
    var both := FilterLog(init, CollateralEvents, addresses);
    var tail := if Matches(l, CollateralEvents, addresses) then [l] else [];
    var pushed := if Matches(l, {AddEventName}, addresses) then [AddCollateralFinding(cauldronName, l)] else [];
    FilterLogAppend(init, l, {AddEventName}, addresses);
    FilterLogAppend(init, l, CollateralEvents, addresses);
    if Matches(l, {AddEventName}, addresses) {
      AddCollateralEvent.EntryFindingsAppendOne(cauldronName, selected, l);
    } else {
      assert selected + [] == selected;
    }
    FlatMapAppend(both, tail, log => CollateralEventFindings(cauldronName, log));
    WithAlertIdAppend(AddRemoveCollateralEvent.EntryFindings(cauldronName, both),
                      AddRemoveCollateralEvent.EntryFindings(cauldronName, tail), AddAlertId);
    LogSelectsAdds(cauldronName, l, addresses);
    calc {
      AddCollateralEvent.EntryFindings(cauldronName, FilterLog(logs, {AddEventName}, addresses));
      AddCollateralEvent.EntryFindings(cauldronName, selected) + pushed;
      WithAlertId(AddRemoveCollateralEvent.EntryFindings(cauldronName, both), AddAlertId)
        + WithAlertId(AddRemoveCollateralEvent.EntryFindings(cauldronName, tail), AddAlertId);
      WithAlertId(AddRemoveCollateralEvent.EntryFindings(cauldronName, both + tail), AddAlertId);
      WithAlertId(AddRemoveCollateralEvent.EntryFindings(cauldronName, FilterLog(logs, CollateralEvents, addresses)), AddAlertId);
    }
  }


  /** The step of EntrySelectsAdds for one log. */
  lemma LogSelectsAdds(cauldronName: string, l: LogEvent, addresses: set<string>)
    ensures WithAlertId(AddRemoveCollateralEvent.EntryFindings(cauldronName, if Matches(l, CollateralEvents, addresses) then [l] else []), AddAlertId)
         == if Matches(l, {AddEventName}, addresses) then [AddCollateralFinding(cauldronName, l)] else []
  {
    if Matches(l, CollateralEvents, addresses) {
      FlatMapSingleton(l, log => CollateralEventFindings(cauldronName, log));
      if l.name == AddEventName {
        var f := AddCollateralFinding(cauldronName, l);
        assert [f][..0] == [];
        assert WithAlertId([f], AddAlertId) == [f];
      } else {
        var f := RemoveCollateralFinding(cauldronName, l);
        assert [f][..0] == [];
        assert WithAlertId([f], AddAlertId) == [];
      }
    }
  }

  /** Within one cauldron, the remove-only handler keeps exactly the combined handler's ABRA-2 findings. */
  lemma {:induction false} EntrySelectsRemoves(cauldronName: string, logs: seq<LogEvent>, addresses: set<string>)
    ensures RemoveCollateralEvent.EntryFindings(cauldronName, FilterLog(logs, {RemoveEventName}, addresses))
         == WithAlertId(AddRemoveCollateralEvent.EntryFindings(cauldronName, FilterLog(logs, CollateralEvents, addresses)), RemoveAlertId)
    decreases |logs|
  {
    if logs != [] {
      EntrySelectsRemoves(cauldronName, logs[..|logs| - 1], addresses);
      EntrySelectsRemovesStep(cauldronName, logs, addresses);
    }
  }

  /** The selection carries over when one more log is appended. */
  lemma EntrySelectsRemovesStep(cauldronName: string, logs: seq<LogEvent>, addresses: set<string>)
    requires logs != []
    requires RemoveCollateralEvent.EntryFindings(cauldronName, FilterLog(logs[..|logs| - 1], {RemoveEventName}, addresses))
          == WithAlertId(AddRemoveCollateralEvent.EntryFindings(cauldronName, FilterLog(logs[..|logs| - 1], CollateralEvents, addresses)), RemoveAlertId)
    ensures RemoveCollateralEvent.EntryFindings(cauldronName, FilterLog(logs, {RemoveEventName}, addresses))
         == WithAlertId(AddRemoveCollateralEvent.EntryFindings(cauldronName, FilterLog(logs, CollateralEvents, addresses)), RemoveAlertId)
  {
    var init, l := logs[..|logs| - 1], logs[|logs| - 1];
    assert logs == init + [l];
    var selected := FilterLog(init, {RemoveEventName}, addresses);
    var both := FilterLog(init, CollateralEvents, addresses);
    var tail := if Matches(l, CollateralEvents, addresses) then [l] else [];
    var pushed := if Matches(l, {RemoveEventName}, addresses) then [RemoveCollateralFinding(cauldronName, l)] else [];
    FilterLogAppend(init, l, {RemoveEventName}, addresses);
    FilterLogAppend(init, l, CollateralEvents, addresses);
    if Matches(l, {RemoveEventName}, addresses) {
      RemoveCollateralEvent.EntryFindingsAppendOne(cauldronName, selected, l);
    } else {
      assert selected + [] == selected;
    }
    FlatMapAppend(both, tail, log => CollateralEventFindings(cauldronName, log));
    WithAlertIdAppend(AddRemoveCollateralEvent.EntryFindings(cauldronName, both),
                      AddRemoveCollateralEvent.EntryFindings(cauldronName, tail), RemoveAlertId);
    LogSelectsRemoves(cauldronName, l, addresses);
    calc {
      RemoveCollateralEvent.EntryFindings(cauldronName, FilterLog(logs, {RemoveEventName}, addresses));
      RemoveCollateralEvent.EntryFindings(cauldronName, selected) + pushed;
      WithAlertId(AddRemoveCollateralEvent.EntryFindings(cauldronName, both), RemoveAlertId)
        + WithAlertId(AddRemoveCollateralEvent.EntryFindings(cauldronName, tail), RemoveAlertId);
      WithAlertId(AddRemoveCollateralEvent.EntryFindings(cauldronName, both + tail), RemoveAlertId);
      WithAlertId(AddRemoveCollateralEvent.EntryFindings(cauldronName, FilterLog(logs, CollateralEvents, addresses)), RemoveAlertId);
    }
  }


  /** The step of EntrySelectsRemoves for one log. */
  lemma LogSelectsRemoves(cauldronName: string, l: LogEvent, addresses: set<string>)
    ensures WithAlertId(AddRemoveCollateralEvent.EntryFindings(cauldronName, if Matches(l, CollateralEvents, addresses) then [l] else []), RemoveAlertId)
         == if Matches(l, {RemoveEventName}, addresses) then [RemoveCollateralFinding(cauldronName, l)] else []
  {
    if Matches(l, CollateralEvents, addresses) {
      FlatMapSingleton(l, log => CollateralEventFindings(cauldronName, log));
      if l.name == RemoveEventName {
        var f := RemoveCollateralFinding(cauldronName, l);
        assert [f][..0] == [];
        assert WithAlertId([f], RemoveAlertId) == [f];
      } else {
        var f := AddCollateralFinding(cauldronName, l);
        assert [f][..0] == [];
        assert WithAlertId([f], RemoveAlertId) == [];
      }
    }
  }

  /** The add-only handler reports exactly the combined handler's ABRA-1 findings, in the same order. */
  lemma {:induction false} ScanSelectsAdds(cauldronMap: Registry, logs: seq<LogEvent>)
    ensures AddCollateralEvent.Scan(cauldronMap, logs) == WithAlertId(AddRemoveCollateralEvent.Scan(cauldronMap, logs), AddAlertId)
    decreases |cauldronMap|
  {
    if cauldronMap != [] {
      var init, c := cauldronMap[..|cauldronMap| - 1], cauldronMap[|cauldronMap| - 1];
      ScanSelectsAdds(init, logs);
      EntrySelectsAdds(c.name, logs, {c.address});
      WithAlertIdAppend(AddRemoveCollateralEvent.Scan(init, logs), AddRemoveCollateralEvent.CauldronFindings(c, logs), AddAlertId);
    }
  }

  /** The remove-only handler reports exactly the combined handler's ABRA-2 findings, in the same order. */
  lemma {:induction false} ScanSelectsRemoves(cauldronMap: Registry, logs: seq<LogEvent>)
    ensures RemoveCollateralEvent.Scan(cauldronMap, logs) == WithAlertId(AddRemoveCollateralEvent.Scan(cauldronMap, logs), RemoveAlertId)
    decreases |cauldronMap|
  {
    if cauldronMap != [] {
      var init, c := cauldronMap[..|cauldronMap| - 1], cauldronMap[|cauldronMap| - 1];
      ScanSelectsRemoves(init, logs);
      EntrySelectsRemoves(c.name, logs, {c.address});
      WithAlertIdAppend(AddRemoveCollateralEvent.Scan(init, logs), AddRemoveCollateralEvent.CauldronFindings(c, logs), RemoveAlertId);
    }
  }

  /** The composition is the combined output split by kind: its ABRA-1 findings, then its ABRA-2 findings. */
  lemma HandleIsPartition(cauldronMap: Registry, logs: seq<LogEvent>)
    ensures Handle(cauldronMap, logs)
         == WithAlertId(AddRemoveCollateralEvent.Scan(cauldronMap, logs), AddAlertId)
          + WithAlertId(AddRemoveCollateralEvent.Scan(cauldronMap, logs), RemoveAlertId)
  {
    ScanSelectsAdds(cauldronMap, logs);
    ScanSelectsRemoves(cauldronMap, logs);
  }

  /** The combined handler only ever reports ABRA-1 and ABRA-2 findings. */
  lemma CombinedAlertIds(cauldronMap: Registry, logs: seq<LogEvent>)
    ensures forall f :: f in AddRemoveCollateralEvent.Scan(cauldronMap, logs) ==> f.alertId == AddAlertId || f.alertId == RemoveAlertId
  {
    forall f | f in AddRemoveCollateralEvent.Scan(cauldronMap, logs)
      ensures f.alertId == AddAlertId || f.alertId == RemoveAlertId
    {
      FlatMapMembers(cauldronMap, entry => AddRemoveCollateralEvent.CauldronFindings(entry, logs), f);
      var c :| c in cauldronMap && f in AddRemoveCollateralEvent.CauldronFindings(c, logs);
      var matched := FilterLog(logs, CollateralEvents, {c.address});
      FlatMapMembers(matched, log => CollateralEventFindings(c.name, log), f);
    }
  }

  /** Splitting a sequence of ABRA-1 and ABRA-2 findings by kind only reorders it. */
  lemma {:induction false} PartitionPermutes(fs: seq<Finding>)
    requires forall f :: f in fs ==> f.alertId == AddAlertId || f.alertId == RemoveAlertId
    ensures multiset(WithAlertId(fs, AddAlertId) + WithAlertId(fs, RemoveAlertId)) == multiset(fs)
    decreases |fs|
  {
    if fs != [] {
      var init, x := fs[..|fs| - 1], fs[|fs| - 1];
      assert fs == init + [x];
      PartitionPermutes(init);
    }
  }

  /** ABRA-1 findings followed by ABRA-2 findings put every add first. */
  lemma ConcatAddsFirst(adds: seq<Finding>, removes: seq<Finding>)
    requires forall f :: f in adds ==> f.alertId == AddAlertId
    requires forall f :: f in removes ==> f.alertId == RemoveAlertId
    ensures AddsFirst(adds + removes)
  {
    var fs := adds + removes;
    forall i, j | 0 <= i < j < |fs| && fs[i].alertId == RemoveAlertId
      ensures fs[j].alertId != AddAlertId
    {
      assert removes[j - |adds|] in removes;
    }
  }

  /** A sequence that already lists every add first is left as it is by the split. */
  lemma {:induction false} AddsFirstPartition(fs: seq<Finding>)
    requires forall f :: f in fs ==> f.alertId == AddAlertId || f.alertId == RemoveAlertId
    requires AddsFirst(fs)
    ensures WithAlertId(fs, AddAlertId) + WithAlertId(fs, RemoveAlertId) == fs
    decreases |fs|
  {
    if fs != [] {
      if fs[|fs| - 1].alertId == AddAlertId {
        AddsFirstEndingInAdd(fs);
        WithAlertIdUniform(fs, AddAlertId);
        WithAlertIdUniform(fs, RemoveAlertId);
      } else {
        AddsFirstPrefix(fs);
        AddsFirstPartition(fs[..|fs| - 1]);
        PartitionAppendRemove(fs[..|fs| - 1], fs[|fs| - 1]);
        assert fs == fs[..|fs| - 1] + [fs[|fs| - 1]];
      }
    }
  }

  /** Appending a remove to a sequence the split leaves unchanged gives another such sequence. */
  lemma PartitionAppendRemove(init: seq<Finding>, x: Finding)
    requires x.alertId == RemoveAlertId
    requires WithAlertId(init, AddAlertId) + WithAlertId(init, RemoveAlertId) == init
    ensures WithAlertId(init + [x], AddAlertId) + WithAlertId(init + [x], RemoveAlertId) == init + [x]
  {
    AlertIdsDiffer();
    WithAlertIdAppend(init, [x], AddAlertId);
    WithAlertIdAppend(init, [x], RemoveAlertId);
    WithAlertIdSingleton(x, AddAlertId);
    WithAlertIdSingleton(x, RemoveAlertId);
  }

  /** When the last finding is an add, every finding before it is an add too. */
  lemma AddsFirstEndingInAdd(fs: seq<Finding>)
    requires forall f :: f in fs ==> f.alertId == AddAlertId || f.alertId == RemoveAlertId
    requires AddsFirst(fs)
    requires fs != [] && fs[|fs| - 1].alertId == AddAlertId
    ensures forall f :: f in fs ==> f.alertId == AddAlertId
  {
    forall i | 0 <= i < |fs| - 1 ensures fs[i].alertId == AddAlertId {
      assert fs[i] in fs;
    }
  }

  /** Dropping the last finding keeps the adds-first order. */
  lemma AddsFirstPrefix(fs: seq<Finding>)
    requires AddsFirst(fs) && fs != []
    ensures AddsFirst(fs[..|fs| - 1])
    ensures forall f :: f in fs[..|fs| - 1] ==> f in fs
  {
  }

  /** Splitting by kind keeps a sequence of ABRA-1 and ABRA-2 findings unchanged exactly when it lists every add first. */
  lemma PartitionIdentityIff(fs: seq<Finding>)
    requires forall f :: f in fs ==> f.alertId == AddAlertId || f.alertId == RemoveAlertId
    ensures WithAlertId(fs, AddAlertId) + WithAlertId(fs, RemoveAlertId) == fs <==> AddsFirst(fs)
  {
    WithAlertIdMembers(fs, AddAlertId);
    WithAlertIdMembers(fs, RemoveAlertId);
    ConcatAddsFirst(WithAlertId(fs, AddAlertId), WithAlertId(fs, RemoveAlertId));
    if AddsFirst(fs) {
      AddsFirstPartition(fs);
    }
  }

  /** Every ABRA-1 finding of the composition precedes every ABRA-2 finding. */
  lemma HandleAddsFirst(cauldronMap: Registry, logs: seq<LogEvent>)
    ensures AddsFirst(Handle(cauldronMap, logs))
  {
    forall f | f in AddCollateralEvent.Scan(cauldronMap, logs) ensures f.alertId == AddAlertId {
      AddCollateralEvent.ScanMembers(cauldronMap, logs, f);
    }
    forall f | f in RemoveCollateralEvent.Scan(cauldronMap, logs) ensures f.alertId == RemoveAlertId {
      RemoveCollateralEvent.ScanMembers(cauldronMap, logs, f);
    }
    ConcatAddsFirst(AddCollateralEvent.Scan(cauldronMap, logs), RemoveCollateralEvent.Scan(cauldronMap, logs));
  }

  /** The composition reports the same findings as the combined handler, each as often. */
  lemma HandlePermutesCombined(cauldronMap: Registry, logs: seq<LogEvent>)
    ensures multiset(Handle(cauldronMap, logs)) == multiset(AddRemoveCollateralEvent.Scan(cauldronMap, logs))
  {
    HandleIsPartition(cauldronMap, logs);
    CombinedAlertIds(cauldronMap, logs);
    PartitionPermutes(AddRemoveCollateralEvent.Scan(cauldronMap, logs));
  }

  /** The two handlers agree on order exactly when the combined one already lists every add first. */
  lemma HandleEqualsCombinedIff(cauldronMap: Registry, logs: seq<LogEvent>)
    ensures Handle(cauldronMap, logs) == AddRemoveCollateralEvent.Scan(cauldronMap, logs)
        <==> AddsFirst(AddRemoveCollateralEvent.Scan(cauldronMap, logs))
  {
    HandleIsPartition(cauldronMap, logs);
    CombinedAlertIds(cauldronMap, logs);
    PartitionIdentityIff(AddRemoveCollateralEvent.Scan(cauldronMap, logs));
  }

  /**
   * With distinct registry addresses, the composition reports one finding
   * per LogAddCollateral and per LogRemoveCollateral log of a registered
   * cauldron, and so does the combined handler.
   */
  lemma HandleCount(cauldronMap: Registry, logs: seq<LogEvent>)
    requires DistinctAddresses(cauldronMap)
    ensures |Handle(cauldronMap, logs)|
         == |FilterLog(logs, {AddEventName}, Addresses(cauldronMap))| + |FilterLog(logs, {RemoveEventName}, Addresses(cauldronMap))|
    ensures |AddRemoveCollateralEvent.Scan(cauldronMap, logs)| == |FilterLog(logs, CollateralEvents, Addresses(cauldronMap))|
  {
    AddCollateralEvent.ScanCount(cauldronMap, logs);
    RemoveCollateralEvent.ScanCount(cauldronMap, logs);
    HandlePermutesCombined(cauldronMap, logs);
    assert |multiset(Handle(cauldronMap, logs))| == |Handle(cauldronMap, logs)|;
    FilterLogDisjointNames(logs, {AddEventName}, {RemoveEventName}, Addresses(cauldronMap));
    assert {AddEventName} + {RemoveEventName} == CollateralEvents;
  }

  /** A transaction without logs from registered cauldrons (an empty one, say) yields no findings. */
  lemma NoRegisteredLogs(cauldronMap: Registry, logs: seq<LogEvent>)
    requires forall l :: l in logs ==> l.address !in Addresses(cauldronMap)
    ensures Handle(cauldronMap, logs) == []
    ensures AddRemoveCollateralEvent.Scan(cauldronMap, logs) == []
  {
    forall c | c in cauldronMap
      ensures AddCollateralEvent.CauldronFindings(c, logs) == []
      ensures RemoveCollateralEvent.CauldronFindings(c, logs) == []
      ensures AddRemoveCollateralEvent.CauldronFindings(c, logs) == []
    {
      var i :| 0 <= i < |cauldronMap| && cauldronMap[i] == c;
      NothingMatches(logs, {AddEventName}, {c.address});
      NothingMatches(logs, {RemoveEventName}, {c.address});
      NothingMatches(logs, CollateralEvents, {c.address});
    }
    FlatMapEmpty(cauldronMap, c => AddCollateralEvent.CauldronFindings(c, logs));
    FlatMapEmpty(cauldronMap, c => RemoveCollateralEvent.CauldronFindings(c, logs));
    FlatMapEmpty(cauldronMap, c => AddRemoveCollateralEvent.CauldronFindings(c, logs));
  }

  /**
   * The order can differ even when no cauldron emits both kinds: a remove
   * from the first registered cauldron and an add from the second come out
   * remove-first from the combined handler and add-first from the
   * composition, whichever of the two logs comes first in the transaction.
   */
  lemma CrossCauldronReorder(first: Cauldron, second: Cauldron, add: LogEvent, remove: LogEvent, logs: seq<LogEvent>)
    requires first.address != second.address
    requires remove.address == first.address && remove.name == RemoveEventName
    requires add.address == second.address && add.name == AddEventName
    requires logs == [add, remove] || logs == [remove, add]
    ensures AddRemoveCollateralEvent.Scan([first, second], logs)
         == [RemoveCollateralFinding(first.name, remove), AddCollateralFinding(second.name, add)]
    ensures Handle([first, second], logs)
         == [AddCollateralFinding(second.name, add), RemoveCollateralFinding(first.name, remove)]
    ensures Handle([first, second], logs) != AddRemoveCollateralEvent.Scan([first, second], logs)
  {
    CrossCauldronCombined(first, second, add, remove, logs);
    CrossCauldronAgent(first, second, add, remove, logs);
    AlertIdsDiffer();
    assert Handle([first, second], logs)[0].alertId != AddRemoveCollateralEvent.Scan([first, second], logs)[0].alertId;
  }

  /** The combined handler's output for that transaction: registry order puts the remove first. */
  lemma CrossCauldronCombined(first: Cauldron, second: Cauldron, add: LogEvent, remove: LogEvent, logs: seq<LogEvent>)
    requires first.address != second.address
    requires remove.address == first.address && remove.name == RemoveEventName
    requires add.address == second.address && add.name == AddEventName
    requires logs == [add, remove] || logs == [remove, add]
    ensures AddRemoveCollateralEvent.Scan([first, second], logs)
         == [RemoveCollateralFinding(first.name, remove), AddCollateralFinding(second.name, add)]
  {
    CrossCauldronFirst(first, add, remove, logs);
    CrossCauldronSecond(second, add, remove, logs);
    FlatMapPair(first, second, c => AddRemoveCollateralEvent.CauldronFindings(c, logs));
  }

  /** The agent's output for that transaction: the add handler runs first. */
  lemma CrossCauldronAgent(first: Cauldron, second: Cauldron, add: LogEvent, remove: LogEvent, logs: seq<LogEvent>)
    requires first.address != second.address
    requires remove.address == first.address && remove.name == RemoveEventName
    requires add.address == second.address && add.name == AddEventName
    requires logs == [add, remove] || logs == [remove, add]
    ensures Handle([first, second], logs)
         == [AddCollateralFinding(second.name, add), RemoveCollateralFinding(first.name, remove)]
  {
    CrossCauldronFirst(first, add, remove, logs);
    CrossCauldronSecond(second, add, remove, logs);
    FlatMapPair(first, second, c => AddCollateralEvent.CauldronFindings(c, logs));
    FlatMapPair(first, second, c => RemoveCollateralEvent.CauldronFindings(c, logs));
  }

  /** In that transaction the first cauldron reports only its remove. */
  lemma CrossCauldronFirst(first: Cauldron, add: LogEvent, remove: LogEvent, logs: seq<LogEvent>)
    requires add.address != first.address
    requires remove.address == first.address && remove.name == RemoveEventName
    requires logs == [add, remove] || logs == [remove, add]
    ensures AddRemoveCollateralEvent.CauldronFindings(first, logs) == [RemoveCollateralFinding(first.name, remove)]
    ensures AddCollateralEvent.CauldronFindings(first, logs) == []
    ensures RemoveCollateralEvent.CauldronFindings(first, logs) == [RemoveCollateralFinding(first.name, remove)]
  {
    EventNamesDiffer();
    OneLogAt(first.address, remove, add, logs, CollateralEvents);
    OneLogAt(first.address, remove, add, logs, {AddEventName});
    OneLogAt(first.address, remove, add, logs, {RemoveEventName});
    FlatMapSingleton(remove, log => CollateralEventFindings(first.name, log));
  }

  /** In that transaction the second cauldron reports only its add. */
  lemma CrossCauldronSecond(second: Cauldron, add: LogEvent, remove: LogEvent, logs: seq<LogEvent>)
    requires remove.address != second.address
    requires add.address == second.address && add.name == AddEventName
    requires logs == [add, remove] || logs == [remove, add]
    ensures AddRemoveCollateralEvent.CauldronFindings(second, logs) == [AddCollateralFinding(second.name, add)]
    ensures AddCollateralEvent.CauldronFindings(second, logs) == [AddCollateralFinding(second.name, add)]
    ensures RemoveCollateralEvent.CauldronFindings(second, logs) == []
  {
    EventNamesDiffer();
    OneLogAt(second.address, add, remove, logs, CollateralEvents);
    OneLogAt(second.address, add, remove, logs, {AddEventName});
    OneLogAt(second.address, add, remove, logs, {RemoveEventName});
    FlatMapSingleton(add, log => CollateralEventFindings(second.name, log));
  }
}

/**
 * The alert record built for each collateral log (Finding.fromObject in the
 * monitoring SDK) and the two ways the handlers fill it in.
 */
module Findings {
  import opened Wrappers
  import opened Transaction
  import opened Amount

  /** Decoded event names of the two monitored cauldron events. */
  const AddEventName: string := "LogAddCollateral"
  const RemoveEventName: string := "LogRemoveCollateral"
  const CollateralEvents: set<string> := {AddEventName, RemoveEventName}

  const AddAlertId: string := "ABRA-1"
  const RemoveAlertId: string := "ABRA-2"

  datatype FindingSeverity = Unknown | Info | Low | Medium | High | Critical
  datatype FindingType = Unknown | Exploit | Suspicious | Degraded | Info

  /** The raw, unscaled event arguments, as strings. */
  datatype Metadata = Metadata(from: string, to: string, share: string)

  datatype Finding = Finding(
    name: string,
    description: string,
    alertId: string,
    severity: FindingSeverity,
    findingType: FindingType,
    metadata: Metadata)

  /** The finding reported for a LogAddCollateral log of the named cauldron. */
  function AddCollateralFinding(cauldronName: string, log: LogEvent): (f: Finding)
    ensures f.alertId == AddAlertId
  {
    Finding(
      AddEventName + " Event in " + cauldronName + " Cauldron",
      FormatShares(log.share) + " shares " + cauldronName + " added",
      AddAlertId,
      FindingSeverity.Info,
      FindingType.Info,
      Metadata(log.from, log.to, DecimalString(log.share)))
  }

  /** The finding reported for a LogRemoveCollateral log of the named cauldron. */
  function RemoveCollateralFinding(cauldronName: string, log: LogEvent): (f: Finding)
    ensures f.alertId == RemoveAlertId
  {
    Finding(
      "LogRemoveCollateral Event in " + cauldronName + " Cauldron",
      FormatShares(log.share) + " shares " + cauldronName + " removed",
      RemoveAlertId,
      FindingSeverity.Info,
      FindingType.Info,
      Metadata(log.from, log.to, DecimalString(log.share)))
  }

  /**
   * An add finding names the event and the cauldron, shows the share amount
   * scaled to whole shares, is informational whatever the amount, and keeps
   * the raw arguments: its metadata share reads back as the unscaled share.
   */
  lemma AddCollateralFindingFields(cauldronName: string, log: LogEvent)
    ensures var f := AddCollateralFinding(cauldronName, log);
      && f.name == "LogAddCollateral Event in " + cauldronName + " Cauldron"
      && f.description == FormatShares(log.share) + " shares " + cauldronName + " added"
      && f.severity == FindingSeverity.Info && f.findingType == FindingType.Info
      && f.metadata.from == log.from && f.metadata.to == log.to
      && ParseDecimal(f.metadata.share) == Some(log.share)
  {
    DecimalRoundTrip(log.share);
  }

  /** The same for a remove finding, whose description says "removed". */
  lemma RemoveCollateralFindingFields(cauldronName: string, log: LogEvent)
    ensures var f := RemoveCollateralFinding(cauldronName, log);
      && f.name == "LogRemoveCollateral Event in " + cauldronName + " Cauldron"
      && f.description == FormatShares(log.share) + " shares " + cauldronName + " removed"
      && f.severity == FindingSeverity.Info && f.findingType == FindingType.Info
      && f.metadata.from == log.from && f.metadata.to == log.to
      && ParseDecimal(f.metadata.share) == Some(log.share)
  {
    DecimalRoundTrip(log.share);
  }

  /**
   * What the combined handler pushes for one filtered log: an add finding
   * when the event is LogAddCollateral, a remove finding when it is
   * LogRemoveCollateral, nothing for any other event name.
   */
  function CollateralEventFindings(cauldronName: string, log: LogEvent): (r: seq<Finding>)
    ensures |r| == (if log.name in CollateralEvents then 1 else 0)
    ensures log.name == AddEventName ==> r == [AddCollateralFinding(cauldronName, log)]
    ensures log.name == RemoveEventName ==> r == [RemoveCollateralFinding(cauldronName, log)]
  {
    (if log.name == AddEventName then [AddCollateralFinding(cauldronName, log)] else [])
    + (if log.name == RemoveEventName then [RemoveCollateralFinding(cauldronName, log)] else [])
  }

  /** The findings of `fs` with the given alert id, in their order in `fs`. */
  function WithAlertId(fs: seq<Finding>, alertId: string): (r: seq<Finding>)
    ensures |r| <= |fs|
    decreases |fs|
  {
    if fs == [] then []
    else
      var last := fs[|fs| - 1];
      assert fs == fs[..|fs| - 1] + [last];
      WithAlertId(fs[..|fs| - 1], alertId) + (if last.alertId == alertId then [last] else [])
  }

  /** The selection holds exactly the findings of `fs` that carry the alert id. */
  lemma {:induction false} WithAlertIdMembers(fs: seq<Finding>, alertId: string)
    ensures forall f :: f in WithAlertId(fs, alertId) <==> f in fs && f.alertId == alertId
    decreases |fs|
  {
    if fs != [] {
      var last := fs[|fs| - 1];
      assert fs == fs[..|fs| - 1] + [last];
      WithAlertIdMembers(fs[..|fs| - 1], alertId);
    }
  }

  /** Selecting by alert id distributes over concatenation. */
  lemma {:induction false} WithAlertIdAppend(a: seq<Finding>, b: seq<Finding>, alertId: string)
    ensures WithAlertId(a + b, alertId) == WithAlertId(a, alertId) + WithAlertId(b, alertId)
    decreases |b|
  {
    if b != [] {
      var b' := b[..|b| - 1];
      WithAlertIdAppend(a, b', alertId);
      var last := b[|b| - 1];
      assert (a + b)[..|a + b| - 1] == a + b';
      assert (a + b)[|a + b| - 1] == last;
      var tail := if last.alertId == alertId then [last] else [];
      assert WithAlertId(a + b, alertId) == WithAlertId(a + b', alertId) + tail;
      assert WithAlertId(b, alertId) == WithAlertId(b', alertId) + tail;
    } else {
      assert a + b == a;
    }
  }

  /** Selecting an alert id that every finding has keeps them all; one that none has keeps nothing. */
  lemma {:induction false} WithAlertIdUniform(fs: seq<Finding>, alertId: string)
    ensures (forall f :: f in fs ==> f.alertId == alertId) ==> WithAlertId(fs, alertId) == fs
    ensures (forall f :: f in fs ==> f.alertId != alertId) ==> WithAlertId(fs, alertId) == []
    decreases |fs|
  {
    if fs != [] {
      var init := fs[..|fs| - 1];
      assert forall f :: f in init ==> f in fs;
      WithAlertIdUniform(init, alertId);
    }
  }

  /** A single finding is kept exactly when it carries the selected alert id. */
  lemma WithAlertIdSingleton(f: Finding, alertId: string)
    ensures WithAlertId([f], alertId) == if f.alertId == alertId then [f] else []
  {
    assert [f][..0] == [];
  }

  /** The two alert ids are different strings. */
  lemma AlertIdsDiffer()
    ensures AddAlertId != RemoveAlertId
  {
    assert AddAlertId[5] != RemoveAlertId[5];
  }

  /** The two event names are different strings. */
  lemma EventNamesDiffer()
    ensures AddEventName != RemoveEventName
  {
    assert AddEventName[3] != RemoveEventName[3];
  }
}

# Abracadabra collateral agent — a Dafny model

This project models the transaction handlers of a Forta agent that watches
Abracadabra cauldrons. A cauldron registry maps each cauldron's contract
address to a display name. For every registered cauldron, a handler asks the
transaction event for that cauldron's `LogAddCollateral` and/or
`LogRemoveCollateral` logs. For each log it pushes one finding:

- the name reads "`<event>` Event in `<cauldron>` Cauldron";
- the description gives the share amount divided by 10^18 with two decimals,
  then "shares `<cauldron>` added" or "removed";
- the alert id is `ABRA-1` for an add and `ABRA-2` for a remove;
- severity and type are both Info;
- the metadata holds `from`, `to` and the raw share as a decimal numeral.

There are three handlers and one composition:

- `AddRemoveCollateralEvent`: the combined handler. It filters both events in
  one call per cauldron.
- `AddCollateralEvent`: the add-only handler (`ABRA-1`).
- `RemoveCollateralEvent`: the remove-only handler (`ABRA-2`).
- `Agent`: the agent's `handleTransaction`. It runs the add-only handler, then
  the remove-only handler, and concatenates their findings.

Each handler is a `method` with the source's loops: an outer loop over the
registry entries, with a `continue` when the filter finds nothing, and an
inner loop that pushes onto `findings`. Each method is proved equal to a
specification function (`Scan`). The specification functions are built
from `Seqs.FlatMap`, so their structure (registry order, then log order)
is stated once. The lemmas then relate the handlers to each other.

The main result is in `Agent`:

- the agent returns the combined handler's findings, split by alert id, with
  the order inside each kind kept;
- the two outputs are therefore permutations of each other;
- they are equal exactly when the combined output already lists every
  `ABRA-1` finding before every `ABRA-2` finding.

The order can differ even when no cauldron emits both events.
`Agent.CrossCauldronReorder` shows this: a remove at the first registered
cauldron and an add at the second come out remove-first from the combined
handler and add-first from the agent.

Amounts are modelled exactly:

- `share.toString()` is `Amount.DecimalString`, with a parser proved to be its
  inverse in both directions;
- `new BigNumber(share).dividedBy(10 ** 18).toFixed(2)` is
  `Amount.FormatShares`. It rounds half up to hundredths, and a round-trip
  lemma ties it to the integer number of hundredths.

Files:

| file | contents |
|---|---|
| `wrappers.dfy` | `Option` |
| `seqs.dfy` | `FlatMap` and its structural lemmas |
| `transaction.dfy` | logs, the registry, `filterLog` |
| `amount.dfy` | numerals and amount rendering |
| `findings.dfy` | the finding record, the two finding builders, selection by alert id |
| `add_remove_collateral_event.dfy`, `add_collateral_event.dfy`, `remove_collateral_event.dfy`, `agent.dfy` | one per source file |

The agent's output is adds first, then removes, as the code concatenates
them (src/agent.ts:14). It is not in the combined handler's order.

## Model

| member | source | states |
|---|---|---|
| Transaction.Addresses | src/add_collateral_event.ts:18 | the set of registered addresses is exactly the addresses of the registry's entries |
| Transaction.FilterLogMembers | src/add_remove_collateral_event.ts:13 | filterLog returns exactly the logs of the transaction that carry one of the requested event names and come from one of the requested contracts |
| Transaction.FilterLogDisjointAddresses | src/add_collateral_event.ts:21-24 | filtering for two disjoint sets of contracts finds as many logs as the two filters separately |
| Transaction.FilterLogDisjointNames | src/add_remove_collateral_event.ts:13 | filtering for two disjoint sets of event names finds as many logs as the two filters separately, so the combined filter finds the add filter's and the remove filter's logs |
| Transaction.NothingMatches | src/add_remove_collateral_event.ts:14 | when no log matches, filterLog returns an empty list (the case the handler skips with `continue`) |
| Amount.DecimalString | src/add_remove_collateral_event.ts:31 | `toString()` of an unsigned integer is a canonical numeral (digits, no leading zero), starting with '0' only for zero |
| Amount.DecimalRoundTrip | src/add_remove_collateral_event.ts:31 | parsing the rendered share gives back the share |
| Amount.CanonicalRoundTrip | src/add_remove_collateral_event.ts:31 | every canonical numeral is the rendering of its value, so the rendering is onto the canonical numerals |
| Amount.RoundedHundredths | src/add_remove_collateral_event.ts:17-18 | the number of hundredths shown is share·100/10^18 rounded half up: c·10^18 ≤ 100·share + 10^18/2 < (c+1)·10^18 |
| Amount.FormatShares | src/add_remove_collateral_event.ts:18 | the `toFixed(2)` text is at least four characters long, with the point third from the end |
| Amount.FormatSharesShape | src/add_remove_collateral_event.ts:18 | the `toFixed(2)` text is a canonical integer numeral, a point, and exactly two digits |
| Amount.FormatSharesRoundTrip | src/add_remove_collateral_event.ts:17-18 | reading the formatted amount back gives exactly the rounded number of hundredths |
| Amount.FormatSharesTiny | src/add_remove_collateral_event.ts:17-18 | shares 0 and 1 both show as "0.00" |
| Amount.FormatSharesWhole | src/agent.spec.ts:26-29 | 10^18 shows as "1.00" and 2·10^18 as "2.00" |
| Amount.FormatSharesRounding | src/add_remove_collateral_event.ts:17-18 | rounding is half up at the second decimal: 0.994999… shows "0.99", 0.995 and 0.999… show "1.00" |
| Amount.FormatSharesLarge | src/add_remove_collateral_event.ts:17-18 | large shares keep every integer digit: 123456789012.345678901234567890 shows "123456789012.35" |
| Findings.AddCollateralFinding | src/add_collateral_event.ts:38 | an add finding carries alert id ABRA-1 |
| Findings.RemoveCollateralFinding | src/remove_collateral_event.ts:38 | a remove finding carries alert id ABRA-2 |
| Findings.AddCollateralFindingFields | src/add_collateral_event.ts:34-47 | an add finding has the name "LogAddCollateral Event in `<cauldron>` Cauldron", the description "`<amount>` shares `<cauldron>` added", Info severity and type, the log's from and to, and a share numeral that parses back to the log's share |
| Findings.RemoveCollateralFindingFields | src/remove_collateral_event.ts:34-47 | the same for a remove finding, with "LogRemoveCollateral" and "removed" |
| Findings.CollateralEventFindings | src/add_remove_collateral_event.ts:20-51 | a log yields one finding if its name is one of the two collateral events and none otherwise; an add yields the add finding and a remove yields the remove finding |
| Findings.WithAlertIdMembers | src/agent.ts:14 | selecting by alert id keeps exactly the findings with that id |
| Findings.WithAlertIdAppend | src/agent.ts:14 | selecting by alert id distributes over concatenation |
| AddRemoveCollateralEvent.HandleTransaction | src/add_remove_collateral_event.ts:7-55 | the combined handler's loops return exactly Scan: the findings of every registered cauldron's add and remove logs, in registry order and then log order |
| AddRemoveCollateralEvent.EntryFindingsPerLog | src/add_remove_collateral_event.ts:16-52 | for logs of the two collateral events, one finding per filtered log, the k-th finding being the add finding of the k-th log when it is a LogAddCollateral and its remove finding otherwise, so adds and removes interleave as the logs do |
| AddCollateralEvent.EntryFindings | src/add_collateral_event.ts:28-48 | one add finding per filtered log, the k-th finding for the k-th log |
| AddCollateralEvent.HandleTransaction | src/add_collateral_event.ts:15-51 | the add-only handler's loops return exactly its Scan |
| AddCollateralEvent.ScanMembers | src/add_collateral_event.ts:18-48 | a finding is reported if and only if it is the add finding of a LogAddCollateral log from a registered cauldron, named after that cauldron |
| AddCollateralEvent.ScanCount | src/add_collateral_event.ts:18-28 | with distinct registry addresses, there is one finding per LogAddCollateral log of a registered cauldron |
| RemoveCollateralEvent.EntryFindings | src/remove_collateral_event.ts:28-48 | one remove finding per filtered log, the k-th finding for the k-th log |
| RemoveCollateralEvent.HandleTransaction | src/remove_collateral_event.ts:15-51 | the remove-only handler's loops return exactly its Scan |
| RemoveCollateralEvent.ScanMembers | src/remove_collateral_event.ts:18-48 | a finding is reported if and only if it is the remove finding of a LogRemoveCollateral log from a registered cauldron, named after that cauldron |
| RemoveCollateralEvent.ScanCount | src/remove_collateral_event.ts:18-28 | with distinct registry addresses, there is one finding per LogRemoveCollateral log of a registered cauldron |
| Agent.HandleTransaction | src/agent.ts:8-15 | the agent returns the add findings followed by the remove findings; every ABRA-1 precedes every ABRA-2; the output is the combined handler's output split by alert id and is a permutation of it |
| Agent.ScanSelectsAdds | src/add_collateral_event.ts:21-24 | the add-only handler's output is the combined handler's output restricted to ABRA-1, in the same order |
| Agent.ScanSelectsRemoves | src/remove_collateral_event.ts:21-24 | the remove-only handler's output is the combined handler's output restricted to ABRA-2, in the same order |
| Agent.HandleIsPartition | src/agent.ts:14 | the agent's output is the combined output's ABRA-1 findings followed by its ABRA-2 findings |
| Agent.CombinedAlertIds | src/add_remove_collateral_event.ts:20-51 | every finding of the combined handler is ABRA-1 or ABRA-2 |
| Agent.PartitionPermutes | src/agent.ts:14 | splitting a list of ABRA-1 and ABRA-2 findings by kind keeps each finding as often as before |
| Agent.PartitionIdentityIff | src/agent.ts:14 | the split leaves such a list unchanged exactly when it already lists every ABRA-1 before every ABRA-2 |
| Agent.HandleAddsFirst | src/agent.ts:14 | in the agent's output no ABRA-2 precedes an ABRA-1 |
| Agent.HandlePermutesCombined | src/agent.ts:10-14 | the agent and the combined handler report the same findings, each equally often |
| Agent.HandleEqualsCombinedIff | src/agent.ts:10-14 | the agent's output equals the combined handler's output if and only if the latter lists every ABRA-1 before every ABRA-2 |
| Agent.HandleCount | src/agent.ts:12-14 | with distinct registry addresses, both the agent and the combined handler report one finding per collateral log of a registered cauldron |
| Agent.NoRegisteredLogs | src/agent.ts:8-15 | a transaction with no logs from registered cauldrons, an empty one included, yields no findings from the agent or from the combined handler |
| Agent.CrossCauldronReorder | src/agent.ts:14 | a remove at the first cauldron and an add at the second, in either log order, come out [ABRA-2, ABRA-1] from the combined handler and [ABRA-1, ABRA-2] from the agent, so the two outputs differ |

## Left out

- The Forta SDK (`Finding.fromObject`, `TransactionEvent`) is reduced to the record and the log list it carries. Log decoding from ABI topics and data is not modelled; logs arrive already decoded.
- Transaction.FilterLog: the model matches a log's address against the registry key by exact string equality. The handlers only pass the key to the SDK's `filterLog` (src/add_remove_collateral_event.ts:13), and the SDK's own comparison, letter case included, is not modelled. So a registry key and a log address that differ only in letter case may match in the SDK but never match in the model.
- A log whose `share`, `from` or `to` is missing is not modelled. In the source, `args.share.toString()` (src/add_remove_collateral_event.ts:17,29-31) would throw inside `forEach`, and the whole `handleTransaction` would reject with no findings for that transaction. The model's `LogEvent` always carries the three arguments, because `filterLog` returns only logs decoded against the event's ABI.
- The handlers are `async`. The model runs them in sequence, which is what the awaits in src/agent.ts:12-13 do. Promises and concurrency are left out.
- `constants.ts` is not part of this model. The registry is a parameter, as `providerEventTransaction` and `provideHandleTransaction` take it. `ETH_DECIMALS` is 18 (`Amount.Scale`). The event names are the strings the handlers compare against.
- The `export default` wiring that binds `CAULDRON_ADDRESS_MAP` is left out. So is the fact that the remove-only file exports only `handleTransaction` (src/remove_collateral_event.ts:54-56) while src/agent.ts:11 calls its `providerEventTransaction`. The model uses the evident intent: the remove-only provider built over the same registry.
- bignumber.js is modelled only for the division by 10^18 and `toFixed(2)`, in exact integer arithmetic with half-up rounding. Its configuration is not modelled; the defaults are assumed.
- The handlers keep no state between transactions. In the model they are functions of the registry and the logs.
- Transaction metadata other than the logs (hash, block, traces) is ignored by the handlers and left out.

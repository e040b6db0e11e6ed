# ofctrl forwarding graph: tables, groups and buckets

A Dafny model of the forwarding-graph layer of the `ofctrl` OpenFlow controller
library: the in-memory objects that mirror what a switch has installed and the
protocol messages they build from that state.

- **Table** (`fgraph_table.dfy`, module `FgraphTable`) keeps a flow database
  keyed by each flow's identity key. `NewFlow` refuses a key that is already
  present. `DeleteFlow` removes a key unconditionally. The object invariant
  `Table.Valid` says every stored flow belongs to the table and sits under its
  own key.
- **Group** (`fgraph_group.dfy`, module `FgraphGroup`) is a state machine over
  its installed flag and its ordered bucket and property lists. `Install` sends
  ADD or MODIFY and marks the group installed only when the send succeeds.
  The mutators re-send an installed group as MODIFY. `Delete` sends DELETE and
  then prunes the switch's group cache. `AddBucket` turns a compiled flow's
  instructions into bucket actions.
- **Group messages** (`group_mods.dfy`, module `GroupMods`) hold the pure
  definitions these are proved against. `GroupModFor` is the GroupMod for a
  command. `SelectionMatches` is the hash-field list of a selection method.
  `ScanInstructions` is the walk of compiled instructions into bucket actions.
  Their properties are proved as lemmas.
- **Bucket** (`fgraph_bucket.dfy`, module `FgraphBucket`) has setters that only
  change the bucket in memory: output port, tunnel endpoints, weight, watch
  port and watch group.
- `openflow15.dfy` gives the protocol structures as abstract datatypes, with
  the group-mod constants of section 7.3.4.2 of the OpenFlow Switch
  Specification 1.5.1. `net.dfy` gives the parsed-address predicates
  (`IsUnspecified`, `IsLoopback`) with Go's `net` semantics, nil included.
  `wrappers.dfy` holds `Option`, `Result` and `Outcome`.

The switch connection `OFSwitch` is a collaborator whose transport is not
modelled. It records every message handed to `Send` in `sent`. `Send` fails
while `sendFault` is set. `DeleteGroup` removes an id from `groupCache`, logs
the call in `cacheDeletes`, and reports `cacheFault` if set. `DefaultTable`
reads a field.

Where one might expect otherwise, the model follows the code:

- `AddBucket` checks the Go type of each instruction (`*InstrActions`). That
  type also carries write-actions and clear-actions instructions, so those are
  accepted as well, not only apply-actions.
- When `AddBucket` meets a bad instruction, the bucket keeps the actions
  already appended from the instructions before it. The bucket is not left
  untouched; only the group's bucket list is.
- Installing a group and then calling `AddBuckets` twice sends one ADD and
  then two MODIFYs, one per call (`InstallThenAddBucketsTwice`).
- `Delete` builds its DELETE message by hand and never sets the group type,
  which stays at the default (GT_ALL). `DeleteModAgreesWithBuilder` shows that
  this is the only difference from the builder's DELETE message. The two
  messages are the same exactly for a group of type All.
- An address text that does not parse gives a nil IP. A nil IP is neither
  unspecified nor loopback, so the tunnel setters record a set-field action
  with a nil address (`TunnelEndpointExamples`).

## Model

| member | source | states |
|---|---|---|
| `GroupMods.TypeCode` | ofctrl/fgraphGroup.go:113-122 | each group type maps to its protocol type and is read back unchanged from it |
| `GroupMods.TypeCodeInjective` | ofctrl/fgraphGroup.go:113-122 | the mapping All/Select/Indirect/FF to GT_ALL/GT_SELECT/GT_INDIRECT/GT_FF is one-to-one |
| `GroupMods.WrapUint16` | ofctrl/fgraphGroup.go:111 | the message's command is the int command reduced modulo 2^16, as Go's uint16 conversion does |
| `GroupMods.DeleteCarriesNoBody` | ofctrl/fgraphGroup.go:108-126 | a DELETE message carries the group id, the DELETE command and the mapped type, and no property, bucket or bucket position |
| `GroupMods.AddModifyCarryAll` | ofctrl/fgraphGroup.go:128-137 | ADD and MODIFY messages carry all properties and all buckets, in list order |
| `GroupMods.OtherCommandsCarryBucketsOnly` | ofctrl/fgraphGroup.go:128-137 | any other non-DELETE command (INSERT_BUCKET, for one) carries the buckets but no property |
| `GroupMods.LastSentinelOnlyForInsertBucket` | ofctrl/fgraphGroup.go:139-141 | the bucket position is OFPG_BUCKET_LAST if and only if the command is INSERT_BUCKET, and left at the default otherwise |
| `GroupMods.DeleteModAgreesWithBuilder` | ofctrl/fgraphGroup.go:151-156 | the DELETE message `Delete` builds equals the builder's DELETE message with the default group type in place of the group's; the two coincide if and only if the group's type is All |
| `GroupMods.SelectionMatchesFollowCodes` | ofctrl/fgraphGroup.go:186-205 | a selection method's match list has one entry per recognised hash code, in argument order, each the wildcard field of that code; unknown codes are skipped |
| `GroupMods.SelectionOnSrcIpAndDstPort` | ofctrl/fgraphGroup.go:189-199 | hashing on source IP then destination port gives exactly a broadcast-address source-IP match and a 0xffff destination-port match, in that order |
| `GroupMods.ScanAcceptsOnlyActions` | ofctrl/fgraphGroup.go:220-229 | the instruction walk succeeds if and only if every instruction is an actions instruction, and then yields all their actions in order |
| `GroupMods.ScanStopsAtFirstBad` | ofctrl/fgraphGroup.go:220-224 | the walk stops at the first non-actions instruction, reports it, and keeps only the actions of the instructions before it |
| `FgraphGroup.GroupBundleMessage.ResetXid` | ofctrl/fgraphGroup.go:24-35 | only the transaction id changes; the updated message is returned, and afterwards `GetXid` returns the id given and `GetMessage` returns that same message |
| `FgraphGroup.Group.NewGroup` | ofctrl/fgraphGroup.go:167-173 | a new group has the given id, type and switch, no buckets, no properties, and is not installed |
| `FgraphGroup.Group.GetGroupModMessage` | ofctrl/fgraphGroup.go:108-144 | the message built with append loops is exactly `GroupModFor` of the group's id, type, properties and buckets for the command |
| `FgraphGroup.Group.GetBundleMessage` | ofctrl/fgraphGroup.go:146-149 | wraps a fresh copy of the command's message; sends nothing and changes no field |
| `FgraphGroup.Group.Install` | ofctrl/fgraphGroup.go:91-106 | sends exactly one message, ADD if not installed and MODIFY if installed; returns the send's error; the group is installed afterwards if and only if it was before or the send succeeded; buckets and properties do not change |
| `FgraphGroup.Group.AddBuckets` | ofctrl/fgraphGroup.go:66-74 | buckets become old buckets followed by the new ones; exactly one MODIFY of the new state is sent if installed, nothing otherwise; the installed flag does not change |
| `FgraphGroup.Group.ResetBuckets` | ofctrl/fgraphGroup.go:76-82 | buckets become exactly the given list; one MODIFY is sent if installed, nothing otherwise |
| `FgraphGroup.Group.AddProperty` | ofctrl/fgraphGroup.go:84-89 | the property is appended; one MODIFY is sent if installed, nothing otherwise |
| `FgraphGroup.Group.Delete` | ofctrl/fgraphGroup.go:151-165 | not installed: nothing is sent, the cache drops the id, and DeleteGroup's result is returned. Installed and the DELETE send fails: the error is returned, the group stays installed, and the cache is untouched. Installed and the send succeeds: the group is uninstalled, then the cache drops the id |
| `FgraphGroup.Group.SetSelectionMethod` | ofctrl/fgraphGroup.go:183-209 | appends exactly one selection-method property whose match list is `SelectionMatches` of the codes, and re-sends as `AddProperty` does |
| `FgraphGroup.Group.AddBucket` | ofctrl/fgraphGroup.go:211-233 | the bucket's flow is bound to the default table and compiled. A compile error is returned with nothing else changed. A non-actions instruction gives an error naming it, with the group's buckets unchanged and nothing sent. Otherwise all actions are appended to the bucket in order and exactly that one bucket is appended through `AddBuckets` |
| `FgraphGroup.FlowInstrInBucket` | ofctrl/fgraphGroup.go:46-64 | a group is a "group" element whose flow instruction applies its group action, which a bucket accepts; a table's goto instruction is refused |
| `FgraphGroup.InstallThenAddBucketsTwice` | ofctrl/fgraphGroup.go:66-106 | installing a SELECT group and adding buckets twice sends one ADD and two MODIFYs, the last carrying both lists in call order |
| `FgraphTable.Table.NewTable` | ofctrl/fgraphTable.go:99-104 | a new table has the given id and switch and no flow database yet |
| `FgraphTable.Table.TableElement` | ofctrl/fgraphTable.go:35-42 | a table is a "table" element whose flow instruction is goto-table with its id, never an actions instruction |
| `FgraphTable.Table.NewFlow` | ofctrl/fgraphTable.go:48-75 | a key already present gives a duplicate-flow error and leaves the database unchanged; otherwise a new uninstalled flow of this table with the match and no actions is stored under its key, other keys unchanged, and the invariant is kept |
| `FgraphTable.Table.DeleteFlow` | ofctrl/fgraphTable.go:78-91 | removes the key (a no-op if absent), leaves every other key, keeps the invariant, and returns no error |
| `FgraphTable.Table.KeysIdentifyFlows` | ofctrl/fgraphTable.go:63-72 | under the invariant no two stored flows share a match, so none share a key |
| `FgraphTable.Table.ReuseKeyAfterDelete` | ofctrl/fgraphTable.go:63-86 | deleting a match's key and then creating a flow for that match always succeeds |
| `FgraphTable.Table.DuplicateRefused` | ofctrl/fgraphTable.go:63-67 | after a first flow is created, a second flow with the same key is refused and the table's size grows by one only |
| `FgraphBucket.Bucket.NewBucket` | ofctrl/fgraphBucket.go:15-21 | a new bucket has the given id, no properties, no actions and a zero flow without a next element |
| `FgraphBucket.Bucket.SetOutput` | ofctrl/fgraphBucket.go:23-30 | the next element becomes a "port" output to the given port, replacing any earlier one; nothing else changes |
| `FgraphBucket.Bucket.SetTunnelSrcIp` | ofctrl/fgraphBucket.go:32-40 | an unspecified or loopback address leaves the bucket unchanged; any other address records the "TunSrc" IP field |
| `FgraphBucket.Bucket.SetTunnelDstIp` | ofctrl/fgraphBucket.go:42-50 | an unspecified or loopback address leaves the bucket unchanged; any other address records the "TunDst" IP field |
| `FgraphBucket.Bucket.SetWeight` | ofctrl/fgraphBucket.go:52-55 | appends exactly one weight property with the value; earlier properties are kept in order |
| `FgraphBucket.Bucket.SetWatchPort` | ofctrl/fgraphBucket.go:57-60 | appends exactly one watch-port property with the port |
| `FgraphBucket.Bucket.SetWatchGroup` | ofctrl/fgraphBucket.go:62-65 | appends exactly one watch-group property with the group id |
| `FgraphBucket.TunnelEndpointExamples` | ofctrl/fgraphBucket.go:32-37 | 0.0.0.0 and 127.0.0.1 are skipped, 10.0.0.1 is not, and a nil (unparsed) address passes the guard |
| `FgraphBucket.IgnoredIPv4Endpoint` | ofctrl/fgraphBucket.go:32-37 | an IPv4 tunnel endpoint is skipped exactly when it is 0.0.0.0 or in 127.0.0.0/8 |

## Left out

- Logging (`log/log.go`, `log/logrus.go`) and the logging calls in `NewFlow` and `DeleteFlow`: they have no effect on control flow.
- The table's mutex: `NewFlow` and `DeleteFlow` are modelled as atomic sequential methods.
- Wire encoding of the OpenFlow structures and transaction-id allocation. Built messages carry `UNALLOCATED_XID` until `ResetXid`.
- The switch connection's transport, handshake and own bookkeeping. `OFSwitch` is an abstract collaborator with a message log and fault switches; the group cache is only ever pruned here.
- `flowKey` (flow.go is not part of this model): each table holds it as the constant function `flowKey`, so any deterministic key function is covered.
- `GenerateFlowModMessage` (flow.go): `AddBucket` takes the flow compiler as the function parameter `generate`, applied to the flow's value; what it reads from the heap is not modelled.
- `Flow.SetIPField` and the `Output` element (flow.go, fgraphOutput.go): recorded as an `IPFieldAction` on the bucket's flow and an `OutputElem` next element; their validation and any re-install of an installed flow are not modelled.
- `net.ParseIP`: the tunnel setters take its result (`Option<Net.IP>`, None for nil) instead of the address text.
- Aliasing through Go references: groups store buckets and tables store flows by value. Later edits to a bucket after `AddBucket`, or to a flow returned by `NewFlow`, do not show through the group or the table as they do in Go.
- Aliasing of the bundle message: Go's holder keeps one `*GroupMod`, and `resetXid` and `GetMessage` return that same pointer, so a message fetched before `resetXid` shows the new xid. The model's `ResetXid` and `GetMessage` return values, so a copy fetched earlier keeps the old xid.
- `DEFAULT_GROUP_TYPE`: the library constructor `NewGroupMod` is not part of this model. The type it leaves on a message is taken to be the zero value of a `uint8`, which is GT_ALL.
- `GroupType` is a closed datatype. A Go `GroupType` int outside the four constants would leave the message's type at the library default; that case is not modelled.
- A typed-nil `*InstrActions` instruction, which `AddBucket` also rejects, is not modelled.
- The nil-versus-empty distinction of Go slices (the nil check in `AddBuckets`); it has no observable effect here.
- `Group.GetActionType` (returns a constant defined outside the core files), `Table.Delete` (an empty placeholder) and the unused `globalFlowID` counter.

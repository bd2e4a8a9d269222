# Verification of the zigbee2mqtt connector

A Dafny model of the parts of the connector that hold state machines or recursive transformations, with proofs of what they keep. `dafny verify dfyconfig.toml` checks the whole project.

| file | models |
|---|---|
| `Common.dfy` | JSON values, features, devices, device types; subsequences and filters |
| `FeatureTree.dfy` | the bits of an access mask and the nodes of an expose tree |
| `AckMatching.dfy` | which keys of a `set` payload a published state must show, and when a state shows them |
| `AckSections.dfy` | the critical sections of the acknowledgement registry, as functions on its abstract value, and the registry invariant |
| `AckRegistry.dfy` | the registry itself: a class over pointer-compared entries, each method equal to its section |
| `AckProtocol.dfy` | commands, timers, states, delivery goroutines and shutdown as one step system |
| `AckSafety.dfy` | the invariant of the step system, kept by every step |
| `AckRuns.dfy` | what follows for every run |
| `AckOutcomes.dfy` | which answer each command gets, and which states answer it |
| `SetHandling.dfy` | `handleSet` as straight code on the registry class |
| `Exposes.dfy` | the example message and the get request of an expose tree |
| `ContentVariables.dfy` | the translation of example messages to device-type schemas |
| `DeviceLoop.dfy` | handling one device, one pass, one event, and the steps of the device loop |
| `DeviceRuns.dfy` | what holds in every run of the loop: retry, back-off, conservation, event gate |
| `DeviceConnector.dfy` | the loop and the event handler as a class, refining the steps |
| `TypeKeys.dfy` | the key under which created device types are remembered |
| `DeviceTypes.dfy` | the timed list cache, the creation table and the table of known devices; their runs |
| `DeviceRepository.dfy` | the repository as a class, each method equal to its specification |
| `Registration.dfy` | the device loop and the event handling together with the repository they read |
| `DeviceRegister.dfy` | the register of the current device list with its two indexes |
| `RegisterWaits.dfy` | callers that wait for the first device list, as a step system with a clock |

How the outside is modelled: what zigbee2mqtt, the gateway and the platform answer is an input of a step or a method argument (a value or an error). What the connector does is a trace or a history. The clock is a sequence of integers that never decreases. JSON parsing, case folding, lower-casing with trimming and the evaluation of service conditions are function parameters, and nothing is assumed about them; two strings are equal under folding iff their images are equal. The step systems admit every interleaving of their steps, and the timer of a waiting command may fire at any time.

What the model found:

- The comment on `handleDeviceInfoUpdates` calls the recovered devices "registered now". After a new list a previously failing device that has become invalid is returned too, and its values are requested although it was never set (the run of `RecoveredButNeverSet`). On a retry pass the comment is right (`RecoveredByRetry`); in general a recovered device was set online iff it is valid (`RecoveredMeaning`).
- The repository's README says that the events of a device whose type cannot be read are dropped. A device resolved from an earlier list keeps its stored state and goes on sending (`FailingDeviceStillSends`). Events pass iff the last resolution for the address was of an enabled device (`AllowedIff`).
- The comment on `Register` reads a false result of cancel as "already answered". It can also mean that shutdown dropped the entry (`CancelFalse`, and the run of `CancelFalseUnanswered`), and then the command is never answered, however the run goes on (`LostForever`).
- The comments on the register's lookups promise no error when a wait ends cancelled before the first `Set`. The code then searches an empty index and returns the not-found error (the run of `CancelledLookupFails`); only `List` returns none (`AnsweredBeforeFirstSet`). This concerns callers with a context of their own: every caller in the repository passes none, and such a caller never reads a register that was not set (`NilContextIsSafe`). A lookup whose wait was not ended by its deadline succeeds iff the list has the key (`FoundIff`).
- The printed creation key is not injective on all pairs: a vendor or model that contains ";model=" can share the key of another product (`KeysCollide`, `KeyUnambiguousIff`).
- One query can load the list up to three times (`SlowQueryLoadsThrice`). It loads at most once unless its reload is forced and succeeds, and either the first listing had loaded already or the reloaded list is too old again (`AtMostOneLoadIff`); a query no longer than the minimum cache duration never does more (`AtMostOneLoad`).
- A known device whose type id is not listed is registered with that id, while its events take the services of the first vendor and model match (`TypesCanDisagree`). The two agree iff the list the id lookup ends with has the id, or the match happens to have it (`TypesAgreeIff`).
- An accessible enum without values, like any accessible feature without an example, puts a null into the example message, and the translation to a content variable then panics in Go: with creation enabled, such a device without a matching type stops the process (`CreationCanPanic`). For every definition `CreatableExactly` says when: at each key the last contributing feature decides, and a composite keeps what earlier objects have beside it. Where no two contributing features of a list share a key, the condition is that something accessible lacks an example (`CreatableIff`).
- With two devices of one address, a `set` command can be checked against the exposes of the device that is not indexed (`ScanCanDisagree`). The scan and the index pick the same device iff the first and the last listed device of the address are equal (`ScanAgreesIff`), and the same exposes iff those two expose the same (`ExposesAgreeIff`).

## Model

| member | source | states |
|---|---|---|
| AckMatching.ValueMatchesMeaning | pkg/connector/ack.go:127-166 | a value matches iff the expectation is "toggle" or the two agree: containers with everything, scalars with the same kind and value |
| AckMatching.ValueMatchesSymmetry | pkg/connector/ack.go:127-166 | matching is symmetric, and differs between its two directions exactly when one side is "toggle", the other is not, and they do not agree |
| AckMatching.AgreeMeaning | pkg/connector/ack.go:127-166 | agreement kind by kind: containers with anything, strings up to case, numbers, booleans and nulls if equal, scalars of different kinds never |
| AckMatching.AckMatches | pkg/connector/ack.go:114-125 | the loop, in any map order, answers whether the state satisfies the expectation |
| AckMatching.MatchesMeaning | pkg/connector/ack.go:114-125 | a state satisfies an expectation iff it has every expected key with a value that agrees or is expected to toggle |
| AckMatching.PropertySet.Collect | pkg/connector/ack.go:100-111 | filling the accumulator in place over the nested tree marks exactly the occurring properties, published iff some occurrence is |
| AckMatching.OccurrencesMeaning | pkg/connector/ack.go:100-111 | the pairs collected are exactly those of the nodes with a property, at any depth |
| AckMatching.AccumulatedTrans | pkg/connector/ack.go:98-111 | accumulating two sets of occurrences one after the other is accumulating their union, so the order does not matter |
| AckMatching.AckExpectation | pkg/connector/ack.go:70-96 | the method returns the comparable part of the payload, and reports ok iff the payload is an object or null with a comparable key |
| AckMatching.KeptIsExpectation | pkg/connector/ack.go:80-94 | the three skip conditions of the loop keep exactly the keys other than transition that are published by some occurrence and occur in a known last state |
| AckMatching.ExpectationMeaning | pkg/connector/ack.go:70-96 | a command waits for exactly the payload keys other than "transition" that some node has with access 0 or bit 1, if there is a definition, and that the last state has, if one is known; each with its payload value |
| AckMatching.ParseMeaning | pkg/connector/ack.go:71-74 | a payload is an object, or null for no entries; nothing else |
| AckMatching.EchoSatisfies | pkg/connector/ack.go:70-166 | any state that extends the payload satisfies the expectation derived from it, whatever the definition and the last state |
| AckMatching.MatchesMonotone | pkg/connector/ack.go:114-125 | fewer expected keys and more state keys keep a match |
| AckMatching.ExpectationMonotone | pkg/connector/ack.go:70-96 | a larger last state and more occurrences only add keys to wait for |
| AckMatching.ExpectationOrderFree | pkg/connector/ack.go:70-111 | definitions with the same (property, access) pairs give the same expectation, in any order and nesting |
| AckSections.RegisterKeepsInv | pkg/connector/ack.go:225-243 | registering keeps the registry invariant (lists in registration order, no empty list, pending entries listed and timed) and changes no other entry |
| AckSections.RemoveMeaning | pkg/connector/ack.go:253-267 | removal succeeds iff the entry is pending, and then the list loses exactly it |
| AckSections.CancelKeepsInv | pkg/connector/ack.go:241-249 | cancel keeps the invariant, reports true iff the entry was pending, and no terminal status changes |
| AckSections.ExpireKeepsInv | pkg/connector/ack.go:316-322 | expire keeps the invariant and removes iff the entry was still pending |
| AckSections.MatchMeaning | pkg/connector/ack.go:283-297 | a state collects exactly the pending entries of its device that it satisfies, and settles those only |
| AckSections.MatchLists | pkg/connector/ack.go:290-297 | the device's list loses exactly the collected entries; the lists of other devices are unchanged |
| AckSections.MatchKeepsInv | pkg/connector/ack.go:283-297 | the match section keeps the invariant and collects in registration order |
| AckSections.CloseKeepsInv | pkg/connector/ack.go:210-220 | close drops exactly the pending entries and keeps the invariant |
| AckRegistry.Acks.Register | pkg/connector/ack.go:225-243 | the method is the register section on the abstract value; null iff closed |
| AckRegistry.Acks.RemoveLocked | pkg/connector/ack.go:253-267 | searching by pointer and rebuilding the list is the removal by registration index |
| AckRegistry.Acks.Cancel | pkg/connector/ack.go:241-249 | the method is the cancel section |
| AckRegistry.Acks.Expire | pkg/connector/ack.go:316-322 | the method is the expire section |
| AckRegistry.Acks.Close | pkg/connector/ack.go:210-220 | the loops over the pending lists stop every timer and drop every pending entry |
| AckRegistry.Acks.MatchPending | pkg/connector/ack.go:285-297 | iterating a snapshot while the live list is rebuilt collects and leaves exactly what the match section says |
| AckRegistry.Acks.Observe | pkg/connector/ack.go:276-299 | undisturbed, the method is its two sections with the parse between them |
| AckSafety.StepKeepsInv | pkg/connector/ack.go:192-329 | every step of the protocol keeps the system invariant: command and entry, delivery and notice, wait group and timers agree |
| AckSafety.ObserveMatchesKeeps | pkg/connector/ack.go:283-305 | so does the match section with its deliveries, although other steps ran since the pending check |
| AckRuns.EntriesPartition | pkg/connector/ack.go:210-329 | in every run the registered entries are the disjoint union of pending, matched, expired, cancelled and dropped; a pending one has an armed timer or an outstanding expire call; no list in the map is empty |
| AckRuns.StatusFinal | pkg/connector/ack.go:210-329 | a terminal status, the identity of an entry and the closed flag never change again |
| AckRuns.AtMostOneAnswer | pkg/connector/command.go:46-105 | in every run a command has at most one terminal answer, to its own id; an error after a response only if that response failed; none with a foreign prefix |
| AckRuns.AnswersGrow | pkg/connector/command.go:46-105 | no answer is taken back |
| AckRuns.ExactlyOneUnlessLost | pkg/connector/command.go:76-105 | a finished command with nothing outstanding has exactly one terminal answer, and none iff shutdown took it |
| AckRuns.OpenLosesNothing | pkg/connector/ack.go:210-220 | without a shutdown nothing is lost |
| AckRuns.AnswerMeaning | pkg/connector/ack.go:276-329 | a waiting command is answered with a state of its device that has every key waited for, with a value that agrees or is to toggle; times out only if expired; and reports a failed publish only if cancelled |
| AckRuns.CancelFalse | pkg/connector/command.go:86-95 | cancel answers false exactly for an entry matched, expired or dropped, and the command then says nothing |
| AckRuns.CancelFalseUnanswered | pkg/connector/ack.go:222-224 | a run of a command with the payload {"state":"ON"} in which cancel is false because shutdown dropped the entry, and nobody has answered the command |
| AckRuns.LostForever | pkg/connector/ack.go:210-220 | a finished command whose answer shutdown took is never answered later |
| AckRuns.WaitGroupShare | pkg/connector/ack.go:192-208 | the registry's share of the wait group is the watcher plus the deliveries in flight |
| AckRuns.StepShare | pkg/connector/ack.go:298-305 | a delivery is added only while the share is at least one and the watcher waits |
| AckRuns.ShareStaysZero | pkg/connector/ack.go:192-220 | once the share is zero it stays zero and nothing is delivered |
| AckRuns.EchoAnswers | pkg/connector/ack.go:276-306 | an echo of the payload is not turned away and answers the waiting command |
| AckRuns.CanFinish | pkg/connector/command.go:76-105 | from every reachable state the remaining steps of a command can be taken until nothing of it is outstanding |
| AckOutcomes.UnacknowledgedSet | pkg/connector/command.go:76-105 | in every run a finished "set" command without an entry had acknowledgement off or nothing to wait for; it gets exactly the publish error after a failed publish, and the empty response, with an error only if that failed, after a successful one |
| AckOutcomes.LateSet | pkg/connector/command.go:86-97 | a command that found the registry closed gets the publish error after a failed publish and nothing after a successful one |
| AckOutcomes.WaitingSet | pkg/connector/command.go:76-105 | a waiting command at rest is answered by what became of its entry: a response if matched, a timeout if expired, a publish error if cancelled, nothing if dropped |
| AckOutcomes.GetOutcome | pkg/connector/command.go:54-68 | a "get" command is answered with exactly what its read returned, or with a read error iff the read failed |
| AckOutcomes.OtherOutcome | pkg/connector/command.go:46-71 | any other service is refused, and a foreign device id gets nothing |
| AckOutcomes.PublishHistory | pkg/connector/command.go:84-104 | the publish outcome these refer to is that of the one publish step of the command in the run |
| AckOutcomes.ReadHistory | pkg/connector/command.go:55-67 | and the read outcome that of its one read step |
| AckOutcomes.ArrivalHistory | pkg/connector/command.go:46-71 | every command is one that arrived, with the device, service, id and data it arrived with |
| AckOutcomes.CommandReachesDevice | pkg/connector/device.go:237-246 | a command sent to the id of a device is handled for the address of that device |
| AckOutcomes.ObserveStarts | pkg/connector/ack.go:276-282 | in every run a published state goes on to the matching iff an entry of its device is pending |
| AckOutcomes.AnsweredIffShown | pkg/connector/ack.go:283-306 | and the matching answers a pending command iff the payload is a state of its device that has every key waited for, each with a value that agrees or is to toggle; otherwise the entry stays as it is and no delivery starts |
| SetHandling.Client.HandleSet | pkg/connector/command.go:76-105 | the command loop answers a waiting command only if its publish failed and no matching state, deadline or shutdown took its entry meanwhile; any other command is answered at once |
| SetHandling.ObserveEffect | pkg/connector/ack.go:276-299 | an observed state takes an entry off iff it is a state of its device that satisfies it |
| SetHandling.TakesMeaning | pkg/connector/ack.go:276-299 | which is: it has every key waited for with a value that agrees or is to toggle |
| SetHandling.Client.LoopAnswersMeaning | pkg/connector/command.go:76-105 | the answers of the command loop for every combination of waiting, publish and response outcome |
| FeatureTree.HasAccessOr | pkg/zigbee2mqtt/devices.go:180-182 | an access has a bit of a combined mask iff it has one of a part, also for negative numbers |
| FeatureTree.HasAccessBits | pkg/zigbee2mqtt/devices.go:180-182 | access and mask share a bit: at some position both have a one, also for negative numbers |
| FeatureTree.AccessBits | pkg/zigbee2mqtt/devices.go:180-182 | the masks 1, 2 and 4 test the first, second and third bit |
| Exposes.GetZigbeeMessageStructOfFeatureList | pkg/zigbee2mqtt/devices.go:108-171 | the recursive loop with its merges builds the message defined on the tree |
| Exposes.MessageKeys | pkg/zigbee2mqtt/devices.go:108-171 | the keys of the message are the union of what each feature contributes on its own |
| Exposes.KeysMeaning | pkg/zigbee2mqtt/devices.go:108-171 | a property is in the message iff a node reached through property-less nodes gives it: an accessible leaf of one of the five kinds, or a composite that is accessible or has below it a leaf or composite that gives something |
| Exposes.KeysIffLive | pkg/zigbee2mqtt/devices.go:108-171 | the keys are non-empty iff some node at any depth is accessible and is a leaf of one of the five kinds or a composite with a property |
| Exposes.LeafExample | pkg/zigbee2mqtt/devices.go:136-167 | the example of each kind: the maximum or 42 for a number, the "on" value, the first enum value, "text", a list of one item or none |
| Exposes.LastContributor | pkg/zigbee2mqtt/devices.go:108-171 | features that do not contribute a property leave its value alone, so the last contributor decides |
| Exposes.KeysDistribute | pkg/zigbee2mqtt/devices.go:108-171 | the keys for a combined access are the union of the keys for its parts, through composites with and without property |
| Exposes.MessageKeysDistribute | pkg/zigbee2mqtt/devices.go:108-171 | the same for the messages |
| Exposes.KeysOrderFree | pkg/zigbee2mqtt/devices.go:108-171 | the order of the features, at any depth, does not change the keys |
| Exposes.CompositesMerge | pkg/zigbee2mqtt/devices.go:117-130 | if only composites of a property contribute it, however many and wherever listed, the message has one object for it: all of them combined |
| Exposes.CombinedMeaning | pkg/zigbee2mqtt/devices.go:119-127 | that object has the keys of all of them, each with the value of the last composite that gives it |
| Exposes.MessageNullFree | pkg/zigbee2mqtt/devices.go:136-167 | if every accessible binary, enum and plain list item has an example, the message holds no null at any depth |
| Exposes.NullFreeExactly | pkg/zigbee2mqtt/devices.go:108-171 | for every definition the message holds no null iff what survives at each key is clean: the last contributor decides, and a composite keeps what earlier objects have beside it |
| Exposes.GetZigbeeGetMessage | pkg/zigbee2mqtt/event.go:86-101 | the worklist that grows while it is scanned ends and requests exactly the properties reachable through property-less features with access 0 or the get bit |
| Exposes.RequestedMeaning | pkg/zigbee2mqtt/event.go:86-101 | a property is requested iff a node reached through property-less nodes has it with access 0 or bit 4 |
| Exposes.RequestedOrderFree | pkg/zigbee2mqtt/event.go:86-101 | independently of the order of the features at any depth |
| ContentVariables.ItoaInjective | pkg/connector/device.go:381-383 | the decimal names of list children are distinct |
| ContentVariables.ItoaMeaning | pkg/connector/device.go:381-383 | they are the decimal digits of the index, without a leading zero |
| ContentVariables.ValueToContentVariable | pkg/connector/device.go:364-396 | the translation succeeds iff the value holds no null, and its result describes the value: list children named "0" to "n-1" in order, struct children by key, each once |
| ContentVariables.SchemaPaths | pkg/connector/device.go:364-396 | the schema has exactly the paths of the value, with its types |
| ContentVariables.SchemaTypes | pkg/connector/device.go:371-394 | the type at each path is the one for the kind of the value there |
| ContentVariables.DescribeMessage | pkg/connector/device.go:317-362 | for a definition with examples the translation of its message never fails |
| ContentVariables.ZigbeeDeviceToDeviceType | pkg/connector/device.go:317-362 | a draft type has a "set" service iff a message can be sent and a "get" service iff one is published, each describing the example; it fails iff an example holds a null |
| ContentVariables.DraftServices | pkg/connector/device.go:317-362 | a draft has the three attributes of its device, a "set" service iff such a node has bit 2 and a "get" service iff one has bit 1 |
| ContentVariables.PureSensorHasNoSet | pkg/connector/device.go:331-345 | a device of which no node has bit 2 gets no "set" service |
| ContentVariables.CreatableExactly | pkg/connector/device.go:317-362 | for every definition the draft can be made iff what survives at each key of its two messages is clean |
| ContentVariables.CreationCanPanic | pkg/connector/device.go:392-394 | a valid device whose message holds a null |
| DeviceLoop.PassConserves | pkg/connector/device.go:85-102 | failed, recovered and other devices of a pass are together its list, with multiplicity |
| DeviceLoop.PickedInOrder | pkg/connector/device.go:85-102 | each of the three is a subsequence of the list |
| DeviceLoop.FailedIffUnreadable | pkg/connector/device.go:90-96 | a pass leaves nothing to retry, and no error, iff no valid device had a failing type read |
| DeviceLoop.FailedIffRetried | pkg/connector/device.go:90-96 | failed are exactly the valid devices whose type read failed with an error other than no-match, with the five conditions of validity |
| DeviceLoop.RecoveredMeaning | pkg/connector/device.go:97-99 | a recovered device is enabled and was failing; if valid it was set online in this pass, if invalid nothing was done |
| DeviceLoop.RecoveredIff | pkg/connector/device.go:97-99 | recovered are exactly the enabled devices that were failing and are invalid, or have a type, read or created, and were taken by the gateway |
| DeviceLoop.LastErrorMeaning | pkg/connector/device.go:92-96 | the error of a pass is that of the last device whose read failed |
| DeviceLoop.HandlingMeaning | pkg/connector/device.go:137-179 | what the handling of one device does and reports, for every validity, read, creation and gateway outcome |
| DeviceRuns.RecoveredButNeverSet | pkg/connector/device.go:81-102 | a run that requests the values of a recovered device that was never set |
| DeviceLoop.SelectedMeaning | pkg/connector/event.go:101-110 | the selected services are exactly those whose condition evaluates to true, in the order of the type |
| DeviceLoop.CheckServiceAttrCondition | pkg/connector/event.go:115-127 | true iff the service has an attribute with the key "mgw-service-selection-condition" and the first one evaluates to true |
| DeviceLoop.GetServiceIds | pkg/connector/event.go:94-111 | "get" and the selected services, or nothing if the payload is not JSON |
| DeviceLoop.EventMeaning | pkg/connector/event.go:49-65 | an event goes nowhere if the gate is closed, becomes a device error if type or payload cannot be read, and else goes to "get" and then to exactly the services whose first attribute with the condition key evaluates to true; every one is tried, and a device error follows each failed send and nothing else |
| DeviceRuns.StepKeepsInv | pkg/connector/device.go:42-102 | every step of the loop, and every event between or within passes, keeps the loop invariant |
| DeviceRuns.LoopHead | pkg/connector/device.go:39-79 | between passes of any run: failed is a subsequence of the last list, failed and finished devices are that list, the timer is armed iff there are failed ones, and after k retries the delay is min(2^k, 60) seconds, within 1 and 60 |
| DeviceRuns.BackoffValues | pkg/connector/device.go:39-64 | the delays are 1, 2, 4, 8, 16, 32 seconds and then a minute |
| DeviceRuns.EventGate | pkg/connector/event.go:49-69 | in any run an event is sent only if the last resolution for its address was of a valid enabled device |
| DeviceRuns.AllowedIff | pkg/connector/event.go:67-69 | and the gate is open exactly then |
| DeviceRuns.SentMeaning | pkg/connector/event.go:94-127 | in every run each event sent to another service than "get" is for a service of the looked-up type whose first attribute with the condition key evaluates to true |
| DeviceRuns.TakersReached | pkg/connector/event.go:49-65 | and in every run each event for which the gate was open is sent to "get" and to every such service |
| DeviceRuns.FailingDeviceStillSends | pkg/connector/device.go:159-164 | a run in which a device waits for its retry and its events are sent |
| DeviceRuns.RefreshedIff | pkg/connector/device.go:66-68 | in every run the values of a device are requested at the end of a pass iff it is enabled, had a failing type read before, and was handled without an error in the pass |
| DeviceRuns.RecoveredByRetry | pkg/connector/device.go:62-67 | a device recovered by a retry pass is enabled, was failing, and was set online successfully in that pass |
| DeviceRuns.ReadableAgain | pkg/connector/device.go:69-75 | after a pass the timer is off iff no read failed |
| DeviceRuns.OnlyResolvedStored | pkg/connector/device.go:137-179 | a stored state changes only by handling a valid device of that address whose type was read or created |
| DeviceRuns.OnlyValidSet | pkg/connector/device.go:137-179 | in every run a device is set at the gateway only if it is supported, interviewed and has vendor, model and exposes, under its own id and name, online iff enabled, with the type resolved for it |
| DeviceConnector.Connector.HandleDeviceInfoUpdate | pkg/connector/device.go:137-179 | the report, the stored state and the outside effects of every branch |
| DeviceConnector.Connector.HandleDeviceInfoUpdates | pkg/connector/device.go:85-102 | the loop returns the failed and recovered classes and the last error, with any events handled between its devices |
| DeviceConnector.Connector.ReceiveList | pkg/connector/device.go:58-75 | receiving a list is one whole pass of the step system, and leaves a reachable state |
| DeviceConnector.Connector.ReceiveTimer | pkg/connector/device.go:62-75 | so is a retry |
| DeviceConnector.Connector.HandleEvent | pkg/connector/event.go:49-65 | at any time, also within a pass, handling an event is the event step; a failed send is reported and does not stop the others |
| DeviceConnector.ReachedPass | pkg/connector/device.go:52-76 | a whole pass, with any events in between, extends every run that is between passes |
| DeviceTypes.SearchMeaning | pkg/devicerepo/devicerepo.go:204-217 | the search answers the first element that fits, or that none does |
| DeviceTypes.SearchForDevice | pkg/devicerepo/devicerepo.go:204-217 | the search for a device answers the first type with a vendor and a model attribute that equal its own after normalisation, and none iff no listed type has both |
| DeviceTypes.OtherModelIsNoMatch | pkg/devicerepo/devicerepo.go:210-214 | a type of the same vendor for another model is no match |
| DeviceTypes.FindMeaning | pkg/devicerepo/devicerepo.go:155-199 | what a query answers is so in the list it ends with |
| DeviceTypes.FirstLoad | pkg/devicerepo/devicerepo.go:123-199 | when a query loads first, and when it answers from the list as it is |
| DeviceTypes.AnswersAreFresh | pkg/devicerepo/devicerepo.go:123-199 | a found type is the first match of a list at most max old, a no-match holds for a list at most min old |
| DeviceTypes.FailsIff | pkg/devicerepo/devicerepo.go:123-199 | a query fails iff a load that was due failed |
| DeviceTypes.FailedLoadKeepsList | pkg/devicerepo/devicetypeslist.go:39-50 | a query that fails leaves list and time stamp as the last load of it that succeeded left them, or as they were |
| DeviceTypes.AtMostOneLoadIff | pkg/devicerepo/devicerepo.go:123-199 | the exact condition under which a query loads at most once |
| DeviceTypes.AtMostOneLoad | pkg/devicerepo/devicerepo.go:123-199 | a query no longer than min loads at most once |
| DeviceTypes.SlowQueryLoadsThrice | pkg/devicerepo/devicerepo.go:123-199 | a slow query that loads three times |
| DeviceTypes.LoadRate | pkg/devicerepo/devicetypeslist.go:28-50 | in any stretch of a run with n loads and c creation resets, (n - 1 - c) * min is at most the time from first to last load |
| DeviceTypes.TypesAgree | pkg/connector/device.go:260-270 | a known device is registered with its remembered id, and while that id is in a list that is not outdated its events get the type with it; an unknown device gets the first match of the same list for both |
| DeviceTypes.TypesAgreeIff | pkg/connector/event.go:83-92 | the events of a known device get the type it is registered with iff the list its id lookup ends with has the id, or else the first match of the second lookup has it |
| DeviceTypes.TypesAgreeIffListed | pkg/connector/event.go:83-92 | while the list is too young to be reloaded: iff the cached list has the id or its first match has it |
| DeviceTypes.TypesCanDisagree | pkg/connector/event.go:78-92 | a run after which a valid known device is registered with one type id and sends with the services of another |
| DeviceTypes.KnownIsSticky | pkg/devicerepo/devicerepo.go:100-119 | once a device's type id was answered, it is answered for ever |
| DeviceTypes.KnownMeaning | pkg/devicerepo/devicerepo.go:100-119 | a remembered device keeps its id; any other is what the platform says, and is remembered iff the platform has it |
| DeviceTypes.TypesAgreeLater | pkg/connector/event.go:83-92 | in any later state of the run every registration uses that id, and so does every event while the id is in a list that is not outdated |
| DeviceTypes.OnePostPerKey | pkg/devicerepo/devicemanager.go:33-73 | in every run at most one POST per key succeeds, and its result is the remembered one |
| DeviceTypes.CreationIsSticky | pkg/devicerepo/devicemanager.go:38-41 | every later creation with the key answers the same result and changes nothing |
| DeviceTypes.CreationForcesReload | pkg/devicerepo/devicemanager.go:33-73 | every tried POST, also a failed one, makes the next query load the list first; only a successful one is remembered |
| DeviceTypes.CreatedTypeMatches | pkg/connector/device.go:317-331 | the type created for a device matches the device, and is remembered under its vendor and model |
| DeviceTypes.CreatedIsFound | pkg/devicerepo/devicemanager.go:43-43 | after a POST the next query reloads and finds a type for the device if the platform lists the created one |
| Registration.LookupsAgree | pkg/connector/device.go:260-270 | in the joint system a device is read as getDeviceTypeId reads it, and the repository ends as that leaves it |
| Registration.EventLookupsAgree | pkg/connector/event.go:83-92 | and an event leaves the repository as getEventDeviceType does |
| Registration.JointRunIsBoth | pkg/connector/device.go:42-179 | every joint run is a run of the device loop and a run of the repository, so what holds in theirs holds in it |
| Registration.KnownDeviceKeepsType | pkg/connector/device.go:260-270 | in every joint run, from the moment a device is known with a type id, it is set at the gateway with that id only |
| Registration.KnownDeviceSendsWithType | pkg/connector/event.go:83-92 | its events use the services of that type, without a load, while a list that is not outdated has it |
| TypeKeys.GetDtVendorModelKey | pkg/devicerepo/devicemanager.go:93-99 | the key is printed from the last vendor and model attribute |
| TypeKeys.LastValueMeaning | pkg/devicerepo/devicemanager.go:93-99 | the last attribute with the key counts; without one the value is empty |
| TypeKeys.KeyInjective | pkg/devicerepo/devicemanager.go:93-99 | the key is injective on pairs whose vendor does not contain ";model=" |
| TypeKeys.KeyUnambiguousIff | pkg/devicerepo/devicemanager.go:93-99 | a pair has its key for itself iff neither part contains ";model=" |
| TypeKeys.KeysCollide | pkg/devicerepo/devicemanager.go:93-99 | two products with one key |
| DeviceRepository.GetMatchingDeviceType | pkg/devicerepo/devicerepo.go:204-217 | building and checking the attribute map of each type finds the first type with a normalised vendor and model match; a type found has both, and none is found only if no type has both |
| DeviceRepository.GetDeviceTypeById | pkg/devicerepo/devicerepo.go:146-153 | the first type with the id |
| DeviceRepository.DeviceRepo.ListZigbeeDeviceTypes | pkg/devicerepo/devicetypeslist.go:28-37 | the list, reloaded iff older than max |
| DeviceRepository.DeviceRepo.RefreshDeviceTypeList | pkg/devicerepo/devicetypeslist.go:39-50 | list and time stamp change only by a load that succeeds |
| DeviceRepository.DeviceRepo.GetDeviceType | pkg/devicerepo/devicerepo.go:123-144 | the query for an id, with the reloads it causes |
| DeviceRepository.DeviceRepo.FindDeviceType | pkg/devicerepo/devicerepo.go:178-199 | the query for a device |
| DeviceRepository.DeviceRepo.FindDeviceTypeId | pkg/devicerepo/devicerepo.go:155-176 | answers the id of the type that query answers |
| DeviceRepository.DeviceRepo.GetKnownDeviceDeviceTypeId | pkg/devicerepo/devicerepo.go:100-119 | the remembered id, else the platform's, which is then remembered |
| DeviceRepository.DeviceRepo.CreateDeviceTypeWithDistinctAttributes | pkg/devicerepo/devicemanager.go:33-73 | the remembered type of the key, else the outcome of a POST; the list is outdated as soon as it is tried |
| DeviceRepository.DeviceRepo.GetDeviceTypeId | pkg/connector/device.go:260-270 | the type id a device is registered with |
| DeviceRepository.DeviceRepo.GetEventDeviceType | pkg/connector/event.go:83-92 | the type that selects the services of an event, and the loads it took |
| DeviceRegister.DeviceRegister.Set | pkg/zigbee2mqtt/register.go:68-85 | both indexes equal a last-match search of the new list; true for the first call only, and the wait group is released once |
| DeviceRegister.DeviceRegister.GetByIeee | pkg/zigbee2mqtt/register.go:92-106 | the last device with the address, found iff the list has one, never before the first Set; or the error of an expired wait |
| DeviceRegister.DeviceRegister.GetByFriendlyName | pkg/zigbee2mqtt/register.go:113-127 | the same by name |
| DeviceRegister.LastMatchMeaning | pkg/zigbee2mqtt/register.go:74-77 | what a rebuilt index holds for a key: the last device of the list with it |
| DeviceRegister.ScanAgreesIff | pkg/connector/command.go:121-132 | the first-match scan and the index find the same device iff the first and the last listed device of the address are equal |
| DeviceRegister.ExposesAgreeIff | pkg/connector/command.go:121-132 | the scan answers the exposes of the indexed device iff those two expose the same |
| DeviceRegister.ScanAgreesWithIndex | pkg/connector/command.go:121-132 | so they agree if devices that share an address are equal, as with unique addresses |
| DeviceRegister.ScanCanDisagree | pkg/connector/command.go:126-130 | two devices of one address for which the scan answers other exposes than the indexed device has |
| DeviceRegister.GetExposes | pkg/connector/command.go:121-132 | the exposes of the first device with the address, or none |
| RegisterWaits.DeadlineError | pkg/zigbee2mqtt/register.go:47-66 | in any run a caller gets the deadline error iff its deadline ended the wait; it had then asked before the first Set, without a context a minute ago or more |
| RegisterWaits.AnsweredBeforeFirstSet | pkg/zigbee2mqtt/register.go:87-106 | before the first Set only a deadline or the caller's cancel ends a wait, and after a cancel lookups fail with not found while List answers the empty list |
| RegisterWaits.NilContextIsSafe | pkg/zigbee2mqtt/register.go:51-53 | a caller without a context never reads a register that was not set |
| RegisterWaits.FoundIff | pkg/zigbee2mqtt/register.go:91-139 | without a deadline error a lookup succeeds iff the list it read has the key, with a device of that key, and List answers that list |
| RegisterWaits.CanBeAnswered | pkg/zigbee2mqtt/register.go:55-65 | after the first Set every waiting caller can be answered at once, and not with a deadline error |
| RegisterWaits.CancelledLookupFails | pkg/zigbee2mqtt/register.go:87-106 | a run in which a cancelled lookup fails although its comment promises no error |

## Left out

- MQTT and HTTP clients, subscriptions, tokens and connection handling: their outcomes are inputs.
- The parsers and evaluators of libraries (encoding/json, EqualFold, ToLower, TrimSpace, govaluate): function parameters.
- Configuration parsing, logging, message texts (GetMissingDeviceTypeMessage among them) and the sleeps.
- The value cache and retained filter of the zigbee client's eventHandler: which states reach the registry is an input of the step system.
- Go memory-model races on lastDtRefresh and register.init: each repository or register call is one step.
- Aliasing of maps: messages are values, so a definition's ValueOn object is not shared with a message that merges into it.
- Channel buffering: lists, events and commands arrive in any order.
- Durations of timers: a waiting command's timer and the retry timer may fire at any time after they are armed.
- Fields of content variables and device types that no property needs (OmitEmpty, IsVoid, protocol ids, names, interaction).
- A duration that exceeds what Go's time.Since can return: the zero time stamp counts as older than every duration.
- SetHandling.Client.HandleSet: covers one command with actions on the registry during its publish; several commands in progress at once are the step system's.
- Exposes.MessageNullFree: one direction only, because a null of one feature can be overwritten by another feature with the same property; NullFreeExactly is both directions for every definition.
- A command error that cannot be sent is not observed by the source, and counts as sent here.

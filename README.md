# Splinter core, modelled in Dafny

This project models five pieces of the Splinter repository and proves properties of them.

- **The routing table of a circuit** (`routing.dfy`, module `Routing`).
  - The value types: `Circuit`, `CircuitNode`, `Service` and the composite key `ServiceId`, with its `into_parts` and its display form `<circuit>::<service>`.
  - The ordering of `CircuitNode`, which compares node ids only.
  - The in-memory routing table, modelled as a class `RoutingTable` with three directories:
    - nodes by node id;
    - circuits by circuit id;
    - services by `ServiceId`.
  - The writer operations are methods that update the table. They are `add_service`, `remove_service`, `add_circuit`, `add_circuits`, `remove_circuit`, `add_node`, `add_nodes` and `remove_node`.
  - The reader operations are functions, or read-only methods for the listings.
  - Each writer is specified by the new value of every directory. The directory updates are specified by the functions `InsertAll` and `InsertAbsent`, and their lemmas say which entry wins (see below).
- **Argument resolution of circuit templates** (`template_rules.dfy`, module `TemplateRules`).
  - A value written `$(name)` refers to the rule argument `name`.
  - `strip_arg_marker` extracts and lowercases the name.
  - `get_argument_value` looks the name up and returns, in order of preference:
    - the user's value;
    - otherwise the error for a required argument;
    - otherwise the default, following it when it is itself a reference.
- **The `set-metadata` rule** (`set_metadata.dfy`, module `SetMetadata`).
  - It renders a list of JSON entries into the text of a JSON object, `{"k":"v","l":["a","b"]}`.
  - Argument references among the values are resolved first.
  - Any failed resolution fails the whole rule.
- **The supplychain daemon's circuit proposal** (`supplychain_routes.dfy`, module `SupplychainRoutes`):
  - resolving the requested member ids against the node registry's listing;
  - building the member list, with the local node last;
  - building one `scabbard` service per member, with ids `gr00`, `gr01`, … and each service's peer list;
  - the `offset`/`limit` defaults of the supplychain listing.
- **The gameroom app's notification store** (`notifications.dfy`, module `Notifications`, class `NotificationState`) and **its display filter** (`notification_api.dfy`, module `NotificationApi`).
  - Getters:
    - sort the list newest first, in place;
    - count the unread notifications.
  - Mutations:
    - replace the list;
    - append to it;
    - replace the first notification with a given id.
  - The filter shows proposals, circuit activations and created games, but never the user's own proposals.

`types.dfy` holds `Option` and `Result`. `text.dfy` holds the string helpers the modules share: prefixes, `join`, and printing and parsing decimal numerals.

## Behaviour the model fixes

- **Routing table: what the model chooses.** The source of the in-memory implementation of the routing table (`libsplinter/src/circuit/routing/memory`) is not among the files modelled; the class `RoutingTable` stands for it. Its writer methods follow what the `RoutingTableWriter` trait documents. Where the documentation is silent about existing keys, the model chooses map semantics:
  - `add_service`, `add_node`, `add_nodes` and `add_circuits` replace an existing entry, and a later entry of a batch replaces an earlier one.
  - `add_circuit` stores the circuit under its `circuit_id` argument. It stores each roster service under (that id, service id), and adds only the nodes whose id is not in the directory yet.
  - `add_circuits` stores each circuit under its own `circuit_id`.
  - `remove_circuit` removes the keys of the stored circuit's roster.
  - `list_service` lists the entries of the service directory whose key names the circuit, rather than the stored circuit's roster. An unknown circuit gives an empty list, not an error.
- **Routing table: what the model does not claim.** The trait's signatures return `Result`, but the trait does not say when a writer fails. An implementation could refuse a key that is already present; the trait and its documentation name no such error, so the model raises none and replaces the entry instead.
- **Argument resolution: the recursion bound.** `get_argument_value` recurses through defaults of the form `$(..)` without a bound, so on a cycle of defaults it recurses until the stack overflows.
  - The model gives the function a `fuel` parameter.
  - When the fuel runs out, the function returns the extra error `RecursionLimit`.
  - `FuelMonotone` proves that more fuel changes no other outcome.
  - `SelfReferenceNeverResolves` proves that a key whose argument's default refers back to the same name runs out of fuel, whatever the fuel and the argument list.
- **Lowercasing** is ASCII lowercasing.
- **A `usize`** is 64 bits wide. `DEFAULT_OFFSET` and `DEFAULT_LIMIT` are parameters.
- **The JSON encoding of `admin_keys` and `peer_services`** is kept as the lists of strings they encode.

## Model

| member | source | states |
|---|---|---|
| Routing.ServiceId.IntoParts | libsplinter/src/circuit/routing/mod.rs:145-165 | the parts rebuild the same key with `new` |
| Routing.ServiceId.Display | libsplinter/src/circuit/routing/mod.rs:168-172 | the display form is the circuit id, `::`, then the service id, position by position |
| Routing.ServiceIdEquality | libsplinter/src/circuit/routing/mod.rs:132-136 | two keys are equal exactly when both components are |
| Routing.DisplayInjective | libsplinter/src/circuit/routing/mod.rs:168-172 | when circuit ids contain no colon, equal display forms mean equal keys |
| Routing.DisplayAmbiguousWithColons | libsplinter/src/circuit/routing/mod.rs:168-172 | two different keys with colons in their parts share a display form |
| Routing.CompareStrings | libsplinter/src/circuit/routing/mod.rs:86-90 | no contract of its own: byte-wise `String::cmp`; CompareStringsEqual, CompareStringsReverse and CompareStringsTransitive state that it is a total order |
| Routing.Cmp | libsplinter/src/circuit/routing/mod.rs:86-90 | no contract of its own: `cmp` compares node ids only; CmpEqualIffSameId, CmpAntisymmetric and CmpTransitive state its properties |
| Routing.CompareStringsEqual | libsplinter/src/circuit/routing/mod.rs:86-90 | string comparison answers `Equal` exactly for equal strings |
| Routing.CompareStringsReverse | libsplinter/src/circuit/routing/mod.rs:86-90 | swapping the operands reverses the answer |
| Routing.CompareStringsTransitive | libsplinter/src/circuit/routing/mod.rs:86-90 | `Less` is transitive |
| Routing.CmpEqualIffSameId | libsplinter/src/circuit/routing/mod.rs:86-90 | node ordering answers `Equal` exactly when the node ids are equal |
| Routing.CmpAntisymmetric | libsplinter/src/circuit/routing/mod.rs:86-90 | `a < b` exactly when `b > a` |
| Routing.CmpTransitive | libsplinter/src/circuit/routing/mod.rs:86-90 | node ordering is transitive |
| Routing.PartialCmp | libsplinter/src/circuit/routing/mod.rs:92-96 | the partial comparison is always defined and is `Equal` exactly for equal ids |
| Routing.CmpEqualForUnequalNodes | libsplinter/src/circuit/routing/mod.rs:68-96 | two nodes with one id and different endpoints compare `Equal` and are not `==` |
| Routing.InsertAll | libsplinter/src/circuit/routing/mod.rs:211-239 | no contract of its own: `HashMap::insert` of each entry in turn; InsertAllKeys, InsertAllKeeps and InsertAllLastWins state it |
| Routing.InsertAbsent | libsplinter/src/circuit/routing/mod.rs:197-209 | no contract of its own: insertion of the nodes not already present; InsertAbsentKeys, InsertAbsentKeeps and InsertAbsentFirstWins state it |
| Routing.InsertAllKeys | libsplinter/src/circuit/routing/mod.rs:211-216 | inserting a batch adds exactly the batch's keys |
| Routing.InsertAllKeeps | libsplinter/src/circuit/routing/mod.rs:211-216 | keys outside the batch keep their value |
| Routing.InsertAllLastWins | libsplinter/src/circuit/routing/mod.rs:234-239 | a key gets the value of the last batch entry with that key |
| Routing.InsertAbsentKeys | libsplinter/src/circuit/routing/mod.rs:197-209 | inserting absent entries adds exactly the batch's keys |
| Routing.InsertAbsentKeeps | libsplinter/src/circuit/routing/mod.rs:197-209 | entries already present are never replaced |
| Routing.InsertAbsentFirstWins | libsplinter/src/circuit/routing/mod.rs:197-209 | an absent key gets the value of the first batch entry with that key |
| Routing.RosterEntries | libsplinter/src/circuit/routing/mod.rs:197-209 | each roster service is keyed by (circuit id, its service id), in roster order |
| Routing.RosterEntryKeys | libsplinter/src/circuit/routing/mod.rs:197-209 | the keys of the roster's entries are the roster's keys |
| Routing.InsertRostersContains | libsplinter/src/circuit/routing/mod.rs:211-216 | after a batch, every roster service of every circuit has an entry |
| Routing.RemoveRosterUndoesInsert | libsplinter/src/circuit/routing/mod.rs:197-224 | inserting a roster and then removing its keys leaves the rest of the service directory as it was |
| Routing.Entries | libsplinter/src/circuit/routing/mod.rs:275-286 | the entries of a map: one per key, pairwise distinct keys, each with the key's value, and every key present |
| Routing.RoutingTable.constructor | libsplinter/src/circuit/routing/mod.rs:176-177 | a new table has three empty directories |
| Routing.RoutingTable.FetchService | libsplinter/src/circuit/routing/mod.rs:259-264 | the stored service, or nothing exactly when the key is absent |
| Routing.RoutingTable.ListService | libsplinter/src/circuit/routing/mod.rs:266-271 | one service per key naming the circuit: a witness list of pairwise distinct keys, covering all of them, gives the key each service was read from |
| Routing.RoutingTable.ListNodes | libsplinter/src/circuit/routing/mod.rs:275-276 | every (id, node) entry, each id once, and nothing else |
| Routing.RoutingTable.FetchNode | libsplinter/src/circuit/routing/mod.rs:278-283 | the stored node, or nothing exactly when the id is absent |
| Routing.RoutingTable.ListCircuits | libsplinter/src/circuit/routing/mod.rs:285-286 | every (id, circuit) entry, each id once, and nothing else |
| Routing.RoutingTable.FetchCircuit | libsplinter/src/circuit/routing/mod.rs:288-293 | the stored circuit, or nothing exactly when the id is absent |
| Routing.RoutingTable.AddService | libsplinter/src/circuit/routing/mod.rs:178-188 | the service is fetchable under its key; nodes and circuits are unchanged |
| Routing.RoutingTable.RemoveService | libsplinter/src/circuit/routing/mod.rs:190-195 | only that key is gone; an absent key changes nothing |
| Routing.RoutingTable.InsertRoster | libsplinter/src/circuit/routing/mod.rs:197-209 | the services become the old ones with the roster's entries inserted in order |
| Routing.RoutingTable.AddCircuit | libsplinter/src/circuit/routing/mod.rs:197-209 | the circuit is stored under the given id; every roster service is fetchable under (that id, its service id); every given node is fetchable, and nodes already stored keep their value |
| Routing.RoutingTable.AddCircuits | libsplinter/src/circuit/routing/mod.rs:211-216 | every circuit of the batch and every roster service is fetchable; the node directory is unchanged |
| Routing.RoutingTable.RemoveCircuit | libsplinter/src/circuit/routing/mod.rs:218-224 | the circuit and its roster's services are gone and the nodes stay; an absent id changes nothing |
| Routing.RoutingTable.AddNode | libsplinter/src/circuit/routing/mod.rs:226-232 | the node is fetchable under the id; circuits and services are unchanged |
| Routing.RoutingTable.AddNodes | libsplinter/src/circuit/routing/mod.rs:234-239 | every node is fetchable and holds the last node given for its id; circuits and services are unchanged |
| Routing.RoutingTable.RemoveNode | libsplinter/src/circuit/routing/mod.rs:241-246 | only that id is gone; an absent id changes nothing |
| TemplateRules.ToLower | libsplinter/src/circuit/template/rules/mod.rs:153-155 | lowercasing keeps the length and lowercases each character |
| TemplateRules.ToLowerKeepsMarkers | libsplinter/src/circuit/template/rules/mod.rs:149-157 | lowercasing neither creates nor removes a leading `$(` or a trailing `)` |
| TemplateRules.RuleArgumentFrom | libsplinter/src/circuit/template/rules/mod.rs:132-143 | conversion never fails, stores the name lowercased, copies the rest and sets no user value |
| TemplateRules.SetUserValue | libsplinter/src/circuit/template/rules/mod.rs:127-129 | only the user value changes, to the given string |
| TemplateRules.IsArgValue | libsplinter/src/circuit/template/rules/mod.rs:145-147 | true exactly when the key starts with `$(` |
| TemplateRules.TrimMarkers | libsplinter/src/circuit/template/rules/mod.rs:153 | the rest starts with no `$(`, and the input is that many markers followed by the rest |
| TemplateRules.TrimMarkersToLower | libsplinter/src/circuit/template/rules/mod.rs:153 | trimming markers commutes with lowercasing |
| TemplateRules.StripArgMarker | libsplinter/src/circuit/template/rules/mod.rs:149-157 | no contract of its own: StripArgMarkerSpec, StripArgMarkerIsLower, StripArgMarkerIdempotent and StripArgMarkerIgnoresCase state it |
| TemplateRules.StripArgMarkerSpec | libsplinter/src/circuit/template/rules/mod.rs:149-157 | a marked key loses its one trailing `)` and all of its n >= 1 leading `$(` and is lowercased; any other key is only lowercased |
| TemplateRules.StripArgMarkerIsLower | libsplinter/src/circuit/template/rules/mod.rs:149-157 | a stripped key is lowercase, like the stored argument names |
| TemplateRules.StripArgMarkerIdempotent | libsplinter/src/circuit/template/rules/mod.rs:149-157 | stripping twice is stripping once |
| TemplateRules.StripArgMarkerIgnoresCase | libsplinter/src/circuit/template/rules/mod.rs:149-157 | keys that differ only in letter case strip to the same name |
| TemplateRules.FindArgument | libsplinter/src/circuit/template/rules/mod.rs:179 | the first argument with the name, or none exactly when no argument has it |
| TemplateRules.Decide | libsplinter/src/circuit/template/rules/mod.rs:180-200 | no contract of its own: what the matching argument yields; DefaultFallback, UserValueWins and LookupNameProvenance state it |
| TemplateRules.LookupName | libsplinter/src/circuit/template/rules/mod.rs:178-209 | no contract of its own: the first argument's decision, or the invalid-template error; LookupNameFirstMatch states it |
| TemplateRules.GetArgumentValue | libsplinter/src/circuit/template/rules/mod.rs:174-212 | no contract of its own: UserValueWins, UnknownArgument, DefaultFallback, StepRefers, FuelMonotone, GetArgumentValueProvenance and SelfReferenceNeverResolves state it |
| TemplateRules.Message | libsplinter/src/circuit/template/rules/mod.rs:184-207 | no contract of its own: the message text of each error, as the source formats it |
| TemplateRules.LookupNameFirstMatch | libsplinter/src/circuit/template/rules/mod.rs:178-209 | the lookup decides by the first argument of that name, and is the invalid-template error when there is none |
| TemplateRules.UserValueWins | libsplinter/src/circuit/template/rules/mod.rs:179-181 | a user value is returned whatever the `required` flag or the default |
| TemplateRules.UnknownArgument | libsplinter/src/circuit/template/rules/mod.rs:203-208 | a key that names no argument gives the invalid-template error for the stripped key |
| TemplateRules.DefaultFallback | libsplinter/src/circuit/template/rules/mod.rs:182-200 | with no user value: a required argument gives the not-provided error; an optional one without a default gives the no-default error; a plain default is returned verbatim; a reference default is resolved one level deeper |
| TemplateRules.LookupNameProvenance | libsplinter/src/circuit/template/rules/mod.rs:179-209 | a value found in one lookup step comes from an argument that supplies it; each error names the looked-up key and is no depth-bound error; a not-provided error comes from a required argument without a user value, a no-default error from an optional argument with neither a user value nor a default, and an invalid-template error means no argument has the name |
| TemplateRules.GetArgumentValueProvenance | libsplinter/src/circuit/template/rules/mod.rs:174-212 | a resolved value is some argument's user value or plain default; a not-provided error names a required argument without a value; a no-default error names an optional argument with neither a user value nor a default; an invalid-template error names no argument |
| TemplateRules.StepRefers | libsplinter/src/circuit/template/rules/mod.rs:195-196 | a reference default resolves as the key it refers to, one level deeper |
| TemplateRules.FuelMonotone | libsplinter/src/circuit/template/rules/mod.rs:195-196 | more depth never changes an outcome that did not hit the depth bound |
| TemplateRules.SelfReferenceNeverResolves | libsplinter/src/circuit/template/rules/mod.rs:174-199 | for any key and argument list: when the key's argument has a reference default that strips to the same name, resolution ends in the depth-bound error for that reference, whatever the fuel |
| TemplateRules.SelfReferenceExample | libsplinter/src/circuit/template/rules/mod.rs:189-199 | the one-argument instance: `a` defaulting to `$(a)` never resolves |
| Text.Join | libsplinter/src/circuit/template/rules/set_metadata.rs:60-66 | no contract of its own: `join(",")`; JoinAppend, ApplyRuleShape and ListEntryFormat state it |
| Text.JoinAppend | libsplinter/src/circuit/template/rules/set_metadata.rs:60-66 | joining two non-empty lists joins each, with one separator between them |
| SetMetadata.Quote | libsplinter/src/circuit/template/rules/set_metadata.rs:53 | the string between two double quotes, unchanged |
| SetMetadata.Collect | libsplinter/src/circuit/template/rules/set_metadata.rs:55-64 | no contract of its own: `collect::<Result<Vec<_>, _>>`; CollectSpec and CollectAppend state it |
| SetMetadata.CollectSpec | libsplinter/src/circuit/template/rules/set_metadata.rs:55-64 | collecting succeeds exactly when every element does, with all the values in order; otherwise it fails with the first failure |
| SetMetadata.CollectAppend | libsplinter/src/circuit/template/rules/set_metadata.rs:64 | collecting a concatenation gives the two collections concatenated |
| SetMetadata.ResolveValue | libsplinter/src/circuit/template/rules/set_metadata.rs:37-41 | no contract of its own: `is_arg_value` chooses between `get_argument_value` and the literal; SingleEntryFormat, ListEntryFormat, ListEntryFails and EntryIndependent state it |
| SetMetadata.RenderListValue | libsplinter/src/circuit/template/rules/set_metadata.rs:47-53 | no contract of its own: one list value, resolved and quoted; RenderListValues, ListEntryFormat and ListEntryFails state it |
| SetMetadata.RenderListValues | libsplinter/src/circuit/template/rules/set_metadata.rs:45-54 | every list value is rendered, in order |
| SetMetadata.RenderEntries | libsplinter/src/circuit/template/rules/set_metadata.rs:33-63 | every entry is rendered, in order |
| SetMetadata.QuoteAll | libsplinter/src/circuit/template/rules/set_metadata.rs:53 | every value is quoted, in order |
| SetMetadata.RenderEntry | libsplinter/src/circuit/template/rules/set_metadata.rs:35-63 | no contract of its own: SingleEntryFormat, ListEntryFormat, ListEntryFails and EntryIndependent state it |
| SetMetadata.ApplyRule | libsplinter/src/circuit/template/rules/set_metadata.rs:27-71 | no contract of its own: ApplyRuleShape, ApplyRuleEmpty, ApplyRuleFails, ApplyRuleConcat and VerbatimIndependent state it |
| SetMetadata.ApplyRuleShape | libsplinter/src/circuit/template/rules/set_metadata.rs:64-66 | the output is `{`, the rendered entries in metadata order joined by `,`, then `}` |
| SetMetadata.ApplyRuleEmpty | libsplinter/src/circuit/template/rules/set_metadata.rs:66 | empty metadata gives `{}` |
| SetMetadata.ApplyRuleFails | libsplinter/src/circuit/template/rules/set_metadata.rs:33-64 | the rule fails exactly when some entry fails, with the first failure and no partial output |
| SetMetadata.SingleEntryFormat | libsplinter/src/circuit/template/rules/set_metadata.rs:36-42 | a single value renders as `"key":"value"`; a reference is resolved first, and its error is the entry's error |
| SetMetadata.ListEntryFormat | libsplinter/src/circuit/template/rules/set_metadata.rs:44-61 | a list renders as `"key":["v1","v2",...]` with the resolved values in input order |
| SetMetadata.ListEntryFails | libsplinter/src/circuit/template/rules/set_metadata.rs:45-55 | a list fails with its first value that does not resolve |
| SetMetadata.EntryIndependent | libsplinter/src/circuit/template/rules/set_metadata.rs:37-52 | an entry without references never fails and does not depend on the arguments |
| SetMetadata.VerbatimIndependent | libsplinter/src/circuit/template/rules/set_metadata.rs:33-66 | metadata without references never fails and does not depend on the arguments |
| SetMetadata.RenderEntriesAppend | libsplinter/src/circuit/template/rules/set_metadata.rs:33-35 | rendering preserves entry order across a concatenation |
| SetMetadata.ApplyRuleConcat | libsplinter/src/circuit/template/rules/set_metadata.rs:64-66 | the object for `a + b` is the object for `a` and the object for `b` run together with one `,` |
| SetMetadata.KeysNotEscaped | libsplinter/src/circuit/template/rules/set_metadata.rs:42 | a double quote inside a key is copied unescaped |
| SupplychainRoutes.FindNode | examples/supplychain/daemon/src/rest_api/routes/supplychain.rs:263-266 | the first listed node with the identity, or none exactly when no node has it |
| SupplychainRoutes.NotFoundMessage | examples/supplychain/daemon/src/rest_api/routes/supplychain.rs:271-274 | no contract of its own: the bad-request message for an unknown id; FetchNodeInformation states where it is used |
| SupplychainRoutes.FetchNodeInformation | examples/supplychain/daemon/src/rest_api/routes/supplychain.rs:253-299 | for a listing: the first matching node for each requested id, in request order, or a bad request naming the first missing id; for a failed request: a bad-request or internal error carrying the body |
| SupplychainRoutes.Members | examples/supplychain/daemon/src/rest_api/routes/supplychain.rs:116-127 | the fetched nodes in order, then the local node last |
| SupplychainRoutes.ServiceIdFor | examples/supplychain/daemon/src/rest_api/routes/supplychain.rs:143-146 | every service id starts with `gr` and is at least four characters long |
| SupplychainRoutes.ServiceIdForDigits | examples/supplychain/daemon/src/rest_api/routes/supplychain.rs:143-146 | after `gr` come decimal digits whose value is the member number: two of them below 100, and no leading zero from 10 up |
| SupplychainRoutes.ServiceIdInjective | examples/supplychain/daemon/src/rest_api/routes/supplychain.rs:143-146 | two member numbers give the same service id exactly when they are equal |
| SupplychainRoutes.ServiceIds | examples/supplychain/daemon/src/rest_api/routes/supplychain.rs:148-150 | the id of each member, in member order |
| SupplychainRoutes.PeerServices | examples/supplychain/daemon/src/rest_api/routes/supplychain.rs:154-158 | exactly the ids other than the service's own |
| SupplychainRoutes.PeerServicesAppend | examples/supplychain/daemon/src/rest_api/routes/supplychain.rs:154-158 | filtering keeps order across a concatenation |
| SupplychainRoutes.PeerServicesAbsent | examples/supplychain/daemon/src/rest_api/routes/supplychain.rs:154-158 | filtering out an id that does not occur changes nothing |
| SupplychainRoutes.PeerServicesDistinct | examples/supplychain/daemon/src/rest_api/routes/supplychain.rs:154-158 | in a list without repeats, the peers of entry i are all the other entries, in order |
| SupplychainRoutes.PeersAreTheOthers | examples/supplychain/daemon/src/rest_api/routes/supplychain.rs:154-158 | the peers of service i are all the other ids, in roster order |
| SupplychainRoutes.ServiceArguments | examples/supplychain/daemon/src/rest_api/routes/supplychain.rs:129-168 | no contract of its own: `admin_keys` then `peer_services`; BuildRoster states which values each service gets |
| SupplychainRoutes.BuildRoster | examples/supplychain/daemon/src/rest_api/routes/supplychain.rs:152-183 | one service per member: id `gr<i>`, type `scabbard`, allowed only on its own member's node, with arguments `admin_keys` then `peer_services` |
| SupplychainRoutes.ProposeSupplychain | examples/supplychain/daemon/src/rest_api/routes/supplychain.rs:101-183 | registry failures map to bad-request or internal-error answers; otherwise the members are the requested nodes in order followed by the local node, and each member's service lists every other service as a peer |
| SupplychainRoutes.ParseUsize | examples/supplychain/daemon/src/rest_api/routes/supplychain.rs:345 | a parsed value fits a `usize`, and the empty string does not parse |
| SupplychainRoutes.ParseUsizeRoundTrip | examples/supplychain/daemon/src/rest_api/routes/supplychain.rs:341-346 | parsing a printed `usize` gives it back |
| SupplychainRoutes.ParseUsizeOverflow | examples/supplychain/daemon/src/rest_api/routes/supplychain.rs:345 | a number above the `usize` range does not parse |
| SupplychainRoutes.ParseUsizeExamples | examples/supplychain/daemon/src/rest_api/routes/supplychain.rs:345 | `+5` parses; `+`, `-1` and `1a` do not |
| SupplychainRoutes.PagingParam | examples/supplychain/daemon/src/rest_api/routes/supplychain.rs:341-353 | no contract of its own: PagingParamFallback states it |
| SupplychainRoutes.ListPaging | examples/supplychain/daemon/src/rest_api/routes/supplychain.rs:341-353 | no contract of its own: `offset` and `limit`, each as PagingParamFallback states |
| SupplychainRoutes.PagingParamFallback | examples/supplychain/daemon/src/rest_api/routes/supplychain.rs:341-353 | `offset` and `limit` are the query's value when it parses; otherwise, and when absent, the default |
| Text.NatToString | examples/supplychain/daemon/src/rest_api/routes/supplychain.rs:146 | the numeral is non-empty and all digits, one digit exactly below 10, with no leading zero for a positive number; NatToStringValue gives its value |
| Text.NatToStringValue | examples/supplychain/daemon/src/rest_api/routes/supplychain.rs:344 | reading back a printed number gives the number |
| Notifications.Unread | examples/gameroom/gameroom-app/src/store/modules/notifications.ts:35-36 | exactly the unread notifications, no more than the list |
| Notifications.UnreadCountIsPositions | examples/gameroom/gameroom-app/src/store/modules/notifications.ts:34-38 | the length of the unread filter is the number of positions holding an unread notification |
| Notifications.UnreadAppend | examples/gameroom/gameroom-app/src/store/modules/notifications.ts:35-36 | filtering keeps order across a concatenation |
| Notifications.UnreadNoneIffAllRead | examples/gameroom/gameroom-app/src/store/modules/notifications.ts:34-38 | the count is zero exactly when every notification is read |
| Notifications.UnreadAllIffNoneRead | examples/gameroom/gameroom-app/src/store/modules/notifications.ts:34-38 | the count is the list's length exactly when none is read |
| Notifications.UnreadCountRemove | examples/gameroom/gameroom-app/src/store/modules/notifications.ts:34-38 | taking one notification out lowers the count by one exactly when it was unread |
| Notifications.UnreadCountPermutation | examples/gameroom/gameroom-app/src/store/modules/notifications.ts:27-38 | reordering the list does not change the count |
| Notifications.UnreadCountUpdate | examples/gameroom/gameroom-app/src/store/modules/notifications.ts:68-73 | replacing one notification changes the count by the difference in their read flags |
| Notifications.FindIndexById | examples/gameroom/gameroom-app/src/store/modules/notifications.ts:69 | the first position with the id, or -1 exactly when none has it |
| Notifications.SortNewestFirst | examples/gameroom/gameroom-app/src/store/modules/notifications.ts:27-33 | the result is sorted newest first and is a permutation of the input |
| Notifications.NotificationState.constructor | examples/gameroom/gameroom-app/src/store/modules/notifications.ts:22-24 | the store starts with no notifications |
| Notifications.NotificationState.GetNotifications | examples/gameroom/gameroom-app/src/store/modules/notifications.ts:27-33 | the state is reordered in place into a newest-first permutation, which is returned; the unread count is unchanged |
| Notifications.NotificationState.GetNewNotificationCount | examples/gameroom/gameroom-app/src/store/modules/notifications.ts:34-38 | the number of positions holding an unread notification, at most the list's length, and zero exactly when every notification is read |
| Notifications.NotificationState.SetNotifications | examples/gameroom/gameroom-app/src/store/modules/notifications.ts:62-64 | the list is replaced |
| Notifications.NotificationState.AddNotification | examples/gameroom/gameroom-app/src/store/modules/notifications.ts:65-67 | the notification is appended at the end; the count grows by one exactly when it is unread |
| Notifications.NotificationState.UpdateNotification | examples/gameroom/gameroom-app/src/store/modules/notifications.ts:68-73 | the first notification with the update's id is replaced and the rest, and the length, stay; with no match the list is unchanged |
| NotificationApi.IsDisplayed | examples/gameroom/gameroom-app/src/store/api.ts:235-244 | shown exactly for `circuit_active`, for types starting with `new_game_created`, and for `supplychain_proposal` not requested by the user |
| NotificationApi.FilterDisplayed | examples/gameroom/gameroom-app/src/store/api.ts:248 | exactly the shown notifications |
| NotificationApi.FilterDisplayedAppend | examples/gameroom/gameroom-app/src/store/api.ts:248 | filtering keeps the original order across a concatenation |
| NotificationApi.FilterDisplayedIdempotent | examples/gameroom/gameroom-app/src/store/api.ts:248 | filtering twice is filtering once |
| NotificationApi.OwnProposalsHidden | examples/gameroom/gameroom-app/src/store/api.ts:238-241 | no shown proposal was requested by the user |
| NotificationApi.IsDisplayedExamples | examples/gameroom/gameroom-app/src/store/api.ts:237-243 | a `new_game_created` type with a suffix is shown; an unlisted type is hidden |

## Left out

- Concurrency of the routing table: the read-write lock, the `Send` bounds and the errors of a poisoned lock. The model is sequential, and no writer fails.
- The source of the in-memory implementation `libsplinter/src/circuit/routing/memory` is not among the files modelled. `RoutingTable` stands for it, with the map semantics stated above for existing keys.
- Routing.RoutingTable.ListService, ListNodes, ListCircuits: the order of the listings is unspecified, as with hash-map iteration; only contents and multiplicity are stated.
- TemplateRules.GetArgumentValue: the model bounds the recursion depth with fuel. A chain of references deeper than the fuel ends in `RecursionLimit`, while the source recurses without bound.
- TemplateRules.ToLower: lowercases ASCII letters only, not the full Unicode `to_lowercase`.
- `Rules::apply_rules` and `From<v1::Rules>`, `From<v1::Value>`: they depend on the circuit builders, the service-creation and management-type rules and the YAML parser. None of these is part of this model.
- SetMetadata.ApplyRule: returns the JSON text as a string. The final conversion to bytes (`as_bytes().to_vec()`) is left out; the UTF-8 encoding of the text is left out.
- The HTTP plumbing of the supplychain daemon is left out. This covers the request to the node registry, reading and parsing the response body (its failures would be internal errors), the JSON encoding of the argument lists, `check_alias_uniqueness` (a database query), the application metadata, `CreateCircuitBuilder`, `make_payload` (protobuf encoding and SHA-512), and the database query of `list_supplychains` after the paging values.
- SupplychainRoutes.BuildRoster: the builder of a `SplinterService` and the JSON encoders are taken never to fail. Their checks are not among the files modelled, so the `InternalServerError` answers of their failure branches are not modelled.
- SupplychainRoutes.ProposeSupplychain: states the members' node ids. Their endpoints are stated by `FetchNodeInformation` and `Members`.
- `ApiSupplychain::from` is not modelled: it is a field-by-field record conversion.
- The gameroom actions `listNotifications` and `markRead`, and `getOrgName`, are left out. They are network I/O against the daemon and fill in `requester_org`. Only the filter and the store's getters and mutations are modelled.
- Notifications.SortNewestFirst: sorts by the comparator's order. Timestamps are integers rather than JavaScript numbers, and stability of the sort is not stated.
- The `limit=1000` of the notification request is left out, since it is a parameter of the HTTP query.
- The Vue/Vuex wiring, the rest of the gameroom and supplychain apps, the database helpers and the session tokens are left out. They are I/O or framework glue.

# Lambda controller: a verified model

The controller keeps AWS Lambda resources as Kubernetes objects describe them. For each kind of
resource a manager compares the desired spec with one read from the service and makes the calls that
close the gap; the calls have no transactions, any of them may fail, and the next pass starts from a
new read. This project models the parts where that is hard and proves what every run of them keeps.

| file | models |
|---|---|
| `Common.dfy`, `Int32.dfy` | Go pointers and errors; the conversions between int64 and int32 |
| `Deltas.dfy` | comparing optional trees, and what `DifferentAt` and `DifferentExcept` answer |
| `KeyedSync.dfy`, `AliasPermissions.dfy` | the permission reconciler of an alias |
| `AliasUpdate.dfy`, `AliasConvergence.dfy`, `AliasCreate.dfy` | updating and creating an alias |
| `EventInvoke.dfy` | the event-invoke configuration, put and read back, for functions and aliases |
| `TagSync.dfy` | both tag updates, and the mirroring and filtering of system tags |
| `FunctionSpecs.dfy`, `FunctionService.dfy`, `FunctionUpdate.dfy` | a function, its service, and one update pass |
| `FunctionTrace.dfy`, `FunctionConvergence.dfy` | what a pass may do, and where runs end |
| `FunctionLimits.dfy`, `FunctionSilence.dfy` | where runs do not end well, and what an empty delta leaves unsaid |
| `SpecDeltas.dfy` | the deltas of both specs, exact at every depth |
| `EventSourceUpdate.dfy` | filters and numbers of an event source mapping |
| `References.dfy` | resolving references in place and clearing them again |
| `Conditions.dfy` | the status conditions over any history of outcomes |
| `ManagerCache.dfy` | the manager cache under its read/write lock |
| `LayerPruning.dfy` | deleting old layer versions |

Each service is a state and the calls that change it. A class stands for the live service: its calls
may fail at any time, and one that fails changes nothing. The update methods are proved to make a
prefix of a plan of calls, complete exactly when nothing failed; the lemmas are about those plans.

## What was found

The code is modelled as it is. Where it falls short of what its comments or names promise, the exact
condition under which it does meet the promise is proved.

- A function whose tags have all gone never gets them back: a read without tags keeps the desired ones
  (`FunctionLimits.LostTagsStayLost`). So a failure between untagging and tagging is repaired exactly
  when the untagging left a tag behind (`FunctionLimits.CutOffTaggingRepaired`), which it does not where
  the only tag changes (`FunctionLimits.OnlyTagLost`).
- In the same way a function without layers never gets any, one without code signing configuration never
  gets one, and an image configuration never changes (`FunctionSilence.UnseenStays`,
  `FunctionSilence.UnsignedStaysUnsigned`, `FunctionSilence.AddedLayerUnsent`). What an empty delta does say
  of the service is `FunctionSilence.SilenceMeans`.
- Two clean passes do not always settle a function. A change of architecture redeploys the object
  without its version; a spec that pins an older version needs a second code pass, and its
  configuration a third (`FunctionLimits.ThirdPassNeeded`).
- A function whose code cannot settle, for instance because the spec lists no architecture, never has
  its configuration updated (`FunctionLimits.CodeBlocksConfiguration`, `FunctionLimits.NoArchitectureListed`).
- An update panics on a tracing configuration without a mode, a snap start without its setting or an
  ephemeral storage without a size: exactly when it reaches the configuration case, no duration is out of
  range, and such a field differs (`FunctionLimits.PanicsExactly`, `FunctionLimits.EmptyTracingPanics`). No
  later pass updates the configuration either (`FunctionLimits.PanicBlocksConfiguration`). An image
  configuration in a spec without code would panic too, but a read never shows one to differ.
- A pass can end in a configuration update with nothing in it, and then every later one does: exactly
  when no code is outstanding, no terminal error comes first, the package type or a configuration field
  differs, and no differing field has anything to send (`FunctionLimits.EmptyUpdateExact`,
  `FunctionLimits.EmptyUpdatesForEver`), as when the package type is left out (`FunctionLimits.NoPackageType`).
- An update of a function converts memory size, timeout and storage size to int32 unchecked; creating
  it refuses the same numbers (`FunctionUpdate.UpdateConversion`, `FunctionUpdate.BuildCreateNumbers`).
- An update of an alias sends the revision its own status records rather than the one just read. The
  service refuses it exactly when that revision is set and is no longer the service's (`AliasUpdate.SdkUpdate`).
- Desired permissions that repeat a statement ID are reported in every pass, with nothing left to do
  (`AliasPermissions.RepeatedIDExample`).
- An alias's event-invoke configuration without every destination structure never settles
  (`EventInvoke.AliasPutRead`); an empty `filterCriteria` is updated for ever
  (`EventSourceUpdate.FiltersSettle`); comparing filters can dereference a nil pattern
  (`EventSourceUpdate.EqualFilterSlices`), and does when a filter put without a pattern is given one
  (`EventSourceUpdate.EditedPatternPanics`).
- A spec that gives both a value and a reference is resolved all the same, and loses its value when
  cleared (`FunctionReferences.FunctionObject.ResolveReferences`, `FunctionReferences.ClearRestores`).
- A Recoverable condition stays true beside a later Terminal one (`Conditions.BothCanHold`).
- More than one manager is built for a key exactly when two calls that missed it get through
  (`ManagerCache.BuildersExact`), which happens (`ManagerCache.TwoManagersForOneKey`). A slash in an
  account lets two requests share a key (`ManagerCache.KeyCollision`); a request shares its key with no other
  request without such slashes exactly when it has none itself (`ManagerCache.KeyUnique`).
- A layer version that is listed twice as the newest is deleted with the old ones
  (`LayerPruning.FullRunLeavesNewest`).

## What is assumed

The runtime library and the service are not part of the repository. The model rests on this reading of them.

- A delta is a list of dotted paths. `DifferentAt` asks for a path at or below its argument, component
  by component; `DifferentExcept` for a path outside all of its arguments. `HasNilDifference` compares
  nilness only. Two lists compare equal when they hold equal elements in the same order, two maps when
  they hold equal values under the same keys.
- The desired spec is the same in every pass of a run. What the runtime does with the resource that an
  update returns is not modelled.
- `GetTagsDifference` is the difference of key-value pairs; `Merge` keeps the first map's values. Loop
  variables are per iteration, as since Go 1.22. Maps are visited in an arbitrary order.
- A nil field in a request leaves the service's value alone, and an empty string given for an enumerated
  field is not sent, so it counts as nil, inside a structure too. A structure that is sent replaces the whole structure. An empty
  list of architectures leaves them alone. An event-invoke configuration is returned with all its
  structures present. A filter criteria that is sent replaces the filters; none is
  returned when there are no filters.
- An answer without tags, layers or code signing configuration leaves that field nil. `GetFunction` always
  answers with code, and with an image only for container images.
- A function's service shows certain fields as absent once they are cleared; which ones is a parameter
  (`dropsCleared`). What can be deployed, and its hash, is another (`hashes`).
- Removing an absent statement and adding a present one are refused, and so is deleting an event-invoke
  configuration that is not there; other deletes are idempotent. A statement is read back as added, except
  that its function URL auth type is not. The service refuses changes to tags under `aws:`.
- An alias gets a new revision when the alias itself is updated, not when one of its sub-resources is.
- Names are set, entries of lists of pointers are not nil, and neither are the values of an environment. A
  function's desired tags have been mirrored before an update, which leaves no nil value for `compareMaps`.
- Every statement of an alias's policy has an ID; reading it skips the others.
- Whether a function is pending when it is read is left to the service: every statement holds for every answer.

## Model

| member | source | states |
|---|---|---|
| Deltas.NoDifferences | pkg/resource/alias/delta.go:46-170 | A delta is empty exactly when the two specs are equal |
| Deltas.DifferencesSymmetric | pkg/resource/alias/delta.go:46-170 | Exchanging the two specs keeps the reported paths |
| Deltas.DeltaExact | pkg/resource/function/delta.go:163-220 | At every point both specs reach, DifferentAt holds exactly when the subtrees differ |
| Deltas.HiddenBelowNil | pkg/resource/function/delta.go:163-166 | Below a nil difference no path is reported, although the point above it is |
| Deltas.ListedFieldsExcept | pkg/resource/alias/sdk.go:317-319 | DifferentExcept asks exactly whether a field outside the excepted ones differs |
| Deltas.Delta.CompareLeaf | pkg/resource/alias/delta.go:48-54 | Nilness first, then value: adds the path exactly when the leaves differ |
| SpecDeltas.AliasDeltaExact | pkg/resource/alias/delta.go:34-173 | For every path below the spec that both aliases reach, DifferentAt holds exactly when what is there differs |
| SpecDeltas.FunctionDeltaExact | pkg/resource/function/delta.go:34-419 | The same for functions, except that a differing hash reports the code |
| SpecDeltas.AliasPaths | pkg/resource/alias/delta.go:34-173 | Each field of an alias is compared at its own path |
| SpecDeltas.FunctionPaths | pkg/resource/function/delta.go:34-419 | Each field of a function is compared at its own path |
| SpecDeltas.CodePaths | pkg/resource/function/delta.go:53-87 | Each field of the code is compared at its own path |
| SpecDeltas.ConfigPaths | pkg/resource/function/delta.go:163-220 | Each field of an event-invoke configuration is compared at its own path |
| SpecDeltas.DestinationPaths | pkg/resource/function/delta.go:166-190 | The two destinations are compared at theirs |
| Int32.NarrowUnique | pkg/resource/alias/hooks.go:543-548 | int32OrNil gives the one int32 that agrees modulo 2^32 |
| Int32.RoundTrip | pkg/resource/alias/hooks.go:543-555 | Narrowing and widening is the identity exactly on the int32 range |
| EventInvoke.BuildPutPayload | pkg/resource/function/hooks.go:631-658 | The put request carries exactly the destinations and limits that are set |
| EventInvoke.FunctionReadCanonical | pkg/resource/function/hooks.go:797-837 | The value read has a DestinationConfig exactly when some destination is set |
| EventInvoke.FunctionReadExact | pkg/resource/function/hooks.go:797-837 | Every field of the value read: each destination that is set, both limits, and nothing else |
| EventInvoke.FunctionPutRead | pkg/resource/function/hooks.go:609-666 | What is read after a put is what was put exactly when that was canonical |
| EventInvoke.AliasPutRead | pkg/resource/alias/hooks.go:172-187 | For an alias the same exactly when every destination structure was written |
| EventInvoke.ReadPutReadFixed | pkg/resource/function/hooks.go:797-837 | Putting a value read and reading again is a fixed point, for both resources |
| EventInvoke.CompareConfig | pkg/resource/function/delta.go:163-220 | The event-invoke branch adds exactly the paths at which the two trees differ |
| AliasPermissions.EqualMeansIndistinguishable | pkg/resource/alias/hooks.go:223-241 | permissionEqual holds exactly when a policy read cannot tell two permissions apart |
| AliasPermissions.PermissionEqualExact | pkg/resource/alias/hooks.go:223-241 | permissionEqual holds exactly when statement ID, action, principal, source ARN, source account, event source token and organization ID are all equal |
| AliasPermissions.LastEntryWins | pkg/resource/alias/hooks.go:398-411 | An ID leads to an entry exactly when that is the last entry of the list with this ID |
| AliasPermissions.ComparePermissions | pkg/resource/alias/hooks.go:393-431 | Whatever the map order: each stale statement once to remove, each missing one once to add, as the lists hold them; both lists come back empty exactly when the two lists agree in those seven fields |
| AliasPermissions.NothingToDoExact | pkg/resource/alias/hooks.go:393-431 | There is nothing to remove or add exactly when both lists have the same IDs and the last entries with the same ID agree in those seven fields |
| AliasPermissions.ReadComparesAsPolicy | pkg/resource/alias/hooks.go:285-386 | Comparing with a read is comparing with the policy itself |
| AliasPermissions.CustomPreCompare | pkg/resource/alias/hooks.go:528-541 | Reports the permissions exactly when the lengths differ or the two lists do not agree in those seven fields |
| AliasPermissions.ByIDSize | pkg/resource/alias/hooks.go:398-411 | The lookup map is as large as the list exactly when every entry has its own statement ID |
| AliasPermissions.LengthShortcutSound | pkg/resource/alias/hooks.go:528-541 | With distinct IDs the report is exactly a non-empty comparison, in either argument order |
| AliasPermissions.ReportedWithoutGap | pkg/resource/alias/hooks.go:533-534 | With nothing left to do, a list is still reported exactly when it repeats an ID |
| AliasPermissions.RepeatedIDExample | pkg/resource/alias/hooks.go:533-534 | Such a list: one permission given twice |
| KeyedSync.GapAfterPrefix | pkg/resource/alias/hooks.go:436-470 | After any k calls of a plan the difference is exactly the original one less k |
| KeyedSync.ConflictFree | pkg/resource/alias/hooks.go:436-470 | In every order, no removal targets an absent ID and no addition a present one |
| KeyedSync.PlanConverges | pkg/resource/alias/hooks.go:436-470 | A complete plan leaves exactly the desired IDs, each entry as desired, and no difference |
| KeyedSync.MatchingUntouched | pkg/resource/alias/hooks.go:393-470 | An entry that already matched is the same entry at every point |
| KeyedSync.NoCallWasted | pkg/resource/alias/hooks.go:436-470 | Over any run of cut-off attempts, the calls made are exactly what the difference shrank by |
| AliasUpdate.NewResourceDelta | pkg/resource/alias/delta.go:34-173 | The delta is the permission report followed by the paths of every differing field, in order |
| AliasUpdate.SubResourcesExact | pkg/resource/alias/sdk.go:299-311 | The delta names event-invoke and concurrency exactly when they differ |
| AliasUpdate.OutsideSubResources | pkg/resource/alias/sdk.go:317-319 | The alias itself is updated exactly when a field outside the three sub-resources differs |
| AliasUpdate.SyncEventInvokeConfig | pkg/resource/alias/hooks.go:35-93 | Puts the desired configuration or deletes it; refused only when there is none to delete |
| AliasUpdate.UpdateProvisionedConcurrency | pkg/resource/alias/hooks.go:97-134 | Puts the desired executions or deletes the configuration |
| AliasUpdate.SyncPermissions | pkg/resource/alias/hooks.go:436-470 | Terminal exactly when a statement ID is missing; otherwise a prefix of a permission plan, none refused after a current read |
| AliasUpdate.SdkUpdate | pkg/resource/alias/sdk.go:288-400 | Whatever fails, a prefix of one plan in the order event-invoke, concurrency, permissions, alias; after a current read only the last can be refused, exactly when the recorded revision is set and stale |
| AliasUpdate.UpdateTrace | pkg/resource/alias/sdk.go:288-400 | A whole update makes each call that is due and no other, in the order event-invoke, concurrency, removals, additions, alias; due is said of the spec and the delta, call by call |
| AliasConvergence.AliasDeltaEmpty | pkg/resource/alias/delta.go:34-173 | The delta is empty exactly when every compared field is equal and no permission is reported |
| AliasConvergence.AliasConverges | pkg/resource/alias/sdk.go:288-333 | A whole update, ended by a missing statement ID or not, empties the delta if and only if the spec can settle |
| AliasConvergence.RunKeepsSettling | pkg/resource/alias/sdk.go:288-333 | No run of updates, cut off anywhere, changes whether the spec can settle |
| AliasConvergence.RunConverges | pkg/resource/alias/sdk.go:288-333 | After any such run, a whole update empties the delta if and only if the spec could settle at first |
| AliasConvergence.CreateIsUpdateOfBareAlias | pkg/resource/alias/sdk.go:228-251 | Creating makes exactly the calls that updating the bare alias would make, also when a statement ID is missing |
| AliasCreate.SdkCreate | pkg/resource/alias/sdk.go:228-253 | Whatever fails, a prefix of a creation plan; none refused on a new alias |
| TagSync.CompareMaps | pkg/resource/function/hooks.go:518-543 | Added, removed and updated entries, each key once, in any map order |
| TagSync.CompareMapsPartition | pkg/resource/function/hooks.go:518-543 | The parts are disjoint, cover all keys, and rebuild the second map from the first |
| TagSync.UpdateFunctionTags | pkg/resource/function/hooks.go:393-447 | The calls made are a prefix of the plan for the two maps, complete exactly on success |
| TagSync.SyncTags | pkg/resource/tags/sync.go:43-92 | The same plan, reached by differences of pairs |
| TagSync.PairsByKey | pkg/resource/tags/sync.go:56-72 | Differences of pairs are the outdated keys and the wanted entries |
| TagSync.PlanExact | pkg/resource/function/hooks.go:404-447 | A removal comes first and names exactly the keys that are not desired or hold another value; an addition comes last and holds exactly the desired entries that are absent or hold another value |
| TagSync.PlanComplete | pkg/resource/function/hooks.go:404-447 | Each of the two calls is made exactly when there is something in it |
| TagSync.PlanConverges | pkg/resource/tags/sync.go:43-92 | A complete plan makes the tags the desired ones, for every pair of maps |
| TagSync.PlanResumes | pkg/resource/tags/sync.go:43-92 | Cut off anywhere and planned again, the new plan is the rest of the old one |
| TagSync.MatchingTagUntouched | pkg/resource/function/hooks.go:404-447 | A tag that already matches keeps its value at every point |
| SystemTags.Resource.MirrorAWSTags | pkg/resource/function/manager.go:358-370 | The desired tags become the mirrored ones; nothing happens without a resource read |
| SystemTags.Resource.FilterSystemTags | pkg/resource/function/manager.go:335-350 | A key is left exactly when it was there, does not start with aws: and is not one of the system tags; it keeps its value, a nil one becoming empty |
| SystemTags.Resource.EnsureTags | pkg/resource/function/manager.go:297-315 | The keys are those of both; every tag there was keeps its value, every other has its default |
| SystemTags.SyncAWSTags | pkg/resource/function/tags.go:102-108 | Adds exactly the observed tags under aws: |
| SystemTags.IgnoreSystemTags | pkg/resource/function/tags.go:74-81 | A key is left exactly when it was there, does not start with aws: and is not listed; it keeps its value |
| SystemTags.MirrorLeavesNoTrace | pkg/resource/function/manager.go:335-370 | Filtering after mirroring is filtering without it, and mirroring twice is mirroring once |
| SystemTags.MirroredPlanSpares | pkg/resource/tags/sync.go:56-72 | No removal names a system tag; an addition does exactly when the user asks for one the service lacks |
| SystemTags.MirroredPlanAccepted | pkg/resource/tags/sync.go:43-92 | The service accepts the whole plan exactly when no such tag is asked for |
| SystemTags.SystemTagsSurvive | pkg/resource/function/tags.go:84-108 | Every system tag is there, unchanged, at every point of the plan |
| SystemTags.UserTagsConverge | pkg/resource/function/manager.go:97-118 | After the plan, the filtered tags are the filtered desired tags |
| FunctionSpecs.CustomPreCompare | pkg/resource/function/hooks.go:545-574 | Adds exactly the code path on a nil difference, or the hash path for a zip package whose declared hash differs |
| FunctionSpecs.CompareCode | pkg/resource/function/delta.go:53-87 | Adds the paths at which nil code, image, location or zip file differ, and never the hash |
| FunctionSpecs.NewResourceDelta | pkg/resource/function/delta.go:34-419 | The delta is that report followed by the paths of every differing field, block by block in order |
| FunctionSpecs.HashExact | pkg/resource/function/hooks.go:545-574 | The delta names the hash exactly for a zip package with a declared hash that differs |
| FunctionSpecs.ImageExact | pkg/resource/function/delta.go:53-65 | The delta names the image exactly when both sides have code and the images differ |
| FunctionSpecs.NamedFieldsExact | pkg/resource/function/hooks.go:96-135 | The delta names each separately updated field exactly when it differs |
| FunctionSpecs.RestExact | pkg/resource/function/hooks.go:139-145 | The configuration case is taken exactly when architectures, package type or configuration differ |
| FunctionSpecs.FunctionDeltaEmpty | pkg/resource/function/delta.go:34-419 | The delta is empty exactly when all compared fields and the hash agree |
| FunctionUpdate.BuildConfigRequest | pkg/resource/function/hooks.go:165-381 | Block by block, in order: a named field is set, cleared, converted or skipped; no request if a duration is out of range, or else a named field panics. What it then holds is said field by field in the next rows |
| FunctionUpdate.RequestNames | pkg/resource/function/hooks.go:165-381 | Only eighteen fields are ever in the request, and only where the delta names them |
| FunctionUpdate.RequestOfAbsent | pkg/resource/function/hooks.go:165-381 | A field that the delta names and the spec leaves out: texts are sent empty, numbers zero, six structures with nothing in them, and the other six fields are not sent |
| FunctionUpdate.RequestOfValue | pkg/resource/function/hooks.go:165-381 | A field that the spec gives is sent as it is, numbers as int32, an empty runtime and an image configuration without an image not at all |
| FunctionUpdate.RequestOfNumbers | pkg/resource/function/hooks.go:189-235 | Storage size and both durations are sent as int32, each in its own place |
| FunctionUpdate.RequestOfEnums | pkg/resource/function/hooks.go:298-364 | The enumerated texts of snap start, tracing and logging are sent unless empty; the log group always is |
| FunctionUpdate.FieldsPanicExact | pkg/resource/function/hooks.go:228-364 | The request panics exactly on a named ephemeral storage, snap start or tracing with nil inside, or an image configuration without code |
| FunctionUpdate.BuildCodeRequest | pkg/resource/function/hooks.go:451-505 | The request deploys the desired package, else the desired image, else what was read, and panics exactly where it then dereferences code that was not read |
| FunctionUpdate.CodeUpdateExact | pkg/resource/function/hooks.go:451-505 | Every field of the request by cases: hash named, image named, code that was read for an image or a zip package, nothing; and the exact inputs that dereference code that was not read |
| FunctionUpdate.NarrowedExact | pkg/resource/function/hooks.go:228-235 | Converting a tree's numbers changes nothing exactly when every one fits int32 |
| FunctionUpdate.SerializedExact | pkg/resource/function/hooks.go:294-308 | A structure is sent as it is exactly when no enumerated field in it is empty |
| FunctionUpdate.UpdateConversion | pkg/resource/function/hooks.go:228-235 | An update sends storage size, memory size or timeout as asked for exactly when it fits |
| FunctionUpdate.BuildCreateNumbers | pkg/resource/function/sdk.go:845-980 | A create request is built exactly when every number fits, holds them as they are, and else names the first number that does not |
| FunctionUpdate.MisfitNames | pkg/resource/function/sdk.go:845-980 | Which numbers a create request checks, in which order, and the field each error names |
| FunctionUpdate.SyncTags | pkg/resource/function/hooks.go:96-101 | A prefix of the tag plan, if the delta names the tags |
| FunctionUpdate.SyncSettings | pkg/resource/function/hooks.go:102-113 | A prefix of the concurrency and event-invoke calls the delta asks for |
| FunctionUpdate.SyncSigning | pkg/resource/function/hooks.go:114-125 | The code signing call, or the terminal error for a container image |
| FunctionUpdate.CustomUpdateFunction | pkg/resource/function/hooks.go:79-161 | Whatever fails, a prefix of one plan; if none fails, the pass ends pending, with the code signing error, the tenancy error, an out-of-range duration, a panic, or its final read, each exactly when state, spec and delta say so |
| FunctionUpdate.VerdictExact | pkg/resource/function/hooks.go:79-161 | For each outcome, exactly when a pass without a failed call ends in it, in terms of the state, the spec and the paths of the delta |
| FunctionTrace.TraceSafety | pkg/resource/function/hooks.go:92-154 | A pass makes each call that is due and no other, in order: none while pending, never code and configuration both, neither after a terminal error |
| FunctionConvergence.ReadDelta | pkg/resource/function/sdk.go:88-428 | What a pass asks of the delta after a read, answered from what the service holds |
| FunctionConvergence.ReadDeltaEmpty | pkg/resource/function/sdk.go:385-428 | Exactly when nothing is reported; missing tags and code signing configuration are not missed |
| FunctionConvergence.SettableExact | pkg/resource/function/hooks.go:165-381 | Exactly when a configuration field can be sent and then reads back as desired |
| FunctionConvergence.ConfigStep | pkg/resource/function/hooks.go:139-150 | The configuration case settles exactly the settable fields that differ, none if its request is not filled in, and touches no other |
| FunctionConvergence.CodeStep | pkg/resource/function/hooks.go:451-513 | One code call brings the code one call closer if it can settle at all, and otherwise leaves it outstanding |
| FunctionConvergence.SettingsSettle | pkg/resource/function/hooks.go:96-125 | Complete settings agree with the spec exactly when they can be read back as put |
| FunctionConvergence.PassStep | pkg/resource/function/hooks.go:79-161 | No pass changes whether the spec can be reached; a clean one makes one outstanding call, any other keeps the measure |
| FunctionConvergence.UpdateOnce | pkg/resource/function/hooks.go:79-161 | Comparing a current read and updating is such a pass, clean unless pending or a call failed; it ends as the two specs say |
| FunctionConvergence.ExitsExact | pkg/resource/function/hooks.go:79-161 | The same outcomes in terms of the two specs: the tenancy error exactly when the function is active, code signing does not end the pass, and the tenancies differ; and so for each other |
| FunctionConvergence.RunMeasure | pkg/resource/function/hooks.go:79-161 | Over any run the measure falls by one with every clean pass and with no other |
| FunctionConvergence.FunctionConverges | pkg/resource/function/hooks.go:79-161 | After any run with a clean pass, the delta is empty if and only if the spec could be reached and there were as many clean passes as it needed |
| FunctionLimits.PanicsExactly | pkg/resource/function/hooks.go:228-364 | A pass panics exactly when it reaches the configuration case, no duration is out of range, and a differing structure has a nil pointer inside |
| FunctionLimits.PanicBlocksConfiguration | pkg/resource/function/hooks.go:228-364 | With such a structure, no run ever changes the configuration |
| FunctionLimits.EmptyTracingPanics | pkg/resource/function/hooks.go:358-364 | A tracing configuration without a mode: every pass over one state panics |
| FunctionLimits.EmptyUpdateExact | pkg/resource/function/hooks.go:139-150 | A pass ends in an empty configuration update exactly when something differs, nothing of it can be sent, no code is outstanding and no terminal error comes first |
| FunctionLimits.EmptyUpdatesForEver | pkg/resource/function/hooks.go:139-150 | Then it does after any run, and the delta never empties |
| FunctionLimits.ThirdPassNeeded | pkg/resource/function/hooks.go:488-502 | A reachable spec that needs three clean passes |
| FunctionLimits.CodeBlocksConfiguration | pkg/resource/function/hooks.go:132-150 | While code cannot settle, no run ever changes the configuration |
| FunctionLimits.LostTagsStayLost | pkg/resource/function/sdk.go:414-422 | Once the service has no tags, no run of updates adds one |
| FunctionLimits.CutOffTaggingRepaired | pkg/resource/function/hooks.go:404-447 | After a pass cut off after untagging, the tag calls of the next make the tags the desired ones exactly when some tag was left |
| FunctionLimits.OnlyTagLost | pkg/resource/function/hooks.go:404-447 | A spec whose only tag changes: the cut-off pass leaves no tag |
| FunctionLimits.NoArchitectureListed | pkg/resource/function/hooks.go:132-134 | A spec that lists no architecture: its code cannot settle |
| FunctionLimits.NoPackageType | pkg/resource/function/hooks.go:139-150 | A spec that leaves the package type out: an empty update is due |
| FunctionSilence.SilenceMeans | pkg/resource/function/sdk.go:88-428 | An empty delta in terms of the service: what agrees, what may be missing, and of what nothing is said |
| FunctionSilence.UnseenStays | pkg/resource/function/sdk.go:389-413 | No run changes the image configuration, or gives layers to a function without |
| FunctionSilence.UnsignedStaysUnsigned | pkg/resource/function/hooks.go:790-792 | No run gives a function the code signing configuration it lacks |
| FunctionSilence.AddedLayerUnsent | pkg/resource/function/sdk.go:389-413 | A layer and code signing added to a function without either are not reported |
| EventSourceUpdate.EqualStrings | pkg/resource/event_source_mapping/hooks.go:89-94 | Equal exactly when the patterns are, nil counting as empty |
| EventSourceUpdate.EqualFilterSlices | pkg/resource/event_source_mapping/hooks.go:41-57 | Equal exactly when all patterns are, and the exact inputs that dereference nil |
| EventSourceUpdate.PatternsReturned | pkg/resource/event_source_mapping/hooks.go:89-94 | Filters that the service returns with their patterns are compared without a panic |
| EventSourceUpdate.CustomPreCompare | pkg/resource/event_source_mapping/hooks.go:25-37 | Adds the criteria path on a nil difference, the filters path on differing filters, else nothing |
| EventSourceUpdate.OverrideExact | pkg/resource/event_source_mapping/hooks.go:64-87 | The request is overridden exactly when filters are there and none are wanted |
| EventSourceUpdate.DeletedExact | pkg/resource/event_source_mapping/hooks.go:59-87 | The same in terms of the two specs and the paths of the delta |
| EventSourceUpdate.UpdateFaithful | pkg/resource/event_source_mapping/sdk.go:1015-1027 | An update that reaches the service leaves exactly the desired filters |
| EventSourceUpdate.OverrideNeeded | pkg/resource/event_source_mapping/sdk.go:1020-1027 | Without the override that fails exactly when the criteria were removed while filters are there |
| EventSourceUpdate.SilentMeansSame | pkg/resource/event_source_mapping/hooks.go:25-37 | No report means the service has the desired patterns |
| EventSourceUpdate.FiltersSettle | pkg/resource/event_source_mapping/hooks.go:25-37 | After an update the comparison is silent exactly when the criteria are not present and empty, and never panics |
| EventSourceUpdate.NewRequestPayload | pkg/resource/event_source_mapping/sdk.go:737-986 | Built exactly when every number fits int32; it then holds every one as it was, else the error names the first misfit |
| EventSourceUpdate.MisfitsExact | pkg/resource/event_source_mapping/sdk.go:737-986 | Which number an error names: batch size, batching window, record age, retry attempts, parallelization, concurrency, tumbling window, the first that does not fit |
| EventSourceUpdate.EditedPatternPanics | pkg/resource/event_source_mapping/hooks.go:89-94 | A filter put without a pattern, read back and then given one, makes the comparison dereference nil |
| EventSourceUpdate.SdkUpdate | pkg/resource/event_source_mapping/sdk.go:994-1035 | Tags first, then one request exactly when anything else differs; the service then has the desired filters |
| ReferenceSlots.ResolveSlot | pkg/resource/function/references.go:466-500 | With a live reference that has a name, the slot holds exactly the cluster's answer for that kind, name and namespace; an empty name or a failing answer is the error and leaves the slot alone |
| ReferenceSlots.ResolveList | pkg/resource/function/references.go:557-598 | The values appended are the cluster's answers for the live references, one by one in order, up to the first without one, whose error is returned |
| ReferenceSlots.ResolvingTwiceRepeats | pkg/resource/function/references.go:557-598 | Without clearing, resolving again appends the values again, unless no reference is live |
| FunctionReferences.ValidMeans | pkg/resource/function/references.go:150-185 | Validation passes exactly when no field has both and the role has one of the two |
| FunctionReferences.FunctionObject.ClearResolvedReferences | pkg/resource/function/references.go:57-93 | A fresh copy without the values of fields that have references; the original is kept |
| FunctionReferences.FunctionObject.ResolveReferences | pkg/resource/function/references.go:100-146 | Resolves field by field up to the first failure; validation does not stop it |
| FunctionReferences.ClearUndoesResolve | pkg/resource/function/references.go:57-146 | Wherever resolving stopped, clearing leaves what it would have left before |
| FunctionReferences.ClearRestores | pkg/resource/function/references.go:57-146 | That is the original spec exactly when no field had both a value and a reference |
| FunctionReferences.ClearExact | pkg/resource/function/references.go:57-93 | Field by field: a value goes exactly where there is a reference, and nothing else changes |
| FunctionReferences.RetryAfterClear | pkg/resource/function/references.go:57-146 | Resolving after clearing gives what a first attempt would have given |
| FunctionReferences.ResolvedCompletely | pkg/resource/function/references.go:100-146 | Without a failure every field is resolved, each as its own kind, and nothing else has changed |
| FunctionReferences.FieldsAnswered | pkg/resource/function/references.go:191-500 | Without a failure each field with a live reference holds the cluster's answer for the kind that field asks for: bucket, code signing configuration, key, role |
| FunctionReferences.ListsAnswered | pkg/resource/function/references.go:557-700 | Without a failure the security groups and subnets hold what they held and then the cluster's answers for their live references, in order |
| FunctionReferences.ResolveExact | pkg/resource/function/references.go:100-146 | With a failure too: every field before the failing one holds the cluster's answers, and the others are as they were |
| FunctionReferences.HasReferencesExact | pkg/resource/function/references.go:100-146 | The spec is reported to have references exactly when some field has a live one |
| EventSourceReferences.ResolveAccessConfigs | pkg/resource/event_source_mapping/references.go:156-196 | Elements before the first failing one are resolved in place, the others kept |
| EventSourceReferences.ValidMeans | pkg/resource/event_source_mapping/references.go:123-150 | Validation passes exactly when no field or element has both and the function has one of the two |
| EventSourceReferences.MappingObject.ClearResolvedReferences | pkg/resource/event_source_mapping/references.go:50-78 | A fresh copy without the values of fields and elements that have references; the original is kept |
| EventSourceReferences.MappingObject.ResolveReferences | pkg/resource/event_source_mapping/references.go:85-119 | Resolves in place up to the first failure; validation does not stop it |
| EventSourceReferences.ClearUndoesResolve | pkg/resource/event_source_mapping/references.go:50-119 | Wherever resolving stopped, in whichever element, clearing leaves what it would have left before, and the original exactly when nothing had both |
| EventSourceReferences.RetryAfterClear | pkg/resource/event_source_mapping/references.go:50-119 | Resolving after clearing gives what a first attempt would have given |
| EventSourceReferences.ClearExact | pkg/resource/event_source_mapping/references.go:50-78 | Field by field and element by element: a value goes exactly where there is a reference, and nothing else changes |
| EventSourceReferences.FieldsAnswered | pkg/resource/event_source_mapping/references.go:156-380 | Without a failure each element and field with a live reference holds the cluster's answer for its kind: secret, cluster, function |
| EventSourceReferences.QueuesAnswered | pkg/resource/event_source_mapping/references.go:435-476 | Without a failure the queues hold what they held and then the brokers' answers for their live references, in order |
| EventSourceReferences.ResolvedCompletely | pkg/resource/event_source_mapping/references.go:85-119 | Without a failure every element and field is resolved, each as its own kind, and nothing else has changed |
| EventSourceReferences.ResolveExact | pkg/resource/event_source_mapping/references.go:85-119 | With a failure too: whatever comes before the failing element or field holds the cluster's answers, and the others are as they were |
| Conditions.UpdateConditions | pkg/resource/function/sdk.go:1081-1154 | Edits a copy; the resource given keeps its conditions; nothing is returned exactly when nothing is managed |
| Conditions.TerminalExact | pkg/resource/function/sdk.go:1081-1154 | A terminal error sets the last Terminal condition to true with its message, or appends one, and leaves every other condition alone |
| Conditions.RecoverableExact | pkg/resource/function/sdk.go:1081-1154 | Any other error sets the last Terminal condition to false without a message, and the last Recoverable one to true with its message, or appends one |
| Conditions.SuccessExact | pkg/resource/function/sdk.go:1081-1154 | A success sets both to false without a message and appends nothing |
| Conditions.OnError | pkg/resource/function/manager.go:399-419 | The terminal mark is returned exactly when an updated Terminal condition is true |
| Conditions.OnSuccess | pkg/resource/function/manager.go:423-434 | The updated copy, or the resource itself when it has no managed condition |
| Conditions.History | pkg/resource/function/sdk.go:1081-1154 | Over any history: Terminal is true exactly when the last outcome was terminal, Recoverable exactly when the last other one was an error; kinds stay unique, the others keep value and order |
| Conditions.TerminalMarkExact | pkg/resource/function/manager.go:399-419 | An operation returns the terminal mark exactly on a terminal error |
| Conditions.BothCanHold | pkg/resource/function/sdk.go:1104-1148 | Both conditions can be true at once |
| ManagerCache.KeyInjective | pkg/resource/function/manager_factory.go:58-61 | Keys are injective when accounts and regions hold no slash |
| ManagerCache.KeyCollision | pkg/resource/function/manager_factory.go:58-61 | With a slash they are not |
| ManagerCache.KeyUnique | pkg/resource/function/manager_factory.go:58-61 | A request shares its key with no slash-free request but itself exactly when it is slash-free |
| ManagerCache.Exclusion | pkg/resource/function/manager_factory.go:62-77 | No call reads the cache while another writes it, and no two write it |
| ManagerCache.ReturnedManagerFits | pkg/resource/function/manager_factory.go:48-79 | In every interleaving a returned manager was built for the caller's account, region and role |
| ManagerCache.KeysStay | pkg/resource/function/manager_factory.go:62-78 | Keys never leave the cache, and no lookup of a cached key misses |
| ManagerCache.BuildsBounded | pkg/resource/function/manager_factory.go:62-78 | The calls that build for a key are among those that missed before its first insert |
| ManagerCache.BuildersExact | pkg/resource/function/manager_factory.go:62-78 | At any point the builders for a key are exactly the missed calls that got through; more than one exactly when two did |
| ManagerCache.EndedBuilders | pkg/resource/function/manager_factory.go:62-78 | Once all calls have ended, they are exactly those that missed and returned |
| ManagerCache.TwoManagersForOneKey | pkg/resource/function/manager_factory.go:62-78 | A run in which two calls for one key build two managers |
| ManagerCache.NoDeadlock | pkg/resource/function/manager_factory.go:62-78 | While a call is unfinished some call can take a step |
| ManagerCache.StepAdvances | pkg/resource/function/manager_factory.go:48-79 | Every step brings its call closer to the end |
| LayerPruning.CustomPreDelete | pkg/resource/layer_version/hooks.go:28-72 | Sorts the list in place and deletes its elements but the last in order, stopping at the first failure |
| LayerPruning.NewestAreKept | pkg/resource/layer_version/hooks.go:50-69 | At every point exactly the listed versions newer than the last deleted are left, and every unlisted one |
| LayerPruning.SuffixLeft | pkg/resource/layer_version/hooks.go:50-69 | What is left of the listed ones is a suffix exactly when the last deleted version is not listed again |
| LayerPruning.FullRunLeavesNewest | pkg/resource/layer_version/hooks.go:50-69 | A full run leaves exactly the newest listed version, provided it is listed once |

## Left out

- The AWS SDK, Kubernetes reads, logging, metrics and error texts: calls succeed or fail, and references are answered by a function.
- `cmd/controller/main.go`, descriptors, identifiers, the registry and generated copies: wiring and mechanical copying.
- Response copies: only the fields that a statement needs are modelled; a function's remaining configuration is a map from field name to a tree.
- The other resources' copies of the tag, manager, factory and condition code: one model each.
- The eighteen blocks of a function's configuration request are four patterns, applied in their order.
- The generated comparisons of an event source mapping's other fields stand as any list of paths outside the filters.
- Late initialization, the requeue delays and the deletion hooks that only check the function's state.
- Refused tag calls in the statements about runs of function updates: a pass simply ends there. SystemTags.MirroredPlanAccepted says when it would.
- Reading the policy document: permissions start as statements with non-empty IDs.
- Listing further pages of layer versions: the statements are about the listed versions.

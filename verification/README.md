# Korifi in Dafny

Korifi serves the Cloud Foundry API from a Kubernetes object store. Its guarantees do not sit in single functions
but in what plain Go code keeps true across many store operations, across interleaved callers and across in-place
edits of lists. This project models those parts and proves properties of them. `dafny verify dfyconfig.toml` checks
all of it.

| file | what it models |
|---|---|
| `Common.dfy` | options, results, faults and filtering |
| `Numbers.dfy` | decimal numbers, printed and parsed |
| `NameRegistry.dfy` | leases that register and lock names: store, JSON Patch (sections 4.3, 4.6 and 5 of RFC 6902), registry calls, and runs of calls by any number of callers |
| `Authorization.dfy` | service-account names, subjects, the per-namespace permission check and the aggregated scan |
| `Roles.dfy` | from role payload to message to the two role bindings to listed records, in single calls and interleaved |
| `PlanVisibility.dfy` | plan visibility: sort and compact, removal on the shared backing array, runs of requests, late merge patches |
| `TaskWorkload.dfy` | the task workload reconciler, interleaved with the job's progress and its deletion |
| `ExpiringCache.dfy`, `Caches.dfy` | the cache protocol, and the identity and platform-user caches with their byte keys |
| `ListOptions.dfy` | list options, label selectors and the space filter |
| `Purge.dfy` | deleting a service offering, and the purge of its plans, instances and bindings |
| `Retention.dfy` | keeping the newest of a set: guarantees of one run and of runs on top of each other |
| `Cleaners.dfy` | the build and package cleaners, run alone and step by step beside everything else |
| `Stats.dfy` | folding pods into process statistics, and adding up container metrics |
| `JobGuid.dfy` | printing and parsing job GUIDs |
| `Routes.dfy` | merging, reporting and removing route destinations |

Code that changes state is modelled by classes whose methods are proved against functions of the old state; what the
source promises is then proved of those functions and of runs. Store operations are atomic and may fail. Where a
call's failures matter one by one they are parameters (`Fault`, `...Fails`; a create may take effect and its reply be
lost); where there is no bound on their number a
store that is not `reliable` refuses operations nondeterministically. Digests (SHA-1, SHA-256) are parameters, assumed
injective only where a lemma says so. Generated GUIDs come from a supply, assumed fresh only where a lemma says so.

## Where the code does less than one would expect

For each of these the lemmas named say exactly when the code does what one would expect, over all inputs or runs,
unless the line says otherwise.

- A lock or unlock whose reply is lost leaves callers out of step, so that successful locks and unlocks no longer
  alternate (`SuccessesAlternate`, `SuccessesAlternateIff`, `LostReplyMattersIff`; an instance in
  `LostReplyBreaksAlternation`). Unlocking and deregistering do not ask who holds the lease, so exclusion holds exactly
  when nobody releases a lease for its holder (`MutualExclusionIff`; an instance in `ForeignReleaseBreaksExclusion`).
- A grant that made its first binding and failed after that, or whose reply to making it was lost, cannot be completed by repeating it (`RetryCompletesIff`,
  `PartialGrantIsStuck`). Users and service accounts can share the name of a binding (`BindingNamesMeetIff`,
  `UserCanCollideWithServiceAccount`), and then one that succeeds lacks its cf_user binding (`SuccessLeavesBothIff`).
  The parent org is looked at exactly for messages that name a space, whatever namespace an org role goes to
  (`CheckedIff`; an instance in `OrgRolesAreUnchecked`).
- Removing an org from a plan that lists it twice skips elements or panics (`RemovalIsCorrectIff`). Late writes can leave
  a plan that is not of type organization with orgs (`WriteKeepsInvariantIff`; an instance in `LateWriteCanBreakInvariant`).
- Until Initialized is saved, a task can run again, any number of times (`AnotherRunIff`, `LostSaveLetsTaskRunTwice`);
  without further job deletions exactly when there is no job (`AnotherRunWithoutDeletionIff`). A reconcile that may read
  an old copy can always run a task again (`StaleReadRunsTaskAgain`).
- A cached answer can be older than the lifetime of an entry by the time between answer and store, and is exactly when
  that can take any time (`OutdatedIdentityIff`, `OutdatedYesIff`). A token and a certificate with the same bytes share an
  entry (`InfoKeysMeetIff`, `TokenAndCertCanShareAnEntry`).
- Purging an offering without plans is about every service instance in sight (`PurgeIsExactIff`), and so is repeating a
  purge that failed after the plans were deleted; one that failed in the middle of them makes a repetition miss instances
  (`RetryIsSafeIff`). A purge fails on an instance that is already being
  deleted and waits only for Korifi's finalizer (`DeleteOffering`).
- While a finalizer holds deleted items back, a further run of a cleaner can take an item that was to be retained, if it
  is of the same second as a pending one (`RerunAsksNothingNew`, `RerunFinishesTheWork`). A build or package is taken
  from under an app's new droplet exactly when a cleaner that began before aims at it (`DropletIsSafeIff`).
- The comment beside the job pattern gives CUSTOM_ORG_ID as an identifier, but the pattern has no underscore; the model
  follows the pattern (`PrintedIsParsedIff`, `UnderscoreCutsIdentifier`).
- Asking again for a destination without a port duplicates it once the status shows its port (`RemergeAddsNothingIff`);
  any add writes the shown ports into the route (`AddFixesPorts`) and drops what was added since its records were read
  (`StaleAddKeepsIff`).

## Model

| member | source | states |
|---|---|---|
| NameRegistry.SwapPatchIsCompareAndSwap | controllers/coordination/name_registry.go:122-125 | A patch of a test and a replace, applied operation by operation, is an atomic compare-and-swap on the holder: it changes the holder exactly when it was the tested value, and otherwise fails as a whole. |
| NameRegistry.Registry.RegisterName | controllers/coordination/name_registry.go:49-83 | Creates the unlocked lease with its owner exactly when the name is free, reports a taken name, and does nothing on a dry run, whatever the fault. |
| NameRegistry.Registry.DeregisterName | controllers/coordination/name_registry.go:85-107 | Deletes the lease of the name and no other; a name that is not registered is no error. |
| NameRegistry.Registry.TryLockName | controllers/coordination/name_registry.go:109-133 | Locks exactly an unlocked lease, leaving its owner alone, and reports success exactly when it did and the reply arrived. |
| NameRegistry.Registry.UnlockName | controllers/coordination/name_registry.go:135-159 | Unlocks exactly a locked lease, leaving its owner alone. |
| NameRegistry.Registry.CheckNameOwnership | controllers/coordination/name_registry.go:161-171 | Answers whether the lease of the name records the given owner, and fails when there is no lease. |
| NameRegistry.CallMeaning | controllers/coordination/name_registry.go:49-190 | Each call told by its lease name, spelled out, and what is there: what it leaves and what it answers, dry runs, taken and free names, missing leases, refused calls and lost replies included. |
| NameRegistry.LocksAlternate | controllers/coordination/name_registry.go:109-159 | In every interleaving of calls, the locks and unlocks of a lease since its creation alternate, a lock first, and their parity is the holder that the lease records. |
| NameRegistry.ReportedIsApplied | controllers/coordination/name_registry.go:127-130 | Unless a reply about the lease is lost, what callers were told is what the store did. |
| NameRegistry.SuccessesAlternate | controllers/coordination/name_registry.go:109-159 | Over any run, callers are in step with a lease all along (what they were told alternates, lock first, and tells whether the lease is locked) exactly when no lost reply tells: none to an effective lock or unlock, nor to the renewal of a lease last heard of as locked. |
| NameRegistry.SuccessesAlternateIff | controllers/coordination/name_registry.go:109-159 | After any run, successful locks and unlocks alternate in every fault-free continuation exactly when the callers are in step. |
| NameRegistry.LostReplyMattersIff | controllers/coordination/name_registry.go:127-130 | From any run in step, a next call lets some fault-free continuation break the alternation exactly when its reply is lost and tells. |
| NameRegistry.LostReplyBreaksAlternation | controllers/coordination/name_registry.go:127-130 | For every name and callers, the run of a registration, a lock whose reply is lost and an unlock reports an unlock as its only success. |
| NameRegistry.MutualExclusionIff | controllers/coordination/name_registry.go:109-159 | All along a run at most one caller holds a lease, and the lease says locked exactly when one does, if and only if held leases are released only by their holders. |
| NameRegistry.ForeignReleaseBreaksExclusion | controllers/coordination/name_registry.go:148-151 | For every name, an unlock by any third caller after a lock lets any further caller in as a second holder. |
| NameRegistry.RegistriesMeetIff | controllers/coordination/name_registry.go:173-176 | Registries of two entity types can touch one lease exactly when one type with its "::" is a prefix of the other. |
| NameRegistry.ColonFreeKeys | controllers/coordination/name_registry.go:173-176 | For types without a colon the lease name determines the type and the name. |
| NameRegistry.CallsAreIsolated | controllers/coordination/name_registry.go:49-159 | A call leaves the leases of all other names and types as they were; dry runs and refused calls leave all. |
| NameRegistry.LeaseRecordsOwner | controllers/coordination/name_registry.go:58-73 | In every reachable state the lease of a name exists and records an owner exactly when the calls alone give the name that owner: the latest effective registration not followed by a deregistration. |
| NameRegistry.OwnershipCheckIsExact | controllers/coordination/name_registry.go:161-171 | In every reachable state the ownership check is true for exactly that owner and fails for a free name. |
| NameRegistry.RegistrationIsExclusive | controllers/coordination/name_registry.go:75-78 | In every reachable state registration succeeds exactly on names without an owner, and makes the caller the owner. |
| Authorization.PrefixedNameHasSegments | api/authorization/namespace_permissions.go:123-129 | A name with the service-account prefix always has the segments that the parser indexes without looking. |
| Authorization.ParsePrintedIff | api/authorization/namespace_permissions.go:123-129 | Parsing a printed service-account name gives back namespace and name exactly when neither holds a colon. |
| Authorization.PrintParsedIff | api/authorization/namespace_permissions.go:123-129 | Printing what was parsed gives back the name exactly when it is canonical, with four segments. |
| Authorization.SameSubjectMeaning | api/authorization/namespace_permissions.go:107-121 | For every identity: the comparison fails exactly for a service account without the prefix, of equal kind; otherwise it means equal kinds and equal names, or for service accounts a name that ends in the namespace and name of the subject, which for canonical names is the name that the cluster prints. |
| Authorization.NamespacePermissions.AuthorizedIn | api/authorization/namespace_permissions.go:85-105 | The early exits do not matter: true exactly when some subject of some binding of the namespace is the identity, an error exactly when the listing fails or some subject cannot be compared. |
| Authorization.NamespacePermissions.GetAuthorizedNamespaces | api/authorization/namespace_permissions.go:45-83 | The result holds exactly the namespaces that carry the org or space label and have a binding that names the caller. |
| Authorization.NamedOrTripped | api/authorization/namespace_permissions.go:112-116 | An identity that cannot be compared with some subject matches no subject of any binding, so the order in which bindings are listed is immaterial. |
| Authorization.ScanAgreesWithDirectCheck | api/authorization/namespace_permissions.go:45-105 | For every list of bindings the scan grants a namespace exactly when the direct check says yes there, and fails exactly when the direct check fails somewhere. |
| Authorization.AuthorizedMeaning | api/authorization/namespace_permissions.go:45-105 | The direct check says yes, and the scan grants, exactly when some binding of the namespace has the identity as a subject, and the check fails exactly when one has a subject that cannot be compared with it. |
| Authorization.LabelledMeaning | api/authorization/namespace_permissions.go:57-68 | The namespaces that the scan may grant: those listed with the label. |
| Roles.ToMessage | api/payloads/role.go:52-89 | The steps come to the user that the payload asks for (a GUID before an origin before a plain name), split into namespace and name exactly when it is a service account. |
| Roles.MessageMeaning | api/payloads/role.go:52-89 | The message of any payload: its type, space and org; a service account exactly when the user asked for begins with the prefix, and then with namespace and name as the last two segments. |
| Roles.MessagesHoldNoColon | api/payloads/role.go:78-86 | Neither part of a service account in a message holds a colon. |
| Roles.CreatedBindingNamesIdentityIff | api/repositories/role_repository.go:178-198 | The binding that a grant creates names the identity that the grant built, exactly when no colon is in the way. |
| Roles.RoleRepo.ValidateOrgRequirements | api/repositories/role_repository.go:239-257 | Fails exactly for an unknown space, a failed check, or no binding in the space's org, in that order. |
| Roles.RoleRepo.CreateRole | api/repositories/role_repository.go:172-286 | The call ends with exactly the bindings and the error that check, bind and bind-in-root give one after the other; when it succeeds the role binding is there field by field, with its cluster role, its propagation and the role's GUID as told by the message and the mappings, a cf_user binding that was not there before does not propagate, and all else is as it was. |
| Roles.GrantLeaves | api/repositories/role_repository.go:198-286 | The same of every grant, whatever its check and faults: what a success leaves, field by field. |
| Roles.GrantAnswers | api/repositories/role_repository.go:172-237 | What a grant answers, in the order in which things can go wrong, and what it has made by then. |
| Roles.GrantIsFourSteps | api/repositories/role_repository.go:172-237 | An uninterrupted run of the interleaved machine's steps does what the grant does. |
| Roles.CreationIsRecorded | api/repositories/role_repository.go:198-209 | In the interleaved machine a step records a binding as created exactly when it adds it, under the name and in the namespace that the message calls for, and then changes nothing else; so what holds of recorded creations holds of bindings. |
| Roles.GrantAuthorizes | api/repositories/role_repository.go:198-237 | After a successful grant, for every listing of the bindings, the permission check in the granted namespace says yes to the identity. |
| Roles.SuccessAuthorizes | api/repositories/role_repository.go:198-237 | Over all interleavings: once a call has succeeded and until its role binding is removed, in every later state and for every listing, the permission check in its namespace says yes to its identity. |
| Roles.RetryCompletesIff | api/repositories/role_repository.go:172-237 | After any failed grant, a repetition without faults completes it exactly when the check passes now, there is a cf_user role, the name of the role binding was free, and the first attempt was stopped by its check or its create was refused; not when the create took effect and its reply was lost. |
| Roles.PartialGrantIsStuck | api/repositories/role_repository.go:200-223 | So once the role binding was made and the call failed, by a lost reply or later, every repetition is refused and changes nothing. |
| Roles.SpaceRolesFollowOrgRoles | api/repositories/role_repository.go:187-191 | Over all interleavings of calls and deletions, a call creates a binding in a space only after the same call has seen a binding of the same subject in the space's parent org. |
| Roles.CheckedIff | api/repositories/role_repository.go:187-196 | Over all interleavings, a binding is created after a sighting in an org by the same call exactly when the message names a space. |
| Roles.OrgRolesAreUnchecked | api/repositories/role_repository.go:187-196 | So a message that names a space as its org gets its binding there without any check. |
| Roles.BindingNamesMeetIff | api/repositories/role_repository.go:259-269 | Exactly when two subjects of any kind share a binding name, for role types without a colon: the same namespace and name, or the namespace and name of one read as the name, or a shorter namespace and a longer name, of the other. |
| Roles.BindingNameInjective | api/repositories/role_repository.go:259-269 | So names tell role types and subjects apart, among users without a slash and service accounts of non-empty namespaces without a slash. |
| Roles.UserCanCollideWithServiceAccount | api/repositories/role_repository.go:259-265 | A user shares a binding name with some such service account exactly when the user's first slash is not its first character. |
| Roles.RunsStayClean | api/repositories/role_repository.go:198-223 | Over all interleavings of clean calls, a binding that bears the name of a clean subject has that subject. |
| Roles.SuccessLeavesBoth | api/repositories/role_repository.go:198-237 | Over all interleavings of clean calls, every call that has succeeded has both the role binding and the cf_user binding of its subject, then and in every later state, until somebody unbinds them. |
| Roles.SuccessLeavesBothIff | api/repositories/role_repository.go:212-237 | Over all interleavings of any calls, when a call succeeds its role binding is there, and its cf_user binding is its subject's exactly when the name was free or already its subject's. |
| Roles.GetCFRoleName | api/repositories/role_repository.go:341-348 | Whatever the map's order, answers a type of that cluster role if there is one and nothing otherwise. |
| Roles.ToRoleRecord | api/repositories/role_repository.go:356-380 | The record is one that the binding can be listed as. |
| Roles.NotListed | api/repositories/role_repository.go:335-339 | Propagated copies and bindings of no mapped cluster role are not listed. |
| Roles.PayloadRoundTrip | api/repositories/role_repository.go:271-380 | From payload to record the kind and GUID come back, the user exactly when it is no service account or a canonical one, the type exactly when no other type shares its cluster role, and org and space exactly when the type's level fits them. |
| PlanVisibility.UniqIsCanonical | tools/collections.go:9-12 | Sorting and compacting gives the strictly sorted list of the same elements, fixes strictly sorted lists, and depends on the set of elements alone. |
| PlanVisibility.LessMeaning | tools/collections.go:9-12 | The order of the sort: a string comes first when it is a proper beginning of the other or has the smaller byte where they first differ. |
| PlanVisibility.RangeOverList | api/repositories/service_plan_repository.go:166-172 | The loop over the original slice header, with its in-place shifts and the stale tail it still reads, panics exactly when the org is last and also occurs earlier, and otherwise leaves the list in which an element after a removed one was never looked at. |
| PlanVisibility.RemovalIsCorrectIff | api/repositories/service_plan_repository.go:166-172 | Removal leaves exactly the list without the org, and does not panic, exactly when the org does not repeat next to itself or before the end; always on lists without duplicates. |
| PlanVisibility.ServicePlan.AppendAround | api/repositories/service_plan_repository.go:169 | The append around an index shifts the tail within the backing array and leaves one more copy of the last element behind. |
| PlanVisibility.ServicePlan.DeleteOrg | api/repositories/service_plan_repository.go:166-172 | Performed on a shared backing array, the loop panics exactly on such lists and otherwise leaves the skimmed list in the same array. |
| PlanVisibility.ServicePlan.ApplyVisibility | api/repositories/service_plan_repository.go:139-148 | Sets the type, and the orgs to the canonical union, or to none for other types. |
| PlanVisibility.ServicePlan.UpdateVisibility | api/repositories/service_plan_repository.go:156-159 | Sets the type and replaces the orgs by their canonical list. |
| PlanVisibility.ServeRefines | api/repositories/service_plan_repository.go:139-172 | On a strictly sorted list that is empty for other types, each validated request keeps the invariant, does union, replacement or removal on the set it stands for, and does not panic. |
| PlanVisibility.RunsRefine | api/repositories/service_plan_repository.go:139-172 | Over every sequence of validated requests the list machine refines the machine of a type and a set, and no removal panics. |
| PlanVisibility.UpdateKeepsInvariantIff | api/repositories/service_plan_repository.go:156-159 | An unvalidated update keeps the invariant exactly when it gives orgs to no type but organization; validation is stricter, and also wants orgs for that type. |
| PlanVisibility.InterleavedListsStaySorted | api/repositories/service_plan_repository.go:139-172 | In every interleaving, with requests served on earlier states and written as merge patches, the list stays strictly sorted. |
| PlanVisibility.WriteKeepsInvariantIff | api/repositories/service_plan_repository.go:139-172 | Told from the request and the two states: a write on the current state is as served; a late one breaks the invariant exactly when it adds to, changes or thins out the orgs of a plan that is no longer for organizations, or changes the type of a plan seen without orgs that has got some since. |
| PlanVisibility.LateWriteCanBreakInvariant | api/repositories/service_plan_repository.go:139-148 | Two concurrent applies can leave a public plan with orgs. |
| TaskWorkload.GetLastFailureTimestamp | job-task-runner/controllers/status.go:103-118 | The loop's running maximum, which LastFailureIsLatest characterizes. |
| TaskWorkload.LastFailureIsLatest | job-task-runner/controllers/status.go:103-118 | The timestamp is that of some failure and none is later, and there is none exactly without failures. |
| TaskWorkload.GetFailedContainerStatus | job-task-runner/controllers/status.go:72-101 | The end of the first container named workload of the only pod, exactly when there is one pod, such a container, and it has terminated; otherwise the error says which of these is missing. |
| TaskWorkload.GetStatusConditions | job-task-runner/controllers/status.go:24-70 | The conditions that the job's status calls for, in order, and an error exactly when a failure has no container end; ReportMeaning says which conditions these are. |
| TaskWorkload.ReportMeaning | job-task-runner/controllers/status.go:24-70 | Told from the job and its pod: each type once; Started and Succeeded with the job's own times, Failed with the time of a failed job condition that none follows and the reason and exit code of the first workload container's end; refused exactly when a failed job's only pod does not tell that end. |
| TaskWorkload.SetAllSets | job-task-runner/controllers/taskworkload_controller.go:216-219 | Setting true conditions adds exactly their types, keeps every earlier one with its time, and keeps types unique. |
| TaskWorkload.SetAllStores | job-task-runner/controllers/taskworkload_controller.go:216-219 | Setting conditions of different types stores each as it is, but for the time when its status is not new, and leaves the other types alone. |
| TaskWorkload.FindMeaning | job-task-runner/controllers/taskworkload_controller.go:127 | A look-up by type finds the first condition of the type, and nothing exactly when there is none. |
| TaskWorkload.ReportIsStaged | job-task-runner/controllers/taskworkload_controller.go:210-222 | Saving a report keeps the order of stages (Started implies Initialized; Succeeded or Failed imply Started), takes nothing back, and shows success or failure exactly when saved before or reported now. |
| TaskWorkload.StateGoesForwardIff | api/repositories/task_repository.go:246-259 | As conditions grow, the state read off them goes forward exactly unless a failed task is also said to succeed. |
| TaskWorkload.RecordTellsJob | api/repositories/task_repository.go:246-259 | After a report is saved, over any earlier conditions, the record's state told from the job: succeeded before failed before canceling before running. |
| TaskWorkload.Reconciler.GetOrCreateJob | job-task-runner/controllers/taskworkload_controller.go:118-156 | Answers the job there is; without one, nothing when Initialized is set and otherwise a new job; a failed read or create is answered as such and changes nothing. |
| TaskWorkload.Reconciler.UpdateTaskWorkloadStatus | job-task-runner/controllers/taskworkload_controller.go:210-222 | On an error saves nothing; otherwise everything that the job says is saved with exactly its time, reason and exit code (an earlier time where the status is not new), and nothing else is touched. |
| TaskWorkload.Reconciler.ReconcileResource | job-task-runner/controllers/taskworkload_controller.go:91-116 | One reconcile, from any conditions: a deleted workload is left alone, any other has its generation observed; conditions grow and stay staged if they were, an existing or an initialized task's job is never created, and after success all that the job says is saved. |
| TaskWorkload.ReconcileIsFiveSteps | job-task-runner/controllers/taskworkload_controller.go:91-156 | An uninterrupted run of the interleaved machine's steps does what the reconcile does. |
| TaskWorkload.OnceInitialized | job-task-runner/controllers/taskworkload_controller.go:118-136 | In every run with lost saves, job progress and job deletion: saved conditions stay staged and grow, the record state never goes back, and once Initialized is saved no job is created and all conditions come from one job. |
| TaskWorkload.CreationsArePremature | job-task-runner/controllers/taskworkload_controller.go:126-131 | In every run a job is created only when none exists and Initialized was not saved. |
| TaskWorkload.AtMostOnce | job-task-runner/controllers/taskworkload_controller.go:118-156 | In every run of fresh reads in which no job is deleted before Initialized is saved, at most one job is created. |
| TaskWorkload.AnotherRunWithoutDeletionIff | job-task-runner/controllers/taskworkload_controller.go:118-156 | After every run of fresh reads, some continuation without a job deletion creates another job exactly when there is no job and Initialized is not saved. |
| TaskWorkload.AnotherRunIff | job-task-runner/controllers/taskworkload_controller.go:118-136 | After every run of fresh reads, some continuation creates another job exactly when Initialized is not saved. |
| TaskWorkload.LostSaveLetsTaskRunTwice | job-task-runner/controllers/taskworkload_controller.go:118-156 | And while it is not saved, any number of jobs can be created one after the other. |
| TaskWorkload.Reread | job-task-runner/controllers/taskworkload_controller.go:126-131 | A reconcile of a task without a job creates one exactly when the copy that it read, old or new, lacks Initialized. |
| TaskWorkload.StaleReadRunsTaskAgain | job-task-runner/controllers/taskworkload_controller.go:126-131 | After every run from the start, a reconcile that reads the first saved copy can create a job again. |
| ExpiringCache.RepliesAreJustified | api/authorization/caching_identity_provider.go:27-43 | In every interleaving of lookups, answers and stores, each reply is the source's answer to that call or a cacheable answer to a question with the same key, stored less than 120 seconds before. |
| Caches.KeyIsInjective | api/authorization/info.go:44-48 | Keys are the hex digits of the bytes with a constant digest appended, and so injective without any assumption on SHA-256. |
| Caches.InfoKeysMeetIff | api/authorization/info.go:44-48 | Two infos with one credential each share a key exactly when they are equal or one's token is the other's certificate. |
| Caches.IdentityKeysAreInjective | api/authorization/identity_provider.go:24-28 | Identities of users and service accounts share a key exactly when they are equal. |
| Caches.TokenAndCertCanShareAnEntry | api/authorization/identity_provider.go:50-60 | So a token and a certificate with the same bytes share an entry, though a token is inspected as a token whatever comes with it and a certificate as a certificate. |
| Caches.CachingIdentityProvider.GetIdentity | api/authorization/caching_identity_provider.go:27-43 | Answers from a live entry without asking, otherwise asks, and stores exactly the answers that are no errors. |
| Caches.CFUser.IsCFUser | api/middleware/cf_user.go:72-87 | Says yes on a live entry, otherwise asks, and stores exactly a yes; the cache never holds anything else. |
| Caches.CallIsThreeSteps | api/authorization/caching_identity_provider.go:27-43 | A call without delays is lookup, answer and store of the interleaved machine. |
| Caches.IdentityIsRecent | api/authorization/caching_identity_provider.go:27-43 | In every run an identity answered is the provider's answer to that call or an answer, no error, for an info with the same key bytes, no older than 120 seconds and the time that storing it took. |
| Caches.OutdatedIdentityIff | api/authorization/caching_identity_provider.go:27-43 | A reply that the provider has not given, for the key, for 120 seconds is possible exactly when storing an answer can take any time at all. |
| Caches.OnlyPositiveAnswersAreStale | api/middleware/cf_user.go:72-87 | In every run a no or an error is current, so a grant shows at once; a yes is current or was true of the same identity within 120 seconds and the time that storing it took. |
| Caches.OutdatedYesIff | api/middleware/cf_user.go:72-87 | A yes that has not been true for 120 seconds is possible exactly when storing one can take any time at all. |
| ListOptions.MatchNothingMatchesNothing | tools/k8s/selectors.go:8-13 | No labels meet the selector that matches nothing, whatever is added around it. |
| ListOptions.RequirementIsAcceptedIff | api/repositories/list_options.go:84-146 | A requirement is accepted, as it is, exactly when key and values are well formed, their number fits the operator, and the bound of a comparison spells a number of 64 bits. |
| ListOptions.ComparisonMeaning | api/repositories/list_options.go:140-153 | However label and bound are spelled, the comparing operators of a parsed selector compare the numbers. |
| ListOptions.Accumulator.ApplyToList | api/repositories/list_options.go:62-183 | Each option, of every kind and with requirements of every operator that a parsed selector can have, changes exactly its part of the accumulator, and one that fails changes nothing; ContributionMeaning and LastOptionCounts say what the part becomes. |
| ListOptions.ContributionMeaning | api/repositories/list_options.go:84-183 | An option is accepted exactly when its labels are well formed, and its requirements are met by exactly the labels it asks for; an empty LabelIn asks for nothing. |
| ListOptions.OptionsAsk | api/repositories/list_options.go:79-183 | WithLabel, WithLabelIn and WithLabelStrictlyIn ask for their value or one of their values; only the strict form lets an empty list ask for the impossible. |
| ListOptions.UnpackListOptions | api/repositories/list_options.go:56-58 | Folding gives the accumulator of all options, or stops with the error of the first option that fails. |
| ListOptions.UnpackMeaning | api/repositories/list_options.go:40-54 | A list of options is accepted exactly when each is, and asks together what each asks alone. |
| ListOptions.LastOptionCounts | api/repositories/list_options.go:40-54 | The namespace, fields, sort, filter and paging of the accumulator are those of the last such option of the list, and none without one. |
| ListOptions.BuildLabelSelector | api/authorization/space_filtering_opts.go:45-68 | The selector selects exactly the labels that the user's selector does and that are of an authorized space, nothing without spaces; it fails exactly when the spaces are unknown or cannot be asked for. |
| ListOptions.ApplySpaceFilter | api/authorization/space_filtering_opts.go:25-43 | Of every object: returned exactly when it would have been without the filter and, unless a namespace is asked for, it is in an authorized space; refused exactly when spaces are needed and not usable. |
| ListOptions.SpaceScopedListIsExact | api/authorization/space_filtering_opts.go:25-68 | For every list of options and every object, a space-scoped list returns the object exactly when every option asks for its labels, its fields match the last field option of the list, and it is in an authorized space or, when the last namespace option names one, in that namespace. |
| ListOptions.SpaceScopedListFailsIff | api/authorization/space_filtering_opts.go:45-68 | A space-scoped list is refused exactly for a malformed option, or without a namespace, unknown or malformed spaces. |
| ListOptions.OrderIsIrrelevant | api/repositories/list_options.go:40-54 | Order and repetition of options change neither refusal nor result, when none names a namespace or fields. |
| ListOptions.EmptyLists | api/repositories/list_options.go:99-183 | An empty WithLabelIn is neutral and an empty WithLabelStrictlyIn absorbing, for every list, object and set of spaces. |
| Purge.OfferingRepo.ListInRoot | api/authorization/rootns_filtering_opts.go:19-28 | Finds exactly the objects of the root namespace that the option asks for. |
| Purge.OfferingRepo.ListInSpaces | api/authorization/space_filtering_opts.go:25-68 | Finds exactly the visible objects that the option asks for. |
| Purge.OfferingRepo.DeleteServicePlans | api/repositories/service_offering_repository.go:246-262 | Deletes exactly the offering's plans and answers exactly their names; a failure has deleted some of them and nothing else. |
| Purge.OfferingRepo.FetchServiceInstances | api/repositories/service_offering_repository.go:264-272 | Finds the visible instances of the named plans, or, with no name, all visible instances. |
| Purge.OfferingRepo.FetchServiceBindings | api/repositories/service_offering_repository.go:274-282 | Finds exactly the visible bindings of the named instances, none with no name. |
| Purge.OfferingRepo.PurgeRelatedResources | api/repositories/service_offering_repository.go:198-244 | On success every object of the store is exactly as purged, on failure exactly untouched, purged or, for an instance, half-way; on a reliable store it succeeds exactly when its queries are well formed and no target instance vanishes with its finalizer. |
| Purge.OfferingRepo.DeleteOffering | api/repositories/service_offering_repository.go:146-169 | The same for the whole call, with the offering removed last and nothing else touched without purge. |
| Purge.PurgeIsExactIff | api/repositories/service_offering_repository.go:264-272 | The instances that a purge removes are those of the offering's plans exactly when there is a plan or no visible instance at all. |
| Purge.PurgeOfOfferingWithPlan | api/repositories/service_offering_repository.go:198-244 | With a plan, the fate of every object, told from labels alone: plans and their instances go or are held by others' finalizers, bindings of those instances lose Korifi's finalizer only, all else stays. |
| Purge.RetryTargetsEveryInstance | api/repositories/service_offering_repository.go:198-207 | Once the plans are gone, a repeated purge is about every visible instance. |
| Purge.RetryIsSafeIff | api/repositories/service_offering_repository.go:198-262 | After a purge that failed at any point, a repeated one stays with the offering's instances exactly when some plan is still there or no other instance is in sight, and misses none of those left exactly when no plan is there or each is of one that is. |
| Purge.PlanStaysIff | api/repositories/service_offering_repository.go:254-259 | A plan is still there after the plans were deleted exactly when a finalizer holds it. |
| Cleaners.BuildCleaner.Clean | controllers/cleanup/build_cleaner.go:24-73 | For every sort that sorts: on success exactly all but the retained number of eligible builds are deleted and none kept is older than one deleted; on failure each deleted build is outranked by the full number still kept; a negative number panics before anything is deleted. All that is deleted is ready and the app's own, the droplet's build never, and all else stays as it was. |
| Cleaners.PackageCleaner.Clean | controllers/cleanup/package_cleaner.go:23-77 | The same for packages, where the current droplet's build must be readable; the package that that build names is never deleted. |
| Cleaners.EligibleMeaning | controllers/cleanup/package_cleaner.go:30-63 | What may be deleted, told from the store: the app's ready builds but the droplet's, and its ready packages but the one that the droplet's build names; no package when that build is missing. |
| Retention.TrimmedIsSomeSort | controllers/cleanup/build_cleaner.go:60-70 | Whatever meets the guarantee of a clean is what some order of the items, sorted newest first, leads to, so statements over all such outcomes are statements over all sorts. |
| Retention.RerunCompletesIff | controllers/cleanup/build_cleaner.go:60-70 | After a partial run, every further run completes the work exactly when each item whose deletion is pending is outnumbered by the retained number of strictly newer ones. |
| Cleaners.RerunFinishesTheWork | controllers/cleanup/package_cleaner.go:65-74 | The same of the store: after a run that failed half-way, every successful further run and sort leaves what one successful run would have left, exactly under that condition on what finalizers hold back. |
| Cleaners.RerunAsksNothingNew | controllers/cleanup/package_cleaner.go:65-74 | After a successful run, every further run and sort asks for nothing new exactly when no item that stays is of the same second as one that a finalizer holds back. |
| Cleaners.NothingNewChangesNothing | controllers/cleanup/build_cleaner.go:64-70 | A run that asks for nothing new changes nothing. |
| Retention.TieCanGoEitherWay | controllers/cleanup/package_cleaner.go:65-67 | Of two items of the same second, one kept and one deleted, some sort keeps the other. |
| Cleaners.CurrentDropletSurvives | controllers/cleanup/package_cleaner.go:23-77 | In every run of cleaners of all apps, taken read by read (app, build, list) and delete by delete, with failures, finalizers and other changes in between, an app that keeps its droplet keeps its build and package, if no cleaner that began before aims at them. |
| Cleaners.DropletIsSafeIff | controllers/cleanup/package_cleaner.go:23-77 | Exactly then: when one does aim at them, whatever number it retains, some run of what its sort lets it list takes the build or the package. |
| Cleaners.DeletesOneByOne | controllers/cleanup/build_cleaner.go:64-70 | Deleting listed items step by step, in any order, comes to what a Clean that asks for them leaves. |
| Cleaners.BuildCleanIsRun | controllers/cleanup/build_cleaner.go:24-73 | What a Clean does, however it ends, is a run of the step-by-step cleaner over the same store: it reads the app, lists, deletes one by one and ends. |
| Cleaners.PackageCleanIsRun | controllers/cleanup/package_cleaner.go:23-77 | The same for packages, with the read of the droplet's build when there is a droplet. |
| Numbers.ValueOfItoa | api/actions/process_stats.go:177-180 | Printing a number in decimal and parsing it gives the number. |
| Numbers.AtoiIff | api/actions/process_stats.go:177-180 | The parser reads exactly the spellings (sign, zeros, decimal digits) of the numbers of 64 bits. |
| Stats.PrintedIndexIsExtractedIff | api/actions/process_stats.go:171-187 | A printed index is extracted exactly when it fits in 64 bits. |
| Stats.PodStateMeaning | api/actions/process_stats.go:195-230 | Running exactly when the first Ready condition is true; otherwise down without a true first PodScheduled condition, crashed when some container waits with CrashLoopBackOff, else starting. |
| Stats.AggregateContainerMetrics | api/actions/process_stats.go:232-247 | In whatever order resources are met, the result has exactly the resources that some container has, each with the sum over all containers. |
| Stats.SumMeaning | api/actions/process_stats.go:232-247 | Sums are additive over lists of containers, each with what it has. |
| Stats.FetchStats | api/actions/process_stats.go:64-147 | One record for each desired instance in order, which LastPodDecides and the lemmas after it characterize; one blank record when stopped; an error exactly when some pod's label is missing or not the number of an instance; a panic for a negative number of instances. |
| Stats.LastPodDecides | api/actions/process_stats.go:101-117 | The last pod with the index in its label that is ready or scheduled decides: running when it is ready, crashed when some container of it waits with CrashLoopBackOff, else starting; without such a pod the instance is down and its record blank. |
| Stats.CpuShown | api/actions/process_stats.go:124-130 | The share of a CPU is a billionth of the sum over the containers of the last such pod that has any; none without one. |
| Stats.MemoryShown | api/actions/process_stats.go:132-135 | Memory is the sum over the containers of the last such pod that has any, rounded up. |
| Stats.StorageShown | api/actions/process_stats.go:137-140 | Disk is the sum of storage over the containers of the last such pod that has any, rounded up. |
| Stats.QuotasShown | api/actions/process_stats.go:142-144 | Time and quotas come with the last such pod that has any amount: its time, and the process's memory and disk in bytes of 64 bits. |
| Stats.StaleAmountsIff | api/actions/process_stats.go:119-140 | An amount shown, of CPU, memory or disk, is that of the last pod that counts, if it has one; a stale one is shown exactly when it has none and an earlier one had, and is what the earlier ones had left. |
| JobGuid.ParserRefinesExpression | api/presenter/job.go:39-65 | The parser by runs answers with the parts of the match that an unanchored leftmost-greedy regular expression prefers among all its matches, and with nothing exactly when there is none. |
| JobGuid.Alphabets | api/presenter/job.go:40-41 | The three classes of the pattern, character by character. |
| JobGuid.PrintedIsMatched | api/presenter/job.go:133-134 | A printed GUID is read as its type and operation and the identifier as far as its alphabet goes. |
| JobGuid.PrintedIsParsedIff | api/presenter/job.go:133-134 | Type, operation and identifier are read back exactly when the identifier is non-empty and over the alphabet. |
| JobGuid.RedirectsAreRead | api/presenter/job.go:19-36 | For every operation that redirects name and every object name (UUIDs among them) the job is read back whole. |
| JobGuid.AcceptedContainsPrinted | api/presenter/job.go:52-65 | Every accepted GUID contains the printed form of the job it is read as, and could not have been read as more at either end. |
| JobGuid.UnderscoreCutsIdentifier | api/presenter/job.go:41 | The identifier that the comment gives as an example is cut short. |
| Routes.RouteRepo.MergeDestinations | api/repositories/route_repository.go:361-373 | The loop's result, which MergeAddsWhatIsMissing characterizes, taking one GUID for each addition. |
| Routes.MergeAddsWhatIsMissing | api/repositories/route_repository.go:361-408 | Existing destinations stay in front; what follows is exactly what was desired and missing, once each, field by field, with the GUIDs of the supply. |
| Routes.MergeAddsNothingIff | api/repositories/route_repository.go:387-396 | Merging changes nothing exactly when everything desired is there. |
| Routes.MergeTwice | api/repositories/route_repository.go:361-373 | Merging again adds nothing. |
| Routes.EffectiveIsPorted | controllers/controllers/networking/routes/controller.go:229-259 | Every destination in the status that the controller builds has a port. |
| Routes.RecordsFollowDroplets | api/repositories/route_repository.go:225-255 | With a status as the controller builds it: a destination is shown as it is when it has a port or its app no droplet, and else with the droplet's first port or 8080, and its protocol or http1. |
| Routes.RemergeAddsNothingIff | api/repositories/route_repository.go:225-255 | Merging into the reported destinations adds nothing exactly when every destination asked for without a port is not in the status yet. |
| Routes.RemovingUndoesMerging | api/repositories/route_repository.go:345-353 | Removing the added destinations by their fresh GUIDs restores the list. |
| Routes.RouteRepo.AddDestinationsToRoute | api/repositories/route_repository.go:315-331 | The route's list becomes the merge of the caller's records and the desired destinations, also when the call fails after the write. |
| Routes.RouteRepo.RemoveDestinationFromRoute | api/repositories/route_repository.go:333-359 | Removes exactly the destinations with the GUID and is refused exactly when there is none. |
| Routes.StaleAddKeepsIff | api/repositories/route_repository.go:322-325 | A destination survives an add exactly when the records that the caller had read hold it. |
| Routes.AddFixesPorts | api/repositories/route_repository.go:225-245 | After an add a destination's port is open exactly when it was open and not in the status; one that was filled in holds the port and protocol of the first entry with its GUID. |

## Left out

- Requests, routing, presenters other than the job GUID, JSON decoding and validation other than the premise of the visibility invariant: plumbing.
- The Kubernetes API server is replaced by maps with atomic operations; watches, resource versions, garbage collection by owner references and the conditions awaited by repositories are not part of the model.
- The duplicate-name validator that calls the registry, and the patching reconciler around the task workload reconciler with its Ready condition.
- ListRoles: only the record of a single binding is modelled, not filtering, sorting and paging.
- The org of a space is fixed while roles are granted; errors of reading it are all "space not found".
- PlanVisibility.ServicePlan.ApplyVisibility: always allocates a new backing array, where Go's append may write beyond the end of the old one; nothing reads that part.
- What a filter option's function does to the objects found, the defaults of WithPaging, WithOrdering's table of columns and the parser of label selector strings: a LabelSelector option carries what the parser makes of its string.
- OrderIsIrrelevant: leaves out lists that name a namespace or fields, where the last one wins.
- Purge runs alone: another party's changes to the same objects during a purge are not modelled, and a stripped finalizer is taken off what the store holds.
- The loops of the two cleaners, which are alike, are shared methods, and those of a purge methods of their own.
- AtMostOnce: is one way; the exact condition for another job is AnotherRunWithoutDeletionIff's and AnotherRunIff's.
- The observed generation that a workload's conditions carry; the workload's own is modelled.
- The observed generation that a workload's conditions carry; the workload's own is modelled.
- The observed generation that a workload's conditions carry; the workload's own is modelled.
- The observed generation that a workload's conditions carry; the workload's own is modelled.
- The observed generation that a workload's conditions carry; the workload's own is modelled.
- Floating point: a share of a CPU is a real number. Quantities are exact billionths, and their conversion is not limited to 64 bits.
- FetchStats: takes the results of reading the process, the app and the metrics as parameters.
- FetchAppProcessesStats, log streaming, forJobState and URL building: single branches or concatenation.
- The controller that copies a workload's conditions to its task: StateGoesForwardIff is stated for any conditions that grow.
- Image registry, kpack, configuration and wiring.

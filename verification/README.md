# Hierarchical Namespaces (HNS): a verified model

HNS keeps a tree of namespaces. Every namespace owns a quota, hands part of it to its children,
and carries annotations (display name, depth, crq-selectors) that spell its place in the tree.
Admission checks, reconcilers and multi-write protocols change the tree, the quotas, the
annotations and an in-memory database side by side. The model says what each of them does and
proves what every run of them keeps.

How the modules follow the program:

| part | modules |
|---|---|
| the tree and the three ways it changes, listings | `Hierarchy`, `Moves`, `Listings`, `Api` |
| quotas, admission checks, runs of admitted writes | `Resources`, `Quota`, `Admission`, `Validators` |
| UpdateQuota: one move as a sequence of separate writes | `DisplayName`, `UpdateQuota`, `UpdateQuotaController` |
| MigrationHierarchy: phase machine interleaved with two UpdateQuotas | `Migration`, `MigrationTraces`, `MigrationController` |
| a migration while others write | `SharedMigration`, `SharedLedger` |
| annotations, the recursive relabel, what a ClusterResourceQuota selects | `Labels`, `Relabelling`, `CrqSelection` |
| the namespace database: in-place removal, grouping, limits, start-up | `SliceRemoval`, `NamespaceDB`, `Grouping`, `DatabaseRuns`, `TextOrder`, `DatabaseInit` |
| the optimistic-concurrency update loop | `ObjectContext` |
| ResourcePool labels, which namespace owns the quota object, one Subnamespace sync | `ResourcePool`, `QuotaOwnership`, `QuotaSync` |
| all of it over one state | `System` |
| concrete inputs at which expectations fail | `Witnesses` |

The main results:

- **Quota.** From a sound state an update or create is admitted exactly when the state after it is
  sound (`UpdateAdmissionExact`, `CreateAdmissionExact`), so every state of every run has
  0 <= allocated <= own quota (`RunKeepsSound`), also when UpdateQuotas stop after any write
  (`StoppedAnywhereSound`).
- **UpdateQuota.** The writes are those of the route over the lowest common ancestor; the first
  admitted write decides for all of them (`FirstWriteDecides`); a completed move takes the amount
  from the source's free quota, gives it to the destination's and leaves every other namespace's
  as it was (`CompletedMoveConserves`).
- **Migration.** Over every interleaving with its two UpdateQuotas only the root is ever overdrawn,
  and by the outstanding debt at most; a finished migration restores the root quota and everybody's
  free quota (`MigrationTheorem`). The quota checks deny none of its writes (`NeverDenied`), and an
  admitted migration can be carried through if and only if its destination's crq-pointer lets the first
  UpdateQuota reach it (`MigrationCompletableIff`).
- **Migration among other writers.** With anybody else creating, updating and deleting meanwhile,
  nobody but the root is ever overdrawn (`AlwaysSolvent`), provided that writes leave room below both
  parents while labels and Subnamespace objects disagree; that proviso is exact
  (`OutsideSolventIff`). A finished migration leaves every free quota at its starting value changed by
  exactly what others wrote there (`FinishedRestores`).
- **Annotations.** After any run of creates, deletes and migrations every display name splits back
  into the path; the loop check is exact; every ClusterResourceQuota selects at least its subtree,
  and after a migration exactly its subtree if and only if the move does not lift a namespace past
  its old parent's level.
- **Database.** It equals the grouping of the tree by the ancestor at depth rq-depth + 1 over every
  run, lookups do not depend on map order, no key outgrows the limit, and a restart would rebuild
  the same database if and only if text order and number order of the depths agree.
- **Update loop.** Under any interleaving and any failed refreshes a stored change is one
  application to the value stored before it.
- **Everything at once.** Quotas, annotations and database start in order with the documented root
  namespace (`FreshInOrder`) and stay in order together over every run (`AlwaysInOrder`).
- **Pools.** Labels converge to the downward closure in every order of syncs, and in a stable state
  crq-pointer names the nearest owner of a quota object if and only if the namespace is a pool, at most
  at rq-depth, or labelled with the literal `false` (`CrqPointerIff`).

Some things one would expect of the code do not hold in general. Each has its exact condition, and
the condition speaks of what is known before the operation:

- UpdateQuota amounts may be negative, and then a move can stop halfway
  (`NegativeAmountStopsHalfway`); every write is admitted if and only if the route is passable
  (`AllAdmittedIff`).
- A migration that ends in Error leaves the root raised (`RootStaysRaised`), unless its first pass
  failed before or at the raise; the phase a pass ends in follows from its inputs (`Reconcile`).
- A migration with a quota to move cannot complete when the destination's crq-pointer names nobody
  (`PointsToNobody`, `MigrationCompletableIff`).
- Between the creation of the new Subnamespace and the relabelling, a create below the new parent can
  take the migrated quota a second time (`WindowOverdraws`), and a raise of the migrated namespace can
  overdraw its old parent (`OldParentOverdrawn`); `OutsideSolventIff` says exactly when.
- `RemoveNS` slices out of range or leaves entries behind on some lists with duplicates
  (`DuplicatesGoWrong`, `RemoveFromSlice`, `RemovalExactIff`); reachable lists have none.
- `MigrateNSHierarchy` creates no keys and deletes none (`LiftedMemberIsLost`, `MoveGroupedIff`).
- `Init` compares depths as text (`TenLevelsGroupWrongly`, `InitGroupsIff`, `RestartMatchesIff`).
- Selectors of deeper levels survive a move to a shallower place (`LiftedStaysSelected`,
  `SelectionExactIff`).
- `GetCrqPointer` compares the pool label with the literal `false` although other spellings of
  false are accepted elsewhere (`PointsToNobody`, `CrqPointerIff`).

Where comments and code disagree, the model follows the code: `GetUpperResourcePoolNameFromParent`
announces that it looks at the parent but reads the Subnamespace's own flag, which the sync has
just cleared; and `syncQuotaObject` drops the request to be called again that
`EnsureSubnamespaceObject` makes, so a sync with nothing reported as used goes on.

Check everything with `dafny verify dfyconfig.toml`.

## Model

| member | source | states |
|---|---|---|
| `Hierarchy.TreeIffEveryChainReachesRoot` | internal/namespace/nsutils/nsutils.go:50-53 | the parent labels form a tree if and only if following them from every namespace ends at the root |
| `Hierarchy.PrefixIsPath` | internal/namespace/nsutils/nsutils.go:60-67 | every prefix of a root-to-node path is the path of its last namespace |
| `Hierarchy.PathShape` | internal/namespace/nsutils/nsutils.go:60-67 | a path starts at the root, ends at its namespace and names nobody twice |
| `Moves.ReparentTreeIff` | internal/migrationhierarchy/createvalidator.go:131-140 | moving a namespace under another leaves a tree if and only if the destination is outside the moved subtree |
| `Moves.ReparentPaths` | internal/migrationhierarchy/related.go:42-60 | all paths after a migration: below the moved namespace the part above it is replaced, elsewhere nothing changes |
| `Moves.ReparentUnder` | internal/migrationhierarchy/related.go:42-60 | depths and the descendant relation after a migration, for every pair of namespaces |
| `Resources.ShiftHard` | internal/updatequota/controller.go:249-308 | the add and sub loops change every resource the Hard map names by the amount, and only those |
| `Quota.WriteFree` | internal/subnamespace/sync.go:184-224 | a quota write moves free quota along one parent link: the child gains what the parent loses, nobody else changes |
| `Quota.MoveFree` | internal/subnamespace/sync.go:184-224 | re-parenting moves exactly the migrated quota between the free quotas of the two parents |
| `Admission.QuotaObjectsTotal` | internal/quota/resources.go:70-90 | the nested summing loops give, per resource, the total over the listed quota objects, and an empty list exactly when none names a resource |
| `Admission.ListingTotal` | internal/quota/resources.go:70-80 | for every listing order the total equals what is allocated to the children |
| `Admission.ValidateParams` | internal/subnamespace/commonvalidator.go:60-98 | passes if and only if every observed resource is given and none is negative |
| `Admission.ValidateResourceQuotaParams` | internal/subnamespace/commonvalidator.go:18-58 | regular Subnamespaces need every observed resource, an upper pool needs some resource, an inner pool none |
| `Admission.ValidateParentHasRoom` | internal/subnamespace/createvalidator.go:146-178 | passes if and only if the parent's free quota covers the request in every resource the parent names |
| `Admission.ValidateUpdateRequest` | internal/subnamespace/updatevalidator.go:136-179 | passes if and only if the parent's free quota covers the change and the request covers live usage |
| `Admission.ValidateCoversChildren` | internal/subnamespace/updatevalidator.go:114-132 | passes if and only if the request covers what the children hold, or they hold nothing named |
| `Admission.HandleUpdate` | internal/subnamespace/updatevalidator.go:18-80 | the whole update check in quantities, pools included: no dropped label, no pool under a pool made regular, parameters, and for owners of a quota object the parent's room, live usage and the children |
| `Admission.RegularUpdate` | internal/subnamespace/updatevalidator.go:18-80 | for a regular Subnamespace that is the check the quota results are about |
| `Admission.UpdateAdmittedIff` | internal/subnamespace/updatevalidator.go:114-179 | whatever the state before: admitted if and only if afterwards the namespace and its parent have no negative free quota and nothing given is negative |
| `Admission.UpdateAdmissionExact` | internal/subnamespace/updatevalidator.go:114-179 | from a sound state: admitted, usage aside, if and only if the state afterwards is sound |
| `Admission.UpdateWithUsageExact` | internal/subnamespace/updatevalidator.go:114-179 | with live usage: admitted if and only if the state afterwards is sound and no quantity is below what is used |
| `Admission.UpdateKeepsSound` | internal/subnamespace/updatevalidator.go:114-179 | admitted updates keep soundness also when quotas name resources that are not observed |
| `Admission.CreateAdmissionExact` | internal/subnamespace/createvalidator.go:146-178 | from a sound state: a create is admitted if and only if the state afterwards is sound |
| `Admission.CreateKeepsSound` | internal/subnamespace/createvalidator.go:146-178 | admitted creates keep every namespace's quota and free quota non-negative |
| `Admission.DeleteKeepsSound` | internal/namespace/cleanup.go:80-98 | deleting a childless namespace with its quota object keeps every namespace's quota and free quota non-negative |
| `Admission.RunKeepsSound` | internal/subnamespace/updatevalidator.go:114-179 | every state of every run of admitted creates, updates and leaf deletes has 0 <= allocated <= own quota everywhere |
| `DisplayName.ValidNameIff` | internal/subnamespace/createvalidator.go:60-72 | the name check accepts exactly the strings of at most 63 characters that match the pattern of a label |
| `Validators.HandleCreate` | internal/subnamespace/createvalidator.go:20-57 | the whole create check, pools included: name, uniqueness, pools only, limit, regular under a pool, parameters and the parent's room |
| `Validators.RegularCreate` | internal/subnamespace/createvalidator.go:20-57 | for a new regular Subnamespace that is the conjunction of name, limit and quota check of the runs |
| `Validators.HandleMigration` | internal/migrationhierarchy/createvalidator.go:22-119 | the whole migration check, pools included, with permissions and secondary roots decided elsewhere |
| `Validators.RegularMigration` | internal/migrationhierarchy/createvalidator.go:22-119 | where annotations spell the hierarchy it accepts exactly the moves to another parent outside the moved subtree that fit the limit |
| `DisplayName.SplitJoin` | internal/namespace/nsutils/nsutils.go:62-67 | splitting a joined path gives the path back, when no name has a slash |
| `DisplayName.SplitPieces` | internal/namespace/nsutils/nsutils.go:62-67 | cutting at slashes one after another gives the recursive split |
| `DisplayName.SplitsToPath` | internal/namespace/nsutils/nsutils.go:62-67 | the slices of a display name are the root-to-node path |
| `DisplayName.IndexOf` | internal/common/common.go:16-24 | the first index of the element, or -1 if it does not occur |
| `DisplayName.GetAncestor` | internal/subnamespace/snsutils/snsutils.go:20-33 | the last element of the source that occurs in the destination, the flag telling whether both positions are first, and failure only if nothing is shared |
| `DisplayName.LastMatchIsLowest` | internal/subnamespace/snsutils/snsutils.go:20-33 | on root-to-node paths that is the lowest common ancestor, and the flag says it is the root |
| `DisplayName.LowestCommonUnique` | internal/subnamespace/snsutils/snsutils.go:20-33 | there is only one lowest common ancestor |
| `UpdateQuota.RouteOnTree` | internal/updatequota/controller.go:201-244 | the up list and the down list are linked parent to child and lead from the source over the ancestor to the destination |
| `UpdateQuota.ShiftFree` | internal/updatequota/controller.go:249-308 | each single write, up or down, hands the amount of free quota from one stop of the route to the next |
| `UpdateQuota.AfterFree` | internal/updatequota/controller.go:159-198 | after any number of writes exactly the source has given and the stop reached has received |
| `UpdateQuota.FreeMeansQuota` | internal/subnamespace/sync.go:184-224 | if no free quota in a subtree is negative, neither is the quota of its top |
| `UpdateQuota.AfterSoundIff` | internal/updatequota/controller.go:159-198 | the state after k writes is sound if and only if the source can give and stop k can take the amount |
| `UpdateQuota.AdmittedIffSound` | internal/subnamespace/updatevalidator.go:114-179 | write k is admitted if and only if the state after it is sound |
| `UpdateQuota.AllAdmittedIff` | internal/updatequota/controller.go:137-198 | for amounts of any sign: all writes are admitted if and only if the route is passable in the state before the move |
| `UpdateQuota.FirstWriteDecides` | internal/updatequota/controller.go:137-198 | all or nothing: with amounts that are not negative, if the first write is admitted so are all of both legs |
| `UpdateQuota.CompletedMoveConserves` | internal/updatequota/controller.go:66-155 | in all three ancestor cases: source free drops by the amount, destination free rises by it, everybody else's is unchanged |
| `UpdateQuotaController.Controller.ChangeSnsQuota` | internal/updatequota/controller.go:249-336 | one write with its sync: made if and only if the admission check passes, nothing else changes |
| `UpdateQuotaController.Controller.SnsListDown` | internal/updatequota/controller.go:201-221 | the path below the ancestor, highest first |
| `UpdateQuotaController.Controller.SnsListUp` | internal/updatequota/controller.go:224-244 | the reverse of the down list between the same two namespaces |
| `UpdateQuotaController.Controller.MoveUp` | internal/updatequota/controller.go:181-198 | makes the subtracting writes up to the first denied one and no further |
| `UpdateQuotaController.Controller.MoveDown` | internal/updatequota/controller.go:159-177 | makes the adding writes up to the first denied one and no further |
| `UpdateQuotaController.Controller.FindAncestor` | internal/updatequota/controller.go:84-90 | the display names yield the lowest common ancestor of the two namespaces |
| `UpdateQuotaController.Controller.Reconcile` | internal/updatequota/controller.go:66-155 | the writes made are a prefix of the route ending at the first denied write; Complete if and only if none was denied |
| `UpdateQuotaController.RouteRun` | internal/updatequota/controller.go:159-198 | the writes of an UpdateQuota are a run of admitted updates |
| `UpdateQuotaController.StoppedAnywhereSound` | internal/updatequota/controller.go:159-198 | after any number of passed writes the hierarchy is sound |
| `UpdateQuotaController.PassedCoversUsage` | internal/subnamespace/updatevalidator.go:170-176 | a write of an UpdateQuota that passed leaves no quantity of the written quota below what is used there |
| `Witnesses.NegativeAmountStopsHalfway` | internal/updatequota/controller.go:281-308 | a concrete negative amount whose first write is admitted and whose second is denied |
| `Migration.NextInvariant` | internal/migrationhierarchy/controller.go:131-261 | every step of the controller and of its two UpdateQuotas keeps root quota and all free quotas accounted for |
| `Migration.AlwaysAccounted` | internal/migrationhierarchy/controller.go:131-261 | the accounting holds in every state of every interleaving |
| `Migration.OnlyRootOwes` | internal/migrationhierarchy/controller.go:176-252 | by Subnamespace objects and by parent labels: nobody but the root is overdrawn, the root by the debt at most, and its free quota is exactly known while there is a debt |
| `Migration.CompletedMigrationConserves` | internal/migrationhierarchy/controller.go:234-261 | Complete and both UpdateQuotas done: root quota and every free quota are back at their starting values in the new tree |
| `Migration.ThereAdmitted` | internal/migrationhierarchy/controller.go:131-174 | the quota checks admit every write of the first UpdateQuota |
| `Migration.BackAdmitted` | internal/migrationhierarchy/controller.go:234-243 | the quota checks admit every write of the second UpdateQuota in the new tree, also while the root is in debt |
| `Migration.CreateNewAdmitted` | internal/migrationhierarchy/controller.go:176-184 | once the first UpdateQuota is done the new parent has room for the migrated Subnamespace |
| `Migration.MigrationTheorem` | internal/migrationhierarchy/controller.go:131-252 | over every behaviour: only the root owes, the debt at most, and a finished migration has put everything back |
| `MigrationTraces.NeverDenied` | internal/migrationhierarchy/controller.go:131-252 | over every interleaving the quota checks deny no write of either UpdateQuota and not the create of the new Subnamespace |
| `MigrationTraces.CompletionExists` | internal/migrationhierarchy/controller.go:70-264 | every valid migration whose first UpdateQuota goes to the destination has a behaviour that runs to the end with both UpdateQuotas done |
| `MigrationTraces.CompletableIff` | internal/migrationhierarchy/controller.go:131-174 | a migration has a behaviour that runs to the end if and only if it moves no quota or the destination's crq-pointer names the destination |
| `MigrationTraces.FailedDeleteLeavesRaise` | internal/migrationhierarchy/controller.go:276-293 | every migration of a namespace with a quota has a behaviour whose delete of the old Subnamespace fails, which ends in Error with the tree as before and the root raised by the amount |
| `Witnesses.RootStaysRaised` | internal/migrationhierarchy/controller.go:188-194 | a concrete migration of that kind: six namespaces, root quota 10 before and 11 after |
| `SharedMigration.OutsideSolventIff` | internal/quota/snsquota.go:194-290 | while a migration is under way, an admitted write by anybody else keeps all but the root from being overdrawn if and only if, between the new Subnamespace's creation and the relabelling, it takes no more from the new parent, and by an update of the migrated namespace no more from the old one, than the Subnamespace objects leave |
| `SharedMigration.NothingTakenLeavesRoom` | internal/quota/snsquota.go:217-248 | nobody creating below the new parent, or raising what is below it, is enough for that |
| `SharedMigration.WindowOverdraws` | internal/quota/snsquota.go:217-248 | the condition is needed in every such window: a create that asks for all that the labels show as free is admitted and overdraws the new parent by exactly the migrated quota |
| `Witnesses.OldParentOverdrawn` | internal/subnamespace/updatevalidator.go:136-179 | a concrete update of the migrated namespace that passes the check against the new parent, leaves room there and overdraws the old parent |
| `SharedMigration.AlwaysSolvent` | internal/migrationhierarchy/controller.go:131-252 | over every run of a migration among other admitted creates, updates and deletes that meet the condition, nobody but the root is overdrawn, and the root only by what it was lowered by, until something is written below it |
| `SharedLedger.BooksAgree` | internal/migrationhierarchy/controller.go:131-252 | at every moment of every such run, a namespace's free quota is its starting value plus what others' writes changed there plus where the migration stands |
| `SharedLedger.FinishedRestores` | internal/migrationhierarchy/controller.go:234-261 | once migration and both UpdateQuotas are done, it is its starting value plus exactly what others' writes changed there |
| `MigrationController.ShiftRootHard` | internal/migrationhierarchy/resources.go:49-81 | adds or subtracts every resource of the amount, also those the root did not name |
| `MigrationController.Controller.Prepare` | internal/migrationhierarchy/controller.go:131-159 | raise, ask, InProgress in that order; where it fails, and what was done by then |
| `MigrationController.Controller.ReplaceSns` | internal/migrationhierarchy/controller.go:176-194 | create and delete in that order; a failed delete rolls the create back, and if that fails too both Subnamespaces stay |
| `MigrationController.Controller.RelabelAll` | internal/migrationhierarchy/controller.go:198-227 | relabelling comes first, and any later failure leaves it done |
| `MigrationController.Controller.Settle` | internal/migrationhierarchy/controller.go:234-261 | ask back, lower without waiting, Complete; where it fails, and what was done by then |
| `MigrationController.Controller.Reconcile` | internal/migrationhierarchy/controller.go:70-264 | whichever step fails, a pass is a behaviour of the state machine; it stays InProgress if and only if the UpdateQuota is neither Complete nor in Error and nothing failed so far, is Complete if and only if the UpdateQuota is and no step failed, and is in Error otherwise; and the root's quota is back at its start if and only if the pass ends Complete, the first pass failed before or at the raise, or nothing of the resource moves |
| `ObjectContext.Context.ForceUpdate` | internal/objectcontext/object.go:98-162 | which round ends the loop and how: gone at the attempt, denied, stored, or found gone by the refresh after a conflict; the history grows by what others stored and, only on success, by one application to the latest value |
| `ObjectContext.Context.Attempt` | internal/objectcontext/object.go:103-117 | the outcome of one round and what it stores |
| `ObjectContext.AttemptKeeps` | internal/objectcontext/object.go:122-147 | a committing attempt applied the change exactly once to the value stored last |
| `ObjectContext.ExactlyOnce` | internal/objectcontext/object.go:98-162 | for any number of clients and interleavings: every stored change is one application to its predecessor, and no client stores twice |
| `ObjectContext.ReappliedNeverStored` | internal/objectcontext/object.go:98-119 | a change applied again to a copy that was not refreshed never commits |
| `ObjectContext.AddersAddUp` | internal/updatequota/controller.go:249-308 | concurrent adders change the value by exactly the sum of the amounts stored, on top of what others change in between |
| `SliceRemoval.RemoveFromSlice` | internal/namespacedb/namespacedb.go:282-286 | the loop over the shifted backing array slices out of range if and only if the name is last and also earlier; what it has stored by then, and otherwise leaves |
| `SliceRemoval.RemovalExactIff` | internal/namespacedb/namespacedb.go:282-286 | it removes every occurrence in order if and only if it stays in range and the name never stands next to itself |
| `SliceRemoval.DuplicatesGoWrong` | internal/namespacedb/namespacedb.go:282-286 | a list on which it runs out of range and one on which it leaves an occurrence behind |
| `SliceRemoval.RemovalOnDistinct` | internal/namespacedb/namespacedb.go:282-286 | on lists without duplicates it stays in range and takes out exactly the one entry |
| `NamespaceDB.KeyOrderIrrelevantIff` | internal/namespacedb/namespacedb.go:292-310 | the lookup is the same for every map iteration order if and only if keys and lists are pairwise disjoint |
| `NamespaceDB.MovedAllLists` | internal/namespacedb/namespacedb.go:255-269 | who is in which list after the per-child remove and add loop, and that lists stay free of duplicates |
| `NamespaceDB.MovableMoves` | internal/namespacedb/namespacedb.go:255-269 | where lists stay free of duplicates no round of the loop fails and its result is the move of the whole subtree |
| `NamespaceDB.Database.Key` | internal/namespacedb/namespacedb.go:292-310 | a holding key, the first in some iteration order, or nothing if none holds the namespace; the one holding key when unambiguous |
| `NamespaceDB.Database.RemoveNS` | internal/namespacedb/namespacedb.go:274-289 | fails if and only if the key is missing or the loop runs out of range, and what it stores in either case |
| `NamespaceDB.Database.EnsureSNSInDB` | internal/namespacedb/namespacedb.go:338-355 | a namespace that some key holds, or of kind ResourceQuota, changes nothing; any other joins a key that holds its parent, or becomes a key if it has a ClusterResourceQuota, or is not added |
| `NamespaceDB.Database.HasRoomForCreate` | internal/subnamespace/createvalidator.go:108-120 | passes if and only if the parent has no key or its key's list is below the limit |
| `NamespaceDB.Database.HasRoomForMigration` | internal/migrationhierarchy/createvalidator.go:105-116 | with keys at both ends, passes if and only if the namespace has a ClusterResourceQuota and the destination's list and the listed namespaces together are below the limit |
| `NamespaceDB.Database.DeleteNamespace` | internal/namespace/cleanup.go:103-117 | on any database: drops the key or runs the removal loop on the list of the key that the lookup answers; never fails on disjoint databases without duplicates |
| `NamespaceDB.Database.MigrateNSHierarchy` | internal/namespacedb/namespacedb.go:243-271 | on any database: the rounds of remove and add up to the first failing one; no failure, and the whole subtree moved, wherever lists stay free of duplicates |
| `Grouping.KeyOfIs` | internal/namespacedb/namespacedb.go:292-310 | the lookup returns the ancestor at depth rq-depth + 1, and nothing for shallower namespaces |
| `Grouping.GroupedDisjoint` | internal/namespacedb/namespacedb.go:292-310 | a database that groups a tree has disjoint keys and lists without duplicates |
| `Grouping.CreateGrouped` | internal/namespacedb/namespacedb.go:338-355 | a create with its database update keeps the database equal to the grouping |
| `Grouping.ResyncUnchanged` | internal/namespacedb/namespacedb.go:338-342 | syncing a namespace again leaves the database as it is |
| `Grouping.DeleteGrouped` | internal/namespace/cleanup.go:103-117 | so does a leaf delete |
| `Grouping.MoveIsMovable` | internal/namespacedb/namespacedb.go:243-271 | a migration outside its own subtree never makes the per-child loop duplicate an entry |
| `Grouping.FittingMoveGrouped` | internal/namespacedb/namespacedb.go:243-271 | a migration that fits keeps the database equal to the grouping of the new tree |
| `Grouping.MoveGroupedIff` | internal/namespacedb/namespacedb.go:243-271 | it does so if and only if the move fits, a condition on depths alone |
| `Witnesses.LiftedMemberIsLost` | internal/namespacedb/namespacedb.go:258-268 | a concrete migration to the key level, with rq-depth 1, after which the database lacks a key |
| `DatabaseRuns.GetAllChildren` | internal/subnamespace/snsutils/snsutils.go:68-93 | terminates on every tree and lists the namespace first and each descendant exactly once |
| `DatabaseRuns.MovedCount` | internal/namespacedb/namespacedb.go:255-269 | how long each list is after a move between two lists or within one |
| `DatabaseRuns.MoveBoundedIff` | internal/migrationhierarchy/createvalidator.go:166-180 | a key-to-key move keeps the limit if and only if it stays within one list or the new list has room |
| `DatabaseRuns.CreateBounded` | internal/subnamespace/createvalidator.go:108-120 | a create that passes the limit check keeps every list within the limit |
| `DatabaseRuns.CreateRoomIff` | internal/subnamespace/createvalidator.go:108-120 | the create check passes if and only if the parent is at most at rq-depth or its branch has at most MaxSNS namespaces, its key included |
| `DatabaseRuns.CreateRoomExact` | internal/subnamespace/createvalidator.go:108-120 | below a key it passes if and only if every list is within the limit afterwards |
| `DatabaseRuns.MigrateRoomIff` | internal/migrationhierarchy/createvalidator.go:166-180 | the migration check denies exactly from where the destination's branch and the listed namespaces together exceed the limit |
| `DatabaseRuns.MigrateRoomStrict` | internal/migrationhierarchy/createvalidator.go:166-180 | between two keys it passes if and only if the destination's list ends up strictly below the limit |
| `DatabaseRuns.RunKeepsDatabase` | internal/subnamespace/createvalidator.go:108-120 | over every run, syncs included: the database is the grouping, lists have no duplicates, lookups are unambiguous, no key exceeds MaxSNS |
| `TextOrder.SortSorts` | internal/namespacedb/namespacedb.go:113-115 | the sort rearranges into strictly increasing text order |
| `DatabaseInit.AddHierarchy` | internal/namespacedb/namespacedb.go:110-140 | adds the entry at index rq-depth as key and the later ones as members, each once |
| `DatabaseInit.AddPathFacts` | internal/namespacedb/namespacedb.go:119-137 | which keys and members a sorted path adds, and that leaves sharing ancestors add no duplicates |
| `DatabaseInit.NSListUp` | internal/namespacedb/namespacedb.go:143-160 | the path without the root, lowest first |
| `DatabaseInit.Init` | internal/namespacedb/namespacedb.go:44-87 | the database that the leaves build, in whatever order they are listed; it groups the tree if and only if text order fits at every deep leaf |
| `DatabaseInit.SingleDigitsFit` | internal/namespacedb/namespacedb.go:113-115 | one-digit depths sort like numbers |
| `DatabaseInit.TenthLevelDoesNotFit` | internal/namespacedb/namespacedb.go:113-115 | depth 10 sorts before depth 2 |
| `DatabaseInit.FirstLevelAlwaysFits` | internal/namespacedb/namespacedb.go:113-117 | with rq-depth 0 every depth works |
| `DatabaseInit.FittingTextSplits` | internal/namespacedb/namespacedb.go:113-130 | where text order fits, the sort cuts the path at the ancestor of depth rq-depth + 1 |
| `DatabaseInit.SplitMeansTextFits` | internal/namespacedb/namespacedb.go:113-130 | where it cuts there, text order fits |
| `DatabaseInit.InitGroupsIff` | internal/namespacedb/namespacedb.go:77-84 | start-up builds the grouping if and only if text order fits at every leaf deeper than rq-depth |
| `Witnesses.TenLevelsGroupWrongly` | internal/namespacedb/namespacedb.go:113-130 | a line of eleven namespaces, with rq-depth 1, that start-up groups wrongly |
| `DatabaseInit.InitGroupsUpToNine` | internal/namespacedb/namespacedb.go:77-84 | it always does for trees of depth at most 9 |
| `DatabaseInit.GroupedUnique` | internal/namespacedb/namespacedb.go:187-289 | a second database groups the tree if and only if it differs from the first in list order at most |
| `DatabaseInit.RestartMatchesIff` | internal/namespacedb/namespacedb.go:44-87 | at any moment of any run, start-up would rebuild the incrementally kept database if and only if text order fits |
| `Labels.BasedAgrees` | internal/namespace/nsutils/nsutils.go:88-114 | annotations derived from a parent that spells its path spell the child's path |
| `Labels.CreateAgrees` | internal/namespace/nsutils/nsutils.go:88-114 | a create keeps all annotations in agreement with the tree and leaves no stray selectors |
| `Labels.DeleteAgrees` | internal/namespace/cleanup.go:25-63 | cleaning up a childless namespace keeps all other annotations in agreement with the tree and leaves no stray selectors |
| `Labels.Relabeller.UpdateAllChildren` | internal/migrationhierarchy/related.go:42-60 | the recursion terminates and rewrites everything strictly below, parents first, and nothing else |
| `Relabelling.Relabel` | internal/migrationhierarchy/related.go:42-104 | the rewrite of the namespace and then of its subtree gives the migrated annotations |
| `Relabelling.MigratedStep` | internal/migrationhierarchy/related.go:64-75 | every rewritten namespace carries its old annotations overwritten by those of its new parent |
| `Relabelling.MigrateAgrees` | internal/migrationhierarchy/related.go:42-104 | afterwards all annotations agree with the new tree |
| `Relabelling.LoopCheckExact` | internal/migrationhierarchy/createvalidator.go:131-140 | the display-name check rejects exactly the destinations inside the moved subtree, which are exactly those that would not leave a tree |
| `Relabelling.RunAgrees` | internal/namespace/nsutils/nsutils.go:62-114 | over every run: display name splits back to the path, depth is its length minus one, crq-selector-k is its k-th element |
| `CrqSelection.SelectsWholeSubtree` | internal/migrationhierarchy/related.go:107-133 | every ClusterResourceQuota selects at least the subtree of its namespace |
| `CrqSelection.TidySelectsExactly` | internal/migrationhierarchy/related.go:107-133 | without left-over selectors it selects exactly that |
| `CrqSelection.MovedSelectors` | internal/objectcontext/object.go:176-194 | which selectors a moved namespace has: its new path, and what of the old one lies deeper |
| `CrqSelection.DeeperStaysTidy` | internal/migrationhierarchy/related.go:42-104 | a migration that makes nothing shallower leaves no stray selectors |
| `CrqSelection.LiftedStillSelected` | internal/migrationhierarchy/related.go:64-133 | a namespace lifted past its old parent's level is still selected by the old parent's quota |
| `CrqSelection.SelectionExactIff` | internal/migrationhierarchy/related.go:64-133 | after one migration every quota selects exactly its subtree if and only if the namespace was not lifted past its old parent's level |
| `Witnesses.LiftedStaysSelected` | internal/migrationhierarchy/related.go:64-133 | a concrete namespace, moved from depth 4 to depth 2, that its old parent's quota still selects |
| `CrqSelection.RunSelectsExactly` | internal/migrationhierarchy/related.go:107-133 | over every run in which no migration makes a namespace shallower, every quota selects exactly its subtree |
| `ResourcePool.LabelTable` | internal/subnamespace/resourcepool/resourcepool.go:37-48 | which label texts make a pool, which a regular Subnamespace, and that any other is unreadable |
| `ResourcePool.EnsureChildrenLabels` | internal/namespace/sync.go:123-143 | syncing a namespace sets the label of each child by the local rule and touches no other label, failing if and only if its own or a child's label is unreadable; its changes are a run of label steps |
| `ResourcePool.UpdateChildLabel` | internal/namespace/sync.go:148-178 | syncing one child is a label step or changes nothing |
| `ResourcePool.OnlyRegularUnderPoolChanges` | internal/namespace/sync.go:148-178 | the only label it ever changes is that of a regular child of a pool |
| `ResourcePool.StepProgress` | internal/namespace/sync.go:148-178 | a label step keeps the downward closure and strictly shrinks the set of regular namespaces below pools, or of unlabelled ones |
| `ResourcePool.QuietIsClosure` | internal/subnamespace/resourcepool/resourcepool.go:107-137 | where no sync changes a label, pools are exactly the namespaces at or below a pool |
| `ResourcePool.RunShrinks` | internal/namespace/sync.go:123-178 | in any order the number of label steps is bounded by what was left to do |
| `ResourcePool.PropagationConverges` | internal/subnamespace/resourcepool/resourcepool.go:107-167 | every run that cannot be extended ends with exactly the namespaces pools that were at or below a pool at the start |
| `QuotaOwnership.OneUpperPerPath` | internal/subnamespace/resourcepool/resourcepool.go:107-137 | on every root-to-node path there is at most one upper pool |
| `QuotaOwnership.UpperRpNamesTop` | internal/subnamespace/sync.go:227-287 | in a stable state upper-rp names the top of a pool's segment, and none for regular namespaces |
| `QuotaOwnership.MarksMean` | internal/subnamespace/sync.go:227-246 | in a stable state is-upper-rp marks exactly the tops of pools, and is-rq exactly the regular namespaces at most at rq-depth |
| `QuotaOwnership.TopIsNearestOwner` | internal/quota/quota.go:54-65 | the top of a pool's segment is the nearest namespace at or above that owns a quota object |
| `QuotaOwnership.CrqPointerIff` | internal/quota/quota.go:54-65 | in a stable state crq-pointer names the nearest owner if and only if the namespace is a pool, shallow, or labelled with the literal false |
| `QuotaOwnership.RegularPointerIff` | internal/quota/quota.go:54-65 | in a stable state a regular namespace points to itself if and only if it is at most at rq-depth or labelled with the literal false, and to none otherwise |
| `Witnesses.PointsToNobody` | internal/quota/quota.go:54-65 | a concrete stable state in which a namespace that owns its quota object points to none |
| `QuotaSync.IsZeroed` | internal/quota/quota.go:11-18 | whether every quantity is zero |
| `QuotaSync.IsDefault` | internal/quota/quota.go:21-31 | whether only default resources are named |
| `QuotaSync.ResourceListEqual` | internal/quota/resources.go:12-28 | comparing sizes and one direction of lookups decides equality |
| `QuotaSync.AllocatedToChildren` | internal/subnamespace/sync.go:184-206 | the nested loops give the total of the children's specs in every resource |
| `QuotaSync.FreeToAllocate` | internal/subnamespace/sync.go:210-224 | what is left of each resource of the spec |
| `QuotaSync.Subnamespace.DropOther` | internal/subnamespace/sync.go:75-92 | deletes an object of the other kind if and only if it is neither zeroed nor default-only |
| `QuotaSync.Subnamespace.EnsureObject` | internal/quota/snsquota.go:39-95 | creates a missing and fills a zeroed object, filling an empty spec from reported usage first |
| `QuotaSync.Subnamespace.SyncQuotaObject` | internal/subnamespace/sync.go:305-322 | with resources in the spec the object equals the spec; without, exactly what happens in each case; and the default ResourceQuota is created if and only if the ClusterResourceQuota limits and none is there |
| `QuotaSync.Subnamespace.UpdateStatus` | internal/subnamespace/sync.go:400-407 | the status holds the new totals also when the write is skipped |
| `QuotaSync.Subnamespace.Sync` | internal/subnamespace/sync.go:29-170 | from any prior objects: the object of the right kind equals the spec, exactly what becomes of the other kind and of the default ResourceQuota, and free + allocated is the spec resource by resource |
| `System.CreateKeepsOrder` | internal/subnamespace/createvalidator.go:108-178 | an admitted create keeps quotas sound, annotations in agreement and the database grouped within bounds at once |
| `System.UpdateKeepsOrder` | internal/subnamespace/updatevalidator.go:114-179 | so does an admitted update, hence every write of an UpdateQuota |
| `System.SyncKeepsOrder` | internal/namespacedb/namespacedb.go:338-355 | syncing a Subnamespace again changes nothing |
| `System.DeleteKeepsOrder` | internal/namespace/cleanup.go:25-63 | so does a leaf delete |
| `System.MigratedSound` | internal/migrationhierarchy/controller.go:131-261 | the quotas a completed migration leaves are sound for the new tree |
| `System.MigrateKeepsOrder` | internal/migrationhierarchy/controller.go:70-264 | an admitted, completed migration with its relabel and database update keeps all of it |
| `System.ListsWholeSubtree` | internal/migrationhierarchy/createvalidator.go:182-190 | the ClusterResourceQuota that the limit check counts by lists at least the subtree that moves |
| `System.MigrateAdmittedIff` | internal/migrationhierarchy/createvalidator.go:121-190 | a migration that fits is admitted if and only if it goes to another parent outside the moved subtree and the branch with all that is listed stays within the limit |
| `Witnesses.SomeMigrationAdmitted` | internal/migrationhierarchy/createvalidator.go:121-190 | a concrete state in order and a migration between two keys that is admitted with a limit of 3 |
| `System.MigrationCanComplete` | internal/migrationhierarchy/controller.go:70-264 | an admitted migration whose first UpdateQuota goes to the destination can be carried through to a state that is in order, no write on the way is denied, and the new Subnamespace passes its limit check |
| `System.NewSnsHasRoom` | internal/subnamespace/createvalidator.go:108-120 | the limit check of the new Subnamespace's create follows from that of the migration |
| `System.MigrationCompletableIff` | internal/migrationhierarchy/controller.go:143-151 | from a state that no sync changes, an admitted migration to a regular destination can be carried through if and only if it moves no quota, the destination is at most at rq-depth, or it carries the literal label false |
| `System.FreshInOrder` | docs/concepts.md:31-44 | the documented root namespace: a root alone with a non-negative quota, its own annotations and an empty database is in order |
| `System.AlwaysInOrder` | internal/migrationhierarchy/controller.go:70-264 | every state of every run of creates, updates, syncs, leaf deletes and completed migrations is in order |

## Left out

What the model takes for granted:

- Quantities are whole units; parsing, formatting and rounding of quantities belong to a library.
- One quota write and its sync into the quota object are one step, as the wait in UpdateQuota intends.
- Quota results for runs, UpdateQuota and Migration are about regular Subnamespaces whose quotas all name the observed resources; the pool branches of the validators are in `HandleUpdate`, `HandleCreate` and `HandleMigration` alone.
- No pool sits at or above rq-depth, so the kind of quota object fits the depth (`QuotaKindFits`).
- The live-usage comparison is part of `HandleUpdate`, of the UpdateQuota `Reconcile`, of `SharedMigration` and of `SharedLedger`; all-or-nothing admission and `NeverDenied` are about the other checks.
- A migration's destination is not the root, and a reconcile pass is not cut off in the middle.
- Writes of statuses, labels and annotations are persisted; the helper they go through drops conflicts, so both the phases of migrations and the relabelling results rest on this.
- `UpdateQuotaController.Controller.ChangeSnsQuota`: the wait for the quota object always sees it follow; in the program the wait is bounded and gives up silently.
- `DatabaseRuns.RunKeepsDatabase`: migrations in its runs are those that fit and that do not bring a subtree into the database from outside; pool migrations, which skip the limit check, are covered by `MoveBoundedIff` alone. That the counted ClusterResourceQuota lists the whole moved subtree is assumed there and proved in `System`.
- `Validators.HandleMigration`: permissions and secondary roots are one flag.
- `ObjectContext.Context.ForceUpdate`: the time limit is a number of rounds, and an error of the change itself counts as a denied write.
- `DatabaseInit.Init`: namespaces and Subnamespaces are consistent, and the library sort is an insertion sort, which has the same result because the depths on a path differ.
- `Migration.MigrationTheorem`: nobody else writes quotas meanwhile; `SharedMigration` and `SharedLedger` drop that assumption.
- `SharedMigration.AlwaysSolvent`: nobody deletes the migrated namespace or its new parent meanwhile, and no second migration runs.
- `SharedLedger.FinishedRestores`: moreover nobody changes the migrated namespace's own quota or deletes a stop of the second UpdateQuota, and the namespace in question is there all the time.
- `MigrationController.Controller.RelabelAll`: a relabelling that fails part way counts as not done; which namespaces it reached is not modelled.
- `System.MigrateKeepsOrder`: migrations are those that fit the database.
- `System.AlwaysInOrder`: a migration is one step of a run there; its inner states are those of `MigrationTheorem` and `AlwaysSolvent`.

What is not modelled:

- The Kubernetes client, webhook decoding, event channels, locks, logging, metrics, sleeps and timeouts.
- Permission checks, groups, impersonation and the secondary-root check.
- Role bindings, LimitRanges, BuildConfigs, requester mutators and the tables of default quotas other than the resource names that count as default.
- Labels and annotations other than display name, depth, crq-selectors, the pool label and the pool annotations; hierarchy labels of former ancestors stay behind like the selectors do.
- Recovery of a migration after a crash between its steps.
- Conversions between pool and regular Subnamespaces and the events they enqueue.

# CrownLabs operators: a verified model

This project models the parts of CrownLabs that keep state across steps or transform data, and
proves what they guarantee over whole runs and for all inputs.

- `Text`, `AuthorizedKeys`, `Bastion`: the SSH bastion keeps one text file that must behave as a map
  from tenants to keys. The purge works in place on an array; a run theorem ties the text to the map.
- `PermissionCache`: the qlkube cache of granted watch permissions as a transition system of begun
  checks, finished reviews and purges, with a bisimulation and a backing theorem.
- `GqlResponse`: the recursive flattening of GraphQL responses, its fold, normal form and idempotence.
- `NextcloudSubscription`, `KeycloakUsers`, `KeycloakSubscription`, `Roles`, `Tenants`,
  `TenantReconcile`, `TenantDeletion`, `WorkspaceDeletion`: the tenant and workspace operators.
- `Snapshot`: the phases of an InstanceSnapshot and its Job.
- `VmiStatus`: the polling of a virtual machine and the status it leaves on the instance.
- `StaleInstances`: the `deleteAfter` parser and the expiry sweep.

Remote calls have three outcomes: done, failed without effect, failed after the effect. A reconcile
takes a script with the outcome of each call it may make and, where it matters, with what others do
just before it. Protocol classes keep a ghost log of every state the services go through, so the
run theorems speak of intermediate states and not only of the ends of reconciles.

Methods are proved against functions, and these functions against laws that do not use them: the lemmas
named `...InWords` and `...Words`, and those named `...Answered` and `...Reads`, speak only of literal
texts, numbers and answers of calls.

## Assumptions

- Tenant names have no space and no newline (section 2.1 of RFC 1123). Go strings are sequences of
  characters; all separators are ASCII.
- One reconcile at a time for an object, and reads are current. Terminal Job conditions do not change
  and nobody else deletes the Job. Only the operator deletes Nextcloud users, sets their passwords or
  writes the secret.
- Keycloak keeps user names unique and a search returns every user whose name contains the text. In the
  runs of `KeycloakSubscription` and `TenantDeletion` nobody else changes the accounts between two attempts;
  their one-attempt results hold for any realm.
- No phase of a KubeVirt machine is called Off. In `KeycloakSubscription` ids of accounts are not reused.
- JavaScript objects keep their keys in insertion order, as they do for every name that is not an
  array index, which GraphQL names never are.

## Where the code falls short of its own promises

Each point is kept as the code has it, with the exact condition proved.

- A key with a newline breaks the bastion file, and so do a failed stat, a failed creation and a write
  cut short, none of which is reported as an error (`Bastion.StepRefines`; a file for each in
  `Bastion.NewlineKeyBreaks`, `Bastion.FailedStatBreaks`, `Bastion.FailedCreateBreaks` and
  `Bastion.ShortWriteBreaks`).
- A workspace's finalizer is dropped after a failed clean-up and kept after a successful one, against
  the comment in workspace_controller.go line 79 (`WorkspaceDeletion.Cluster.ReconcileDeletion`,
  `WorkspaceDeletion.FinalizerExact`).
- Workspace deletion misses unlabelled tenants and second entries
  (`WorkspaceDeletion.AttemptsExact`), takes a list that is not found for no tenant, and takes any error
  text with "404" in it for a missing role (`WorkspaceDeletion.CleanUpExact`).
- A single Keycloak hit is accepted without comparing names: another person's account is then
  rewritten or deleted (`KeycloakSubscription.MistakenMeans`,
  `TenantDeletion.Services.DeleteKcUser`). A retried deletion reaches that case from realms that are not
  in it (`TenantDeletion.RunSurvivors`, `TenantDeletion.RetryDeletesAnother`), and two such hits block it
  for good (`TenantDeletion.BlockedForGood`, `TenantDeletion.BlockedExact`).
- A verification mail that fails after its account was written is never sent again
  (`KeycloakSubscription.Realm.Run`).
- The instance status is patched against the status first read: a report equal to that status is not
  stored (`VmiStatus.LastReportStored`, `VmiStatus.ReadyStored`), and a poller that outlives its reconcile
  overwrites what a later one stored (`VmiStatus.PhaseKept`).
- The cache key is ambiguous for requests with an underscore, and these can be granted on another
  request's allow (`PermissionCache.SharedExact`, `PermissionCache.ExposedExact`).
- The age of an instance is taken by the local clock against a UTC stamp
  (`StaleInstances.Cluster.Sweep`).

## Model

| member | source | states |
|---|---|---|
| `Text.SplitOfJoin` | operators/pkg/bastion-controller/bastion_controller.go:74-93 | Splitting a joined list gives the list back if and only if the list is not empty and no part holds the separator. |
| `AuthorizedKeys.DecomposeOfCompose` | operators/pkg/bastion-controller/helpers.go:33-64 | An entry survives Compose then Decompose if and only if none of its three fields holds a space. |
| `AuthorizedKeys.ComposeOfDecompose` | operators/pkg/bastion-controller/helpers.go:33-64 | Every line that decomposes is the composition of its entry. |
| `AuthorizedKeys.MarkedOwned` | operators/pkg/bastion-controller/helpers.go:47-64 | Every line written for a tenant whose name has no space decomposes back to that tenant. |
| `AuthorizedKeys.MarkedWords` | operators/pkg/bastion-controller/helpers.go:47-64 | For all words without a space: a key of two words, or of three with a comment, adds the one line made of its first two words and the tenant's name. |
| `AuthorizedKeys.MarkedSpaces` | operators/pkg/bastion-controller/helpers.go:48-58 | A key adds a line if and only if it has one or two spaces. |
| `AuthorizedKeys.OwnedWords` | operators/pkg/bastion-controller/helpers.go:34-45 | A line belongs to a tenant if and only if it is two words without a space followed by the tenant's name. |
| `AuthorizedKeys.RemoveKey` | operators/pkg/bastion-controller/helpers.go:18-25 | In place on the backing array: an index past the end changes nothing; otherwise the slot takes the last element and the slice shrinks by one. |
| `AuthorizedKeys.OwnedIndexes` | operators/pkg/bastion-controller/helpers.go:66-76 | The collected indexes are strictly increasing and are exactly the positions of the tenant's lines. |
| `AuthorizedKeys.DecomposeAndPurgeEntries` | operators/pkg/bastion-controller/helpers.go:66-83 | For every list of lines, well formed or not, reverse swap removal stays in bounds and leaves, as a multiset, exactly the lines that do not decompose to the tenant. |
| `AuthorizedKeys.ComposeAndMarkEntries` | operators/pkg/bastion-controller/helpers.go:85-94 | The given lines stay in front, followed by the composed valid keys in order; invalid keys are skipped. |
| `Bastion.BastionReconciler.Reconcile` | operators/pkg/bastion-controller/bastion_controller.go:48-101 | For every fate of the calls on the file, the new content is related to the old one by the reconcile step: other tenants' lines kept, this tenant's replaced; an error exactly after a failed lookup or read, and then the file is as it was. |
| `Bastion.StepRefines` | operators/pkg/bastion-controller/bastion_controller.go:64-98 | A reconcile of a file that stands for a map gives a file that stands for the updated map if and only if it returned an error, or could not create the file and had nothing to change, or wrote keys without a newline in full after a stat that hid nobody else's lines. |
| `Bastion.LinesLength` | operators/pkg/bastion-controller/bastion_controller.go:74-93 | The lines of a file, in any order, determine its length: what makes every cut-short write visible. |
| `Bastion.RunRefines` | operators/pkg/bastion-controller/bastion_controller.go:48-101 | From an absent or empty file, over any run of reconciles: in every file along the run the lines are, as a multiset, exactly the composed valid keys of the replayed map, if and only if every reconcile was harmless in that sense. |
| `Bastion.RefinedWords` | operators/pkg/bastion-controller/bastion_controller.go:64-98 | In a file that stands for a map, the line of two words and a tenant occurs as often as the tenant's keys have these two words, with a comment or without; stated on the text of keys and lines. |
| `Bastion.LinesExact` | operators/pkg/bastion-controller/bastion_controller.go:67-77 | The lines are the pieces of the text between newlines, and none for an absent or empty file. |
| `Bastion.ReplayIsLatest` | operators/pkg/bastion-controller/bastion_controller.go:55-82 | The replayed map holds, for each tenant, the keys of its latest reconcile without an error, and nothing after a deletion. |
| `Bastion.ReplayOnlySeen` | operators/pkg/bastion-controller/bastion_controller.go:79-82 | Only tenants that were reconciled have an entry. |
| `Bastion.NewlineKeyBreaks` | operators/pkg/bastion-controller/helpers.go:47-64 | A concrete key with a newline breaks the refinement on the first reconcile. |
| `Bastion.FailedStatBreaks` | operators/pkg/bastion-controller/bastion_controller.go:66-77 | A concrete file that one failed stat empties of another tenant's key. |
| `Bastion.FailedCreateBreaks` | operators/pkg/bastion-controller/bastion_controller.go:84-88 | A concrete file that keeps a deleted tenant's key, with no error returned. |
| `Bastion.ShortWriteBreaks` | operators/pkg/bastion-controller/bastion_controller.go:92-98 | A concrete file that a write cut short damages, with no error returned. |
| `PermissionCache.SubscriptionCache.CheckPermission` | qlkube/src/decorateSubscription.js:113-144 | The part before the await follows the transition function: parameter errors, live hit, expired entry deleted, upstream check sent. |
| `PermissionCache.SubscriptionCache.Reviewed` | qlkube/src/decorateSubscription.js:146-150 | The part after the await follows the transition function, whose answers the rows RequestAnswered and ReviewAnswered determine: a denial or a broken review caches nothing, an allow is stamped with the current time. |
| `PermissionCache.SubscriptionCache.ClearCache` | qlkube/src/decorateSubscription.js:153-159 | The loop over the keys removes exactly the expired entries and touches nothing else. |
| `PermissionCache.RequestAnswered` | qlkube/src/decorateSubscription.js:113-144 | In every run, told from the events alone: an error when a mandatory part is empty, a grant if and only if an allow under the same key text, with a stamp other than 0 and at most 600000 ms old, was neither replaced nor removed since, and otherwise a new upstream check. |
| `PermissionCache.ReviewAnswered` | qlkube/src/decorateSubscription.js:146-150 | In every run: the review of an awaited check grants if and only if it allows, forbids if and only if it denies, and is an error if and only if it broke; any other review is answered by nothing. |
| `PermissionCache.PurgeInvisible` | qlkube/src/decorateSubscription.js:113-159 | With a clock that never goes back, a run with purges anywhere gives the same answers and the same upstream checks as the run without them. |
| `PermissionCache.SimilarStep` | qlkube/src/decorateSubscription.js:126-150 | States that differ only in expired entries answer alike and stay so: the step of the bisimulation. |
| `PermissionCache.PurgeVisibleWhenTimeGoesBack` | qlkube/src/decorateSubscription.js:153-159 | A concrete run with a clock that goes back in which a purge is seen. |
| `PermissionCache.KeyInjective` | qlkube/src/decorateSubscription.js:126-126 | Among requests with no underscore after the token, the joined key determines the request, whatever the tokens hold. |
| `PermissionCache.KeyAmbiguity` | qlkube/src/decorateSubscription.js:126-126 | For every request: some other request has the same key if and only if its token or another part holds an underscore. |
| `PermissionCache.SharedExact` | qlkube/src/decorateSubscription.js:114-126 | For every complete request: some other complete request has the same key if and only if an underscore stands in the group or the name, past the first character of the token, or in a resource or namespace other than a single underscore. |
| `PermissionCache.GrantsAreBacked` | qlkube/src/decorateSubscription.js:113-151 | Under any interleaving of pending checks and purges, every grant is backed by an allow recorded at most ten minutes earlier for the very same request. |
| `PermissionCache.UnambiguousBacked` | qlkube/src/decorateSubscription.js:113-151 | Whatever else is asked, with underscores or not, a grant to a request outside that family is backed by its own allow of the last ten minutes. |
| `PermissionCache.ExposedExact` | qlkube/src/decorateSubscription.js:113-151 | A complete request can be granted in some run with no allow of its own if and only if it is in that family. |
| `PermissionCache.SharedGrant` | qlkube/src/decorateSubscription.js:126-150 | The run that does it, for any two complete requests with one key. |
| `PermissionCache.AgreesWithPolicy` | qlkube/src/decorateSubscription.js:134-150 | When the reviews follow a fixed policy, every grant and every refusal agrees with it. |
| `GqlResponse.BeautifyGqlResponse` | frontend/src/graphql-components/utiles.ts:1-24 | The recursive method with its three loops returns the flattening function of its argument. |
| `GqlResponse.BeautifyReads` | frontend/src/graphql-components/utiles.ts:1-24 | For every tree and every path of keys and indexes, the result holds exactly what the input says without the function itself: arrays keep their length and places, an object has the keys of its inner fields in the order of their first occurrence, and a key holds its last value, at every depth and through arrays. |
| `GqlResponse.BeautifyArray` | frontend/src/graphql-components/utiles.ts:4-8 | An array is flattened element by element, none lost and none moved. |
| `GqlResponse.BeautifyLastInner` | frontend/src/graphql-components/utiles.ts:10-23 | A key of a flattened object holds the flattened last field of that key, in depth-first order of the input as it is. |
| `GqlResponse.BeautifyIsFold` | frontend/src/graphql-components/utiles.ts:10-23 | The flattening of an object is the fold of property assignments over its leaves in depth-first key order. |
| `GqlResponse.BeautifyLastLeaf` | frontend/src/graphql-components/utiles.ts:10-23 | Each key holds its last leaf in depth-first order, and is present exactly when it is the key of a leaf. |
| `GqlResponse.BeautifyKeepsLeaves` | frontend/src/graphql-components/utiles.ts:10-23 | The result is the list of leaves itself (none lost, none invented, order kept) if and only if no two leaves have the same key. |
| `GqlResponse.PutAllMerged` | frontend/src/graphql-components/utiles.ts:16-21 | Copying an already merged object key by key is the same as assigning its fields one after the other. |
| `GqlResponse.BeautifyNormal` | frontend/src/graphql-components/utiles.ts:1-24 | No object of the result has an object as a direct value, at every depth and inside arrays. |
| `GqlResponse.FixedIffNormal` | frontend/src/graphql-components/utiles.ts:1-24 | A response is left unchanged if and only if it is in that normal form. |
| `GqlResponse.Idempotent` | frontend/src/graphql-components/utiles.ts:1-24 | Flattening twice is flattening once. |
| `NextcloudSubscription.Stores.HandleNextcloudSubscription` | operators/pkg/tenant-controller/tenant_controller.go:447-513 | The exact user and secret left by every attempt, disturbed or not; keeps the secret current in every intermediate state; succeeds exactly when every call it needs does; a success that needed a new password leaves the drawn token as the password and in the secret; ends with the expected display name unless it was the reset of a lost secret under a stale name. |
| `NextcloudSubscription.Stores.WriteSecret` | operators/pkg/tenant-controller/tenant_controller.go:472-479 | Writes the secret only when the token is already the user's password, and with that token. |
| `NextcloudSubscription.Stores.Run` | operators/pkg/tenant-controller/tenant_controller.go:447-530 | In every run, with calls failing before or after their effect and the secret deleted at any time, an existing secret always holds the current password; two undisturbed successes in a row also give the display name; the states between the reconciles are returned as a history of the attempts. |
| `NextcloudSubscription.LastTokenIsPassword` | operators/pkg/tenant-controller/tenant_controller.go:462-506 | Over any run, the password is the token drawn by the last attempt that wrote one. |
| `NextcloudSubscription.AttemptPassword` | operators/pkg/tenant-controller/tenant_controller.go:452-512 | Whatever fails or is disturbed: the password is the drawn token if a new one was needed and written, else the old one, and the secret is there with it exactly when its own write came through. |
| `NextcloudSubscription.CalmReset` | operators/pkg/tenant-controller/tenant_controller.go:461-512 | The exact user and secret after an undisturbed attempt that needs a password, for every fate of its calls. |
| `NextcloudSubscription.CalmRename` | operators/pkg/tenant-controller/tenant_controller.go:484-490 | The exact user and secret after an undisturbed attempt that finds its secret: only the display name can change. |
| `Snapshot.GetJobStatus` | operators/pkg/instancesnapshot-controller/instancesnapshot_helpers.go:108-118 | Returns the type of the first true terminal condition, and none exactly when no condition is. |
| `Snapshot.ValidateRequest` | operators/pkg/instancesnapshot-controller/instancesnapshot_helpers.go:37-105 | Accepts exactly a powered-off instance whose environment, the first of the requested name or the first of all, is a persistent VM; retries exactly on unreadable objects, and dies exactly on an unnamed environment in an empty list. |
| `Snapshot.Cluster.CreateSnapshottingJob` | operators/pkg/instancesnapshot-controller/instancesnapshot_logic.go:14-60 | The exact phase, Job and error for every fate of its calls: Processing with a Job after a success, Failed after a refusal that was stored, no Job and the old phase when Pending could not be stored. |
| `Snapshot.CreationInWords` | operators/pkg/instancesnapshot-controller/instancesnapshot_logic.go:14-60 | The phase at the end for each answer of each call, Pending exactly when it was stored and a later call stopped the attempt; and what leads to the creation of the Job. |
| `Snapshot.Cluster.HandleExistingJob` | operators/pkg/instancesnapshot-controller/instancesnapshot_logic.go:63-81 | The stored phase for every condition read and every fate of the write, and no error exactly without a terminal condition or after a write that is done. |
| `Snapshot.Cluster.Reconcile` | operators/pkg/instancesnapshot-controller/instancesnapshot_controller.go:63-143 | Keeps every stored state honest; a snapshot that is gone or not selected ends without an error and nothing is written before the dispatch; a first attempt with every call done ends in Processing with a Job or, refused, in Failed; once the Job has ended, a reconcile without error stores the matching phase. |
| `Snapshot.Cluster.Run` | operators/pkg/instancesnapshot-controller/instancesnapshot_controller.go:99-140 | In every run with failures and moves of the cluster between any two calls: Processing implies a Job, Completed a complete one, Failed with a Job a failed one; at most one Job is created, after an accepted validation and with Pending stored. |
| `Roles.RoleNameInjective` | operators/pkg/tenant-controller/workspace_controller.go:311-313 | Distinct (workspace, role) pairs have distinct role names, for any workspace name and roles without a colon. |
| `Roles.GenKcUserRoleNames` | operators/pkg/tenant-controller/tenant_controller.go:437-445 | One role name per entry, in order, all with the workspace prefix. |
| `Roles.SubtractRoles` | operators/pkg/tenant-controller/keycloak_utils.go:276-294 | The roles of the first list that have the prefix and are not in the second, in order. |
| `Roles.Keycloak.UpdateUserRoles` | operators/pkg/tenant-controller/keycloak_utils.go:239-274 | States exactly when it succeeds. Success leaves exactly the roles outside the prefix plus the wanted ones; any failure keeps the roles outside the prefix, adds only wanted ones, and never touches another user. |
| `Roles.SyncInWords` | operators/pkg/tenant-controller/keycloak_utils.go:239-274 | A role is in the target exactly when it is wanted, or was held and has not the prefix; a sync with every call done and every role known succeeds. |
| `Roles.Keycloak.Resync` | operators/pkg/tenant-controller/keycloak_utils.go:239-274 | After any partial failures, a later success reaches the same set as an immediate one. |
| `KeycloakUsers.GetUserInfo` | operators/pkg/tenant-controller/keycloak_utils.go:144-175 | Finds the user of the exact name whenever there is one; without one: absent on no hit, the single other hit as it is, an error on several. |
| `KeycloakSubscription.Realm.HandleKeycloakSubscription` | operators/pkg/tenant-controller/tenant_controller.go:415-435 | For every fate of its calls: the exact accounts, the mails sent, and when it succeeds; success gives the account it worked on exactly its roles outside the prefix plus the wanted ones, and no failure changes what a later success reaches; no other roles change. |
| `KeycloakSubscription.Realm.EnsureAccount` | operators/pkg/tenant-controller/tenant_controller.go:416-428 | The accounts, the mails and the result of the first half, for every pattern of failures, mistaken case included. |
| `KeycloakSubscription.Realm.CreateKcUser` | operators/pkg/tenant-controller/keycloak_utils.go:177-205 | Succeeds exactly when the account was created under a fresh id and the mail sent; a failed mail leaves the account behind. |
| `KeycloakSubscription.Realm.UpdateKcUser` | operators/pkg/tenant-controller/keycloak_utils.go:207-237 | Writes names and address but never the user name; the mail is required exactly for a new address. |
| `KeycloakSubscription.AttemptInWords` | operators/pkg/tenant-controller/tenant_controller.go:415-428 | For every answer of the search, the accounts, the mails and the result of an attempt field by field. |
| `KeycloakSubscription.SyncedInWords` | operators/pkg/tenant-controller/tenant_controller.go:430-445 | The roles after a success: those without the prefix, and one of each existing workspace entry, by its text. |
| `KeycloakSubscription.AttemptMeans` | operators/pkg/tenant-controller/tenant_controller.go:415-435 | Outside the mistaken case (no account of the name, exactly one whose name contains it): whatever fails, nobody else is touched and names stay unique; success gives the person's own account its data; a write stores the address there. |
| `KeycloakSubscription.AttemptSettles` | operators/pkg/tenant-controller/tenant_controller.go:415-435 | On any realm: success needs a write, a write stores the address, and once stored it stays and no mail is sent for it. |
| `KeycloakSubscription.MistakenMeans` | operators/pkg/tenant-controller/keycloak_utils.go:156-157 | In the mistaken case the one other account is rewritten exactly when the search is done and the update takes effect, and the person's own account is never created. |
| `KeycloakSubscription.Realm.Run` | operators/pkg/tenant-controller/tenant_controller.go:415-435 | Over any run of attempts from any realm, the mistaken case included, whose lookup does not show the address: no success comes before the first attempt whose write takes effect, and the verification mail is sent in the whole run if and only if that one attempt saw its write done and its mail take effect. |
| `KeycloakSubscription.MistakenExists` | operators/pkg/tenant-controller/keycloak_utils.go:156-157 | A concrete realm in which the mistaken case arises. |
| `TenantDeletion.Services.NcDeleteUser` | operators/pkg/tenant-controller/nextcloud_utils.go:113-137 | Returns no error exactly when the deletion was acknowledged, or the answer had another status and the user is confirmed missing, whether it was missing before or that deletion took effect; then the user does not exist. The users left are stated for every answer, errors included. |
| `TenantDeletion.Services.DeleteKcUser` | operators/pkg/tenant-controller/tenant_controller.go:246-258 | The accounts left by any attempt, failed or not: all but the one the lookup yields when the search is done and the deletion takes effect. Returns no error only when no account of the tenant's name is left; within one attempt another person's account goes exactly in the mistaken case. |
| `TenantDeletion.Services.HandleDeletion` | operators/pkg/tenant-controller/tenant_controller.go:243-266 | States exactly when no error is returned, in terms of the calls and of a Nextcloud user that is deleted or confirmed missing, and that then neither user exists; the exact accounts and Nextcloud users left by every attempt. |
| `TenantDeletion.Services.ReconcileDeletion` | operators/pkg/tenant-controller/tenant_controller.go:83-108 | The exact new state for every fate of the calls; the finalizer goes exactly when the clean-up succeeded and its removal took effect, and then neither user exists. |
| `TenantDeletion.DoneEnds` | operators/pkg/tenant-controller/tenant_controller.go:83-108 | A deletion ends in one reconcile whose calls are done, with neither user left, whether the Nextcloud user is deleted now or was already missing. |
| `TenantDeletion.Services.Run` | operators/pkg/tenant-controller/tenant_controller.go:83-108 | In every run of retries and in every state along it, a tenant whose finalizer was present at the start and is gone has neither user left; the state after the run is the iteration of the reconcile step, which the next rows characterise. |
| `TenantDeletion.RunAccounts` | operators/pkg/tenant-controller/tenant_controller.go:243-266 | After any run of retries the accounts are decided by the number of attempts, made with the finalizer, whose search is done and whose deletion takes effect: the first takes the tenant's own account, the next (or the first without an own account) takes a single other account whose name contains the tenant's. |
| `TenantDeletion.RunSurvivors` | operators/pkg/tenant-controller/tenant_controller.go:243-266 | For every account of any realm, exactly when a run of retries deletes it: another person's goes if and only if it is the only other name containing the tenant's and such an attempt comes when the tenant's own account is already gone. |
| `TenantDeletion.BlockedForGood` | operators/pkg/tenant-controller/keycloak_utils.go:144-175 | With the own account gone and two or more other names containing the tenant's, the finalizer stays and no account changes in any run, whatever the calls answer. |
| `TenantDeletion.BlockedExact` | operators/pkg/tenant-controller/keycloak_utils.go:144-175 | With two or more such names, a run ends blocked if and only if it ends with the finalizer and without the own account. |
| `TenantDeletion.RetryDeletesAnother` | operators/pkg/tenant-controller/tenant_controller.go:246-258 | A concrete run from a realm outside the mistaken case: the first attempt gets no answer from Nextcloud, the retry deletes another person's account and drops the finalizer. |
| `WorkspaceDeletion.RemoveWsFromTn` | operators/pkg/tenant-controller/workspace_controller.go:217-227 | The list without its last entry for the workspace. |
| `WorkspaceDeletion.RemoveLastCount` | operators/pkg/tenant-controller/workspace_controller.go:217-227 | Exactly one entry for the workspace goes, if there is any. |
| `WorkspaceDeletion.RemoveLastKeepsOthers` | operators/pkg/tenant-controller/workspace_controller.go:217-227 | With at most one entry for the workspace, all other entries stay, in order. |
| `WorkspaceDeletion.RemoveLastOthers` | operators/pkg/tenant-controller/workspace_controller.go:217-227 | However many entries there are, those of other workspaces stay, in order. |
| `WorkspaceDeletion.Cluster.DeleteKcRoles` | operators/pkg/tenant-controller/keycloak_utils.go:132-142 | Returns no error exactly when every error text contains 404; it stops at the first that does not. The roles left are stated for every case: after a success, those whose failed deletion was swallowed that way. |
| `WorkspaceDeletion.QuotedNameSwallowed` | operators/pkg/tenant-controller/keycloak_utils.go:134-139 | Every error text that quotes a role of a workspace with 404 in its name counts as a missing role. |
| `WorkspaceDeletion.Cluster.HandleDeletion` | operators/pkg/tenant-controller/workspace_controller.go:184-215 | For every answer to every call, a list that is not found included: the exact tenants and roles left, and exactly when no error is returned. |
| `WorkspaceDeletion.ReachInWords` | operators/pkg/tenant-controller/workspace_controller.go:193-213 | Who loses an entry in one attempt: exactly the tenants with the label of the workspace whose update took effect, after a list that was answered. |
| `WorkspaceDeletion.ErrorInWords` | operators/pkg/tenant-controller/workspace_controller.go:184-215 | No error exactly when both role answers are done or contain 404, the list did not fail, and every update of a labelled tenant is done; only the two roles of the workspace can go, and do when both answers are done. |
| `WorkspaceDeletion.CleanUpExact` | operators/pkg/tenant-controller/workspace_controller.go:184-215 | A clean-up without an error leaves nobody naming the workspace if and only if everyone who did was labelled and named it once; after a list that was not found every tenant stays as it was; neither role is left if and only if no error was swallowed. |
| `WorkspaceDeletion.UnsubscribedExact` | operators/pkg/tenant-controller/workspace_controller.go:205-213 | The exact condition under which unsubscribing the labelled tenants leaves none naming the workspace, with all other entries in order. |
| `WorkspaceDeletion.RelabelledReachable` | operators/pkg/tenant-controller/tenant_controller.go:532-542 | The labels written by reconciles of all tenants make the deletion of an existing workspace reach every tenant that names it once. |
| `WorkspaceDeletion.Cluster.ReconcileDeletion` | operators/pkg/tenant-controller/workspace_controller.go:69-96 | The error is exactly a failed clean-up, in terms of its calls. As written, the finalizer is dropped exactly after a clean-up that failed with an effective removal, so the promise that it goes with a successful one holds only when both fail. |
| `WorkspaceDeletion.Cluster.Run` | operators/pkg/tenant-controller/workspace_controller.go:69-96 | Any run of reconciles of a workspace being deleted, with reconciles of tenants between them that rewrite labels: the state after it is the iteration of these steps, which the next rows characterise. |
| `WorkspaceDeletion.FinalizerExact` | operators/pkg/tenant-controller/workspace_controller.go:69-96 | The finalizer survives a run if and only if no attempt fails with an effective removal, given the labels at that time: clean-ups that succeed never lose it. |
| `WorkspaceDeletion.LostForGood` | operators/pkg/tenant-controller/workspace_controller.go:69-96 | Once the finalizer is lost no role and no entry changes any more. |
| `WorkspaceDeletion.AttemptsExact` | operators/pkg/tenant-controller/workspace_controller.go:205-227 | After any such run a tenant has as many entries for the workspace as it had, less the attempts made with the finalizer that reached it while it was labelled, so it still names it if and only if it had more; all other entries stay, in order. |
| `WorkspaceDeletion.HonestExact` | operators/pkg/tenant-controller/tenant_controller.go:532-542 | For a tenant labelled at the start whose reconciles find the workspace, the labels they drop cost nothing: it still names the workspace if and only if it had more entries than attempts with an effective update. |
| `WorkspaceDeletion.FoundExact` | operators/pkg/tenant-controller/tenant_controller.go:532-542 | After a reconcile a tenant has the label of a workspace if and only if it names the workspace and the workspace was found. |
| `WorkspaceDeletion.RolesExact` | operators/pkg/tenant-controller/keycloak_utils.go:132-142 | A role is left after any run if and only if no attempt made with the finalizer removed it. |
| `Tenants.CleanName` | operators/pkg/tenant-controller/tenant_controller.go:551-567 | Removing first occurrences of the problem characters one by one gives the letters, digits and underscores in order, spaces turned into underscores. |
| `Tenants.RemoveProblems` | operators/pkg/tenant-controller/tenant_controller.go:556-564 | When the turn of a problem character comes, its first occurrence is the one recorded. |
| `Tenants.CleanedFixed` | operators/pkg/tenant-controller/tenant_controller.go:551-567 | cleanName is idempotent and leaves exactly the clean names unchanged. |
| `Tenants.CleanWorkspaceLabels` | operators/pkg/tenant-controller/tenant_controller.go:569-576 | Removes exactly the labels with the workspace prefix. |
| `Tenants.UpdateTnLabels` | operators/pkg/tenant-controller/tenant_controller.go:532-549 | Changes nothing but the labels, which become the relabelling described by the next two rows. |
| `Tenants.LabelsInWords` | operators/pkg/tenant-controller/tenant_controller.go:532-549 | The labels by their text: of a workspace the role of its last entry and none without an entry, the cleaned first name and the cleaned last name under their own keys; nothing but the labels changes. |
| `Tenants.RelabelledWorkspace` | operators/pkg/tenant-controller/tenant_controller.go:539-542 | The label of a workspace is the role of its last existing entry, and absent without one. |
| `Tenants.RelabelledOthers` | operators/pkg/tenant-controller/tenant_controller.go:532-549 | Labels outside the workspace prefix and the two name labels are untouched. |
| `Tenants.GetPublicKeys` | operators/pkg/instance-creation/ssh.go:17-54 | Succeeds exactly when all reads do; appends the tenant's keys and then those of the listed tenants other than itself; keys appended before a failure stay. |
| `Tenants.ManagerKeys` | operators/pkg/instance-creation/ssh.go:36-51 | After label updates on all tenants, each other tenant whose last entry for the workspace says manager is visited once and contributes exactly its keys. |
| `Tenants.OnlyManagerKeys` | operators/pkg/instance-creation/ssh.go:36-51 | No key comes from anyone else. |
| `TenantReconcile.PickPartitions` | operators/pkg/tenant-controller/tenant_controller.go:141-157 | The existing and the failing entries, woven together, give the workspace list back. |
| `TenantReconcile.CheckWorkspaces` | operators/pkg/tenant-controller/tenant_controller.go:141-157 | Existing and failing workspaces are the entries whose lookup succeeded and failed, in order; an error is noted exactly when one failed. |
| `TenantReconcile.TenantObject.CreateOrUpdateClusterResources` | operators/pkg/tenant-controller/tenant_controller.go:269-355 | The tenant gains exactly the resources whose call took effect: none of the other six is attempted without the namespace, all are with it, whatever fails; no error is reported exactly when all seven calls are done, and then all seven exist. |
| `TenantReconcile.TenantObject.Assess` | operators/pkg/tenant-controller/tenant_controller.go:110-185 | Ready exactly when the finalizer update, every resource, every lookup, and every call that the Keycloak and Nextcloud handlers need from what these services hold succeeded; with the accounts, roles and credentials that the handlers leave. |
| `TenantReconcile.ReadyInWords` | operators/pkg/tenant-controller/tenant_controller.go:110-185 | Ready if and only if the finalizer, each of the seven resources, every lookup, Keycloak and, for the display name made of first and last name, Nextcloud succeeded. |
| `TenantReconcile.TenantObject.Subscribe` | operators/pkg/tenant-controller/tenant_controller.go:159-182 | The two handlers on the shared realm and stores: when each succeeds and what it leaves; Nextcloud is left alone without a namespace. |
| `TenantReconcile.TenantObject.WriteBack` | operators/pkg/tenant-controller/tenant_controller.go:187-212 | Status and labels are written independently; a late effective update also stores the finalizer that an earlier one failed to. |
| `TenantReconcile.TenantObject.Reconcile` | operators/pkg/tenant-controller/tenant_controller.go:110-212 | The same for the whole reconcile, and what Ready means outside the object: all seven resources exist; outside the mistaken case the tenant's own account has its name, first name, last name and address, and its roles are those outside the prefix plus exactly those of its workspaces; undisturbed, the secret holds the current password. Accounts of other names are untouched, and the stored status and labels follow for every fate of the final writes. |
| `TenantReconcile.ReconciledAll` | operators/pkg/tenant-controller/tenant_controller.go:141-203 | Reconciles of all tenants produce the label index that key collection and workspace deletion rely on. |
| `VmiStatus.Instance.SetInstanceStatus` | operators/pkg/instance-controller/controller.go:176-198 | The stored status is the fold of the reports through the Ready gate and the patch against the status first read. |
| `VmiStatus.ReportInWords` | operators/pkg/instance-controller/controller.go:182-197 | What one report leaves of address, phase and page: the old status when it is ignored or lost, else each field that differs from the status first read. |
| `VmiStatus.Instance.Poll` | operators/pkg/instance-controller/status_inspection.go:26-50 | After any reports made before it, the loop adds exactly the specified reports and stops at the first Running or Failed. |
| `VmiStatus.Instance.GetVmiStatus` | operators/pkg/instance-controller/status_inspection.go:18-71 | After any reports made before it: VmiReady is reported exactly after Running and a connection within 120 tries, with the last known address. |
| `VmiStatus.Instance.SetUp` | operators/pkg/instance-controller/logic.go:38-90 | The reports of the steps before the poller, for every step that fails and a machine that is off. |
| `VmiStatus.Instance.CreateVmEnvironment` | operators/pkg/instance-controller/logic.go:19-121 | A whole run on one instance object: the reports of the steps, then the poller's when the machine is up and not off; the stored status is their fold. |
| `VmiStatus.RunInWords` | operators/pkg/instance-controller/logic.go:38-94 | The reports of a whole run in terms of the steps that failed and of how the poller ended. |
| `VmiStatus.LoopReportsChanges` | operators/pkg/instance-controller/status_inspection.go:31-47 | The reports are the phases seen, without repeats of the previous one, up to the first Running or Failed; only Failed is a warning. |
| `VmiStatus.ReportsInWords` | operators/pkg/instance-controller/status_inspection.go:31-47 | Every report in full: reason, the address known with it and the page, and neither for a failure. |
| `VmiStatus.AddressInWords` | operators/pkg/instance-controller/status_inspection.go:35-37 | The address of the final report is the one known with the last change. |
| `VmiStatus.PollEndInWords` | operators/pkg/instance-controller/status_inspection.go:26-66 | Ready if and only if the first of Running and Failed is Running and one of 120 tries connects; failed if and only if it is Failed; still polling if and only if neither was seen. |
| `VmiStatus.WaitForConnection` | operators/pkg/instance-controller/status_inspection.go:73-88 | Succeeds exactly when one of the first 120 tries connects. |
| `VmiStatus.ReadyKept` | operators/pkg/instance-controller/controller.go:182-197 | A run begun in VmiReady leaves VmiReady stored if and only if no warning and no VmiOff was written. |
| `VmiStatus.PollPasses` | operators/pkg/instance-controller/status_inspection.go:18-71 | The poller disturbs a ready instance if and only if it saw the machine fail. |
| `VmiStatus.ReadySurvivesRun` | operators/pkg/instance-controller/logic.go:19-97 | A whole run begun in VmiReady, from the first step to the final VmiReady, leaves VmiReady stored if and only if no step before the poller failed with a report or turned the machine off and the machine was not seen to fail. |
| `VmiStatus.ReadyStored` | operators/pkg/instance-controller/status_inspection.go:65-70 | A whole run that ends by reporting VmiReady leaves it stored if and only if the instance was not ready when it was read or its secret was created. |
| `VmiStatus.LastReportStored` | operators/pkg/instance-controller/controller.go:189-197 | The last report of a run is the phase stored if and only if it differs from the phase first read or nothing else was reported. |
| `VmiStatus.StaleBaseExample` | operators/pkg/instance-controller/controller.go:189-197 | A concrete whole run, first report included, whose last report is not stored. |
| `VmiStatus.InterleavedPhase` | operators/pkg/instance-controller/logic.go:92-94 | However the reports of any number of runs interleave, each with the status it first read, the stored phase is the reason of the last report that passes its gate, is written and differs from its own first-read phase. |
| `VmiStatus.InterleavedFields` | operators/pkg/instance-controller/controller.go:182-197 | The same for the address and the page. |
| `VmiStatus.PhaseKept` | operators/pkg/instance-controller/controller.go:182-197 | A phase that was set is still stored at the end if and only if every later report that sets another one is followed by one that sets it again. |
| `VmiStatus.RunAlone` | operators/pkg/instance-controller/controller.go:182-197 | The status of a single run is the special case of one first-read status. |
| `VmiStatus.LateReadyExample` | operators/pkg/instance-controller/logic.go:92-94 | Two concrete runs: a poller that outlives its reconcile stores VmiReady over a later VmiOff. |
| `StaleInstances.AdmittedConverts` | operators/cmd/delete-stale-instances/delete_stale_instances.py:63-89 | Every string the template schema admits converts to its number times the seconds of its unit. |
| `StaleInstances.ConvertsByPrefix` | operators/cmd/delete-stale-instances/delete_stale_instances.py:71-86 | A string converts if and only if it starts with an admitted one, and then as that one; the wrong-unit branch is unreachable. |
| `StaleInstances.ConvertOfPrint` | operators/cmd/delete-stale-instances/delete_stale_instances.py:63-89 | Printing a number and a unit, then converting, gives the number times the unit. |
| `StaleInstances.OlderInWords` | operators/cmd/delete-stale-instances/delete_stale_instances.py:91-111 | An instance is too old if and only if its age exceeds the number times 60, 3600 or 86400 seconds of the template of the referenced name, in the referenced namespace or in default. |
| `StaleInstances.Cluster.DeleteInstanceExpired` | operators/cmd/delete-stale-instances/delete_stale_instances.py:113-149 | For every clock and every failure, exactly the instances whose own round found them expired and whose deletion took effect go, up to the first template without a deleteAfter field, which ends the sweep. |
| `StaleInstances.Cluster.Sweep` | operators/cmd/delete-stale-instances/delete_stale_instances.py:113-149 | With a fixed clock and no failure, exactly the instances older than their template's span by the local clock go; these are the ones older than their span if and only if no age lies between the span and the span shifted by the local offset. |
| `StaleInstances.SweepExact` | operators/cmd/delete-stale-instances/delete_stale_instances.py:50-61 | The same as a law of the two clocks, for every set of instances, every time and every offset. |

## Left out

- Other processes that change the bastion file, and a reconciler killed in the middle of a write.
- HTTP, JSON and OCS parsing in the Nextcloud and Keycloak clients, the token mutex, random requeue
  intervals and password generation: replaced by outcomes and arbitrary values.
- Target-label selection and the not-found path at the start of the tenant and workspace reconciles:
  they change nothing.
- The non-deletion branch of the workspace reconcile and createKcRoles: they would add the same shape
  as the tenant's at a smaller size.
- NextcloudSubscription.Stores.HandleNextcloudSubscription: one tenant at a time, and the
  create-or-update of the secret is one call.
- Tenants.UpdateTnLabels: takes and returns the tenant as a value; that the label map is changed in place,
  visible to other holders of the object, is not modelled. The same holds for the lists of
  Tenants.GetPublicKeys and WorkspaceDeletion.RemoveWsFromTn.
- GqlResponse.BeautifyGqlResponse: keys that are array indices, and the key `__proto__`, which
  JavaScript treats apart.
- VmiStatus.Instance.CreateVmEnvironment: one run of one reconcile; runs that overlap are treated on the
  sequence of their reports (`VmiStatus.InterleavedPhase`).
- VmiStatus.Instance.GetVmiStatus: takes the finite list of observations made so far; the wait between
  two polls and the event recorder are not modelled.
- StaleInstances.Cluster.DeleteInstanceExpired: creation times are numbers; the parsing of timestamps is not
  modelled.
- CreateSnapshottingJobDefinition beyond its read of the instance, and the builders of services, ingresses,
  virtual machines, volumes and cloud-init: record construction.
- Frontend and dashboard components, qlkube schema building and watches, the error-page server, the
  image-list updater, the policies: not part of this model.

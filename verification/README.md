# A verified model of the permission center

The permission center decides API requests. Administrators edit authorization policies, each a set of
roles, a set of API endpoints and a condition tree; publishing a policy compiles it into an immutable,
versioned snapshot; a decision selects the snapshots in force for an endpoint and lets any matching deny
override every matching allow. Beside that it keeps roles, menus, grants and assignments, signs
administrators in through an OpenID provider, and imports endpoints from Swagger documents.

The project is in Dafny. `dafny verify dfyconfig.toml` checks all of it.

| file | what it holds |
|---|---|
| `policy_model.dfy`, `validate.dfy`, `condition_json.dfy` | conditions, the counting validator, their JSON form |
| `compile.dfy`, `compile_meaning.dfy` | the canonical snapshot, and why compiling changes no decision |
| `eval.dfy` | the evaluator loop, its declarative meaning, deny-overrides, locality, monotonicity |
| `tables.dfy`, `policy_repo.dfy` | the database and the policy repository, row loops included |
| `policy_machine.dfy` | the policy calls as interleaved repository statements, and the invariant of every run |
| `policy_service.dfy` | the policy service as it is written, and what each call puts in force |
| `policy_meaning.dfy` | when each policy call succeeds and what it leaves, on the fields of rows |
| `decision_meaning.dfy` | what `Decide` answers, on the fields of the request and of rows |
| `decision_point.dfy`, `noninterference.dfy` | `Decide` over every reachable store, and its independence of other scopes |
| `rbac.dfy`, `rbac_repo.dfy`, `menu_forest.dfy` | roles, grants, assignments, endpoints, and the menu forest built in place |
| `rbac_meaning.dfy` | when each role, menu and endpoint call succeeds and what it leaves, field by field |
| `session_flow.dfy` | the login flow over one cookie jar, with requests and responses in flight |
| `authority.dfy` | the public/backchannel URL rewrite and its way back |
| `swagger_parse.dfy`, `swagger_import.dfy` | the operations of a document, and the import loop against the unique route index |
| `wrappers.dfy`, `text.dfy`, `sorting.dfy` | results, trimming and string order, sorting |

How it is put together:

- Code that works step by step is a method on a class or an array, proved against a function of the old
  state; the theorems are about those functions. A database is one object whose fields are the tables; a
  `Tables` value is a state of it.
- `PolicyMachine.Advance` is one statement of one policy call, or one transaction: a read of the catalog, a
  row, its roles, its endpoints, a role or an endpoint to be bound, a version, or one of the writes. `Get` is
  three statements, so what it returns may be torn. A `World` holds the tables and any number of calls in flight; an event
  starts a call, lets one proceed by a statement, abandons one, or lets another service change the tables.
  `PolicyService` proves that each method, run on its own, ends exactly where the machine ends when only
  that call proceeds (`Complete`, `CompleteIsAlone`).
- The functions that describe the code are themselves pinned: the `Meaning` modules, and lemmas of that name
  elsewhere, say what they compute on the fields of rows, requests and strings without naming them.
- `WorldOk` is the invariant. Runs start from any world that satisfies it, disabled rows and old versions
  included.
- `SessionFlow.World` holds the browser's jar, the requests under way to the server and the responses under
  way back, any number of each: sending reads the jar, handling happens later, arrival applies the cookies.
- `View` is the map of snapshots in force: for each live published policy, the snapshot its row points at.
  Failed publishes, rollbacks and other scopes are all judged by what they do to the view.

Where a property the service is meant to have is false of the code, the exact condition is proved:

- A login flow can reach the code exchange more than once. A callback does so again if and only if it was
  sent before the response of an earlier request that spent the flow had reached the jar, be that response
  late, as when two requests for one callback URL overlap, or lost (`SessionFlow.ExchangedAgainExactly`,
  `SessionFlow.RepeatedCallback`). Where callbacks that carry one flow wait for each other's responses, no
  flow is exchanged twice (`SessionFlow.EachFlowExchangedOnce`).
- Decisions of a scope are independent of other scopes exactly for endpoint ids that have a row which is
  of the scope or deleted. A live endpoint of another scope answers scope_mismatch until it is deleted,
  and an unknown id answers not found until another scope registers it; neither is ever an allow
  (`Noninterference.NoninterferenceExactly`, `Noninterference.ForeignEndpointNeverAllowed`).
- Compiling leaves the applicability of a policy unchanged exactly when its scope and roles carry no
  stray whitespace and no blank role (`CompileMeaning.CompilingIsInvisible`).

Where the design document (docs/custom-pdp-design.md) and the code differ, the model follows the code:
the validator has no ordering or prefix operators, no timestamp type, no list length limit and no path
whitelist; operand types are compared by the validator only and never at run time; an endpoint of another
scope gives scope_mismatch, not invalid_input; a missing operand makes a comparison false, so its negation
is true.

## Model

| member | source | states |
|---|---|---|
| Validate.Check | internal/policy/validate/validate.go:21-84 | with a counter shared by reference, accepts exactly when every node has one operator, every leaf is well formed, and depth and total nodes stay within 8 and 64; the counter grows by exactly the tree size on success and never past 65 |
| Validate.CheckEach | internal/policy/validate/validate.go:42-57 | the loop over children accepts exactly when each child is well formed and together they fit the remaining depth and nodes |
| Validate.CheckCondition | internal/policy/validate/validate.go:14-20 | accepts exactly nothing at all, or a well-formed tree of depth at most 8 with at most 64 nodes; on any input at most 65 node visits, on success as many as nodes |
| ConditionJson.MixedRoundTrip | internal/policy/model/policy.go:144-171 | whichever leaves, at any nesting, are written in the compact form, decoding gives the same tree |
| ConditionJson.RoundTrip | internal/policy/model/policy.go:144-171 | decoding the standard encoding gives the condition back, and so does every mix with compact leaves |
| ConditionJson.StoreLoad | internal/data/db/repo/policy_repo.go:32-40 | a validated condition, or none, reads back from its column unchanged |
| Compile.UniqueStrings | internal/policy/compile/compile.go:27-42 | the seen-set loop keeps the trimmed, non-blank values in order of first occurrence |
| Compile.CompileSnapshot | internal/policy/compile/compile.go:14-26 | the snapshot is the compiled one; the caller's endpoint slice is sorted in place on success and untouched on failure |
| Compile.CompilesExactly | internal/policy/compile/compile.go:14-26 | compilation fails exactly for an invalid condition or a type other than api and data; id, version, type, effect, priority and condition are kept, the scope trimmed |
| Compile.CompiledAscends | internal/policy/compile/compile.go:23-24 | roles ascend strictly in dictionary order, endpoints by number |
| Compile.CompiledShape | internal/policy/compile/compile.go:14-42 | roles come out strictly sorted, trimmed, non-blank and the same set as the trimmed input; endpoints are a sorted permutation |
| Compile.CompileCanonical | internal/policy/compile/compile.go:13-26 | inputs equal up to role order, role duplicates, whitespace and endpoint order compile to the same snapshot |
| Compile.CompileIdempotent | internal/policy/compile/compile.go:13-26 | compiling twice is compiling once |
| CompileMeaning.CompilingIsInvisible | internal/policy/compile/compile.go:18-23 | a policy applies to the same inputs before and after compiling if and only if its scope and roles are free of stray whitespace |
| CompileMeaning.CompiledFiresAlike | internal/policy/eval/eval.go:51-72 | a whitespace-free snapshot applies, fires and stops the loop on the same inputs as its compiled form |
| CompileMeaning.CompiledEvaluation | internal/policy/eval/eval.go:45-79 | for whitespace-free snapshots the whole result, ids and version included, is unchanged by compiling |
| Eval.HasRole | internal/policy/eval/eval.go:88-97 | true exactly when policy and subject share a role |
| Eval.HasEndpoint | internal/policy/eval/eval.go:80-87 | true exactly when the id is listed |
| Eval.PassesFilter | internal/policy/eval/eval.go:52-54 | true exactly when type, scope, endpoint and a shared role all agree |
| Eval.Evaluate | internal/policy/eval/eval.go:14-79 | the loop with its early returns computes the declarative outcome: where it stops, what fired before, errors and a nil dereference included |
| Eval.RefusesExactly | internal/policy/eval/eval.go:14-48 | the engine refuses, with a bare invalid_input, exactly an input of another type or with a blank scope, tenant or subject, another target kind, a nil endpoint or another action kind |
| Eval.WellFormedEvaluates | internal/policy/eval/eval.go:98-182 | every well-formed condition evaluates on every input without error or nil dereference to its meaning: all is for-every, any is for-some, not is negation, a missing operand makes a comparison false |
| Eval.ValidEvaluates | internal/policy/eval/eval.go:98-101 | the same for whatever the validator accepts, no condition included |
| Eval.LeafEvaluates | internal/policy/eval/eval.go:129-182 | a well-formed comparison evaluates to what its references denote, source by source, related by its operator |
| Eval.ReferencesSee | internal/policy/eval/eval.go:161-182 | a comparison with a literal sees subject id, subject, resource and context attributes, tenant and method, each from its own root, and is false where the root lacks the path |
| Eval.ExistsSees | internal/policy/eval/eval.go:134-136 | exists asks whether the path is in its own root |
| Eval.ContainsIsWithin | internal/policy/eval/eval.go:183-198 | contains means being an item of a list or text within a string, and nothing else |
| Eval.RootsAreIndependent | internal/policy/eval/eval.go:161-182 | changing one root leaves every condition that reads only the others unchanged |
| Eval.DenyOverrides | internal/policy/eval/eval.go:45-79 | on valid input and validated snapshots it allows exactly when an allow votes and no deny votes; matched ids are the voting snapshots in order up to and including the first deny, the version is the maximum over them |
| Eval.MaxVersionIsMax | internal/policy/eval/eval.go:63-65 | the reported version is attained and is an upper bound |
| Eval.SameVotesSameAnswer | internal/policy/eval/eval.go:51-78 | decision and reason depend only on which effects vote |
| Eval.OrderAndPriorityIrrelevant | internal/policy/eval/eval.go:51-78 | every permutation of the snapshots and every reassignment of priorities gives the same decision and reason |
| Eval.AddingDenyNeverAllows | internal/policy/eval/eval.go:66-71 | a deny snapshot added anywhere never turns a deny into an allow |
| Eval.ConditionLocality | internal/policy/eval/eval.go:98-182 | inputs that agree on the mentioned paths match alike |
| Eval.Locality | internal/policy/eval/eval.go:45-79 | inputs that agree on scope, type, roles, endpoint and the mentioned paths get the same result |
| Eval.AttributesOnlyAdd | internal/policy/eval/eval.go:98-128 | without negation, adding attributes never removes a match |
| Eval.ExplicitDenyPersists | internal/policy/eval/eval.go:66-71 | an explicit deny stays an explicit deny when attributes are added |
| PolicyRepo.AuthorizationPolicyRepository.Save | internal/data/db/repo/policy_repo.go:32-80 | writes the row and exactly the given bindings, keeping the stored scope on update, or fails with the first error of row, role loop and endpoint loop and changes nothing |
| PolicyRepo.AuthorizationPolicyRepository.WriteRow | internal/data/db/repo/policy_repo.go:43-55 | the INSERT or UPDATE refuses a missing row, a failed check, a taken id or code in that order, and writes every column, an UPDATE all but the scope |
| PolicyRepo.AuthorizationPolicyRepository.BindRoles | internal/data/db/repo/policy_repo.go:64-68 | the insert loop binds exactly the given roles, or stops at the first trigger or key failure |
| PolicyRepo.AuthorizationPolicyRepository.BindTargets | internal/data/db/repo/policy_repo.go:69-73 | the same for endpoints |
| PolicyRepo.AuthorizationPolicyRepository.Get | internal/data/db/repo/policy_repo.go:81-135 | not found exactly without a live row; otherwise every field is the row's, the condition decoded, roles and endpoints those bound, each once, in key order |
| PolicyRepo.AuthorizationPolicyRepository.SoftDelete | internal/data/db/repo/policy_repo.go:136-146 | marks a live row deleted and archived, or reports not found and changes nothing |
| PolicyRepo.AuthorizationPolicyRepository.SaveVersion | internal/data/db/repo/policy_repo.go:147-154 | adds the version row, or fails on the primary key, foreign key or check and changes nothing |
| PolicyMachine.StoredVersionReads | internal/data/db/repo/policy_repo.go:155-166 | over tables in order GetVersion fails only when the version was never stored; what it returns has the asked key, the scope of its policy, a valid condition and content in canonical form |
| PolicyMachine.SavedVersionReads | internal/data/db/repo/policy_repo.go:147-166 | a snapshot once stored by SaveVersion is what GetVersion returns after any run, and every other version reads as it did |
| PolicyRepo.AuthorizationPolicyRepository.ListPublishedByEndpoint | internal/data/db/repo/policy_repo.go:167-186 | the joined rows by falling priority and id, each snapshot decoded, or the first decoding failure |
| PolicyRepo.BoundRolesAreLive | migrations/001_init.sql:384-414 | the role inserts go through exactly for distinct live roles of the policy's scope |
| PolicyRepo.TargetsAreLive | migrations/001_init.sql:384-418 | the endpoint inserts go through exactly for distinct live endpoints of the policy's scope |
| PolicyMachine.AdvanceGrows | internal/biz/policy.go:95-191 | no statement removes a policy row, changes a row's scope, changes a version row or revives a deleted policy |
| PolicyMachine.AdvanceKeeps | internal/biz/policy.go:95-191 | every statement of every call keeps the tables' invariant and leaves the call with a value backed by what is stored |
| PolicyMachine.NextKeeps | internal/biz/policy.go:95-191 | every event, the other calls and services included, keeps the invariant of the whole world |
| PolicyMachine.EveryRunIsSafe | internal/biz/policy.go:120-191 | in every interleaving, torn reads included, a live published row has a version row at its current version with the same scope, effect, type, priority, condition, role set and endpoint set; version rows never change and deleted policies never return |
| PolicyService.AdvanceDescends | internal/biz/policy.go:95-191 | every statement brings a call nearer its end, so every call that keeps proceeding ends |
| PolicyService.CompleteIsAlone | internal/biz/policy.go:95-191 | the sequential meaning of a call is where the interleaving machine ends when only that call proceeds |
| PolicyService.AuthorizationPolicyService.NormalizeAndValidate | internal/biz/policy.go:236-281 | the loops over roles and endpoints fail at the same statement, with the same error, as the machine, and otherwise hand on the compiled lists |
| PolicyService.AuthorizationPolicyService.Normalize | internal/biz/policy.go:236-254 | the assignments to the argument before its roles are read, and the errors before them |
| PolicyService.AuthorizationPolicyService.Create | internal/biz/policy.go:95-106 | tables and result are those of the machine run to its end |
| PolicyService.AuthorizationPolicyService.Update | internal/biz/policy.go:120-141 | tables and result are those of the machine run to its end |
| PolicyService.AuthorizationPolicyService.Publish | internal/biz/policy.go:145-167 | tables and result are those of the machine run to its end, the stored version included when the last write fails |
| PolicyService.AuthorizationPolicyService.Rollback | internal/biz/policy.go:168-191 | tables and result are those of the machine run to its end |
| PolicyService.AuthorizationPolicyService.Delete | internal/biz/policy.go:142-144 | tables and result are those of the machine run to its end |
| PolicyService.AuthorizationPolicyService.Decide | internal/biz/policy.go:194-231 | the answer of the decision function on the state it reads, roles taken from the tables and never from the request |
| PolicyService.CallEffect | internal/biz/policy.go:95-191 | a failed call leaves every policy in force as it was; create and update never change what is in force; publish puts exactly the compiled content of what it loaded in force at the next version, rollback exactly the stored version, delete removes its own; no other policy in force is touched |
| PolicyMeaning.CreateExactly | internal/biz/policy.go:95-106 | succeeds exactly for well-formed arguments, a valid condition, roles and endpoints as required and a free id and code; then the row is a draft at version 0 with the trimmed names and the given effect, type, priority, condition, roles and endpoints; otherwise nothing changes |
| PolicyMeaning.UpdateExactly | internal/biz/policy.go:120-141 | the same for a live, readable, unpublished row, which keeps its scope, status and version |
| PolicyMeaning.PublishSucceedsExactly | internal/biz/policy.go:145-167 | succeeds exactly for a live draft or disabled row with a readable valid condition, a free next version, a free code, and roles and endpoints still live in the scope |
| PolicyMeaning.PublishWritesExactly | internal/biz/policy.go:145-167 | the snapshot in force then has the effect, type, priority, condition, roles and endpoints of the row and bindings, at the next version; the row changes in status and version only, nothing else changes |
| PolicyMeaning.RollbackExactly | internal/biz/policy.go:168-191 | succeeds exactly when the version is stored and can be written again; the row then has that version's content and its own names and scope; otherwise nothing changes |
| PolicyMeaning.DeleteExactly | internal/biz/policy.go:142-144 | succeeds exactly for a live row, which is marked deleted and archived and otherwise unchanged, as is all else |
| PolicyMeaning.SavesExactly | internal/data/db/repo/policy_repo.go:32-80 | a write goes through exactly for a new id or live row, passing checks, a free code, and distinct live roles and endpoints of the scope |
| Text.ByteLengthAppends | internal/biz/permission.go:425-443 | lengths limited in bytes count one to four bytes a character, as UTF-8 does |
| PolicyMeaning.EveryRunKeepsCodes | migrations/001_init.sql:201-202 | in every interleaving no two live policies of a scope share a code |
| DecisionPoint.IndexAgreement | internal/data/db/repo/policy_repo.go:167-186 | the listing never fails and returns exactly the snapshots in force of that scope whose own endpoint list contains the endpoint, each once, by falling priority, all with valid conditions |
| DecisionPoint.DecideIsDenyOverrides | internal/biz/policy.go:194-231 | for a live enabled endpoint in an active scope and valid input, the answer is the deny-overrides verdict of all snapshots in force, unfiltered and in any order |
| DecisionPoint.DecideNeverFailsEvaluation | internal/biz/policy.go:220-230 | over any store satisfying the invariant the evaluator never crashes, and errs only on invalid input |
| DecisionPoint.EveryReachableDecision | internal/biz/policy.go:95-231 | both of these in every state that any interleaving reaches |
| DecisionPoint.InterleavedDecide | internal/biz/policy.go:194-231 | with its four reads anywhere in a run, in their order, Decide never crashes, errs only on invalid input, and gives the deny-overrides verdict of what is in force when the policies are listed for the roles held when the roles are read; an allow needs the scope active and the endpoint live, enabled and of the scope when they were read |
| DecisionPoint.DecideOnOneState | internal/biz/policy.go:194-231 | with all four reads on one state, the interleaved answer is Decide's |
| DecisionMeaning.DecideExactly | internal/biz/policy.go:194-231 | with its reads on any four states: allow exactly when type, scope, endpoint, names and input are in order, some published snapshot of the scope naming the endpoint and a held role has a true condition, and none such denies; explicit deny, default deny, scope_mismatch and endpoint_disabled each exactly when |
| DecisionMeaning.RolesComeFromTables | internal/biz/policy.go:214-219 | the engine's roles are exactly the live, enabled roles of the scope with a live assignment to the subject |
| DecisionMeaning.OwnRolesDoNotCount | internal/biz/policy.go:214-219 | requests that differ only in the roles they bring get the same answer |
| DecisionMeaning.AllowedNeedsHeldRole | internal/biz/policy.go:214-219 | an allowed decision rests on a published snapshot that names a role the subject holds |
| DecisionPoint.DecideDependsOnView | internal/biz/policy.go:194-231 | two stores with the same snapshots in force, endpoints, roles, assignments and catalog answer every request alike, whatever their drafts and versions |
| DecisionPoint.UnfinishedCallsInvisible | internal/biz/policy.go:145-167 | no event of any call before its final write, and no step of any other service, changes what is in force or any listing |
| DecisionPoint.QuietRunInvisible | internal/biz/policy.go:95-191 | a whole run with no successful row write and no deletion, whatever is in flight, changes no listing |
| DecisionPoint.FailedPublishInvisible | internal/biz/policy.go:145-167 | in any interleaving, each statement of a publish that does not succeed, storing the version before the row update included, leaves what is in force and every listing as it found it |
| DecisionPoint.VersionFixesSnapshot | internal/biz/policy.go:168-191 | a version number of a policy stands for the same snapshot for ever |
| DecisionPoint.RollbackRestores | internal/biz/policy.go:168-191 | after a successful rollback to v, other state being equal, every decision is the one given when v was current, whatever happened in between |
| Noninterference.ScopesDoNotInterfere | internal/biz/policy.go:194-231 | no run confined to other scopes, with menu and grant steps anywhere, changes a decision about an endpoint of this scope |
| Noninterference.ForeignEndpointNeverAllowed | internal/biz/policy.go:208-210 | a request naming an endpoint outside its scope is never allowed |
| Noninterference.NoninterferenceExactly | internal/biz/policy.go:204-210 | the decision survives every confined run if and only if the endpoint id has a row of the scope or a deleted one |
| Noninterference.UnknownEndpointShows | internal/biz/policy.go:204-210 | for an id without a row there is always a confined run that changes the answer |
| Rbac.StepKeeps | migrations/001_init.sql:307-381 | every role, menu, grant, assignment, endpoint and catalog transaction keeps live grants joining live roles and menus of one scope, live assignments joining live roles, and live menus closed under parents and acyclic |
| Rbac.RunKeeps | internal/biz/permission.go:137-405 | the same over every run of serial transactions |
| RbacMeaning.StepsAreCalls | internal/biz/permission.go:137-405 | each step of a run is the service call of its name, and a failed call leaves the tables as they were |
| RbacMeaning.RunKeepsCodes | migrations/001_init.sql:48-100 | over every run no two live roles, and no two live menus, of a scope share a code |
| RbacMeaning.CreateRoleExactly | internal/biz/permission.go:137-151 | when it succeeds, and the row it leaves, field by field |
| RbacMeaning.UpdateRoleExactly | internal/biz/permission.go:162-191 | when it succeeds, and that only code, name, description and enabled change |
| RbacMeaning.DeleteRoleExactly | internal/biz/permission.go:194-200 | when it succeeds, and that the role, all its grants and all its assignments are marked deleted |
| RbacMeaning.CreateMenuExactly | internal/biz/permission.go:203-235 | when it succeeds (names, metadata by type, an enabled menu as parent, a free code), and the row it leaves |
| RbacMeaning.UpdateMenuExactly | internal/biz/permission.go:238-272 | when it succeeds, and that scope, parent and type stay |
| RbacMeaning.DeleteMenuExactly | internal/biz/permission.go:275-299 | succeeds exactly while no live row names the menu as parent; its grants go with it |
| RbacMeaning.CreateEndpointExactly | internal/biz/api_endpoint.go:58-78 | when it succeeds, and the normalised row it leaves |
| RbacMeaning.UpdateEndpointExactly | internal/biz/api_endpoint.go:107-146 | when it succeeds, and that the scope stays |
| RbacMeaning.DeleteEndpointExactly | internal/biz/api_endpoint.go:149-157 | when it succeeds, and that the row is marked deleted and disabled |
| RbacRepo.PermissionService.CreateRole | internal/biz/permission.go:137-151 | the guards in their order make the tables of the create transaction, or its first error and no change |
| RbacRepo.PermissionService.UpdateRole | internal/biz/permission.go:162-191 | the same for the update |
| MenuForest.MenuService.ValidateMenu | internal/biz/permission.go:446-473 | the field-by-field rewriting yields the normalised menu or the refusal |
| MenuForest.MenuService.CreateMenu | internal/biz/permission.go:203-235 | the guards in their order, the parent trigger among them, make the tables of the create transaction, or its first error and no change |
| MenuForest.MenuService.UpdateMenu | internal/biz/permission.go:238-272 | the same for the update |
| RbacRepo.UserRoleRepository.ListRoleIDs | internal/data/db/repo/user_role_repo.go:26-58 | the subject's live, enabled roles of the scope by name and id |
| RbacRepo.UserRoleRepository.NormalizeRoleIDs | internal/data/db/repo/user_role_repo.go:156-174 | the trimmed ids in order, refusing a blank, overlong or repeated one |
| RbacRepo.UserRoleRepository.Replace | internal/data/db/repo/user_role_repo.go:66-136 | every role is checked before anything is written; then the soft delete and the upsert loop make the new assignment table, or nothing changes |
| RbacRepo.AcceptedRoleIDs | internal/data/db/repo/user_role_repo.go:156-174 | accepted ids are the trimmed inputs, each once, and normalising them again changes nothing |
| RbacRepo.ReplaceExact | internal/data/db/repo/user_role_repo.go:66-136 | a replacement succeeds exactly for well-formed arguments and live enabled roles of the scope; then the subject's roles in the scope are exactly those requested while every other subject and scope is untouched; a failed one changes nothing |
| RbacMeaning.ReplaceMeaning | internal/data/db/repo/user_role_repo.go:66-136 | on the rows: succeeds exactly for distinct named roles that are live, enabled and of the scope; the subject then holds exactly those there, and nobody holds anything else than before elsewhere |
| RbacMeaning.RolesListedByName | internal/data/db/repo/user_role_repo.go:26-58 | the listing goes by role name, then by id |
| RbacRepo.DeletedRoleNeverHeld | internal/data/db/repo/role_repo.go:159-200 | a deleted role stays deleted and is held by nobody, whatever is done afterwards |
| RbacRepo.PermissionService.GrantRoleMenus | internal/biz/permission.go:332-365 | the seen-set loop and the rewrite make the new grant table, or fail with the first error and change nothing |
| RbacRepo.RoleRepository.ReplaceMenus | internal/data/db/repo/role_repo.go:203-253 | refused for a blank role, a nil menu, a missing, deleted or disabled role, or a menu the trigger rejects, with nothing changed; otherwise the role is granted exactly the given menus, every other role what it had |
| RbacRepo.TriggerKeepsGrants | migrations/001_init.sql:354-381 | whatever its caller checked, an accepted replacement keeps live grants joining live roles and menus of one scope |
| RbacRepo.PermissionService.ReplaceUserRoles | internal/biz/permission.go:381-406 | the tables become what the repository's replacement makes of the original ids; the caller's slice is untouched when subject or scope is refused, and otherwise trimmed up to the first refused id, also when the call fails |
| RbacRepo.GrantExact | internal/biz/permission.go:332-365 | a grant goes through exactly for distinct live enabled menus in the scope of a live enabled role; then the role has exactly those menus and no other role's grants change |
| RbacRepo.RoleRepository.SoftDelete | internal/data/db/repo/role_repo.go:159-200 | the role, its grants and its assignments are marked deleted together, or nothing is |
| MenuForest.MenuRepository.ListByServiceResource | internal/data/db/repo/menu_repo.go:90-113 | each live menu of the scope once, by sort order, name and id |
| RbacMeaning.MenusListedRising | internal/data/db/repo/menu_repo.go:90-113 | the list rises by sort order, then name, then id |
| MenuForest.MenuRepository.SoftDelete | internal/data/db/repo/menu_repo.go:154-200 | refused while a live child remains anywhere; otherwise the menu and its grants are marked deleted |
| MenuForest.MenuService.DeleteMenu | internal/biz/permission.go:275-299 | the service's own search for children never refuses more than the repository does |
| MenuForest.MenuService.Link | internal/biz/permission.go:315-328 | appending children in place builds, for every menu, exactly its children in list order, and conflicts exactly when a parent is not listed |
| MenuForest.MenuService.MenuTree | internal/biz/permission.go:302-329 | in every state the transactions reach it never conflicts, and the forest of objects holds each live menu exactly once, under its own parent, siblings in list order, buttons only as leaves |
| MenuForest.OnePathOnly | internal/biz/permission.go:315-328 | no menu is reached along two paths |
| MenuForest.ReachedExactlyWhenRanked | internal/biz/permission.go:302-329 | for a list closed under parents, the forest holds every menu if and only if the parent relation has no cycle |
| MenuForest.NoCycleOverRuns | migrations/001_init.sql:307-351 | in every state a run reaches, no live menu is its own ancestor |
| SessionFlow.SessionStore.Load | internal/auth/session.go:76-103 | no cookie is an empty session, an unsealable one an error, and a flow over ten minutes old is cleared |
| SessionFlow.LoadMeaning | internal/auth/session.go:76-103 | the three cases with the ten minutes written out |
| SessionFlow.SessionStore.Save | internal/auth/session.go:105-132 | appends one cookie with the session, or none when it does not fit |
| SessionFlow.SessionStore.Clear | internal/auth/session.go:134-147 | appends one expired cookie |
| SessionFlow.Service.Login | internal/auth/auth.go:285-315 | issues one cookie with the new flow and no user, whatever was there before, and the URL with its state, nonce and challenge; or nothing |
| SessionFlow.Service.Callback | internal/auth/auth.go:319-385 | error, cookies and exchanges are those of the flow rules: refused before anything is sent, or the consumed flow is issued first and the user only at the end |
| SessionFlow.Service.Me | internal/auth/auth.go:387-410 | the user of the request context if there is one, else exactly the user of the session while now is before its expiry |
| SessionFlow.Service.Logout | internal/auth/auth.go:425-455 | expires the cookie whatever it held; the end-session URL keeps its query and carries client, redirect and the session's id token, or there is none, or it is an error |
| SessionFlow.LoginFillsJar | internal/auth/auth.go:285-315 | a login handled and answered puts exactly its flow and no user in the jar; refused, it leaves the jar alone |
| SessionFlow.CallbackFillsJar | internal/auth/auth.go:319-385 | a callback handled and answered leaves its user in the jar without an error, an empty session after a spent flow, and the jar as it was when refused |
| SessionFlow.LogoutEmptiesJar | internal/auth/auth.go:425-436 | a logout handled and answered empties the jar, whatever it held |
| SessionFlow.EveryRunKeepsFlow | internal/auth/auth.go:285-385 | in every run, however requests and responses overlap, every issued session has its four flow fields all set or all clear and never a pending flow with a user; a pending flow in the jar is the latest that reached it |
| SessionFlow.UserOnlyFromMatchingCallback | internal/auth/auth.go:319-385 | a user appears only when the response of a callback arrives that matched, in state and nonce, the latest flow at its sending, and was checked within ten minutes of the login |
| SessionFlow.SignsInExactly | internal/auth/auth.go:319-385 | the exact conditions under which a callback signs in, its age of at most 600 seconds written out, and the user it stores |
| SessionFlow.SignsInWithinTenMinutes | internal/auth/auth.go:319-385 | handled within 599 seconds of its login, a callback that matches signs in |
| SessionFlow.RefusedAfterTenMinutes | internal/auth/auth.go:337-339 | handled more than 600 seconds after its flow's second, it is refused and nothing reaches the provider |
| SessionFlow.ExchangedAgainExactly | internal/auth/auth.go:330-352 | in every run, a callback reaches the exchange with a verifier spent before if and only if it was sent before the response of an earlier spending request had reached the jar, late or lost; sent after a consuming response arrived it never does |
| SessionFlow.EachFlowExchangedOnce | internal/auth/auth.go:345-352 | where no callback is sent while an earlier one carrying the same flow has its response outstanding, no flow reaches the exchange twice |
| SessionFlow.RepeatedCallback | internal/auth/auth.go:330-352 | from any state, a callback URL requested twice in time is exchanged twice if and only if the second request left before the first response arrived, although late responses do arrive |
| SessionFlow.LostResponseExchangesAgain | internal/auth/auth.go:345-352 | concrete runs, one with a lost and one with a late response, that exchange the same verifier twice |
| SessionFlow.SignedOutUntilCallback | internal/auth/auth.go:425-436 | once a logout's or a login's response has arrived, nobody is signed in until a callback's response arrives |
| Authority.PrefixMeansSegments | internal/auth/auth.go:644-656 | a prefix matches whole path segments: shared leading characters alone never match |
| Authority.RewritesExactly | internal/auth/auth.go:618-638 | rewritten exactly when the authority matches and the path lies under the prefix segment by segment, so decoding the joined path never fails; query and fragment stay |
| Authority.RoundTrip | internal/auth/auth.go:618-676 | for every parsed URL and every pair of authorities with a host, rewriting there and back restores the path exactly, escaped and decoded, for empty, trailing-slash and nested prefixes, scheme and host up to case, query and fragment |
| Authority.RoundTripOfValues | internal/auth/auth.go:618-676 | the same for arbitrary URL values, where the path comes back if and only if the prefix is not empty or the path is empty or absolute |
| Authority.EscapedPathEncodes | internal/auth/auth.go:622-626 | an escaped path is always a valid encoding of the path |
| Authority.RewriteMoves | internal/auth/auth.go:618-676 | a path p + rest under prefix p, written with any number of trailing slashes, becomes q + rest under q, with the new authority |
| Authority.TrimSlashesMeaning | internal/auth/auth.go:645 | exactly the trailing slashes of a prefix are removed |
| Authority.FoldMeaning | internal/auth/auth.go:640-642 | scheme and host are compared up to the case of ASCII letters and nothing else |
| Authority.RawPathKept | internal/auth/auth.go:622-635 | a raw path of allowed characters that encodes the path is the escaped path as it is written |
| Authority.RawPathIgnored | internal/auth/auth.go:622-635 | a raw path with any other character, or that does not encode the path, is ignored |
| Authority.EscapeMeaning | internal/auth/auth.go:622-635 | which bytes a path keeps, and the two capital hexadecimal digits of the others |
| Authority.HexMeaning | internal/auth/auth.go:627 | small and capital hexadecimal digits decode alike, and nothing else does |
| SwaggerImport.APIEndpointService.CreateAPIEndpoint | internal/biz/api_endpoint.go:58-78 | adds the normalised row or fails with the first error and changes nothing |
| SwaggerImport.APIEndpointService.NormalizeAPIEndpoint | internal/biz/api_endpoint.go:183-198 | the field-by-field rewriting yields the normalised endpoint or the refusal |
| SwaggerImport.APIEndpointService.UpdateAPIEndpoint | internal/biz/api_endpoint.go:107-146 | the guards in their order make the tables of the update, or its first error and no change |
| SwaggerImport.APIEndpointService.DeleteAPIEndpoint | internal/biz/api_endpoint.go:149-157 | the row is marked deleted and disabled, or the call is refused and nothing changes |
| SwaggerParse.Parse | internal/biz/swagger.go:89-138 | the nested loops and the sort yield, in order, exactly the document's operations, each acceptable as an endpoint; refused for an unsupported version, an unacceptable operation or none at all |
| SwaggerParse.ParsedOperations | internal/biz/swagger.go:109-127 | every method of every route gives one operation with its own method, path, controller and summary, and there are no others |
| SwaggerParse.ParsedRising | internal/biz/swagger.go:132-137 | operations go by path, then method, in dictionary order |
| SwaggerParse.JoinedMeaning | internal/biz/swagger.go:314-316 | the base path without its outer slashes and the trimmed route are joined under the root and cleaned |
| SwaggerParse.BasePathMeaning | internal/biz/swagger.go:99-107 | the base path is the document's, else the path of its first server, and a lone slash is none |
| SwaggerParse.SupportedMeaning | internal/biz/swagger.go:96-98 | Swagger 2.0, or any OpenAPI version that starts with 3 and a dot |
| SwaggerParse.ControllerMeaning | internal/biz/swagger.go:281-312 | the first tag names the controller, else the operation id's first field, else the title, unchanged if plain |
| SwaggerParse.SanitizingSteps | internal/biz/swagger.go:301-312 | capitals become small letters, and each run of characters outside letters, digits, dot, underscore and dash becomes one dash |
| SwaggerParse.SummaryMeaning | internal/biz/swagger.go:119-122 | the summary, or else the operation id, trimmed |
| SwaggerParse.ControllerIsValid | internal/biz/swagger.go:281-312 | whatever the document says, the controller derived from tag, operation id or title is one an endpoint accepts unchanged |
| SwaggerParse.ParsesAlike | internal/biz/swagger.go:108-138 | the order in which the document's maps are walked does not change which operations are found |
| SwaggerImport.APIEndpointService.ImportSwagger | internal/biz/api_endpoint.go:210-267 | refused for its scope or its document with nothing changed; else the tables and counts are those of the import of some parse of the document, a failure part-way included |
| SwaggerImport.RoutesKept | migrations/001_init.sql:162-163 | every transaction keeps live routes normalised and unique |
| SwaggerImport.ImportAmongOthers | internal/biz/api_endpoint.go:240-266 | interleaved with anything that neither deletes nor edits endpoints, other imports included, no live route is lost, every handled operation has its route live, and created + skipped is the number handled |
| SwaggerImport.ImportExact | internal/biz/api_endpoint.go:210-267 | on its own, the live routes are the old ones and the handled ones, created counts the new routes, and no existing row or other scope changes |
| SwaggerImport.ReimportCreatesNothing | internal/biz/api_endpoint.go:240-266 | importing a document whose routes are live creates nothing, fails nowhere and changes nothing |
| SwaggerImport.ListedNeedNoInsert | internal/biz/api_endpoint.go:230-243 | operations whose routes were listed are skipped without an insert, whatever the inserts would do |
| SwaggerImport.ImportedRows | internal/biz/api_endpoint.go:246-253 | every row an import adds is the enabled row of one of its operations |
| SwaggerImport.PartialThenComplete | internal/biz/api_endpoint.go:240-266 | after a failure part-way, a second import that ends reaches the routes one complete import would have |
| SwaggerImport.ParsedIsImportable | internal/biz/swagger.go:140-143 | every operation the parser hands on can be created in an active scope |
| SwaggerImport.ImportTwice | internal/biz/api_endpoint.go:210-267 | after an import that went through, importing the document again, in whatever order it is walked, creates nothing, skips every operation and changes nothing |

## Left out

- Listings for administrators, and reading single roles, menus and endpoints: plain queries.
- The HTTP layer, the SDK clients, the dashboard, configuration, logging, decision logs, audit fields, timestamps and checksums: none of them takes part in a decision.
- PostgreSQL: each repository transaction is one step on the tables, with the primary keys, foreign keys, unique indexes, checks and triggers of migrations/001_init.sql as guards; a lost connection is an abandoned call. Column lengths (except those the service checks) and 32-bit integer columns are not modelled.
- Menu, grant, assignment and endpoint calls are serial, one transaction each; only policy calls and imports are interleaved.
- DecisionPoint.DecideIsDenyOverrides: reads one state of the tables; `DecisionPoint.InterleavedDecide` is the statement for reads that interleave.
- PolicyService.AuthorizationPolicyService.Publish: that a publish eventually succeeds is not claimed; after a rollback the next version number may already be taken.
- SessionFlow.EachFlowExchangedOnce: needs callbacks that carry one flow not to overlap; `SessionFlow.ExchangedAgainExactly` says what happens otherwise.
- SessionFlow.Service.Callback: the server handles one request at one point of the run; requests share nothing but the provider, so handling that overlaps is handling in the order of the exchanges.
- SwaggerImport.ImportExact: generated ids are assumed new.
- SwaggerParse.Parse: starts from the decoded document; fetching it, JSON and YAML decoding, and path.Clean (a given function) are not modelled.
- ORDER BY on names and ids uses code-point order; the database's collation may order them differently. Policies, compiled lists and decisions do not depend on it; the order of ListRoleIDs, role bindings as read, and menu siblings does.
- ConditionJson.RoundTrip: JSON text, number precision and case-insensitive field names are not modelled; a JSON value is a tree. The other snapshot fields are stored as values.
- UUIDs are numbers, so their text order is their numeric order; the nil UUID is zero.
- Upper and lower case follow Unicode only as far as HTTP method names and ASCII authorities need.
- Operands are compared as JSON values; deep equality of other Go values is not modelled.
- Sealing, base64, token generation, JWT checks and the provider are an opaque sealed value, fresh strings and a given answer; bearer tokens (but for the user they put in the context) and the middleware are not modelled.
- The navigation seeded for a new service resource is not modelled; its rows pass the same trigger as any other menu row.
- The service resource catalog: only whether a scope exists and is active is kept; any scope may be added, disabled or deleted at any time, without the guards of the catalog's own service.

# Kiban in Dafny

Kiban is a platform of Go services: a relation-based authorization service, an organization directory, an identity
service, a module registry and validator, and a gateway in front of them. This project models the parts of it where a
wrong branch would be hard to see, and proves what they are for.

| files | what they model |
|---|---|
| `Options`, `AuthzTuple`, `AuthzEngine`, `AuthzEvaluator` | relation checks: what a check means, and the evaluator with its memo, cycle cut and depth fence |
| `Org`, `OrgTree`, `OrgPlacement`, `OrgAssignments`, `OrgTuples`, `OrgGroups`, `OrgRuns`, `OrgQueries`, `OrgBackfill`, `OrgStore`, `OrgEffects`, `OrgExamples` | the organization store: its operations as transactions over rows and tuples, what every run of them keeps, and the object whose methods perform them |
| `Fragments`, `Grants`, `GrantsLaws`, `GrantsRoute`, `GrantsConditions` | module fragments, the tuple table, the grants route in front of it, and when the route's binding law holds |
| `PlatformRole` | interleaved transactions on the superadmin tuples |
| `CatalogCache` | the gateway's shared refresh of the module catalog |
| `DependencyCycle` | cycle detection among module dependencies |
| `SqlTokens`, `SqlSpelling`, `SqlStatements`, `SqlRules`, `SqlScan`, `SqlFence`, `SqlGrants`, `SqlMeaning`, `SqlExamples` | the scan of module migrations, from bytes to the schema fence |
| `LikeEscape` | the literal substring search of the member directory |
| `AuthCookie`, `AuthMount`, `AuthExamples` | the login server mounted under `/auth` |
| `MfaPolicy` | multi-factor policies and their sync |

Code that changes state is a class or a method with loops, proved against a specification function; the laws are then
proved about that function. Concurrent code (`PlatformRole`, `CatalogCache`, the batch memo) is a state machine over
the steps between which others may run.

## How to read the model

- An organization operation is one committed transaction: it yields the next state or refuses and changes nothing.
  Codes, names, audit rows and ids drawn by the database are not modelled; a new id is a parameter, and a taken one is
  refused. Dates come from a clock that never runs backwards. Writes of other services to tuples the organization
  service does not own may happen at any step.
- A relation check is given the model, the tuples, the subject and the company. Its meaning is the least relation
  closed under the model's definitions.
- Text of the SQL scan, the cookies and the pattern search is a sequence of bytes, one `char` each.
- Database constraints appear as refusals where the store relies on them: the cycle trigger on org units, foreign
  keys, the company triggers, the one-anchor index on tuples. A refusal by a trigger carries no field.

## Where the code does less than its comments say

Each failure has its exact condition, proved for all inputs, and a real input at which it shows.

- The subtree query behind the move check stops after 32 levels. The check alone keeps the tree acyclic exactly when
  the candidate parent is not deeper than that below the moved unit (`OrgTree.StoreCheckAlone`,
  `OrgTree.StoreCheckAloneFails`). The database trigger walks the whole chain, and with it every run keeps the tree.
- A handover to the present holder changes nothing, also when the holder's window ends later: the new holder then does
  not hold every later date (`OrgAssignments.HandoverHolds`; the run `OrgExamples.HandoverToTheHolder`).
- Linking a member to another user keeps the earlier user's tuple (`OrgTuples.LinkUserKeeps`; the run
  `OrgExamples.LinkedTwice`).
- Create-and-assign with an end after today writes a holder tuple for a window that is not open
  (`OrgTuples.CreateAndAssignHolders`), and writes no company anchor (`OrgGroups.CreateAndAssignUnanchored`; the run
  `OrgExamples.AppointUntilTomorrow` shows both).
- An override is checked against the global policy only when it is written; `EffectivePolicy`'s comment promises more
  (`MfaPolicy.StepKeepsRank`, `MfaPolicy.RaisedLater`).
- The registry stores a fragment whose computed targets are defined nowhere, and every load then refuses once the module
  is enabled. A well-kept table loads exactly when the targets in effect resolve (`Fragments.Load`,
  `Fragments.UndefinedTargetStored`); runs of validated fragments always load (`Fragments.ValidatedRunsLoad`).
- The grants route keeps objects bound to one company under two conditions. The anchor check of the route is a relation
  check, and a `company_module` row with a userset subject makes it follow another object's anchors
  (`Grants.CheckIsLookup`, `Grants.LookupsIff`, `Grants.LinkAdmits`, `GrantsConditions.LinkBreaksBinding`). The route
  keys objects by type, colon and id, and type names may hold colons, so keys can collide (`Grants.GrantBindsIff`,
  `Grants.CollisionAdmits`, `GrantsConditions.CollisionBreaksBinding`).
- A cookie path that already starts with `/auth` is left alone, whether or not it is the mount
  (`AuthMount.MountKeepsMatching`; `k=v; Path=/authors` in `AuthExamples.OtherPathStored`). The path a browser stores is
  mounted exactly when the last Path attribute is the first part the rewriter takes for one (`AuthMount.StoredAfter`,
  `AuthMount.StoredIsMountedIff`, `AuthMount.UnrootedStored`). It is not for `k=v; Path=/a; Path=/b`
  (`AuthExamples.TwoPathsStored`) and for `k=v; Path = /x` (`AuthExamples.SpacedPathStored`), and `path=/x` has its own
  name and value rewritten (`AuthExamples.NamedPathRewritten`).
- The migration scan reads the first name of a DROP SCHEMA only, so `DROP SCHEMA hr, other CASCADE` is clean for module
  hr (`SqlFence.DropSchemaOwn`, `SqlExamples.DropTwoSchemasClean`). It reads a DROP or TRUNCATE list up to the first
  entry that is no name, or more than a name with an argument list. So `TRUNCATE hr.a *, other.b` is clean
  (`SqlFence.EntriesReadIff`, `SqlExamples.TruncateStarredClean`, `SqlExamples.TruncateStarredUnread`), and so is
  `TRUNCATE ONLY (other.b)` (`SqlExamples.TruncateEnclosedClean`).
- The migration scan looks for the roles of a GRANT after the first `to` behind ON, and a table may have that name:
  `GRANT SELECT ON hr.to, hr.y TO public` is clean (`SqlGrants.RolesFoundIff`, `SqlExamples.GrantOnToClean`). It takes
  the first word behind ON for a kind of object also where it is a name: `GRANT SELECT ON sequence, other.b TO kiban_hr`
  is clean (`SqlGrants.GrantsOnOwnObjects`, `SqlExamples.GrantOnSequenceClean`).
- A statement that is the single word COMMENT makes the migration scan fail on a slice (`SqlScan.ScanMigration`; the
  file `COMMENT` in `SqlExamples.LoneCommentFile`).

## Model

| member | source | states |
|---|---|---|
| `AuthzEngine.LeastFixpoint` | internal/authz/engine/model.go:37-48 | derivability is closed under the model's definitions and lies inside every closed relation |
| `AuthzEngine.CutLosesNothing` | internal/authz/engine/eval.go:153-184 | whatever has a derivation has one whose definition never comes back to it: cutting a cycle loses no answer |
| `AuthzEngine.Bypass` | internal/authz/engine/eval.go:89-97 | a derivation no higher than the shortest one of a node never passes through that node |
| `AuthzEngine.DirectHolds` | internal/authz/engine/eval.go:227-262 | a direct relation holds exactly when some row names the subject or a userset that holds |
| `AuthzEngine.TuplesOnlyAdd` | internal/authz/engine/eval.go:186-221 | adding tuples never takes an access away |
| `AuthzEngine.BoundCheckIsPlainCheck` | internal/authz/engine/eval.go:112-151 | a check bound to a company is the plain check over the tuples without the userset rows of a position or group that lacks its company row, or of a member that lacks its membership row |
| `AuthzEngine.ForeignRowGrantsNothing` | internal/authz/engine/eval.go:138-151 | in a bound check, a userset row of a position, group or member without its row of the company can be removed without changing any answer |
| `AuthzEngine.OwnRowsUnaffected` | internal/authz/engine/eval.go:112-151 | where every such row is there, binding the check changes no answer |
| `AuthzEngine.Means` | internal/authz/engine/eval.go:186-284 | what each kind of definition means, over the rows themselves: a row names the subject or a userset it has; another relation of the object; a relation of the parent a row names; one of several; all of several |
| `AuthzEvaluator.FetchRows` | internal/authz/engine/eval.go:32-62 | exactly the rows of one relation of one object, each once |
| `AuthzEvaluator.EvalCtx.Check` | internal/authz/engine/eval.go:153-184 | true is a derivation; false is the absence of one avoiding the path, and of any when no cycle was cut; the fence needs more than 33 distinct nodes; the memo only gets answers that do not depend on the path |
| `AuthzEvaluator.EvalCtx.EvalExpr` | internal/authz/engine/eval.go:186-221 | the same promise for an expression of any kind |
| `AuthzEvaluator.EvalCtx.EvalUnion` | internal/authz/engine/eval.go:194-204 | the same promise for a union, with its early exit |
| `AuthzEvaluator.EvalCtx.EvalIntersection` | internal/authz/engine/eval.go:205-217 | the same promise for an intersection, with its early exit |
| `AuthzEvaluator.EvalCtx.EvalThis` | internal/authz/engine/eval.go:227-262 | the same promise for the rows of a relation, direct and userset, company filter included |
| `AuthzEvaluator.EvalCtx.EvalTupleToUserset` | internal/authz/engine/eval.go:264-284 | the same promise for a relation read through a parent row |
| `AuthzEvaluator.CheckRelation` | internal/authz/engine/eval.go:105-120 | every finished check answers derivability; it answers whenever the nodes it can come to are defined and at most 33, so a cycle alone never reaches the depth fence; an undefined type or relation is reported as such |
| `AuthzEvaluator.FullScopeIsScope` | internal/authz/engine/eval.go:153-284 | every check can come to finitely many nodes: objects of the query and of rows, relations of the query, the rows and the model |
| `AuthzEvaluator.Memo.Interference` | internal/authz/engine/batch.go:26-43 | other workers may store any answers that do not depend on a path, and leave the shared memo sound |
| `AuthzEvaluator.BatchWorker` | internal/authz/engine/batch.go:64-103 | every item of a batch gets the answer of a check of its own, on a memo other workers write at the same time |
| `DependencyCycle.Search.Visit` | internal/modvalidate/deps.go:90-112 | a visit ends with a real cycle or with the key finished after everything it depends on; gray is exactly "on the path" |
| `DependencyCycle.Search.PathBackTo` | internal/modvalidate/deps.go:95-102 | the dependency is found on the path, so the fallback is never taken, and the walk back to it is a cycle with distinct keys |
| `DependencyCycle.FindDependencyCycle` | internal/modvalidate/deps.go:80-128 | nothing is returned exactly when the graph has no closed walk; otherwise a closed walk of real edges meeting no key twice; it always ends |
| `DependencyCycle.NoClosedWalk` | internal/modvalidate/deps.go:80-128 | a graph finished in topological order has no closed walk |
| `OrgTree.OneRoot` | internal/org/store.go:1043-1057 | in a forest every unit has exactly one root, and it is a company |
| `OrgTree.MoveKeepsGrounded` | internal/org/store.go:434-551 | a move keeps the tree acyclic exactly when the new parent is not in the moved subtree |
| `OrgTree.MovedRoot` | internal/org/store.go:434-551 | after a move units outside keep their root and units inside take the new parent's |
| `OrgTree.AddKeepsForest` | internal/org/store.go:104-112 | a new unit that is a root exactly when it is a company keeps the forest and everyone's root |
| `OrgTree.RemoveKeepsForest` | internal/org/store.go:559-601 | removing a unit without children keeps the forest and everyone's root |
| `OrgTree.StoreCheckAlone` | internal/org/queries.sql.go:1071-1084 | the store's own check keeps the tree acyclic exactly when the candidate parent is not more than 32 levels below |
| `OrgTree.StoreCheckAloneFails` | internal/org/queries.sql.go:1071-1084 | a chain in which a move passes the store's own check and closes a cycle |
| `OrgPlacement.UnderCompanyIsRoot` | internal/org/store.go:1082-1096 | a company found on the chain of a unit is the root of that unit |
| `OrgPlacement.MoveUnitKeepsTree` | internal/org/store.go:434-551 | a unit move keeps every position inside its company |
| `OrgPlacement.StepKeepsTree` | migrations/org/0006_org_tree_write_serialization.sql:30-59 | every operation keeps the forest and the placement of positions |
| `OrgPlacement.StepKeepsCompanies` | internal/org/store.go:434-551 | no operation moves a company or turns a unit into or out of one |
| `OrgPlacement.RunKeepsTree` | internal/org/store.go:341-601 | every run keeps the forest and the placement of positions |
| `OrgPlacement.AfterAnyRun` | internal/org/store.go:1043-1096 | after any run a position's company is company-typed and the one root of the position's unit |
| `OrgAssignments.StepKeepsWindows` | internal/org/store.go:1505-1562 | every operation keeps the windows of a position disjoint, from the store's own checks |
| `OrgAssignments.RunKeepsWindows` | internal/org/store.go:1505-1681 | every run keeps the windows of a position disjoint |
| `OrgAssignments.RunHasOneHolder` | internal/org/queries.sql.go:369-395 | after any run "who holds the position on that date" has at most one answer |
| `OrgAssignments.RunKeepsHistory` | internal/org/store.go:1641-1681 | no run changes who held a position on a date before the run began, unless it deletes the position, which it cannot once there is an assignment row |
| `OrgAssignments.HandoverHolds` | internal/org/handover.go:21-87 | after a handover the new member holds every date from today on, exactly when the present holder is another or has no end |
| `OrgTuples.CreateAndAssignHolders` | internal/org/store.go:1701-1792 | create-and-assign keeps holder tuples equal to open windows exactly when it has no end after today |
| `OrgTuples.StepKeepsHolders` | internal/org/store.go:1566-1681 | every other operation keeps holder tuples equal to open windows; none leaves an open window without its tuple |
| `OrgTuples.LinkUserKeeps` | internal/org/store.go:875-932 | a link keeps the mapped-user tuples equal to the links exactly when it replaces no other user |
| `OrgTuples.StepKeepsMembers` | internal/org/store.go:673-985 | every operation keeps company-member tuples equal to active members, and every link tupled |
| `OrgTuples.TupleFrame` | internal/org/store.go:718-735 | an operation writes only the relations that are its own |
| `OrgGroups.StepKeepsGroups` | internal/org/group.go:227-350 | membership rows and membership tuples are the same set, and row and group share a company, after every operation |
| `OrgGroups.StepKeepsExternal` | internal/org/group.go:227-350 | no operation changes the membership of a group another system owns |
| `OrgGroups.CreateAndAssignUnanchored` | internal/org/store.go:1752-1779 | create-and-assign leaves its position without a company anchor |
| `OrgGroups.StepKeepsAnchors` | internal/org/store.go:1122-1171 | an operation keeps exactly one anchor per position and group, unless it is a create-and-assign |
| `OrgRuns.EmptyIsGood` | migrations/org/0002_org_tables.sql:1-40 | the empty store satisfies every invariant |
| `OrgRuns.RunKeepsInv` | internal/org/store.go:341-1792 | every run keeps tree, windows, members, groups and anchors consistent together |
| `OrgRuns.RunKeepsHolders` | internal/org/store.go:1566-1681 | in a run without first windows ending later, holder tuples are exactly the open windows |
| `OrgRuns.RunKeepsLinks` | internal/org/store.go:875-985 | in a run that replaces no link, mapped-user tuples are exactly the links |
| `OrgRuns.RunKeepsExternal` | internal/org/group.go:44-44 | no run changes the row or the membership of a group another system owns |
| `OrgRuns.NothingLeftBehind` | internal/org/store.go:1323-1369 | a position that is gone left no holder tuple and no anchor |
| `OrgRuns.OneMemberRow` | internal/org/queries.sql.go:503-508 | the membership read finds at most one member |
| `OrgRuns.MappedUser` | internal/org/store.go:875-985 | the check of a member's mapped user gives exactly the linked user |
| `OrgRuns.CompanyMembership` | internal/org/store.go:1392-1419 | after any run the relation check of `company#member` and the SQL membership read agree, unless a link was replaced; an active linked member always passes |
| `OrgRuns.PositionHolders` | internal/org/store.go:1566-1594 | after any run whoever has an open window passes the relation check of `position#holder`; nobody else does when no first window ended after its creation day and no link was replaced |
| `OrgRuns.BoundPositionHolders` | internal/authz/engine/eval.go:138-149 | the same bound to a company: whoever has an open window through a member active in that company passes, and under the same conditions nobody else |
| `OrgRuns.GroupMembership` | internal/org/group.go:227-350 | after any run whoever is linked to a member of the group passes the relation check of `group#member`; nobody else does when no link was replaced |
| `OrgEffects.CreateUnitDoes` | internal/org/store.go:341-397 | a unit is created exactly when it is new, its type fits and its parent exists; it then hangs there and nothing else changes |
| `OrgEffects.MoveCommits` | internal/org/store.go:434-551 | a move commits exactly when the unit exists, its type fits, the parent exists outside the subtree, and the root stays or no position sits below |
| `OrgEffects.MoveBelowRefused` | internal/org/store.go:466-478 | a parent within 32 levels below the unit is refused by the store itself |
| `OrgEffects.MoveDoes` | internal/org/store.go:524-533 | after a move the first ancestor is the parent asked for, and every other row and tuple is as before |
| `OrgEffects.MoveRoots` | internal/org/store.go:434-551 | after a move every unit of the subtree has the new parent's root and every other unit its own |
| `OrgEffects.DeleteUnitDoes` | internal/org/store.go:559-601 | a unit is deleted exactly when it exists and no unit, member, position or group refers to it |
| `OrgEffects.CreateMemberDoes` | internal/org/store.go:673-716 | a member is created exactly when it is new and its company is company-typed |
| `OrgEffects.UpdateMemberDoes` | internal/org/store.go:809-853 | an update sets whether the member is active and nothing else |
| `OrgEffects.LinkDoes` | internal/org/store.go:875-932 | a link is made exactly for a confirmed account that no other member of the company has; the member is then linked to it |
| `OrgEffects.UnlinkDoes` | internal/org/store.go:938-985 | after an unlink the member is linked to nobody |
| `OrgEffects.CreatePositionDoes` | internal/org/store.go:1122-1171 | a position is created exactly when it is new and its company is the root of its unit |
| `OrgEffects.UpdatePositionDoes` | internal/org/store.go:1256-1310 | a position moves exactly when its company is the root of the new unit |
| `OrgEffects.DeletePositionDoes` | internal/org/store.go:1323-1369 | a position is deleted exactly when it exists, has no assignment row, and no tuple names its holders |
| `OrgEffects.AssignDoes` | internal/org/store.go:1505-1562 | an assignment is made exactly for an active member of the company of a position nobody holds today; it covers exactly the dates from today on; a refusal for a held position names its holder |
| `OrgEffects.EndDoes` | internal/org/store.go:1601-1636 | an end is made exactly for an open window; it keeps the dates before today and covers none from today on |
| `OrgEffects.HandoverCommits` | internal/org/handover.go:21-87 | with a present holder, a handover commits exactly for an eligible member who is the holder or meets the expected one |
| `OrgEffects.HandoverNeedsHolder` | internal/org/handover.go:40-53 | without a holder it does not |
| `OrgEffects.HandoverDoes` | internal/org/handover.go:54-87 | to another member, the holder's dates end before today and the successor's begin today; to the holder, nothing changes |
| `OrgEffects.CreateAndAssignDoes` | internal/org/store.go:1701-1792 | exactly when it commits, and that the window covers exactly the dates asked for |
| `OrgEffects.CreateGroupDoes` | internal/org/group.go:88-124 | a group is created exactly when it is new and its company is company-typed, owned by kiban |
| `OrgEffects.AddGroupMemberDoes` | internal/org/group.go:227-300 | exactly an active member of the company joins a group kiban owns, and nobody else's membership changes |
| `OrgEffects.RemoveGroupMemberDoes` | internal/org/group.go:306-350 | exactly the one membership goes |
| `OrgEffects.RefusalIsTrue` | internal/org/store.go:341-1792 | whatever reason any operation gives for a refusal is true of the state |
| `OrgExamples.HandoverToTheHolder` | internal/org/handover.go:54-87 | a run from the empty store whose last handover commits and leaves tomorrow without a holder |
| `OrgExamples.AppointUntilTomorrow` | internal/org/store.go:1701-1792 | a run from the empty store that leaves a holder tuple without an open window and a position without an anchor |
| `OrgExamples.LinkedTwice` | internal/org/store.go:875-932 | a run from the empty store that leaves the tuple of a replaced link |
| `OrgQueries.ResolveRootCompany` | internal/org/store.go:1043-1057 | the recursive query ends at the root, and has no row exactly for an unknown unit |
| `OrgQueries.ChainReaches` | internal/org/store.go:1082-1096 | the chain query answers whether the company is an ancestor |
| `OrgQueries.SubtreeOrgUnits` | internal/org/queries.sql.go:1071-1084 | the level-by-level query yields exactly the subtree down to 32 levels |
| `OrgQueries.WholeSubtree` | internal/org/store.go:1062-1076 | the unbounded query yields exactly the subtree, and ends |
| `OrgBackfill.GrantOnce` | internal/bootstrap/org_object_company_backfill.go:58-88 | the tuple is written exactly when it was missing |
| `OrgBackfill.Backfill` | internal/bootstrap/org_object_company_backfill.go:20-56 | exactly the missing anchors are added, the table grows by the reported count, and zero means nothing changed |
| `OrgBackfill.BackfillConverges` | internal/bootstrap/org_object_company_backfill.go:14-56 | after any run a backfill leaves every position and group with exactly its anchor and touches no other relation |
| `OrgStore.Store.constructor` | internal/org/store.go:55-67 | a new store is empty and satisfies every invariant |
| `OrgStore.Store.CreateOrgUnit` | internal/org/store.go:341-397 | does the specified step or refuses without a change, and keeps every invariant |
| `OrgStore.Store.UpdateOrgUnit` | internal/org/store.go:434-551 | does the specified step or refuses without a change, and keeps every invariant |
| `OrgStore.Store.MoveRefusal` | internal/org/store.go:434-551 | names the reason a new parent is refused, or none |
| `OrgStore.Store.HasPositions` | internal/org/store.go:1062-1076 | whether a position sits anywhere in the subtree |
| `OrgStore.Store.DeleteOrgUnit` | internal/org/store.go:559-601 | does the specified step or refuses without a change, and keeps every invariant |
| `OrgStore.Store.CreateMember` | internal/org/store.go:673-716 | does the specified step or refuses without a change, and keeps every invariant |
| `OrgStore.Store.UpdateMember` | internal/org/store.go:809-853 | does the specified step or refuses without a change, and keeps every invariant |
| `OrgStore.Store.LinkUser` | internal/org/store.go:875-932 | does the specified step or refuses without a change, and keeps every invariant |
| `OrgStore.Store.UnlinkUser` | internal/org/store.go:938-985 | does the specified step or refuses without a change, and keeps every invariant |
| `OrgStore.Store.CreatePosition` | internal/org/store.go:1122-1171 | does the specified step or refuses without a change, and keeps every invariant |
| `OrgStore.Store.UpdatePosition` | internal/org/store.go:1256-1310 | does the specified step or refuses without a change, and keeps every invariant |
| `OrgStore.Store.DeletePosition` | internal/org/store.go:1323-1369 | does the specified step or refuses without a change; the anchor goes with the row |
| `OrgStore.Store.AssignmentOnDate` | internal/org/store.go:1684-1694 | finds the one assignment that covers the date, or none when there is none |
| `OrgStore.Store.CreateAssignmentTx` | internal/org/store.go:1566-1594 | opens the window from today and grants the holder tuple |
| `OrgStore.Store.EndAssignmentTx` | internal/org/store.go:1641-1681 | closes the window today; the tuple goes unless another open window of the pair confers it |
| `OrgStore.Store.AssignNow` | internal/org/store.go:1505-1562 | does the specified step or refuses without a change, naming the holder in the way |
| `OrgStore.Store.EndAssignment` | internal/org/store.go:1601-1636 | does the specified step or refuses without a change, and keeps every invariant |
| `OrgStore.Store.Handover` | internal/org/handover.go:21-87 | does the specified step or refuses without a change, and keeps every invariant |
| `OrgStore.Store.CreateAndAssign` | internal/org/store.go:1701-1792 | does the specified step or refuses without a change, and keeps every invariant |
| `OrgStore.Store.CreateGroup` | internal/org/group.go:88-124 | does the specified step or refuses without a change, and keeps every invariant |
| `OrgStore.Store.AddGroupMember` | internal/org/group.go:227-300 | does the specified step or refuses without a change, and keeps every invariant |
| `OrgStore.Store.RemoveGroupMember` | internal/org/group.go:306-350 | does the specified step or refuses without a change, and keeps every invariant |
| `Fragments.RunKeepsGood` | internal/registry/authzfragment.go:35-96 | every run of registrations and toggles keeps one owner per type, no owned base type, same-type references inside each fragment, and an anchor on every type |
| `Fragments.RegistrationDoes` | internal/registry/authzfragment.go:35-82 | a fragment is stored exactly when it declares something, each type has its anchor and every relation its definitions read, and no type is the base model's or another module's; then it is the module's row |
| `Fragments.ToggleDoes` | internal/registry/authzfragment.go:88-96 | a toggle changes whether one fragment is active and nothing else |
| `Fragments.Load` | internal/authz/fragment/fragment.go:76-131 | a table the registry keeps loads exactly when every target of the base model and the fragments in effect is defined in their merge; what is loaded is the merge, with an owner and an anchor for each fragment type |
| `Fragments.LoadedIs` | internal/authz/fragment/fragment.go:76-131 | in what is loaded a module owns a type exactly when its fragment declares it, the module is enabled and the fragment active; definitions are the fragment's, and the base model's for every other type |
| `Fragments.ValidateTargets` | internal/authz/engine/model.go:164-197 | the walk accepts exactly the models whose targets are relations of some type |
| `Fragments.MergeTargets` | internal/authz/fragment/fragment.go:120-128 | the merge passes the target check exactly when the targets of its parts resolve in it |
| `Fragments.ValidatedRunsLoad` | internal/authz/engine/model.go:164-169 | a run of registrations that each passed the check over base and fragment loads at every moment, whatever is enabled |
| `Fragments.UndefinedTargetStored` | internal/registry/authzfragment.go:35-82 | a registration without that check that is stored and makes every later load refuse |
| `Grants.WriteTuples` | internal/authz/store/store.go:189-239 | the tuples are written one by one, or nothing is; revoking an anchor takes the object's other tuples |
| `Grants.GrantAdds` | internal/authz/store/store.go:93-98 | a committed grant adds exactly the tuples it names |
| `Grants.RevokeRemoves` | internal/authz/store/store.go:189-270 | a committed revoke keeps exactly the tuples it neither names nor finds on an object whose anchor it takes |
| `GrantsLaws.GrantWritten` | internal/authz/store/store.go:189-239 | a grant is written exactly when no field is empty and no object would have two anchors; the table is then the old one and the named tuples |
| `GrantsLaws.RevokeWritten` | internal/authz/store/store.go:189-270 | a revoke is written exactly when no field is empty |
| `GrantsLaws.AdminsWritten` | internal/authz/http.go:691-698 | tuples that make users company administrators are always written, and nothing else with them |
| `GrantsLaws.AdmittedIff` | internal/authz/http.go:441-646 | in a table without links a request is admitted exactly when the caller speaks for the module, every object is the module's and anchored at the company or vouched for, every subject is defined and of the company, and no anchor is taken |
| `Grants.UnnamedUntouched` | internal/authz/store/store.go:189-270 | a write never touches an object it does not name |
| `Grants.WritesKeepOneAnchor` | migrations/authz/0012_one_anchor_per_object.sql:15-17 | writes keep one anchor per object |
| `Grants.CheckIsLookup` | internal/authz/http.go:621-626 | where no `company_module` row has a userset subject, the anchor check is the lookup of the anchor row |
| `Grants.LookupsIff` | internal/authz/http.go:621-626 | in a table whose userset anchors are links between module objects, every anchor check is a lookup exactly when linked objects carry the same anchors |
| `Grants.NamesNoForeignObject` | internal/authz/http.go:570-644 | without links and collisions the write of an admitted request names no object anchored to another company or module |
| `Grants.GrantBindsIff` | internal/authz/http.go:570-646 | without links an admitted grant binds every module object it names to exactly the request's company and module, if and only if its keys vouch for anchored objects only |
| `Grants.NoCollisionVouches` | internal/authz/http.go:572-579 | without a key collision they do |
| `Grants.NoColonNoCollision` | internal/authz/http.go:576-576 | keys collide only through colons in type names |
| `Grants.KeepsNoLinks` | internal/authz/http.go:614-620 | a write leaves the table without links exactly when the request grants none |
| `Grants.LinkAdmits` | internal/authz/http.go:614-626 | in every table, a link to an object anchored at the request's own company and module opens every other relation of the linked object |
| `Grants.CollisionAdmits` | internal/authz/http.go:614-620 | in every table, beside an anchor whose key collides every tuple is admitted |
| `Grants.RunKeepsForeign` | internal/authz/http.go:385-647 | a run of requests for others, granting no link and free of collisions, leaves every tuple on an anchored object as it was |
| `Grants.RunKeepsOneAnchor` | internal/authz/http.go:651-686 | every run keeps one anchor per object |
| `Grants.UnownedTypesUntouched` | internal/authz/http.go:691-698 | the route never touches objects of a type no module owns, appointments of company administrators aside |
| `GrantsRoute.ResolveModule` | internal/authz/http.go:441-461 | a module is resolved exactly when all tuples belong to it |
| `GrantsRoute.SubjectsAllowed` | internal/authz/http.go:463-508 | accepts only requests whose subjects are defined and in the company, positions and groups by a relation check; refuses only when one is not, and fails only when a check failed |
| `GrantsRoute.CollectAnchors` | internal/authz/http.go:572-579 | collects exactly the objects the request anchors at its own company and module |
| `GrantsRoute.AnchorsFree` | internal/authz/http.go:580-594 | accepts exactly when no key of an anchor is taken to name an object anchored elsewhere |
| `GrantsRoute.TuplesAdmitted` | internal/authz/http.go:595-644 | accepts only admitted tuples, refuses only when one is not, and fails only when a check failed |
| `GrantsRoute.HandleGrants` | internal/authz/http.go:385-686 | what is written is the write of an admitted request or of an appointment; an admitted request the table accepts is written unless a check fails; an appointment of company administrators by a superadmin leaves exactly the table with or without them, and anybody else's is denied |
| `GrantsConditions.NotesEffective` | internal/authz/fragment/fragment.go:76-131 | the model of the two examples is one the registry stores and a load yields |
| `GrantsConditions.LinkBreaksBinding` | internal/authz/http.go:614-626 | for any two companies: a request that grants a link, after which a request for the other company is admitted on the object |
| `GrantsConditions.CollisionBreaksBinding` | internal/authz/http.go:572-620 | for any two companies: a request with colliding keys that is admitted on an object anchored to the other, in a table without links |
| `PlatformRole.StepKeeps` | internal/authz/platform_role.go:148-187 | every step of every transaction keeps the lock discipline, and a superadmin once there is one |
| `PlatformRole.AlwaysASuperadmin` | internal/authz/platform_role.go:148-187 | under every interleaving of grants, revokes, bootstrap, grants requests and other services, once there is a superadmin there always is one |
| `PlatformRole.RefusedIffLast` | internal/authz/platform_role.go:158-172 | a revoke is turned away exactly when its subject is the only superadmin |
| `PlatformRole.StepAppoints` | internal/authz/platform_role.go:148-187 | a committed grant or seed makes exactly its subject a superadmin, a committed revoke unmakes exactly its subject, and no other event makes or unmakes anybody |
| `PlatformRole.SeedsOnlyTheFirst` | internal/bootstrap/superadmin.go:25-105 | a bootstrap run comes to seed a subject only if it found no superadmin |
| `PlatformRole.GrantRuns` | internal/authz/platform_role.go:148-187 | undisturbed, a grant that finds the lock free ends with its subject a superadmin |
| `PlatformRole.RevokeRuns` | internal/authz/platform_role.go:148-187 | undisturbed, a revoke of one of two superadmins or more ends with its subject none |
| `PlatformRole.CommitKeeps` | internal/bootstrap/superadmin.go:77-105 | a commit happens with every other transaction still before its checks |
| `PlatformRole.GrantsRouteKeeps` | internal/authz/http.go:385-698 | the grants route never changes the superadmin tuples |
| `CatalogCache.CatalogClient.Enter` | internal/gateway/catalog.go:120-137 | answers a fresh snapshot, joins the refresh in flight, or starts the one there is |
| `CatalogCache.CatalogClient.Complete` | internal/gateway/catalog.go:141-151 | installs a fetched snapshot or records the failure, and ends the refresh |
| `CatalogCache.CatalogClient.Result` | internal/gateway/catalog.go:159-181 | the staleness rule after a refresh |
| `CatalogCache.StepKeepsInv` | internal/gateway/catalog.go:119-181 | every mutex section of every call keeps one fetch in flight and every earlier answer within its promise |
| `CatalogCache.EveryInterleaving` | internal/gateway/catalog.go:113-181 | under every interleaving: at most one fetch; no empty snapshot without an error; a served snapshot is younger than the cache time, or installed after the call began, or within the staleness bound after a failure; a waiting call is never stuck |
| `CatalogCache.ClientIsHistory` | internal/gateway/catalog.go:141-151 | under every interleaving the client holds the snapshot fetched last and knows whether the last refresh failed |
| `CatalogCache.AnswersWhatIsOwed` | internal/gateway/catalog.go:113-181 | a call that waited or fetched gets the latest snapshot, or fails exactly when the last refresh failed and there is no snapshot or it is as old as the bound |
| `CatalogCache.OwnFetchIsServed` | internal/gateway/catalog.go:139-155 | a call whose own fetch succeeded gets exactly that snapshot |
| `CatalogCache.WaiterWaits` | internal/gateway/catalog.go:127-134 | a waiter is answered only after the refresh it waited for |
| `CatalogCache.WaiterIsServed` | internal/gateway/catalog.go:127-134 | answered after a successful refresh, a waiter gets its snapshot or a later one, unless a later refresh failed |
| `CatalogCache.EnterAnswers` | internal/gateway/catalog.go:120-137 | a snapshot younger than five seconds is served at once; otherwise the call joins the refresh in flight or starts the one there is |
| `CatalogCache.AnswersStay` | internal/gateway/catalog.go:113-155 | an answer given stays as it was given |
| `SqlTokens.Tokenize` | internal/modvalidate/sqlscan.go:38-154 | the loop yields the tokens read index by index |
| `SqlTokens.ReadQuoted` | internal/modvalidate/sqlscan.go:66-108 | the loops over quoted text undo doubled quotes and escapes and stop past the closing quote |
| `SqlTokens.SkipBlockComment` | internal/modvalidate/sqlscan.go:50-65 | the loop stops past the comment that opened it, nested ones included |
| `SqlSpelling.ReadComment` | internal/modvalidate/sqlscan.go:50-65 | a comment is skipped whatever it holds and however deep it nests |
| `SqlSpelling.ReadSpelling` | internal/modvalidate/sqlscan.go:66-150 | a name, quoted name, plain, escaped or dollar-quoted literal, number, parameter or punctuation mark is read as the one token it spells, wherever the next char does not carry it on |
| `SqlSpelling.RoundTrip` | internal/modvalidate/sqlscan.go:38-154 | reading a written script gives back exactly the tokens spelled, adjacent ones included, whatever stands in its literals, quoted names and comments, a last line comment without a newline included |
| `SqlSpelling.Reprint` | internal/modvalidate/sqlscan.go:38-154 | for every text, printing its tokens and reading them again gives the same tokens |
| `SqlStatements.SplitStatements` | internal/modvalidate/sqlscan.go:165-182 | the loop yields the statements between the semicolons |
| `SqlStatements.SplitConserves` | internal/modvalidate/sqlscan.go:165-182 | only semicolons are dropped, the order is kept, and no statement is empty or holds a semicolon |
| `SqlStatements.SplitAtSemicolon` | internal/modvalidate/sqlscan.go:165-182 | every semicolon ends a statement and nothing else does |
| `SqlStatements.StatementsAsWritten` | internal/modvalidate/sqlscan.go:38-182 | a script's statements are the ones written, the last with or without its semicolon: nothing inside a literal or a comment ends or starts one |
| `SqlScan.Scan.CheckRef` | internal/modvalidate/sqlscan.go:305-323 | an error is added exactly for a name outside the fence |
| `SqlScan.Scan.AllRefs` | internal/modvalidate/sqlscan.go:217-231 | the loop collects the qualified names in order |
| `SqlScan.Scan.CheckTables` | internal/modvalidate/sqlscan.go:237-249 | an error is added exactly when a name at a table position is outside the fence |
| `SqlScan.Scan.TargetList` | internal/modvalidate/sqlscan.go:518-553 | returns the qualified items of the list, and adds an error exactly when one is unqualified |
| `SqlScan.Scan.NameList` | internal/modvalidate/sqlscan.go:621-632 | returns the names of the list |
| `SqlScan.Scan.ForbidAnywhere` | internal/modvalidate/sqlscan.go:655-664 | an error is added exactly when a forbidden clause occurs |
| `SqlScan.Scan.Create` | internal/modvalidate/sqlscan.go:366-440 | an error is added exactly when the CREATE is not clean |
| `SqlScan.Scan.Alter` | internal/modvalidate/sqlscan.go:442-483 | an error is added exactly when the ALTER is not clean |
| `SqlScan.Scan.Drop` | internal/modvalidate/sqlscan.go:485-515 | an error is added exactly when the DROP is not clean |
| `SqlScan.Scan.Truncate` | internal/modvalidate/sqlscan.go:345-354 | an error is added exactly when a table is unqualified or of another schema |
| `SqlScan.Scan.Grant` | internal/modvalidate/sqlscan.go:555-618 | an error is added exactly when the GRANT or REVOKE is not clean |
| `SqlScan.Scan.Comment` | internal/modvalidate/sqlscan.go:634-652 | an error is added exactly when the COMMENT is not clean; a lone COMMENT fails on a slice |
| `SqlScan.Scan.CheckStatement` | internal/modvalidate/sqlscan.go:335-364 | an error is added exactly when the statement is not clean |
| `SqlScan.ScanMigration` | internal/modvalidate/sqlscan.go:326-333 | the scan reports nothing exactly when every statement of the file is clean, and completes exactly when none is a lone COMMENT |
| `SqlFence.HeadsSeen` | internal/modvalidate/sqlscan.go:200-231 | going from name to name sees every start of a dotted name, except one whose schema is the empty quoted identifier |
| `SqlFence.AlterFenced` | internal/modvalidate/sqlscan.go:442-483 | in a clean ALTER every dotted name from the target on lies in the module's fence |
| `SqlFence.ItemsAsWritten` | internal/modvalidate/sqlscan.go:518-553 | a written list of names is read item by item, whatever its argument lists hold and whatever follows it |
| `SqlFence.EntriesReadIff` | internal/modvalidate/sqlscan.go:518-553 | for every statement and list: each written entry is read exactly when each is a name, and each but the last no more than a name and an argument list |
| `SqlFence.NameIsRead` | internal/modvalidate/sqlscan.go:518-553 | a single entry is read exactly when it is a name and every entry before it is no more than a name and an argument list |
| `SqlFence.ReadIsPermitted` | internal/modvalidate/sqlscan.go:345-515 | every name a clean DROP or TRUNCATE has read is qualified and permitted |
| `SqlFence.DropSchemaOwn` | internal/modvalidate/sqlscan.go:498-503 | a clean DROP SCHEMA names the module's own schema alone exactly when it names one schema |
| `SqlFence.DestroysOnlyOwn` | internal/modvalidate/sqlscan.go:345-553 | every entry of a clean DROP or TRUNCATE names what the module may destroy, when all entries are names and they name one schema or have at most an argument list each before the next |
| `SqlGrants.RoleIsRead` | internal/modvalidate/sqlscan.go:621-632 | a list of bare names is read up to the first entry that is more than a name |
| `SqlGrants.RolesReadIff` | internal/modvalidate/sqlscan.go:621-632 | each entry of such a list is read exactly when each is a name, and each but the last a bare one |
| `SqlGrants.ItemsEndAsWritten` | internal/modvalidate/sqlscan.go:518-553 | a written object list ends where its last item does, whatever its argument lists hold |
| `SqlGrants.RolesFoundIff` | internal/modvalidate/sqlscan.go:603-617 | the scan looks where the roles are written, after the object list, exactly when no word of that list is the one before the roles |
| `SqlGrants.GrantsToOwnRole` | internal/modvalidate/sqlscan.go:555-618 | every role a clean GRANT or REVOKE names is the module's own, when no word of its object list is `to` (`from`) and its roles are bare names |
| `SqlGrants.GrantsOnOwnObjects` | internal/modvalidate/sqlscan.go:572-602 | every object a clean GRANT or REVOKE names is one the module may grant on, unless its first object is taken for a kind; then, before a comma or a dot, no object is refused |
| `SqlExamples.DropTwoSchemasClean` | internal/modvalidate/sqlscan.go:498-503 | a clean DROP SCHEMA that names another module's schema |
| `SqlExamples.TruncateStarredClean` | internal/modvalidate/sqlscan.go:345-354 | a clean TRUNCATE with a star after its first name |
| `SqlExamples.TruncateStarredUnread` | internal/modvalidate/sqlscan.go:546-550 | the second name of that TRUNCATE is written and not permitted |
| `SqlExamples.TruncateEnclosedClean` | internal/modvalidate/sqlscan.go:345-354 | a clean TRUNCATE whose only table stands in parentheses and is not permitted |
| `SqlExamples.GrantOnToClean` | internal/modvalidate/sqlscan.go:608-617 | a clean GRANT to everyone, on a table named `to` |
| `SqlExamples.GrantOnSequenceClean` | internal/modvalidate/sqlscan.go:592-595 | a clean GRANT on another module's table, after a table named `sequence` |
| `SqlExamples.LoneCommentFile` | internal/modvalidate/sqlscan.go:634-652 | a file that is one lone COMMENT |
| `SqlFence.CleanVerb` | internal/modvalidate/sqlscan.go:335-364 | a clean statement starts with an allowed verb |
| `SqlMeaning.FenceIs` | internal/modvalidate/sqlscan.go:305-323 | the fence by schema and name: the own schema, audit objects under the own prefix and the shared function, the own version table, and nothing else |
| `SqlMeaning.CreateAsWritten` | internal/modvalidate/sqlscan.go:366-400 | the kind and the name of a written CREATE are found where they are written |
| `SqlMeaning.CreateFenced` | internal/modvalidate/sqlscan.go:402-440 | a clean CREATE: what it creates is qualified where the kind needs it and the module's, so is the table of an index, trigger or policy, every qualified name up to the tail lies in the fence, in the tail every one at a table position, and no clause changes who runs it |
| `SqlMeaning.CreateAllowed` | internal/modvalidate/sqlscan.go:402-440 | such a CREATE is clean |
| `SqlMeaning.CreateOther` | internal/modvalidate/sqlscan.go:366-400 | a CREATE of anything else is clean exactly for the own schema, the shared one if missing, and pgcrypto |
| `SqlMeaning.AlterAsWritten` | internal/modvalidate/sqlscan.go:442-470 | the target of a written ALTER is found where it is written, after ON for a trigger or policy |
| `SqlMeaning.AlterMeans` | internal/modvalidate/sqlscan.go:442-483 | a clean ALTER is of an object of the module, gives nothing another owner or schema, and names nothing outside the fence |
| `SqlMeaning.AlterAllowed` | internal/modvalidate/sqlscan.go:442-483 | such an ALTER is clean |
| `SqlMeaning.DropAsWritten` | internal/modvalidate/sqlscan.go:485-515 | the list of a written DROP is found where it is written |
| `SqlMeaning.TruncateAsWritten` | internal/modvalidate/sqlscan.go:345-349 | so is that of a TRUNCATE |
| `SqlMeaning.DestroysIff` | internal/modvalidate/sqlscan.go:345-553 | a DROP or TRUNCATE is clean exactly when its kind is allowed and every name it reads is permitted |
| `SqlMeaning.CommentAsWritten` | internal/modvalidate/sqlscan.go:634-652 | the list of a written COMMENT is found where it is written |
| `SqlMeaning.CommentIff` | internal/modvalidate/sqlscan.go:634-652 | a COMMENT is clean exactly when its kind is allowed and every name it reads is permitted |
| `SqlMeaning.DataIff` | internal/modvalidate/sqlscan.go:237-249 | a data statement is clean exactly when every qualified name at a table position is permitted |
| `SqlMeaning.GrantIff` | internal/modvalidate/sqlscan.go:555-618 | a GRANT or REVOKE whose first object is not taken for a kind is clean exactly when it has an ON, gives no option, and its objects and the roles read are permitted |
| `LikeEscape.LiteralSubstring` | internal/org/store.go:1493-1494 | the escaped pattern matches exactly the texts in which the query occurs literally |
| `LikeEscape.EscapedSearch` | internal/org/store.go:1462-1494 | the same up to case, for every case folding that leaves the three special characters alone |
| `LikeEscape.DirectorySearch` | internal/org/queries.sql.go:810-821 | a member is listed exactly when the query occurs in the name or the email, the empty query included |
| `AuthCookie.PrefixCookiePath` | internal/gateway/auth_proxy.go:231-254 | the loop rewrites the first Path part, or adds one |
| `AuthCookie.PrefixedParts` | internal/gateway/auth_proxy.go:213-254 | every other attribute is kept byte for byte |
| `AuthCookie.PrefixedTwice` | internal/gateway/auth_proxy.go:231-254 | a second rewrite changes nothing, on every string |
| `AuthMount.StripMounted` | internal/gateway/auth_proxy.go:133-140 | stripping the prefix undoes the mount |
| `AuthMount.MountKeepsMatching` | internal/gateway/auth_proxy.go:238-247 | a cookie path matches the same requests before and after mounting (section 5.1.4 of RFC 6265) exactly when it does not start with `/auth` |
| `AuthMount.StoredAfter` | internal/gateway/auth_proxy.go:231-254 | what a browser stores after the rewrite, for every cookie: the whole mount, the mounted value of the last Path attribute, or what it stored before |
| `AuthMount.StoredIsMountedIff` | internal/gateway/auth_proxy.go:231-254 | a rooted stored path outside `/auth` is mounted exactly when the last Path attribute is the first part the rewriter takes for a Path, or when it finds none and the path is the root |
| `AuthMount.UnrootedStored` | internal/gateway/auth_proxy.go:250-253 | without a Path attribute the cookie becomes the whole mount's; an unrooted value is glued to the mount's name |
| `AuthMount.CookieFollowsTheMount` | internal/gateway/auth_proxy.go:231-254 | such a cookie goes with the mounted request exactly when it went with the request behind the mount |
| `AuthExamples.TwoPathsStored` | internal/gateway/auth_proxy.go:231-254 | of two Path attributes the first is mounted and the second is stored |
| `AuthExamples.SpacedPathStored` | internal/gateway/auth_proxy.go:231-254 | a space before the sign hides the path, and the cookie becomes the whole mount's |
| `AuthExamples.NamedPathRewritten` | internal/gateway/auth_proxy.go:231-254 | a cookie named path has its own name and value rewritten |
| `AuthExamples.OtherPathStored` | internal/gateway/auth_proxy.go:238-243 | a path that only starts with the letters of the mount stays outside it |
| `AuthMount.NoLinkLeft` | internal/gateway/auth_proxy.go:338-354 | no root-relative realms link is left in a rewritten body |
| `AuthMount.LinksUnchanged` | internal/gateway/auth_proxy.go:338-354 | a body is left alone exactly when it holds no such link |
| `AuthMount.LinksReplaced` | internal/gateway/auth_proxy.go:338-354 | the first link is mounted where it stands and the text before it is kept, and so on for the rest |
| `AuthMount.ReplacedTwice` | internal/gateway/auth_proxy.go:330-354 | a second rewrite changes nothing, on every body |
| `MfaPolicy.PolicyStore.SetGlobalPolicy` | internal/identity/store.go:214-236 | does the specified step, or refuses a required policy without an enforceable method |
| `MfaPolicy.PolicyStore.SetUserPolicy` | internal/identity/store.go:281-316 | does the specified step, or refuses an unenforceable or weaker override or an unknown user |
| `MfaPolicy.PolicyStore.ClearUserPolicy` | internal/identity/store.go:320-345 | drops the override, or refuses an unknown user |
| `MfaPolicy.PolicyStore.EffectivePolicy` | internal/identity/store.go:162-180 | the effective policy, and none for an unknown user |
| `MfaPolicy.PolicyStore.ListEffectivePolicies` | internal/identity/store.go:355-375 | every user once, with the policy `EffectivePolicy` gives |
| `MfaPolicy.PolicyStore.SyncMfaPolicy` | internal/identity/sync.go:65-92 | one outcome per user in order, a failure never ending the sync |
| `MfaPolicy.EveryRun` | internal/identity/store.go:201-316 | in every run a required policy has an enforceable method; nobody is below the global policy as long as it is never raised over an override |
| `MfaPolicy.OperationDoes` | internal/identity/store.go:214-345 | a policy set is the one in force, for everyone without an override or for the one user; clearing restores the global one; each is refused for exactly the reasons there are and touches nobody else |
| `MfaPolicy.StepKeepsRank` | internal/identity/store.go:238-316 | an operation leaves a user below the global policy exactly when it raises the policy over an override |
| `MfaPolicy.RaisedLater` | internal/identity/store.go:155-161 | a run after which an override ranks below the global policy |
| `MfaPolicy.SyncIsTruthful` | internal/identity/sync.go:43-92 | the mapping never fails; an outcome names the user, the policy and its attribute, and is a success exactly when the attribute was written; it then spells the method of the effective policy; other attributes are left alone |

## Left out

- SqlTokens.Tokenize: identifiers are lower-cased letter by letter in ASCII; Unicode case is not modelled.
- SqlScan.ScanMigration: errors are counted by rule; their messages are not modelled, and whether a file is one of the shipped ones is a parameter.
- SqlFence.DropSchemaOwn: the module key is not empty, as manifest validation requires.
- LikeEscape.EscapedSearch: the database's case folding is any function of single characters.
- AuthCookie.PrefixCookiePath: trims ASCII white space only.
- PlatformRole.AlwaysASuperadmin: the answers of the login server during bootstrap are not modelled; a bootstrap run may stop at any step.
- OrgStore.Store.UpdateOrgUnit: the advisory lock that serializes tree writes is taken as given, so each call is one step.
- SqlFence.DestroysOnlyOwn: speaks of the names written; what CASCADE reaches beyond them is the database's.
- SqlRules.RefAt: a name of three parts is read as schema, table and column, as the scan reads it.
- Function bodies and query tails of migrations: the scan itself does not read references in expressions, and no claim is made about them.
- The decision layer in front of relation checks (features, module state, membership steps): one-branch rules over answers this model takes as parameters.
- HTTP handling, JSON, audit rows, correlation ids, metrics and paging.
- Tokens and key sets, the login server's administration client, realm reconciliation: behaviour of libraries and of a remote server.
- Semantic version ranges, regular expressions and schema decoding in the module validator.
- The other bootstrap steps and the command-line tools.

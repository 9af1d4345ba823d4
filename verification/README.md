# User service: verified model

The user service keeps users, organizations, schools, classes, memberships, roles and permissions
in a relational database and serves them over GraphQL. This project models its hardest algorithms
over an in-memory relational state and proves what they promise.

| file | models |
|---|---|
| `ChildRelation.dfy` | the joined rows a child connection is read from, the `IN` filters, the cursor, `DENSE_RANK` and `ROW_NUMBER` with their SQL meaning |
| `ConnectionKeys.dfy` | dataloader keys, the request identifier, pages |
| `ChildConnectionLoader.dfy` | the batch function of child connection dataloaders, with its loops and maps, against a specification of the answer of each key |
| `ChildConnectionTheorems.dfy` | batching refines loading keys one by one: for which batches on which databases, and at what cost otherwise |
| `ChildConnectionPages.dfy` | which pages are those of a plain query, what they tell of their neighbours, the first page backward, totals |
| `ChildConnectionWalks.dfy` | paging forward and backward from start to end |
| `UserPermissions.dfy` | the folds and memoised maps of the permission engine, and the staged decision |
| `UserMerge.dfy` | merging users: growing lists, saves, rollback and retries |
| `Deactivation.dfy` | the cascade of deleting an organization, on a heap where schools share classes |
| `Categories.dfy`, `CategorySubcategories.dfy` | batch mutations of categories and of their subcategory lists |
| `MembershipStatus.dfy` | the reactivate, remove and delete state machine of organization memberships |
| `RolesInitializer.dfy` | synchronisation of permissions and roles at start-up |
| `RoleReplacement.dfy` | replacing a role throughout an organization |
| `UserVisibility.dfy` | which users a non-admin may see |
| `Collections.dfy`, `Statuses.dfy` | shared helpers |

`dafny verify dfyconfig.toml` checks the whole project.

## What is assumed

- Rows of a child query arrive sorted, and the sort key is a function of the child that no two
  children share. The columns a request filters by are the columns of its pivot, in one order, and
  a key names its parent by as many of them (`Typed`, `Serves`).
- A database answers each query with rows of its own, and filters are not interpreted: two filters
  that are written differently but select the same rows count as two queries. In the "only if" half of
  `BatchingIsExact` and `BatchingIsExactEverywhere` the database may answer them differently.
- Groups, memberships and named categories come from the database in any order: the model takes
  them from sets in an arbitrary order, and every result holds for all orders.
- The MD5 digest of a request identifier and the JSON text below it are injective on what
  `JSON.stringify` keeps. What it drops is modelled.
- Cursors are a function of the node they point at.
- A school belongs to at most one organization. Subcategory lists are free of duplicates, since
  they are read from a join table. Stored default role names are unique, and roles hold stored
  permissions.
- Objects loaded for a cascade or a merge agree with the database when it starts, and one
  deactivation uses one time.
- Whether the ORM reads `Permission.permission_id` in the `where` of the start-up update as the key
  column of that name or as the property of that name, which the entity stores in the nullable column
  `permission_name` (`src/entities/permission.ts:7-13`), is not settled by the repository. The model
  leaves it open (`Column`) and every result holds for both; `SynchronisedExactly` says what
  depends on it, and `UnnamedPermissionEscapes` shows a permission the two readings treat differently.
- An organization has at most one ownership row, as its table's unique constraint demands.
- Requests run one after the other. Decisions of the permission engine enter the mutations as a
  flag `allowed` or as the set of organizations the caller may edit.

## Where code and documentation differ

The model follows the code.

- `getRequestIdentifier` is said to group keys "that share the same arguments"
  (`src/loaders/childConnectionLoader.ts:113-120`). `objectToKey` passes the top-level property names
  as a whitelist that `JSON.stringify` applies at every depth, so what a filter asks of a field is
  not part of the identifier, and neither is the system column. Two aliases of one connection with
  different conditions on one field are answered with the filter of the first.
  `BatchingIsExact` gives the exact condition.
- An admin can make a role of an organization a system role (`src/entities/role.ts:53-82`), and the
  roles of organizations are ranked by organization (`src/schemas/organization.ts:518-523`), so one
  group can hold system and other rows. Loaded alone, a parent is shown the first system rows of such a
  group; once the organization of the group is in the request too, its other rows are ranked before
  them and the parent can lose them. `BatchRefinesExactly` says exactly when on any database,
  `BatchingIsExactEverywhere` for which batches it never happens, and `SystemChildCanBeLost` shows it
  for any two organizations. The total of such a group is the count of its system or its
  other rows, whichever is counted last, and the system count: `AnswerTotalsArePageable` says when it is
  the number of children all the same, and `TotalCanFallShort` shows one that is not.
- The first page backward is meant to look like offset paging (`src/utils/pagination/paginate.ts:84-88`
  and `125-146`). The child loader fetches one more than the full page size, so with a remainder
  the page is longer than a page: `FirstPageBackwards` and `FirstPageBackwardsExactly` say exactly when,
  `RemainderOverflows` shows one. Shared system children can lengthen any backward page:
  `AloneIsPlainPage` and `AnswerIsPlainPage` say exactly when, `BackwardSharedPageOverflows` shows one.
- Such a page ends with the last child it holds, and the next page back starts there, so a child that
  was cut out of its group before a system child is on no page: `PagingBackwardExactly` says exactly
  when, `PagingBackwardCanLoseChild` shows one. Going forward none is lost.
- `views/permissions.md:14-15` grants users of "classes that you're a member of in those organizations";
  the code takes classes taught, in any organization, once one organization grants the permission:
  `ClassRulesAgree` and, at an input, `DocumentedClassesDiffer`.
- A status change on memberships of an inactive organization passes validation, because only
  active organizations are loaded but none is checked; it updates the database and then fails
  while it reports the organization that was not loaded: `ChangeStatus` says exactly when, and
  `InactiveOrganizationIsAccepted` shows a call.
- A merge of two users without any relation copies details in memory and never saves them, and the
  other user is removed: `MergeConserves` says exactly when, and `DetailsCanBeLost` shows two users.
- `updateCategories` compares a missing organization as `undefined` in one place and as `''` in
  another (`src/resolvers/category.ts:107-118` and `159-181`), so it does not refuse a batch that
  gives one name to two categories without organization: `UpdateKeepsNamesOf` and, at an input,
  `NamesWithoutOrganizationCanMeet`.

## Model

| member | source | states |
|---|---|---|
| `ChildConnectionTheorems.BatchingIsExactEverywhere` | src/loaders/childConnectionLoader.ts:121-180 | on every database a batch answers every key as if the key had been loaded alone, if and only if it is coherent, keys with one identifier having one filter and one system column, and keys of one shared request name one parent |
| `ChildConnectionTheorems.BatchingIsExact` | src/loaders/childConnectionLoader.ts:121-180 | on the databases in which no group mixes system rows with others it does so if and only if it is coherent |
| `ChildConnectionTheorems.BatchRefinesExactly` | src/loaders/childConnectionLoader.ts:144-457 | on any database, the answers a key may get in a coherent batch are those it may get alone if and only if the rows of the other parents cost it nothing: going forward each child of its page, and one more where there is one, is ranked within the window among the fetched rows; going backward every child it is shown alone is |
| `ChildConnectionTheorems.BatchRefinesSingle` | src/loaders/childConnectionLoader.ts:144-457 | where no group mixes system rows with others they cost it nothing, whatever the coherent batch |
| `ChildConnectionTheorems.SystemChildCanBeLost` | src/loaders/childConnectionLoader.ts:345-412 | for any two different parents in one shared request of a coherent batch, a database on which one of them gets a system child when loaded alone and no child in the batch |
| `ChildConnectionTheorems.SameChildrenExactly` | src/loaders/childConnectionLoader.ts:334-412 | the children collected for a parent in a batch are among those collected for it alone, and all of them if and only if each of them has a fetched row visible to the parent whose dense rank among the fetched rows is within the window |
| `ChildConnectionTheorems.FewerParentsShowMore` | src/loaders/childConnectionLoader.ts:228-243 | taking parents out of a request never takes a child from a parent that stays |
| `ChildConnectionTheorems.BatchesConcatenate` | src/loaders/childConnectionLoader.ts:443-456 | loading two batches together, if that is coherent and costs no key anything, gives the answers of the first followed by the answers of the second |
| `ChildConnectionTheorems.SameKeySameAnswer` | src/loaders/childConnectionLoader.ts:161-180 | one key is answered alike in any two coherent batches that cost their keys nothing, whatever the other keys are |
| `ChildConnectionTheorems.ApartIsKept` | src/loaders/childConnectionLoader.ts:144-457 | a coherent batch costs no key anything where no group mixes system rows with others |
| `ChildConnectionTheorems.OneParentIsKept` | src/loaders/childConnectionLoader.ts:228-243 | nor does a batch whose shared requests name one parent each, whatever the groups hold |
| `ChildConnectionTheorems.IncoherentBatch` | src/loaders/childConnectionLoader.ts:121-136 | a batch that puts two different queries under one identifier is answered wrongly on some database that keeps system rows apart |
| `ChildConnectionTheorems.TellApart` | src/loaders/childConnectionLoader.ts:161-180 | for two keys under one identifier that differ in filter or system column, a database of one row, with as many pivot columns as the keys group by, on which the settings of one give the other a wrong page |
| `ChildConnectionTheorems.FilterConditionsAreNotIdentified` | src/utils/stringUtils.ts:72-74 | two filters that put different conditions on one field get one request identifier, so their batch is not coherent |
| `ChildConnectionTheorems.SameChildrenInAnyBatch` | src/loaders/childConnectionLoader.ts:228-243 | where no group mixes system rows with others, the children collected for a parent do not depend on the other parents of the request, although rows of parent combinations nobody asked for pass the filters |
| `ChildConnectionTheorems.SameTotalInAnyBatch` | src/loaders/childConnectionLoader.ts:258-308 | the total a parent is specified to get does not depend on the other parents |
| `ChildConnectionTheorems.SamePossibleTotals` | src/loaders/childConnectionLoader.ts:258-308 | nor do the totals it may get over groups that mix system and other rows |
| `ChildConnectionTheorems.ShownChildren` | src/loaders/childConnectionLoader.ts:334-412 | a child is collected for a parent exactly when one of its fetched rows visible to the parent has, in its group of the fetched rows, a dense rank within the window |
| `ChildConnectionTheorems.RankIsKept` | src/loaders/childConnectionLoader.ts:345-349 | where the groups a parent is shown rows of are shown to it in full, restricting the rows to the requested parents leaves the dense rank of every row it sees |
| `ChildConnectionTheorems.TruncatedGroupsSuffice` | src/loaders/childConnectionLoader.ts:334-412 | on any relation, merging the first k+1 children of each fetched group gives a parent the first k+1 children of the whole relation if and only if each of these has a visible fetched row of dense rank at most k+1 |
| `ChildConnectionTheorems.VisibleGroupsShowFirst` | src/loaders/childConnectionLoader.ts:334-412 | they all do where the groups a parent is shown rows of are shown to it in full, as when it is loaded alone or no group mixes system rows with others |
| `ChildConnectionPages.AnswerIsPlainPage` | src/loaders/childConnectionLoader.ts:414-437 | in any coherent batch and on any database, the page of a key is the page of one plain query over its own and the system children if and only if it is shown what that page shows: going forward, the children of the page and one more where there is one; going backward, the first k+1 children and no other, or, where the page is a full one, the first k and exactly one other |
| `ChildConnectionPages.AloneIsPlainPage` | src/loaders/childConnectionLoader.ts:414-437 | loaded alone, on any database, if and only if the key pages forward or no group of the rows past the cursor ranks a child within the first k+1 that is not among the first k+1 of all; where each system entity sits in one group, if and only if it pages forward, at most k+1 children remain, or only one group remains |
| `ChildConnectionPages.AnswerTellsNeighbours` | src/utils/pagination/paginate.ts:148-204 | in any coherent batch and on any database the page of a key lists the first children it is shown in its order, cut to its size, and going backward all of them in reverse unless they are one more than the cut; hasNextPage going forward and hasPreviousPage going backward say whether more than the cut are shown, the other flag whether a cursor was given, and startCursor and endCursor are those of the first and the last edge |
| `ChildConnectionPages.AnswerTellsOfPlain` | src/utils/pagination/paginate.ts:148-204 | where groups are shown in full, as for a key loaded alone or where no group mixes system and other rows, the flag says whether more children than the cut remain past the cursor in the plain query |
| `ChildConnectionPages.OwnChildrenFit` | src/loaders/childConnectionLoader.ts:334-366 | without system entities a parent never collects more than k+1 children |
| `ChildConnectionPages.CollectedFits` | src/loaders/childConnectionLoader.ts:334-412 | where the groups a parent is shown rows of are shown to it in full, at most n children are collected for it if and only if no group of the rows it is shown past the cursor ranks a child within n that all those rows rank beyond n |
| `ChildConnectionPages.KeepsToFirstExactly` | src/loaders/childConnectionLoader.ts:345-412 | where each system entity sits in one group, that condition means at most n children or a single group |
| `ChildConnectionPages.UncutPageOverflows` | src/utils/pagination/paginate.ts:188-200 | there, going backward, a page that fails the condition holds more edges than the page size |
| `ChildConnectionPages.BackwardSharedPageOverflows` | src/loaders/childConnectionLoader.ts:395-423 | two own and two system children come back as a page of more than one edge for a page size of one, going backward |
| `ChildConnectionWalks.PagingForwardListsEachChildOnce` | src/utils/pagination/paginate.ts:175-187 | on any database, following endCursor from the start while hasNextPage holds ends, and lists every own and system child of the parent exactly once, in order |
| `ChildConnectionWalks.PagingBackwardExactly` | src/utils/pagination/paginate.ts:188-200 | on any database, following startCursor from the start while hasPreviousPage holds ends, and lists every own and system child of the parent exactly once, in order, if and only if no page of the walk shows a child past one it does not show; without a system column none does |
| `ChildConnectionWalks.PagingBackwardCanLoseChild` | src/utils/pagination/paginate.ts:188-200 | with a page size of one, the third of three own children that come before a system child is on no page going backward |
| `ChildConnectionWalks.PastChild` | src/loaders/childConnectionLoader.ts:314-332 | past the cursor of the child at position i exactly the children after it remain |
| `ChildConnectionPages.FirstPageBackwards` | src/utils/pagination/paginate.ts:125-146 | in any coherent batch, on any database and for any total, the first page backward of a key has the edges of the last page of offset paging over its children if and only if it is shown the children of that page and either nothing else, their number not being one more than the adjusted size, or exactly one child more for a page cut to that number |
| `ChildConnectionPages.FirstPageBackwardsExactly` | src/utils/pagination/paginate.ts:125-146 | for an exact total and groups that are shown in full, if and only if the children fit one page, or fill their pages and no group ranks a child within the first k+1 that is not among the first k+1 of all; otherwise the page is longer than a page |
| `ChildConnectionPages.RemainderOverflows` | src/utils/pagination/paginate.ts:125-146 | three children and a page size of two give a first page backward of more than two edges where offset paging ends with one |
| `ChildConnectionPages.OffsetOfLastPage` | src/utils/pagination/paginate.ts:140-143 | the last page of offset paging starts a remainder, or a full page, before the end |
| `ChildConnectionPages.AnswerTotalsArePageable` | src/loaders/childConnectionLoader.ts:258-308 | in any coherent batch and on any database, every total a key may get is the number of distinct children its parent can page through if and only if there is no system column, or every system entity sits in one group and the group of the parent, if it holds system entities, holds as many others |
| `ChildConnectionPages.TotalCanFallShort` | src/loaders/childConnectionLoader.ts:278-308 | a parent whose group holds more than a page of children and one system child can get the total two |
| `ChildConnectionPages.AnswerTotalIsPageable` | src/loaders/childConnectionLoader.ts:258-308 | where no group mixes system and other rows the total a key gets in any coherent batch is that number if and only if every system entity sits in one group and the group of the parent holds none; a total is given exactly when the key asks for one |
| `ChildConnectionPages.CountsArePageable` | src/loaders/childConnectionLoader.ts:258-308 | there the specified total equals that number under the same condition and is never less |
| `ChildRelation.KeptMeaning` | src/loaders/childConnectionLoader.ts:351-365 | a row passes the two window conditions exactly when its dense rank is at most n and it is the first row of its child in its group |
| `ChildRelation.WindowMembers` | src/loaders/childConnectionLoader.ts:360-366 | the window keeps every row up to its repeats whose dense rank is at most n, and no other |
| `ChildRelation.WindowKeepsOrder` | src/loaders/childConnectionLoader.ts:341-366 | the window keeps the requested order |
| `ChildRelation.WindowIsFirstDistinct` | src/loaders/childConnectionLoader.ts:337-366 | the window leaves each parent exactly its first n distinct children, each once and in order, however many duplicates the joins produce |
| `ChildRelation.OwnRowsAreNotRepeated` | src/loaders/childConnectionLoader.ts:378-389 | handing out the own rows of a parent never drops one as a duplicate |
| `ChildRelation.RankBound` | src/loaders/childConnectionLoader.ts:345-349 | a row at position i of an ascending list that shows its whole group has a dense rank of at most i+1 |
| `ChildRelation.RankAtLeast` | src/loaders/childConnectionLoader.ts:345-349 | the last child of an ascending list of one group has a dense rank of at least the length of the list |
| `ConnectionKeys.AdjustPageSize` | src/utils/pagination/paginate.ts:125-146 | the adjusted size is between one and the page size |
| `ConnectionKeys.ForwardPageNeedsOneMore` | src/utils/pagination/paginate.ts:175-187 | a forward page is decided by one more child than it holds and never exceeds the page size |
| `ConnectionKeys.BackwardPageSize` | src/utils/pagination/paginate.ts:188-200 | a backward page exceeds the page size exactly when more than a page was fetched and the fetch did not stop one past the adjusted size |
| `ConnectionKeys.ForwardPagesAgree` | src/utils/pagination/paginate.ts:175-187 | two lists of fetched children give one forward page if and only if they agree on the page and on whether there is more |
| `ConnectionKeys.BackwardPagesAgree` | src/utils/pagination/paginate.ts:188-200 | two lists of fetched children give one backward page if and only if they are one list, or both hold one more than the adjusted size and agree up to it |
| `ConnectionKeys.SameRequest` | src/loaders/childConnectionLoader.ts:121-136 | two keys share a request if and only if they agree in direction, count, cursor, sort, total, pivots, filter keys and what the key of their filter sees, whatever their parents and system columns; they ask one query if and only if they agree in what its rows depend on |
| `ConnectionKeys.SameFilterKey` | src/utils/stringUtils.ts:72-74 | two filters get one key if and only if they name the same fields at the top and hold the same along every path that uses only these names |
| `ConnectionKeys.HasPropertyMeaning` | src/utils/pagination/filtering.ts:239-259 | a filter has a property if and only if nested lists of AND and OR lead to an object with that field |
| `ChildConnectionLoader.LoadChildConnections` | src/loaders/childConnectionLoader.ts:144-457 | one answer per key in the order of the keys, each with the page of the children its request shows its parent and, if asked for, a total its request may give, which is the specified one where no group mixes system and other rows (AnswerTellsNeighbours and AnswerTotalsArePageable say what these are); the whole batch fails exactly when a request filters by its parent column |
| `ChildConnectionLoader.GroupByRequest` | src/loaders/childConnectionLoader.ts:161-180 | each identifier maps to the first key and the parents, in order, of exactly the keys that have it |
| `ChildConnectionLoader.ResolveRequest` | src/loaders/childConnectionLoader.ts:184-440 | a request fails exactly when its filter names a parent column; otherwise every requested parent, and nobody else, gets a page of exactly the children it is shown and, if asked for, a total that only the order of the counted groups leaves open |
| `ChildConnectionLoader.ResolveAll` | src/loaders/childConnectionLoader.ts:182-441 | all requests are resolved, or the batch fails with one of them |
| `ChildConnectionLoader.GroupCounts` | src/loaders/childConnectionLoader.ts:261-277 | one count of distinct children per group that has rows, in no particular order |
| `ChildConnectionLoader.OwnTotals` | src/loaders/childConnectionLoader.ts:278-289 | every parent gets the count of whichever of its groups is counted last, 0 without rows; that is the number of its distinct own children where no group mixes system rows with others |
| `ChildConnectionLoader.SystemTotal` | src/loaders/childConnectionLoader.ts:291-300 | the sum over the system groups is the number of distinct pairs of group and system child |
| `ChildConnectionLoader.TotalCounts` | src/loaders/childConnectionLoader.ts:258-308 | the total of every parent is the count of one of its groups, or 0 without any, plus the system count of a shared query |
| `ChildConnectionLoader.ExactResponse` | src/loaders/childConnectionLoader.ts:258-440 | where no group mixes system and other rows, or no total is asked for, a parent has exactly one possible response |
| `ChildConnectionLoader.ForwardResponse` | src/utils/pagination/paginate.ts:175-187 | all responses a parent may get have one and the same forward page |
| `ChildConnectionLoader.Respond` | src/loaders/childConnectionLoader.ts:414-437 | every requested parent, and no other of the collected ones, gets its total and the page of its children |
| `ChildConnectionLoader.AddChild` | src/loaders/childConnectionLoader.ts:378-389 | a child is appended to the list of its parent unless it is there; a parent nobody asked for gets an empty entry and the child is dropped; other lists stay |
| `ChildConnectionLoader.AddToAll` | src/loaders/childConnectionLoader.ts:395-402 | every list has the system child afterwards, appended where it was missing |
| `ChildConnectionLoader.CollectChildren` | src/loaders/childConnectionLoader.ts:375-412 | every requested parent ends with the distinct children visible to it, in order of first occurrence |
| `ChildConnectionLoader.Scatter` | src/loaders/childConnectionLoader.ts:443-456 | position i of the result is what the request of key i found for its parent |
| `UserPermissions.UserPermissions.HasPermissions` | src/permissions/userPermissions.ts:184-273 | from whatever is memoised about the subject the staged decision is the one the database alone determines, and it leaves only true memories: an API key passes if and only if the permission is a super admin one and is refused otherwise; a user id that is not stored throws and a stored user that is not active is reported inactive; an active user passes if and only if it is an admin asking for a super admin permission, or something is requested and all of it is authorised by what the stored memberships and roles grant; a failure names the user and exactly the requested ids that are not |
| `UserPermissions.DecideIsExact` | src/permissions/userPermissions.ts:195-273 | a non-empty request passes if and only if every school has the permission itself or through a requested organization, and every organization has it or has requested schools that all do; a failure reports exactly the ids that violate this |
| `UserPermissions.DecideMeaning` | src/permissions/userPermissions.ts:195-273 | the decision read off the stored data: a requested school is authorised by an active role with the permission at the school, or at its organization if that is requested; a requested organization by one at the organization, or by its requested schools, of which there is one and all have it |
| `UserPermissions.DecideIsMonotone` | src/permissions/userPermissions.ts:221-272 | enlarging permission sets never turns a pass into a failure |
| `UserPermissions.AuthorisedOrganizationKeepsPass` | src/permissions/userPermissions.ts:221-272 | adding an authorised organization to a passing request keeps it passing |
| `UserPermissions.UserPermissions.DecideInStages` | src/permissions/userPermissions.ts:209-272 | the stages together give the decision that is stated over all ids at once |
| `UserPermissions.UserPermissions.OrganizationStage` | src/permissions/userPermissions.ts:221-239 | leaves the organizations that lack the permission and the schools no authorised requested organization covers |
| `UserPermissions.UserPermissions.SchoolStage` | src/permissions/userPermissions.ts:241-260 | leaves the covered-by-nothing schools that lack the permission and the organizations whose requested schools do not make up for them |
| `UserPermissions.Question.NoAllowedSchools` | src/permissions/userPermissions.ts:252 | when no remaining school is authorised, skipping the last filter changes nothing |
| `UserPermissions.Question.StagesRefuse` | src/permissions/userPermissions.ts:221-260 | filtering stage by stage refuses exactly the ids the rule refuses |
| `UserPermissions.SchoolOrganizationRelations` | src/permissions/userPermissions.ts:551-574 | the two maps relate exactly the requested schools and the requested organizations they belong to, whatever order the rows come in |
| `UserPermissions.UniqueAndTruthy` | src/utils/clean.ts:4-7 | the non-empty ids, each once |
| `UserPermissions.UserPermissions.GetUser` | src/permissions/userPermissions.ts:99-110 | the memoised user is the one the database has |
| `UserPermissions.UserPermissions.OrganizationPermissions` | src/permissions/userPermissions.ts:312-377 | the memoised map is the recomputed one: a key per membership, role-less ones included, mapped to the allowed permissions of its active roles |
| `UserPermissions.UserPermissions.SchoolPermissions` | src/permissions/userPermissions.ts:379-433 | the same of schools, possibly with null among the permissions |
| `UserPermissions.FoldOrganizationRows` | src/permissions/userPermissions.ts:354-374 | the fold is independent of the order of the rows and skips null permissions |
| `UserPermissions.FoldSchoolRows` | src/permissions/userPermissions.ts:414-430 | the fold is independent of the order of the rows and keeps null permissions |
| `UserPermissions.FoldIsPermissionMap` | src/permissions/userPermissions.ts:326-375 | what the fold builds from the joined rows is the permission map of the memberships |
| `UserPermissions.JoinRowsMeaning` | src/permissions/userPermissions.ts:329-353 | the left joins have a row for every membership and one per allowed permission of an active role |
| `UserPermissions.PermissionMapMeaning` | src/permissions/userPermissions.ts:312-433 | the permission maps have the places of the memberships, and at each the permissions that an active role of one of them allows |
| `UserPermissions.UserPermissions.OrganizationsWithPermission` | src/permissions/userPermissions.ts:275-294 | exactly the asked organizations in which the user holds the permission |
| `UserPermissions.UserPermissions.SchoolsWithPermission` | src/permissions/userPermissions.ts:296-310 | exactly the asked schools in which the user holds the permission |
| `UserPermissions.UserPermissions.OrganizationsOfUser` | src/permissions/userPermissions.ts:439-466 | exactly the organizations of the memberships in which all, or any, of the permissions are allowed by an active role, each once; all organizations when nothing is required; an error without a user |
| `UserPermissions.UserPermissions.SchoolsOfUser` | src/permissions/userPermissions.ts:472-500 | the same of schools; a null among the permissions of a school never counts |
| `UserPermissions.QualifiedPlaces` | src/permissions/userPermissions.ts:443-465 | exactly the places whose permissions qualify |
| `UserPermissions.HasRequired` | src/permissions/userPermissions.ts:452-459 | the loop computes "every" for AND and "some" for OR |
| `UserPermissions.AllIsWithinAny` | src/permissions/userPermissions.ts:435-438 | for a non-empty list, AND implies OR |
| `UserMerge.User.RetryMerge` | src/entities/user.ts:506-604 | the merge commits if and only if some attempt fails at no save it makes, a save being made if either user has something for it; then the survivor holds both users, in memory and, if both were loaded from it, in the database, as after one attempt without failures; otherwise the database is untouched and the survivor partly merged |
| `UserMerge.RetriesLeaveNoTrace` | src/entities/user.ts:506-604 | any number of rolled-back attempts before a commit leaves the same result as one successful attempt, although every attempt grows the lists in memory |
| `UserMerge.MergedFromAnywhere` | src/entities/user.ts:677-750 | from every partly merged state a merge ends in the same profile |
| `UserMerge.CommittedAttempt` | src/entities/user.ts:546-588 | the repeated saves of a committed attempt amount to saving the fully merged user once and removing the other |
| `UserMerge.AttemptCommits` | src/entities/user.ts:546-588 | an attempt commits unless it is to fail at a save for which one of the users has a relation |
| `UserMerge.MergeConserves` | src/entities/user.ts:530-588 | for two distinct users the survivor holds every membership and class of either, its own unmodified and the others with the status and roles of their source; the other user is gone and nobody else changes; its gender, user name and date of birth, each if set, replace those of the survivor in memory, and in the database if and only if one of the two had a relation to save |
| `UserMerge.DetailsCanBeLost` | src/entities/user.ts:546-586 | of two users without relations, the gender of the one that is removed is copied in memory and stored nowhere |
| `UserMerge.MergedMembershipsMeaning` | src/entities/user.ts:677-736 | own memberships first and unmodified, one per place, a place for every place of either user |
| `UserMerge.MergedClassesMeaning` | src/entities/user.ts:738-750 | own classes first, each class once, the union of both users |
| `UserMerge.MergeAbsorbs` | src/entities/user.ts:677-736 | merging the same memberships again changes nothing |
| `UserMerge.MembershipsAreConserved` | src/entities/user.ts:623-642 | saving the merged list and removing the memberships of the other user moves exactly the places the survivor did not have |
| `UserMerge.User.MergeMemberships` | src/entities/user.ts:677-736 | the loop computes the merged list |
| `UserMerge.User.MergeClasses` | src/entities/user.ts:738-750 | the loop computes the merged list |
| `UserMerge.User.MergeOnce` | src/entities/user.ts:530-596 | one attempt, failing at any of its saves or none, leaves user and database as specified |
| `Deactivation.Organization.Delete` | src/entities/organization.ts:1733-1761 | after deleting an active organization nothing of it is active, in memory or in the database: not itself, its ownership, its memberships, its schools, their memberships, nor a class attached to one; nothing outside changes and what was not active keeps status and time; when a save or the commit fails the database is as it was and each object as it was or inactivated; an organization that is not active is left alone |
| `Deactivation.Organization.Inactivate` | src/entities/organization.ts:1795-1802 | every object of the cascade is inactivated and nothing outside it changes, also when schools share classes; a failing save leaves each object as it was or inactivated |
| `Deactivation.Organization.InactivateSchools` | src/entities/organization.ts:1773-1781 | the same of the schools with their classes and memberships |
| `Deactivation.Organization.InactivateMembershipsAndOwnership` | src/entities/organization.ts:1763-1793 | the same of the memberships and of the ownership, of which there is at most one |
| `Deactivation.School.Inactivate` | src/entities/school.ts:232-258 | the same of a school, its classes and its memberships |
| `Deactivation.User.Inactivate` | src/entities/user.ts:644-675 | when no save fails neither the user nor a membership of it is active, in memory or in the database, what was active carries the time, and nothing else changes |
| `Deactivation.Entity.Inactivate` | src/entities/customBaseEntity.ts:33-40 | an active object becomes inactive with the time of deactivation and is saved; any other keeps status and time |
| `Deactivation.CascadesCompose` | src/entities/organization.ts:1795-1802 | cascades compose into one over all their objects in either order, and repeating one later changes nothing, not even a time |
| `Categories.RunsKeepNamesUnique` | src/resolvers/category.ts:43-412 | over every run of creations, updates and deactivations no two active categories of one organization share a name |
| `Categories.CreationKeepsNamesUnique` | src/resolvers/category.ts:276-398 | a batch that passes the checks of a creation keeps names unique |
| `Categories.UpdateKeepsNamesOf` | src/resolvers/category.ts:98-240 | a batch that passes the checks of an update keeps the names of the active categories of an owner, an organization or none, unique if and only if it gives no name to two of them |
| `Categories.OrganizationsGiveNamesOnce` | src/resolvers/category.ts:175-191 | the checks of an update rule that out for every organization |
| `Categories.UpdateKeepsNamesUnique` | src/resolvers/category.ts:98-240 | so a batch that passes them keeps names unique in every organization, whichever category the name map happens to hold per name |
| `Categories.NamesAreRefusedOnlyOnConflict` | src/resolvers/category.ts:356-389 | with comma-free organization ids a name is refused only for an earlier input or an active category of the same organization and name |
| `Categories.ValidIsCreatable` | src/resolvers/category.ts:312-389 | with comma-free organization ids the batches that pass the checks of a creation are those of active organizations and subcategories that give no name twice in an organization |
| `Categories.KeyIsInjective` | src/resolvers/category.ts:267-269 | with comma-free ids the joined key tells organization and name apart |
| `Categories.CommasCollide` | src/resolvers/category.ts:267-269 | with a comma in an id two different pairs share a key |
| `Categories.NamesWithoutOrganizationCanMeet` | src/resolvers/category.ts:107-118 | an update that passes the checks and gives two categories without organization one name |
| `Categories.CategoryService.CreateCategories` | src/resolvers/category.ts:254-412 | saves all or nothing: stored under each new id is an active category of the name, organization and exactly the subcategories given, not a system one, and every other category stays; a batch is rejected with one error for every check an input violates; with comma-free organization ids it is saved if and only if organizations and subcategories are active and no name is given twice in an organization |
| `Categories.CategoryService.UpdateCategories` | src/resolvers/category.ts:43-252 | saves all or nothing: each listed category has the given name and list, where given, and keeps the rest, and every other category stays; a batch is rejected with one error for every check an input violates, and saved if and only if every input names another stored active category, gives it something, active subcategories, and a name neither the preloaded one of another nor given before to one of its organization |
| `Categories.ValidateCreation` | src/resolvers/category.ts:312-389 | the errors of an input are exactly the checks it violates |
| `Categories.ValidateUpdate` | src/resolvers/category.ts:129-237 | the errors of an input are exactly the checks it violates |
| `Categories.PreloadNames` | src/resolvers/category.ts:74-103 | every requested name that is taken maps to one of the categories that bear it |
| `CategorySubcategories.RemovalUndoesAddition` | src/resolvers/category.ts:501-711 | adding subcategories and removing the same batch again passes validation and restores every category |
| `CategorySubcategories.AdditionIsRemovable` | src/resolvers/category.ts:501-556 | an accepted addition leaves duplicate-free lists, the old ids followed by the new ones, which a removal of the same batch accepts |
| `CategorySubcategories.PairsAreLists` | src/resolvers/category.ts:903-919 | with comma-free category ids the joined pair key is known exactly when the category lists the subcategory |
| `CategorySubcategories.SpliceOut` | src/resolvers/category.ts:656-707 | the findIndex and splice loop removes exactly the given ids and keeps the order of the rest |
| `CategorySubcategories.CutIsWithout` | src/resolvers/category.ts:700-706 | cutting the first occurrence out of a duplicate-free list removes the id |
| `CategorySubcategories.SubcategoryService.AddSubcategories` | src/resolvers/category.ts:466-569 | saves all new lists or none: each list is the old one followed by the ids of the last entry of its category, and nothing else changes; a batch is refused with exactly the faults of its entries; with comma-free category ids it is saved if and only if categories and subcategories are stored, active, the editor may change them, they are of one organization unless one is a system entity, and the ids are new to the list |
| `CategorySubcategories.SubcategoryService.RemoveSubcategories` | src/resolvers/category.ts:571-723 | saves all new lists or none: each listed category keeps the ids not given, in order, and nothing else changes; a batch is refused with exactly the faults of its entries; with comma-free category ids it is saved if and only if it names stored active categories once each and stored active subcategories of theirs once each |
| `CategorySubcategories.ValidateAddition` | src/resolvers/category.ts:733-852 | the faults of an entry are exactly the conditions it violates |
| `CategorySubcategories.ValidIsAddable` | src/resolvers/category.ts:733-852 | which additions pass validation, read off the stored data |
| `CategorySubcategories.SubcategoryFaults` | src/resolvers/category.ts:807-852 | the faults of one subcategory of an entry |
| `CategorySubcategories.ValidateRemoval` | src/resolvers/category.ts:602-698 | the faults of an entry are exactly the conditions it violates |
| `CategorySubcategories.ValidIsRemovable` | src/resolvers/category.ts:602-698 | which removals pass validation, read off the stored data |
| `MembershipStatus.RunsAreLegal` | src/resolvers/organization.ts:438-623 | over every run memberships persist, a deleted one never changes again, and a user who only ever acted never changed its own |
| `MembershipStatus.CallIsLegal` | src/resolvers/organization.ts:487-537 | one call changes statuses only from active to inactive, back, or to deleted, and never touches the membership of the acting user |
| `MembershipStatus.ReactivationUndoesRemoval` | src/resolvers/organization.ts:559-601 | an accepted removal can be reactivated with the same inputs, which restores every status and keeps the time of removal |
| `MembershipStatus.MembershipService.ChangeStatus` | src/utils/mutations/commonStructure.ts:414-474 | a rejected call changes nothing and reports exactly the faults of its inputs; an accepted one makes every named membership active or deleted with its time kept, or inactive at the time of the call, and changes no other; if one of its organizations is not active it does so and then fails |
| `MembershipStatus.InactiveOrganizationIsAccepted` | src/resolvers/organization.ts:487-517 | a removal from an inactive organization passes validation and changes the membership |
| `MembershipStatus.ValidateInput` | src/resolvers/organization.ts:487-517 | the faults of an input are exactly the conditions it violates; overall faults stop further validation of it |
| `MembershipStatus.ValidIsAcceptable` | src/resolvers/organization.ts:464-537 | a call is accepted if and only if every input names another organization and one to fifty active users, each once and none of them the acting user, whose memberships have a status the operation starts from |
| `MembershipStatus.AcceptedMoves` | src/resolvers/organization.ts:539-607 | what an accepted call leaves: a reactivation Active and a deletion Deleted with the time kept, a removal Inactive with the time of the call, and everything else as it was |
| `MembershipStatus.OverallFaults` | src/resolvers/organization.ts:464-485 | repeated organizations, wrong numbers of users and repeated users, and nothing else |
| `RolesInitializer.RunIsAFixpoint` | src/initializers/roles.ts:14-25 | a second run changes nothing |
| `RolesInitializer.RunKeepsInvariants` | src/initializers/roles.ts:14-25 | a run leaves data another run can start from |
| `RolesInitializer.RunInitialises` | src/initializers/roles.ts:14-158 | after a run the known permissions are allowed under both names and others only if they escape the comparison; each default is stored once, over the system role of no organization that bore its name or under a new id, with exactly its permissions; other system roles stay and custom roles keep what they held that is allowed |
| `RolesInitializer.SynchronisedExactly` | src/initializers/roles.ts:27-79 | after a run allowed means known for every permission if and only if none escapes the comparison of the update; none does when the update compares the key column or both name columns agree |
| `RolesInitializer.AllowedMeansKnown` | src/initializers/roles.ts:68-79 | after a run a permission is allowed exactly when it is known or escapes that comparison |
| `RolesInitializer.UnnamedPermissionEscapes` | src/initializers/roles.ts:68-79 | an unknown allowed permission whose other name column is empty stays allowed if and only if the update compares that column |
| `RolesInitializer.SynchronisingTwice` | src/initializers/roles.ts:27-79 | synchronising permissions twice is synchronising them once |
| `RolesInitializer.DefaultRolesAfterRun` | src/initializers/roles.ts:81-122 | every default role holds exactly its listed permissions |
| `RolesInitializer.OtherRolesAfterRun` | src/initializers/roles.ts:133-158 | a custom role holds exactly what it held of the allowed permissions; other system roles stay |
| `RolesInitializer.CustomRolesKeepKnown` | src/initializers/roles.ts:133-158 | a custom role holds, of what it held, exactly the known permissions and those that escape; exactly the known ones when the update compares the key column or both columns agree |
| `RolesInitializer.DefaultsArePlaced` | src/initializers/roles.ts:92-119 | after a run a default name belongs to one stored role |
| `RolesInitializer.Initializer.Run` | src/initializers/roles.ts:14-25 | the four steps in order leave the specified data; from data a run can start from, the permissions and roles that RunInitialises describes |
| `RolesInitializer.Initializer.CreateSystemPermissions` | src/initializers/roles.ts:32-66 | the permission loop is an upsert of every known name, allowed and under both name columns |
| `RolesInitializer.Initializer.CreateDefaultRoles` | src/initializers/roles.ts:81-122 | each default role is written over the stored one of its name or created |
| `RolesInitializer.Initializer.RemoveInactivePermissionsFromCustomRoles` | src/initializers/roles.ts:133-158 | exactly the custom roles with a disallowed permission are rewritten |
| `RolesInitializer.FindDefaults` | src/initializers/roles.ts:92-103 | every default name with a stored system role maps to such a role |
| `RoleReplacement.RoleService.ReplaceRole` | src/model.ts:504-619 | the memberships of the organization, and of its schools, that hold the old role have the new one instead, their other roles in order and no new repeat, and nothing else changes, if and only if the caller may, the request is a mutation on an active organization with a system role or one of its own, and somebody holds the old role; a request that is refused, with all and at least one of its faults, or finds nobody, changes nothing |
| `RoleReplacement.ReplacingEndsTheOldRole` | src/model.ts:558-618 | with two different roles nobody in the organization holds the old one afterwards, so repeating the request finds nothing |
| `RoleReplacement.ReplaceInMeaning` | src/model.ts:604-613 | a rewritten list has the new role, every other role but the old one, and no new duplicate |
| `RoleReplacement.UpdateRoles` | src/model.ts:604-613 | a rewritten list has the new role, every other role but the old one in its old order, and no duplicate that was not there before |
| `RoleReplacement.ReplaceAll` | src/model.ts:614-617 | each listed membership is rewritten once and no other changes |
| `RoleReplacement.FaultsOf` | src/model.ts:515-556 | the reported faults are exactly the conditions violated |
| `RoleReplacement.Holders` | src/model.ts:558-602 | exactly the memberships that hold the old role are loaded |
| `UserVisibility.ScopeUsers` | src/directives/isAdmin.ts:244-371 | the query selects exactly the stored users that are the viewer itself, have its email or phone if it has no user name, are members of an organization visible in full, of a school of the viewer in an organization that lets it see school users and is not visible in full, or of a class the viewer teaches if any organization lets it see class users; for a viewer that holds its permissions as a member, and data where schoolmates share the organization of their school, that is everyone visible by the four rules in full |
| `UserVisibility.SkippingLosesNobody` | src/directives/isAdmin.ts:257-281 | skipping the schools of organizations that are visible in full loses no user for any such viewer if and only if, of two members of a school, one of them a member of the organization of the school, so is the other |
| `UserVisibility.SchoolmateCanBeLost` | src/directives/isAdmin.ts:276-281 | at data outside that condition a schoolmate is not found |
| `UserVisibility.ClassRulesAgree` | views/permissions.md:14-15 | the code and the documented class rule agree on a viewer, whoever else is in the classes, if and only if the classes it teaches, if it holds the permission anywhere, are the classes it belongs to in the organizations that grant it |
| `UserVisibility.DocumentedClassesDiffer` | src/directives/isAdmin.ts:310-333 | a viewer who is shown the students of a class it teaches in an organization that grants nothing, and not those of one it studies in; in a class it teaches there both rules agree, and for a class it is not in neither shows anybody |
| `UserVisibility.SchoolQueries` | src/directives/isAdmin.ts:283-307 | the school query finds exactly the members of the schools of the viewer in the given organizations |
| `UserVisibility.OrganizationQueries` | src/directives/isAdmin.ts:261-275 | the organization query finds exactly the members of the organizations that are visible in full |
| `UserVisibility.ClassQueries` | src/directives/isAdmin.ts:310-333 | the class queries find exactly the students and teachers of the classes the viewer teaches |

## Left out

- ChildConnectionLoader.LoadChildConnections: a total over groups that mix system and other rows is one of those the order of the counted groups allows, since the database gives that order; every one of them is possible, and a first page backward is specified for whichever it is.
- CategorySubcategories.RemovalUndoesAddition: for batches with distinct categories, distinct subcategories per entry and comma-free category ids; the addition does not check the first two, and with repeats the last entry of a category wins.
- UserMerge.MergeConserves: for two distinct users; merging a user with itself is not guarded against and would remove it.
- UserMerge.User.RetryMerge: failures at or after the removal of the other user, where the ORM may have cleared ids in memory, and the way the retry decorator counts its attempts are not part of this model; `RetriesLeaveNoTrace` holds for any number of attempts.
- UserPermissions.UserPermissions.HasPermissions: for a series of calls about one user; the memoised maps are not keyed by user.
- Membership shortcodes in a merge, which are not copied.
- The single-key wrapper `childConnectionLoader`, mapping entities to nodes, cursor encoding, and the composition of SQL with its `OR` for system entities: the model starts from the rows that pass.
- Primary columns other than the child id, and a batch that mixes them.
- Failures of the database while saving categories or subcategory lists, which are reported and change nothing.
- Times beyond the one a deactivation or removal writes; `updated_at` of categories.
- Inheritance of stored entities, modelled as a part each entity has.
- Classes attached to no school, which deleting an organization does not touch.
- `DeleteCategories`, the class mutations and `AddUsersToOrganizations`, which repeat the patterns above or depend on ORM upserts.
- The school and class scopes of non-admins; the school scope tests whether a school has any member, not whether the viewer is one.
- Concurrency between service instances, GraphQL wiring, tokens, file upload, logging and migrations.

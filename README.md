# Kanban backend: a Dafny model of the role model, the membership state machine, the position sequencer and the section filters

This project models the core of a Laravel Kanban backend in Dafny 4. A project has one owner (its `user_id`) and a pivot table of members with roles. It holds sections, which are board columns, and each section holds items. The model covers:

- **Role model** (`ProjectPolicy`, `ItemPolicy`, `SectionPolicy`, `TagPolicy`). A user's effective role is computed from the project's `user_id` and the pivot row. Every capability check is a pure predicate over that role. Each one is proved equivalent to a role-set statement, and lemmas relate the checks to each other.
- **Membership and ownership transfer** (`ProjectRepository`, `TransferOwnershipRequest`).
  - The `Project` class holds the owner and the pivot rows and updates them in place. Each method is specified by a pure transition on a `ProjectAccess` snapshot.
  - Lemmas state which transitions keep the pivot table consistent with `user_id` and which break it.
  - The transfer request's validator is shown to let through exactly the existing members who are not the owner, and the repository's transfer succeeds for each of them. The repository also accepts a transfer to the current owner, as a no-op; the request refuses it.
- **Position sequencer** (`SectionRepository`, the create/reorder half of `ItemRepository`).
  - Tables are classes over a `seq` of rows. `create` appends at max+1. `reorder` first checks the id list with the source's count guard, then renumbers in a loop.
  - For a list that names every row once, the returned listing is proved to be in list order at positions 1..n.
  - Lemmas show what the guard lets through: partial lists, whose renumbered rows then collide with the unlisted ones.
- **Section filter engine** (`SectionFilter`, the listing half of `ItemRepository`).
  - `filteredItems` is a filter followed by a position sort, with one lemma per filter type. Those lemmas capture PHP's `empty()` on "0" and digit-string ids.
  - `getAllForSection` adds the ad-hoc filters and the item limit. It covers the `assigned_to` "null"/`0` cases and the tag filter's all-tags count, under which a repeated tag id matches nothing.
  - `syncTags` and the non-transactional create/update flows are included: a tag failure after the item is written leaves the write in place.
- **Section update validation** (`UpdateSectionRequest`). It models the field rules and the `after` hook that checks `filter_value` against the effective filter type. The hook is a run of early returns that adds at most one error.
- **Role-relabelling migration** (`RoleMigration`). `up` and `down` are each three in-place `UPDATE`s of the pivot's role column, using a temporary label. They are proved equivalent to per-label maps. The maps are proved to be inverse on the old and the new enums, and to change nothing but the role.

Shared pieces: `Domain` (entities and enums), `Scalars` (PHP `empty()`, `ctype_digit`, digit-string values, `strtolower`) and `Positions` (filter, stable position sort, limit, max+1, the count guard, and the lemma that a sorted covering run of positions is 1..n).

## Model

| member | source | states |
|---|---|---|
| Domain.ParseFilterType | app/Http/Requests/UpdateSectionRequest.php:28 | a string is read back as a filter type only when it is that type's code |
| Domain.FilterTypeCodeRoundTrip | app/Http/Requests/UpdateSectionRequest.php:28 | every filter type's code parses back to that type |
| ProjectPolicy.GetRole | app/Policies/ProjectPolicy.php:34-41 | the project's `user_id` is always owner; any other user has their pivot role, or none without a pivot row |
| ProjectPolicy.View | app/Policies/ProjectPolicy.php:46-50 | viewing is allowed exactly for the owner and users with a pivot row |
| ProjectPolicy.Update | app/Policies/ProjectPolicy.php:56-60 | allowed exactly for the owner or a pivot admin |
| ProjectPolicy.Delete | app/Policies/ProjectPolicy.php:66-69 | allowed exactly for the owner or a user whose pivot role says owner |
| ProjectPolicy.AddMember | app/Policies/ProjectPolicy.php:75-79 | allowed exactly for the owner or a pivot admin |
| ProjectPolicy.UpdateMemberRole | app/Policies/ProjectPolicy.php:87-106 | owner/admin only, never on the project owner, and never an admin on themself |
| ProjectPolicy.RemoveMember | app/Policies/ProjectPolicy.php:114-128 | owner/admin only and never on the project owner; an admin may remove themself |
| ProjectPolicy.Leave | app/Policies/ProjectPolicy.php:134-145 | everyone but the project owner may leave |
| ProjectPolicy.TransferOwnership | app/Policies/ProjectPolicy.php:151-154 | only the project's `user_id`, who then has role owner |
| ProjectPolicy.CanManageProjectContent | app/Policies/ProjectPolicy.php:160-164 | allowed exactly for the owner, admins and editors |
| ProjectPolicy.OwnerCapabilities | app/Policies/ProjectPolicy.php:34-38 | whatever the pivot rows say, the owner holds every capability except leaving |
| ProjectPolicy.OutsiderCapabilities | app/Policies/ProjectPolicy.php:34-164 | a non-member who is not the owner may do nothing except leave |
| ProjectPolicy.CapabilityChain | app/Policies/ProjectPolicy.php:46-79 | delete implies update, update implies managing content, managing content implies view, and add-member equals update |
| ProjectPolicy.EditorAndMemberLimits | app/Policies/ProjectPolicy.php:46-164 | editors and members may view but never update, delete, manage members or transfer; only editors may manage content |
| ProjectPolicy.AdminSelfAsymmetry | app/Policies/ProjectPolicy.php:101-127 | an admin may remove themself but may not change their own role |
| ProjectPolicy.OwnerOnlyWhenConsistent | app/Policies/ProjectPolicy.php:66-69 | with a consistent pivot table, deleting and transferring are exactly the owner's |
| ProjectPolicy.StrayOwnerRowDeletes | app/Policies/ProjectPolicy.php:40 | a pivot row saying owner on another user grants deletion but not transfer |
| ItemPolicy.ViewAny | app/Policies/ItemPolicy.php:17-20 | exactly the project's viewers |
| ItemPolicy.View | app/Policies/ItemPolicy.php:25-28 | exactly the project's viewers |
| ItemPolicy.Create | app/Policies/ItemPolicy.php:33-36 | exactly the project's owner or admins |
| ItemPolicy.Update | app/Policies/ItemPolicy.php:41-44 | the item's creator, or the project's owner or admins |
| ItemPolicy.Delete | app/Policies/ItemPolicy.php:49-55 | the same test as update |
| ItemPolicy.EditorsTouchOnlyTheirOwnItems | app/Policies/ItemPolicy.php:41-55 | an editor or member may change or delete an item exactly when they created it |
| ItemPolicy.CreatorOutlivesMembership | app/Policies/ItemPolicy.php:41-55 | a creator with no role left keeps update and delete rights but cannot view |
| ItemPolicy.CreateImpliesFullControl | app/Policies/ItemPolicy.php:17-55 | whoever may create items may view, update and delete every item |
| SectionPolicy.View | app/Policies/SectionPolicy.php:28-31 | exactly the project's viewers |
| SectionPolicy.Update | app/Policies/SectionPolicy.php:47-50 | exactly the project's owner or admins |
| SectionPolicy.Delete | app/Policies/SectionPolicy.php:57-64 | exactly the project's owner or admins |
| SectionPolicy.AdminDeletesSectionsNotProject | app/Policies/SectionPolicy.php:57-64 | an admin may delete sections but not the project |
| SectionPolicy.ContentRolesOnlyRead | app/Policies/SectionPolicy.php:28-64 | editors and members may view sections but not update or delete them |
| TagPolicy.ViewAny | app/Policies/TagPolicy.php:18-21 | exactly the project's viewers |
| TagPolicy.View | app/Policies/TagPolicy.php:27-30 | exactly the project's viewers |
| TagPolicy.Create | app/Policies/TagPolicy.php:36-39 | exactly the project's owner or admins |
| TagPolicy.Update | app/Policies/TagPolicy.php:45-48 | exactly the project's owner or admins |
| TagPolicy.Delete | app/Policies/TagPolicy.php:54-57 | exactly the project's owner or admins |
| TagPolicy.Restore | app/Policies/TagPolicy.php:62-65 | never allowed |
| TagPolicy.ForceDelete | app/Policies/TagPolicy.php:70-73 | never allowed |
| TagPolicy.TagRightsFollowProject | app/Policies/TagPolicy.php:18-57 | create, update and delete coincide with project update; view coincides with project view |
| ProjectRepository.Project.constructor | app/Repositories/ProjectRepository.php:47-53 | the creator is the owner and holds the only pivot row, as owner, so the table is consistent |
| ProjectRepository.Project.AddMember | app/Repositories/ProjectRepository.php:164-177 | refuses an existing member; otherwise attaches the row; the new state is the add-member transition |
| ProjectRepository.Project.UpdateMemberRole | app/Repositories/ProjectRepository.php:184-204 | refuses a non-member, and refuses any role but owner for the project owner; otherwise rewrites the role |
| ProjectRepository.Project.RemoveMember | app/Repositories/ProjectRepository.php:210-230 | refuses the owner and non-members; otherwise detaches the row |
| ProjectRepository.Project.UserLeaveProject | app/Repositories/ProjectRepository.php:236-255 | the same transition as removing |
| ProjectRepository.Project.TransferOwnership | app/Repositories/ProjectRepository.php:262-299 | an unknown user or a non-member fails with the state unchanged; otherwise the state is the transfer transition |
| ProjectRepository.Create | app/Repositories/ProjectRepository.php:43-74 | makes the creator owner and appends exactly the three default sections, which become the project's whole board |
| ProjectRepository.DefaultsListed | app/Repositories/ProjectRepository.php:56-64 | after create, the project's sections listed by position are the three appended rows |
| ProjectRepository.DefaultBoard | app/Repositories/ProjectRepository.php:56-64 | rows at positions 1, 2, 3 in a project without other sections list as exactly those rows, in order |
| ProjectRepository.AddMemberKeepsOwnership | app/Repositories/ProjectRepository.php:164-177 | adding a non-owner role keeps the pivot table consistent with `user_id` and refuses existing members |
| ProjectRepository.UpdateRoleKeepsOwnership | app/Repositories/ProjectRepository.php:184-204 | a change to any role but owner keeps ownership consistent and never alters the owner's row |
| ProjectRepository.UpdateRoleToOwnerBreaksOwnership | app/Repositories/ProjectRepository.php:184-198 | giving a member the owner role succeeds and leaves two owner rows |
| ProjectRepository.DetachKeepsOwnership | app/Repositories/ProjectRepository.php:210-255 | removing or leaving never detaches the owner and otherwise removes exactly one row |
| ProjectRepository.TransferKeepsOwnership | app/Repositories/ProjectRepository.php:262-299 | a transfer succeeds exactly for an existing member; the new owner alone says owner and the old owner becomes admin |
| ProjectRepository.TransferToOwnerIsIdentity | app/Repositories/ProjectRepository.php:276-291 | the repository accepts a transfer to the current owner and changes nothing |
| ProjectRepository.TransferRoundTrip | app/Repositories/ProjectRepository.php:262-299 | handing ownership to a member and back restores the owner; the member is left an admin |
| TransferOwnershipRequest.OwnerRule | app/Http/Requests/Api/TransferOwnershipRequest.php:38-51 | at most one error, and none exactly for a member who is not the owner |
| TransferOwnershipRequest.Validate | app/Http/Requests/Api/TransferOwnershipRequest.php:33-53 | a missing id fails `required` only; an unknown user gets the exists error, and the closure still runs |
| TransferOwnershipRequest.ValidateAcceptsExactly | app/Http/Requests/Api/TransferOwnershipRequest.php:33-53 | a request passes exactly for an existing member who is not the owner; each closure error holds exactly in its case |
| TransferOwnershipRequest.ValidatedTransferSucceeds | app/Http/Requests/Api/TransferOwnershipRequest.php:33-53 | behind a passing request the repository's transfer succeeds and really moves ownership |
| TransferOwnershipRequest.SelfTransferOnlyStoppedByRequest | app/Http/Requests/Api/TransferOwnershipRequest.php:40-43 | a transfer to oneself is refused by the request, while the repository would accept it as a no-op |
| Positions.Sort | app/Repositories/SectionRepository.php:21 | `orderBy('position')`: sorted, and a permutation of its input |
| Positions.NextAfterMax | app/Repositories/SectionRepository.php:35 | `max('position') + 1`: above every position; 1 on an empty set, otherwise one past the maximum |
| Positions.Take | app/Repositories/ItemRepository.php:62-64 | `limit(n)`: the first n rows when n is positive and smaller than the count, otherwise all |
| Positions.CountMatchesMeaning | app/Repositories/SectionRepository.php:98-102 | the count guard accepts exactly a duplicate-free list of the parent's ids |
| Positions.DenseOrder | app/Repositories/SectionRepository.php:106-113 | a position-sorted run whose positions cover 1..n and whose ids sit at their list slots is the list at positions 1..n |
| SectionRepository.ProjectSections | app/Repositories/SectionRepository.php:17-27 | the project's sections, sorted by position, as a permutation of its rows |
| SectionRepository.NextId | app/Repositories/SectionRepository.php:37 | a fresh id, above every stored id |
| SectionRepository.NewRow | app/Repositories/SectionRepository.php:32-48 | position one past the project's maximum (1 when empty); filter type defaults to none; value and limit are copied |
| SectionRepository.SetPosition | app/Repositories/SectionRepository.php:107-109 | one `UPDATE`: only the project's row with that id gets the position |
| SectionRepository.Reordered | app/Repositories/SectionRepository.php:106-110 | the whole loop: each row renumbered by the list |
| SectionRepository.SectionTable.constructor | app/Repositories/SectionRepository.php:12 | an empty table |
| SectionRepository.SectionTable.Insert | app/Repositories/SectionRepository.php:37-43 | appends the row under a fresh id |
| SectionRepository.SectionTable.Create | app/Repositories/SectionRepository.php:32-48 | appends the new row computed from the project's rows |
| SectionRepository.SectionTable.Reorder | app/Repositories/SectionRepository.php:93-118 | on a failed guard nothing changes; otherwise the rows are renumbered by the loop and the project's sections are returned by position |
| SectionRepository.RenumberStep | app/Repositories/SectionRepository.php:106-110 | one loop step renumbers exactly the k-th listed id |
| SectionRepository.ReorderedOnlyMovesListed | app/Repositories/SectionRepository.php:106-110 | reorder changes only positions, and only of listed rows of this project |
| SectionRepository.ReorderedKeepsIds | app/Repositories/SectionRepository.php:106-110 | ids stay unique and the project's id set is unchanged |
| SectionRepository.ReorderRejectsDuplicates | app/Repositories/SectionRepository.php:98-102 | a list with a repeated id fails the guard |
| SectionRepository.ReorderRejectsForeignIds | app/Repositories/SectionRepository.php:98-102 | a list naming a section of another project fails the guard |
| SectionRepository.SectionCount | app/Repositories/SectionRepository.php:113 | with unique ids, the listing has one row per project id |
| SectionRepository.ListedPosition | app/Repositories/SectionRepository.php:106-110 | after a full reorder each of the project's sections sits at its list index plus one |
| SectionRepository.ReturnedPositions | app/Repositories/SectionRepository.php:113 | every returned section sits at the list slot of its id |
| SectionRepository.ListedSlotsTaken | app/Repositories/SectionRepository.php:113 | every position 1..n is taken by a returned section |
| SectionRepository.ReorderAcceptsArrangement | app/Repositories/SectionRepository.php:98-102 | a duplicate-free list of all the project's ids passes the guard |
| SectionRepository.ReorderIsDense | app/Repositories/SectionRepository.php:93-118 | after such a reorder the listing is the list itself, at positions 1..n |
| SectionRepository.SectionListOrder | app/Repositories/SectionRepository.php:93-118 | the same, for the listing passed in |
| SectionRepository.SectionsInListOrder | app/Repositories/SectionRepository.php:113 | a sorted listing whose rows sit at their slots and cover 1..n is in list order |
| SectionRepository.SectionRun | app/Repositories/SectionRepository.php:113 | the listing's positions are nondecreasing and each sits at its id's slot |
| SectionRepository.SectionRunCovers | app/Repositories/SectionRepository.php:113 | the listing's positions cover 1..n |
| SectionRepository.PartialReorderCollides | app/Repositories/SectionRepository.php:98-110 | a list naming only some sections passes the guard and leaves two sections at position 1 |
| SectionRepository.CreateAppendsLast | app/Repositories/SectionRepository.php:32-43 | a created section comes last in the project's order |
| SectionRepository.AboveAllSortsLast | app/Repositories/SectionRepository.php:35 | a row above all of the project's positions sorts last |
| SectionFilter.FilteredItems | app/Models/Section.php:47-67 | the section's items that match its filter, sorted by position; membership is exactly section and match |
| SectionFilter.UnfilteredSectionShowsAll | app/Models/Section.php:49-66 | type none or date, or a falsy value: all of the section's items, by position |
| SectionFilter.StatusSectionKeeps | app/Models/Section.php:51-52 | exactly the items with that status; an unknown status keeps none |
| SectionFilter.PrioritySectionKeeps | app/Models/Section.php:53-54 | exactly the items with that priority |
| SectionFilter.AssigneeSectionKeeps | app/Models/Section.php:55-56 | exactly the items assigned to the user the value names |
| SectionFilter.TagSectionKeeps | app/Models/Section.php:57-60 | exactly the items carrying the tag the value names |
| SectionFilter.NonNumericValueKeepsNothing | app/Models/Section.php:55-60 | an assignee or tag value that is not a digit string keeps nothing |
| ItemRepository.AssigneeClauseOf | app/Repositories/ItemRepository.php:35-41 | "null" in any case, or the integer 0, means unassigned; a positive integer, or a digit string with a positive value, selects the user it names; a missing filter, a negative number, the string "0" and any other text add no clause |
| ItemRepository.ZeroOnlyAsNumberMeansUnassigned | app/Repositories/ItemRepository.php:36 | the integer 0 selects unassigned items; the string "0" filters nothing |
| ItemRepository.TagParamId | app/Repositories/ItemRepository.php:44 | an integer is kept exactly when it is positive, as itself; a string is kept exactly when it is a digit string with a positive value, as the id it names |
| ItemRepository.KeptTagIds | app/Repositories/ItemRepository.php:44 | one id per kept element, in order and with repetitions, each the id its element stands for |
| ItemRepository.KeptTagIdsExactly | app/Repositories/ItemRepository.php:44 | an id is kept exactly when some element of the filter stands for it, and every kept id is positive |
| ItemRepository.AllMatching | app/Repositories/ItemRepository.php:21-59 | sorted by position; exactly the section's matching items that also pass the ad-hoc filters |
| ItemRepository.ItemLimit | app/Repositories/ItemRepository.php:62 | positive exactly when the section's limit is set and positive |
| ItemRepository.GetAllForSection | app/Repositories/ItemRepository.php:21-67 | a prefix of the matching items; all of them without a limit, otherwise the limit or fewer |
| ItemRepository.AdHocAfterSectionView | app/Repositories/ItemRepository.php:24-51 | the listing is the section's own view narrowed by the ad-hoc filters |
| ItemRepository.UnfilteredListingIsSectionView | app/Http/Controllers/Api/ItemController.php:37 | with no filters and no limit, the listing is the section's own view |
| ItemRepository.LimitKeepsLowest | app/Repositories/ItemRepository.php:59-64 | the limit keeps the lowest positions |
| ItemRepository.HasAllTagsMeaning | app/Repositories/ItemRepository.php:45-50 | with distinct ids, the count test means the item carries every id |
| ItemRepository.RepeatedTagMatchesNothing | app/Repositories/ItemRepository.php:45-50 | a repeated tag id makes the count test fail for every item |
| ItemRepository.ListingIsSound | app/Repositories/ItemRepository.php:21-67 | every listed item is in the section's view and passes the ad-hoc filters, in position order |
| ItemRepository.Patched | app/Repositories/ItemRepository.php:132 | each of the six patchable columns (title, description, due date, priority, status, assignee) takes the given value when the patch carries one and keeps its value otherwise; id, section, position, creator and tags are kept |
| ItemRepository.PatchLaws | app/Repositories/ItemRepository.php:132 | an empty patch changes nothing, and patching twice equals patching once |
| ItemRepository.TagSync | app/Repositories/ItemRepository.php:197-221 | succeeds exactly when every id is one of the project's tags, with those ids; otherwise fails naming exactly the foreign ids |
| ItemRepository.WithTags | app/Repositories/ItemRepository.php:216 | only the item's tag set changes |
| ItemRepository.WithPatch | app/Repositories/ItemRepository.php:132 | only the item with that id is patched |
| ItemRepository.NextItemId | app/Repositories/ItemRepository.php:86 | a fresh id, above every stored id |
| ItemRepository.NewItemRow | app/Repositories/ItemRepository.php:84-96 | position one past the section's maximum; priority defaults to medium and status to todo; no tags yet |
| ItemRepository.SetItemPosition | app/Repositories/ItemRepository.php:179-181 | one `UPDATE`: only the section's row with that id gets the position |
| ItemRepository.ItemsReordered | app/Repositories/ItemRepository.php:177-182 | the whole loop: each row renumbered by the list |
| ItemRepository.Listed | app/Repositories/ItemRepository.php:186 | the listed items of the section, sorted by position |
| ItemRepository.ItemReorderGuard | app/Repositories/ItemRepository.php:170-173 | the guard as written rejects exactly what the count guard rejects, that is, lists with a repeat or a foreign id |
| ItemRepository.ItemTable.constructor | app/Repositories/ItemRepository.php:86 | an empty table |
| ItemRepository.ItemTable.Insert | app/Repositories/ItemRepository.php:86-96 | appends the row under a fresh id |
| ItemRepository.ItemTable.SyncTags | app/Repositories/ItemRepository.php:197-221 | the outcome is the tag check, and tags change only on success |
| ItemRepository.ItemTable.Create | app/Repositories/ItemRepository.php:74-108 | without a user, fails with no change; otherwise the row is appended, and a failing tag sync leaves it in place without tags |
| ItemRepository.ItemTable.Update | app/Repositories/ItemRepository.php:129-144 | the patch is applied; with `tag_ids` (null meaning none) the tags are synced, and a failing sync keeps the patch |
| ItemRepository.ItemTable.Reorder | app/Repositories/ItemRepository.php:167-192 | on a failed guard nothing changes; otherwise the loop's renumbering, then the listed items by position |
| ItemRepository.WithTagsFresh | app/Repositories/ItemRepository.php:98-100 | syncing the tags of a just-appended row sets only that row's tags |
| ItemRepository.PatchedTagsKept | app/Repositories/ItemRepository.php:132-137 | re-syncing the tags a patched row already has changes nothing |
| ItemRepository.ItemRenumberStep | app/Repositories/ItemRepository.php:177-182 | one loop step renumbers exactly the k-th listed id |
| ItemRepository.ItemsReorderedKeepIds | app/Repositories/ItemRepository.php:177-182 | reorder changes only positions of listed rows; ids stay unique |
| ItemRepository.ListedItemPosition | app/Repositories/ItemRepository.php:177-182 | each listed item sits at its list index plus one |
| ItemRepository.ListedCount | app/Repositories/ItemRepository.php:186 | the listing has one row per listed id |
| ItemRepository.ReturnedItemPositions | app/Repositories/ItemRepository.php:186 | every returned item sits at the list slot of its id |
| ItemRepository.ListedSlotsFilled | app/Repositories/ItemRepository.php:186 | every position 1..n is taken by a returned item |
| ItemRepository.ReorderReturnsListOrder | app/Repositories/ItemRepository.php:167-192 | after an accepted reorder the returned items are the list itself, at positions 1..n |
| ItemRepository.ListOrderOf | app/Repositories/ItemRepository.php:167-192 | the same, for the listing passed in |
| ItemRepository.ItemsInListOrder | app/Repositories/ItemRepository.php:186 | a sorted listing whose rows sit at their slots and cover 1..n is in list order |
| ItemRepository.ItemRun | app/Repositories/ItemRepository.php:186 | the listing's positions are nondecreasing and each sits at its id's slot |
| ItemRepository.ItemRunCovers | app/Repositories/ItemRepository.php:186 | the listing's positions cover 1..n |
| ItemRepository.CreatedItemComesLast | app/Repositories/ItemRepository.php:84-96 | a created item comes last among its section's items by position |
| ItemRepository.AboveAllComesLast | app/Repositories/ItemRepository.php:84 | an item above all of its section's positions sorts last |
| UpdateSectionRequest.Input | app/Http/Requests/UpdateSectionRequest.php:49 | `input()` has a value exactly when the field is given |
| UpdateSectionRequest.RuleFailures | app/Http/Requests/UpdateSectionRequest.php:24-32 | absent fields never fail; `name` passes exactly when absent, or given with a character besides whitespace and at most 255 characters; `filter_type` passes exactly when absent or given as one of the six codes, so a null type fails; `item_limit` exactly for null or at least 1; `filter_value` up to 1000 characters |
| UpdateSectionRequest.KnownFilterType | app/Http/Requests/UpdateSectionRequest.php:28 | the `in` list is exactly the six filter types' codes |
| UpdateSectionRequest.CheckedType | app/Http/Requests/UpdateSectionRequest.php:48 | the request's type when given, the section's current type when absent |
| UpdateSectionRequest.AfterHook | app/Http/Requests/UpdateSectionRequest.php:40-76 | at most one error; none without either field, and none for an absent, null or empty value; each error only under its type and its failed check |
| UpdateSectionRequest.MissingTypeUsesCurrent | app/Http/Requests/UpdateSectionRequest.php:44-54 | leaving the type out gives the same result as sending the section's current type |
| UpdateSectionRequest.TagValueChecked | app/Http/Requests/UpdateSectionRequest.php:64-68 | a tag value passes exactly when it is a digit string naming an existing tag; otherwise exactly one tag error |
| UpdateSectionRequest.AssigneeValueChecked | app/Http/Requests/UpdateSectionRequest.php:69-73 | an assignee value passes exactly when it is a digit string naming an existing user; otherwise exactly one user error |
| UpdateSectionRequest.DateValueChecked | app/Http/Requests/UpdateSectionRequest.php:59-63 | a date value passes exactly when it is valid JSON |
| UpdateSectionRequest.UncheckedTypes | app/Http/Requests/UpdateSectionRequest.php:58-74 | status, priority, none, null and unknown types are not content-checked |
| UpdateSectionRequest.AcceptedValueNamesOneId | app/Http/Requests/UpdateSectionRequest.php:64-73 | an accepted tag or assignee value names exactly one existing id |
| UpdateSectionRequest.BlankNameRejected | app/Http/Requests/UpdateSectionRequest.php:27 | a whitespace-only name fails `required`; a name with one other character passes |
| UpdateSectionRequest.PassingTypeIsKnown | app/Http/Requests/UpdateSectionRequest.php:28 | a passing request that sends a type sends one of the six |
| RoleMigration.Relabeled | database/migrations/2025_05_19_195542_modify_project_user_role_enum_and_data.php:16-18 | one `UPDATE ... WHERE role = from` rewrites exactly the rows holding `from` |
| RoleMigration.MapRoles | database/migrations/2025_05_19_195542_modify_project_user_role_enum_and_data.php:16-26 | each row's role passed through the map, the rest of the row kept |
| RoleMigration.Pairs | database/migrations/2025_05_19_195542_modify_project_user_role_enum_and_data.php:16-26 | one (project, user) pair per row |
| RoleMigration.ProjectUserTable.constructor | database/migrations/2025_05_19_195542_modify_project_user_role_enum_and_data.php:15 | the table holds the given rows |
| RoleMigration.ProjectUserTable.Relabel | database/migrations/2025_05_19_195542_modify_project_user_role_enum_and_data.php:16-18 | the in-place loop leaves exactly the relabelled table |
| RoleMigration.ProjectUserTable.Up | database/migrations/2025_05_19_195542_modify_project_user_role_enum_and_data.php:13-32 | the three statements apply the up map to every row and keep every (project, user) pair |
| RoleMigration.ProjectUserTable.Down | database/migrations/2025_05_19_195542_modify_project_user_role_enum_and_data.php:37-56 | the three statements apply the down map to every row and keep every (project, user) pair |
| RoleMigration.UpIsThreeSteps | database/migrations/2025_05_19_195542_modify_project_user_role_enum_and_data.php:16-26 | the three up statements in a row amount to the up map |
| RoleMigration.DownIsThreeSteps | database/migrations/2025_05_19_195542_modify_project_user_role_enum_and_data.php:40-50 | the three down statements in a row amount to the down map |
| RoleMigration.OnlyRolesChange | database/migrations/2025_05_19_195542_modify_project_user_role_enum_and_data.php:16-50 | rewriting roles keeps the row count and every (project, user) pair |
| RoleMigration.UpRelabels | database/migrations/2025_05_19_195542_modify_project_user_role_enum_and_data.php:16-28 | viewer becomes member, member becomes editor, owner and admin stay, and the old enum maps one to one into the new |
| RoleMigration.DownRelabels | database/migrations/2025_05_19_195542_modify_project_user_role_enum_and_data.php:40-52 | member becomes viewer, editor becomes member, owner and admin stay, and the new enum maps into the old |
| RoleMigration.UpLandsInRoleEnum | database/migrations/2025_05_19_195542_modify_project_user_role_enum_and_data.php:28 | every old label lands on a code of the new role enum |
| RoleMigration.NoTempAfterUp | database/migrations/2025_05_19_195542_modify_project_user_role_enum_and_data.php:24-26 | no row holds `_temp_viewer_` after up |
| RoleMigration.UpThenDownRestores | database/migrations/2025_05_19_195542_modify_project_user_role_enum_and_data.php:16-50 | down undoes up on a table whose roles are from {owner, admin, member, viewer} |
| RoleMigration.DownThenUpRestores | database/migrations/2025_05_19_195542_modify_project_user_role_enum_and_data.php:16-50 | up undoes down on a table whose roles are from {owner, admin, editor, member} |
| RoleMigration.RestoreNeedsOldLabels | database/migrations/2025_05_19_195542_modify_project_user_role_enum_and_data.php:16-50 | a row already labelled `_temp_viewer_` or `editor` does not come back unchanged from up then down |

## Left out

- Persistence mechanics are not modelled: eager loading, `loadRelationships`, `fresh`, pagination, logging, cascade deletes, and the `ALTER TABLE` statements of the migration (lines 28-30 and 52-54). Tables are sequences of rows held by classes.
- The role column's type during the migration's data steps is not modelled. Labels are free strings, so whether the database accepts `_temp_viewer_` and `editor` before the enum is altered is outside the model.
- `Auth::user()`, the translator `__()`, `json_validate`, and the `tags`/`users` tables are parameters: an optional user, a name function, a JSON predicate, and sets of ids.
- Transactions and concurrency are not modelled. Each operation runs alone. A failing transfer leaves the state unchanged, as its transaction would.
- PHP's loose typing is modelled only where it changes a branch: `empty()` on "0", `=== 0` against the string "0" and `ctype_digit`.
- ItemRepository.TagParamId: keeps integers and digit strings only. PHP's `is_numeric` also accepts a sign, surrounding whitespace, a fraction or an exponent ("+5", " 5", "5 ", "1e2", "2.5"). Such an element gets a tag clause in the source and none in the model.
- MySQL semantics are not modelled. String comparison is exact (no case-insensitive collation). A column compared with a non-digit string is not coerced to a number, so such a value matches nothing.
- `ProjectUser::ROLE_*` constants are not defined in app/Models/ProjectUser.php. Roles are the four values of the enum written by the migration at line 28, and repository roles are typed as that enum, not as free strings.
- Auto-increment ids are modelled as one past the largest stored id.
- SectionRepository.SectionTable.Reorder: the id list is a JSON array, so its keys are 0..n-1 and each position is the list index plus one. The `array` rule also accepts a JSON object, whose keys the loop would use as positions (`{"1": 10, "0": 11}` puts 10 at position 2). Object-shaped lists are not modelled, and neither are the per-element `integer` and `exists` rules of the reorder request.
- ItemRepository.ItemTable.Reorder: the same restriction; the item id list is a JSON array with keys 0..n-1.
- The reorder guard's `count($sections)` is modelled as the size of the set of listed ids found among the parent's rows.
- ItemRepository.ItemTable.Update: an explicit null for `status` or `priority` is not modelled; the patch can only set those columns to a value. The method takes the stored row as its argument.
- The ties of `orderBy('position')` are broken by the stable sort over table order. SQL leaves that order unspecified.
- Read-only repository lookups are not modelled: `getAllForUser`, `findById`, `getProjectWithAllDetails` and `getUserProjectList`. `getFilteredItemsForProject`, called at app/Http/Controllers/Api/ItemController.php:111, is not defined in app/Repositories/ItemRepository.php and is not part of this model. Neither are project update/delete and section/item update/delete, which are single framework calls with no logic of their own.
- Validation beyond the modelled rules is not modelled: the `string` rule on non-string input and the `integer` rule on non-integer input. Request fields arrive typed: strings for text, an integer for `item_limit`.
- Request strings are taken as they reach validation, after the global TrimStrings and ConvertEmptyStringsToNull middleware (bootstrap/app.php keeps Laravel's default stack). A blank value arrives as null, and no value carries surrounding whitespace. So the model does not cover the validator skipping non-implicit rules such as `string` and `in` for an empty string: `FilterTypeFails(Given(""))` is the behaviour behind that middleware, not the bare rule.
- `UpdateSectionRequest::authorize` always returns true and is not modelled; authorization is the section policy.

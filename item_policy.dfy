/** Who may act on the items of a project: every check defers to the parent project's
    policy, with one extra door for updating and deleting: the item's own creator. */
module ItemPolicy {
  import opened Domain
  import PP = ProjectPolicy

  /** Listing the items of a section needs read access to the section's project. */
  function ViewAny(user: UserId, project: ProjectAccess): (r: bool)
    ensures r <==> user == project.owner || user in project.members
  {
    PP.View(user, project)
  }

  function View(user: UserId, item: Item, project: ProjectAccess): (r: bool)
    ensures r <==> user == project.owner || user in project.members
  {
    PP.View(user, project)
  }

  /** Creating an item needs update rights on the project: owner or admin. */
  function Create(user: UserId, project: ProjectAccess): (r: bool)
    ensures r <==> PP.HoldsRole(user, project, {Owner, Admin})
  {
    PP.Update(user, project)
  }

  /** The item's creator, or anyone who may update the project. */
  function Update(user: UserId, item: Item, project: ProjectAccess): (r: bool)
    ensures r <==> user == item.creator || PP.HoldsRole(user, project, {Owner, Admin})
  {
    user == item.creator || PP.Update(user, project)
  }

  /** The same test as updating. */
  function Delete(user: UserId, item: Item, project: ProjectAccess): (r: bool)
    ensures r <==> user == item.creator || PP.HoldsRole(user, project, {Owner, Admin})
  {
    user == item.creator || PP.Update(user, project)
  }

  /** Editors and members may change or delete an item exactly when they created it; the
      editor's "manage content" capability of the project policy is not consulted. */
  lemma EditorsTouchOnlyTheirOwnItems(user: UserId, item: Item, project: ProjectAccess)
    requires user != project.owner && user in project.members
    requires project.members[user] in {Editor, Member}
    ensures Update(user, item, project) <==> user == item.creator
    ensures Delete(user, item, project) <==> user == item.creator
    ensures View(user, item, project) && !Create(user, project)
  {
  }

  /** The creator keeps update and delete rights even without any role in the project,
      for instance after leaving it or being removed. */
  lemma CreatorOutlivesMembership(item: Item, project: ProjectAccess)
    requires item.creator != project.owner && item.creator !in project.members
    ensures Update(item.creator, item, project) && Delete(item.creator, item, project)
    ensures !View(item.creator, item, project) && !Create(item.creator, project)
  {
  }

  /** Whoever may create items may also change and delete every item, and may read them. */
  lemma CreateImpliesFullControl(user: UserId, item: Item, project: ProjectAccess)
    requires Create(user, project)
    ensures Update(user, item, project) && Delete(user, item, project)
    ensures View(user, item, project) && ViewAny(user, project)
  {
  }
}

/** Who may act on a project's tags: reading follows the project's view check, every
    change its update check, and soft-delete restoration is closed to everyone. */
module TagPolicy {
  import opened Domain
  import PP = ProjectPolicy

  function ViewAny(user: UserId, project: ProjectAccess): (r: bool)
    ensures r <==> user == project.owner || user in project.members
  {
    PP.View(user, project)
  }

  function View(user: UserId, project: ProjectAccess): (r: bool)
    ensures r <==> user == project.owner || user in project.members
  {
    PP.View(user, project)
  }

  function Create(user: UserId, project: ProjectAccess): (r: bool)
    ensures r <==> PP.HoldsRole(user, project, {Owner, Admin})
  {
    PP.Update(user, project)
  }

  function Update(user: UserId, project: ProjectAccess): (r: bool)
    ensures r <==> PP.HoldsRole(user, project, {Owner, Admin})
  {
    PP.Update(user, project)
  }

  function Delete(user: UserId, project: ProjectAccess): (r: bool)
    ensures r <==> PP.HoldsRole(user, project, {Owner, Admin})
  {
    PP.Update(user, project)
  }

  function Restore(user: UserId, project: ProjectAccess): (r: bool)
    ensures !r
  {
    false
  }

  function ForceDelete(user: UserId, project: ProjectAccess): (r: bool)
    ensures !r
  {
    false
  }

  /** Any tag change is open exactly to the project's owner and admins, the same people who
      may edit the project; reading is open to every member. */
  lemma TagRightsFollowProject(user: UserId, project: ProjectAccess)
    ensures Create(user, project) == Update(user, project) == Delete(user, project)
    ensures Create(user, project) <==> PP.Update(user, project)
    ensures Create(user, project) ==> View(user, project)
    ensures View(user, project) == ViewAny(user, project) == PP.View(user, project)
  {
  }
}

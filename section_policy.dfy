/** Who may act on a section: reading follows the project's view check, changing and
    deleting follow its update check. */
module SectionPolicy {
  import opened Domain
  import PP = ProjectPolicy

  function View(user: UserId, section: Section, project: ProjectAccess): (r: bool)
    ensures r <==> user == project.owner || user in project.members
  {
    PP.View(user, project)
  }

  function Update(user: UserId, section: Section, project: ProjectAccess): (r: bool)
    ensures r <==> PP.HoldsRole(user, project, {Owner, Admin})
  {
    PP.Update(user, project)
  }

  /** Deleting a section asks for update rights on the project, not for its delete right:
      admins may delete sections although they may not delete the project. */
  function Delete(user: UserId, section: Section, project: ProjectAccess): (r: bool)
    ensures r <==> PP.HoldsRole(user, project, {Owner, Admin})
  {
    PP.Update(user, project)
  }

  /** An admin may delete every section while the project itself is the owner's to delete. */
  lemma AdminDeletesSectionsNotProject(user: UserId, section: Section, project: ProjectAccess)
    requires user != project.owner && user in project.members && project.members[user] == Admin
    ensures Delete(user, section, project) && !PP.Delete(user, project)
  {
  }

  /** Editors and members may read a section but never change or delete it. */
  lemma ContentRolesOnlyRead(user: UserId, section: Section, project: ProjectAccess)
    requires user != project.owner && user in project.members
    requires project.members[user] in {Editor, Member}
    ensures View(user, section, project)
    ensures !Update(user, section, project) && !Delete(user, section, project)
  {
  }
}

/** The role model: a user's effective role in a project and the capability checks of the
    project policy, each a pure predicate over that role and user ids. */
module ProjectPolicy {
  import opened Domain

  /** The user's role: the project's `user_id` is always owner; otherwise the pivot row's
      role; no role for a user without a pivot row. */
  function GetRole(user: UserId, a: ProjectAccess): (r: Option<Role>)
    ensures user == a.owner ==> r == Some(Owner)
    ensures user != a.owner ==> (r.Some? <==> user in a.members)
    ensures user != a.owner && user in a.members ==> r == Some(a.members[user])
  {
    if user == a.owner then Some(Owner)
    else if user in a.members then Some(a.members[user])
    else None
  }

  /** `in_array($role, $roles)`: a missing role is in no list. */
  predicate RoleIn(r: Option<Role>, roles: set<Role>)
  {
    r.Some? && r.value in roles
  }

  /** Holds of the project owner and of any user whose pivot role is one of `roles`. */
  ghost predicate HoldsRole(user: UserId, a: ProjectAccess, roles: set<Role>)
  {
    user == a.owner || (user in a.members && a.members[user] in roles)
  }

  function View(user: UserId, a: ProjectAccess): (r: bool)
    ensures r <==> user == a.owner || user in a.members
  {
    var role := GetRole(user, a);
    assert role.Some? ==> role.value.Owner? || role.value.Admin? || role.value.Editor? || role.value.Member?;
    RoleIn(role, {Owner, Admin, Editor, Member})
  }

  function Update(user: UserId, a: ProjectAccess): (r: bool)
    ensures r <==> HoldsRole(user, a, {Owner, Admin})
  {
    RoleIn(GetRole(user, a), {Owner, Admin})
  }

  function Delete(user: UserId, a: ProjectAccess): (r: bool)
    ensures r <==> HoldsRole(user, a, {Owner})
  {
    GetRole(user, a) == Some(Owner)
  }

  function AddMember(user: UserId, a: ProjectAccess): (r: bool)
    ensures r <==> HoldsRole(user, a, {Owner, Admin})
  {
    RoleIn(GetRole(user, a), {Owner, Admin})
  }

  /** Owner or admin only; never on the project owner; an admin never on themself. */
  function UpdateMemberRole(user: UserId, a: ProjectAccess, target: UserId): (r: bool)
    ensures r <==> HoldsRole(user, a, {Owner, Admin}) && target != a.owner
                   && (user == target ==> HoldsRole(user, a, {Owner}))
  {
    var actorRole := GetRole(user, a);
    var targetRole := GetRole(target, a);
    if !RoleIn(actorRole, {Owner, Admin}) then false
    else if target == a.owner && targetRole == Some(Owner) then false
    else if actorRole == Some(Admin) && user == target then false
    else true
  }

  /** Owner or admin only; never on the project owner. Unlike UpdateMemberRole there is no
      check that stops an admin from removing themself. */
  function RemoveMember(user: UserId, a: ProjectAccess, target: UserId): (r: bool)
    ensures r <==> HoldsRole(user, a, {Owner, Admin}) && target != a.owner
  {
    var actorRole := GetRole(user, a);
    var targetRole := GetRole(target, a);
    if !RoleIn(actorRole, {Owner, Admin}) then false
    else if target == a.owner && targetRole == Some(Owner) then false
    else true
  }

  /** Everyone but the project owner may leave, members or not. */
  function Leave(user: UserId, a: ProjectAccess): (r: bool)
    ensures r <==> user != a.owner
  {
    if user == a.owner then false else true
  }

  function TransferOwnership(user: UserId, a: ProjectAccess): (r: bool)
    ensures r ==> GetRole(user, a) == Some(Owner)
    ensures r <==> user == a.owner
  {
    user == a.owner
  }

  function CanManageProjectContent(user: UserId, a: ProjectAccess): (r: bool)
    ensures r <==> HoldsRole(user, a, {Owner, Admin, Editor})
  {
    RoleIn(GetRole(user, a), {Owner, Admin, Editor})
  }

  /** The pivot table agrees with `user_id`: the owner's row says owner and no other row
      does. */
  ghost predicate OwnerConsistent(a: ProjectAccess)
  {
    && a.owner in a.members
    && a.members[a.owner] == Owner
    && forall u :: u in a.members && u != a.owner ==> a.members[u] != Owner
  }

  /** The owner holds every capability whatever the pivot rows say, except leaving. */
  lemma OwnerCapabilities(a: ProjectAccess, m: map<UserId, Role>)
    ensures var b := ProjectAccess(a.owner, m);
      && GetRole(a.owner, b) == Some(Owner)
      && View(a.owner, b) && Update(a.owner, b) && Delete(a.owner, b) && AddMember(a.owner, b)
      && TransferOwnership(a.owner, b) && CanManageProjectContent(a.owner, b)
      && !Leave(a.owner, b)
  {
  }

  /** A user with no pivot row who is not the owner can do nothing but "leave". */
  lemma OutsiderCapabilities(user: UserId, a: ProjectAccess, target: UserId)
    requires user != a.owner && user !in a.members
    ensures GetRole(user, a).None?
    ensures !View(user, a) && !Update(user, a) && !Delete(user, a) && !AddMember(user, a)
    ensures !UpdateMemberRole(user, a, target) && !RemoveMember(user, a, target)
    ensures !TransferOwnership(user, a) && !CanManageProjectContent(user, a)
    ensures Leave(user, a)
  {
  }

  /** The capabilities form a chain: delete, update, manage content, view. */
  lemma CapabilityChain(user: UserId, a: ProjectAccess)
    ensures Delete(user, a) ==> Update(user, a)
    ensures Update(user, a) ==> CanManageProjectContent(user, a)
    ensures CanManageProjectContent(user, a) ==> View(user, a)
    ensures Update(user, a) == AddMember(user, a)
  {
  }

  /** Editors and members may view and, editors only, manage content, but never update,
      delete, manage members or transfer ownership. */
  lemma EditorAndMemberLimits(user: UserId, a: ProjectAccess, target: UserId)
    requires user != a.owner && user in a.members && a.members[user] in {Editor, Member}
    ensures View(user, a) && !Update(user, a) && !Delete(user, a) && !AddMember(user, a)
    ensures !UpdateMemberRole(user, a, target) && !RemoveMember(user, a, target)
    ensures !TransferOwnership(user, a)
    ensures CanManageProjectContent(user, a) <==> a.members[user] == Editor
  {
  }

  /** An admin may remove their own membership but not change their own role. */
  lemma AdminSelfAsymmetry(user: UserId, a: ProjectAccess)
    requires user != a.owner && user in a.members && a.members[user] == Admin
    ensures RemoveMember(user, a, user)
    ensures !UpdateMemberRole(user, a, user)
  {
  }

  /** When the pivot table agrees with `user_id`, deleting the project and transferring it
      are both exactly the owner's. */
  lemma OwnerOnlyWhenConsistent(user: UserId, a: ProjectAccess)
    requires OwnerConsistent(a)
    ensures Delete(user, a) <==> user == a.owner
    ensures Delete(user, a) == TransferOwnership(user, a)
  {
  }

  /** A pivot row saying "owner" on someone other than `user_id` grants deletion: only
      the consistency invariant keeps the two sources of ownership from diverging. */
  lemma StrayOwnerRowDeletes(user: UserId, a: ProjectAccess)
    requires user != a.owner && user in a.members && a.members[user] == Owner
    ensures Delete(user, a) && !TransferOwnership(user, a)
  {
  }
}

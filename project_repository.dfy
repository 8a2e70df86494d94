/** The membership and ownership-transfer state machine of a project: the project's
    `user_id` column together with its rows of the project/user pivot, and the repository
    operations that change them. Each operation is specified by a pure transition on a
    `ProjectAccess` snapshot; the `Project` class performs it in place. */
module ProjectRepository {
  import opened Domain
  import opened Positions
  import PP = ProjectPolicy
  import SR = SectionRepository

  /** Why a transfer of ownership aborts (and its transaction rolls back). */
  datatype TransferError = NewOwnerNotFound | NewOwnerNotMember

  /** addMember: refuses a user who already has a pivot row, otherwise attaches one. */
  function AddMemberTo(a: ProjectAccess, user: UserId, role: Role): (bool, ProjectAccess)
  {
    if user in a.members then (false, a)
    else (true, a.(members := a.members[user := role]))
  }

  /** updateMemberRole: refuses a user without a pivot row, and refuses to give the
      project owner any role but owner; otherwise rewrites the pivot row's role. */
  function UpdateRoleOf(a: ProjectAccess, user: UserId, role: Role): (bool, ProjectAccess)
  {
    if user !in a.members then (false, a)
    else if a.owner == user && role != Owner then (false, a)
    else (true, a.(members := a.members[user := role]))
  }

  /** removeMember and userLeaveProject: refuse the project owner and a user without a
      pivot row; otherwise detach the row. */
  function Detach(a: ProjectAccess, user: UserId): (bool, ProjectAccess)
  {
    if a.owner == user then (false, a)
    else if user !in a.members then (false, a)
    else (true, a.(members := a.members - {user}))
  }

  /** transferOwnership: the new owner must be a user and a member; the project's
      `user_id` moves to them, their pivot row says owner, and the previous owner's row,
      if there is one and they are someone else, says admin. */
  function Transfer(a: ProjectAccess, newOwner: UserId, users: set<UserId>): Result<ProjectAccess, TransferError>
  {
    if newOwner !in users then Failure(NewOwnerNotFound)
    else if newOwner !in a.members then Failure(NewOwnerNotMember)
    else
      var m := a.members[newOwner := Owner];
      var m' := if a.owner != newOwner && a.owner in m then m[a.owner := Admin] else m;
      Success(ProjectAccess(newOwner, m'))
  }

  /** A project: its `user_id` and its pivot rows. */
  class Project {
    const id: ProjectId
    var owner: UserId
    var members: map<UserId, Role>

    function Access(): ProjectAccess
      reads this
    {
      ProjectAccess(owner, members)
    }

    /** The creator owns the new project and holds the only pivot row, as owner. */
    constructor (id: ProjectId, creator: UserId)
      ensures this.id == id
      ensures Access() == ProjectAccess(creator, map[creator := Owner])
      ensures PP.OwnerConsistent(Access())
    {
      this.id := id;
      owner := creator;
      members := map[creator := Owner];
    }

    method AddMember(user: UserId, role: Role) returns (ok: bool)
      modifies this
      ensures (ok, Access()) == AddMemberTo(old(Access()), user, role)
    {
      if user in members {
        return false;
      }
      members := members[user := role];
      ok := true;
    }

    method UpdateMemberRole(user: UserId, role: Role) returns (ok: bool)
      modifies this
      ensures (ok, Access()) == UpdateRoleOf(old(Access()), user, role)
    {
      if user !in members {
        return false;
      }
      if owner == user && role != Owner {
        return false;
      }
      members := members[user := role];
      ok := true;
    }

    method RemoveMember(user: UserId) returns (ok: bool)
      modifies this
      ensures (ok, Access()) == Detach(old(Access()), user)
    {
      if owner == user {
        return false;
      }
      if user !in members {
        return false;
      }
      members := members - {user};
      ok := true;
    }

    method UserLeaveProject(user: UserId) returns (ok: bool)
      modifies this
      ensures (ok, Access()) == Detach(old(Access()), user)
    {
      if owner == user {
        return false;
      }
      if user !in members {
        return false;
      }
      members := members - {user};
      ok := true;
    }

    /** `users` is the set of ids in the users table. A failure leaves the project as it
        was: the whole transfer runs in one transaction. */
    method TransferOwnership(newOwner: UserId, users: set<UserId>) returns (r: Result<ProjectAccess, TransferError>)
      modifies this
      ensures r == Transfer(old(Access()), newOwner, users)
      ensures r.Success? ==> Access() == r.value
      ensures r.Failure? ==> Access() == old(Access())
    {
      if newOwner !in users {
        return Failure(NewOwnerNotFound);
      }
      if newOwner !in members {
        return Failure(NewOwnerNotMember);
      }
      var oldOwner := owner;
      owner := newOwner;
      members := members[newOwner := Owner];
      if oldOwner != newOwner && oldOwner in members {
        members := members[oldOwner := Admin];
      }
      r := Success(Access());
    }
  }

  /** The three sections every new project starts with: status filters on todo,
      in_progress and done at positions 1, 2 and 3. `name` translates a message key. */
  function DefaultSection(k: nat, p: ProjectId, name: string -> string): (s: Section)
    requires k < 3
  {
    var key := ["kanban.default_section_todo", "kanban.default_section_in_progress", "kanban.default_section_done"][k];
    var status := [Todo, InProgress, Done][k];
    Section(0, p, name(key), k + 1, StatusFilter, Some(StatusCode(status)), None)
  }

  /** Creates project `id` for `creator`, makes the creator its owner and inserts the
      three default sections. The new project has no sections before. */
  method Create(id: ProjectId, creator: UserId, sections: SR.SectionTable, name: string -> string)
      returns (project: Project)
    requires sections.Valid()
    requires forall s :: s in sections.rows ==> s.projectId != id
    modifies sections
    ensures fresh(project) && project.id == id
    ensures project.Access() == ProjectAccess(creator, map[creator := Owner])
    ensures sections.Valid()
    ensures |sections.rows| == |old(sections.rows)| + 3
    ensures sections.rows[..|old(sections.rows)|] == old(sections.rows)
    ensures forall k :: 0 <= k < 3 ==>
      sections.rows[|old(sections.rows)| + k] == DefaultSection(k, id, name).(id := sections.rows[|old(sections.rows)| + k].id)
    ensures SR.ProjectSections(sections.rows, id) == sections.rows[|old(sections.rows)|..]
  {
    project := new Project(id, creator);
    ghost var before := sections.rows;
    for k := 0 to 3
      invariant project.Access() == ProjectAccess(creator, map[creator := Owner])
      invariant sections.Valid()
      invariant |sections.rows| == |before| + k
      invariant sections.rows[..|before|] == before
      invariant forall j :: 0 <= j < k ==>
        sections.rows[|before| + j] == DefaultSection(j, id, name).(id := sections.rows[|before| + j].id)
    {
      var s := sections.Insert(DefaultSection(k, id, name));
    }
    DefaultsListed(before, sections.rows, id, name);
  }

  /** The rows that `Create` leaves behind list the three defaults as the project's board. */
  lemma DefaultsListed(before: seq<Section>, rows: seq<Section>, id: ProjectId, name: string -> string)
    requires forall s :: s in before ==> s.projectId != id
    requires |rows| == |before| + 3 && rows[..|before|] == before
    requires forall k :: 0 <= k < 3 ==>
      rows[|before| + k] == DefaultSection(k, id, name).(id := rows[|before| + k].id)
    ensures SR.ProjectSections(rows, id) == rows[|before|..]
  {
    var added := rows[|before|..];
    forall k | 0 <= k < 3 ensures added[k].projectId == id && added[k].position == k + 1 {
      assert added[k] == rows[|before| + k];
      var d := DefaultSection(k, id, name);
      assert d.projectId == id && d.position == k + 1;
    }
    DefaultBoard(before, added, id);
    assert rows == before + added;
  }

  /** A project whose only sections are rows at positions 1, 2, 3, in that order, lists
      exactly those rows. */
  lemma {:induction false} DefaultBoard(before: seq<Section>, added: seq<Section>, p: ProjectId)
    requires forall s :: s in before ==> s.projectId != p
    requires |added| == 3
    requires forall k :: 0 <= k < 3 ==> added[k].projectId == p && added[k].position == k + 1
    ensures SR.ProjectSections(before + added, p) == added
  {
    var mine := SR.OfProject(p);
    assert Filter(before, mine) == [] by {
      FilterAllOrNone(before, mine);
    }
    assert Filter(added, mine) == added by {
      FilterAllOrNone(added, mine);
    }
    assert Filter(before + added, mine) == added by {
      FilterAppend(before, added, mine);
    }
    assert SortedBy(added, SectionPosition);
    SortSorted(added, SectionPosition);
  }

  /** Adding a member with a role other than owner keeps `user_id` and the pivot table in
      agreement; a second add of the same user is refused and changes nothing. */
  lemma AddMemberKeepsOwnership(a: ProjectAccess, user: UserId, role: Role, role2: Role)
    requires PP.OwnerConsistent(a) && role != Owner
    ensures var (ok, b) := AddMemberTo(a, user, role);
      && PP.OwnerConsistent(b)
      && (ok <==> user != a.owner && !PP.View(user, a))
      && (ok ==> PP.View(user, b) && PP.GetRole(user, b) == Some(role))
      && AddMemberTo(b, user, role2) == (false, b)
  {
  }

  /** A role change to anything but owner keeps ownership consistent, and never touches the
      owner: on them it is refused, unless the role is owner, which changes nothing. */
  lemma UpdateRoleKeepsOwnership(a: ProjectAccess, user: UserId, role: Role)
    requires PP.OwnerConsistent(a)
    ensures var (ok, b) := UpdateRoleOf(a, user, role);
      && (role != Owner ==> PP.OwnerConsistent(b))
      && (user == a.owner ==> b == a)
      && (ok <==> user in a.members && (user == a.owner ==> role == Owner))
      && b.owner == a.owner && b.members.Keys == a.members.Keys
  {
  }

  /** Giving the owner role to another member through a role change leaves two pivot rows
      saying owner: only the request layer's list of roles keeps it out. */
  lemma UpdateRoleToOwnerBreaksOwnership(a: ProjectAccess, user: UserId)
    requires PP.OwnerConsistent(a) && user in a.members && user != a.owner
    ensures var (ok, b) := UpdateRoleOf(a, user, Owner);
      ok && !PP.OwnerConsistent(b) && PP.Delete(user, b) && !PP.TransferOwnership(user, b)
  {
    var b := UpdateRoleOf(a, user, Owner).1;
    assert user in b.members && user != b.owner && b.members[user] == Owner;
  }

  /** Removing or leaving never detaches the owner, and otherwise detaches exactly the one
      user; ownership stays consistent. */
  lemma DetachKeepsOwnership(a: ProjectAccess, user: UserId)
    requires PP.OwnerConsistent(a)
    ensures var (ok, b) := Detach(a, user);
      && PP.OwnerConsistent(b)
      && (ok <==> user != a.owner && user in a.members)
      && b.owner == a.owner
      && (ok ==> b.members.Keys == a.members.Keys - {user} && !PP.View(user, b))
      && (!ok ==> b == a)
  {
    var b := Detach(a, user).1;
    if user != a.owner && user in a.members {
      assert forall x :: x in b.members <==> x in a.members && x != user;
      assert b.members.Keys == a.members.Keys - {user};
    }
  }

  /** A transfer succeeds exactly for an existing user who is a member; it moves ownership
      and keeps it consistent, demotes the previous owner to admin, and leaves everyone
      else's role and the set of members as they were. */
  lemma {:induction false} TransferKeepsOwnership(a: ProjectAccess, newOwner: UserId, users: set<UserId>)
    requires PP.OwnerConsistent(a)
    ensures Transfer(a, newOwner, users).Success? <==> newOwner in users && newOwner in a.members
    ensures var r := Transfer(a, newOwner, users);
      r.Success? ==>
        && PP.OwnerConsistent(r.value)
        && r.value.owner == newOwner
        && r.value.members.Keys == a.members.Keys
        && (newOwner != a.owner ==> r.value.members[a.owner] == Admin)
        && (forall u :: u in a.members && u != a.owner && u != newOwner ==> r.value.members[u] == a.members[u])
  {
    var r := Transfer(a, newOwner, users);
    if r.Success? {
      var b := r.value;
      forall u | u in b.members && u != b.owner ensures b.members[u] != Owner {
        if u == a.owner {
          assert b.members[u] == Admin;
        } else {
          assert b.members[u] == a.members[u];
        }
      }
    }
  }

  /** Transferring to the current owner is accepted by the repository and changes nothing
      when ownership is consistent. */
  lemma TransferToOwnerIsIdentity(a: ProjectAccess, users: set<UserId>)
    requires PP.OwnerConsistent(a) && a.owner in users
    ensures Transfer(a, a.owner, users) == Success(a)
  {
    assert a.members[a.owner := Owner] == a.members;
  }

  /** Handing ownership to a member and back restores the original owner; the member who
      held it in between is left an admin. */
  lemma {:induction false} TransferRoundTrip(a: ProjectAccess, other: UserId, users: set<UserId>)
    requires PP.OwnerConsistent(a)
    requires other in a.members && other != a.owner
    requires other in users && a.owner in users
    ensures Transfer(a, other, users).Success?
    ensures Transfer(Transfer(a, other, users).value, a.owner, users)
            == Success(ProjectAccess(a.owner, a.members[other := Admin]))
  {
    var b := Transfer(a, other, users).value;
    assert b.members == a.members[other := Owner][a.owner := Admin];
    var c := Transfer(b, a.owner, users).value;
    assert c.members == b.members[a.owner := Owner][other := Admin];
    assert c.members == a.members[other := Admin];
  }
}

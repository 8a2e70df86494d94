/** The migration that relabels the `role` column of the project/user pivot: `up` turns
    the old roles {owner, admin, member, viewer} into the new {owner, admin, editor,
    member} (viewer becomes member, member becomes editor) and `down` reverses it. Each
    direction is three `UPDATE ... WHERE role = ...` statements in a row; a temporary label
    keeps the first relabelled rows apart from the ones the second statement rewrites. */
module RoleMigration {
  import opened Domain

  /** A row of `project_user`; the role is a free label while the data is rewritten. */
  datatype PivotRow = PivotRow(projectId: ProjectId, userId: UserId, role: string)

  const TempViewer := "_temp_viewer_"
  const TempMemberToViewer := "_temp_member_to_viewer_"

  /** The role enum before `up` (and after `down`) and after `up`. */
  const OldLabels: set<string> := {"owner", "admin", "member", "viewer"}
  const NewLabels: set<string> := {"owner", "admin", "editor", "member"}

  /** `UPDATE project_user SET role = to WHERE role = from`, on one row. */
  function RelabelRow(row: PivotRow, from: string, to: string): PivotRow
  {
    if row.role == from then row.(role := to) else row
  }

  /** The same statement on the whole table. */
  function Relabeled(rows: seq<PivotRow>, from: string, to: string): (r: seq<PivotRow>)
    ensures |r| == |rows|
    ensures forall i :: 0 <= i < |rows| ==> r[i] == RelabelRow(rows[i], from, to)
  {
    seq(|rows|, i requires 0 <= i < |rows| => RelabelRow(rows[i], from, to))
  }

  /** Every row's role passed through `f`, the rest of each row kept. */
  function MapRoles(rows: seq<PivotRow>, f: string -> string): (r: seq<PivotRow>)
    ensures |r| == |rows|
    ensures forall i :: 0 <= i < |rows| ==> r[i] == rows[i].(role := f(rows[i].role))
  {
    seq(|rows|, i requires 0 <= i < |rows| => rows[i].(role := f(rows[i].role)))
  }

  /** What the three statements of `up` do to one label, taken together. */
  function UpRole(role: string): string
  {
    if role == "viewer" || role == TempViewer then "member"
    else if role == "member" then "editor"
    else role
  }

  /** What the three statements of `down` do to one label, taken together. */
  function DownRole(role: string): string
  {
    if role == "member" || role == TempMemberToViewer then "viewer"
    else if role == "editor" then "member"
    else role
  }

  /** The (project, user) pairs of the table, in row order. */
  function Pairs(rows: seq<PivotRow>): (r: seq<(ProjectId, UserId)>)
    ensures |r| == |rows|
  {
    seq(|rows|, i requires 0 <= i < |rows| => (rows[i].projectId, rows[i].userId))
  }

  class ProjectUserTable {
    var rows: seq<PivotRow>

    constructor(rows: seq<PivotRow>)
      ensures this.rows == rows
    {
      this.rows := rows;
    }

    /** One `UPDATE ... WHERE role = from`, row by row. */
    method Relabel(from: string, to: string)
      modifies this
      ensures rows == Relabeled(old(rows), from, to)
    {
      var i := 0;
      while i < |rows|
        invariant 0 <= i <= |rows| == |old(rows)|
        invariant forall k :: 0 <= k < i ==> rows[k] == RelabelRow(old(rows)[k], from, to)
        invariant forall k :: i <= k < |rows| ==> rows[k] == old(rows)[k]
      {
        if rows[i].role == from {
          rows := rows[i := rows[i].(role := to)];
        }
        i := i + 1;
      }
    }

    /** `up`: viewer is parked under a temporary label while member becomes editor, then
        the parked rows become member. */
    method Up()
      modifies this
      ensures rows == MapRoles(old(rows), UpRole)
      ensures Pairs(rows) == Pairs(old(rows))
    {
      ghost var before := rows;
      Relabel("viewer", TempViewer);
      Relabel("member", "editor");
      Relabel(TempViewer, "member");
      UpIsThreeSteps(before);
      OnlyRolesChange(before, UpRole);
    }

    /** `down`: member is parked under a temporary label while editor becomes member, then
        the parked rows become viewer. */
    method Down()
      modifies this
      ensures rows == MapRoles(old(rows), DownRole)
      ensures Pairs(rows) == Pairs(old(rows))
    {
      ghost var before := rows;
      Relabel("member", TempMemberToViewer);
      Relabel("editor", "member");
      Relabel(TempMemberToViewer, "viewer");
      DownIsThreeSteps(before);
      OnlyRolesChange(before, DownRole);
    }
  }

  /** The three statements of `up` in a row amount to `UpRole` on every row. */
  lemma {:induction false} UpIsThreeSteps(rows: seq<PivotRow>)
    ensures Relabeled(Relabeled(Relabeled(rows, "viewer", TempViewer), "member", "editor"), TempViewer, "member")
      == MapRoles(rows, UpRole)
  {
    var a := Relabeled(rows, "viewer", TempViewer);
    var b := Relabeled(a, "member", "editor");
    var c := Relabeled(b, TempViewer, "member");
    forall i | 0 <= i < |rows| ensures c[i] == rows[i].(role := UpRole(rows[i].role)) {
      assert c[i] == RelabelRow(RelabelRow(RelabelRow(rows[i], "viewer", TempViewer), "member", "editor"), TempViewer, "member");
    }
  }

  /** The three statements of `down` in a row amount to `DownRole` on every row. */
  lemma {:induction false} DownIsThreeSteps(rows: seq<PivotRow>)
    ensures Relabeled(Relabeled(Relabeled(rows, "member", TempMemberToViewer), "editor", "member"), TempMemberToViewer, "viewer")
      == MapRoles(rows, DownRole)
  {
    var a := Relabeled(rows, "member", TempMemberToViewer);
    var b := Relabeled(a, "editor", "member");
    var c := Relabeled(b, TempMemberToViewer, "viewer");
    forall i | 0 <= i < |rows| ensures c[i] == rows[i].(role := DownRole(rows[i].role)) {
      assert c[i] == RelabelRow(RelabelRow(RelabelRow(rows[i], "member", TempMemberToViewer), "editor", "member"), TempMemberToViewer, "viewer");
    }
  }

  /** Rewriting roles keeps the number of rows and every (project, user) pair. */
  lemma {:induction false} OnlyRolesChange(rows: seq<PivotRow>, f: string -> string)
    ensures |MapRoles(rows, f)| == |rows|
    ensures Pairs(MapRoles(rows, f)) == Pairs(rows)
  {
    var r := MapRoles(rows, f);
    forall i | 0 <= i < |rows| ensures Pairs(r)[i] == Pairs(rows)[i] {
      assert r[i].projectId == rows[i].projectId && r[i].userId == rows[i].userId;
    }
  }

  /** `up` renames viewer to member and member to editor, keeps owner and admin, and
      lands every old role in the new enum, one to one. */
  lemma UpRelabels()
    ensures UpRole("viewer") == "member" && UpRole("member") == "editor"
    ensures UpRole("owner") == "owner" && UpRole("admin") == "admin"
    ensures forall r :: r in OldLabels ==> UpRole(r) in NewLabels
    ensures forall r, s :: r in OldLabels && s in OldLabels && UpRole(r) == UpRole(s) ==> r == s
  {
  }

  /** `down` renames member to viewer and editor to member and keeps owner and admin. */
  lemma DownRelabels()
    ensures DownRole("member") == "viewer" && DownRole("editor") == "member"
    ensures DownRole("owner") == "owner" && DownRole("admin") == "admin"
    ensures forall r :: r in NewLabels ==> DownRole(r) in OldLabels
  {
  }

  /** After `up` the new labels are exactly the codes of the `Role` enum. */
  lemma {:induction false} UpLandsInRoleEnum(r: string)
    requires r in OldLabels
    ensures exists role: Role :: RoleCode(role) == UpRole(r)
  {
    if r == "owner" { assert RoleCode(Owner) == UpRole(r); }
    else if r == "admin" { assert RoleCode(Admin) == UpRole(r); }
    else if r == "member" { assert RoleCode(Editor) == UpRole(r); }
    else { assert RoleCode(Member) == UpRole(r); }
  }

  /** No row holds the temporary label after `up`. */
  lemma {:induction false} NoTempAfterUp(rows: seq<PivotRow>)
    ensures forall i :: 0 <= i < |rows| ==> MapRoles(rows, UpRole)[i].role != TempViewer
  {
    forall i | 0 <= i < |rows| ensures MapRoles(rows, UpRole)[i].role != TempViewer {
      var r := rows[i].role;
      assert UpRole(r) == "member" || UpRole(r) == "editor" || UpRole(r) == r;
    }
  }

  /** `down` undoes `up` on a table whose roles are all from the old enum. */
  lemma {:induction false} UpThenDownRestores(rows: seq<PivotRow>)
    requires forall i :: 0 <= i < |rows| ==> rows[i].role in OldLabels
    ensures MapRoles(MapRoles(rows, UpRole), DownRole) == rows
  {
    var back := MapRoles(MapRoles(rows, UpRole), DownRole);
    forall i | 0 <= i < |rows| ensures back[i] == rows[i] {
      assert rows[i].role in OldLabels;
    }
  }

  /** `up` undoes `down` on a table whose roles are all from the new enum. */
  lemma {:induction false} DownThenUpRestores(rows: seq<PivotRow>)
    requires forall i :: 0 <= i < |rows| ==> rows[i].role in NewLabels
    ensures MapRoles(MapRoles(rows, DownRole), UpRole) == rows
  {
    var back := MapRoles(MapRoles(rows, DownRole), UpRole);
    forall i | 0 <= i < |rows| ensures back[i] == rows[i] {
      assert rows[i].role in NewLabels;
    }
  }

  /** The restore needs the old enum: a row already labelled with the temporary label, or
      with `editor`, comes back from `up` and `down` as something else. */
  lemma RestoreNeedsOldLabels()
    ensures DownRole(UpRole(TempViewer)) == "viewer"
    ensures DownRole(UpRole("editor")) == "member"
  {
  }
}

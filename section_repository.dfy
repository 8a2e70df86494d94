/** The section half of the position sequencer: the `sections` table, creation at the end
    of a project's board and reordering of a project's sections by an id list. */
module SectionRepository {
  import opened Domain
  import opened Positions

  /** The reorder list names a section that does not exist, belongs to another project or
      occurs twice. */
  datatype ReorderError = InvalidSectionIds

  /** The validated attributes of a new section; absent optional fields are `None`. */
  datatype NewSection = NewSection(
    name: string,
    filterType: Option<FilterType>,
    filterValue: Option<string>,
    itemLimit: Option<int>)

  function OfProject(p: ProjectId): Section -> bool
  {
    (s: Section) => s.projectId == p
  }

  /** The ids of the project's sections. */
  function ProjectIds(rows: seq<Section>, p: ProjectId): (r: set<SectionId>)
  {
    set s | s in rows && s.projectId == p :: s.id
  }

  /** The project's sections ordered by position. */
  function ProjectSections(rows: seq<Section>, p: ProjectId): (r: seq<Section>)
    ensures SortedBy(r, SectionPosition)
    ensures forall s :: s in r <==> s in rows && s.projectId == p
    ensures multiset(r) == multiset(Filter(rows, OfProject(p)))
  {
    var mine := Filter(rows, OfProject(p));
    var r := Sort(mine, SectionPosition);
    assert forall s :: s in r <==> s in mine by {
      forall s ensures s in r <==> s in mine {
        assert s in r <==> s in multiset(r);
        assert s in mine <==> s in multiset(mine);
      }
    }
    r
  }

  /** The id the table gives the next inserted row: above every id in use. */
  function NextId(rows: seq<Section>): (id: SectionId)
    ensures forall t :: t in rows ==> t.id < id
  {
    NextAfterMax(rows, SectionKey)
  }

  /** The row a create inserts: one past the project's highest position (1 for an empty
      board, as SQL's MAX of no rows is null and null + 1 is 1), a fresh id, and the
      defaults: no filter, no filter value, no item limit. */
  function NewRow(rows: seq<Section>, p: ProjectId, data: NewSection): (s: Section)
    ensures s.projectId == p && s.name == data.name
    ensures forall t :: t in rows && t.projectId == p ==> t.position < s.position
    ensures (exists t :: t in rows && t.projectId == p && t.position == s.position - 1)
            || (s.position == 1 && forall t :: t in rows ==> t.projectId != p)
    ensures forall t :: t in rows ==> t.id != s.id
    ensures s.filterType == (if data.filterType.Some? then data.filterType.value else NoFilter)
    ensures s.filterValue == data.filterValue && s.itemLimit == data.itemLimit
  {
    var mine := Filter(rows, OfProject(p));
    assert mine == [] ==> forall t :: t in rows ==> t.projectId != p;
    Section(
      NextId(rows),
      p,
      data.name,
      NextAfterMax(mine, SectionPosition),
      if data.filterType.Some? then data.filterType.value else NoFilter,
      data.filterValue,
      data.itemLimit)
  }

  /** One `UPDATE sections SET position = pos WHERE project_id = p AND id = id`. */
  function SetPosition(rows: seq<Section>, p: ProjectId, id: SectionId, pos: int): (r: seq<Section>)
    ensures |r| == |rows|
    ensures forall j :: 0 <= j < |rows| ==>
      r[j] == if rows[j].projectId == p && rows[j].id == id then rows[j].(position := pos) else rows[j]
  {
    seq(|rows|, j requires 0 <= j < |rows| =>
      if rows[j].projectId == p && rows[j].id == id then rows[j].(position := pos) else rows[j])
  }

  /** A row after the whole reorder: a listed section of the project moves to its index in
      the list plus one; every other row is untouched. */
  function Renumbered(row: Section, p: ProjectId, ids: seq<SectionId>): Section
  {
    if row.projectId == p && row.id in ids then row.(position := IndexOf(ids, row.id) + 1) else row
  }

  function Reordered(rows: seq<Section>, p: ProjectId, ids: seq<SectionId>): (r: seq<Section>)
    ensures |r| == |rows|
    ensures forall j :: 0 <= j < |rows| ==> r[j] == Renumbered(rows[j], p, ids)
  {
    seq(|rows|, j requires 0 <= j < |rows| => Renumbered(rows[j], p, ids))
  }

  /** The `sections` table, with the repository operations that write it. */
  class SectionTable {
    var rows: seq<Section>

    /** Section ids are a primary key. */
    ghost predicate Valid()
      reads this
    {
      UniqueBy(rows, SectionKey)
    }

    constructor ()
      ensures rows == [] && Valid()
    {
      rows := [];
    }

    /** `Section::create`: stores the row under the next id. */
    method Insert(row: Section) returns (s: Section)
      requires Valid()
      modifies this
      ensures Valid()
      ensures s == row.(id := NextId(old(rows)))
      ensures rows == old(rows) + [s]
    {
      s := row.(id := NextId(rows));
      rows := rows + [s];
    }

    method Create(data: NewSection, p: ProjectId) returns (s: Section)
      requires Valid()
      modifies this
      ensures Valid()
      ensures s == NewRow(old(rows), p, data)
      ensures rows == old(rows) + [s]
    {
      s := Insert(NewRow(rows, p, data));
    }

    /** Checks that `ids` names distinct sections of the project (the count of matching
        rows must equal the length of the list), then gives the k-th listed section
        position k + 1 and returns the project's sections by position. */
    method Reorder(p: ProjectId, ids: seq<SectionId>) returns (r: Result<seq<Section>, ReorderError>)
      requires Valid()
      modifies this
      ensures Valid()
      ensures !CountMatches(ids, ProjectIds(old(rows), p)) ==>
        r == Failure(InvalidSectionIds) && rows == old(rows)
      ensures CountMatches(ids, ProjectIds(old(rows), p)) ==>
        rows == Reordered(old(rows), p, ids) && r == Success(ProjectSections(rows, p))
    {
      if |SetOf(ids) * ProjectIds(rows, p)| != |ids| {
        return Failure(InvalidSectionIds);
      }
      CountMatchesMeaning(ids, ProjectIds(rows, p));
      ghost var before := rows;
      var k := 0;
      while k < |ids|
        invariant 0 <= k <= |ids|
        invariant |rows| == |before|
        invariant forall j :: 0 <= j < |rows| ==> rows[j] == Renumbered(before[j], p, ids[..k])
      {
        ghost var mid := rows;
        rows := SetPosition(rows, p, ids[k], k + 1);
        forall j | 0 <= j < |rows|
          ensures rows[j] == Renumbered(before[j], p, ids[..k + 1])
        {
          RenumberStep(before[j], p, ids, k);
        }
        k := k + 1;
      }
      assert ids[..|ids|] == ids;
      assert rows == Reordered(before, p, ids);
      ReorderedKeepsIds(before, p, ids);
      r := Success(ProjectSections(rows, p));
    }
  }

  /** One iteration of the reorder loop extends the renumbering by the next listed id. */
  lemma RenumberStep(row: Section, p: ProjectId, ids: seq<SectionId>, k: nat)
    requires Distinct(ids) && k < |ids|
    ensures var prev := Renumbered(row, p, ids[..k]);
      Renumbered(row, p, ids[..k + 1])
      == if prev.projectId == p && prev.id == ids[k] then prev.(position := k + 1) else prev
  {
    assert ids[..k + 1] == ids[..k] + [ids[k]];
    if row.projectId == p && row.id in ids[..k] {
      IndexOfExtend(ids, k, row.id);
      var i := IndexOf(ids[..k], row.id);
      assert ids[i] == row.id;
    } else if row.projectId == p && row.id == ids[k] {
      var i := IndexOf(ids[..k + 1], row.id);
      assert ids[i] == ids[k];
    }
  }

  /** Reordering rewrites positions only: ids and projects survive, and rows of other
      projects or unlisted sections do not change at all. */
  lemma ReorderedOnlyMovesListed(rows: seq<Section>, p: ProjectId, ids: seq<SectionId>)
    ensures var r := Reordered(rows, p, ids);
      && (forall j :: 0 <= j < |rows| ==> r[j] == rows[j].(position := r[j].position))
      && (forall j :: 0 <= j < |rows| && (rows[j].projectId != p || rows[j].id !in ids) ==> r[j] == rows[j])
  {
  }

  /** Reordering keeps the primary key and the project's set of section ids. */
  lemma ReorderedKeepsIds(rows: seq<Section>, p: ProjectId, ids: seq<SectionId>)
    requires UniqueBy(rows, SectionKey)
    ensures UniqueBy(Reordered(rows, p, ids), SectionKey)
    ensures ProjectIds(Reordered(rows, p, ids), p) == ProjectIds(rows, p)
  {
    var r := Reordered(rows, p, ids);
    assert forall j :: 0 <= j < |rows| ==> r[j].id == rows[j].id && r[j].projectId == rows[j].projectId;
    forall id | id in ProjectIds(rows, p) ensures id in ProjectIds(r, p) {
      var s :| s in rows && s.projectId == p && s.id == id;
      var j :| 0 <= j < |rows| && rows[j] == s;
      assert r[j] in r;
    }
    forall id | id in ProjectIds(r, p) ensures id in ProjectIds(rows, p) {
      var s :| s in r && s.projectId == p && s.id == id;
      var j :| 0 <= j < |r| && r[j] == s;
      assert rows[j] in rows;
    }
  }

  /** A list naming a section twice is always rejected: `whereIn` matches each row once. */
  lemma ReorderRejectsDuplicates(rows: seq<Section>, p: ProjectId, ids: seq<SectionId>, i: nat, j: nat)
    requires i < j < |ids| && ids[i] == ids[j]
    ensures !CountMatches(ids, ProjectIds(rows, p))
  {
    CountMatchesMeaning(ids, ProjectIds(rows, p));
  }

  /** A list naming a section of another project, or no section, is rejected. */
  lemma ReorderRejectsForeignIds(rows: seq<Section>, p: ProjectId, ids: seq<SectionId>, k: nat)
    requires k < |ids|
    requires forall s :: s in rows && s.id == ids[k] ==> s.projectId != p
    ensures !CountMatches(ids, ProjectIds(rows, p))
  {
    CountMatchesMeaning(ids, ProjectIds(rows, p));
    assert ids[k] in SetOf(ids);
  }

  /** With unique ids, a project has as many sections as section ids. */
  lemma {:induction false} SectionCount(rows: seq<Section>, p: ProjectId)
    requires UniqueBy(rows, SectionKey)
    ensures |ProjectSections(rows, p)| == |ProjectIds(rows, p)|
  {
    var mine := Filter(rows, OfProject(p));
    var keys := Map(mine, SectionKey);
    FilterUnique(rows, SectionKey, OfProject(p));
    UniqueKeysDistinct(mine, SectionKey);
    DistinctCard(keys);
    forall id | id in ProjectIds(rows, p) ensures id in SetOf(keys) {
      var s :| s in rows && s.projectId == p && s.id == id;
      assert s in mine;
      var k := IndexOf(mine, s);
      assert keys[k] == id;
    }
    forall id | id in SetOf(keys) ensures id in ProjectIds(rows, p) {
      var k :| 0 <= k < |keys| && keys[k] == id;
      assert mine[k] in mine;
    }
    assert SetOf(keys) == ProjectIds(rows, p);
  }

  /** After a reorder by a duplicate-free list of all the project's section ids, each of
      the project's sections sits at its list index plus one. */
  lemma ListedPosition(rows: seq<Section>, p: ProjectId, ids: seq<SectionId>, s: Section)
    requires SetOf(ids) == ProjectIds(rows, p)
    requires s in Reordered(rows, p, ids) && s.projectId == p
    ensures s.id in ids && s.position == IndexOf(ids, s.id) + 1
    ensures 1 <= s.position <= |ids| && s.id == ids[s.position - 1]
  {
    var after := Reordered(rows, p, ids);
    var j :| 0 <= j < |after| && after[j] == s;
    assert rows[j] in rows;
    assert rows[j].id in ProjectIds(rows, p);
    var k := IndexOf(ids, s.id);
    assert ids[k] == s.id;
  }

  /** ... so every section returned sits at the slot of its id in the list ... */
  lemma ReturnedPositions(rows: seq<Section>, p: ProjectId, ids: seq<SectionId>, r: seq<Section>)
    requires SetOf(ids) == ProjectIds(rows, p)
    requires forall s :: s in r ==> s in Reordered(rows, p, ids) && s.projectId == p
    ensures forall i :: 0 <= i < |r| ==> 1 <= r[i].position <= |ids| && r[i].id == ids[r[i].position - 1]
  {
    forall i | 0 <= i < |r| ensures 1 <= r[i].position <= |ids| && r[i].id == ids[r[i].position - 1] {
      var s := r[i];
      assert s in r;
      ListedPosition(rows, p, ids, s);
    }
  }

  /** ... and every slot of the list is taken by a returned section. */
  lemma ListedSlotsTaken(rows: seq<Section>, p: ProjectId, ids: seq<SectionId>, r: seq<Section>)
    requires UniqueBy(rows, SectionKey)
    requires Distinct(ids) && SetOf(ids) == ProjectIds(rows, p)
    requires r == ProjectSections(Reordered(rows, p, ids), p)
    ensures forall v :: v in Range(|ids|) ==> exists i :: 0 <= i < |r| && r[i].position == v
  {
    var after := Reordered(rows, p, ids);
    ReorderedKeepsIds(rows, p, ids);
    forall v | v in Range(|ids|) ensures exists i :: 0 <= i < |r| && r[i].position == v {
      var k := v - 1;
      assert ids[k] in SetOf(ids);
      assert ids[k] in ProjectIds(after, p);
      var s :| s in after && s.projectId == p && s.id == ids[k];
      ListedPosition(rows, p, ids, s);
      IndexOfDistinct(ids, k);
      assert s in r;
      var i := IndexOf(r, s);
      assert r[i].position == v;
    }
  }

  /** A duplicate-free list of all the project's section ids passes the guard. */
  lemma ReorderAcceptsArrangement(rows: seq<Section>, p: ProjectId, ids: seq<SectionId>)
    requires Distinct(ids) && SetOf(ids) == ProjectIds(rows, p)
    ensures CountMatches(ids, ProjectIds(rows, p))
  {
    CountMatchesMeaning(ids, ProjectIds(rows, p));
  }

  /** When the list is an arrangement of all of the project's sections, the reorder makes
      the board dense and in list order: the k-th section returned is the k-th listed and
      sits at position k + 1. */
  lemma {:induction false} ReorderIsDense(rows: seq<Section>, p: ProjectId, ids: seq<SectionId>)
    requires UniqueBy(rows, SectionKey)
    requires Distinct(ids) && SetOf(ids) == ProjectIds(rows, p)
    ensures var r := ProjectSections(Reordered(rows, p, ids), p);
      && |r| == |ids|
      && forall k :: 0 <= k < |ids| ==> r[k].id == ids[k] && r[k].position == k + 1
  {
    SectionListOrder(rows, p, ids, ProjectSections(Reordered(rows, p, ids), p));
  }

  lemma SectionListOrder(rows: seq<Section>, p: ProjectId, ids: seq<SectionId>, r: seq<Section>)
    requires UniqueBy(rows, SectionKey)
    requires Distinct(ids) && SetOf(ids) == ProjectIds(rows, p)
    requires r == ProjectSections(Reordered(rows, p, ids), p)
    ensures |r| == |ids|
    ensures forall k :: 0 <= k < |ids| ==> r[k].id == ids[k] && r[k].position == k + 1
  {
    var after := Reordered(rows, p, ids);
    assert |r| == |ids| by {
      ReorderedKeepsIds(rows, p, ids);
      SectionCount(after, p);
      DistinctCard(ids);
    }
    assert forall i :: 0 <= i < |r| ==> 1 <= r[i].position <= |ids| && r[i].id == ids[r[i].position - 1] by {
      ReturnedPositions(rows, p, ids, r);
    }
    assert forall v :: v in Range(|ids|) ==> exists i :: 0 <= i < |r| && r[i].position == v by {
      ListedSlotsTaken(rows, p, ids, r);
    }
    SectionsInListOrder(r, ids);
  }

  /** DenseOrder read on section fields. */
  lemma SectionsInListOrder(r: seq<Section>, ids: seq<SectionId>)
    requires |r| == |ids|
    requires SortedBy(r, SectionPosition)
    requires forall i :: 0 <= i < |r| ==> 1 <= r[i].position <= |ids| && r[i].id == ids[r[i].position - 1]
    requires forall v :: v in Range(|ids|) ==> exists i :: 0 <= i < |r| && r[i].position == v
    ensures forall k :: 0 <= k < |r| ==> r[k].id == ids[k] && r[k].position == k + 1
  {
    var ps := seq(|r|, i requires 0 <= i < |r| => r[i].position);
    var ks := seq(|r|, i requires 0 <= i < |r| => r[i].id);
    SectionRun(r, ids, ps, ks);
    SectionRunCovers(r, ids, ps);
    DenseOrder(ps, ks, ids);
    assert forall k :: 0 <= k < |r| ==> ps[k] == r[k].position && ks[k] == r[k].id;
  }

  /** The positions and ids of the sections meet DenseOrder's ordering requirements ... */
  lemma SectionRun(r: seq<Section>, ids: seq<SectionId>, ps: seq<int>, ks: seq<int>)
    requires |r| == |ids|
    requires SortedBy(r, SectionPosition)
    requires forall i :: 0 <= i < |r| ==> 1 <= r[i].position <= |ids| && r[i].id == ids[r[i].position - 1]
    requires |ps| == |ks| == |r|
    requires forall i :: 0 <= i < |r| ==> ps[i] == r[i].position && ks[i] == r[i].id
    ensures forall i, j :: 0 <= i < j < |ps| ==> ps[i] <= ps[j]
    ensures forall i :: 0 <= i < |ps| ==> 1 <= ps[i] <= |ids| && ks[i] == ids[ps[i] - 1]
  {
    forall i, j | 0 <= i < j < |ps| ensures ps[i] <= ps[j] {
      assert SectionPosition(r[i]) <= SectionPosition(r[j]);
    }
    forall i | 0 <= i < |ps| ensures 1 <= ps[i] <= |ids| && ks[i] == ids[ps[i] - 1] {
      assert ps[i] == r[i].position && ks[i] == r[i].id;
    }
  }

  /** ... and its covering requirement. */
  lemma SectionRunCovers(r: seq<Section>, ids: seq<SectionId>, ps: seq<int>)
    requires forall v :: v in Range(|ids|) ==> exists i :: 0 <= i < |r| && r[i].position == v
    requires |ps| == |r|
    requires forall i :: 0 <= i < |r| ==> ps[i] == r[i].position
    ensures Range(|ids|) <= SetOf(ps)
  {
    forall v | v in Range(|ids|) ensures v in SetOf(ps) {
      var i :| 0 <= i < |r| && r[i].position == v;
      assert ps[i] == v;
    }
  }


  /** A list naming only some of the project's sections is accepted, and the unlisted ones
      keep positions that the listed ones may now share. */
  lemma PartialReorderCollides()
    ensures var rows := [
        Section(1, 7, "Todo", 1, NoFilter, None, None),
        Section(2, 7, "Done", 2, NoFilter, None, None)];
      var after := Reordered(rows, 7, [2]);
      && CountMatches([2], ProjectIds(rows, 7))
      && after[0].position == after[1].position == 1
  {
    var rows := [
        Section(1, 7, "Todo", 1, NoFilter, None, None),
        Section(2, 7, "Done", 2, NoFilter, None, None)];
    assert rows[1] in rows;
    assert 2 in ProjectIds(rows, 7);
    assert SetOf([2]) * ProjectIds(rows, 7) == {2};
    assert IndexOf([2], 2) == 0;
  }

  /** Creating appends to the board: the new section comes last in the project's order. */
  lemma {:induction false} CreateAppendsLast(rows: seq<Section>, p: ProjectId, data: NewSection, s: Section)
    requires s == NewRow(rows, p, data)
    ensures var r := ProjectSections(rows + [s], p);
      |r| > 0 && r[|r| - 1] == s
  {
    assert s.projectId == p;
    AboveAllSortsLast(rows, s);
  }

  /** A section appended above all of its project's positions sorts last. */
  lemma {:induction false} AboveAllSortsLast(rows: seq<Section>, s: Section)
    requires forall t :: t in rows && t.projectId == s.projectId ==> t.position < s.position
    ensures var r := ProjectSections(rows + [s], s.projectId);
      |r| > 0 && r[|r| - 1] == s
  {
    var mine := Filter(rows + [s], OfProject(s.projectId));
    assert s in rows + [s];
    forall t | t in mine && t != s ensures SectionPosition(t) < SectionPosition(s) {
      assert t in rows;
    }
    MaxSortsLast(mine, SectionPosition, s);
  }
}

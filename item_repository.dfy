/** The item repository: the section listing with its ad-hoc filters, and the `items`
    table with create, update, reorder and tag synchronisation. */
module ItemRepository {
  import opened Domain
  import opened Scalars
  import opened Positions
  import opened SectionFilter

  /** Why an item operation fails: no authenticated user, tag ids outside the item's
      project, or a reorder list that does not name distinct items of the section. */
  datatype ItemError = NotAuthenticated | InvalidTags(ids: set<TagId>) | InvalidItemIds

  // ---------------------------------------------------------------------------------
  // getAllForSection

  /** An `assigned_to` filter as it arrives: an integer or a string. */
  datatype AssigneeParam = AssigneeNumber(n: int) | AssigneeText(s: string)

  /** One element of the `tags` filter array. */
  datatype TagParam = TagNumber(n: int) | TagText(s: string)

  /** The `$filters` array; a key that is missing or null is `None`. */
  datatype ItemFilters = ItemFilters(
    status: Option<string>,
    priority: Option<string>,
    assignedTo: Option<AssigneeParam>,
    tags: Option<seq<TagParam>>)

  const NoFilters := ItemFilters(None, None, None, None)

  /** The clause an `assigned_to` filter adds: none, `whereNull`, or equality. */
  datatype AssigneeClause = NoAssigneeClause | Unassigned | AssignedTo(user: UserId)

  /** `"null"` in any case, or the integer 0, selects unassigned items; a positive
      integer or a digit string with a positive value selects that assignee; anything
      else (a negative number, the string "0", other text) adds no clause. */
  function AssigneeClauseOf(p: Option<AssigneeParam>): (c: AssigneeClause)
    ensures c.AssignedTo? ==> c.user > 0
    ensures c == Unassigned <==>
      p == Some(AssigneeNumber(0)) || (p.Some? && p.value.AssigneeText? && Lower(p.value.s) == "null")
    ensures p.Some? && p.value.AssigneeNumber? && p.value.n > 0 ==> c == AssignedTo(p.value.n)
    ensures p.Some? && p.value.AssigneeText? && NamesId(p.value.s, 0) ==> c == NoAssigneeClause
    ensures p.Some? && p.value.AssigneeText? && Lower(p.value.s) != "null" ==>
      (c.AssignedTo? <==> IsDigits(p.value.s) && DigitsValue(p.value.s) > 0)
    ensures p.Some? && p.value.AssigneeText? && c.AssignedTo? ==> NamesId(p.value.s, c.user)
    ensures p.None? || (p.value.AssigneeNumber? && p.value.n < 0) ==> c == NoAssigneeClause
  {
    match p
    case None => NoAssigneeClause
    case Some(AssigneeNumber(n)) =>
      if n == 0 then Unassigned else if n > 0 then AssignedTo(n) else NoAssigneeClause
    case Some(AssigneeText(s)) =>
      if Lower(s) == "null" then Unassigned
      else if IsDigits(s) && DigitsValue(s) > 0 then AssignedTo(DigitsValue(s))
      else NoAssigneeClause
  }

  /** The integer 0 selects unassigned items but the string "0", the form a query string
      delivers, adds no clause at all. */
  lemma ZeroOnlyAsNumberMeansUnassigned()
    ensures AssigneeClauseOf(Some(AssigneeNumber(0))) == Unassigned
    ensures AssigneeClauseOf(Some(AssigneeText("0"))) == NoAssigneeClause
  {
    assert Lower("0") == "0";
    assert NamesId("0", 0);
  }

  /** `is_numeric($id) && $id > 0`: the tag id an element stands for, if it is kept. */
  function TagParamId(p: TagParam): (r: Option<TagId>)
    ensures r.Some? ==> r.value > 0
    ensures p.TagNumber? ==> (r.Some? <==> p.n > 0) && (r.Some? ==> r.value == p.n)
    ensures p.TagText? ==> (r.Some? <==> IsDigits(p.s) && DigitsValue(p.s) > 0)
    ensures p.TagText? && r.Some? ==> NamesId(p.s, r.value)
  {
    match p
    case TagNumber(n) => if n > 0 then Some(n) else None
    case TagText(s) => if IsDigits(s) && DigitsValue(s) > 0 then Some(DigitsValue(s)) else None
  }

  /** Does `array_filter` keep this element of the `tags` filter? */
  predicate IsKeptTag(p: TagParam)
  {
    TagParamId(p).Some?
  }

  /** The kept tag ids, in order and with repetitions, as `array_filter` leaves them:
      one id per kept element, each the id that element stands for, and nothing else. */
  function KeptTagIds(ps: seq<TagParam>): (r: seq<TagId>)
    ensures |r| <= |ps|
    ensures |r| == |Filter(ps, IsKeptTag)|
    ensures forall i :: 0 <= i < |r| ==> TagParamId(Filter(ps, IsKeptTag)[i]) == Some(r[i])
  {
    if ps == [] then []
    else
      var rest := KeptTagIds(ps[1..]);
      match TagParamId(ps[0])
      case Some(t) => [t] + rest
      case None => rest
  }

  /** A tag id is kept exactly when some element of the filter stands for it, and every
      kept id is positive. */
  lemma {:induction false} KeptTagIdsExactly(ps: seq<TagParam>)
    ensures forall t :: t in KeptTagIds(ps) ==> t > 0
    ensures forall t :: t in KeptTagIds(ps) <==> exists i :: 0 <= i < |ps| && TagParamId(ps[i]) == Some(t)
  {
    var r := KeptTagIds(ps);
    var kept := Filter(ps, IsKeptTag);
    forall t | t in r ensures exists i :: 0 <= i < |ps| && TagParamId(ps[i]) == Some(t) {
      var k :| 0 <= k < |r| && r[k] == t;
      assert TagParamId(kept[k]) == Some(t);
      assert kept[k] in ps;
      var i :| 0 <= i < |ps| && ps[i] == kept[k];
    }
    forall t | exists i :: 0 <= i < |ps| && TagParamId(ps[i]) == Some(t) ensures t in r {
      var i :| 0 <= i < |ps| && TagParamId(ps[i]) == Some(t);
      assert IsKeptTag(ps[i]);
      assert ps[i] in kept;
      var k :| 0 <= k < |kept| && kept[k] == ps[i];
      assert TagParamId(kept[k]) == Some(r[k]);
    }
  }

  /** `whereHas('tags', whereIn(ids), '=', count(ids))`: the number of the item's tags
      among the kept ids equals the number of kept ids. */
  predicate HasAllTags(it: Item, kept: seq<TagId>)
  {
    |it.tags * SetOf(kept)| == |kept|
  }

  /** The clauses the `$filters` array adds; an empty status, priority or tag list adds
      none. */
  predicate AdHocMatch(f: ItemFilters, it: Item)
  {
    && (Blank(f.status) || StatusCode(it.status) == f.status.value)
    && (Blank(f.priority) || PriorityCode(it.priority) == f.priority.value)
    && (match AssigneeClauseOf(f.assignedTo)
        case NoAssigneeClause => true
        case Unassigned => it.assignee.None?
        case AssignedTo(u) => it.assignee == Some(u))
    && (f.tags.None? || KeptTagIds(f.tags.value) == [] || HasAllTags(it, KeptTagIds(f.tags.value)))
  }

  function AdHoc(f: ItemFilters): Item -> bool
  {
    (it: Item) => AdHocMatch(f, it)
  }

  /** The section's own filter, then the ad-hoc clauses, ordered by position. */
  function AllMatching(s: Section, items: seq<Item>, f: ItemFilters): (r: seq<Item>)
    ensures SortedBy(r, ItemPosition)
    ensures forall it :: it in r <==>
      it in items && it.sectionId == s.id && SectionMatch(s, it) && AdHocMatch(f, it)
  {
    var kept := Filter(Filter(items, Matches(s)), AdHoc(f));
    var r := Sort(kept, ItemPosition);
    assert forall it :: it in r <==> it in kept by {
      forall it ensures it in r <==> it in kept {
        assert it in r <==> it in multiset(r);
        assert it in kept <==> it in multiset(kept);
      }
    }
    r
  }

  /** A positive `item_limit`, or 0 for none. */
  function ItemLimit(s: Section): (n: int)
    ensures n >= 0
    ensures n > 0 <==> s.itemLimit.Some? && s.itemLimit.value > 0
  {
    if s.itemLimit.Some? && s.itemLimit.value > 0 then s.itemLimit.value else 0
  }

  /** The section's listing: the matching items by position, cut to the item limit. */
  function GetAllForSection(s: Section, items: seq<Item>, f: ItemFilters): (r: seq<Item>)
    ensures var all := AllMatching(s, items, f);
      && |r| <= |all| && r == all[..|r|]
      && (ItemLimit(s) == 0 ==> r == all)
      && (ItemLimit(s) > 0 ==> |r| == if ItemLimit(s) < |all| then ItemLimit(s) else |all|)
  {
    Take(AllMatching(s, items, f), ItemLimit(s))
  }

  /** The ad-hoc clauses may be applied after the ordering: the listing before the limit
      is the section's own view narrowed by the filters. */
  lemma {:induction false} AdHocAfterSectionView(s: Section, items: seq<Item>, f: ItemFilters)
    ensures AllMatching(s, items, f) == Filter(FilteredItems(s, items), AdHoc(f))
  {
    FilterSort(Filter(items, Matches(s)), ItemPosition, AdHoc(f));
  }

  /** Without ad-hoc filters and without a limit, the listing is the section's own view. */
  lemma {:induction false} UnfilteredListingIsSectionView(s: Section, items: seq<Item>)
    requires ItemLimit(s) == 0
    ensures GetAllForSection(s, items, NoFilters) == FilteredItems(s, items)
  {
    AdHocAfterSectionView(s, items, NoFilters);
    assert forall it :: AdHocMatch(NoFilters, it);
    FilterAllOrNone(FilteredItems(s, items), AdHoc(NoFilters));
  }

  /** The limit keeps the lowest positions: nothing cut off comes before anything kept. */
  lemma LimitKeepsLowest(s: Section, items: seq<Item>, f: ItemFilters)
    ensures var all := AllMatching(s, items, f);
      var r := GetAllForSection(s, items, f);
      forall i, j :: 0 <= i < |r| <= j < |all| ==> r[i].position <= all[j].position
  {
  }

  /** With distinct tag ids, an item passes the tag clause exactly when it carries all
      of them. */
  lemma HasAllTagsMeaning(it: Item, kept: seq<TagId>)
    requires Distinct(kept)
    ensures HasAllTags(it, kept) <==> SetOf(kept) <= it.tags
  {
    var k := SetOf(kept);
    DistinctCard(kept);
    SubsetCard(it.tags * k, k);
    if k <= it.tags {
      assert it.tags * k == k;
    }
  }

  /** A tag list naming the same tag twice matches no item: `whereIn` counts each of the
      item's tags once. */
  lemma RepeatedTagMatchesNothing(it: Item, kept: seq<TagId>)
    requires !Distinct(kept)
    ensures !HasAllTags(it, kept)
  {
    DistinctCard(kept);
    SubsetCard(it.tags * SetOf(kept), SetOf(kept));
  }

  /** Every listed item belongs to the section, passes its filter and the ad-hoc
      clauses, and the listing is in position order. */
  lemma ListingIsSound(s: Section, items: seq<Item>, f: ItemFilters)
    ensures var r := GetAllForSection(s, items, f);
      && SortedBy(r, ItemPosition)
      && forall it :: it in r ==> it in FilteredItems(s, items) && AdHocMatch(f, it)
  {
    var all := AllMatching(s, items, f);
    var r := GetAllForSection(s, items, f);
    forall it | it in r ensures it in all {
      var i :| 0 <= i < |r| && r[i] == it;
      assert all[i] == it;
    }
  }

  // ---------------------------------------------------------------------------------
  // The items table

  /** The validated attributes of a new item; absent fields are `None`. */
  datatype NewItem = NewItem(
    title: string,
    description: Option<string>,
    dueDate: Option<string>,
    priority: Option<ItemPriority>,
    status: Option<ItemStatus>,
    assignee: Option<UserId>,
    tagIds: Option<seq<TagId>>)

  /** The validated fields of an update: `None` leaves a column alone; for a nullable
      column, `Some(None)` sets it to null. */
  datatype ItemPatch = ItemPatch(
    title: Option<string>,
    description: Option<Option<string>>,
    dueDate: Option<Option<string>>,
    priority: Option<ItemPriority>,
    status: Option<ItemStatus>,
    assignee: Option<Option<UserId>>)

  const EmptyPatch := ItemPatch(None, None, None, None, None, None)

  function Pick<T>(given: Option<T>, current: T): T
  {
    if given.Some? then given.value else current
  }

  /** `$item->update($data)`: each given field replaces its column. */
  function Patched(it: Item, p: ItemPatch): (r: Item)
    ensures r.id == it.id && r.sectionId == it.sectionId && r.position == it.position
    ensures r.creator == it.creator && r.tags == it.tags
    ensures r.title == if p.title.Some? then p.title.value else it.title
    ensures r.description == if p.description.Some? then p.description.value else it.description
    ensures r.dueDate == if p.dueDate.Some? then p.dueDate.value else it.dueDate
    ensures r.priority == if p.priority.Some? then p.priority.value else it.priority
    ensures r.status == if p.status.Some? then p.status.value else it.status
    ensures r.assignee == if p.assignee.Some? then p.assignee.value else it.assignee
  {
    it.(title := Pick(p.title, it.title),
        description := Pick(p.description, it.description),
        dueDate := Pick(p.dueDate, it.dueDate),
        priority := Pick(p.priority, it.priority),
        status := Pick(p.status, it.status),
        assignee := Pick(p.assignee, it.assignee))
  }

  /** An empty update changes nothing, and applying the same update twice is applying
      it once. */
  lemma PatchLaws(it: Item, p: ItemPatch)
    ensures Patched(it, EmptyPatch) == it
    ensures Patched(Patched(it, p), p) == Patched(it, p)
  {
  }

  /** The outcome of `syncTags`: an empty list detaches every tag; a list naming a tag
      outside the item's project fails with those ids; otherwise the item's tags become
      exactly the listed ones. `projectTags` are the ids of the project's tags. */
  function TagSync(tagIds: seq<TagId>, projectTags: set<TagId>): (r: Result<set<TagId>, ItemError>)
    ensures r.Success? <==> SetOf(tagIds) <= projectTags
    ensures r.Success? ==> r.value == SetOf(tagIds) && r.value <= projectTags
    ensures r.Failure? ==> r.error == InvalidTags(SetOf(tagIds) - projectTags) && r.error.ids != {}
  {
    var given := SetOf(tagIds);
    if tagIds == [] then Success({})
    else if given <= projectTags then Success(given)
    else
      SubsetDiff(given, projectTags);
      Failure(InvalidTags(given - projectTags))
  }

  /** The tags of the item `id` replaced by `tags`. */
  function WithTags(rows: seq<Item>, id: ItemId, tags: set<TagId>): (r: seq<Item>)
    ensures |r| == |rows|
    ensures forall j :: 0 <= j < |rows| ==>
      r[j] == if rows[j].id == id then rows[j].(tags := tags) else rows[j]
  {
    seq(|rows|, j requires 0 <= j < |rows| =>
      if rows[j].id == id then rows[j].(tags := tags) else rows[j])
  }

  /** The item `id` updated by `p`. */
  function WithPatch(rows: seq<Item>, id: ItemId, p: ItemPatch): (r: seq<Item>)
    ensures |r| == |rows|
    ensures forall j :: 0 <= j < |rows| ==>
      r[j] == if rows[j].id == id then Patched(rows[j], p) else rows[j]
  {
    seq(|rows|, j requires 0 <= j < |rows| =>
      if rows[j].id == id then Patched(rows[j], p) else rows[j])
  }

  function NextItemId(rows: seq<Item>): (id: ItemId)
    ensures forall t :: t in rows ==> t.id < id
  {
    NextAfterMax(rows, ItemKey)
  }

  /** The row a create inserts: a fresh id, one past the section's highest position (1
      in an empty section), the acting user as creator, priority medium and status todo
      unless given, and no tags yet. */
  function NewItemRow(rows: seq<Item>, sectionId: SectionId, data: NewItem, creator: UserId): (it: Item)
    ensures it.sectionId == sectionId && it.creator == creator && it.title == data.title
    ensures forall x :: x in rows ==> x.id != it.id
    ensures forall x :: x in rows && x.sectionId == sectionId ==> x.position < it.position
    ensures (exists x :: x in rows && x.sectionId == sectionId && x.position == it.position - 1)
            || (it.position == 1 && forall x :: x in rows ==> x.sectionId != sectionId)
    ensures it.priority == (if data.priority.Some? then data.priority.value else Medium)
    ensures it.status == (if data.status.Some? then data.status.value else Todo)
    ensures it.description == data.description && it.dueDate == data.dueDate
    ensures it.assignee == data.assignee && it.tags == {}
  {
    var mine := Filter(rows, InSection(sectionId));
    assert mine == [] ==> forall x :: x in rows ==> x.sectionId != sectionId;
    Item(
      NextItemId(rows),
      sectionId,
      data.title,
      data.description,
      data.dueDate,
      Pick(data.status, Todo),
      Pick(data.priority, Medium),
      NextAfterMax(mine, ItemPosition),
      creator,
      data.assignee,
      {})
  }

  /** The ids of the section's items. */
  function SectionItemIds(rows: seq<Item>, sectionId: SectionId): (r: set<ItemId>)
  {
    set it | it in rows && it.sectionId == sectionId :: it.id
  }

  /** `Item::where('id', id)->where('section_id', s)->update(['position' => pos])`. */
  function SetItemPosition(rows: seq<Item>, sectionId: SectionId, id: ItemId, pos: int): (r: seq<Item>)
    ensures |r| == |rows|
    ensures forall j :: 0 <= j < |rows| ==>
      r[j] == if rows[j].sectionId == sectionId && rows[j].id == id then rows[j].(position := pos) else rows[j]
  {
    seq(|rows|, j requires 0 <= j < |rows| =>
      if rows[j].sectionId == sectionId && rows[j].id == id then rows[j].(position := pos) else rows[j])
  }

  /** A row after the whole reorder: a listed item of the section moves to its index in
      the list plus one. */
  function ItemRenumbered(row: Item, sectionId: SectionId, ids: seq<ItemId>): Item
  {
    if row.sectionId == sectionId && row.id in ids then row.(position := IndexOf(ids, row.id) + 1) else row
  }

  function ItemsReordered(rows: seq<Item>, sectionId: SectionId, ids: seq<ItemId>): (r: seq<Item>)
    ensures |r| == |rows|
    ensures forall j :: 0 <= j < |rows| ==> r[j] == ItemRenumbered(rows[j], sectionId, ids)
  {
    seq(|rows|, j requires 0 <= j < |rows| => ItemRenumbered(rows[j], sectionId, ids))
  }

  function ListedIn(sectionId: SectionId, ids: seq<ItemId>): Item -> bool
  {
    (it: Item) => it.sectionId == sectionId && it.id in ids
  }

  /** `$section->items()->whereIn('id', $ids)->orderBy('position')`. */
  function Listed(rows: seq<Item>, sectionId: SectionId, ids: seq<ItemId>): (r: seq<Item>)
    ensures SortedBy(r, ItemPosition)
    ensures forall it :: it in r <==> it in rows && it.sectionId == sectionId && it.id in ids
    ensures multiset(r) == multiset(Filter(rows, ListedIn(sectionId, ids)))
  {
    var mine := Filter(rows, ListedIn(sectionId, ids));
    var r := Sort(mine, ItemPosition);
    assert forall it :: it in r <==> it in mine by {
      forall it ensures it in r <==> it in mine {
        assert it in r <==> it in multiset(r);
        assert it in mine <==> it in multiset(mine);
      }
    }
    r
  }

  /** The reorder guard as written (the list and the matching rows differ in number, or
      the list names an id that matched no row) rejects exactly the lists that are not
      duplicate-free lists of the section's item ids. */
  lemma ItemReorderGuard(ids: seq<ItemId>, sectionIds: set<ItemId>)
    ensures var matched := SetOf(ids) * sectionIds;
      (|ids| != |matched| || SetOf(ids) - matched != {}) <==> !CountMatches(ids, sectionIds)
    ensures CountMatches(ids, sectionIds) <==> Distinct(ids) && SetOf(ids) <= sectionIds
  {
    var matched := SetOf(ids) * sectionIds;
    DistinctCard(ids);
    SubsetCard(matched, SetOf(ids));
    CountMatchesMeaning(ids, sectionIds);
  }

  /** The `items` table with the tag pivot folded into each row. */
  class ItemTable {
    var rows: seq<Item>

    /** Item ids are a primary key. */
    ghost predicate Valid()
      reads this
    {
      UniqueBy(rows, ItemKey)
    }

    constructor ()
      ensures rows == [] && Valid()
    {
      rows := [];
    }

    /** `Item::create`: stores the row under the next id. */
    method Insert(row: Item) returns (it: Item)
      requires Valid()
      modifies this
      ensures Valid()
      ensures it == row.(id := NextItemId(old(rows)))
      ensures rows == old(rows) + [it]
    {
      it := row.(id := NextItemId(rows));
      rows := rows + [it];
    }

    /** `syncTags`: the project's tags among the given ids are looked up, any id left
        over fails the call before anything is written, and the item's tags become the
        ids found. */
    method SyncTags(id: ItemId, tagIds: seq<TagId>, projectTags: set<TagId>) returns (r: Result<set<TagId>, ItemError>)
      requires Valid()
      modifies this
      ensures Valid()
      ensures r == TagSync(tagIds, projectTags)
      ensures rows == if r.Success? then WithTags(old(rows), id, r.value) else old(rows)
    {
      if tagIds == [] {
        rows := WithTags(rows, id, {});
        return Success({});
      }
      var found := SetOf(tagIds) * projectTags;
      var invalid := SetOf(tagIds) - found;
      assert invalid == SetOf(tagIds) - projectTags;
      if invalid != {} {
        return Failure(InvalidTags(invalid));
      }
      SubsetDiff(SetOf(tagIds), projectTags);
      assert found == SetOf(tagIds);
      rows := WithTags(rows, id, found);
      r := Success(found);
    }

    /** `create`: refused without an acting user; otherwise inserts the new row and,
        when tag ids are given, syncs them. The insert is not undone when the sync
        fails: the item stays, without tags, and the error is reported. */
    method Create(data: NewItem, sectionId: SectionId, actor: Option<UserId>, projectTags: set<TagId>)
      returns (r: Result<Item, ItemError>)
      requires Valid()
      modifies this
      ensures Valid()
      ensures actor.None? ==> r == Failure(NotAuthenticated) && rows == old(rows)
      ensures actor.Some? ==>
        var row := NewItemRow(old(rows), sectionId, data, actor.value);
        var sync := if data.tagIds.Some? then TagSync(data.tagIds.value, projectTags) else Success({});
        && (sync.Success? ==>
              rows == old(rows) + [row.(tags := sync.value)] && r == Success(row.(tags := sync.value)))
        && (sync.Failure? ==> rows == old(rows) + [row] && r == Failure(sync.error))
    {
      if actor.None? {
        return Failure(NotAuthenticated);
      }
      ghost var before := rows;
      var row := Insert(NewItemRow(rows, sectionId, data, actor.value));
      if data.tagIds.Some? {
        var t := SyncTags(row.id, data.tagIds.value, projectTags);
        if t.Failure? {
          return Failure(t.error);
        }
        WithTagsFresh(before, row, t.value);
        row := row.(tags := t.value);
      }
      r := Success(row);
    }

    /** `update`: writes the given fields, then, when `tag_ids` is present, syncs the
        tags (a null list detaches them all). The field update is not undone when the
        sync fails. `it` is the stored row of the item. */
    method Update(it: Item, patch: ItemPatch, tagIds: Option<Option<seq<TagId>>>, projectTags: set<TagId>)
      returns (r: Result<Item, ItemError>)
      requires Valid() && it in rows
      modifies this
      ensures Valid()
      ensures var patched := WithPatch(old(rows), it.id, patch);
        var sync := if tagIds.Some? then TagSync(Pick(tagIds.value, []), projectTags) else Success(it.tags);
        && (sync.Success? ==>
              rows == WithTags(patched, it.id, sync.value)
              && r == Success(Patched(it, patch).(tags := sync.value)))
        && (sync.Failure? ==> rows == patched && r == Failure(sync.error))
      ensures r.Success? ==> r.value in rows
    {
      ghost var j :| 0 <= j < |rows| && rows[j] == it;
      rows := WithPatch(rows, it.id, patch);
      assert UniqueBy(rows, ItemKey) by {
        assert forall k :: 0 <= k < |rows| ==> rows[k].id == old(rows)[k].id;
      }
      var tags := it.tags;
      if tagIds.Some? {
        var t := SyncTags(it.id, Pick(tagIds.value, []), projectTags);
        if t.Failure? {
          return Failure(t.error);
        }
        tags := t.value;
      } else {
        PatchedTagsKept(old(rows), it.id, patch, j);
        assert rows == WithTags(rows, it.id, it.tags);
      }
      r := Success(Patched(it, patch).(tags := tags));
      assert rows[j] == r.value;
    }

    /** `reorder`: checks the list against the section's items, gives the k-th listed
        item position k + 1 and returns the listed items by position. */
    method Reorder(sectionId: SectionId, ids: seq<ItemId>) returns (r: Result<seq<Item>, ItemError>)
      requires Valid()
      modifies this
      ensures Valid()
      ensures !CountMatches(ids, SectionItemIds(old(rows), sectionId)) ==>
        r == Failure(InvalidItemIds) && rows == old(rows)
      ensures CountMatches(ids, SectionItemIds(old(rows), sectionId)) ==>
        rows == ItemsReordered(old(rows), sectionId, ids) && r == Success(Listed(rows, sectionId, ids))
    {
      var matched := SetOf(ids) * SectionItemIds(rows, sectionId);
      ItemReorderGuard(ids, SectionItemIds(rows, sectionId));
      if |ids| != |matched| || SetOf(ids) - matched != {} {
        return Failure(InvalidItemIds);
      }
      ghost var before := rows;
      var k := 0;
      while k < |ids|
        invariant 0 <= k <= |ids|
        invariant |rows| == |before|
        invariant forall j :: 0 <= j < |rows| ==> rows[j] == ItemRenumbered(before[j], sectionId, ids[..k])
      {
        rows := SetItemPosition(rows, sectionId, ids[k], k + 1);
        forall j | 0 <= j < |rows|
          ensures rows[j] == ItemRenumbered(before[j], sectionId, ids[..k + 1])
        {
          ItemRenumberStep(before[j], sectionId, ids, k);
        }
        k := k + 1;
      }
      assert ids[..|ids|] == ids;
      assert rows == ItemsReordered(before, sectionId, ids);
      ItemsReorderedKeepIds(before, sectionId, ids);
      r := Success(Listed(rows, sectionId, ids));
    }
  }

  /** Syncing the tags of a row just appended touches that row only. */
  lemma WithTagsFresh(rows: seq<Item>, row: Item, tags: set<TagId>)
    requires forall x :: x in rows ==> x.id != row.id
    ensures WithTags(rows + [row], row.id, tags) == rows + [row.(tags := tags)]
  {
    var all := rows + [row];
    forall j | 0 <= j < |rows| ensures all[j].id != row.id {
      assert all[j] == rows[j] && rows[j] in rows;
    }
  }

  /** A patch keeps the tags of the row it rewrites. */
  lemma PatchedTagsKept(rows: seq<Item>, id: ItemId, p: ItemPatch, j: nat)
    requires UniqueBy(rows, ItemKey) && j < |rows| && rows[j].id == id
    ensures var r := WithPatch(rows, id, p);
      WithTags(r, id, rows[j].tags) == r
  {
    var r := WithPatch(rows, id, p);
    forall k | 0 <= k < |r| && r[k].id == id ensures r[k].tags == rows[j].tags {
      assert k == j || ItemKey(rows[k]) == ItemKey(rows[j]);
    }
  }

  /** One iteration of the reorder loop extends the renumbering by the next listed id. */
  lemma ItemRenumberStep(row: Item, sectionId: SectionId, ids: seq<ItemId>, k: nat)
    requires Distinct(ids) && k < |ids|
    ensures var prev := ItemRenumbered(row, sectionId, ids[..k]);
      ItemRenumbered(row, sectionId, ids[..k + 1])
      == if prev.sectionId == sectionId && prev.id == ids[k] then prev.(position := k + 1) else prev
  {
    assert ids[..k + 1] == ids[..k] + [ids[k]];
    if row.sectionId == sectionId && row.id in ids[..k] {
      IndexOfExtend(ids, k, row.id);
      var i := IndexOf(ids[..k], row.id);
      assert ids[i] == row.id;
    } else if row.sectionId == sectionId && row.id == ids[k] {
      var i := IndexOf(ids[..k + 1], row.id);
      assert ids[i] == ids[k];
    }
  }

  /** Reordering rewrites positions of the section's listed items only; every other row
      is untouched, and the primary key and the section's item ids survive. */
  lemma ItemsReorderedKeepIds(rows: seq<Item>, sectionId: SectionId, ids: seq<ItemId>)
    requires UniqueBy(rows, ItemKey)
    ensures var r := ItemsReordered(rows, sectionId, ids);
      && UniqueBy(r, ItemKey)
      && SectionItemIds(r, sectionId) == SectionItemIds(rows, sectionId)
      && (forall j :: 0 <= j < |rows| ==> r[j] == rows[j].(position := r[j].position))
      && (forall j :: 0 <= j < |rows| && (rows[j].sectionId != sectionId || rows[j].id !in ids) ==> r[j] == rows[j])
  {
    var r := ItemsReordered(rows, sectionId, ids);
    assert forall j :: 0 <= j < |rows| ==> r[j].id == rows[j].id && r[j].sectionId == rows[j].sectionId;
    forall id | id in SectionItemIds(rows, sectionId) ensures id in SectionItemIds(r, sectionId) {
      var s :| s in rows && s.sectionId == sectionId && s.id == id;
      var j :| 0 <= j < |rows| && rows[j] == s;
      assert r[j] in r;
    }
    forall id | id in SectionItemIds(r, sectionId) ensures id in SectionItemIds(rows, sectionId) {
      var s :| s in r && s.sectionId == sectionId && s.id == id;
      var j :| 0 <= j < |r| && r[j] == s;
      assert rows[j] in rows;
    }
  }

  /** After a reorder by an accepted list, every listed item sits at its list index plus
      one. */
  lemma ListedItemPosition(rows: seq<Item>, sectionId: SectionId, ids: seq<ItemId>, it: Item)
    requires it in ItemsReordered(rows, sectionId, ids) && it.sectionId == sectionId && it.id in ids
    ensures it.position == IndexOf(ids, it.id) + 1
    ensures 1 <= it.position <= |ids| && it.id == ids[it.position - 1]
  {
    var after := ItemsReordered(rows, sectionId, ids);
    var j :| 0 <= j < |after| && after[j] == it;
    var k := IndexOf(ids, it.id);
    assert ids[k] == it.id;
  }

  /** The returned items are as many as the list names. */
  lemma {:induction false} ListedCount(rows: seq<Item>, sectionId: SectionId, ids: seq<ItemId>)
    requires UniqueBy(rows, ItemKey)
    requires Distinct(ids) && SetOf(ids) <= SectionItemIds(rows, sectionId)
    ensures |Listed(ItemsReordered(rows, sectionId, ids), sectionId, ids)| == |ids|
  {
    var after := ItemsReordered(rows, sectionId, ids);
    var p := ListedIn(sectionId, ids);
    ItemsReorderedKeepIds(rows, sectionId, ids);
    FilterKeyCount(after, ItemKey, p);
    forall id | id in SetOf(ids) ensures id in KeysWhere(after, ItemKey, p) {
      assert id in SectionItemIds(after, sectionId);
      var s :| s in after && s.sectionId == sectionId && s.id == id;
      assert p(s);
    }
    assert KeysWhere(after, ItemKey, p) == SetOf(ids);
    DistinctCard(ids);
  }

  /** ... so every item returned sits at the slot of its id in the list ... */
  lemma ReturnedItemPositions(rows: seq<Item>, sectionId: SectionId, ids: seq<ItemId>, r: seq<Item>)
    requires forall it :: it in r ==> it in ItemsReordered(rows, sectionId, ids) && it.sectionId == sectionId && it.id in ids
    ensures forall i :: 0 <= i < |r| ==> 1 <= r[i].position <= |ids| && r[i].id == ids[r[i].position - 1]
  {
    forall i | 0 <= i < |r| ensures 1 <= r[i].position <= |ids| && r[i].id == ids[r[i].position - 1] {
      var it := r[i];
      assert it in r;
      ListedItemPosition(rows, sectionId, ids, it);
    }
  }

  /** ... and every slot of the list is taken by a returned item. */
  lemma ListedSlotsFilled(rows: seq<Item>, sectionId: SectionId, ids: seq<ItemId>, r: seq<Item>)
    requires UniqueBy(rows, ItemKey)
    requires Distinct(ids) && SetOf(ids) <= SectionItemIds(rows, sectionId)
    requires r == Listed(ItemsReordered(rows, sectionId, ids), sectionId, ids)
    ensures forall v :: v in Range(|ids|) ==> exists i :: 0 <= i < |r| && r[i].position == v
  {
    var after := ItemsReordered(rows, sectionId, ids);
    ItemsReorderedKeepIds(rows, sectionId, ids);
    forall v | v in Range(|ids|) ensures exists i :: 0 <= i < |r| && r[i].position == v {
      var k := v - 1;
      assert ids[k] in SetOf(ids);
      assert ids[k] in SectionItemIds(after, sectionId);
      var s :| s in after && s.sectionId == sectionId && s.id == ids[k];
      ListedItemPosition(rows, sectionId, ids, s);
      IndexOfDistinct(ids, k);
      assert s in r;
      var i := IndexOf(r, s);
      assert r[i].position == v;
    }
  }

  /** The reorder answers in list order: for any accepted list (a duplicate-free list of
      the section's item ids, see ItemReorderGuard), whole or partial, the
      k-th item returned is the k-th listed and sits at position k + 1. */
  lemma {:induction false} ReorderReturnsListOrder(rows: seq<Item>, sectionId: SectionId, ids: seq<ItemId>)
    requires UniqueBy(rows, ItemKey)
    requires Distinct(ids) && SetOf(ids) <= SectionItemIds(rows, sectionId)
    ensures var r := Listed(ItemsReordered(rows, sectionId, ids), sectionId, ids);
      && |r| == |ids|
      && forall k :: 0 <= k < |ids| ==> r[k].id == ids[k] && r[k].position == k + 1
  {
    ListOrderOf(rows, sectionId, ids, Listed(ItemsReordered(rows, sectionId, ids), sectionId, ids));
  }

  lemma ListOrderOf(rows: seq<Item>, sectionId: SectionId, ids: seq<ItemId>, r: seq<Item>)
    requires UniqueBy(rows, ItemKey)
    requires Distinct(ids) && SetOf(ids) <= SectionItemIds(rows, sectionId)
    requires r == Listed(ItemsReordered(rows, sectionId, ids), sectionId, ids)
    ensures |r| == |ids|
    ensures forall k :: 0 <= k < |ids| ==> r[k].id == ids[k] && r[k].position == k + 1
  {
    assert |r| == |ids| by {
      ListedCount(rows, sectionId, ids);
    }
    assert forall i :: 0 <= i < |r| ==> 1 <= r[i].position <= |ids| && r[i].id == ids[r[i].position - 1] by {
      ReturnedItemPositions(rows, sectionId, ids, r);
    }
    assert forall v :: v in Range(|ids|) ==> exists i :: 0 <= i < |r| && r[i].position == v by {
      ListedSlotsFilled(rows, sectionId, ids, r);
    }
    ItemsInListOrder(r, ids);
  }

  /** DenseOrder read on item fields. */
  lemma ItemsInListOrder(r: seq<Item>, ids: seq<ItemId>)
    requires |r| == |ids|
    requires SortedBy(r, ItemPosition)
    requires forall i :: 0 <= i < |r| ==> 1 <= r[i].position <= |ids| && r[i].id == ids[r[i].position - 1]
    requires forall v :: v in Range(|ids|) ==> exists i :: 0 <= i < |r| && r[i].position == v
    ensures forall k :: 0 <= k < |r| ==> r[k].id == ids[k] && r[k].position == k + 1
  {
    var ps := seq(|r|, i requires 0 <= i < |r| => r[i].position);
    var ks := seq(|r|, i requires 0 <= i < |r| => r[i].id);
    ItemRun(r, ids, ps, ks);
    ItemRunCovers(r, ids, ps);
    DenseOrder(ps, ks, ids);
    assert forall k :: 0 <= k < |r| ==> ps[k] == r[k].position && ks[k] == r[k].id;
  }

  /** The positions and ids of the rows meet DenseOrder's ordering requirements ... */
  lemma ItemRun(r: seq<Item>, ids: seq<ItemId>, ps: seq<int>, ks: seq<int>)
    requires |r| == |ids|
    requires SortedBy(r, ItemPosition)
    requires forall i :: 0 <= i < |r| ==> 1 <= r[i].position <= |ids| && r[i].id == ids[r[i].position - 1]
    requires |ps| == |ks| == |r|
    requires forall i :: 0 <= i < |r| ==> ps[i] == r[i].position && ks[i] == r[i].id
    ensures forall i, j :: 0 <= i < j < |ps| ==> ps[i] <= ps[j]
    ensures forall i :: 0 <= i < |ps| ==> 1 <= ps[i] <= |ids| && ks[i] == ids[ps[i] - 1]
  {
    forall i, j | 0 <= i < j < |ps| ensures ps[i] <= ps[j] {
      assert ItemPosition(r[i]) <= ItemPosition(r[j]);
    }
    forall i | 0 <= i < |ps| ensures 1 <= ps[i] <= |ids| && ks[i] == ids[ps[i] - 1] {
      assert ps[i] == r[i].position && ks[i] == r[i].id;
    }
  }

  /** ... and its covering requirement. */
  lemma ItemRunCovers(r: seq<Item>, ids: seq<ItemId>, ps: seq<int>)
    requires forall v :: v in Range(|ids|) ==> exists i :: 0 <= i < |r| && r[i].position == v
    requires |ps| == |r|
    requires forall i :: 0 <= i < |r| ==> ps[i] == r[i].position
    ensures Range(|ids|) <= SetOf(ps)
  {
    forall v | v in Range(|ids|) ensures v in SetOf(ps) {
      var i :| 0 <= i < |r| && r[i].position == v;
      assert ps[i] == v;
    }
  }


  /** A created item comes last among its section's items by position. */
  lemma CreatedItemComesLast(rows: seq<Item>, sectionId: SectionId, data: NewItem, creator: UserId)
    ensures var it := NewItemRow(rows, sectionId, data, creator);
      var r := Sort(Filter(rows + [it], InSection(sectionId)), ItemPosition);
      |r| > 0 && r[|r| - 1] == it
  {
    var it := NewItemRow(rows, sectionId, data, creator);
    assert it.sectionId == sectionId;
    AboveAllComesLast(rows, it);
  }

  /** An item appended to a section above all of its positions sorts last. */
  lemma {:induction false} AboveAllComesLast(rows: seq<Item>, it: Item)
    requires forall x :: x in rows && x.sectionId == it.sectionId ==> x.position < it.position
    ensures var r := Sort(Filter(rows + [it], InSection(it.sectionId)), ItemPosition);
      |r| > 0 && r[|r| - 1] == it
  {
    var mine := Filter(rows + [it], InSection(it.sectionId));
    assert it in rows + [it];
    forall y | y in mine && y != it ensures ItemPosition(y) < ItemPosition(it) {
      assert y in rows;
    }
    MaxSortsLast(mine, ItemPosition, it);
  }

}

/** The section's own filter (`Section::filteredItems`): the section's items, narrowed by
    its filter type and filter value, ordered by position. */
module SectionFilter {
  import opened Domain
  import opened Scalars
  import opened Positions

  /** The `where` clause the section's filter adds. A falsy filter value (null, "" or "0")
      adds none; neither does the date filter, whose branch is empty, nor `none`. A
      `filter_value` names an assignee or a tag by its decimal digits. */
  predicate SectionMatch(s: Section, it: Item)
  {
    if Blank(s.filterValue) then true
    else
      var v := s.filterValue.value;
      match s.filterType
      case StatusFilter => StatusCode(it.status) == v
      case PriorityFilter => PriorityCode(it.priority) == v
      case AssignedToFilter => it.assignee.Some? && NamesId(v, it.assignee.value)
      case TagFilter => exists t :: t in it.tags && NamesId(v, t)
      case DateFilter => true
      case NoFilter => true
  }

  /** `$this->items()`: the rows whose `section_id` is the section's. */
  function InSection(id: SectionId): Item -> bool
  {
    (it: Item) => it.sectionId == id
  }

  function Matches(s: Section): Item -> bool
  {
    (it: Item) => it.sectionId == s.id && SectionMatch(s, it)
  }

  /** The section's matching items by ascending position. */
  function FilteredItems(s: Section, items: seq<Item>): (r: seq<Item>)
    ensures SortedBy(r, ItemPosition)
    ensures forall it :: it in r <==> it in items && it.sectionId == s.id && SectionMatch(s, it)
    ensures multiset(r) == multiset(Filter(items, Matches(s)))
    ensures |r| <= |items|
  {
    var mine := Filter(items, Matches(s));
    var r := Sort(mine, ItemPosition);
    assert forall it :: it in r <==> it in mine by {
      forall it ensures it in r <==> it in mine {
        assert it in r <==> it in multiset(r);
        assert it in mine <==> it in multiset(mine);
      }
    }
    r
  }

  /** A section without an effective filter (type `none` or `date`, or a falsy value)
      shows all of its items, by position. */
  lemma {:induction false} UnfilteredSectionShowsAll(s: Section, items: seq<Item>)
    requires s.filterType == NoFilter || s.filterType == DateFilter || Blank(s.filterValue)
    ensures FilteredItems(s, items) == Sort(Filter(items, InSection(s.id)), ItemPosition)
  {
    assert forall it :: it in items ==> Matches(s)(it) == InSection(s.id)(it);
    FilterCongruent(items, Matches(s), InSection(s.id));
  }

  /** A status section keeps exactly its items with that status; one whose value names
      no status keeps nothing. */
  lemma StatusSectionKeeps(s: Section, items: seq<Item>)
    requires s.filterType == StatusFilter && !Blank(s.filterValue)
    ensures forall it :: it in FilteredItems(s, items) <==>
      it in items && it.sectionId == s.id && StatusCode(it.status) == s.filterValue.value
    ensures (forall st :: StatusCode(st) != s.filterValue.value) ==> FilteredItems(s, items) == []
  {
  }

  /** A priority section keeps exactly its items with that priority. */
  lemma PrioritySectionKeeps(s: Section, items: seq<Item>)
    requires s.filterType == PriorityFilter && !Blank(s.filterValue)
    ensures forall it :: it in FilteredItems(s, items) <==>
      it in items && it.sectionId == s.id && PriorityCode(it.priority) == s.filterValue.value
  {
  }

  /** A section filtered on the assignee `u` keeps exactly its items assigned to `u`. */
  lemma AssigneeSectionKeeps(s: Section, items: seq<Item>, u: UserId)
    requires s.filterType == AssignedToFilter && !Blank(s.filterValue)
    requires NamesId(s.filterValue.value, u)
    ensures forall it :: it in FilteredItems(s, items) <==>
      it in items && it.sectionId == s.id && it.assignee == Some(u)
  {
  }

  /** A section filtered on the tag `t` keeps exactly its items carrying `t`. */
  lemma TagSectionKeeps(s: Section, items: seq<Item>, t: TagId)
    requires s.filterType == TagFilter && !Blank(s.filterValue)
    requires NamesId(s.filterValue.value, t)
    ensures forall it :: it in FilteredItems(s, items) <==>
      it in items && it.sectionId == s.id && t in it.tags
  {
    forall it | it in items
      ensures SectionMatch(s, it) <==> t in it.tags
    {
      if SectionMatch(s, it) {
        var t' :| t' in it.tags && NamesId(s.filterValue.value, t');
        assert t' == t;
      }
    }
  }

  /** A value that is not a digit string makes an assignee or tag section empty. */
  lemma NonNumericValueKeepsNothing(s: Section, items: seq<Item>)
    requires s.filterType == AssignedToFilter || s.filterType == TagFilter
    requires !Blank(s.filterValue) && !IsDigits(s.filterValue.value)
    ensures FilteredItems(s, items) == []
  {
  }
}

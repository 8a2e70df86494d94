/** Entities of the Kanban backend: identifiers, the membership role enum, the item
    enums and the table rows that the repositories read and write. */
module Domain {

  type UserId = int
  type ProjectId = int
  type SectionId = int
  type ItemId = int
  type TagId = int

  datatype Option<+T> = None | Some(value: T)

  datatype Result<+R, +E> = Success(value: R) | Failure(error: E)

  /** The `role` column of the project/user pivot after the role-relabelling migration:
      ENUM('owner', 'admin', 'editor', 'member'). */
  datatype Role = Owner | Admin | Editor | Member

  function RoleCode(r: Role): string
  {
    match r
    case Owner => "owner"
    case Admin => "admin"
    case Editor => "editor"
    case Member => "member"
  }

  /** Item status enum (its string value is what the `status` column stores). */
  datatype ItemStatus = Todo | InProgress | Done | Blocked | Archived

  function StatusCode(s: ItemStatus): string
  {
    match s
    case Todo => "todo"
    case InProgress => "in_progress"
    case Done => "done"
    case Blocked => "blocked"
    case Archived => "archived"
  }

  /** Item priority enum. */
  datatype ItemPriority = Low | Medium | High | Urgent

  function PriorityCode(p: ItemPriority): string
  {
    match p
    case Low => "low"
    case Medium => "medium"
    case High => "high"
    case Urgent => "urgent"
  }

  /** The two facts that decide access to a project: the project's `user_id` column and
      its rows of the project/user pivot table, keyed by user id. */
  datatype ProjectAccess = ProjectAccess(owner: UserId, members: map<UserId, Role>)

  /** The `filter_type` column of a section. */
  datatype FilterType = NoFilter | StatusFilter | TagFilter | DateFilter | PriorityFilter | AssignedToFilter

  function FilterTypeCode(t: FilterType): string
  {
    match t
    case NoFilter => "none"
    case StatusFilter => "status"
    case TagFilter => "tag"
    case DateFilter => "date"
    case PriorityFilter => "priority"
    case AssignedToFilter => "assigned_to"
  }

  /** Reads a `filter_type` string back; anything outside the enum has no filter type. */
  function ParseFilterType(s: string): (r: Option<FilterType>)
    ensures r.Some? ==> FilterTypeCode(r.value) == s
  {
    if s == "none" then Some(NoFilter)
    else if s == "status" then Some(StatusFilter)
    else if s == "tag" then Some(TagFilter)
    else if s == "date" then Some(DateFilter)
    else if s == "priority" then Some(PriorityFilter)
    else if s == "assigned_to" then Some(AssignedToFilter)
    else None
  }

  lemma FilterTypeCodeRoundTrip(t: FilterType)
    ensures ParseFilterType(FilterTypeCode(t)) == Some(t)
  {
  }

  /** A row of the `sections` table. */
  datatype Section = Section(
    id: SectionId,
    projectId: ProjectId,
    name: string,
    position: int,
    filterType: FilterType,
    filterValue: Option<string>,
    itemLimit: Option<int>)

  /** A row of the `items` table, together with the set of tag ids the item/tag pivot
      attaches to it. */
  datatype Item = Item(
    id: ItemId,
    sectionId: SectionId,
    title: string,
    description: Option<string>,
    dueDate: Option<string>,
    status: ItemStatus,
    priority: ItemPriority,
    position: int,
    creator: UserId,
    assignee: Option<UserId>,
    tags: set<TagId>)

  function SectionPosition(s: Section): int { s.position }
  function SectionKey(s: Section): int { s.id }
  function ItemPosition(it: Item): int { it.position }
  function ItemKey(it: Item): int { it.id }
}

/** Validation of a section update: the per-field rules, then an `after` hook that checks
    the content of `filter_value` against the filter type it will be used with. The hook
    runs whether or not a rule failed, and it adds at most one error. */
module UpdateSectionRequest {
  import opened Domain
  import opened Scalars

  /** One field of the request body: missing, present as null, or present with a value. */
  datatype Field<+T> = Absent | Null | Given(value: T)

  /** `$this->has($key)`: the key is in the body, even with a null value. */
  predicate Has<T>(f: Field<T>)
  {
    !f.Absent?
  }

  /** `$this->input($key)`: the value, or null when it is null or missing. */
  function Input<T>(f: Field<T>): (r: Option<T>)
    ensures r.Some? <==> f.Given?
    ensures r.Some? ==> r.value == f.value
  {
    if f.Given? then Some(f.value) else None
  }

  /** The body of `PATCH /projects/{project}/sections/{section}`. */
  datatype SectionUpdate = SectionUpdate(
    name: Field<string>,
    filterType: Field<string>,
    filterValue: Field<string>,
    itemLimit: Field<int>)

  datatype Attribute = NameAttr | FilterTypeAttr | FilterValueAttr | ItemLimitAttr

  /** A character PHP's `trim` strips: space, tab, newline, carriage return, NUL and
      vertical tab. */
  predicate IsTrimmed(c: char)
  {
    c == ' ' || c == '\t' || c == '\n' || c == '\r' || c == '\0' || c == '\U{0B}'
  }

  /** `trim($v) === ''`: the string is empty or holds only trimmed characters. */
  predicate TrimsToEmpty(v: string)
  {
    forall i :: 0 <= i < |v| ==> IsTrimmed(v[i])
  }

  /** `sometimes|required|string|max:255`: a present name must hold something besides
      whitespace and be at most 255 characters long. */
  predicate NameFails(f: Field<string>)
  {
    match f
    case Absent => false
    case Null => true
    case Given(v) => TrimsToEmpty(v) || |v| > 255
  }

  /** `sometimes|string|in:none,status,tag,date,priority,assigned_to`. */
  predicate FilterTypeFails(f: Field<string>)
  {
    match f
    case Absent => false
    case Null => true
    case Given(v) => ParseFilterType(v).None?
  }

  /** `sometimes|nullable|string|max:1000`. */
  predicate FilterValueFails(f: Field<string>)
  {
    f.Given? && |f.value| > 1000
  }

  /** `sometimes|nullable|integer|min:1`. */
  predicate ItemLimitFails(f: Field<int>)
  {
    f.Given? && f.value < 1
  }

  /** The attributes whose rules fail. */
  function RuleFailures(u: SectionUpdate): (r: set<Attribute>)
    ensures u.name.Absent? && u.filterType.Absent? && u.filterValue.Absent? && u.itemLimit.Absent? ==> r == {}
    ensures NameAttr !in r <==>
      u.name.Absent? || (u.name.Given? && |u.name.value| <= 255 && exists i :: 0 <= i < |u.name.value| && !IsTrimmed(u.name.value[i]))
    ensures FilterTypeAttr !in r <==>
      u.filterType.Absent? || (u.filterType.Given? && exists t :: FilterTypeCode(t) == u.filterType.value)
    ensures FilterTypeAttr !in r && u.filterType.Given? ==> ParseFilterType(u.filterType.value).Some?
    ensures ItemLimitAttr !in r <==> u.itemLimit.Absent? || u.itemLimit.Null? || u.itemLimit.value >= 1
    ensures FilterValueAttr !in r <==> !u.filterValue.Given? || |u.filterValue.value| <= 1000
  {
    assert u.filterType.Given? ==>
        (ParseFilterType(u.filterType.value).Some? <==> exists t :: FilterTypeCode(t) == u.filterType.value) by {
      if u.filterType.Given? {
        KnownFilterType(u.filterType.value);
      }
    }
    (if NameFails(u.name) then {NameAttr} else {})
    + (if FilterTypeFails(u.filterType) then {FilterTypeAttr} else {})
    + (if FilterValueFails(u.filterValue) then {FilterValueAttr} else {})
    + (if ItemLimitFails(u.itemLimit) then {ItemLimitAttr} else {})
  }

  /** The `in` list is exactly the codes of the six filter types. */
  lemma KnownFilterType(v: string)
    ensures ParseFilterType(v).Some? <==> exists t :: FilterTypeCode(t) == v
  {
    if t :| FilterTypeCode(t) == v {
      FilterTypeCodeRoundTrip(t);
    }
  }

  /** The error the hook adds, named after its translation key. */
  datatype FilterValueError = FilterValueJson | FilterValueTagExists | FilterValueUserExists

  /** What the hook looks up: `json_validate`, and the ids in the `tags` and `users`
      tables. */
  datatype Lookups = Lookups(isJson: string -> bool, tagIds: set<TagId>, userIds: set<UserId>)

  /** The filter type the hook checks against: the request's own `filter_type` when it is
      in the body (null when it is null), otherwise the section's current one. */
  function CheckedType(u: SectionUpdate, current: Section): (r: Option<string>)
    ensures u.filterType.Absent? ==> r == Some(FilterTypeCode(current.filterType))
    ensures u.filterType.Given? ==> r == Some(u.filterType.value)
  {
    match u.filterType
    case Given(v) => Some(v)
    case Null => None
    case Absent => Some(FilterTypeCode(current.filterType))
  }

  /** Does the digit string `v` name a row of `ids`? */
  predicate Exists(v: string, ids: set<int>)
  {
    IsDigits(v) && exists n :: n in ids && NamesId(v, n)
  }

  /** The `after` hook: a run of early returns, then a `switch` on the filter type. */
  function AfterHook(u: SectionUpdate, current: Section, env: Lookups): (r: Option<FilterValueError>)
    ensures !Has(u.filterType) && !Has(u.filterValue) ==> r == None
    ensures !u.filterValue.Given? ==> r == None
    ensures u.filterValue.Given? && Blank(Some(u.filterValue.value)) ==> r == None
    ensures r == Some(FilterValueJson) ==>
      CheckedType(u, current) == Some("date") && !env.isJson(u.filterValue.value)
    ensures r == Some(FilterValueTagExists) ==>
      CheckedType(u, current) == Some("tag") && !Exists(u.filterValue.value, env.tagIds)
    ensures r == Some(FilterValueUserExists) ==>
      CheckedType(u, current) == Some("assigned_to") && !Exists(u.filterValue.value, env.userIds)
  {
    if !Has(u.filterType) && !Has(u.filterValue) then None
    else
      var filterType := CheckedType(u, current);
      var filterValue := Input(u.filterValue);
      if filterValue.None? && Has(u.filterValue) then None
      else if !Has(u.filterValue) && Has(u.filterType) then None
      else if Blank(filterValue) && !Has(u.filterValue) then None
      else if Blank(filterValue) && Has(u.filterValue) then None
      else
        var v := filterValue.value;
        if filterType == Some("date") then
          if env.isJson(v) then None else Some(FilterValueJson)
        else if filterType == Some("tag") then
          if Exists(v, env.tagIds) then None else Some(FilterValueTagExists)
        else if filterType == Some("assigned_to") then
          if Exists(v, env.userIds) then None else Some(FilterValueUserExists)
        else None
  }

  /** The request passes when no rule fails and the hook adds nothing. */
  predicate Passes(u: SectionUpdate, current: Section, env: Lookups)
  {
    RuleFailures(u) == {} && AfterHook(u, current, env) == None
  }

  /** Leaving `filter_type` out checks the value against the section's current type, as
      if that type had been sent. */
  lemma {:induction false} MissingTypeUsesCurrent(u: SectionUpdate, current: Section, env: Lookups)
    requires u.filterType.Absent?
    ensures AfterHook(u, current, env) ==
      AfterHook(u.(filterType := Given(FilterTypeCode(current.filterType))), current, env)
  {
    var sent := u.(filterType := Given(FilterTypeCode(current.filterType)));
    assert CheckedType(u, current) == CheckedType(sent, current);
    if u.filterValue.Given? {
      assert Input(u.filterValue) == Input(sent.filterValue);
    }
  }

  /** With the type `tag`, a non-empty value passes exactly when it is a digit string
      naming an existing tag; otherwise the hook adds the one tag error. */
  lemma {:induction false} TagValueChecked(u: SectionUpdate, current: Section, env: Lookups)
    requires CheckedType(u, current) == Some("tag")
    requires u.filterValue.Given? && !Blank(Some(u.filterValue.value))
    ensures AfterHook(u, current, env) ==
      if IsDigits(u.filterValue.value) && exists t :: t in env.tagIds && NamesId(u.filterValue.value, t)
      then None else Some(FilterValueTagExists)
  {
    assert Input(u.filterValue) == Some(u.filterValue.value);
  }

  /** With the type `assigned_to`, a non-empty value passes exactly when it is a digit
      string naming an existing user; otherwise the hook adds the one user error. */
  lemma {:induction false} AssigneeValueChecked(u: SectionUpdate, current: Section, env: Lookups)
    requires CheckedType(u, current) == Some("assigned_to")
    requires u.filterValue.Given? && !Blank(Some(u.filterValue.value))
    ensures AfterHook(u, current, env) ==
      if IsDigits(u.filterValue.value) && exists n :: n in env.userIds && NamesId(u.filterValue.value, n)
      then None else Some(FilterValueUserExists)
  {
    assert Input(u.filterValue) == Some(u.filterValue.value);
  }

  /** With the type `date`, a non-empty value passes exactly when it is valid JSON. */
  lemma {:induction false} DateValueChecked(u: SectionUpdate, current: Section, env: Lookups)
    requires CheckedType(u, current) == Some("date")
    requires u.filterValue.Given? && !Blank(Some(u.filterValue.value))
    ensures AfterHook(u, current, env) ==
      if env.isJson(u.filterValue.value) then None else Some(FilterValueJson)
  {
    assert Input(u.filterValue) == Some(u.filterValue.value);
  }

  /** The values of status, priority and none sections, and of a null type, are not
      looked at. */
  lemma UncheckedTypes(u: SectionUpdate, current: Section, env: Lookups)
    requires CheckedType(u, current) !in {Some("date"), Some("tag"), Some("assigned_to")}
    ensures AfterHook(u, current, env) == None
  {
  }

  /** A value accepted for a tag or assignee section names exactly one id, so the section's
      filter selects by that id. */
  lemma {:induction false} AcceptedValueNamesOneId(u: SectionUpdate, current: Section, env: Lookups)
    requires CheckedType(u, current) == Some("tag") || CheckedType(u, current) == Some("assigned_to")
    requires u.filterValue.Given? && !Blank(Some(u.filterValue.value))
    requires AfterHook(u, current, env) == None
    ensures var ids := if CheckedType(u, current) == Some("tag") then env.tagIds else env.userIds;
      exists n :: n in ids && NamesId(u.filterValue.value, n)
    ensures forall m, n :: NamesId(u.filterValue.value, m) && NamesId(u.filterValue.value, n) ==> m == n
  {
    if CheckedType(u, current) == Some("tag") {
      TagValueChecked(u, current, env);
    } else {
      AssigneeValueChecked(u, current, env);
    }
  }

  /** A name made only of whitespace fails `required`, while a name with one other
      character passes the name rules. */
  lemma BlankNameRejected()
    ensures NameAttr in RuleFailures(SectionUpdate(Given("  \t"), Absent, Absent, Absent))
    ensures NameAttr !in RuleFailures(SectionUpdate(Given(" a "), Absent, Absent, Absent))
  {
    assert !IsTrimmed(" a "[1]);
  }

  /** A passing request with a `filter_type` carries one of the six filter types. */
  lemma PassingTypeIsKnown(u: SectionUpdate, current: Section, env: Lookups)
    requires Passes(u, current, env) && Has(u.filterType)
    ensures u.filterType.Given? && ParseFilterType(u.filterType.value).Some?
  {
  }
}

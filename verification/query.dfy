/**
  The filters of src/Query/Query.ts and `applyQueryToTasks`. Each closure the parser pushes is a
  `Filter` value here, and `Passes` is what calling it on a task returns; `chrono`/`moment`
  parsing, `Sort.by` and `Group.by` are not part of this model and enter as parameters.
*/
module QueryFilters {
  import opened Wrappers
  import opened Text
  import opened Dates
  import opened Statuses
  import opened Tasks
  import opened Filtering

  /** The task dates a date filter reads. */
  datatype DateField = StartField | ScheduledField | DueField | DoneField

  /** `before`, `after`, and `on` (also what a missing comparison word means). */
  datatype Comparison = IsBefore | IsAfter | IsOn

  /** `above`, `below`, or neither (`priority is X`). */
  datatype PriorityRelation = Above | Below | Exactly

  /** One pushed filter closure, with the values it captured. */
  datatype Filter =
    | StatusDone(done: bool)
    | Recurring(recurring: bool)
    | TopLevel
    | HasDate(field: DateField, present: bool)
    | PriorityFilter(relation: PriorityRelation, priority: Priority)
    | Happens(comparison: Comparison, happensOn: Date)
    | DateFilter(field: DateField, comparison: Comparison, filterDate: Option<Date>)
    | StatusIs(indicator: string, equal: bool)
    | PathIncludes(needle: string, includes: bool)
    | DescriptionIncludes(needle: string, globalFilter: string, includes: bool)
    | TagIncludes(search: string, includes: bool)
    | HeadingIncludes(needle: string, includes: bool)

  function DateOf(t: Task, field: DateField): Option<Date> {
    match field
    case StartField => t.startDate
    case ScheduledField => t.scheduledDate
    case DueField => t.dueDate
    case DoneField => t.doneDate
  }

  /**
    `isBefore`/`isAfter`/`isSame` against the parsed filter date; `None` is an invalid moment,
    against which every comparison is false.
  */
  predicate Compares(d: Date, comparison: Comparison, filterDate: Option<Date>) {
    match filterDate
    case None => false
    case Some(f) =>
      match comparison
      case IsBefore => Before(d, f)
      case IsAfter => After(d, f)
      case IsOn => d == f
  }

  /** The enum's string value: `'1'` for High up to `'4'` for Low. */
  function PriorityValue(p: Priority): string {
    match p
    case High => "1"
    case Medium => "2"
    case NoPriority => "3"
    case Low => "4"
  }

  /** `localeCompare` on strings of ASCII digits: the sign of the first difference, shorter first. */
  function LocaleCompare(a: string, b: string): (r: int)
    ensures -1 <= r <= 1
  {
    if a == [] && b == [] then 0
    else if a == [] then -1
    else if b == [] then 1
    else if a[0] < b[0] then -1
    else if a[0] > b[0] then 1
    else LocaleCompare(a[1..], b[1..])
  }

  /** `dates.some((date) => date && compare(date))`. */
  predicate SomeDate(dates: seq<Option<Date>>, comparison: Comparison, filterDate: Date) {
    if dates == [] then false
    else (dates[0].Some? && Compares(dates[0].value, comparison, Some(filterDate))) || SomeDate(dates[1..], comparison, filterDate)
  }

  /** `tags.find((tag) => tag.toLowerCase().includes(search.toLowerCase()))`: the first matching tag's index. */
  function FindTag(tags: seq<string>, search: string): (r: Option<nat>)
    ensures r.Some? ==> r.value < |tags| && ContainsIgnoreCase(tags[r.value], search)
    ensures r.None? <==> forall i :: 0 <= i < |tags| ==> !ContainsIgnoreCase(tags[i], search)
  {
    if tags == [] then None
    else if ContainsIgnoreCase(tags[0], search) then Some(0)
    else match FindTag(tags[1..], search)
      case None => None
      case Some(i) => Some(i + 1)
  }

  /** The description a description filter searches: the first occurrence of the global filter removed, then trimmed. */
  function SearchedDescription(t: Task, globalFilter: string): string {
    Trim(ReplaceFirst(t.description, globalFilter, ""))
  }

  /** What the pushed closure returns for a task. */
  predicate Passes(f: Filter, t: Task) {
    match f
    case StatusDone(done) => (t.status == Done) == done
    case Recurring(recurring) => t.recurrence.Some? == recurring
    case TopLevel => t.indentation == ""
    case HasDate(field, present) => DateOf(t, field).Some? == present
    case PriorityFilter(relation, p) =>
      var c := LocaleCompare(PriorityValue(t.priority), PriorityValue(p));
      (match relation
       case Above => c < 0
       case Below => c > 0
       case Exactly => t.priority == p)
    case Happens(comparison, d) => SomeDate([t.startDate, t.scheduledDate, t.dueDate], comparison, d)
    case DateFilter(field, comparison, d) =>
      (match DateOf(t, field)
       case None => field == StartField
       case Some(v) => Compares(v, comparison, d))
    case StatusIs(indicator, equal) => (t.status.indicator == indicator) == equal
    case PathIncludes(needle, includes) => ContainsIgnoreCase(t.path, needle) == includes
    case DescriptionIncludes(needle, globalFilter, includes) =>
      ContainsIgnoreCase(SearchedDescription(t, globalFilter), needle) == includes
    case TagIncludes(search, includes) => FindTag(t.tags, search).Some? == includes
    case HeadingIncludes(needle, includes) =>
      if includes then t.precedingHeader.Some? && ContainsIgnoreCase(t.precedingHeader.value, needle)
      else t.precedingHeader.None? || !ContainsIgnoreCase(t.precedingHeader.value, needle)
  }

  /**
    Priority filters order priorities by their codes: `above` keeps strictly smaller codes
    (more urgent), `below` strictly larger ones, `is` the same priority.
  */
  lemma PriorityOrder(relation: PriorityRelation, p: Priority, t: Task)
    ensures Passes(PriorityFilter(Above, p), t) <==> t.priority.Code() < p.Code()
    ensures Passes(PriorityFilter(Below, p), t) <==> t.priority.Code() > p.Code()
    ensures Passes(PriorityFilter(Exactly, p), t) <==> t.priority.Code() == p.Code()
  {
    ValueCompare(t.priority, p);
    CodeInjective(t.priority, p);
  }

  /** Comparing the one-digit string values compares the codes. */
  lemma ValueCompare(p: Priority, q: Priority)
    ensures LocaleCompare(PriorityValue(p), PriorityValue(q)) < 0 <==> p.Code() < q.Code()
    ensures LocaleCompare(PriorityValue(p), PriorityValue(q)) > 0 <==> p.Code() > q.Code()
  {
    var a, b := PriorityValue(p), PriorityValue(q);
    assert a[1..] == [] && b[1..] == [];
    assert a[0] as int - '0' as int == p.Code() && b[0] as int - '0' as int == q.Code();
  }

  /** Every task passes exactly one of `above p`, `is p` and `below p`. */
  lemma PriorityTrichotomy(p: Priority, t: Task)
    ensures Passes(PriorityFilter(Above, p), t) || Passes(PriorityFilter(Exactly, p), t) || Passes(PriorityFilter(Below, p), t)
    ensures !(Passes(PriorityFilter(Above, p), t) && Passes(PriorityFilter(Exactly, p), t))
    ensures !(Passes(PriorityFilter(Above, p), t) && Passes(PriorityFilter(Below, p), t))
    ensures !(Passes(PriorityFilter(Exactly, p), t) && Passes(PriorityFilter(Below, p), t))
  {
    PriorityOrder(Above, p, t);
  }

  /** Nothing is above High and nothing is below Low. */
  lemma PriorityExtremes(t: Task)
    ensures !Passes(PriorityFilter(Above, High), t)
    ensures !Passes(PriorityFilter(Below, Low), t)
  {
    PriorityOrder(Above, High, t);
    PriorityOrder(Below, Low, t);
  }

  /**
    The absent-date policy: a task with no start date passes every `starts` filter, and a task
    missing its scheduled, due or done date fails every filter on that date.
  */
  lemma AbsentDates(comparison: Comparison, d: Option<Date>, field: DateField, t: Task)
    requires DateOf(t, field).None?
    ensures Passes(DateFilter(field, comparison, d), t) <==> field == StartField
  {
  }

  /** A filter on a present date compares it, and an unparseable filter date rejects it. */
  lemma PresentDate(comparison: Comparison, d: Option<Date>, field: DateField, t: Task)
    requires DateOf(t, field).Some?
    ensures d.None? ==> !Passes(DateFilter(field, comparison, d), t)
    ensures d.Some? && comparison == IsBefore ==> (Passes(DateFilter(field, comparison, d), t) <==> Before(DateOf(t, field).value, d.value))
    ensures d.Some? && comparison == IsAfter ==> (Passes(DateFilter(field, comparison, d), t) <==> Before(d.value, DateOf(t, field).value))
    ensures d.Some? && comparison == IsOn ==> (Passes(DateFilter(field, comparison, d), t) <==> DateOf(t, field).value == d.value)
  {
  }

  /** A task with the date passes exactly one of the `before`, `on` and `after` filters for a parsed date. */
  lemma DateTrichotomy(field: DateField, d: Date, t: Task)
    requires DateOf(t, field).Some?
    ensures Passes(DateFilter(field, IsBefore, Some(d)), t) || Passes(DateFilter(field, IsOn, Some(d)), t) || Passes(DateFilter(field, IsAfter, Some(d)), t)
    ensures !(Passes(DateFilter(field, IsBefore, Some(d)), t) && Passes(DateFilter(field, IsOn, Some(d)), t))
    ensures !(Passes(DateFilter(field, IsBefore, Some(d)), t) && Passes(DateFilter(field, IsAfter, Some(d)), t))
    ensures !(Passes(DateFilter(field, IsOn, Some(d)), t) && Passes(DateFilter(field, IsAfter, Some(d)), t))
  {
    PresentDate(IsBefore, Some(d), field, t);
    PresentDate(IsOn, Some(d), field, t);
    PresentDate(IsAfter, Some(d), field, t);
  }

  /**
    `happens` passes exactly when one of the start, scheduled and due dates is present and
    satisfies the comparison; the done date is not consulted, and a task with none of the three
    fails.
  */
  lemma HappensIff(comparison: Comparison, d: Date, t: Task)
    ensures Passes(Happens(comparison, d), t) <==>
      exists field :: field != DoneField && DateOf(t, field).Some? && Compares(DateOf(t, field).value, comparison, Some(d))
  {
    SomeOfThree(t.startDate, t.scheduledDate, t.dueDate, comparison, d);
    if Passes(Happens(comparison, d), t) {
      if t.startDate.Some? && Compares(t.startDate.value, comparison, Some(d)) {
        assert DateOf(t, StartField) == t.startDate;
      } else if t.scheduledDate.Some? && Compares(t.scheduledDate.value, comparison, Some(d)) {
        assert DateOf(t, ScheduledField) == t.scheduledDate;
      } else {
        assert DateOf(t, DueField) == t.dueDate;
      }
    }
  }

  lemma SomeOfThree(a: Option<Date>, b: Option<Date>, c: Option<Date>, comparison: Comparison, d: Date)
    ensures SomeDate([a, b, c], comparison, d) <==>
      (a.Some? && Compares(a.value, comparison, Some(d))) || (b.Some? && Compares(b.value, comparison, Some(d))) ||
      (c.Some? && Compares(c.value, comparison, Some(d)))
  {
    assert [a, b, c][1..] == [b, c] && [b, c][1..] == [c] && [c][1..] == [];
    assert SomeDate([c], comparison, d) == (c.Some? && Compares(c.value, comparison, Some(d)));
    assert SomeDate([b, c], comparison, d) == ((b.Some? && Compares(b.value, comparison, Some(d))) || SomeDate([c], comparison, d));
  }

  /** The `status is` and `status is not` filters on the same indicator are complementary. */
  lemma StatusComplement(indicator: string, t: Task)
    ensures Passes(StatusIs(indicator, true), t) <==> t.status.indicator == indicator
    ensures Passes(StatusIs(indicator, false), t) <==> !Passes(StatusIs(indicator, true), t)
  {
  }

  /**
    `tag includes` holds exactly when some tag contains the search term, letter case aside, and
    `tag does not include` is its negation.
  */
  lemma TagComplement(search: string, t: Task)
    ensures Passes(TagIncludes(search, true), t) <==> exists i :: 0 <= i < |t.tags| && ContainsIgnoreCase(t.tags[i], search)
    ensures Passes(TagIncludes(search, false), t) <==> !Passes(TagIncludes(search, true), t)
  {
  }

  /**
    For path, description and heading, `includes` and `does not include` with the same text are
    complementary on every task; a task without a heading fails `heading includes` and passes
    `heading does not include`.
  */
  lemma IncludesComplement(needle: string, globalFilter: string, t: Task)
    ensures Passes(PathIncludes(needle, false), t) <==> !Passes(PathIncludes(needle, true), t)
    ensures Passes(DescriptionIncludes(needle, globalFilter, false), t) <==> !Passes(DescriptionIncludes(needle, globalFilter, true), t)
    ensures Passes(HeadingIncludes(needle, false), t) <==> !Passes(HeadingIncludes(needle, true), t)
    ensures t.precedingHeader.None? ==> !Passes(HeadingIncludes(needle, true), t) && Passes(HeadingIncludes(needle, false), t)
  {
  }

  /** Case does not matter on either side of an includes filter. */
  lemma PathIgnoresCase(needle: string, t: Task)
    ensures Passes(PathIncludes(needle, true), t) <==> Passes(PathIncludes(ToLower(needle), true), t.(path := ToLower(t.path)))
  {
    LowerIdempotent(needle);
    LowerIdempotent(t.path);
  }

  lemma LowerIdempotent(s: string)
    ensures ToLower(ToLower(s)) == ToLower(s)
  {
  }

  /**
    The description filter does not see the global filter: when the description is the global
    filter, a space and the text, it searches only the text.
  */
  lemma DescriptionSkipsGlobalFilter(globalFilter: string, text: string, needle: string, t: Task)
    requires globalFilter != [] && IsTrimmed(text)
    requires t.description == globalFilter + " " + text
    ensures Passes(DescriptionIncludes(needle, globalFilter, true), t) <==> ContainsIgnoreCase(text, needle)
  {
    SearchedText(globalFilter, text, t);
  }

  lemma SearchedText(globalFilter: string, text: string, t: Task)
    requires IsTrimmed(text)
    requires t.description == globalFilter + " " + text
    ensures SearchedDescription(t, globalFilter) == text
  {
    assert t.description == globalFilter + (" " + text);
    ReplaceFront(globalFilter, " " + text);
    TrimLeadingSpace(text);
  }

  /** Removing the first occurrence of a prefix removes the prefix. */
  lemma ReplaceFront(p: string, rest: string)
    ensures ReplaceFirst(p + rest, p, "") == rest
  {
    assert (p + rest)[0..|p|] == p;
    assert OccursAt(p + rest, p, 0);
    assert (p + rest)[|p|..] == rest;
  }

  /** Trimming a space in front of a trimmed text gives the text. */
  lemma TrimLeadingSpace(text: string)
    requires IsTrimmed(text)
    ensures Trim(" " + text) == text
  {
    assert (" " + text)[1..] == text;
    assert TrimStart(" " + text) == TrimStart(text);
    TrimOfTrimmed(text);
  }

  /** `applyQueryToTasks`'s filter loop over the tasks, each filter being `Passes`. */
  function FilterTasks(filters: seq<Filter>, tasks: seq<Task>): (r: seq<Task>)
    ensures |r| <= |tasks|
  {
    FilterAll(filters, tasks, Passes)
  }

  /** `slice(0, limit)`: the first `limit` tasks, or all of them when no limit is set. */
  function Take(tasks: seq<Task>, limit: Option<nat>): (r: seq<Task>)
    ensures limit.None? ==> r == tasks
    ensures limit.Some? ==> |r| == if limit.value < |tasks| then limit.value else |tasks|
    ensures forall i :: 0 <= i < |r| ==> r[i] == tasks[i]
  {
    match limit
    case None => tasks
    case Some(n) => if n < |tasks| then tasks[..n] else tasks
  }

  /**
    `applyQueryToTasks` up to grouping: filter, sort (a parameter: Sort.ts is not part of this
    model), then cut to the limit.
  */
  function ApplyFilters<S>(filters: seq<Filter>, sorting: S, limit: Option<nat>, tasks: seq<Task>,
                           sort: (S, seq<Task>) -> seq<Task>): (r: seq<Task>)
    ensures var sorted := sort(sorting, FilterTasks(filters, tasks));
      && |r| <= |sorted| && r == sorted[..|r|]
      && (limit.None? ==> r == sorted)
      && (limit.Some? ==> |r| == if limit.value < |sorted| then limit.value else |sorted|)
  {
    Take(sort(sorting, FilterTasks(filters, tasks)), limit)
  }

  /**
    When the sort only reorders its input, every task in the result is an input task passing
    every filter, and without a limit every such task is in the result.
  */
  lemma ApplyFiltersSound<S>(filters: seq<Filter>, sorting: S, limit: Option<nat>, tasks: seq<Task>,
                             sort: (S, seq<Task>) -> seq<Task>)
    requires multiset(sort(sorting, FilterTasks(filters, tasks))) == multiset(FilterTasks(filters, tasks))
    ensures forall t :: t in ApplyFilters(filters, sorting, limit, tasks, sort) ==> t in tasks && PassesAll(filters, t, Passes)
    ensures limit.None? ==> forall t :: t in tasks && PassesAll(filters, t, Passes) ==> t in ApplyFilters(filters, sorting, limit, tasks, sort)
  {
    var sorted := sort(sorting, FilterTasks(filters, tasks));
    var r := ApplyFilters(filters, sorting, limit, tasks, sort);
    FilterAllSelects(filters, tasks, Passes);
    SelectedSound(tasks, filters, Passes);
    forall t | t in r ensures t in tasks && PassesAll(filters, t, Passes) {
      var i :| 0 <= i < |r| && r[i] == t;
      assert t in sorted;
      assert t in multiset(sorted);
    }
    if limit.None? {
      forall t | t in tasks && PassesAll(filters, t, Passes) ensures t in r {
        assert t in multiset(FilterTasks(filters, tasks));
      }
    }
  }
}

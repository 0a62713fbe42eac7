/**
  The `Query` constructor of src/Query/Query.ts: the source is split at `\n`, each line trimmed,
  and each line dispatched through the constructor's `switch (true)`. Every regex the switch
  tests is written out as a matcher below; the `parse*` method it calls is `Compile`'s case for
  that kind of line. The date parser, the status registry and the global filter setting are
  parameters.
*/
module Query {
  import opened Wrappers
  import opened Text
  import opened Dates
  import opened Statuses
  import opened Tasks
  import opened QueryFilters

  /** The `SortingProperty` names. */
  datatype SortingProperty = ByUrgency | ByStatus | ByPriority | ByStart | ByScheduled | ByDue | ByDone | ByPath | ByDescription | ByTag

  const SortingProperties: seq<SortingProperty> :=
    [ByUrgency, ByStatus, ByPriority, ByStart, ByScheduled, ByDue, ByDone, ByPath, ByDescription, ByTag]
  /** The sort regex's alternatives, in the regex's order. */
  const SortingWords: seq<string> :=
    ["urgency", "status", "priority", "start", "scheduled", "due", "done", "path", "description", "tag"]

  /** One `sort by` entry. */
  datatype Sorting = Sorting(property: SortingProperty, reverse: bool, propertyInstance: nat)

  /** The `GroupingProperty` names. */
  datatype GroupingProperty = GroupByBacklink | GroupByFilename | GroupByFolder | GroupByHeading | GroupByPath | GroupByStatus

  const GroupingProperties: seq<GroupingProperty> :=
    [GroupByBacklink, GroupByFilename, GroupByFolder, GroupByHeading, GroupByPath, GroupByStatus]
  const GroupingWords: seq<string> := ["backlink", "filename", "folder", "heading", "path", "status"]

  /** The nine things `hide` can hide. */
  datatype HideOption =
    HideTaskCount | HideBacklink | HidePriority | HideStartDate | HideScheduledDate | HideDoneDate | HideDueDate | HideRecurrenceRule | HideEditButton

  const HideOptions: seq<HideOption> :=
    [HideTaskCount, HideBacklink, HidePriority, HideStartDate, HideScheduledDate, HideDoneDate, HideDueDate, HideRecurrenceRule, HideEditButton]
  const HideWords: seq<string> :=
    ["task count", "backlink", "priority", "start date", "scheduled date", "done date", "due date", "recurrence rule", "edit button"]

  const Priorities: seq<Priority> := [Low, NoPriority, Medium, High]
  const PriorityWords: seq<string> := ["low", "none", "medium", "high"]

  const Comparisons: seq<Comparison> := [IsBefore, IsAfter, IsOn]
  const ComparisonWords: seq<string> := ["before", "after", "on"]

  /**
    A regex alternation `(a|b|...)` whose continuation always matches: the first alternative, in
    order from `k`, that `s` starts with.
  */
  function FirstPrefix(s: string, words: seq<string>, k: nat): (r: Option<nat>)
    requires k <= |words|
    ensures r.Some? ==> k <= r.value < |words| && StartsWith(s, words[r.value])
    ensures r.Some? ==> forall j :: k <= j < r.value ==> !StartsWith(s, words[j])
    ensures r.None? <==> forall j :: k <= j < |words| ==> !StartsWith(s, words[j])
    decreases |words| - k
  {
    if k == |words| then None
    else if StartsWith(s, words[k]) then Some(k)
    else FirstPrefix(s, words, k + 1)
  }

  /** `\d+` at the start, taken greedily. */
  function DigitRun(s: string): (r: string)
    ensures StartsWith(s, r) && AllDigits(r)
    ensures |r| < |s| ==> !IsDigit(s[|r|])
  {
    if s == [] || !IsDigit(s[0]) then [] else [s[0]] + DigitRun(s[1..])
  }

  /** The twelve lines the switch compares whole, with the filter each pushes. */
  function FixedFilter(line: string): Option<Filter> {
    if line == "done" then Some(StatusDone(true))
    else if line == "not done" then Some(StatusDone(false))
    else if line == "is recurring" then Some(Recurring(true))
    else if line == "is not recurring" then Some(Recurring(false))
    else if line == "exclude sub-items" then Some(TopLevel)
    else if line == "no start date" then Some(HasDate(StartField, false))
    else if line == "no scheduled date" then Some(HasDate(ScheduledField, false))
    else if line == "no due date" then Some(HasDate(DueField, false))
    else if line == "has start date" then Some(HasDate(StartField, true))
    else if line == "has scheduled date" then Some(HasDate(ScheduledField, true))
    else if line == "has due date" then Some(HasDate(DueField, true))
    else None
  }

  /**
    `^priority (is )?(above|below)? ?(low|none|medium|high)`: every optional part is taken when
    present, and no backtracking can rescue a line this rejects.
  */
  function MatchPriority(line: string): (r: Option<(PriorityRelation, Priority)>)
    ensures r.Some? ==> StartsWith(line, "priority ")
  {
    if !StartsWith(line, "priority ") then None
    else
      var a := line[9..];
      var b := if StartsWith(a, "is ") then a[3..] else a;
      var (relation, c) :=
        if StartsWith(b, "above") then (Above, b[5..])
        else if StartsWith(b, "below") then (Below, b[5..])
        else (Exactly, b);
      var d := if StartsWith(c, " ") then c[1..] else c;
      match FirstPrefix(d, PriorityWords, 0)
      case None => None
      case Some(i) => Some((relation, Priorities[i]))
  }

  /**
    `^<keyword> (before|after|on)? ?(.*)`, shared by happens, starts, scheduled, due and done: the
    comparison word (`on` when there is none) and the date text.
  */
  function MatchDateLine(line: string, keyword: string): (r: Option<(Comparison, string)>)
    ensures r.Some? <==> StartsWith(line, keyword + " ")
  {
    if !StartsWith(line, keyword + " ") then None
    else
      var a := line[|keyword| + 1..];
      var (comparison, b) :=
        match FirstPrefix(a, ComparisonWords, 0)
        case Some(i) => (Comparisons[i], a[|ComparisonWords[i]|..])
        case None => (IsOn, a);
      var c := if StartsWith(b, " ") then b[1..] else b;
      Some((comparison, LineContent(c)))
  }

  /** `^status (is not|is) (.*)`: whether the test is equality, and the indicator. */
  function MatchStatus(line: string): (r: Option<(bool, string)>)
    ensures r.Some? <==> StartsWith(line, "status is ")
  {
    if StartsWith(line, "status is not ") then Some((false, LineContent(line[14..])))
    else if StartsWith(line, "status is ") then Some((true, LineContent(line[10..])))
    else None
  }

  /** `^<keyword> (includes|does not include) (.*)`, shared by path, description and heading. */
  function MatchIncludes(line: string, keyword: string): (r: Option<(bool, string)>)
    ensures r.Some? ==> StartsWith(line, keyword + " ")
  {
    var head := keyword + " ";
    if !StartsWith(line, head) then None
    else
      var a := line[|head|..];
      if StartsWith(a, "includes ") then Some((true, LineContent(a[9..])))
      else if StartsWith(a, "does not include ") then Some((false, LineContent(a[17..])))
      else None
  }

  /**
    `^(tag|tags) (includes|does not include|include|do not include) (.*)`, then one leading `#`
    removed from the search term.
  */
  function MatchTag(line: string): (r: Option<(bool, string)>)
    ensures r.Some? ==> StartsWith(line, "tag ") || StartsWith(line, "tags ")
  {
    var a :=
      if StartsWith(line, "tag ") then Some(line[4..])
      else if StartsWith(line, "tags ") then Some(line[5..])
      else None;
    if a.None? then None
    else
      var b := a.value;
      var m :=
        if StartsWith(b, "includes ") then Some((true, b[9..]))
        else if StartsWith(b, "does not include ") then Some((false, b[17..]))
        else if StartsWith(b, "include ") then Some((true, b[8..]))
        else if StartsWith(b, "do not include ") then Some((false, b[15..]))
        else None;
      if m.None? then None
      else
        var term := LineContent(m.value.1);
        Some((m.value.0, if StartsWith(term, "#") then term[1..] else term))
  }

  /** `^limit (to )?(\d+)( tasks?)?`: the number, read as decimal. */
  function MatchLimit(line: string): (r: Option<nat>)
    ensures r.Some? ==> StartsWith(line, "limit ")
  {
    if !StartsWith(line, "limit ") then None
    else
      var a := line[6..];
      var b := if StartsWith(a, "to ") then a[3..] else a;
      var digits := DigitRun(b);
      if digits == [] then None else Some(DigitsValue(digits))
  }

  /**
    `^sort by (<property>)( reverse)?[\s]*(\d+)?`: the property, whether ` reverse` follows it,
    and the number after that (1 when there is none).
  */
  function MatchSort(line: string): (r: Option<Sorting>)
    ensures r.Some? ==> StartsWith(line, "sort by ")
  {
    if !StartsWith(line, "sort by ") then None
    else
      var a := line[8..];
      match FirstPrefix(a, SortingWords, 0)
      case None => None
      case Some(i) =>
        var b := a[|SortingWords[i]|..];
        var reverse := StartsWith(b, " reverse");
        Some(Sorting(SortingProperties[i], reverse, SortInstance(if reverse then b[8..] else b)))
  }

  /** `[\s]*(\d+)?` and the instance it gives: the number after the spaces, 1 when there is none. */
  function SortInstance(c: string): nat
    decreases |c|
  {
    if c != [] && IsSpace(c[0]) then SortInstance(c[1..])
    else
      var digits := DigitRun(c);
      if digits == [] then 1 else DigitsValue(digits)
  }

  /** `^group by (backlink|filename|folder|heading|path|status)`. */
  function MatchGroup(line: string): (r: Option<GroupingProperty>)
    ensures r.Some? ==> StartsWith(line, "group by ")
  {
    if !StartsWith(line, "group by ") then None
    else match FirstPrefix(line[9..], GroupingWords, 0)
      case None => None
      case Some(i) => Some(GroupingProperties[i])
  }

  /** `^hide (task count|backlink|...|edit button)`. */
  function MatchHide(line: string): (r: Option<HideOption>)
    ensures r.Some? ==> StartsWith(line, "hide ")
  {
    if !StartsWith(line, "hide ") then None
    else match FirstPrefix(line[5..], HideWords, 0)
      case None => None
      case Some(i) => Some(HideOptions[i])
  }

  /** What the switch makes of one trimmed line, with the values its regex captured. */
  datatype Line =
    | Blank
    | Fixed(filter: Filter)
    | ShortMode
    | PriorityLine(relation: PriorityRelation, priority: Priority)
    | HappensLine(comparison: Comparison, dateText: string)
    | DateLine(field: DateField, comparison: Comparison, dateText: string)
    | StatusLine(equal: bool, indicator: string)
    | PathLine(includes: bool, needle: string)
    | DescriptionLine(includes: bool, needle: string)
    | TagLine(includes: bool, search: string)
    | HeadingLine(includes: bool, needle: string)
    | LimitLine(limit: nat)
    | SortLine(sorting: Sorting)
    | GroupLine(grouping: GroupingProperty)
    | HideLine(option: HideOption)
    | Comment
    | Unknown

  /** The constructor's switch cases other than `default`. */
  datatype Case =
    | BlankCase | FixedCase | ShortCase | PriorityCase | HappensCase | StartsCase | ScheduledCase | DueCase | DoneCase
    | StatusCase | PathCase | DescriptionCase | TagCase | HeadingCase | LimitCase | SortCase | GroupCase | HideCase | CommentCase

  /** A case's position in the switch. */
  function Rank(c: Case): (n: nat)
    ensures n <= 18
  {
    match c
    case BlankCase => 0
    case FixedCase => 1
    case ShortCase => 2
    case PriorityCase => 3
    case HappensCase => 4
    case StartsCase => 5
    case ScheduledCase => 6
    case DueCase => 7
    case DoneCase => 8
    case StatusCase => 9
    case PathCase => 10
    case DescriptionCase => 11
    case TagCase => 12
    case HeadingCase => 13
    case LimitCase => 14
    case SortCase => 15
    case GroupCase => 16
    case HideCase => 17
    case CommentCase => 18
  }

  /** The case after `c` in the switch, none after the comment case. */
  function Next(c: Case): (r: Option<Case>)
    ensures r.Some? ==> Rank(r.value) == Rank(c) + 1
    ensures r.None? <==> c == CommentCase
  {
    match c
    case BlankCase => Some(FixedCase)
    case FixedCase => Some(ShortCase)
    case ShortCase => Some(PriorityCase)
    case PriorityCase => Some(HappensCase)
    case HappensCase => Some(StartsCase)
    case StartsCase => Some(ScheduledCase)
    case ScheduledCase => Some(DueCase)
    case DueCase => Some(DoneCase)
    case DoneCase => Some(StatusCase)
    case StatusCase => Some(PathCase)
    case PathCase => Some(DescriptionCase)
    case DescriptionCase => Some(TagCase)
    case TagCase => Some(HeadingCase)
    case HeadingCase => Some(LimitCase)
    case LimitCase => Some(SortCase)
    case SortCase => Some(GroupCase)
    case GroupCase => Some(HideCase)
    case HideCase => Some(CommentCase)
    case CommentCase => None
  }

  /** A case's test, with what its regex captured when the test holds. */
  function Read(c: Case, line: string): Option<Line> {
    match c
    case BlankCase => if line == "" then Some(Blank) else None
    case FixedCase => (match FixedFilter(line) case Some(f) => Some(Fixed(f)) case None => None)
    case ShortCase => if StartsWith(line, "short") then Some(ShortMode) else None
    case PriorityCase => (match MatchPriority(line) case Some((relation, p)) => Some(PriorityLine(relation, p)) case None => None)
    case HappensCase => (match MatchDateLine(line, "happens") case Some((cmp, text)) => Some(HappensLine(cmp, text)) case None => None)
    case StartsCase => ReadDate(line, "starts", StartField)
    case ScheduledCase => ReadDate(line, "scheduled", ScheduledField)
    case DueCase => ReadDate(line, "due", DueField)
    case DoneCase => ReadDate(line, "done", DoneField)
    case StatusCase => (match MatchStatus(line) case Some((equal, x)) => Some(StatusLine(equal, x)) case None => None)
    case PathCase => (match MatchIncludes(line, "path") case Some((inc, x)) => Some(PathLine(inc, x)) case None => None)
    case DescriptionCase => (match MatchIncludes(line, "description") case Some((inc, x)) => Some(DescriptionLine(inc, x)) case None => None)
    case TagCase => (match MatchTag(line) case Some((inc, x)) => Some(TagLine(inc, x)) case None => None)
    case HeadingCase => (match MatchIncludes(line, "heading") case Some((inc, x)) => Some(HeadingLine(inc, x)) case None => None)
    case LimitCase => (match MatchLimit(line) case Some(n) => Some(LimitLine(n)) case None => None)
    case SortCase => (match MatchSort(line) case Some(s) => Some(SortLine(s)) case None => None)
    case GroupCase => (match MatchGroup(line) case Some(g) => Some(GroupLine(g)) case None => None)
    case HideCase => (match MatchHide(line) case Some(o) => Some(HideLine(o)) case None => None)
    case CommentCase => if StartsWith(line, "#") then Some(Comment) else None
  }

  function ReadDate(line: string, keyword: string, field: DateField): Option<Line> {
    match MatchDateLine(line, keyword)
    case Some((cmp, text)) => Some(DateLine(field, cmp, text))
    case None => None
  }

  /** The switch from case `c` on: the first case whose test holds, else `default`. */
  function Dispatch(line: string, c: Case): Line
    decreases 18 - Rank(c)
  {
    match Read(c, line)
    case Some(l) => l
    case None =>
      match Next(c)
      case None => Unknown
      case Some(n) => Dispatch(line, n)
  }

  /** The constructor's `switch (true)` on one line. */
  function Classify(line: string): Line {
    Dispatch(line, BlankCase)
  }

  /** The parser's collaborators: chrono's date parsing (None for an invalid moment), the status registry, the global filter setting. */
  datatype QueryEnv = QueryEnv(parseDate: string -> Option<Date>, registry: Registry, globalFilter: string)

  /** A parsed query: the fields the constructor fills in. */
  datatype Query = Query(
    source: string,
    limit: Option<nat>,
    layout: LayoutOptions,
    filters: seq<Filter>,
    error: Option<string>,
    sorting: seq<Sorting>,
    grouping: seq<GroupingProperty>)

  /** The field initialisers, before any line is read. */
  function Fresh(source: string): Query {
    Query(source, None, DefaultLayout, [], None, [], [])
  }

  /** A layout flag by option. */
  function Hidden(l: LayoutOptions, o: HideOption): bool {
    match o
    case HideTaskCount => l.hideTaskCount
    case HideBacklink => l.hideBacklinks
    case HidePriority => l.hidePriority
    case HideStartDate => l.hideStartDate
    case HideScheduledDate => l.hideScheduledDate
    case HideDoneDate => l.hideDoneDate
    case HideDueDate => l.hideDueDate
    case HideRecurrenceRule => l.hideRecurrenceRule
    case HideEditButton => l.hideEditButton
  }

  /** `parseHideOptions`: sets exactly the flag of the option and changes no other. */
  function Hide(l: LayoutOptions, o: HideOption): (r: LayoutOptions)
    ensures Hidden(r, o)
    ensures forall other :: other != o ==> Hidden(r, other) == Hidden(l, other)
    ensures r.shortMode == l.shortMode
  {
    match o
    case HideTaskCount => l.(hideTaskCount := true)
    case HideBacklink => l.(hideBacklinks := true)
    case HidePriority => l.(hidePriority := true)
    case HideStartDate => l.(hideStartDate := true)
    case HideScheduledDate => l.(hideScheduledDate := true)
    case HideDoneDate => l.(hideDoneDate := true)
    case HideDueDate => l.(hideDueDate := true)
    case HideRecurrenceRule => l.(hideRecurrenceRule := true)
    case HideEditButton => l.(hideEditButton := true)
  }

  function DateError(field: DateField): string {
    match field
    case StartField => "do not understand start date"
    case ScheduledField => "do not understand scheduled date"
    case DueField => "do not understand due date"
    case DoneField => "do not understand done date"
  }

  const StatusError := "status you are searching for is not registered in configuration."

  function Push(q: Query, f: Filter): Query {
    q.(filters := q.filters + [f])
  }

  /** The body of the switch case (and of the `parse*` method it calls) for a classified line. */
  function Compile(q: Query, line: string, kind: Line, env: QueryEnv): Query {
    match kind
    case Blank => q
    case Fixed(f) => Push(q, f)
    case ShortMode => q.(layout := q.layout.(shortMode := true))
    case PriorityLine(relation, p) => Push(q, PriorityFilter(relation, p))
    case HappensLine(comparison, text) =>
      (match env.parseDate(text)
       case None => q.(error := Some("do not understand happens date"))
       case Some(d) => Push(q, Happens(comparison, d)))
    case DateLine(field, comparison, text) =>
      var d := env.parseDate(text);
      if d.Some? then Push(q, DateFilter(field, comparison, d))
      else if field == ScheduledField then Push(q, DateFilter(field, comparison, d)).(error := Some(DateError(field)))
      else q.(error := Some(DateError(field)))
    case StatusLine(equal, indicator) =>
      if env.registry.byIndicator(indicator) == Empty then q.(error := Some(StatusError))
      else Push(q, StatusIs(indicator, equal))
    case PathLine(includes, needle) => Push(q, PathIncludes(needle, includes))
    case DescriptionLine(includes, needle) => Push(q, DescriptionIncludes(needle, env.globalFilter, includes))
    case TagLine(includes, search) => Push(q, TagIncludes(search, includes))
    case HeadingLine(includes, needle) => Push(q, HeadingIncludes(needle, includes))
    case LimitLine(n) => q.(limit := Some(n))
    case SortLine(s) => q.(sorting := q.sorting + [s])
    case GroupLine(g) => q.(grouping := q.grouping + [g])
    case HideLine(o) => q.(layout := Hide(q.layout, o))
    case Comment => q
    case Unknown => q.(error := Some("do not understand query: " + line))
  }

  /** One iteration of the constructor's `forEach`. */
  function ParseLine(q: Query, line: string, env: QueryEnv): Query {
    Compile(q, line, Classify(line), env)
  }

  /** The `forEach` over the lines, first line first. */
  function ParseLines(q: Query, lines: seq<string>, env: QueryEnv): Query
    decreases |lines|
  {
    if lines == [] then q else ParseLine(ParseLines(q, lines[..|lines| - 1], env), lines[|lines| - 1], env)
  }

  /** `source.split('\n').map((line) => line.trim())`. */
  function Lines(source: string): (r: seq<string>)
    ensures |r| == |Split(source, '\n')|
    ensures forall i :: 0 <= i < |r| ==> r[i] == Trim(Split(source, '\n')[i])
  {
    var parts := Split(source, '\n');
    seq(|parts|, i requires 0 <= i < |parts| => Trim(parts[i]))
  }

  /** The constructor. */
  function New(source: string, env: QueryEnv): Query {
    ParseLines(Fresh(source), Lines(source), env)
  }

  /**
    The switch reaches case `k` when every case from `c` up to it fails its test: the line is
    then handled by `k`.
  */
  lemma {:induction false} DispatchReaches(line: string, c: Case, k: Case)
    requires Rank(c) <= Rank(k) && Read(k, line).Some?
    requires forall j :: Rank(c) <= Rank(j) < Rank(k) ==> Read(j, line).None?
    ensures Dispatch(line, c) == Read(k, line).value
    decreases Rank(k) - Rank(c)
  {
    if Rank(c) < Rank(k) {
      assert Read(c, line).None?;
      DispatchReaches(line, Next(c).value, k);
    } else {
      RankInjective(c, k);
    }
  }

  lemma RankInjective(c: Case, d: Case)
    ensures Rank(c) == Rank(d) ==> c == d
  {
  }

  /**
    The regex case a line can only belong to, read off its first characters (`None` when no
    case from `priority` on can accept it).
  */
  function Candidate(line: string): Option<Case> {
    if line == [] then None
    else if line[0] == '#' then Some(CommentCase)
    else if line[0] == 't' then Some(TagCase)
    else if line[0] == 'l' then Some(LimitCase)
    else if line[0] == 'g' then Some(GroupCase)
    else if |line| < 2 then None
    else
      var a, b := line[0], line[1];
      if a == 'p' then (if b == 'r' then Some(PriorityCase) else if b == 'a' then Some(PathCase) else None)
      else if a == 'h' then
        (if b == 'e' then Some(HeadingCase)
         else if b == 'i' then Some(HideCase)
         else if b == 'a' && |line| > 2 && line[2] == 'p' then Some(HappensCase)
         else None)
      else if a == 's' then
        (if b == 'c' then Some(ScheduledCase)
         else if b == 'o' then Some(SortCase)
         else if b == 't' && |line| > 3 && line[3] == 'r' then Some(StartsCase)
         else if b == 't' && |line| > 3 && line[3] == 't' then Some(StatusCase)
         else None)
      else if a == 'd' then
        (if b == 'u' then Some(DueCase)
         else if b == 'e' then Some(DescriptionCase)
         else if b == 'o' && |line| > 4 && line[4] == ' ' then Some(DoneCase)
         else None)
      else None
  }

  lemma Chars(line: string, p: string)
    requires StartsWith(line, p)
    ensures forall i :: 0 <= i < |p| ==> line[i] == p[i]
  {
    assert forall i :: 0 <= i < |p| ==> line[..|p|][i] == line[i];
  }

  /** Every line a case from `priority` on accepts has that case as its candidate. */
  lemma ReadCandidate(c: Case, line: string)
    ensures Rank(c) >= 3 && Read(c, line).Some? ==> Candidate(line) == Some(c)
  {
    match c
    case PriorityCase => PriorityCandidate(line);
    case HappensCase => HappensCandidate(line);
    case StartsCase => StartsCandidate(line);
    case ScheduledCase => ScheduledCandidate(line);
    case DueCase => DueCandidate(line);
    case DoneCase => DoneCandidate(line);
    case StatusCase => StatusCandidate(line);
    case PathCase => PathCandidate(line);
    case DescriptionCase => DescriptionCandidate(line);
    case TagCase => TagCandidate(line);
    case HeadingCase => HeadingCandidate(line);
    case LimitCase => LimitCandidate(line);
    case SortCase => SortCandidate(line);
    case GroupCase => GroupCandidate(line);
    case HideCase => HideCandidate(line);
    case CommentCase => CommentCandidate(line);
    case BlankCase =>
    case FixedCase =>
    case ShortCase =>
  }

  lemma PriorityCandidate(line: string)
    ensures MatchPriority(line).Some? ==> Candidate(line) == Some(PriorityCase)
  {
    if MatchPriority(line).Some? {
      SamePrefix(line, "priority ");
    }
  }

  lemma HappensCandidate(line: string)
    ensures MatchDateLine(line, "happens").Some? ==> Candidate(line) == Some(HappensCase)
  {
    if MatchDateLine(line, "happens").Some? {
      SamePrefix(line, "happens ");
    }
  }

  lemma StartsCandidate(line: string)
    ensures MatchDateLine(line, "starts").Some? ==> Candidate(line) == Some(StartsCase)
  {
    if MatchDateLine(line, "starts").Some? {
      SamePrefix(line, "starts ");
    }
  }

  lemma ScheduledCandidate(line: string)
    ensures MatchDateLine(line, "scheduled").Some? ==> Candidate(line) == Some(ScheduledCase)
  {
    if MatchDateLine(line, "scheduled").Some? {
      SamePrefix(line, "scheduled ");
    }
  }

  lemma DueCandidate(line: string)
    ensures MatchDateLine(line, "due").Some? ==> Candidate(line) == Some(DueCase)
  {
    if MatchDateLine(line, "due").Some? {
      Chars(line, "due ");
    }
  }

  lemma DoneCandidate(line: string)
    ensures MatchDateLine(line, "done").Some? ==> Candidate(line) == Some(DoneCase)
  {
    if MatchDateLine(line, "done").Some? {
      SamePrefix(line, "done ");
    }
  }

  lemma StatusCandidate(line: string)
    ensures MatchStatus(line).Some? ==> Candidate(line) == Some(StatusCase)
  {
    if MatchStatus(line).Some? {
      SamePrefix(line, "status is ");
    }
  }

  lemma PathCandidate(line: string)
    ensures MatchIncludes(line, "path").Some? ==> Candidate(line) == Some(PathCase)
  {
    if MatchIncludes(line, "path").Some? {
      SamePrefix(line, "path ");
    }
  }

  lemma DescriptionCandidate(line: string)
    ensures MatchIncludes(line, "description").Some? ==> Candidate(line) == Some(DescriptionCase)
  {
    if MatchIncludes(line, "description").Some? {
      SamePrefix(line, "description ");
    }
  }

  lemma TagCandidate(line: string)
    ensures MatchTag(line).Some? ==> Candidate(line) == Some(TagCase)
  {
    if MatchTag(line).Some? {
      Chars(line, if StartsWith(line, "tag ") then "tag " else "tags ");
    }
  }

  lemma HeadingCandidate(line: string)
    ensures MatchIncludes(line, "heading").Some? ==> Candidate(line) == Some(HeadingCase)
  {
    if MatchIncludes(line, "heading").Some? {
      SamePrefix(line, "heading ");
    }
  }

  lemma LimitCandidate(line: string)
    ensures MatchLimit(line).Some? ==> Candidate(line) == Some(LimitCase)
  {
    if MatchLimit(line).Some? {
      Chars(line, "limit ");
    }
  }

  lemma SortCandidate(line: string)
    ensures MatchSort(line).Some? ==> Candidate(line) == Some(SortCase)
  {
    if MatchSort(line).Some? {
      SamePrefix(line, "sort by ");
    }
  }

  lemma GroupCandidate(line: string)
    ensures MatchGroup(line).Some? ==> Candidate(line) == Some(GroupCase)
  {
    if MatchGroup(line).Some? {
      Chars(line, "group by ");
    }
  }

  lemma HideCandidate(line: string)
    ensures MatchHide(line).Some? ==> Candidate(line) == Some(HideCase)
  {
    if MatchHide(line).Some? {
      SamePrefix(line, "hide ");
    }
  }

  lemma CommentCandidate(line: string)
    ensures StartsWith(line, "#") ==> Candidate(line) == Some(CommentCase)
  {
    if StartsWith(line, "#") {
      Chars(line, "#");
    }
  }

  /** The candidate reads at most five characters, so lines sharing a five-character prefix share it. */
  lemma SamePrefix(line: string, p: string)
    requires StartsWith(line, p) && |p| >= 5
    ensures Candidate(line) == Candidate(p)
  {
    Chars(line, p);
  }

  /** No whole-line string and no `short` line has a candidate, so those cases never take a regex case's line. */
  lemma EarlyCasesHaveNoCandidate(line: string)
    ensures FixedFilter(line).Some? ==> Candidate(line).None?
    ensures StartsWith(line, "short") ==> Candidate(line).None?
  {
    if StartsWith(line, "short") {
      Chars(line, "short");
    }
  }

  /**
    The switch's order never decides between two regex cases: a line any case from `priority`
    on accepts reaches that case, because the earlier cases all reject it.
  */
  lemma RegexCaseReached(line: string, k: Case)
    requires Rank(k) >= 3 && Read(k, line).Some?
    ensures Classify(line) == Read(k, line).value
  {
    ReadCandidate(k, line);
    forall j | Rank(j) < Rank(k)
      ensures Read(j, line).None?
    {
      OtherCaseRejects(line, k, j);
    }
    DispatchReaches(line, BlankCase, k);
  }

  /** A line whose candidate is the regex case `k` is rejected by every other case. */
  lemma OtherCaseRejects(line: string, k: Case, j: Case)
    requires Rank(k) >= 3 && Candidate(line) == Some(k) && j != k
    ensures Read(j, line).None?
  {
    if Rank(j) >= 3 {
      ReadCandidate(j, line);
    } else {
      EarlyCasesHaveNoCandidate(line);
    }
  }

  /** A line starting with `#` that no earlier case takes is a comment, and comments change nothing. */
  lemma CommentIgnored(q: Query, line: string, env: QueryEnv)
    requires StartsWith(line, "#")
    ensures Classify(line) == Comment
    ensures ParseLine(q, line, env) == q
  {
    RegexCaseReached(line, CommentCase);
  }

  /** The switch from case `c` on falls through to `default` exactly when every case from `c` on rejects the line. */
  lemma {:induction false} DispatchFalls(line: string, c: Case)
    ensures Dispatch(line, c) == Unknown <==> forall j :: Rank(j) >= Rank(c) ==> Read(j, line).None?
    decreases 18 - Rank(c)
  {
    match Next(c)
    case None =>
      forall j | Rank(j) >= Rank(c)
        ensures j == c
      {
        RankInjective(j, c);
      }
    case Some(n) =>
      DispatchFalls(line, n);
      if Read(c, line).Some? {
        ReadNotUnknown(c, line);
      }
      forall j | Rank(j) >= Rank(c) && j != c
        ensures Rank(j) >= Rank(n)
      {
        RankInjective(j, c);
      }
  }

  /** No case's test yields the `default` reading. */
  lemma ReadNotUnknown(c: Case, line: string)
    ensures Read(c, line) != Some(Unknown)
  {
  }

  /** `do not understand query` is reported exactly for the lines every case rejects. */
  lemma UnknownIff(line: string)
    ensures Classify(line) == Unknown <==> forall c :: Read(c, line).None?
  {
    DispatchFalls(line, BlankCase);
  }

  /** A non-empty line that is not a whole-line filter, not `short…` and has no candidate is rejected by every case. */
  lemma NoCandidateRejected(line: string)
    requires line != "" && FixedFilter(line).None? && !StartsWith(line, "short") && Candidate(line).None?
    ensures forall c :: Read(c, line).None?
  {
    forall c
      ensures Read(c, line).None?
    {
      ReadCandidate(c, line);
    }
  }

  /** A line every case rejects reports `do not understand query` with the line, and changes nothing else. */
  lemma UnknownLineEffect(q: Query, line: string, env: QueryEnv)
    requires forall c :: Read(c, line).None?
    ensures ParseLine(q, line, env) == q.(error := Some("do not understand query: " + line))
  {
    UnknownIff(line);
  }

  /** Layout flags or-ed field by field. */
  function Or(a: LayoutOptions, b: LayoutOptions): LayoutOptions {
    LayoutOptions(
      a.hideTaskCount || b.hideTaskCount, a.hideBacklinks || b.hideBacklinks, a.hidePriority || b.hidePriority,
      a.hideStartDate || b.hideStartDate, a.hideScheduledDate || b.hideScheduledDate, a.hideDueDate || b.hideDueDate,
      a.hideDoneDate || b.hideDoneDate, a.hideRecurrenceRule || b.hideRecurrenceRule, a.hideEditButton || b.hideEditButton,
      a.shortMode || b.shortMode)
  }

  /** What a line does to a freshly constructed query. */
  function Effect(line: string, env: QueryEnv): Query {
    ParseLine(Fresh(""), line, env)
  }

  /**
    A line's effect combined into the query read so far: filters, sort and group entries are
    appended, the limit and the error are replaced when the line sets them, and layout flags only
    ever switch on.
  */
  function Merge(q: Query, d: Query): Query {
    Query(
      q.source,
      if d.limit.Some? then d.limit else q.limit,
      Or(q.layout, d.layout),
      q.filters + d.filters,
      if d.error.Some? then d.error else q.error,
      q.sorting + d.sorting,
      q.grouping + d.grouping)
  }

  /** Hiding an option is or-ing in the default layout with that option hidden. */
  lemma HideIsOr(l: LayoutOptions, o: HideOption)
    ensures Hide(l, o) == Or(l, Hide(DefaultLayout, o))
  {
  }

  /** A fresh query's parts are the units of the merge. */
  lemma MergeUnits(q: Query)
    ensures q.filters + [] == q.filters && q.sorting + [] == q.sorting && q.grouping + [] == q.grouping
    ensures Or(q.layout, DefaultLayout) == q.layout
  {
  }

  lemma PushMerges(q: Query, f: Filter)
    ensures Push(q, f) == Merge(q, Push(Fresh(""), f))
  {
    assert Or(q.layout, DefaultLayout) == q.layout;
  }

  lemma ErrorMerges(q: Query, e: string)
    ensures q.(error := Some(e)) == Merge(q, Fresh("").(error := Some(e)))
  {
    assert Or(q.layout, DefaultLayout) == q.layout;
    assert q.filters + [] == q.filters && q.sorting + [] == q.sorting && q.grouping + [] == q.grouping;
  }

  lemma PushErrorMerges(q: Query, f: Filter, e: string)
    ensures Push(q, f).(error := Some(e)) == Merge(q, Push(Fresh(""), f).(error := Some(e)))
  {
    assert Or(q.layout, DefaultLayout) == q.layout;
  }

  lemma LayoutMerges(q: Query, l: LayoutOptions)
    requires Or(q.layout, l) == q.layout.(shortMode := true) || exists o :: Or(q.layout, l) == Hide(q.layout, o)
    ensures q.(layout := Or(q.layout, l)) == Merge(q, Fresh("").(layout := l))
  {
    assert q.filters + [] == q.filters && q.sorting + [] == q.sorting && q.grouping + [] == q.grouping;
  }

  /** Compiling a classified line into any query is compiling it into a fresh one, merged in. */
  lemma CompileMerges(q: Query, line: string, kind: Line, env: QueryEnv)
    ensures Compile(q, line, kind, env) == Merge(q, Compile(Fresh(""), line, kind, env))
  {
    if kind.HappensLine? || kind.DateLine? || kind.StatusLine? {
      CheckedLineMerges(q, line, kind, env);
    } else if kind.ShortMode? || kind.HideLine? {
      LayoutLineMerges(q, line, kind, env);
    } else {
      PlainLineMerges(q, line, kind, env);
    }
  }

  /** The lines whose filter depends on what the environment makes of their text. */
  lemma CheckedLineMerges(q: Query, line: string, kind: Line, env: QueryEnv)
    requires kind.HappensLine? || kind.DateLine? || kind.StatusLine?
    ensures Compile(q, line, kind, env) == Merge(q, Compile(Fresh(""), line, kind, env))
  {
    match kind
    case HappensLine(comparison, text) =>
      if env.parseDate(text).None? {
        ErrorMerges(q, "do not understand happens date");
      } else {
        PushMerges(q, Happens(comparison, env.parseDate(text).value));
      }
    case DateLine(field, comparison, text) =>
      var d := env.parseDate(text);
      PushMerges(q, DateFilter(field, comparison, d));
      PushErrorMerges(q, DateFilter(field, comparison, d), DateError(field));
      ErrorMerges(q, DateError(field));
    case StatusLine(equal, indicator) =>
      PushMerges(q, StatusIs(indicator, equal));
      ErrorMerges(q, StatusError);
  }

  /** The lines that switch a layout option on. */
  lemma LayoutLineMerges(q: Query, line: string, kind: Line, env: QueryEnv)
    requires kind.ShortMode? || kind.HideLine?
    ensures Compile(q, line, kind, env) == Merge(q, Compile(Fresh(""), line, kind, env))
  {
    match kind
    case ShortMode =>
      assert Or(q.layout, DefaultLayout.(shortMode := true)) == q.layout.(shortMode := true);
      LayoutMerges(q, DefaultLayout.(shortMode := true));
    case HideLine(o) =>
      HideIsOr(q.layout, o);
      LayoutMerges(q, Hide(DefaultLayout, o));
  }

  /** The remaining lines: each adds one filter, one entry, a limit or an error, or does nothing. */
  lemma PlainLineMerges(q: Query, line: string, kind: Line, env: QueryEnv)
    requires !(kind.HappensLine? || kind.DateLine? || kind.StatusLine? || kind.ShortMode? || kind.HideLine?)
    ensures Compile(q, line, kind, env) == Merge(q, Compile(Fresh(""), line, kind, env))
  {
    match kind
    case Blank => MergeUnits(q);
    case Comment => MergeUnits(q);
    case Fixed(f) => PushMerges(q, f);
    case PriorityLine(relation, p) => PushMerges(q, PriorityFilter(relation, p));
    case PathLine(includes, needle) => PushMerges(q, PathIncludes(needle, includes));
    case DescriptionLine(includes, needle) => PushMerges(q, DescriptionIncludes(needle, env.globalFilter, includes));
    case TagLine(includes, search) => PushMerges(q, TagIncludes(search, includes));
    case HeadingLine(includes, needle) => PushMerges(q, HeadingIncludes(needle, includes));
    case LimitLine(n) => MergeUnits(q);
    case SortLine(x) => MergeUnits(q);
    case GroupLine(g) => MergeUnits(q);
    case Unknown => ErrorMerges(q, "do not understand query: " + line);
  }

  /** Nothing a line does depends on the lines before it: its effect on any query is its effect on a fresh one, merged in. */
  lemma ParseLineMerges(q: Query, line: string, env: QueryEnv)
    ensures ParseLine(q, line, env) == Merge(q, Effect(line, env))
  {
    CompileMerges(q, line, Classify(line), env);
  }

  /** Reading one more line merges its effect into the query read so far. */
  lemma ParseLinesStep(q: Query, lines: seq<string>, env: QueryEnv)
    requires lines != []
    ensures ParseLines(q, lines, env) == Merge(ParseLines(q, lines[..|lines| - 1], env), Effect(lines[|lines| - 1], env))
  {
    ParseLineMerges(ParseLines(q, lines[..|lines| - 1], env), lines[|lines| - 1], env);
  }

  /** The effects merged one after another into `q`, first effect first. */
  function Folded(q: Query, ds: seq<Query>): Query
    decreases |ds|
  {
    if ds == [] then q else Merge(Folded(q, ds[..|ds| - 1]), ds[|ds| - 1])
  }

  /** Each line's effect, in line order. */
  function Effects(lines: seq<string>, env: QueryEnv): (r: seq<Query>)
    ensures |r| == |lines| && forall j :: 0 <= j < |lines| ==> r[j] == Effect(lines[j], env)
  {
    seq(|lines|, j requires 0 <= j < |lines| => Effect(lines[j], env))
  }

  /** Parsing the lines is merging their effects one by one: the lines do not interact. */
  lemma {:induction false} ParseLinesFolds(q: Query, lines: seq<string>, env: QueryEnv)
    ensures ParseLines(q, lines, env) == Folded(q, Effects(lines, env))
    decreases |lines|
  {
    if lines != [] {
      var n := |lines| - 1;
      ParseLinesFolds(q, lines[..n], env);
      ParseLinesStep(q, lines, env);
      assert Effects(lines, env)[..n] == Effects(lines[..n], env);
    }
  }

  /** The filters of the effects, first effect first. */
  function AllFilters(ds: seq<Query>): seq<Filter>
    decreases |ds|
  {
    if ds == [] then [] else ds[0].filters + AllFilters(ds[1..])
  }

  lemma {:induction false} AllFiltersSnoc(ds: seq<Query>)
    requires ds != []
    ensures AllFilters(ds) == AllFilters(ds[..|ds| - 1]) + ds[|ds| - 1].filters
    decreases |ds|
  {
    if |ds| > 1 {
      AllFiltersSnoc(ds[1..]);
      assert ds[1..][..|ds| - 2] == ds[..|ds| - 1][1..];
    }
  }

  lemma {:induction false} FoldedFilters(q: Query, ds: seq<Query>)
    ensures Folded(q, ds).filters == q.filters + AllFilters(ds)
    decreases |ds|
  {
    if ds != [] {
      FoldedFilters(q, ds[..|ds| - 1]);
      AllFiltersSnoc(ds);
    }
  }

  /**
    The query's filters are every line's filters in line order: an error on one line does not
    stop later lines from adding theirs.
  */
  lemma ParseLinesFilters(q: Query, lines: seq<string>, env: QueryEnv)
    ensures ParseLines(q, lines, env).filters == q.filters + AllFilters(Effects(lines, env))
  {
    ParseLinesFolds(q, lines, env);
    FoldedFilters(q, Effects(lines, env));
  }

  lemma {:induction false} FoldedNoError(q: Query, ds: seq<Query>)
    requires forall j :: 0 <= j < |ds| ==> ds[j].error.None?
    ensures Folded(q, ds).error == q.error
    decreases |ds|
  {
    if ds != [] {
      FoldedNoError(q, ds[..|ds| - 1]);
    }
  }

  lemma {:induction false} FoldedLastError(q: Query, ds: seq<Query>, k: nat)
    requires k < |ds| && ds[k].error.Some?
    requires forall j :: k < j < |ds| ==> ds[j].error.None?
    ensures Folded(q, ds).error == ds[k].error
    decreases |ds|
  {
    var n := |ds| - 1;
    if k < n {
      FoldedLastError(q, ds[..n], k);
    }
  }

  /**
    The query's error is that of the last line that reports one, each failing line overwriting
    the previous error; with no failing line it is the initial error.
  */
  lemma ParseLinesError(q: Query, lines: seq<string>, env: QueryEnv)
    ensures (forall j :: 0 <= j < |lines| ==> Effect(lines[j], env).error.None?) ==> ParseLines(q, lines, env).error == q.error
    ensures forall k :: 0 <= k < |lines| && Effect(lines[k], env).error.Some? && (forall j :: k < j < |lines| ==> Effect(lines[j], env).error.None?) ==>
      ParseLines(q, lines, env).error == Effect(lines[k], env).error
  {
    var ds := Effects(lines, env);
    ParseLinesFolds(q, lines, env);
    if forall j :: 0 <= j < |lines| ==> Effect(lines[j], env).error.None? {
      FoldedNoError(q, ds);
    }
    forall k | 0 <= k < |lines| && Effect(lines[k], env).error.Some? && (forall j :: k < j < |lines| ==> Effect(lines[j], env).error.None?)
      ensures ParseLines(q, lines, env).error == Effect(lines[k], env).error
    {
      FoldedLastError(q, ds, k);
    }
  }

  lemma {:induction false} FoldedNoLimit(q: Query, ds: seq<Query>)
    requires forall j :: 0 <= j < |ds| ==> ds[j].limit.None?
    ensures Folded(q, ds).limit == q.limit
    decreases |ds|
  {
    if ds != [] {
      FoldedNoLimit(q, ds[..|ds| - 1]);
    }
  }

  lemma {:induction false} FoldedLastLimit(q: Query, ds: seq<Query>, k: nat)
    requires k < |ds| && ds[k].limit.Some?
    requires forall j :: k < j < |ds| ==> ds[j].limit.None?
    ensures Folded(q, ds).limit == ds[k].limit
    decreases |ds|
  {
    var n := |ds| - 1;
    if k < n {
      FoldedLastLimit(q, ds[..n], k);
    }
  }

  /** Likewise the limit is that of the last `limit` line, so a later limit overrides an earlier one. */
  lemma ParseLinesLimit(q: Query, lines: seq<string>, env: QueryEnv)
    ensures (forall j :: 0 <= j < |lines| ==> Effect(lines[j], env).limit.None?) ==> ParseLines(q, lines, env).limit == q.limit
    ensures forall k :: 0 <= k < |lines| && Effect(lines[k], env).limit.Some? && (forall j :: k < j < |lines| ==> Effect(lines[j], env).limit.None?) ==>
      ParseLines(q, lines, env).limit == Effect(lines[k], env).limit
  {
    var ds := Effects(lines, env);
    ParseLinesFolds(q, lines, env);
    if forall j :: 0 <= j < |lines| ==> Effect(lines[j], env).limit.None? {
      FoldedNoLimit(q, ds);
    }
    forall k | 0 <= k < |lines| && Effect(lines[k], env).limit.Some? && (forall j :: k < j < |lines| ==> Effect(lines[j], env).limit.None?)
      ensures ParseLines(q, lines, env).limit == Effect(lines[k], env).limit
    {
      FoldedLastLimit(q, ds, k);
    }
  }

  /** The keyword of a date field's filter line. */
  function DateKeyword(field: DateField): string {
    match field
    case StartField => "starts"
    case ScheduledField => "scheduled"
    case DueField => "due"
    case DoneField => "done"
  }

  /** The switch case of a date field's filter line. */
  function DateCase(field: DateField): Case {
    match field
    case StartField => StartsCase
    case ScheduledField => ScheduledCase
    case DueField => DueCase
    case DoneField => DoneCase
  }

  /**
    `starts`, `scheduled`, `due` and `done` lines: a valid date adds the field's filter; an
    invalid one reports the field's error and adds no filter, except for `scheduled`, which adds
    its filter as well.
  */
  lemma DateLineEffect(q: Query, line: string, env: QueryEnv, field: DateField, comparison: Comparison, text: string)
    requires MatchDateLine(line, DateKeyword(field)) == Some((comparison, text))
    ensures env.parseDate(text).Some? ==>
      ParseLine(q, line, env) == Push(q, DateFilter(field, comparison, env.parseDate(text)))
    ensures env.parseDate(text).None? && field != ScheduledField ==>
      ParseLine(q, line, env) == q.(error := Some(DateError(field)))
    ensures env.parseDate(text).None? && field == ScheduledField ==>
      ParseLine(q, line, env) == Push(q, DateFilter(field, comparison, None)).(error := Some(DateError(field)))
  {
    DateLineClassified(line, field, comparison, text);
  }

  /** A date line is classified as one. */
  lemma DateLineClassified(line: string, field: DateField, comparison: Comparison, text: string)
    requires MatchDateLine(line, DateKeyword(field)) == Some((comparison, text))
    ensures Classify(line) == DateLine(field, comparison, text)
  {
    assert Read(DateCase(field), line) == Some(DateLine(field, comparison, text));
    RegexCaseReached(line, DateCase(field));
  }

  /**
    The filter an unparseable `scheduled` date leaves behind rejects every task, so the query
    then selects nothing.
  */
  lemma InvalidScheduledSelectsNothing(q: Query, line: string, env: QueryEnv, comparison: Comparison, text: string, t: Task)
    requires MatchDateLine(line, "scheduled") == Some((comparison, text)) && env.parseDate(text).None?
    ensures ParseLine(q, line, env).error == Some("do not understand scheduled date")
    ensures exists f :: f in ParseLine(q, line, env).filters && !Passes(f, t)
  {
    DateLineEffect(q, line, env, ScheduledField, comparison, text);
    var f := DateFilter(ScheduledField, comparison, None);
    var r := ParseLine(q, line, env);
    assert r.filters == q.filters + [f];
    assert r.filters[|q.filters|] == f;
    if t.scheduledDate.None? {
      AbsentDates(comparison, None, ScheduledField, t);
    } else {
      PresentDate(comparison, None, ScheduledField, t);
    }
  }

  /** `happens` lines: a valid date adds the filter, an invalid one only reports the error. */
  lemma HappensLineEffect(q: Query, line: string, env: QueryEnv, comparison: Comparison, text: string)
    requires MatchDateLine(line, "happens") == Some((comparison, text))
    ensures env.parseDate(text).Some? ==> ParseLine(q, line, env) == Push(q, Happens(comparison, env.parseDate(text).value))
    ensures env.parseDate(text).None? ==> ParseLine(q, line, env) == q.(error := Some("do not understand happens date"))
  {
    HappensLineClassified(line, comparison, text);
  }

  /** A `happens` line is classified as one. */
  lemma HappensLineClassified(line: string, comparison: Comparison, text: string)
    requires MatchDateLine(line, "happens") == Some((comparison, text))
    ensures Classify(line) == HappensLine(comparison, text)
  {
    assert Read(HappensCase, line) == Some(HappensLine(comparison, text));
    RegexCaseReached(line, HappensCase);
  }

  /**
    `status is` and `status is not` lines: an indicator the registry resolves to the empty status
    reports the error and adds nothing; any other adds the indicator test.
  */
  lemma StatusLineEffect(q: Query, line: string, env: QueryEnv, equal: bool, indicator: string)
    requires MatchStatus(line) == Some((equal, indicator))
    ensures env.registry.byIndicator(indicator) == Empty ==> ParseLine(q, line, env) == q.(error := Some(StatusError))
    ensures env.registry.byIndicator(indicator) != Empty ==> ParseLine(q, line, env) == Push(q, StatusIs(indicator, equal))
  {
    StatusLineClassified(line, equal, indicator);
  }

  /** A `status is` line is classified as one. */
  lemma StatusLineClassified(line: string, equal: bool, indicator: string)
    requires MatchStatus(line) == Some((equal, indicator))
    ensures Classify(line) == StatusLine(equal, indicator)
  {
    assert Read(StatusCase, line) == Some(StatusLine(equal, indicator));
    RegexCaseReached(line, StatusCase);
  }

  /** A `sort by` line without a number sorts by the first instance of the property. */
  lemma SortDefaultsToFirstInstance()
    ensures MatchSort("sort by urgency") == Some(Sorting(ByUrgency, false, 1))
  {
    var a := "sort by urgency"[8..];
    assert a == "urgency" && StartsWith(a, SortingWords[0]);
    assert a[7..] == [];
  }

  /** `reverse` and the instance number follow the property. */
  lemma SortReverseWithInstance()
    ensures MatchSort("sort by status reverse 2") == Some(Sorting(ByStatus, true, 2))
  {
    var line := "sort by status reverse 2";
    SortWordStep();
    StatusWordStep();
    ReverseWordStep();
    InstanceTwoStep();
    assert MatchSort(line) == Some(Sorting(SortingProperties[1], true, SortInstance(" 2")));
  }

  lemma SortWordStep()
    ensures StartsWith("sort by status reverse 2", "sort by ") && "sort by status reverse 2"[8..] == "status reverse 2"
  {
  }

  lemma StatusWordStep()
    ensures FirstPrefix("status reverse 2", SortingWords, 0) == Some(1) && SortingProperties[1] == ByStatus
    ensures "status reverse 2"[|SortingWords[1]|..] == " reverse 2"
  {
    StartsWithFirst("status reverse 2", SortingWords[0]);
    assert StartsWith("status reverse 2", SortingWords[1]);
  }

  lemma ReverseWordStep()
    ensures StartsWith(" reverse 2", " reverse") && " reverse 2"[8..] == " 2"
  {
  }

  lemma InstanceTwoStep()
    ensures SortInstance(" 2") == 2
  {
    assert IsSpace(" 2"[0]) && " 2"[1..] == "2";
    assert DigitRun("2") == "2" by {
      assert "2"[1..] == [];
    }
    assert DigitsValue("2") == 2 by {
      assert "2"[..0] == [];
    }
  }

  /** `limit 10` reads its number. */
  lemma LimitNumber()
    ensures MatchLimit("limit 10") == Some(10)
  {
    var a := "limit 10"[6..];
    assert a == "10" && !StartsWith(a, "to ");
    assert DigitRun(a) == a;
    assert DigitsValue("10") == 10 by {
      assert "10"[..1] == "1" && "1"[..0] == [];
    }
  }

  /**
    `limit`, an optional `to `, a run of digits and anything that does not go on with a digit:
    the limit is the decimal value of the whole run.
  */
  lemma LimitReadsDigits(to: bool, ds: string, tail: string)
    requires ds != [] && AllDigits(ds) && (tail == [] || !IsDigit(tail[0]))
    ensures MatchLimit("limit " + (if to then "to " else "") + ds + tail) == Some(DigitsValue(ds))
  {
    if to {
      LimitToDigits(ds, tail);
      assert "limit " + (if to then "to " else "") + ds + tail == "limit " + "to " + ds + tail;
    } else {
      LimitPlainDigits(ds, tail);
      assert "limit " + (if to then "to " else "") + ds + tail == "limit " + "" + ds + tail;
    }
  }

  /** `limit to <digits>`. */
  lemma LimitToDigits(ds: string, tail: string)
    requires ds != [] && AllDigits(ds) && (tail == [] || !IsDigit(tail[0]))
    ensures MatchLimit("limit " + "to " + ds + tail) == Some(DigitsValue(ds))
  {
    var line := "limit " + "to " + ds + tail;
    assert line[..6] == "limit ";
    var a := line[6..];
    assert a[..3] == "to " && a[3..] == ds + tail;
    DigitRunOf(ds, tail);
  }

  /** `limit <digits>`: the run starts with a digit, so the optional `to ` is absent. */
  lemma LimitPlainDigits(ds: string, tail: string)
    requires ds != [] && AllDigits(ds) && (tail == [] || !IsDigit(tail[0]))
    ensures MatchLimit("limit " + "" + ds + tail) == Some(DigitsValue(ds))
  {
    var line := "limit " + "" + ds + tail;
    assert line[..6] == "limit ";
    var a := line[6..];
    assert a == ds + tail && a[0] == ds[0];
    assert IsDigit(a[0]) && !IsDigit("to "[0]);
    StartsWithFirst(a, "to ");
    DigitRunOf(ds, tail);
  }

  /** The digit run of digits followed by a non-digit is those digits. */
  lemma {:induction false} DigitRunOf(ds: string, tail: string)
    requires AllDigits(ds) && (tail == [] || !IsDigit(tail[0]))
    ensures DigitRun(ds + tail) == ds
    decreases |ds|
  {
    if ds == [] {
      assert ds + tail == tail;
    } else {
      assert (ds + tail)[1..] == ds[1..] + tail;
      assert AllDigits(ds[1..]) by {
        forall i | 0 <= i < |ds[1..]| ensures IsDigit(ds[1..][i]) {
          assert ds[1..][i] == ds[i + 1];
        }
      }
      DigitRunOf(ds[1..], tail);
    }
  }

  /** `limit to 5 tasks` reads its number, the optional words around it aside. */
  lemma LimitToTasks()
    ensures MatchLimit("limit to 5 tasks") == Some(5)
  {
    var b := "limit to 5 tasks"[6..];
    assert b == "to 5 tasks" && StartsWith(b, "to ");
    assert b[3..] == "5 tasks";
    assert DigitRun("5 tasks") == "5";
    assert DigitsValue("5") == 5 by {
      assert "5"[..0] == [];
    }
  }

  /** One leading `#` is dropped from a tag search, and `tags include` is `tag includes`. */
  lemma TagHashStripped()
    ensures MatchTag("tags include #home") == Some((true, "home"))
  {
    var line := "tags include #home";
    assert !StartsWith(line, "tag ") by {
      assert line[3] != ' ';
    }
    assert StartsWith(line, "tags ");
    var b := line[5..];
    assert b == "include #home";
    assert !StartsWith(b, "includes ") by {
      assert b[7] != 's';
    }
    StartsWithFirst(b, "does not include ");
    assert StartsWith(b, "include ");
    var t := b[8..];
    assert t == "#home" && t[1..] == "home";
    LineContentWhole(t);
    TagIncludeAt(line, b, t);
  }

  /** `tags include` followed by a one-line term: the term, without a leading `#`. */
  lemma TagIncludeAt(line: string, b: string, t: string)
    requires !StartsWith(line, "tag ") && StartsWith(line, "tags ") && b == line[5..]
    requires !StartsWith(b, "includes ") && !StartsWith(b, "does not include ")
    requires StartsWith(b, "include ") && t == b[8..]
    requires LineContent(t) == t && t != [] && t[0] == '#'
    ensures MatchTag(line) == Some((true, t[1..]))
  {
  }

  /** `priority is above medium` reads as the relation `above` and the priority `medium`. */
  lemma PriorityAboveMedium()
    ensures MatchPriority("priority is above medium") == Some((Above, Medium))
  {
    var line := "priority is above medium";
    PriorityWordStep();
    IsWordStep();
    AboveWordStep();
    SpaceWordStep();
    MediumWordStep();
    assert MatchPriority(line) == Some((Above, Priorities[2]));
  }

  lemma PriorityWordStep()
    ensures StartsWith("priority is above medium", "priority ") && "priority is above medium"[9..] == "is above medium"
  {
  }

  lemma IsWordStep()
    ensures StartsWith("is above medium", "is ") && "is above medium"[3..] == "above medium"
  {
  }

  lemma AboveWordStep()
    ensures StartsWith("above medium", "above") && "above medium"[5..] == " medium"
  {
  }

  lemma MediumWordStep()
    ensures FirstPrefix("medium", PriorityWords, 0) == Some(2) && Priorities[2] == Medium
  {
    StartsWithFirst("medium", PriorityWords[0]);
    StartsWithFirst("medium", PriorityWords[1]);
  }

  lemma SpaceWordStep()
    ensures StartsWith(" medium", " ") && " medium"[1..] == "medium"
  {
  }

  /** `done` is the whole-line filter on completed tasks. */
  lemma DoneLine(env: QueryEnv)
    ensures Effect("done", env) == Fresh("").(filters := [StatusDone(true)])
  {
    assert Read(FixedCase, "done") == Some(Fixed(StatusDone(true)));
  }

  /**
    Two lines that are not understood, then one that reports no error: the second error
    overwrites the first, and the last line still adds its filters.
  */
  lemma LaterErrorWins(q: Query, a: string, b: string, c: string, env: QueryEnv)
    requires forall k :: Read(k, a).None? && Read(k, b).None?
    requires Effect(c, env).error.None?
    ensures ParseLines(q, [a, b, c], env).error == Some("do not understand query: " + b)
    ensures ParseLines(q, [a, b, c], env).filters == q.filters + Effect(c, env).filters
  {
    var lines := [a, b, c];
    var ds := Effects(lines, env);
    UnknownLineEffect(Fresh(""), a, env);
    UnknownLineEffect(Fresh(""), b, env);
    assert ParseLines(q, lines, env).error == Some("do not understand query: " + b) by {
      ParseLinesError(q, lines, env);
      assert Effect(lines[1], env).error.Some? && Effect(lines[2], env).error.None?;
    }
    assert ds[0].filters == [] && ds[1].filters == [];
    ParseLinesFilters(q, lines, env);
    AllFiltersLast(ds);
  }

  lemma AllFiltersLast(ds: seq<Query>)
    requires |ds| == 3 && ds[0].filters == [] && ds[1].filters == []
    ensures AllFilters(ds) == ds[2].filters
  {
    assert AllFilters(ds[1..]) == ds[1..][0].filters + AllFilters(ds[2..]);
    assert AllFilters(ds[2..]) == ds[2].filters + AllFilters(ds[3..]);
  }

  lemma {:induction false} FoldedSource(q: Query, ds: seq<Query>)
    ensures Folded(q, ds).source == q.source
    decreases |ds|
  {
    if ds != [] {
      FoldedSource(q, ds[..|ds| - 1]);
    }
  }

  /**
    The constructor keeps the source text, and its filters are the filters of the trimmed lines,
    in line order.
  */
  lemma NewSummary(source: string, env: QueryEnv)
    ensures New(source, env).source == source
    ensures New(source, env).filters == AllFilters(Effects(Lines(source), env))
  {
    var lines := Lines(source);
    ParseLinesFolds(Fresh(source), lines, env);
    FoldedSource(Fresh(source), Effects(lines, env));
    ParseLinesFilters(Fresh(source), lines, env);
  }
}

/**
  The task line codec of src/Task.ts: `fromLine` decodes one checklist line into a Task,
  `toString` and `toFileLineString` encode a Task back. Every end-anchored expression of
  `TaskRegularExpressions` is written out as a suffix matcher.
*/
module TaskLine {
  import opened Wrappers
  import opened Text
  import opened Dates
  import opened Statuses
  import opened Tasks
  import Properties

  const HighMarker: char := '\U{23EB}'
  const MediumMarker: char := '\U{1F53C}'
  const LowMarker: char := '\U{1F53D}'
  const StartMarker: char := '\U{1F6EB}'
  const ScheduledMarker: char := '\U{23F3}'
  const ScheduledAltMarker: char := '\U{231B}'
  const DueMarker: char := '\U{1F4C5}'
  const DueAltMarkers: string := "\U{1F4C6}\U{1F5D3}"
  const DoneMarker: char := '\U{2705}'
  const RecurrenceMarker: char := '\U{1F501}'

  // ---------------------------------------------------------------- taskRegex

  /** The captures of `taskRegex` (`^([\s\t]*)[-*] +\[(.)\] *(.*)`). */
  datatype LineParts = LineParts(indentation: string, statusChar: char, body: string)

  /** How many `' '` characters follow position `i`. */
  function SpaceRun(s: string, i: nat): (k: nat)
    requires i <= |s|
    ensures i + k <= |s|
    ensures forall j :: i <= j < i + k ==> s[j] == ' '
    ensures i + k < |s| ==> s[i + k] != ' '
    decreases |s| - i
  {
    if i < |s| && s[i] == ' ' then 1 + SpaceRun(s, i + 1) else 0
  }

  /**
    `taskRegex`: leading whitespace, a `-` or `*` bullet, at least one space, a bracketed
    character that is not a line terminator, optional spaces, then the rest of the first line.
  */
  function MatchTaskLine(line: string): (r: Option<LineParts>)
    ensures r.Some? ==> r.value.indentation == LeadingSpace(line)
    ensures r.Some? ==> |line| > |r.value.indentation| && line[|r.value.indentation|] in "-*"
    ensures r.Some? ==> !IsLineTerminator(r.value.statusChar) && Contains(line, r.value.body)
    ensures r.Some? ==> forall i :: 0 <= i < |r.value.body| ==> !IsLineTerminator(r.value.body[i])
    ensures |line| == |LeadingSpace(line)| || line[|LeadingSpace(line)|] !in "-*" ==> r.None?
  {
    var indent := LeadingSpace(line);
    var k := |indent|;
    if k >= |line| || line[k] !in "-*" then None
    else
      var n := SpaceRun(line, k + 1);
      var b := k + 1 + n;
      if n == 0 || b + 3 > |line| || line[b] != '[' || IsLineTerminator(line[b + 1]) || line[b + 2] != ']' then None
      else
        var m := SpaceRun(line, b + 3);
        var body := LineContent(line[b + 3 + m..]);
        assert OccursAt(line, body, b + 3 + m);
        Some(LineParts(indent, line[b + 1], body))
  }

  /** A checklist line written as `indentation- [c] body` is matched with its three parts. */
  lemma MatchTaskLineOfItem(indentation: string, c: char, body: string)
    requires AllSpace(indentation) && !IsLineTerminator(c)
    requires forall i :: 0 <= i < |body| ==> !IsLineTerminator(body[i])
    requires body == [] || body[0] != ' '
    ensures MatchTaskLine(indentation + "- [" + [c] + "] " + body) == Some(LineParts(indentation, c, body))
  {
    var item := "- [" + [c] + "] " + body;
    var line := indentation + item;
    assert line == indentation + "- [" + [c] + "] " + body;
    LeadingSpaceOf(indentation, item);
    var k := |indentation|;
    assert line[k] == '-' && line[k + 1] == ' ' && line[k + 2] == '[';
    assert line[k + 3] == c && line[k + 4] == ']' && line[k + 5] == ' ';
    assert line[k + 6..] == body;
    MatchTaskLineAt(line, k, body);
  }

  /** The matcher on a line laid out as leading space, `- [c] ` and a body, by positions. */
  lemma MatchTaskLineAt(line: string, k: nat, body: string)
    requires k == |LeadingSpace(line)| && k + 6 <= |line|
    requires line[k] == '-' && line[k + 1] == ' ' && line[k + 2] == '['
    requires !IsLineTerminator(line[k + 3]) && line[k + 4] == ']' && line[k + 5] == ' '
    requires line[k + 6..] == body && (body == [] || body[0] != ' ')
    requires forall i :: 0 <= i < |body| ==> !IsLineTerminator(body[i])
    ensures MatchTaskLine(line) == Some(LineParts(LeadingSpace(line), line[k + 3], body))
  {
    SingleSpace(line, k + 1);
    assert k + 6 < |line| ==> line[k + 6] == body[0];
    SingleSpace(line, k + 5);
    LineContentWhole(body);
  }

  /** A space followed by the end of the text or by another character is a run of one. */
  lemma SingleSpace(s: string, i: nat)
    requires i < |s| && s[i] == ' ' && (i + 1 == |s| || s[i + 1] != ' ')
    ensures SpaceRun(s, i) == 1
  {
    assert SpaceRun(s, i + 1) == 0;
  }

  lemma {:induction false} LeadingSpaceOf(w: string, rest: string)
    requires AllSpace(w) && rest != [] && !IsSpace(rest[0])
    ensures LeadingSpace(w + rest) == w
    decreases |w|
  {
    if w == [] {
      assert w + rest == rest;
    } else {
      assert (w + rest)[1..] == w[1..] + rest;
      LeadingSpaceOf(w[1..], rest);
      assert [w[0]] + w[1..] == w;
    }
  }

  // ---------------------------------------------------------------- suffix matchers

  /** `priorityRegex`: the marker character at the very end. */
  function MatchPriority(s: string): (r: Option<Priority>)
    ensures r.Some? <==> s != [] && s[|s| - 1] in [HighMarker, MediumMarker, LowMarker]
    ensures r == Some(High) <==> s != [] && s[|s| - 1] == HighMarker
    ensures r == Some(Medium) <==> s != [] && s[|s| - 1] == MediumMarker
    ensures r == Some(Low) <==> s != [] && s[|s| - 1] == LowMarker
    ensures r != Some(NoPriority)
  {
    if s == [] then None
    else if s[|s| - 1] == LowMarker then Some(Low)
    else if s[|s| - 1] == MediumMarker then Some(Medium)
    else if s[|s| - 1] == HighMarker then Some(High)
    else None
  }

  /**
    `[markers] ?(\d{4}-\d{2}-\d{2})$`: the leftmost match starts at the marker, which stands
    either right before the date or one space before it. The result is that start and the date.
  */
  function MatchDateSuffix(s: string, markers: string): (r: Option<(nat, Date)>)
    requires ' ' !in markers
    ensures r.Some? ==> |s| >= 11 && IsDateText(s[|s| - 10..]) && r.value.1 == Parse(s[|s| - 10..])
    ensures r.Some? ==> r.value.0 + 11 <= |s| && s[r.value.0] in markers
    ensures r.Some? ==> r.value.0 + 11 == |s| || (r.value.0 + 12 == |s| && s[|s| - 11] == ' ')
    ensures r.None? <==> !(|s| >= 11 && IsDateText(s[|s| - 10..]) && (s[|s| - 11] in markers || (|s| >= 12 && s[|s| - 11] == ' ' && s[|s| - 12] in markers)))
  {
    if |s| < 11 || !IsDateText(s[|s| - 10..]) then None
    else if |s| >= 12 && s[|s| - 11] == ' ' && s[|s| - 12] in markers then Some((|s| - 12, Parse(s[|s| - 10..])))
    else if s[|s| - 11] in markers then Some((|s| - 11, Parse(s[|s| - 10..])))
    else None
  }

  /**
    The characters of `[a-zA-Z0-9, !]` under the `i` and `u` flags: case folding adds `ſ`
    (U+017F, folds to `s`) and the Kelvin sign (U+212A, folds to `k`).
  */
  predicate IsRuleChar(c: char) {
    || 'a' <= c <= 'z' || 'A' <= c <= 'Z' || IsDigit(c)
    || c == ',' || c == ' ' || c == '!' || c == '\U{17F}' || c == '\U{212A}'
  }

  /** The characters of `[a-zA-Z0-9-]`, the block link id. */
  predicate IsIdChar(c: char) {
    'a' <= c <= 'z' || 'A' <= c <= 'Z' || IsDigit(c) || c == '-'
  }

  /** The start of the longest suffix of `s` whose characters all satisfy `p`. */
  function RunStart(s: string, p: char -> bool): (k: nat)
    ensures k <= |s|
    ensures forall i :: k <= i < |s| ==> p(s[i])
    ensures k > 0 ==> !p(s[k - 1])
  {
    if s == [] || !p(s[|s| - 1]) then |s| else RunStart(s[..|s| - 1], p)
  }

  /**
    `recurrenceRegex` (`🔁 ?([a-zA-Z0-9, !]+)$`): the marker must be followed by rule
    characters up to the end. The optional space is taken when a rule character remains after
    it. The result is the marker's position and the capture.
  */
  function MatchRecurrence(s: string): (r: Option<(nat, string)>)
    ensures r.Some? ==> r.value.0 + 1 < |s| && s[r.value.0] == RecurrenceMarker
    ensures r.Some? ==> forall i :: r.value.0 < i < |s| ==> IsRuleChar(s[i])
    ensures r.Some? ==> r.value.1 != [] && EndsWith(s, r.value.1)
    ensures r.Some? ==> r.value.1 == s[r.value.0 + 1..] || (s[r.value.0 + 1] == ' ' && r.value.1 == s[r.value.0 + 2..])
  {
    var k := RunStart(s, IsRuleChar);
    if k == 0 || k == |s| || s[k - 1] != RecurrenceMarker then None
    else if s[k] == ' ' && |s| - k >= 2 then Some((k - 1, s[k + 1..]))
    else Some((k - 1, s[k..]))
  }

  /** `blockLinkRegex` (` \^[a-zA-Z0-9-]+$`): where the matched ` ^id` begins. */
  function MatchBlockLink(s: string): (r: Option<nat>)
    ensures r.Some? ==> r.value + 3 <= |s| && s[r.value] == ' ' && s[r.value + 1] == '^'
    ensures r.Some? ==> forall i :: r.value + 2 <= i < |s| ==> IsIdChar(s[i])
  {
    var k := RunStart(s, IsIdChar);
    if k < 2 || k == |s| || s[k - 2] != ' ' || s[k - 1] != '^' then None
    else Some(k - 2)
  }

  // ---------------------------------------------------------------- the suffix loop

  /** The fields the loop collects. */
  datatype Found = Found(
    priority: Priority,
    startDate: Option<Date>,
    scheduledDate: Option<Date>,
    dueDate: Option<Date>,
    doneDate: Option<Date>,
    recurrence: Option<Recurrence>)

  /** Before the loop nothing is found: no priority, no dates, no recurrence. */
  const NothingFound := Found(NoPriority, None, None, None, None, None)

  /** The loop state: the description so far, what was found, whether this pass stripped anything. */
  datatype Scan = Scan(description: string, found: Found, matched: bool)

  datatype DateField = StartField | ScheduledField | DueField | DoneField

  function Markers(f: DateField): (m: string)
    ensures ' ' !in m
  {
    match f
    case StartField => [StartMarker]
    case ScheduledField => [ScheduledMarker, ScheduledAltMarker]
    case DueField => [DueMarker] + DueAltMarkers
    case DoneField => [DoneMarker]
  }

  function SetDate(found: Found, f: DateField, d: Date): (r: Found)
  {
    match f
    case StartField => found.(startDate := Some(d))
    case ScheduledField => found.(scheduledDate := Some(d))
    case DueField => found.(dueDate := Some(d))
    case DoneField => found.(doneDate := Some(d))
  }

  /** Strips a trailing priority marker and records the priority. */
  function StepPriority(s: Scan): (r: Scan)
    ensures r == s || (r.matched && |r.description| < |s.description|)
    ensures MatchPriority(s.description).None? ==> r == s
    ensures MatchPriority(s.description).Some? ==>
      && r.matched
      && r.description == Trim(s.description[..|s.description| - 1])
      && r.found == s.found.(priority := MatchPriority(s.description).value)
  {
    match MatchPriority(s.description)
    case None => s
    case Some(p) => Scan(Trim(s.description[..|s.description| - 1]), s.found.(priority := p), true)
  }

  /** Strips a trailing dated marker and records the date. */
  function StepDate(s: Scan, f: DateField): (r: Scan)
    ensures r == s || (r.matched && |r.description| < |s.description|)
    ensures MatchDateSuffix(s.description, Markers(f)).None? ==> r == s
    ensures MatchDateSuffix(s.description, Markers(f)).Some? ==>
      var m := MatchDateSuffix(s.description, Markers(f)).value;
      && r.matched
      && r.description == Trim(s.description[..m.0])
      && r.found == SetDate(s.found, f, m.1)
  {
    match MatchDateSuffix(s.description, Markers(f))
    case None => s
    case Some(m) => Scan(Trim(s.description[..m.0]), SetDate(s.found, f, m.1), true)
  }

  /**
    Strips a trailing recurrence rule. The rule is read with the dates found so far; a rule the
    service cannot read leaves the recurrence null but still counts as a match.
  */
  function StepRecurrence(s: Scan, svc: RecurrenceService): (r: Scan)
    ensures r == s || (r.matched && |r.description| < |s.description|)
    ensures MatchRecurrence(s.description).None? ==> r == s
    ensures MatchRecurrence(s.description).Some? ==>
      var m := MatchRecurrence(s.description).value;
      && r.matched
      && r.description == Trim(s.description[..m.0])
      && r.found == s.found.(recurrence := svc.fromText(Trim(m.1), s.found.startDate, s.found.scheduledDate, s.found.dueDate))
  {
    match MatchRecurrence(s.description)
    case None => s
    case Some(m) =>
      Scan(Trim(s.description[..m.0]),
        s.found.(recurrence := svc.fromText(Trim(m.1), s.found.startDate, s.found.scheduledDate, s.found.dueDate)),
        true)
  }

  /** One pass of the loop body: priority, done, due, scheduled, start, recurrence, in that order. */
  function Pass(description: string, found: Found, svc: RecurrenceService): (r: Scan)
    ensures !r.matched ==> r.description == description && r.found == found
    ensures r.matched ==> |r.description| < |description|
  {
    var s0 := Scan(description, found, false);
    var s1 := StepPriority(s0);
    var s2 := StepDate(s1, DoneField);
    var s3 := StepDate(s2, DueField);
    var s4 := StepDate(s3, ScheduledField);
    var s5 := StepDate(s4, StartField);
    StepRecurrence(s5, svc)
  }

  /** The loop's outcome and how many passes it ran. */
  datatype Stripped = Stripped(description: string, found: Found, passes: nat)

  /**
    The `do … while (matched && runs <= maxRuns)` loop with `maxRuns = 7`: `runs` passes are
    done when this is called, and the loop runs at most eight passes in all.
  */
  function StripLoop(description: string, found: Found, runs: nat, svc: RecurrenceService): (r: Stripped)
    requires runs <= 7
    ensures runs < r.passes <= 8
    ensures r.passes < 8 ==> !Pass(r.description, r.found, svc).matched
    ensures |r.description| <= |description|
    decreases 7 - runs
  {
    var p := Pass(description, found, svc);
    if p.matched && runs + 1 <= 7 then StripLoop(p.description, p.found, runs + 1, svc)
    else Stripped(p.description, p.found, runs + 1)
  }

  // ---------------------------------------------------------------- tags

  /** The characters `[^ !@#$%^&*(),.?":{}|<>]` admits after `#`. */
  predicate IsTagChar(c: char) {
    c !in " !@#$%^&*(),.?\":{}|<>"
  }

  function TagEnd(s: string, j: nat): (e: nat)
    requires j <= |s|
    ensures j <= e <= |s|
    ensures forall i :: j <= i < e ==> IsTagChar(s[i])
    ensures e < |s| ==> !IsTagChar(s[e])
    decreases |s| - j
  {
    if j < |s| && IsTagChar(s[j]) then TagEnd(s, j + 1) else j
  }

  /** A match of `hashTags`: a `#`, or one whitespace character and then a `#`, followed by tag characters. */
  predicate IsHashMatch(m: string) {
    |m| >= 1 && (m[0] == '#' || (|m| >= 2 && IsSpace(m[0]) && m[1] == '#'))
  }

  /**
    The matches of the global `hashTags` expression `(^|\s)#[^ …]*` from position `i` on: a `#`
    at the start of the text or right after a whitespace character (which the match includes),
    then the longest run of tag characters. The search resumes where a match ends.
  */
  function HashTagMatches(s: string, i: nat): (r: seq<string>)
    requires i <= |s|
    ensures forall k :: 0 <= k < |r| ==> Contains(s, r[k])
    ensures forall k :: 0 <= k < |r| ==> IsHashMatch(r[k])
    decreases |s| - i
  {
    if i >= |s| then []
    else if i == 0 && s[0] == '#' then
      var e := TagEnd(s, 1);
      assert OccursAt(s, s[0..e], 0);
      [s[0..e]] + HashTagMatches(s, e)
    else if IsSpace(s[i]) && i + 1 < |s| && s[i + 1] == '#' then
      var e := TagEnd(s, i + 2);
      assert OccursAt(s, s[i..e], i);
      [s[i..e]] + HashTagMatches(s, e)
    else HashTagMatches(s, i + 1)
  }

  /**
    The tags: every match except those equal to the global filter (compared before trimming,
    so a match carrying its leading whitespace is kept), each trimmed.
  */
  function TagsOf(matches: seq<string>, globalFilter: string): (r: seq<string>)
    requires forall m :: m in matches ==> IsHashMatch(m)
    ensures |r| <= |matches|
    ensures forall t :: t in r ==> |t| >= 1 && t[0] == '#'
  {
    if matches == [] then []
    else
      var rest := TagsOf(matches[1..], globalFilter);
      if matches[0] == globalFilter then rest
      else
        TrimTag(matches[0]);
        [Trim(matches[0])] + rest
  }

  /** The tags are exactly the trimmed matches that differ from the global filter. */
  lemma {:induction false} TagsOfMembers(matches: seq<string>, globalFilter: string)
    requires forall m :: m in matches ==> IsHashMatch(m)
    ensures forall t :: t in TagsOf(matches, globalFilter) ==> exists m :: m in matches && m != globalFilter && t == Trim(m)
    ensures forall m :: m in matches && m != globalFilter ==> Trim(m) in TagsOf(matches, globalFilter)
  {
    if matches != [] {
      var head, tail := matches[0], matches[1..];
      assert matches == [head] + tail;
      TagsOfMembers(tail, globalFilter);
      var rest := TagsOf(tail, globalFilter);
      var r := TagsOf(matches, globalFilter);
      assert r == if head == globalFilter then rest else [Trim(head)] + rest;
      forall t | t in r
        ensures exists m :: m in matches && m != globalFilter && t == Trim(m)
      {
        if t in rest {
          var m :| m in tail && m != globalFilter && t == Trim(m);
          assert m in matches;
        } else {
          assert head in matches && head != globalFilter && t == Trim(head);
        }
      }
      forall m | m in matches && m != globalFilter
        ensures Trim(m) in r
      {
        if m != head {
          assert m in tail;
        }
      }
    }
  }

  /** Trimming a match leaves the `#` first. */
  lemma TrimTag(m: string)
    requires IsHashMatch(m)
    ensures |Trim(m)| >= 1 && Trim(m)[0] == '#'
  {
    var h := if m[0] == '#' then 0 else 1;
    var t := m[h..];
    assert t[0] == '#';
    TrimStartKeeps(t);
    if h == 1 {
      TrimStartSkips(m);
    }
    assert TrimStart(m) == t;
    TrimEndKeeps(t, 0);
    var r := TrimEnd(t);
    assert r == t[..|r|];
    assert r[0] == t[0];
  }

  /** Every tag starts with `#` and occurs in the description it was read from. */
  lemma TagsInDescription(description: string, globalFilter: string)
    ensures forall tag :: tag in TagsOf(HashTagMatches(description, 0), globalFilter) ==> |tag| >= 1 && tag[0] == '#' && Contains(description, tag)
  {
    var ms := HashTagMatches(description, 0);
    forall m | m in ms
      ensures Contains(description, m) && IsHashMatch(m)
    {
      var k :| 0 <= k < |ms| && ms[k] == m;
    }
    TagsFound(description, ms, globalFilter);
  }

  /** The tags of matches found in the text start with `#` and are found in the text. */
  lemma TagsFound(description: string, ms: seq<string>, globalFilter: string)
    requires forall m :: m in ms ==> Contains(description, m) && IsHashMatch(m)
    ensures forall tag :: tag in TagsOf(ms, globalFilter) ==> |tag| >= 1 && tag[0] == '#' && Contains(description, tag)
  {
    TagsOfMembers(ms, globalFilter);
    forall tag | tag in TagsOf(ms, globalFilter)
      ensures |tag| >= 1 && tag[0] == '#' && Contains(description, tag)
    {
      var m :| m in ms && m != globalFilter && tag == Trim(m);
      TagOfMatch(description, m);
    }
  }

  /** A match found in the text, trimmed, starts with `#` and is still found in the text. */
  lemma TagOfMatch(description: string, m: string)
    requires Contains(description, m) && IsHashMatch(m)
    ensures |Trim(m)| >= 1 && Trim(m)[0] == '#' && Contains(description, Trim(m))
  {
    TrimTag(m);
    TrimContained(m);
    OccursWithin(description, m, Trim(m), IndexOf(description, m).value, |m| - |TrimStart(m)|);
  }

  // ---------------------------------------------------------------- fromLine

  /** What `fromLine` reads from its environment: the global filter, the status registry, the recurrence service. */
  datatype DecodeEnv = DecodeEnv(globalFilter: string, registry: Registry, recurrence: RecurrenceService)

  /** The block link at the end, and the description without it (trimmed). */
  function StripBlockLink(d: string): (r: (string, string))
    ensures MatchBlockLink(d).None? ==> r == (d, "")
    ensures r.1 == "" || (|r.1| >= 3 && r.1[..2] == " ^")
    ensures MatchBlockLink(d).Some? ==> r.1 == d[MatchBlockLink(d).value..] && r.0 == Trim(d[..MatchBlockLink(d).value])
  {
    match MatchBlockLink(d)
    case None => (d, "")
    case Some(i) =>
      assert d[i..][..2] == [d[i], d[i + 1]];
      (Trim(d[..i]), d[i..])
  }

  /** `new CreatedDateProperty(description)`: a fresh created property (intended marker) given the description. */
  function CreatedOf(d: string): (p: Properties.DateProperty)
    ensures Properties.Construct(Properties.NewCreated(Properties.Intended), Properties.TextInit(d)) == Success(p)
    ensures p.kind == Properties.CreatedKind
  {
    Properties.CreatedPattern(Properties.Intended);
    if d == "" then Properties.NewCreated(Properties.Intended)
    else Properties.AssignText(Properties.NewCreated(Properties.Intended), d).value
  }

  /** A created property's markdown text; the created `date` helper never throws. */
  function CreatedMarkdown(p: Properties.DateProperty): string
    requires p.kind == Properties.CreatedKind
  {
    Properties.MarkdownString(p).value
  }

  /** The description after the global filter, the first double space and the outer whitespace are removed. */
  function CleanDescription(body: string, globalFilter: string): string
  {
    Trim(ReplaceFirst(ReplaceFirst(body, globalFilter, ""), "  ", " "))
  }

  /** The parts of a task read from its body. */
  datatype BodyFields = BodyFields(description: string, blockLink: string, createdDate: Option<Date>, found: Found, tags: seq<string>)

  /** The tags of a description, read with `hashTags` and filtered against the global filter. */
  function ReadTags(description: string, globalFilter: string): (tags: seq<string>)
    ensures forall tag :: tag in tags ==> |tag| >= 1 && tag[0] == '#' && Contains(description, tag)
  {
    TagsInDescription(description, globalFilter);
    TagsOf(HashTagMatches(description, 0), globalFilter)
  }

  /**
    The body steps of `fromLine` after the global filter check: clean the description, strip the
    block link, read and remove the created date, run the suffix loop, read the tags.
  */
  function ReadBody(body: string, env: DecodeEnv): (r: BodyFields)
    ensures r.blockLink == "" || (|r.blockLink| >= 3 && r.blockLink[..2] == " ^")
    ensures forall tag :: tag in r.tags ==> |tag| >= 1 && tag[0] == '#' && Contains(r.description, tag)
  {
    var stripped := StripBlockLink(CleanDescription(body, env.globalFilter));
    var created := CreatedOf(stripped.0);
    var rest := Trim(ReplaceFirst(stripped.0, CreatedMarkdown(created), ""));
    var loop := StripLoop(rest, NothingFound, 0, env.recurrence);
    BodyFields(loop.description, stripped.1, created.value, loop.found, ReadTags(loop.description, env.globalFilter))
  }

  /**
    `Task.fromLine`: null when the line is not a checklist item or its trimmed body lacks the
    global filter; otherwise the task with the block link, created date and trailing fields
    stripped from the description and the tags read from what remains.
  */
  function FromLine(line: string, path: string, sectionStart: int, sectionIndex: int,
                    precedingHeader: Option<string>, env: DecodeEnv): (r: Option<Task>)
    ensures MatchTaskLine(line).None? ==> r.None?
    ensures MatchTaskLine(line).Some? ==> (r.Some? <==> Contains(Trim(MatchTaskLine(line).value.body), env.globalFilter))
    ensures r.Some? ==>
      && r.value.indentation == MatchTaskLine(line).value.indentation
      && r.value.status == env.registry.byIndicator(ToLower([MatchTaskLine(line).value.statusChar]))
      && r.value.path == path && r.value.originalMarkdown == line
      && r.value.sectionStart == sectionStart && r.value.sectionIndex == sectionIndex
      && r.value.precedingHeader == precedingHeader
    ensures r.Some? ==> r.value.blockLink == "" || (|r.value.blockLink| >= 3 && r.value.blockLink[..2] == " ^")
    ensures r.Some? ==> forall tag :: tag in r.value.tags ==> |tag| >= 1 && tag[0] == '#' && Contains(r.value.description, tag)
  {
    match MatchTaskLine(line)
    case None => None
    case Some(parts) =>
      var body := Trim(parts.body);
      if !Contains(body, env.globalFilter) then None
      else
        var f := ReadBody(body, env);
        Some(Task(
          env.registry.byIndicator(ToLower([parts.statusChar])), f.description, path, parts.indentation,
          sectionStart, sectionIndex, precedingHeader, f.tags, f.found.priority, f.found.startDate,
          f.found.scheduledDate, f.found.dueDate, f.found.doneDate, f.createdDate, f.found.recurrence,
          f.blockLink, line))
  }

  // ---------------------------------------------------------------- toString

  /**
    What `toString` reads from its environment: the global filter, whether it goes at the end
    (the APPEND_GLOBAL_FILTER feature and the `appendGlobalFilter` setting both on), and the
    recurrence service that prints rules.
  */
  datatype EncodeEnv = EncodeEnv(globalFilter: string, appendGlobalFilter: bool, recurrence: RecurrenceService)

  /** The description with the global filter in front (the default) or at the end. */
  function WithGlobalFilter(description: string, env: EncodeEnv): (r: string)
    ensures IsTrimmed(r)
  {
    if env.appendGlobalFilter then Trim(Trim(description) + " " + env.globalFilter)
    else Trim(env.globalFilter + " " + Trim(description))
  }

  function CreatedSegment(t: Task, short: bool): string
  {
    if t.createdDate.Some? then
      " " + Properties.RenderedString(Properties.NewCreated(Properties.Intended).(value := t.createdDate), short).value
    else ""
  }

  function PrioritySegment(p: Priority, hidden: bool): (r: string)
    ensures p == NoPriority || hidden ==> r == ""
  {
    if hidden then ""
    else match p
      case High => [' ', HighMarker]
      case Medium => [' ', MediumMarker]
      case Low => [' ', LowMarker]
      case NoPriority => ""
  }

  function RecurrenceSegment(r: Option<Recurrence>, hidden: bool, short: bool, svc: RecurrenceService): string
  {
    if hidden || r.None? then ""
    else if short then [' ', RecurrenceMarker]
    else [' ', RecurrenceMarker, ' '] + svc.toText(r.value)
  }

  /** A dated segment: ` marker date`, or the marker alone in short mode. */
  function DateSegment(marker: char, d: Option<Date>, hidden: bool, short: bool): string
  {
    if hidden || d.None? then ""
    else if short then [' ', marker]
    else [' ', marker, ' '] + Format(d.value)
  }

  /**
    `toString`: the description with the global filter, then the created date, priority,
    recurrence, start, scheduled, due and done segments in that order, each suppressed by its
    hide flag, then the block link.
  */
  function ToString(t: Task, layout: LayoutOptions, env: EncodeEnv): string
  {
    WithGlobalFilter(t.description, env)
    + CreatedSegment(t, layout.shortMode)
    + PrioritySegment(t.priority, layout.hidePriority)
    + RecurrenceSegment(t.recurrence, layout.hideRecurrenceRule, layout.shortMode, env.recurrence)
    + DateSegment(StartMarker, t.startDate, layout.hideStartDate, layout.shortMode)
    + DateSegment(ScheduledMarker, t.scheduledDate, layout.hideScheduledDate, layout.shortMode)
    + DateSegment(DueMarker, t.dueDate, layout.hideDueDate, layout.shortMode)
    + DateSegment(DoneMarker, t.doneDate, layout.hideDoneDate, layout.shortMode)
    + t.blockLink
  }

  /** `toFileLineString`: indentation, `- [indicator] `, then the default rendering trimmed. */
  function ToFileLine(t: Task, env: EncodeEnv): string
  {
    t.indentation + "- [" + t.status.indicator + "] " + Trim(ToString(t, DefaultLayout, env))
  }
}

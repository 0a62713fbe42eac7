/**
  The task index of src/Cache.ts without its IndexedDB branch. The index is a value: its state,
  its task list, the `loadedAfterFirstResolve` flag and the notifications it has sent. Each
  handler is one atomic step here and events apply in the order given. The changed and create
  handlers start `indexFile` inside the mutex without awaiting it, so in the code their reads can
  interleave; that is not modelled. The vault and the metadata cache are read through `FileView`s
  handed to the handlers.
*/
module Cache {
  import opened Wrappers
  import opened Text
  import opened Tasks
  import opened TaskLine

  /** `State`. */
  datatype State = Cold | Initializing | Warm

  /** A `SectionCache`: its `type` and its first and last line. */
  datatype Section = Section(kind: string, start: nat, end: nat)

  /** A `ListItemCache`: whether its `task` field is defined, and its first line. */
  datatype ListItem = ListItem(isTask: bool, line: nat)

  /** The parts of `CachedMetadata` the index reads; either may be undefined. */
  datatype Metadata = Metadata(listItems: Option<seq<ListItem>>, sections: Option<seq<Section>>)

  /**
    A markdown file as `indexFile` sees it: its path, what `getFileCache` returns for it (`None`
    for null or undefined) and what `cachedRead` returns.
  */
  datatype FileView = FileView(path: string, metadata: Option<Metadata>, content: string)

  // ---------------------------------------------------------------- getSection

  /** A `list` section whose lines include `line`. */
  predicate Encloses(s: Section, line: nat) {
    s.kind == "list" && s.start <= line <= s.end
  }

  /** The index of the first section from `i` on that encloses the line. */
  function FirstEnclosing(ss: seq<Section>, line: nat, i: nat): (r: Option<nat>)
    requires i <= |ss|
    ensures r.Some? ==> i <= r.value < |ss| && Encloses(ss[r.value], line)
    ensures r.Some? ==> forall j :: i <= j < r.value ==> !Encloses(ss[j], line)
    ensures r.None? ==> forall j :: i <= j < |ss| ==> !Encloses(ss[j], line)
    decreases |ss| - i
  {
    if i == |ss| then None
    else if Encloses(ss[i], line) then Some(i)
    else FirstEnclosing(ss, line, i + 1)
  }

  /** `getSection`: the first `list` section containing the line, null when there is none or no sections at all. */
  function GetSection(line: nat, sections: Option<seq<Section>>): (r: Option<Section>)
    ensures sections.None? ==> r.None?
    ensures r.Some? ==> exists k :: 0 <= k < |sections.value| && sections.value[k] == r.value && Encloses(r.value, line) &&
                                    forall j :: 0 <= j < k ==> !Encloses(sections.value[j], line)
    ensures sections.Some? && r.None? ==> forall s :: s in sections.value ==> !Encloses(s, line)
  {
    match sections
    case None => None
    case Some(ss) =>
      match FirstEnclosing(ss, line, 0)
      case None => None
      case Some(k) => Some(ss[k])
  }

  // ---------------------------------------------------------------- getPrecedingHeader

  /**
    The heading loop of `getPrecedingHeader` from section `i` on, `found` being the last heading
    kept so far: a heading that starts after the line ends the loop, any other replaces `found`.
  */
  function HeadingScan(ss: seq<Section>, line: nat, i: nat, found: Option<nat>): (r: Option<nat>)
    requires i <= |ss|
    requires found.Some? ==> found.value < i
    ensures r.Some? ==> r.value < |ss|
    decreases |ss| - i
  {
    if i == |ss| then found
    else if ss[i].kind == "heading" then
      if ss[i].start > line then found else HeadingScan(ss, line, i + 1, Some(i))
    else HeadingScan(ss, line, i + 1, found)
  }

  predicate IsHeading(s: Section) {
    s.kind == "heading"
  }

  /** A section where the heading loop stops: a heading that starts after the line. */
  predicate StopsScan(s: Section, line: nat) {
    IsHeading(s) && s.start > line
  }

  /** The index of the first section from `i` on where the heading loop stops, `|ss|` when it runs to the end. */
  function StopAt(ss: seq<Section>, line: nat, i: nat): (r: nat)
    requires i <= |ss|
    ensures i <= r <= |ss|
    ensures forall j :: i <= j < r ==> !StopsScan(ss[j], line)
    ensures r < |ss| ==> StopsScan(ss[r], line)
    decreases |ss| - i
  {
    if i == |ss| || StopsScan(ss[i], line) then i else StopAt(ss, line, i + 1)
  }

  /** Section `k` is the last heading before index `cut`. */
  predicate LastHeadingBefore(ss: seq<Section>, cut: nat, k: int) {
    0 <= k < cut <= |ss| && IsHeading(ss[k]) && forall m :: k < m < cut ==> !IsHeading(ss[m])
  }

  /** No section before index `cut` is a heading. */
  predicate NoHeadingBefore(ss: seq<Section>, cut: nat) {
    forall m :: 0 <= m < cut && m < |ss| ==> !IsHeading(ss[m])
  }

  /**
    The loop's result in terms of the sections: the last heading before the one where it stops,
    none when there is no heading before that point. `found` is the last heading before `i`.
  */
  lemma {:induction false} HeadingScanSpec(ss: seq<Section>, line: nat, i: nat, found: Option<nat>)
    requires i <= |ss|
    requires found.Some? ==> LastHeadingBefore(ss, i, found.value)
    requires found.None? ==> NoHeadingBefore(ss, i)
    ensures var r := HeadingScan(ss, line, i, found);
      && (r.Some? ==> LastHeadingBefore(ss, StopAt(ss, line, i), r.value))
      && (r.None? ==> NoHeadingBefore(ss, StopAt(ss, line, i)))
    decreases |ss| - i
  {
    if i < |ss| && !StopsScan(ss[i], line) {
      if IsHeading(ss[i]) {
        HeadingScanSpec(ss, line, i + 1, Some(i));
      } else {
        HeadingScanSpec(ss, line, i + 1, found);
      }
    }
  }

  /** The kept heading starts at or before the line, as every heading before it does. */
  lemma KeptStartsBefore(ss: seq<Section>, line: nat, k: int)
    requires LastHeadingBefore(ss, StopAt(ss, line, 0), k)
    ensures ss[k].start <= line
    ensures forall j :: 0 <= j < k && IsHeading(ss[j]) ==> ss[j].start <= line
  {
    assert !StopsScan(ss[k], line);
  }

  /** For sections listed in line order, the kept heading is the last heading starting at or before the line. */
  lemma KeptIsLast(ss: seq<Section>, line: nat, k: int)
    requires forall i, j :: 0 <= i < j < |ss| ==> ss[i].start <= ss[j].start
    requires LastHeadingBefore(ss, StopAt(ss, line, 0), k)
    ensures forall j :: k < j < |ss| && IsHeading(ss[j]) ==> ss[j].start > line
  {
    var cut := StopAt(ss, line, 0);
    forall j | k < j < |ss| && IsHeading(ss[j])
      ensures ss[j].start > line
    {
      assert j >= cut;
      if j > cut {
        assert ss[cut].start <= ss[j].start;
      }
    }
  }

  /** The length of the run of `c` at the start of `s`. */
  function RunOf(s: string, c: char): (n: nat)
    ensures n <= |s| && forall i :: 0 <= i < n ==> s[i] == c
    ensures n < |s| ==> s[n] != c
  {
    if s == [] || s[0] != c then 0 else 1 + RunOf(s[1..], c)
  }

  /** `/^#+ +(.*)/u`: the text after the hashes and the spaces, up to the first line terminator. */
  function HeaderText(s: string): (r: Option<string>)
    ensures r.Some? <==> RunOf(s, '#') > 0 && RunOf(s[RunOf(s, '#')..], ' ') > 0
  {
    var h := RunOf(s, '#');
    var rest := s[h..];
    var sp := RunOf(rest, ' ');
    if h == 0 || sp == 0 then None else Some(LineContent(rest[sp..]))
  }

  /** `n` copies of `c`. */
  function Repeat(c: char, n: nat): (r: string)
    ensures |r| == n && forall i :: 0 <= i < n ==> r[i] == c
  {
    if n == 0 then [] else [c] + Repeat(c, n - 1)
  }

  /**
    A heading line written as hashes, spaces and a title that neither starts with a space nor
    holds a line terminator gives back the title.
  */
  lemma HeaderTextOfHeading(hashes: nat, spaces: nat, title: string)
    requires hashes > 0 && spaces > 0
    requires title == [] || title[0] != ' '
    requires forall i :: 0 <= i < |title| ==> !IsLineTerminator(title[i])
    ensures HeaderText(Repeat('#', hashes) + Repeat(' ', spaces) + title) == Some(title)
  {
    HeaderTextParts(Repeat('#', hashes), Repeat(' ', spaces), title);
  }

  lemma HeaderTextParts(p: string, q: string, title: string)
    requires p != [] && forall i :: 0 <= i < |p| ==> p[i] == '#'
    requires q != [] && forall i :: 0 <= i < |q| ==> q[i] == ' '
    requires title == [] || title[0] != ' '
    requires forall i :: 0 <= i < |title| ==> !IsLineTerminator(title[i])
    ensures HeaderText(p + q + title) == Some(title)
  {
    var s := p + q + title;
    var rest := q + title;
    assert s == p + rest;
    RunOfPrefix(p, rest, '#');
    assert s[|p|..] == rest;
    RunOfPrefix(q, title, ' ');
    assert rest[|q|..] == title;
    LineContentWhole(title);
  }

  /** The run of `c` at the start of `p + q`, where `p` is all `c` and `q` does not start with it. */
  lemma {:induction false} RunOfPrefix(p: string, q: string, c: char)
    requires forall i :: 0 <= i < |p| ==> p[i] == c
    requires q == [] || q[0] != c
    ensures RunOf(p + q, c) == |p|
  {
    if p != [] {
      RunOfPrefix(p[1..], q, c);
      assert (p + q)[1..] == p[1..] + q;
    } else {
      assert p + q == q;
    }
  }

  /**
    `getPrecedingHeader`: the title of the kept heading, null when there are no sections, no
    kept heading, or its line does not match the heading regex. Reading a line past the end of
    the file makes `match` throw.
  */
  function PrecedingHeader(line: nat, sections: Option<seq<Section>>, lines: seq<string>): (r: Result<Option<string>>)
    ensures sections.None? ==> r == Success(None)
    ensures r.Failure? ==> (sections.Some? && HeadingScan(sections.value, line, 0, None).Some? &&
                            sections.value[HeadingScan(sections.value, line, 0, None).value].start >= |lines|)
  {
    match sections
    case None => Success(None)
    case Some(ss) =>
      match HeadingScan(ss, line, 0, None)
      case None => Success(None)
      case Some(k) =>
        var at := ss[k].start;
        if at >= |lines| then Failure("TypeError: cannot read properties of undefined")
        else Success(HeaderText(lines[at]))
  }

  /** The header is the title on the kept heading's line, and there is none when no heading is kept. */
  lemma PrecedingHeaderSpec(line: nat, ss: seq<Section>, lines: seq<string>)
    ensures var r := PrecedingHeader(line, Some(ss), lines);
      r.Success? && r.value.Some? ==>
        exists k :: LastHeadingBefore(ss, StopAt(ss, line, 0), k) && ss[k].start < |lines| && r.value == HeaderText(lines[ss[k].start])
    ensures NoHeadingBefore(ss, StopAt(ss, line, 0)) ==> PrecedingHeader(line, Some(ss), lines) == Success(None)
  {
    HeadingScanSpec(ss, line, 0, None);
  }

  // ---------------------------------------------------------------- indexFile

  /** What one run of `indexFile` reads: the file's path, its sections, its lines and the task decoder's settings. */
  datatype FileContext = FileContext(path: string, sections: Option<seq<Section>>, lines: seq<string>, env: DecodeEnv)

  /**
    The loop variables of `indexFile`: the current section, the section index, the tasks pushed
    so far, and whether an exception has left the loop.
  */
  datatype Walk = Walk(section: Option<Section>, sectionIndex: nat, pushed: seq<Task>, threw: bool)

  const Start := Walk(None, 0, [], false)

  /**
    One list item. A task item past the current section looks the section up again and restarts
    the index; without a section it is skipped; otherwise its line is decoded with the section's
    start, the index and the preceding header, and a decoded task is pushed and counted. A header
    heading or a task line past the end of the file throws.
  */
  function Step(w: Walk, item: ListItem, ctx: FileContext): (r: Walk)
    ensures r.threw ==> r.pushed == w.pushed
  {
    if w.threw || !item.isTask then w
    else
      var (section, index) := Locate(w, item.line, ctx);
      if section.None? then w.(section := None, sectionIndex := index)
      else Visit(w, item.line, section.value, index, ctx)
  }

  /**
    A task item on `line` inside `section`: a failing header lookup or a line past the end of the
    file throws; a line that decodes is pushed with the section's start and the index, and the
    index moves on; any other line leaves the pushed tasks as they were.
  */
  function Visit(w: Walk, line: nat, section: Section, index: nat, ctx: FileContext): (r: Walk)
    ensures r.section == Some(section)
    ensures r.threw ==> r.pushed == w.pushed
    ensures r.pushed == w.pushed ==> r.sectionIndex == index
    ensures r.pushed != w.pushed ==>
      && !r.threw && line < |ctx.lines| && r.sectionIndex == index + 1
      && |r.pushed| == |w.pushed| + 1 && r.pushed == w.pushed + [r.pushed[|w.pushed|]]
      && r.pushed[|w.pushed|].path == ctx.path
      && r.pushed[|w.pushed|].originalMarkdown == ctx.lines[line]
      && r.pushed[|w.pushed|].sectionStart == section.start
      && r.pushed[|w.pushed|].sectionIndex == index
  {
    var header := PrecedingHeader(line, ctx.sections, ctx.lines);
    if header.Failure? || line >= |ctx.lines| then w.(section := Some(section), sectionIndex := index, threw := true)
    else
      match FromLine(ctx.lines[line], ctx.path, section.start, index, header.value, ctx.env)
      case None => w.(section := Some(section), sectionIndex := index)
      case Some(t) => Walk(Some(section), index + 1, w.pushed + [t], false)
  }

  /**
    The section and index for a task item on `line`: past the current section (or with none) the
    section is looked up again and the index restarts at 0; otherwise both carry on.
  */
  function Locate(w: Walk, line: nat, ctx: FileContext): (r: (Option<Section>, nat))
    ensures r.0.None? ==> r.1 == 0
    ensures w.section.None? || w.section.value.end < line ==> r == (GetSection(line, ctx.sections), 0)
    ensures w.section.Some? && line <= w.section.value.end ==> r == (w.section, w.sectionIndex)
  {
    if w.section.None? || w.section.value.end < line then (GetSection(line, ctx.sections), 0)
    else (w.section, w.sectionIndex)
  }

  /** The loop from item `i` on. */
  function Scan(items: seq<ListItem>, i: nat, w: Walk, ctx: FileContext): (r: Walk)
    requires i <= |items|
    decreases |items| - i
  {
    if i == |items| then w else Scan(items, i + 1, Step(w, items[i], ctx), ctx)
  }

  /** The lines of the task items that lie inside the file. */
  function TaskItemLines(items: seq<ListItem>, lines: seq<string>): set<string> {
    set j | 0 <= j < |items| && items[j].isTask && items[j].line < |lines| :: lines[items[j].line]
  }

  /** The first lines of the file's list sections. */
  function ListStarts(sections: Option<seq<Section>>): set<int> {
    if sections.None? then {} else set s | s in sections.value && s.kind == "list" :: s.start
  }

  /** A task `indexFile` can push: it carries the file's path, a task item's line and a list section's start. */
  predicate FromFile(t: Task, items: seq<ListItem>, ctx: FileContext) {
    t.path == ctx.path && t.originalMarkdown in TaskItemLines(items, ctx.lines) && t.sectionStart in ListStarts(ctx.sections)
  }

  /**
    The section indexes count the tasks of a section: the first task has 0, and each next one
    either starts again at 0 or follows its predecessor in the same section.
  */
  predicate Numbered(ts: seq<Task>) {
    && (ts != [] ==> ts[0].sectionIndex == 0)
    && forall k :: 0 <= k < |ts| - 1 ==>
         ts[k + 1].sectionIndex == 0 || (ts[k + 1].sectionIndex == ts[k].sectionIndex + 1 && ts[k + 1].sectionStart == ts[k].sectionStart)
  }

  /** The loop invariant: the current section is a list section, the index continues the last task's, and the pushed tasks are well formed. */
  predicate WalkInv(w: Walk, items: seq<ListItem>, ctx: FileContext) {
    && (w.section.Some? ==> w.section.value.kind == "list" && w.section.value.start in ListStarts(ctx.sections))
    && (w.sectionIndex == 0 || (w.pushed != [] && w.section.Some? && w.sectionIndex == w.pushed[|w.pushed| - 1].sectionIndex + 1
                                && w.section.value.start == w.pushed[|w.pushed| - 1].sectionStart))
    && Numbered(w.pushed)
    && forall k :: 0 <= k < |w.pushed| ==> FromFile(w.pushed[k], items, ctx)
  }

  /** A section `GetSection` returns is a list section of the file. */
  lemma GetSectionIsList(line: nat, sections: Option<seq<Section>>)
    ensures GetSection(line, sections).Some? ==>
      GetSection(line, sections).value.kind == "list" && GetSection(line, sections).value.start in ListStarts(sections)
  {
    var r := GetSection(line, sections);
    if r.Some? {
      var k :| 0 <= k < |sections.value| && sections.value[k] == r.value && Encloses(r.value, line);
      assert r.value in sections.value;
    }
  }

  /** One item keeps the invariant. */
  lemma StepInv(w: Walk, items: seq<ListItem>, i: nat, ctx: FileContext)
    requires i < |items| && WalkInv(w, items, ctx)
    ensures WalkInv(Step(w, items[i], ctx), items, ctx)
  {
    var item := items[i];
    if !w.threw && item.isTask {
      GetSectionIsList(item.line, ctx.sections);
      var (section, index) := Locate(w, item.line, ctx);
      if section.Some? {
        var r := Visit(w, item.line, section.value, index, ctx);
        if r.pushed != w.pushed {
          PushInv(w, items, i, ctx, section.value, index, r.pushed[|w.pushed|]);
        }
      }
    }
  }

  /** Pushing a task decoded from item `i` with the located section and index keeps the invariant. */
  lemma PushInv(w: Walk, items: seq<ListItem>, i: nat, ctx: FileContext, section: Section, index: nat, t: Task)
    requires i < |items| && WalkInv(w, items, ctx) && items[i].isTask && items[i].line < |ctx.lines|
    requires section.kind == "list" && section.start in ListStarts(ctx.sections)
    requires index == 0 || (w.pushed != [] && index == w.pushed[|w.pushed| - 1].sectionIndex + 1 && section.start == w.pushed[|w.pushed| - 1].sectionStart)
    requires t.path == ctx.path && t.originalMarkdown == ctx.lines[items[i].line]
    requires t.sectionStart == section.start && t.sectionIndex == index
    ensures WalkInv(Walk(Some(section), index + 1, w.pushed + [t], false), items, ctx)
  {
    assert t.originalMarkdown in TaskItemLines(items, ctx.lines);
    PushNumbered(w.pushed, t);
    var ps := w.pushed + [t];
    forall k | 0 <= k < |ps|
      ensures FromFile(ps[k], items, ctx)
    {
      if k < |w.pushed| {
        assert ps[k] == w.pushed[k];
      }
    }
  }

  lemma PushNumbered(ts: seq<Task>, t: Task)
    requires Numbered(ts)
    requires t.sectionIndex == 0 || (ts != [] && t.sectionIndex == ts[|ts| - 1].sectionIndex + 1 && t.sectionStart == ts[|ts| - 1].sectionStart)
    ensures Numbered(ts + [t])
  {
    var us := ts + [t];
    forall k | 0 <= k < |us| - 1
      ensures us[k + 1].sectionIndex == 0 || (us[k + 1].sectionIndex == us[k].sectionIndex + 1 && us[k + 1].sectionStart == us[k].sectionStart)
    {
      if k < |ts| - 1 {
        assert us[k] == ts[k] && us[k + 1] == ts[k + 1];
      }
    }
  }

  /** The whole loop keeps the invariant. */
  lemma {:induction false} ScanInv(items: seq<ListItem>, i: nat, w: Walk, ctx: FileContext)
    requires i <= |items| && WalkInv(w, items, ctx)
    ensures WalkInv(Scan(items, i, w, ctx), items, ctx)
    decreases |items| - i
  {
    if i < |items| {
      var n := Step(w, items[i], ctx);
      StepInv(w, items, i, ctx);
      ScanInv(items, i + 1, n, ctx);
      assert Scan(items, i, w, ctx) == Scan(items, i + 1, n, ctx);
    }
  }

  /** The loop only appends: what was pushed stays, and once it has thrown nothing changes. */
  lemma {:induction false} ScanExtends(items: seq<ListItem>, i: nat, w: Walk, ctx: FileContext)
    requires i <= |items|
    ensures var r := Scan(items, i, w, ctx);
      && |w.pushed| <= |r.pushed| && r.pushed[..|w.pushed|] == w.pushed
      && (w.threw ==> r == w)
    decreases |items| - i
  {
    if i < |items| {
      var n := Step(w, items[i], ctx);
      assert |w.pushed| <= |n.pushed| && n.pushed[..|w.pushed|] == w.pushed;
      ScanExtends(items, i + 1, n, ctx);
    }
  }

  /** List items in line order, as the metadata cache lists them. */
  predicate InLineOrder(items: seq<ListItem>) {
    forall a, b :: 0 <= a < b < |items| ==> items[a].line <= items[b].line
  }

  /** Task `t` carries the start of a list section that encloses `line`. */
  predicate SectionEncloses(t: Task, line: nat, ctx: FileContext) {
    ctx.sections.Some? && exists s :: s in ctx.sections.value && Encloses(s, line) && s.start == t.sectionStart
  }

  /** Task `t` was decoded from the line of a task item, inside a list section that encloses that item. */
  predicate DecodedInSection(t: Task, items: seq<ListItem>, ctx: FileContext) {
    exists j :: 0 <= j < |items| && items[j].isTask && items[j].line < |ctx.lines| &&
      t.originalMarkdown == ctx.lines[items[j].line] && SectionEncloses(t, items[j].line, ctx)
  }

  /**
    The loop invariant for items in line order, before item `i`: the current section is a list
    section of the file starting at or before every item still to come, and every pushed task
    lies in a section enclosing its item.
  */
  predicate OrderedInv(w: Walk, items: seq<ListItem>, i: nat, ctx: FileContext) {
    && (w.section.Some? ==> ctx.sections.Some? && w.section.value in ctx.sections.value && w.section.value.kind == "list" &&
                            forall j :: i <= j < |items| ==> w.section.value.start <= items[j].line)
    && forall k :: 0 <= k < |w.pushed| ==> DecodedInSection(w.pushed[k], items, ctx)
  }

  /** One item keeps the ordered invariant. */
  lemma OrderedStep(w: Walk, items: seq<ListItem>, i: nat, ctx: FileContext)
    requires InLineOrder(items) && i < |items| && OrderedInv(w, items, i, ctx)
    ensures OrderedInv(Step(w, items[i], ctx), items, i + 1, ctx)
  {
    var item := items[i];
    if !w.threw && item.isTask {
      var (section, index) := Locate(w, item.line, ctx);
      if section.Some? {
        LocatedEncloses(w, items, i, ctx);
        var r := Visit(w, item.line, section.value, index, ctx);
        if r.pushed != w.pushed {
          OrderedPush(w, items, i, ctx, section.value, index, r.pushed[|w.pushed|]);
        }
      }
    }
  }

  /** The located section of a task item, in line order, is a list section of the file enclosing the item. */
  lemma LocatedEncloses(w: Walk, items: seq<ListItem>, i: nat, ctx: FileContext)
    requires InLineOrder(items) && i < |items| && OrderedInv(w, items, i, ctx)
    ensures var section := Locate(w, items[i].line, ctx).0;
      section.Some? ==> ctx.sections.Some? && section.value in ctx.sections.value && Encloses(section.value, items[i].line) &&
                        forall j :: i < j < |items| ==> section.value.start <= items[j].line
  {
    var line := items[i].line;
    if w.section.None? || w.section.value.end < line {
      var r := GetSection(line, ctx.sections);
      if r.Some? {
        var k :| 0 <= k < |ctx.sections.value| && ctx.sections.value[k] == r.value && Encloses(r.value, line);
        assert r.value in ctx.sections.value;
      }
    }
  }

  lemma OrderedPush(w: Walk, items: seq<ListItem>, i: nat, ctx: FileContext, section: Section, index: nat, t: Task)
    requires i < |items| && OrderedInv(w, items, i, ctx) && items[i].isTask && items[i].line < |ctx.lines|
    requires ctx.sections.Some? && section in ctx.sections.value && Encloses(section, items[i].line)
    requires forall j :: i < j < |items| ==> section.start <= items[j].line
    requires t.originalMarkdown == ctx.lines[items[i].line] && t.sectionStart == section.start
    ensures OrderedInv(Walk(Some(section), index + 1, w.pushed + [t], false), items, i + 1, ctx)
  {
    assert SectionEncloses(t, items[i].line, ctx);
    assert DecodedInSection(t, items, ctx);
    var ps := w.pushed + [t];
    forall k | 0 <= k < |ps|
      ensures DecodedInSection(ps[k], items, ctx)
    {
      if k < |w.pushed| {
        assert ps[k] == w.pushed[k];
      }
    }
  }

  /** The whole loop keeps the ordered invariant. */
  lemma {:induction false} OrderedScan(items: seq<ListItem>, i: nat, w: Walk, ctx: FileContext)
    requires InLineOrder(items) && i <= |items| && OrderedInv(w, items, i, ctx)
    ensures OrderedInv(Scan(items, i, w, ctx), items, |items|, ctx)
    decreases |items| - i
  {
    if i < |items| {
      OrderedStep(w, items, i, ctx);
      OrderedScan(items, i + 1, Step(w, items[i], ctx), ctx);
    }
  }

  /** The loop over all list items of a file. */
  function Walked(items: seq<ListItem>, ctx: FileContext): (r: Walk)
    ensures Numbered(r.pushed)
    ensures forall k :: 0 <= k < |r.pushed| ==> FromFile(r.pushed[k], items, ctx)
  {
    ScanInv(items, 0, Start, ctx);
    Scan(items, 0, Start, ctx)
  }

  // ---------------------------------------------------------------- the cache

  /** What `notifySubscribers` sends: the tasks and the state at that moment. */
  datatype Notice = Notice(tasks: seq<Task>, state: State)

  /** The cache without its IndexedDB store: its state, its tasks, whether the vault was loaded on a `resolved` event, and the notices sent. */
  datatype TaskCache = TaskCache(state: State, tasks: seq<Task>, loadedAfterFirstResolve: bool, notices: seq<Notice>)

  /** The fields the constructor sets before it loads the vault. */
  const Initial := TaskCache(Cold, [], false, [])

  /** The filter `task.path !== path`. */
  function Without(ts: seq<Task>, path: string): (r: seq<Task>)
    ensures |r| <= |ts|
  {
    if ts == [] then []
    else (if ts[0].path != path then [ts[0]] else []) + Without(ts[1..], path)
  }

  /** The map that gives every task at `oldPath` the new path and leaves the others alone. */
  function Renamed(ts: seq<Task>, oldPath: string, newPath: string): (r: seq<Task>)
    ensures |r| == |ts|
    ensures forall i :: 0 <= i < |ts| ==> r[i] == if ts[i].path == oldPath then ts[i].(path := newPath) else ts[i]
  {
    seq(|ts|, i requires 0 <= i < |ts| => if ts[i].path == oldPath then ts[i].(path := newPath) else ts[i])
  }

  /** The context `indexFile` decodes a file in: its path, its sections and its content split at line feeds. */
  function ContextOf(file: FileView, metadata: Metadata, env: DecodeEnv): FileContext {
    FileContext(file.path, metadata.sections, Split(file.content, '\n'), env)
  }

  /** The list items `indexFile` walks: none when the metadata has no list items. */
  function ItemsOf(metadata: Metadata): seq<ListItem> {
    metadata.listItems.GetOr([])
  }

  /**
    `indexFile`: without metadata nothing happens. Otherwise the file's tasks are dropped, the
    decoded ones appended, and the subscribers notified, unless the loop threw, which leaves the
    tasks it pushed before throwing and sends no notice. The flag says whether it threw.
  */
  function IndexFile(c: TaskCache, file: FileView, env: DecodeEnv): (r: (TaskCache, bool))
    ensures file.metadata.None? ==> r == (c, false)
    ensures r.0.state == c.state && r.0.loadedAfterFirstResolve == c.loadedAfterFirstResolve
    ensures file.metadata.Some? ==> r.0.notices == if r.1 then c.notices else c.notices + [Notice(r.0.tasks, c.state)]
    ensures file.metadata.Some? ==>
      var ctx := ContextOf(file, file.metadata.value, env);
      var w := Walked(ItemsOf(file.metadata.value), ctx);
      && r.0.tasks == Without(c.tasks, file.path) + w.pushed
      && r.1 == w.threw
  {
    match file.metadata
    case None => (c, false)
    case Some(m) =>
      var w := Walked(ItemsOf(m), ContextOf(file, m, env));
      var tasks := Without(c.tasks, file.path) + w.pushed;
      (c.(tasks := tasks, notices := if w.threw then c.notices else c.notices + [Notice(tasks, c.state)]), w.threw)
  }

  /** Indexing a file leaves the other files' tasks as they were, in order. */
  lemma IndexFileKeepsOthers(c: TaskCache, file: FileView, env: DecodeEnv)
    ensures Without(IndexFile(c, file, env).0.tasks, file.path) == Without(c.tasks, file.path)
  {
    if file.metadata.Some? {
      var pushed := Walked(ItemsOf(file.metadata.value), ContextOf(file, file.metadata.value, env)).pushed;
      var kept := Without(c.tasks, file.path);
      assert IndexFile(c, file, env).0.tasks == kept + pushed;
      WithoutAppend(kept, pushed, file.path);
      WithoutIdempotent(c.tasks, file.path);
      WithoutAllAt(pushed, file.path);
      assert kept + [] == kept;
    }
  }

  /** Every task of the file after indexing it is a decoded task item of it. */
  lemma IndexFileTasksFromFile(c: TaskCache, file: FileView, env: DecodeEnv, t: Task)
    requires file.metadata.Some?
    requires t in IndexFile(c, file, env).0.tasks && t.path == file.path
    ensures FromFile(t, ItemsOf(file.metadata.value), ContextOf(file, file.metadata.value, env))
  {
    var pushed := Walked(ItemsOf(file.metadata.value), ContextOf(file, file.metadata.value, env)).pushed;
    var kept := Without(c.tasks, file.path);
    WithoutMembers(c.tasks, file.path);
    assert t !in kept;
    assert t in pushed;
  }

  /** For list items in line order, every task of the file after indexing lies in a list section that encloses its task item. */
  lemma IndexedTasksInSections(c: TaskCache, file: FileView, env: DecodeEnv, t: Task)
    requires file.metadata.Some? && InLineOrder(ItemsOf(file.metadata.value))
    requires t in IndexFile(c, file, env).0.tasks && t.path == file.path
    ensures DecodedInSection(t, ItemsOf(file.metadata.value), ContextOf(file, file.metadata.value, env))
  {
    var items := ItemsOf(file.metadata.value);
    var ctx := ContextOf(file, file.metadata.value, env);
    OrderedScan(items, 0, Start, ctx);
    WithoutMembers(c.tasks, file.path);
    assert t in Walked(items, ctx).pushed;
  }

  /** Indexing an unchanged file again gives the same tasks: the second run drops exactly what the first added. */
  lemma ReindexIsStable(c: TaskCache, file: FileView, env: DecodeEnv)
    ensures IndexFile(IndexFile(c, file, env).0, file, env).0.tasks == IndexFile(c, file, env).0.tasks
  {
    IndexFileKeepsOthers(c, file, env);
  }

  /** A file whose metadata has no list items loses all its tasks and notifies. */
  lemma NoListItemsNoTasks(c: TaskCache, file: FileView, env: DecodeEnv)
    requires file.metadata.Some? && file.metadata.value.listItems.None?
    ensures IndexFile(c, file, env).0.tasks == Without(c.tasks, file.path)
    ensures !IndexFile(c, file, env).1
  {
    assert ItemsOf(file.metadata.value) == [];
    assert Without(c.tasks, file.path) + [] == Without(c.tasks, file.path);
  }

  /** The filter keeps exactly the tasks at other paths. */
  lemma {:induction false} WithoutMembers(ts: seq<Task>, path: string)
    ensures forall t :: t in Without(ts, path) <==> t in ts && t.path != path
  {
    if ts != [] {
      WithoutMembers(ts[1..], path);
      assert ts == [ts[0]] + ts[1..];
    }
  }

  lemma {:induction false} WithoutAppend(a: seq<Task>, b: seq<Task>, path: string)
    ensures Without(a + b, path) == Without(a, path) + Without(b, path)
  {
    if a == [] {
      assert a + b == b;
    } else {
      var head := if a[0].path != path then [a[0]] else [];
      WithoutAppend(a[1..], b, path);
      assert (a + b)[0] == a[0] && (a + b)[1..] == a[1..] + b;
      assert Without(a + b, path) == head + Without(a[1..] + b, path);
      assert head + (Without(a[1..], path) + Without(b, path)) == (head + Without(a[1..], path)) + Without(b, path);
    }
  }

  lemma {:induction false} WithoutIdempotent(ts: seq<Task>, path: string)
    ensures Without(Without(ts, path), path) == Without(ts, path)
  {
    if ts != [] {
      WithoutIdempotent(ts[1..], path);
      WithoutAppend(if ts[0].path != path then [ts[0]] else [], Without(ts[1..], path), path);
    }
  }

  lemma {:induction false} WithoutAllAt(ts: seq<Task>, path: string)
    requires forall k :: 0 <= k < |ts| ==> ts[k].path == path
    ensures Without(ts, path) == []
  {
    if ts != [] {
      WithoutAllAt(ts[1..], path);
    }
  }

  /** A `delete` event for a file: its tasks are dropped, the others kept in order, and the subscribers notified; folders change nothing. */
  function Delete(c: TaskCache, path: string, isFile: bool): (r: TaskCache)
    ensures !isFile ==> r == c
    ensures isFile ==> forall t :: t in r.tasks <==> t in c.tasks && t.path != path
    ensures isFile ==> r.notices == c.notices + [Notice(r.tasks, c.state)]
    ensures r.state == c.state && r.loadedAfterFirstResolve == c.loadedAfterFirstResolve
  {
    if !isFile then c
    else
      WithoutMembers(c.tasks, path);
      var tasks := Without(c.tasks, path);
      c.(tasks := tasks, notices := c.notices + [Notice(tasks, c.state)])
  }

  /** Deleting a file after indexing it leaves the tasks deleting it straight away leaves. */
  lemma DeleteAfterIndex(c: TaskCache, file: FileView, env: DecodeEnv)
    ensures Delete(IndexFile(c, file, env).0, file.path, true).tasks == Delete(c, file.path, true).tasks
  {
    IndexFileKeepsOthers(c, file, env);
  }

  /**
    A `rename` event: every task of the old path moves to the new one in place, every other task
    is kept, and the subscribers are notified; folders change nothing.
  */
  function Rename(c: TaskCache, newPath: string, oldPath: string, isFile: bool): (r: TaskCache)
    ensures !isFile ==> r == c
    ensures isFile ==> r.tasks == Renamed(c.tasks, oldPath, newPath) && r.notices == c.notices + [Notice(r.tasks, c.state)]
    ensures r.state == c.state && r.loadedAfterFirstResolve == c.loadedAfterFirstResolve
  {
    if !isFile then c
    else
      var tasks := Renamed(c.tasks, oldPath, newPath);
      c.(tasks := tasks, notices := c.notices + [Notice(tasks, c.state)])
  }

  /** Renaming a file back restores the tasks, when no task had the new path before. */
  lemma RenameBack(ts: seq<Task>, oldPath: string, newPath: string)
    requires forall k :: 0 <= k < |ts| ==> ts[k].path != newPath
    ensures Renamed(Renamed(ts, oldPath, newPath), newPath, oldPath) == ts
  {
    var r := Renamed(Renamed(ts, oldPath, newPath), newPath, oldPath);
    forall k | 0 <= k < |ts|
      ensures r[k] == ts[k]
    {
    }
  }

  /** Renaming moves exactly the old path's tasks: afterwards none is left there, unless the path is kept. */
  lemma RenameEmptiesOldPath(ts: seq<Task>, oldPath: string, newPath: string)
    requires oldPath != newPath
    ensures Without(Renamed(ts, oldPath, newPath), oldPath) == Renamed(ts, oldPath, newPath)
    ensures |Without(Renamed(ts, oldPath, newPath), newPath)| == |Without(ts, newPath)| - |ts| + |Without(ts, oldPath)|
  {
    WithoutNoneAt(Renamed(ts, oldPath, newPath), oldPath);
    RenamedCount(ts, oldPath, newPath);
  }

  lemma {:induction false} WithoutNoneAt(ts: seq<Task>, path: string)
    requires forall k :: 0 <= k < |ts| ==> ts[k].path != path
    ensures Without(ts, path) == ts
  {
    if ts != [] {
      WithoutNoneAt(ts[1..], path);
      assert ts == [ts[0]] + ts[1..];
    }
  }

  lemma {:induction false} RenamedCount(ts: seq<Task>, oldPath: string, newPath: string)
    requires oldPath != newPath
    ensures |Without(Renamed(ts, oldPath, newPath), newPath)| == |Without(ts, newPath)| - |ts| + |Without(ts, oldPath)|
  {
    if ts != [] {
      RenamedCount(ts[1..], oldPath, newPath);
      assert Renamed(ts, oldPath, newPath)[1..] == Renamed(ts[1..], oldPath, newPath);
    }
  }

  // ---------------------------------------------------------------- loading

  /** Every file indexed in turn, the flag saying whether any of them threw. */
  function IndexAll(c: TaskCache, files: seq<FileView>, env: DecodeEnv): (r: (TaskCache, bool))
    ensures r.0.state == c.state && r.0.loadedAfterFirstResolve == c.loadedAfterFirstResolve
    ensures files == [] ==> r == (c, false)
    decreases |files|
  {
    if files == [] then (c, false)
    else
      var (d, threw) := IndexFile(c, files[0], env);
      var (e, later) := IndexAll(d, files[1..], env);
      (e, threw || later)
  }

  /**
    `loadVault`: the state becomes `Initializing`, every markdown file is indexed, and when all of
    them succeed the state becomes `Warm` and the subscribers are told; when one throws the
    awaited `Promise.all` rejects and the cache stays `Initializing`.
  */
  function LoadVault(c: TaskCache, files: seq<FileView>, env: DecodeEnv): (r: TaskCache)
    ensures r.state == (if IndexAll(c.(state := Initializing), files, env).1 then Initializing else Warm)
    ensures r.loadedAfterFirstResolve == c.loadedAfterFirstResolve
    ensures r.tasks == IndexAll(c.(state := Initializing), files, env).0.tasks
    ensures r.state == Warm ==> |r.notices| > 0 && r.notices[|r.notices| - 1] == Notice(r.tasks, Warm)
  {
    var (d, threw) := IndexAll(c.(state := Initializing), files, env);
    if threw then d else d.(state := Warm, notices := d.notices + [Notice(d.tasks, Warm)])
  }

  /** The constructor: the initial fields, then a load of the vault. */
  function New(files: seq<FileView>, env: DecodeEnv): (r: TaskCache)
    ensures r.state != Cold && !r.loadedAfterFirstResolve
  {
    LoadVault(Initial, files, env)
  }

  /** An empty vault loads at once: no tasks, `Warm`, one notice. */
  lemma EmptyVaultIsWarm(env: DecodeEnv)
    ensures New([], env) == TaskCache(Warm, [], false, [Notice([], Warm)])
  {
  }

  /** The events the cache subscribes to, with the files they carry. */
  datatype Event =
    | Resolved(markdownFiles: seq<FileView>)
    | Changed(file: FileView)
    | Created(file: FileView, isFile: bool)
    | Deleted(path: string, isFile: bool)
    | Moved(newPath: string, oldPath: string, isFile: bool)

  /**
    One event handler. `resolved` loads the vault the first time only; `changed` and `create`
    (of a file) index it; `delete` and `rename` drop or move its tasks.
  */
  function Apply(c: TaskCache, e: Event, env: DecodeEnv): (r: TaskCache)
    ensures r.loadedAfterFirstResolve == (c.loadedAfterFirstResolve || e.Resolved?)
    ensures !(e.Resolved? && !c.loadedAfterFirstResolve) ==> r.state == c.state
    ensures e.Resolved? && !c.loadedAfterFirstResolve ==> r.state in {Initializing, Warm}
  {
    match e
    case Resolved(files) => if c.loadedAfterFirstResolve then c else LoadVault(c.(loadedAfterFirstResolve := true), files, env)
    case Changed(file) => IndexFile(c, file, env).0
    case Created(file, isFile) => if isFile then IndexFile(c, file, env).0 else c
    case Deleted(path, isFile) => Delete(c, path, isFile)
    case Moved(newPath, oldPath, isFile) => Rename(c, newPath, oldPath, isFile)
  }

  /** The events in order. */
  function Run(c: TaskCache, es: seq<Event>, env: DecodeEnv): TaskCache
    decreases |es|
  {
    if es == [] then c else Run(Apply(c, es[0], env), es[1..], env)
  }

  /** The vault is loaded on the first `resolved` event only: a later one changes nothing. */
  lemma ResolvedOnce(c: TaskCache, files: seq<FileView>, later: seq<FileView>, env: DecodeEnv)
    ensures Apply(Apply(c, Resolved(files), env), Resolved(later), env) == Apply(c, Resolved(files), env)
  {
  }

  /** A cache that has been constructed never goes back to `Cold`, whatever events follow. */
  lemma {:induction false} NeverCold(c: TaskCache, es: seq<Event>, env: DecodeEnv)
    requires c.state != Cold
    ensures Run(c, es, env).state != Cold
    decreases |es|
  {
    if es != [] {
      NeverCold(Apply(c, es[0], env), es[1..], env);
    }
  }

  /** Once the vault has been loaded on a `resolved` event and the cache is `Warm`, it stays `Warm`. */
  lemma {:induction false} WarmStays(c: TaskCache, es: seq<Event>, env: DecodeEnv)
    requires c.state == Warm && c.loadedAfterFirstResolve
    ensures Run(c, es, env).state == Warm
    decreases |es|
  {
    if es != [] {
      WarmStays(Apply(c, es[0], env), es[1..], env);
    }
  }
}

/**
  The editor commands of src/Commands/ToggleStatus.ts and src/Commands/CreateOrEdit.ts, on one
  line of text. The editor, the modal and the clock are outside the model: the current line and
  cursor column are arguments, the new line and column are results, and today's date is a parameter.
*/
module Commands {
  import opened Wrappers
  import opened Text
  import opened Dates
  import opened Statuses
  import opened Tasks
  import opened TaskLine
  import Toggle

  /** The configuration the commands read: how lines are decoded and encoded, and how tasks toggle. */
  datatype EditorEnv = EditorEnv(decode: DecodeEnv, encode: EncodeEnv, toggle: Toggle.ToggleEnv)

  /** The file lines of some tasks, in order. */
  function FileLines(tasks: seq<Task>, env: EncodeEnv): (r: seq<string>)
    ensures |r| == |tasks|
    ensures forall i :: 0 <= i < |tasks| ==> r[i] == ToFileLine(tasks[i], env)
  {
    seq(|tasks|, i requires 0 <= i < |tasks| => ToFileLine(tasks[i], env))
  }

  /** `onSubmit`: the edited line becomes the tasks' file lines joined with newlines. */
  function OnSubmit(tasks: seq<Task>, env: EncodeEnv): (r: string)
  {
    Join(FileLines(tasks, env), "\n")
  }

  /** Splitting the submitted text at newlines gives back each task's line, when none holds a newline. */
  lemma OnSubmitSplits(tasks: seq<Task>, env: EncodeEnv)
    requires tasks != []
    requires forall i :: 0 <= i < |tasks| ==> '\n' !in ToFileLine(tasks[i], env)
    ensures Split(OnSubmit(tasks, env), '\n') == FileLines(tasks, env)
  {
    SplitJoin(FileLines(tasks, env), '\n');
  }

  // ---------------------------------------------------------------- toggleStatus

  /** The regex `^([\s\t]*)([-*])`: where the bullet of a list item is, if the line is one. */
  function ListBullet(line: string): (r: Option<nat>)
    ensures r.Some? <==> |LeadingSpace(line)| < |line| && line[|LeadingSpace(line)|] in "-*"
    ensures r.Some? ==> r.value == |LeadingSpace(line)|
  {
    var k := |LeadingSpace(line)|;
    if k < |line| && line[k] in "-*" then Some(k) else None
  }

  /** `toggleTask`: toggle to the indicator's status and write each resulting task as a file line. */
  function ToggleTask(task: Task, indicator: string, env: EditorEnv): string
  {
    OnSubmit(Toggle.Toggle(task, Some(env.toggle.registry.byIndicator(indicator)), env.toggle), env.encode)
  }

  /**
    `toggleLine`: a line that decodes to a task is toggled and written back; any other line is
    rewritten by `ToggleNonTask`.
  */
  function ToggleLine(line: string, path: string, indicator: string, env: EditorEnv): (r: string)
    ensures FromLine(line, path, 0, 0, None, env.decode).Some? ==>
      r == ToggleTask(FromLine(line, path, 0, 0, None, env.decode).value, indicator, env)
    ensures FromLine(line, path, 0, 0, None, env.decode).None? ==> r == ToggleNonTask(line, indicator)
  {
    match FromLine(line, path, 0, 0, None, env.decode)
    case Some(task) => ToggleTask(task, indicator, env)
    case None => ToggleNonTask(line, indicator)
  }

  /**
    `toggleLine` on a line that is not a task: a checklist item gets the indicator with its
    bullet normalised to `-`; a list item gets ` [indicator]` after its bullet; any other line gets
    `- ` after its leading whitespace. The leading whitespace is always kept.
  */
  function ToggleNonTask(line: string, indicator: string): (r: string)
    ensures StartsWith(r, LeadingSpace(line))
    ensures MatchTaskLine(line).Some? ==>
      var p := MatchTaskLine(line).value;
      r == p.indentation + "- [" + indicator + "] " + p.body
    ensures MatchTaskLine(line).None? ==>
      var k := |LeadingSpace(line)|;
      && (ListBullet(line).Some? ==> r == line[..k + 1] + " [" + indicator + "]" + line[k + 1..])
      && (ListBullet(line).None? ==> r == line[..k] + "- " + line[k..])
  {
    var k := |LeadingSpace(line)|;
    match MatchTaskLine(line)
    case Some(p) => p.indentation + "- [" + indicator + "] " + p.body
    case None =>
      match ListBullet(line)
      case Some(_) => line[..k + 1] + " [" + indicator + "]" + line[k + 1..]
      case None => line[..k] + "- " + line[k..]
  }

  /** A line that is neither a checklist item nor a list item becomes a list item with the same indentation. */
  lemma TextBecomesListItem(line: string, indicator: string)
    requires MatchTaskLine(line).None? && ListBullet(line).None?
    ensures var r := ToggleNonTask(line, indicator);
      ListBullet(r).Some? && LeadingSpace(r) == LeadingSpace(line)
  {
    var w := LeadingSpace(line);
    var r := ToggleNonTask(line, indicator);
    assert r == w + ("- " + line[|w|..]);
    LeadingSpaceOf(w, "- " + line[|w|..]);
  }

  /** A list item becomes a checklist item carrying the indicator, with the same indentation. */
  lemma ListItemBecomesChecklist(line: string, indicator: string)
    requires MatchTaskLine(line).None? && ListBullet(line).Some?
    requires |indicator| == 1 && !IsLineTerminator(indicator[0])
    ensures var r := ToggleNonTask(line, indicator);
      && MatchTaskLine(r).Some?
      && MatchTaskLine(r).value.indentation == LeadingSpace(line)
      && MatchTaskLine(r).value.statusChar == indicator[0]
  {
    var w := LeadingSpace(line);
    ListItemSplit(line, w);
    BulletedItem(w, line[|w|], indicator, line[|w| + 1..]);
  }

  lemma ListItemSplit(line: string, w: string)
    requires |w| < |line| && line[..|w|] == w
    ensures line[..|w| + 1] == w + [line[|w|]]
  {
  }

  /** `w b [c]rest` with a bullet `b` is matched with indentation `w` and status character `c`. */
  lemma BulletedItem(w: string, b: char, indicator: string, rest: string)
    requires AllSpace(w) && b in "-*" && |indicator| == 1 && !IsLineTerminator(indicator[0])
    ensures var r := w + [b] + " [" + indicator + "]" + rest;
      && MatchTaskLine(r).Some?
      && MatchTaskLine(r).value.indentation == w
      && MatchTaskLine(r).value.statusChar == indicator[0]
  {
    var tail := [b] + " [" + indicator + "]" + rest;
    var r := w + [b] + " [" + indicator + "]" + rest;
    assert r == w + tail;
    var k := |w|;
    LeadingSpaceOf(w, tail);
    assert r[k] == b && r[k + 1] == ' ' && r[k + 2] == '[' && r[k + 3] == indicator[0] && r[k + 4] == ']';
    assert SpaceRun(r, k + 2) == 0;
    assert SpaceRun(r, k + 1) == 1;
  }

  /**
    A checklist item that is not a task is rewritten as `indentation- [indicator] body`: matched
    again it has the same indentation and body and the new status character.
  */
  lemma ChecklistKeepsBody(line: string, indicator: string)
    requires MatchTaskLine(line).Some?
    requires |indicator| == 1 && !IsLineTerminator(indicator[0])
    ensures var p := MatchTaskLine(line).value;
      MatchTaskLine(ToggleNonTask(line, indicator)) == Some(LineParts(p.indentation, indicator[0], p.body))
  {
    var p := MatchTaskLine(line).value;
    MatchedBodyStart(line);
    assert indicator == [indicator[0]];
    MatchTaskLineOfItem(p.indentation, indicator[0], p.body);
  }

  /** The body `taskRegex` captures does not start with a space: ` *` took them all. */
  lemma MatchedBodyStart(line: string)
    requires MatchTaskLine(line).Some?
    ensures var body := MatchTaskLine(line).value.body; body == [] || body[0] != ' '
  {
    var k := |LeadingSpace(line)|;
    var n := SpaceRun(line, k + 1);
    var b := k + 1 + n;
    var m := SpaceRun(line, b + 3);
    var body := LineContent(line[b + 3 + m..]);
    if body != [] {
      assert body[0] == line[b + 3 + m];
    }
  }

  /**
    `toggleStatus`'s cursor rule: when the new line holds a character other than ` []*-`, the
    column moves by the change in line length; otherwise the editor's default (the end of the
    line, `None` here) stands. Columns and lengths are UTF-16 code units, as CodeMirror and
    JavaScript's `.length` count them.
  */
  function CursorColumn(oldLine: string, newLine: string, ch: int): (r: Option<int>)
    ensures r.Some? <==> exists i :: 0 <= i < |newLine| && newLine[i] !in " []*-"
    ensures r.Some? ==> r.value - ch == Utf16Length(newLine) - Utf16Length(oldLine)
  {
    if exists i :: 0 <= i < |newLine| && newLine[i] !in " []*-" then
      Some(ch + Utf16Length(newLine) - Utf16Length(oldLine))
    else
      None
  }

  /**
    The cursor on `line[ch]` lands on the same character `r[j]` of the new line: the cursor
    rule turns the UTF-16 column before `line[ch]` into the UTF-16 column before `r[j]`.
  */
  predicate CursorLandsOn(line: string, r: string, ch: nat, j: int) {
    && ch < |line|
    && 0 <= j < |r|
    && r[j] == line[ch]
    && CursorColumn(line, r, Utf16Length(line[..ch])) == Some(Utf16Length(r[..j]))
  }

  /**
    For a plain line or a list item, a cursor on a text character after the bullet stays on that
    character: the toggle only inserts text before it, and the column moves by what was inserted.
  */
  lemma CursorFollowsText(line: string, indicator: string, ch: nat)
    requires MatchTaskLine(line).None?
    requires ListBullet(line).Some? ==> |LeadingSpace(line)| < ch < |line|
    requires ListBullet(line).None? ==> |LeadingSpace(line)| <= ch < |line|
    requires line[ch] !in " []*-"
    ensures var r := ToggleNonTask(line, indicator);
      CursorLandsOn(line, r, ch, ch + |r| - |line|)
  {
    if ListBullet(line).Some? {
      CursorFollowsBullet(line, indicator, ch);
    } else {
      CursorFollowsPlain(line, indicator, ch);
    }
  }

  /** The cursor rule on a list item, where ` [indicator]` goes in after the bullet. */
  lemma CursorFollowsBullet(line: string, indicator: string, ch: nat)
    requires MatchTaskLine(line).None? && ListBullet(line).Some?
    requires |LeadingSpace(line)| < ch < |line| && line[ch] !in " []*-"
    ensures var r := ToggleNonTask(line, indicator);
      CursorLandsOn(line, r, ch, ch + |r| - |line|)
  {
    var k := |LeadingSpace(line)|;
    BulletToggleShape(line, indicator);
    CursorAfterInsert(line, ToggleNonTask(line, indicator), k + 1, " [" + indicator + "]", ch);
  }

  /** The cursor rule on plain text, where `- ` goes in after the indentation. */
  lemma CursorFollowsPlain(line: string, indicator: string, ch: nat)
    requires MatchTaskLine(line).None? && ListBullet(line).None?
    requires |LeadingSpace(line)| <= ch < |line| && line[ch] !in " []*-"
    ensures var r := ToggleNonTask(line, indicator);
      CursorLandsOn(line, r, ch, ch + |r| - |line|)
  {
    var k := |LeadingSpace(line)|;
    CursorAfterInsert(line, ToggleNonTask(line, indicator), k, "- ", ch);
  }

  /** A list item's toggle inserts ` [indicator]` right after the bullet. */
  lemma BulletToggleShape(line: string, indicator: string)
    requires MatchTaskLine(line).None? && ListBullet(line).Some?
    ensures var k := |LeadingSpace(line)|;
      && k < |line|
      && ToggleNonTask(line, indicator) == line[..k + 1] + (" [" + indicator + "]") + line[k + 1..]
  {
    var k := |LeadingSpace(line)|;
    Regroup(line[..k + 1], " [", indicator, "]", line[k + 1..]);
  }

  /** Concatenation regrouped around an inserted middle. */
  lemma Regroup<T>(a: seq<T>, b: seq<T>, c: seq<T>, d: seq<T>, e: seq<T>)
    ensures a + b + c + d + e == a + (b + c + d) + e
  {
  }

  /** A sequence is its prefix followed by the rest. */
  lemma SplitAt<T>(s: seq<T>, i: nat)
    requires i <= |s|
    ensures s == s[..i] + s[i..]
  {
  }

  /** The cursor rule after text is inserted at `i`, before the cursor's character. */
  lemma CursorAfterInsert(line: string, r: string, i: nat, ins: string, ch: nat)
    requires i <= ch < |line| && r == line[..i] + ins + line[i..] && line[ch] !in " []*-"
    ensures CursorLandsOn(line, r, ch, ch + |r| - |line|)
  {
    SplitAt(line, i);
    InsertKeeps(line[..i], ins, line[i..], ch - i);
    InsertUtf16(line[..i], ins, line[i..], ch - i);
    assert r[ch + |ins|] !in " []*-";
  }

  /** Inserting text moves every later character right by the inserted length. */
  lemma InsertKeeps(x: string, ins: string, y: string, j: nat)
    requires j < |y|
    ensures |x + ins + y| - |x + y| == |ins|
    ensures (x + ins + y)[|x| + |ins| + j] == y[j] == (x + y)[|x| + j]
  {
  }

  /**
    After an insertion, the UTF-16 length of the text before a later character grows by the
    growth of the whole line.
  */
  lemma InsertUtf16(x: string, ins: string, y: string, j: nat)
    requires j <= |y|
    ensures Utf16Length((x + y)[..|x| + j]) + Utf16Length(x + ins + y) - Utf16Length(x + y)
      == Utf16Length((x + ins + y)[..|x| + |ins| + j])
  {
    assert (x + y)[..|x| + j] == x + y[..j];
    assert (x + ins + y)[..|x| + |ins| + j] == x + ins + y[..j];
    Utf16Append(x, y);
    Utf16Append(x + ins, y);
    Utf16Append(x, ins);
    Utf16Append(x, y[..j]);
    Utf16Append(x + ins, y[..j]);
  }

  // ---------------------------------------------------------------- createOrEdit

  /** What `nonTaskRegex` (`^([\s\t]*)[-*]? *(\[(.)\])? *(.*)`) captures. */
  datatype NonTaskParts = NonTaskParts(indentation: string, statusChar: Option<char>, description: string)

  /**
    `nonTaskRegex` always matches: every part is optional, and each is taken greedily because the
    final `(.*)` accepts whatever follows.
  */
  function MatchNonTask(line: string): (r: NonTaskParts)
    ensures r.indentation == LeadingSpace(line)
    ensures r.statusChar.Some? ==> !IsLineTerminator(r.statusChar.value)
    ensures forall i :: 0 <= i < |r.description| ==> !IsLineTerminator(r.description[i])
  {
    var k := |LeadingSpace(line)|;
    var k1 := if k < |line| && line[k] in "-*" then k + 1 else k;
    var b := k1 + SpaceRun(line, k1);
    var bracket := b + 3 <= |line| && line[b] == '[' && !IsLineTerminator(line[b + 1]) && line[b + 2] == ']';
    var e := if bracket then b + 3 else b;
    var d := e + SpaceRun(line, e);
    var description := LineContent(line[d..]);
    NonTaskParts(LeadingSpace(line), if bracket then Some(line[b + 1]) else None, description)
  }

  /** A checklist item `indentation- [c] description` is read back into its three parts. */
  lemma MatchNonTaskOfItem(indentation: string, c: char, description: string)
    requires AllSpace(indentation) && !IsLineTerminator(c)
    requires forall i :: 0 <= i < |description| ==> !IsLineTerminator(description[i])
    requires description == [] || description[0] != ' '
    ensures MatchNonTask(indentation + "- [" + [c] + "] " + description) == NonTaskParts(indentation, Some(c), description)
  {
    var item := "- [" + [c] + "] " + description;
    var line := indentation + item;
    assert line == indentation + "- [" + [c] + "] " + description;
    LeadingSpaceOf(indentation, item);
    var k := |indentation|;
    assert line[k] == '-' && line[k + 1] == ' ' && line[k + 2] == '[';
    assert line[k + 3] == c && line[k + 4] == ']' && line[k + 5] == ' ';
    assert line[k + 6..] == description;
    MatchNonTaskAt(line, k, description);
  }

  lemma MatchNonTaskAt(line: string, k: nat, description: string)
    requires k + 6 <= |line| && |LeadingSpace(line)| == k
    requires line[k] == '-' && line[k + 1] == ' ' && line[k + 2] == '[' && !IsLineTerminator(line[k + 3])
    requires line[k + 4] == ']' && line[k + 5] == ' '
    requires line[k + 6..] == description && (description == [] || description[0] != ' ')
    requires forall i :: 0 <= i < |description| ==> !IsLineTerminator(description[i])
    ensures MatchNonTask(line) == NonTaskParts(LeadingSpace(line), Some(line[k + 3]), description)
  {
    SpaceRunOne(line, k + 1);
    assert k + 6 < |line| ==> line[k + 6] == description[0];
    SpaceRunOne(line, k + 5);
    MatchNonTaskUnfold(line, k);
    assert LineContent(line[k + 6..]) == description by { LineContentWhole(description); }
  }

  /** `MatchNonTask` on a line whose bullet, bracket and single spaces are already located. */
  lemma MatchNonTaskUnfold(line: string, k: nat)
    requires k + 6 <= |line| && |LeadingSpace(line)| == k && line[k] == '-'
    requires SpaceRun(line, k + 1) == 1 && line[k + 2] == '[' && !IsLineTerminator(line[k + 3]) && line[k + 4] == ']'
    requires SpaceRun(line, k + 5) == 1
    ensures MatchNonTask(line) == NonTaskParts(LeadingSpace(line), Some(line[k + 3]), LineContent(line[k + 6..]))
  {
  }

  /** A single space before a non-space or the end is a run of one. */
  lemma SpaceRunOne(s: string, j: nat)
    requires j < |s| && s[j] == ' ' && (j + 1 == |s| || s[j + 1] != ' ')
    ensures SpaceRun(s, j) == 1
  {
    assert SpaceRun(s, j + 1) == 0;
  }

  /** The block link the fallback reads from the whole line: the ` ^id` at its end, or empty. */
  function LineBlockLink(line: string): (r: string)
    ensures r == "" || (EndsWith(line, r) && |r| >= 3 && r[..2] == " ^")
  {
    match MatchBlockLink(line)
    case None => ""
    case Some(i) => line[i..]
  }

  /** `description.replace(blockLinkRegex, '')`: the description without the ` ^id` at its end. */
  function WithoutBlockLink(description: string): (r: string)
    ensures MatchBlockLink(description).None? ==> r == description
    ensures StartsWith(description, r)
    ensures MatchBlockLink(description).Some? ==> |r| + 3 <= |description| && description[|r|..|r| + 2] == " ^"
  {
    match MatchBlockLink(description)
    case None => description
    case Some(i) => description[..i]
  }

  /** The fallback task, as written: the block link is looked for in the line but removed from the description. */
  function FallbackAsWritten(line: string, path: string, registry: Registry, today: Date): (t: Task)
    ensures t.priority == NoPriority && t.tags == [] && t.originalMarkdown == ""
    ensures t.startDate.None? && t.scheduledDate.None? && t.dueDate.None? && t.doneDate.None? && t.recurrence.None?
    ensures t.sectionStart == 0 && t.sectionIndex == 0 && t.precedingHeader.None? && t.path == path
    ensures t.createdDate == Some(today)
    ensures t.status == registry.byIndicator(if MatchNonTask(line).statusChar.Some? then [MatchNonTask(line).statusChar.value] else " ")
  {
    var parts := MatchNonTask(line);
    var statusString := if parts.statusChar.Some? then [parts.statusChar.value] else " ";
    var blockLink := LineBlockLink(line);
    var description := if blockLink != "" then WithoutBlockLink(parts.description) else parts.description;
    Task(registry.byIndicator(statusString), description, path, parts.indentation, 0, 0, None, [], NoPriority,
         None, None, None, None, Some(today), None, blockLink, "")
  }

  /**
    On `- [ ] ^abc` the line ends in the block link ` ^abc` but the captured description is
    `^abc` (the spaces before it went to ` *`), so the fallback keeps the link in the description
    and also records it as the block link: written back, the line would carry it twice.
  */
  lemma FallbackAsWrittenDuplicatesLink(id: string, registry: Registry, today: Date)
    requires id != [] && forall i :: 0 <= i < |id| ==> IsIdChar(id[i])
    ensures var t := FallbackAsWritten("- [ ] ^" + id, "", registry, today);
      t.description == "^" + id && t.blockLink == " ^" + id
  {
    LinkOnlyDescription(id);
    LinkOnlyBlockLink(id);
    BareBlockLink(id);
    FallbackAsWrittenOf("- [ ] ^" + id, "^" + id, " ^" + id, registry, today);
  }

  lemma LinkOnlyDescription(id: string)
    requires forall i :: 0 <= i < |id| ==> IsIdChar(id[i])
    ensures MatchNonTask("- [ ] ^" + id).description == "^" + id
  {
    var line := "- [ ] ^" + id;
    var description := "^" + id;
    assert line == "" + "- [" + [' '] + "] " + description;
    forall i | 0 <= i < |description|
      ensures !IsLineTerminator(description[i])
    {
      if i > 0 {
        assert description[i] == id[i - 1];
      }
    }
    MatchNonTaskOfItem("", ' ', description);
  }

  lemma LinkOnlyBlockLink(id: string)
    requires id != [] && forall i :: 0 <= i < |id| ==> IsIdChar(id[i])
    ensures LineBlockLink("- [ ] ^" + id) == " ^" + id
  {
    var line := "- [ ] ^" + id;
    assert line == "- [ ]" + " ^" + id;
    BlockLinkAtEnd("- [ ]", id);
    assert line[5..] == " ^" + id;
  }

  lemma FallbackAsWrittenOf(line: string, description: string, blockLink: string, registry: Registry, today: Date)
    requires MatchNonTask(line).description == description
    requires LineBlockLink(line) == blockLink && blockLink != ""
    requires WithoutBlockLink(description) == description
    ensures FallbackAsWritten(line, "", registry, today).description == description
    ensures FallbackAsWritten(line, "", registry, today).blockLink == blockLink
  {
  }

  /** A line ending in ` ^id` has that block link. */
  lemma BlockLinkAtEnd(x: string, id: string)
    requires id != [] && forall i :: 0 <= i < |id| ==> IsIdChar(id[i])
    ensures MatchBlockLink(x + " ^" + id) == Some(|x|)
  {
    var s := x + " ^" + id;
    assert s[|x| + 1] == '^';
    RunStartAt(s, IsIdChar, |x| + 2);
  }

  /** `^id` without the space in front is no block link. */
  lemma BareBlockLink(id: string)
    requires forall i :: 0 <= i < |id| ==> IsIdChar(id[i])
    ensures MatchBlockLink("^" + id).None?
  {
    RunStartAt("^" + id, IsIdChar, 1);
  }

  /** `RunStart` of a text whose run of `p` characters begins at `k`. */
  lemma RunStartAt(s: string, p: char -> bool, k: nat)
    requires k <= |s| && (k == 0 || !p(s[k - 1]))
    requires forall i :: k <= i < |s| ==> p(s[i])
    ensures RunStart(s, p) == k
  {

  }

  /**
    The fallback with the block link read from the captured description, so that it is kept in
    one place only: the description and the block link together are the captured text.
  */
  function Fallback(line: string, path: string, registry: Registry, today: Date): (t: Task)
    ensures t.priority == NoPriority && t.tags == [] && t.originalMarkdown == ""
    ensures t.startDate.None? && t.scheduledDate.None? && t.dueDate.None? && t.doneDate.None? && t.recurrence.None?
    ensures t.sectionStart == 0 && t.sectionIndex == 0 && t.precedingHeader.None? && t.path == path
    ensures t.createdDate == Some(today)
    ensures t.status == registry.byIndicator(if MatchNonTask(line).statusChar.Some? then [MatchNonTask(line).statusChar.value] else " ")
    ensures t.indentation == LeadingSpace(line)
    ensures t.description + t.blockLink == MatchNonTask(line).description
    ensures t.blockLink == "" || (|t.blockLink| >= 3 && t.blockLink[..2] == " ^")
  {
    var parts := MatchNonTask(line);
    var statusString := if parts.statusChar.Some? then [parts.statusChar.value] else " ";
    var blockLink := LineBlockLink(parts.description);
    var description := if blockLink != "" then WithoutBlockLink(parts.description) else parts.description;
    LinkSplit(parts.description);
    Task(registry.byIndicator(statusString), description, path, parts.indentation, 0, 0, None, [], NoPriority,
         None, None, None, None, Some(today), None, blockLink, "")
  }

  /** A text is its part before the block link followed by the block link. */
  lemma LinkSplit(d: string)
    ensures (if LineBlockLink(d) != "" then WithoutBlockLink(d) else d) + LineBlockLink(d) == d
  {
    match MatchBlockLink(d)
    case None =>
      assert d + "" == d;
    case Some(i) =>
      assert d[..i] + d[i..] == d;
      assert d + [] == d;
  }

  /**
    A checklist item with a block link, `indentation- [c] description ^id`, falls back to a task
    with that indentation, the status of `c`, that description and that block link.
  */
  lemma FallbackOfItem(indentation: string, c: char, description: string, id: string, path: string,
                       registry: Registry, today: Date)
    requires AllSpace(indentation) && !IsLineTerminator(c)
    requires forall i :: 0 <= i < |description| ==> !IsLineTerminator(description[i])
    requires description != [] && description[0] != ' '
    requires id != [] && forall i :: 0 <= i < |id| ==> IsIdChar(id[i])
    ensures var t := Fallback(indentation + "- [" + [c] + "] " + (description + " ^" + id), path, registry, today);
      && t.indentation == indentation && t.status == registry.byIndicator([c])
      && t.description == description && t.blockLink == " ^" + id
  {
    var link := " ^" + id;
    var captured := description + " ^" + id;
    var line := indentation + "- [" + [c] + "] " + captured;
    assert captured == description + link;
    ItemParts(indentation, c, description, id);
    FallbackOf(line, indentation, c, description, link, path, registry, today);
  }

  lemma ItemParts(indentation: string, c: char, description: string, id: string)
    requires AllSpace(indentation) && !IsLineTerminator(c)
    requires forall i :: 0 <= i < |description| ==> !IsLineTerminator(description[i])
    requires description != [] && description[0] != ' '
    requires id != [] && forall i :: 0 <= i < |id| ==> IsIdChar(id[i])
    ensures var captured := description + " ^" + id;
      && MatchNonTask(indentation + "- [" + [c] + "] " + captured) == NonTaskParts(indentation, Some(c), captured)
      && MatchBlockLink(captured) == Some(|description|)
  {
    var captured := description + " ^" + id;
    LinkedLine(description, id);
    assert captured[0] == description[0];
    MatchNonTaskOfItem(indentation, c, captured);
    BlockLinkAtEnd(description, id);
  }

  lemma LinkedLine(description: string, id: string)
    requires forall i :: 0 <= i < |description| ==> !IsLineTerminator(description[i])
    requires forall i :: 0 <= i < |id| ==> IsIdChar(id[i])
    ensures var captured := description + " ^" + id;
      forall i :: 0 <= i < |captured| ==> !IsLineTerminator(captured[i])
  {
    var captured := description + " ^" + id;
    forall i | 0 <= i < |captured|
      ensures !IsLineTerminator(captured[i])
    {
      if i >= |description| + 2 {
        assert captured[i] == id[i - |description| - 2];
      }
    }
  }

  lemma FallbackOf(line: string, indentation: string, c: char, description: string, blockLink: string, path: string,
                   registry: Registry, today: Date)
    requires MatchNonTask(line) == NonTaskParts(indentation, Some(c), description + blockLink)
    requires MatchBlockLink(description + blockLink) == Some(|description|)
    ensures var t := Fallback(line, path, registry, today);
      && t.indentation == indentation && t.status == registry.byIndicator([c])
      && t.description == description && t.blockLink == blockLink
  {
    assert (description + blockLink)[..|description|] == description;
  }

  /** `taskFromLine`: the decoded task when the line is one, else the fallback, so never null. */
  function TaskFromLine(line: string, path: string, env: EditorEnv, today: Date): (t: Task)
    ensures FromLine(line, path, 0, 0, None, env.decode).Some? ==> t == FromLine(line, path, 0, 0, None, env.decode).value
    ensures FromLine(line, path, 0, 0, None, env.decode).None? ==> t == Fallback(line, path, env.decode.registry, today)
  {
    match FromLine(line, path, 0, 0, None, env.decode)
    case Some(task) => task
    case None => Fallback(line, path, env.decode.registry, today)
  }
}

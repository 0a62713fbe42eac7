/**
  The Task entity of src/Task.ts: an immutable record decoded from one checklist line, with its
  priority ordering and the small derived strings (`filename`, `backlinkHref`).
*/
module Tasks {
  import opened Wrappers
  import opened Text
  import opened Dates
  import opened Statuses

  /**
    The priority enum. Its string codes order High < Medium < no priority < Low, so "no priority"
    sorts between Medium and Low.
  */
  datatype Priority = High | Medium | NoPriority | Low {
    /** The enum's string value, `'1'` to `'4'`, as a number. */
    function Code(): (c: int)
      ensures 1 <= c <= 4
    {
      match this
      case High => 1
      case Medium => 2
      case NoPriority => 3
      case Low => 4
    }
  }

  /** Distinct priorities have distinct codes, so comparing codes is a strict order on priorities. */
  lemma CodeInjective(p: Priority, q: Priority)
    ensures p.Code() == q.Code() <==> p == q
  {
  }

  /**
    A recurrence reference: the rule text as written and the anchor dates it was read with.
    Recurrence.ts is not part of this model; the service that reads and advances rules is a parameter.
  */
  datatype Recurrence = Recurrence(ruleText: string, startDate: Option<Date>, scheduledDate: Option<Date>, dueDate: Option<Date>)

  /** The dates `Recurrence.next()` returns for the next occurrence. */
  datatype Occurrence = Occurrence(startDate: Option<Date>, scheduledDate: Option<Date>, dueDate: Option<Date>)

  /**
    The recurrence collaborator: `fromText` reads a rule (null when it cannot), `toText` prints it,
    `next` computes the next occurrence's dates (null when there is none).
  */
  datatype RecurrenceService = RecurrenceService(
    fromText: (string, Option<Date>, Option<Date>, Option<Date>) -> Option<Recurrence>,
    toText: Recurrence -> string,
    next: Recurrence -> Option<Occurrence>)

  /**
    One task. `createdDate` is the value of the task's created-date property; `precedingHeader`
    is `None` for null. The host file handle and the cached urgency are not modelled.
  */
  datatype Task = Task(
    status: Status,
    description: string,
    path: string,
    indentation: string,
    sectionStart: int,
    sectionIndex: int,
    precedingHeader: Option<string>,
    tags: seq<string>,
    priority: Priority,
    startDate: Option<Date>,
    scheduledDate: Option<Date>,
    dueDate: Option<Date>,
    doneDate: Option<Date>,
    createdDate: Option<Date>,
    recurrence: Option<Recurrence>,
    blockLink: string,
    originalMarkdown: string)

  /** Layout flags a query sets (LayoutOptions.ts is not part of this model; every flag starts false). */
  datatype LayoutOptions = LayoutOptions(
    hideTaskCount: bool,
    hideBacklinks: bool,
    hidePriority: bool,
    hideStartDate: bool,
    hideScheduledDate: bool,
    hideDueDate: bool,
    hideDoneDate: bool,
    hideRecurrenceRule: bool,
    hideEditButton: bool,
    shortMode: bool)

  const DefaultLayout := LayoutOptions(false, false, false, false, false, false, false, false, false, false)

  /**
    The constructor's arguments where JavaScript may pass `undefined` (`None` here); every other
    field is taken as given.
  */
  datatype TaskArgs = TaskArgs(
    status: Option<Status>,
    description: Option<string>,
    path: Option<string>,
    indentation: Option<string>,
    precedingHeader: Option<Option<string>>,
    rest: Task)

  /**
    The constructor's defaults: a missing status is `Todo`, a missing description, path or
    indentation is empty, and a missing preceding header becomes the empty header (not null).
  */
  function Construct(args: TaskArgs): (t: Task)
    ensures args.status.None? ==> t.status == Todo
    ensures args.status.Some? ==> t.status == args.status.value
    ensures args.description.None? ==> t.description == ""
    ensures args.path.None? ==> t.path == ""
    ensures args.indentation.None? ==> t.indentation == ""
    ensures args.precedingHeader.None? ==> t.precedingHeader == Some("")
    ensures args.precedingHeader.Some? ==> t.precedingHeader == args.precedingHeader.value
    ensures t.(status := args.rest.status, description := args.rest.description, path := args.rest.path,
               indentation := args.rest.indentation, precedingHeader := args.rest.precedingHeader) == args.rest
  {
    args.rest.(
      status := args.status.GetOr(Todo),
      description := args.description.GetOr(""),
      path := args.path.GetOr(""),
      indentation := args.indentation.GetOr(""),
      precedingHeader := args.precedingHeader.GetOr(Some("")))
  }

  /** The index just after the last `/` in `s`, or 0 when there is none. */
  function AfterLastSlash(s: string): (i: nat)
    ensures i <= |s|
    ensures '/' !in s[i..]
    ensures i > 0 ==> s[i - 1] == '/'
  {
    if s == [] then 0
    else if s[|s| - 1] == '/' then |s|
    else AfterLastSlash(s[..|s| - 1])
  }

  /**
    `filename`: the capture of `([^/]+)\.md$`, the base name of a `.md` path without its
    extension; null when the path does not end in `.md` or the base name is empty.
  */
  function Filename(path: string): (r: Option<string>)
    ensures r.Some? ==> EndsWith(path, r.value + ".md") && r.value != [] && '/' !in r.value
    ensures r.Some? ==> var k := |path| - |r.value| - 3; k == 0 || path[k - 1] == '/'
    ensures r.None? <==> !EndsWith(path, ".md") || |path| == 3 || path[|path| - 4] == '/'
  {
    if !EndsWith(path, ".md") then None
    else
      var stem := path[..|path| - 3];
      var i := AfterLastSlash(stem);
      if i == |stem| then None
      else
        var name := stem[i..];
        assert path[|path| - |name| - 3..] == name + ".md";
        Some(name)
  }

  /** A file name is recovered from a folder path joined with it. */
  lemma FilenameOfPath(folder: string, name: string)
    requires name != [] && '/' !in name
    ensures Filename(folder + "/" + name + ".md") == Some(name)
  {
    var path := folder + "/" + name + ".md";
    var stem := path[..|path| - 3];
    assert stem == folder + "/" + name;
    var i := AfterLastSlash(stem);
    AfterLastSlashOfJoin(folder, name);
    assert stem[i..] == name;
  }

  lemma {:induction false} AfterLastSlashOfJoin(folder: string, name: string)
    requires '/' !in name
    ensures AfterLastSlash(folder + "/" + name) == |folder| + 1
    decreases |name|
  {
    var s := folder + "/" + name;
    if name == [] {
      assert s[|s| - 1] == '/';
    } else {
      assert s[..|s| - 1] == folder + "/" + name[..|name| - 1];
      assert name[|name| - 1] in name;
      AfterLastSlashOfJoin(folder, name[..|name| - 1]);
    }
  }

  /** `backlinkHref`: the path, followed by `#` and the heading when the task has one. */
  function BacklinkHref(t: Task): (r: string)
    ensures StartsWith(r, t.path)
    ensures t.precedingHeader.None? ==> r == t.path
    ensures t.precedingHeader.Some? ==> r[|t.path|..] == "#" + t.precedingHeader.value
  {
    match t.precedingHeader
    case None => t.path
    case Some(h) => t.path + "#" + h
  }
}

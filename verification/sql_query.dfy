/**
  The constructors of the SQL query classes, src/QuerySql/QuerySql.ts and src/Query/QueryX.ts:
  comment lines are rendering directives (`#short`, `#hide …`, and for `QuerySql` also `#raw …`,
  `#customjs …` and `#template …`), and the source handed to the SQL engine is the rewrite of
  the source without its comment lines. The feature switch for inline templates is a parameter.
*/
module SqlQueries {
  import opened Wrappers
  import opened Text
  import opened Tasks
  import Query
  import opened SqlSource

  // ---------------------------------------------------------------- directives

  // The directive of a line: for a line that is a comment once trimmed (`/^#.*/`), the rest of
  // it, trimmed again; other lines are not directives.
  function DirectiveOf(line: string): (r: Option<string>)
    ensures r.Some? <==> Trim(line) != [] && Trim(line)[0] == '#'
    ensures r.Some? ==> IsTrimmed(r.value)
  {
    var t := Trim(line);
    if t != [] && t[0] == '#' then Some(Trim(t[1..])) else None
  }

  /** `/^short/`. */
  predicate IsShort(directive: string) {
    StartsWith(directive, "short")
  }

  /** The text `/^hide (task count|…|edit button)/` captures, the first alternative that fits. */
  function HideCapture(directive: string): (r: Option<string>)
    ensures r.Some? <==> Query.MatchHide(directive).Some?
  {
    if !StartsWith(directive, "hide ") then None
    else match Query.FirstPrefix(directive[5..], Query.HideWords, 0)
      case None => None
      case Some(i) => Some(Query.HideWords[i])
  }

  /** The position of `w` in `words` from `k` on: the `switch` of `parseHideOptions` over its cases. */
  function CaseOf(w: string, words: seq<string>, k: nat): (r: Option<nat>)
    requires k <= |words|
    ensures r.Some? ==> k <= r.value < |words| && words[r.value] == w
    ensures r.None? ==> forall j :: k <= j < |words| ==> words[j] != w
    decreases |words| - k
  {
    if k == |words| then None
    else if words[k] == w then Some(k)
    else CaseOf(w, words, k + 1)
  }

  /**
    `parseHideOptions` on the captured text: the flag of the option named by its trimmed lower
    case, or the error `do not understand hide option` when no case names it.
  */
  function ParseHide(layout: LayoutOptions, capture: string): (r: (LayoutOptions, Option<string>))
    ensures r.1.Some? ==> r.0 == layout && r.1 == Some("do not understand hide option")
  {
    match CaseOf(ToLower(Trim(capture)), Query.HideWords, 0)
    case None => (layout, Some("do not understand hide option"))
    case Some(i) => (Query.Hide(layout, Query.HideOptions[i]), None)
  }

  /**
    `parseHideOptions` succeeds exactly when the trimmed lower case of the capture is a hide
    word, and then sets the flag of that word's option.
  */
  lemma ParseHideNamed(layout: LayoutOptions, capture: string)
    ensures ParseHide(layout, capture).1.None? <==> ToLower(Trim(capture)) in Query.HideWords
    ensures ParseHide(layout, capture).1.None? ==>
      exists i :: 0 <= i < |Query.HideWords| && Query.HideWords[i] == ToLower(Trim(capture))
        && ParseHide(layout, capture).0 == Query.Hide(layout, Query.HideOptions[i])
  {
    var w := ToLower(Trim(capture));
    match CaseOf(w, Query.HideWords, 0)
    case None =>
    case Some(i) =>
      assert Query.HideWords[i] == w;
  }

  /**
    Every text the hide regex captures names one of the nine cases, so `parseHideOptions` never
    reaches its error: it sets exactly the flag of the option the regex matched.
  */
  lemma HideNeverErrs(layout: LayoutOptions, directive: string)
    requires HideCapture(directive).Some?
    ensures ParseHide(layout, HideCapture(directive).value) == (Query.Hide(layout, Query.MatchHide(directive).value), None)
  {
    var i := Query.FirstPrefix(directive[5..], Query.HideWords, 0).value;
    var w := Query.HideWords[i];
    HideWordsPlain(i);
    HideWordsDistinct(i);
    CaseOfFirst(w, Query.HideWords, 0, i);
  }

  /** The `switch` picks the first case equal to `w`. */
  lemma {:induction false} CaseOfFirst(w: string, words: seq<string>, k: nat, i: nat)
    requires k <= i < |words| && words[i] == w
    requires forall j :: k <= j < i ==> words[j] != w
    ensures CaseOf(w, words, k) == Some(i)
    decreases i - k
  {
    if k < i {
      CaseOfFirst(w, words, k + 1, i);
    }
  }

  /** The hide words are in lower case, with no space at either end. */
  lemma HideWordsPlain(i: nat)
    requires i < |Query.HideWords|
    ensures ToLower(Trim(Query.HideWords[i])) == Query.HideWords[i]
  {
    var w := Query.HideWords[i];
    if i == 0 { assert w == "task count"; TaskCountPlain(); }
    else if i == 1 { assert w == "backlink"; BacklinkPlain(); }
    else if i == 2 { assert w == "priority"; PriorityPlain(); }
    else if i == 3 { assert w == "start date"; StartDatePlain(); }
    else if i == 4 { assert w == "scheduled date"; ScheduledDatePlain(); }
    else if i == 5 { assert w == "done date"; DoneDatePlain(); }
    else if i == 6 { assert w == "due date"; DueDatePlain(); }
    else if i == 7 { assert w == "recurrence rule"; RecurrenceRulePlain(); }
    else { assert w == "edit button"; EditButtonPlain(); }
  }

  // One lemma per hide word keeps each literal's character checks in a context of their own.
  lemma TaskCountPlain() ensures ToLower(Trim("task count")) == "task count" { PlainWord("task count"); }
  lemma BacklinkPlain() ensures ToLower(Trim("backlink")) == "backlink" { PlainWord("backlink"); }
  lemma PriorityPlain() ensures ToLower(Trim("priority")) == "priority" { PlainWord("priority"); }
  lemma StartDatePlain() ensures ToLower(Trim("start date")) == "start date" { PlainWord("start date"); }
  lemma ScheduledDatePlain() ensures ToLower(Trim("scheduled date")) == "scheduled date" { PlainWord("scheduled date"); }
  lemma DoneDatePlain() ensures ToLower(Trim("done date")) == "done date" { PlainWord("done date"); }
  lemma DueDatePlain() ensures ToLower(Trim("due date")) == "due date" { PlainWord("due date"); }
  lemma RecurrenceRulePlain() ensures ToLower(Trim("recurrence rule")) == "recurrence rule" { PlainWord("recurrence rule"); }
  lemma EditButtonPlain() ensures ToLower(Trim("edit button")) == "edit button" { PlainWord("edit button"); }

  /** A lower-case word with no space at either end is its own trimmed lower case. */
  lemma PlainWord(w: string)
    requires IsTrimmed(w)
    requires forall k :: 0 <= k < |w| ==> 'a' <= w[k] <= 'z' || w[k] == ' '
    ensures ToLower(Trim(w)) == w
  {
    TrimOfTrimmed(w);
    LowerKeeps(w);
  }

  lemma LowerKeeps(w: string)
    requires forall k :: 0 <= k < |w| ==> 'a' <= w[k] <= 'z' || w[k] == ' '
    ensures ToLower(w) == w
  {
  }

  lemma HideWordsDistinct(i: nat)
    requires i < |Query.HideWords|
    ensures forall j :: 0 <= j < i ==> Query.HideWords[j] != Query.HideWords[i]
  {
  }

  /** `/^raw (empty|tasks)/`: whether the option is `empty`. */
  function MatchRaw(directive: string): (r: Option<bool>)
    ensures r == Some(true) <==> StartsWith(directive, "raw empty")
    ensures r == Some(false) <==> StartsWith(directive, "raw tasks")
  {
    if StartsWith(directive, "raw empty") then Some(true)
    else if StartsWith(directive, "raw tasks") then Some(false)
    else None
  }

  /** The position of the last space in `s`. */
  function LastSpace(s: string): (r: Option<nat>)
    ensures r.Some? ==> r.value < |s| && s[r.value] == ' ' && forall j :: r.value < j < |s| ==> s[j] != ' '
    ensures r.None? ==> forall j :: 0 <= j < |s| ==> s[j] != ' '
  {
    if s == [] then None
    else if s[|s| - 1] == ' ' then Some(|s| - 1)
    else LastSpace(s[..|s| - 1])
  }

  /**
    `/^customjs (.*) (.*)/`: the first `.*` is greedy, so the two captures are the line's text
    before and after its last space.
  */
  function MatchCustomJs(directive: string): (r: Option<(string, string)>)
    ensures r.Some? ==> StartsWith(directive, "customjs ")
  {
    if !StartsWith(directive, "customjs ") then None
    else
      var c := LineContent(directive[9..]);
      match LastSpace(c)
      case None => None
      case Some(j) => Some((c[..j], c[j + 1..]))
  }

  /** `/^template (.*)/`: the rest of the line. */
  function MatchTemplate(directive: string): (r: Option<string>)
    ensures r.Some? <==> StartsWith(directive, "template ")
  {
    if StartsWith(directive, "template ") then Some(LineContent(directive[9..])) else None
  }

  /** What the `QuerySql` directives set, with the query's `error`. */
  datatype SqlDirectives = SqlDirectives(
    layout: LayoutOptions,
    rawMode: bool,
    rawWithTasksMode: bool,
    customJsClasses: seq<(string, string)>,
    customTemplate: string,
    error: Option<string>)

  /** The field initialisers. */
  const NoSqlDirectives := SqlDirectives(DefaultLayout, false, false, [], "", None)

  /** The fields other than the layout are those of `d`. */
  predicate OnlyLayout(r: SqlDirectives, d: SqlDirectives) {
    r.rawMode == d.rawMode && r.rawWithTasksMode == d.rawWithTasksMode && r.customJsClasses == d.customJsClasses &&
    r.customTemplate == d.customTemplate && r.error == d.error
  }

  /** A class pair as it is pushed: both parts non-empty and trimmed. */
  predicate IsClassPair(p: (string, string)) {
    p.0 != [] && p.1 != [] && IsTrimmed(p.0) && IsTrimmed(p.1)
  }

  /** `after` is `before`, or `before` with one class pair pushed. */
  predicate AddsAtMostOnePair(before: seq<(string, string)>, after: seq<(string, string)>) {
    after == before || (|after| == |before| + 1 && after[..|before|] == before && IsClassPair(after[|before|]))
  }

  /**
    One `QuerySql` directive, the first test that holds deciding: `short`, `hide`, `raw`,
    `customjs` (a pair with both parts non-empty once trimmed is appended), `template` (taken when
    inline templates are on and the text is non-empty once trimmed).
  */
  function ApplySql(d: SqlDirectives, directive: string, inlineTemplate: bool): (r: SqlDirectives)
    ensures r.error == d.error
    ensures IsShort(directive) ==> r == d.(layout := d.layout.(shortMode := true))
    ensures !IsShort(directive) && Query.MatchHide(directive).Some? ==>
      r.layout == Query.Hide(d.layout, Query.MatchHide(directive).value) && OnlyLayout(r, d)
    ensures AddsAtMostOnePair(d.customJsClasses, r.customJsClasses)
    ensures !IsShort(directive) && Query.MatchHide(directive).None? && MatchRaw(directive).Some? ==>
      r == d.(rawMode := true, rawWithTasksMode := !MatchRaw(directive).value)
  {
    if IsShort(directive) then d.(layout := d.layout.(shortMode := true))
    else if HideCapture(directive).Some? then
      HideNeverErrs(d.layout, directive);
      var (layout, error) := ParseHide(d.layout, HideCapture(directive).value);
      d.(layout := layout, error := if error.Some? then error else d.error)
    else if MatchRaw(directive).Some? then d.(rawMode := true, rawWithTasksMode := !MatchRaw(directive).value)
    else if MatchCustomJs(directive).Some? then
      var (a, b) := MatchCustomJs(directive).value;
      if Trim(a) != [] && Trim(b) != [] then d.(customJsClasses := d.customJsClasses + [(Trim(a), Trim(b))]) else d
    else if MatchTemplate(directive).Some? && inlineTemplate then
      var t := Trim(MatchTemplate(directive).value);
      if t != [] then d.(customTemplate := t) else d
    else d
  }

  /** One source line: a directive acts, any other line leaves the directives as they are. */
  function SqlLine(d: SqlDirectives, line: string, inlineTemplate: bool): (r: SqlDirectives)
    ensures r.error == d.error
    ensures AddsAtMostOnePair(d.customJsClasses, r.customJsClasses)
  {
    match DirectiveOf(line)
    case Some(directive) => ApplySql(d, directive, inlineTemplate)
    case None => d
  }

  /** The `forEach` over the source's lines: only comment lines act. */
  function SqlLines(d: SqlDirectives, lines: seq<string>, inlineTemplate: bool): (r: SqlDirectives)
    ensures r.error == d.error
    decreases |lines|
  {
    if lines == [] then d
    else
      var next := SqlLine(d, lines[0], inlineTemplate);
      SqlLines(next, lines[1..], inlineTemplate)
  }

  /** The directives of consecutive blocks of lines are applied block after block. */
  lemma {:induction false} SqlLinesAppend(d: SqlDirectives, a: seq<string>, b: seq<string>, inlineTemplate: bool)
    ensures SqlLines(d, a + b, inlineTemplate) == SqlLines(SqlLines(d, a, inlineTemplate), b, inlineTemplate)
    decreases |a|
  {
    if a == [] {
      assert a + b == b;
    } else {
      assert (a + b)[0] == a[0] && (a + b)[1..] == a[1..] + b;
      var next := SqlLine(d, a[0], inlineTemplate);
      SqlLinesAppend(next, a[1..], b, inlineTemplate);
    }
  }

  /** The class pairs are only ever appended: later lines push after those of earlier lines. */
  lemma {:induction false} CustomJsAppended(d: SqlDirectives, lines: seq<string>, inlineTemplate: bool)
    ensures d.customJsClasses <= SqlLines(d, lines, inlineTemplate).customJsClasses
    decreases |lines|
  {
    if lines != [] {
      var next := SqlLine(d, lines[0], inlineTemplate);
      CustomJsAppended(next, lines[1..], inlineTemplate);
      assert d.customJsClasses <= next.customJsClasses;
    }
  }

  /** `#customjs A B`, with `A` and `B` words without spaces, appends the pair `(A, B)`. */
  lemma CustomJsPair(d: SqlDirectives, a: string, b: string, inlineTemplate: bool)
    requires a != [] && b != [] && NoSpace(a) && NoSpace(b)
    ensures ApplySql(d, "customjs " + a + " " + b, inlineTemplate).customJsClasses == d.customJsClasses + [(a, b)]
  {
    var directive := "customjs " + a + " " + b;
    CustomJsCapture(a, b);
    NotShortHideRaw(directive);
    TrimOfTrimmed(a);
    TrimOfTrimmed(b);
  }

  /** The two captures of `#customjs A B` are `A` and `B`. */
  lemma CustomJsCapture(a: string, b: string)
    requires a != [] && b != [] && NoSpace(a) && NoSpace(b)
    ensures var directive := "customjs " + a + " " + b;
      directive[0] == 'c' && MatchCustomJs(directive) == Some((a, b))
  {
    var rest := a + " " + b;
    assert "customjs " + a + " " + b == "customjs " + rest;
    StartsWithAppend("customjs ", rest);
    SpacedPair(a, b);
  }

  /** In `A B`, with `A` and `B` free of spaces, `.*` takes all of it and its last space follows `A`. */
  lemma SpacedPair(a: string, b: string)
    requires NoSpace(a) && NoSpace(b)
    ensures var rest := a + " " + b;
      LineContent(rest) == rest && LastSpace(rest) == Some(|a|) && rest[..|a|] == a && rest[|a| + 1..] == b
  {
    var rest := a + " " + b;
    forall i | 0 <= i < |rest|
      ensures !IsLineTerminator(rest[i])
    {
      if i < |a| {
        assert rest[i] == a[i];
      } else if i > |a| {
        assert rest[i] == b[i - |a| - 1];
      }
    }
    LineContentWhole(rest);
    forall k | |a| < k < |rest|
      ensures rest[k] != ' '
    {
      assert rest[k] == b[k - |a| - 1];
    }
    LastSpaceAt(rest, |a|);
    assert rest[..|a|] == a && rest[|a| + 1..] == b;
  }

  /** A directive starting with none of `s`, `h` and `r` is neither `short`, nor `hide`, nor `raw`. */
  lemma NotShortHideRaw(directive: string)
    requires directive != [] && directive[0] != 's' && directive[0] != 'h' && directive[0] != 'r'
    ensures !IsShort(directive) && Query.MatchHide(directive).None? && HideCapture(directive).None? && MatchRaw(directive).None?
  {
    StartsWithFirst(directive, "short");
    StartsWithFirst(directive, "hide ");
    StartsWithFirst(directive, "raw empty");
    StartsWithFirst(directive, "raw tasks");
  }

  lemma {:induction false} LastSpaceAt(s: string, j: nat)
    requires j < |s| && s[j] == ' ' && forall k :: j < k < |s| ==> s[k] != ' '
    ensures LastSpace(s) == Some(j)
    decreases |s|
  {
    if j < |s| - 1 {
      LastSpaceAt(s[..|s| - 1], j);
    }
  }

  /** `#raw empty` leaves raw mode without the task table; `#raw tasks` gives raw mode with it. */
  lemma RawOptions(d: SqlDirectives, option: string, inlineTemplate: bool)
    requires option == "empty" || option == "tasks"
    ensures var r := ApplySql(d, "raw " + option, inlineTemplate);
      r.rawMode && (r.rawWithTasksMode <==> option == "tasks")
  {
    var directive := "raw " + option;
    StartsWithFirst(directive, "short");
    StartsWithFirst(directive, "hide ");
    StartsWithAppend("raw ", option);
    if option == "empty" {
      assert directive == "raw empty";
    } else {
      assert directive == "raw tasks";
      StartsWithFirst(directive[4..], "empty");
    }
  }

  /** A line that is not a comment once trimmed is not a directive and changes nothing. */
  lemma PlainLineIgnored(d: SqlDirectives, line: string, inlineTemplate: bool)
    requires Trim(line) == [] || Trim(line)[0] != '#'
    ensures SqlLines(d, [line], inlineTemplate) == d
  {
  }

  // ---------------------------------------------------------------- QuerySql

  /** A constructed `QuerySql`: the source to run, its directives, and what the rewrite found. */
  datatype SqlQuery = SqlQuery(source: string, directives: SqlDirectives, groupingPossible: bool, groupByFields: seq<(string, string)>)

  /** `#raw empty` in effect: the source is run as written, against no table. */
  predicate RawEmpty(d: SqlDirectives) {
    d.rawMode && !d.rawWithTasksMode
  }

  /**
    The `QuerySql` constructor: the directives of the source's lines, then the source without its
    comment lines, trimmed, rewritten unless `#raw empty` is in effect. It throws when the
    rewrite does.
  */
  function NewSql(source: string, inlineTemplate: bool): (r: Result<SqlQuery>)
    ensures r.Success? ==> r.value.directives == SqlLines(NoSqlDirectives, Split(source, '\n'), inlineTemplate)
    ensures r.Success? ==> r.value.directives.error.None?
    ensures RawEmpty(SqlLines(NoSqlDirectives, Split(source, '\n'), inlineTemplate)) ==>
      r.Success? && r.value.source == Trim(StripComments(source)) && !r.value.groupingPossible && r.value.groupByFields == []
    ensures !RawEmpty(SqlLines(NoSqlDirectives, Split(source, '\n'), inlineTemplate)) ==>
      (r.Success? <==> Rewrite(Trim(StripComments(source))).Success?) &&
      (r.Success? ==> r.value.source == Rewrite(Trim(StripComments(source))).value.source)
  {
    var d := SqlLines(NoSqlDirectives, Split(source, '\n'), inlineTemplate);
    var stripped := Trim(StripComments(source));
    if RawEmpty(d) then Success(SqlQuery(stripped, d, false, []))
    else
      match Rewrite(stripped)
      case Failure(e) => Failure(e)
      case Success(w) => Success(SqlQuery(w.source, d, w.groupingPossible, w.groupByFields))
  }

  /**
    Under `#raw empty` the source `QuerySql` runs has no space at either end and no comment line
    after its first line.
  */
  lemma SqlSourceClean(source: string, inlineTemplate: bool)
    requires RawEmpty(SqlLines(NoSqlDirectives, Split(source, '\n'), inlineTemplate))
    ensures var r := NewSql(source, inlineTemplate).value.source;
      IsTrimmed(r) && forall i :: 0 < i < |r| && LineStartAt(r, i) ==> r[i] != '#'
  {
    StripCommentsClean(source);
    TrimKeepsClean(StripComments(source));
  }

  /** Trimming a text with no comment line leaves none after its first line. */
  lemma TrimKeepsClean(s: string)
    requires NoCommentLine(s)
    ensures var r := Trim(s); forall i :: 0 < i < |r| && LineStartAt(r, i) ==> r[i] != '#'
  {
    var a := TrimOffset(s);
    var r := Trim(s);
    forall i | 0 < i < |r| && LineStartAt(r, i)
      ensures r[i] != '#'
    {
      InfixLineStart(s, a, r, i);
    }
  }


  /** A line start inside an infix of `s` is a line start of `s`, holding the same character. */
  lemma InfixLineStart(s: string, a: nat, r: string, i: nat)
    requires NoCommentLine(s) && a + |r| <= |s| && r == s[a..a + |r|]
    requires 0 < i < |r| && LineStartAt(r, i)
    ensures r[i] != '#'
  {
    assert r[i] == s[a + i] && r[i - 1] == s[a + i - 1];
    assert LineStartAt(s, a + i);
  }

  /**
    The first line can still be one: an indented comment line is not stripped, since the comment
    pattern wants `#` at the very start of a line, and trimming then brings its `#` to the front.
  */
  lemma IndentedCommentKept(c: string)
    requires forall i :: 0 <= i < |c| ==> !IsLineTerminator(c[i])
    ensures Trim(StripComments(" #" + c))[0] == '#'
  {
    var s := " #" + c;
    forall j | 1 < j < |s|
      ensures !IsLineTerminator(s[j])
    {
      assert s[j] == c[j - 2];
    }
    StripCommentsNoComment(s);
    var t := s[1..];
    assert s[0] == ' ' && t[0] == '#';
    TrimStartSkips(s);
    TrimStartKeeps(t);
    TrimEndKeeps(t, 0);
    assert TrimEnd(t)[0] == t[0];
  }

  // ---------------------------------------------------------------- QueryX

  /** What the `QueryX` directives set. */
  datatype XDirectives = XDirectives(layout: LayoutOptions, error: Option<string>)

  /** One `QueryX` directive: only `short` and `hide` are read. */
  function ApplyX(d: XDirectives, directive: string): (r: XDirectives)
    ensures r.error == d.error
    ensures IsShort(directive) ==> r.layout == d.layout.(shortMode := true)
    ensures !IsShort(directive) && Query.MatchHide(directive).Some? ==> r.layout == Query.Hide(d.layout, Query.MatchHide(directive).value)
    ensures !IsShort(directive) && Query.MatchHide(directive).None? ==> r == d
  {
    if IsShort(directive) then d.(layout := d.layout.(shortMode := true))
    else if HideCapture(directive).Some? then
      HideNeverErrs(d.layout, directive);
      var (layout, error) := ParseHide(d.layout, HideCapture(directive).value);
      d.(layout := layout, error := if error.Some? then error else d.error)
    else d
  }

  function XLines(d: XDirectives, lines: seq<string>): (r: XDirectives)
    ensures r.error == d.error
    decreases |lines|
  {
    if lines == [] then d
    else
      var next := match DirectiveOf(lines[0]) case Some(directive) => ApplyX(d, directive) case None => d;
      XLines(next, lines[1..])
  }

  /** A constructed `QueryX`. */
  datatype QueryX = QueryX(source: string, layout: LayoutOptions, error: Option<string>, groupingPossible: bool, groupByFields: seq<(string, string)>)

  /**
    The `QueryX` constructor: the source without its comment lines, not trimmed, always
    rewritten, then the directives. It throws when the rewrite does.
  */
  function NewX(source: string): (r: Result<QueryX>)
    ensures r.Success? ==> r.value.error.None?
    ensures r.Success? <==> Rewrite(StripComments(source)).Success?
    ensures r.Success? ==> r.value.source == Rewrite(StripComments(source)).value.source
    ensures r.Success? ==> r.value.layout == XLines(XDirectives(DefaultLayout, None), Split(source, '\n')).layout
  {
    match Rewrite(StripComments(source))
    case Failure(e) => Failure(e)
    case Success(w) =>
      var d := XLines(XDirectives(DefaultLayout, None), Split(source, '\n'));
      Success(QueryX(w.source, d.layout, d.error, w.groupingPossible, w.groupByFields))
  }

  /** The directives `QuerySql` alone reads do nothing to a `QueryX`. */
  lemma XIgnoresSqlDirectives(d: XDirectives, directive: string)
    requires MatchRaw(directive).Some? || MatchCustomJs(directive).Some? || MatchTemplate(directive).Some?
    ensures ApplyX(d, directive) == d
  {
    StartsWithFirst(directive, "raw empty");
    StartsWithFirst(directive, "raw tasks");
    StartsWithFirst(directive, "customjs ");
    StartsWithFirst(directive, "template ");
    StartsWithFirst(directive, "short");
    StartsWithFirst(directive, "hide ");
  }

  /** On the same lines, `QueryX` sets the same layout as `QuerySql`. */
  lemma {:induction false} SameLayout(x: XDirectives, q: SqlDirectives, lines: seq<string>, inlineTemplate: bool)
    requires x.layout == q.layout
    ensures XLines(x, lines).layout == SqlLines(q, lines, inlineTemplate).layout
    decreases |lines|
  {
    if lines != [] {
      var nx := match DirectiveOf(lines[0]) case Some(directive) => ApplyX(x, directive) case None => x;
      var nq := SqlLine(q, lines[0], inlineTemplate);
      if DirectiveOf(lines[0]).Some? {
        var directive := DirectiveOf(lines[0]).value;
        if !IsShort(directive) && Query.MatchHide(directive).None? {
          SqlOthersKeepLayout(q, directive, inlineTemplate);
        }
      }
      SameLayout(nx, nq, lines[1..], inlineTemplate);
    }
  }

  /** A `QuerySql` directive other than `short` and `hide` leaves the layout alone. */
  lemma SqlOthersKeepLayout(d: SqlDirectives, directive: string, inlineTemplate: bool)
    requires !IsShort(directive) && Query.MatchHide(directive).None?
    ensures ApplySql(d, directive, inlineTemplate).layout == d.layout
  {
  }
}

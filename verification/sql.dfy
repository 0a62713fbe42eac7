/**
  The source rewriting the SQL query classes do in their constructors (src/QuerySql/QuerySql.ts
  and src/Query/QueryX.ts): comment lines are cut out with a multiline regex, a full `SELECT`
  query has its `FROM Tasks` pointed at the task table parameter `?`, and any other source gets
  a `SELECT` prefix, projecting on its first `GROUP BY` field when it has one. The regexes are
  written out over `seq<char>`; running the rewritten SQL is outside the model.
*/
module SqlSource {
  import opened Wrappers
  import opened Text

  // ---------------------------------------------------------------- comment lines

  /** A position where a multiline `^` matches: the start, or just after a line terminator. */
  predicate LineStartAt(s: string, i: int) {
    i == 0 || (0 < i <= |s| && IsLineTerminator(s[i - 1]))
  }

  /** No line of `s` starts with `#`. */
  predicate NoCommentLine(s: string) {
    forall i :: 0 <= i < |s| && LineStartAt(s, i) ==> s[i] != '#'
  }

  /**
    The length of the match of `(^#.*$(\r\n|\r|\n)?)` at a `#` that starts a line: the comment up
    to the line's end, then one line break if it is `\r\n`, `\r` or `\n`.
  */
  function CommentLength(s: string): (n: nat)
    requires s != [] && s[0] == '#'
    ensures 1 <= n <= |s|
    ensures n < |s| ==> IsLineTerminator(s[n]) || IsLineTerminator(s[n - 1])
  {
    var body := |LineContent(s)|;
    var rest := s[body..];
    body + (if StartsWith(rest, "\r\n") then 2 else if rest != [] && (rest[0] == '\r' || rest[0] == '\n') then 1 else 0)
  }

  /**
    The global replace of the comment regex by the empty string, from a position that is
    (`atStart`) or is not a line start.
  */
  function StripFrom(s: string, atStart: bool): (r: string)
    ensures |r| <= |s|
    ensures s != [] && (!atStart || s[0] != '#') ==> r != [] && r[0] == s[0]
    decreases |s|
  {
    if s == [] then []
    else if atStart && s[0] == '#' then
      var n := CommentLength(s);
      StripFrom(s[n..], IsLineTerminator(s[n - 1]))
    else [s[0]] + StripFrom(s[1..], IsLineTerminator(s[0]))
  }

  /** `source.replace(commentReplacementRegexp, '')`: every line starting with `#` removed with its line break. */
  function StripComments(s: string): (r: string)
    ensures |r| <= |s|
  {
    StripFrom(s, true)
  }

  /** No character after a line terminator is `#`. */
  predicate NoHashAfterBreak(r: string) {
    forall i :: 0 < i < |r| && IsLineTerminator(r[i - 1]) ==> r[i] != '#'
  }

  /** After the comment lines are removed no line starts with `#`. */
  lemma {:induction false} StripFromClean(s: string, atStart: bool)
    ensures atStart && StripFrom(s, atStart) != [] ==> StripFrom(s, atStart)[0] != '#'
    ensures NoHashAfterBreak(StripFrom(s, atStart))
    decreases |s|
  {
    if s != [] {
      if atStart && s[0] == '#' {
        var n := CommentLength(s);
        var next := IsLineTerminator(s[n - 1]);
        StripFromClean(s[n..], next);
        assert StripFrom(s, atStart) == StripFrom(s[n..], next);
        if !next && n < |s| {
          StartAfterComment(s[n..]);
        }
      } else {
        var first := IsLineTerminator(s[0]);
        StripFromClean(s[1..], first);
        var rest := StripFrom(s[1..], first);
        var r := [s[0]] + rest;
        assert StripFrom(s, atStart) == r;
        forall i | 0 < i < |r| && IsLineTerminator(r[i - 1])
          ensures r[i] != '#'
        {
          assert r[i] == rest[i - 1];
          if i > 1 {
            assert r[i - 1] == rest[i - 2];
            var j := i - 1;
            assert 0 < j < |rest| && IsLineTerminator(rest[j - 1]);
          }
        }
      }
    }
  }

  /** Where a comment ends without a line break, the text goes on with a line terminator, which is kept. */
  lemma StartAfterComment(t: string)
    requires t != [] && IsLineTerminator(t[0])
    ensures StripFrom(t, false) != [] && StripFrom(t, false)[0] != '#'
  {
  }

  lemma StripCommentsClean(s: string)
    ensures NoCommentLine(StripComments(s))
  {
    StripFromClean(s, true);
  }

  /** A source with no comment line is left as it is. */
  lemma {:induction false} StripFromNoComment(s: string, atStart: bool)
    requires atStart && s != [] ==> s[0] != '#'
    requires forall i :: 0 < i < |s| && IsLineTerminator(s[i - 1]) ==> s[i] != '#'
    ensures StripFrom(s, atStart) == s
    decreases |s|
  {
    if s != [] {
      StripFromNoComment(s[1..], IsLineTerminator(s[0]));
      assert s == [s[0]] + s[1..];
    }
  }

  lemma StripCommentsNoComment(s: string)
    requires NoCommentLine(s)
    ensures StripComments(s) == s
  {
    StripFromNoComment(s, true);
  }

  /** Removing the comment lines twice removes no more than once. */
  lemma StripCommentsIdempotent(s: string)
    ensures StripComments(StripComments(s)) == StripComments(s)
  {
    StripCommentsClean(s);
    StripCommentsNoComment(StripComments(s));
  }

  /** A whole comment line with its line feed goes, and what follows stays. */
  lemma StripLeadingComment(comment: string, rest: string)
    requires forall i :: 0 <= i < |comment| ==> !IsLineTerminator(comment[i])
    ensures StripComments("#" + comment + "\n" + rest) == StripComments(rest)
  {
    var s := "#" + comment + "\n" + rest;
    LineContentUpTo("#" + comment, "\n" + rest);
    assert s == ("#" + comment) + ("\n" + rest);
    var body := |LineContent(s)|;
    assert s[body..] == "\n" + rest;
    assert CommentLength(s) == |comment| + 2;
    assert s[|comment| + 2..] == rest;
  }

  /** The `.*` capture of a text followed by a line terminator is the text. */
  lemma {:induction false} LineContentUpTo(t: string, rest: string)
    requires forall i :: 0 <= i < |t| ==> !IsLineTerminator(t[i])
    requires rest != [] && IsLineTerminator(rest[0])
    ensures LineContent(t + rest) == t
  {
    if t == [] {
      assert t + rest == rest;
    } else {
      LineContentUpTo(t[1..], rest);
      assert (t + rest)[1..] == t[1..] + rest;
    }
  }

  // ---------------------------------------------------------------- case-insensitive tests

  /** The lower-case word `p` occurs at `i`, ignoring the case of ASCII letters (the `i` flag). */
  predicate WordAt(s: string, p: string, i: int) {
    0 <= i && i + |p| <= |s| && ToLower(s[i..i + |p|]) == p
  }

  // The `test` of `(^|\s)GROUP BY*` with flags `gim`: `GROUP B` at the start or after whitespace, in any case.
  predicate HasGroupBy(s: string) {
    exists i :: 0 <= i < |s| && (i == 0 || IsSpace(s[i - 1])) && WordAt(s, "group b", i)
  }

  // The `test` of `^SELECT` with flags `gim`: a line that starts with `SELECT`, in any case.
  predicate HasSelect(s: string) {
    exists i :: 0 <= i < |s| && LineStartAt(s, i) && WordAt(s, "select", i)
  }

  // ---------------------------------------------------------------- FROM Tasks

  /** The number of `s` or `S` at the start: what `s*` matches under the `i` flag. */
  function TrailingS(s: string): (n: nat)
    ensures n <= |s|
    ensures n < |s| ==> s[n] != 's' && s[n] != 'S'
  {
    if s == [] || (s[0] != 's' && s[0] != 'S') then 0 else 1 + TrailingS(s[1..])
  }

  /**
    The length of the match of `(^|\s)FROM Tasks*` at `p`, in any case: the line-start branch is
    tried first, then one whitespace character before the words.
  */
  function FromTasksAt(s: string, p: nat): (r: Option<nat>)
    ensures r.Some? ==> p + r.value <= |s| && r.value >= 9
  {
    if LineStartAt(s, p) && WordAt(s, "from task", p) then Some(9 + TrailingS(s[p + 9..]))
    else if p < |s| && IsSpace(s[p]) && WordAt(s, "from task", p + 1) then Some(10 + TrailingS(s[p + 10..]))
    else None
  }

  /** The global replace of that regex by ` FROM ?`, scanning from `p`. */
  function ReplaceFromTasks(s: string, p: nat): (r: string)
    requires p <= |s|
    decreases |s| - p
  {
    if p == |s| then []
    else
      match FromTasksAt(s, p)
      case Some(n) => " FROM ?" + ReplaceFromTasks(s, p + n)
      case None => [s[p]] + ReplaceFromTasks(s, p + 1)
  }

  // `source.replace` of the regex `(^|\s)FROM Tasks*` with flags `gim` by ` FROM ?`.
  function PointAtTable(s: string): string {
    ReplaceFromTasks(s, 0)
  }

  /** A source that never names the table after whitespace or at a line start is left alone. */
  lemma {:induction false} ReplaceNothing(s: string, p: nat)
    requires p <= |s|
    requires forall q :: p <= q < |s| ==> FromTasksAt(s, q).None?
    ensures ReplaceFromTasks(s, p) == s[p..]
    decreases |s| - p
  {
    if p < |s| {
      ReplaceNothing(s, p + 1);
      assert s[p..] == [s[p]] + s[p + 1..];
    }
  }

  /** A match takes the table name and every `s` after it, and the scan carries on behind it. */
  lemma ReplaceAtMatch(s: string, p: nat)
    requires p < |s| && FromTasksAt(s, p).Some?
    ensures ReplaceFromTasks(s, p) == " FROM ?" + ReplaceFromTasks(s, p + FromTasksAt(s, p).value)
    ensures p + FromTasksAt(s, p).value < |s| ==> s[p + FromTasksAt(s, p).value] != 's' && s[p + FromTasksAt(s, p).value] != 'S'
  {
  }

  // ---------------------------------------------------------------- tokens

  /** The characters `[^\s,;]+|;` never matches. */
  predicate Skipped(c: char) {
    IsSpace(c) || c == ','
  }

  /** A character of a word token. */
  predicate WordChar(c: char) {
    !Skipped(c) && c != ';'
  }

  /** The length of the word token at the start of `s`. */
  function WordLength(s: string): (n: nat)
    ensures n <= |s| && forall i :: 0 <= i < n ==> WordChar(s[i])
    ensures n < |s| ==> !WordChar(s[n])
  {
    if s == [] || !WordChar(s[0]) then 0 else 1 + WordLength(s[1..])
  }

  /** A token: a maximal run of word characters, or one `;`. */
  predicate IsToken(t: string) {
    t == ";" || (t != [] && forall i :: 0 <= i < |t| ==> WordChar(t[i]))
  }

  /** `source.match(/[^\s,;]+|;/gi)`, with no match giving the empty list rather than null. */
  function Tokens(s: string): (r: seq<string>)
    ensures forall k :: 0 <= k < |r| ==> IsToken(r[k])
    decreases |s|
  {
    if s == [] then []
    else if Skipped(s[0]) then Tokens(s[1..])
    else if s[0] == ';' then [";"] + Tokens(s[1..])
    else
      var n := WordLength(s);
      [s[..n]] + Tokens(s[n..])
  }

  /** Text joined by a whitespace or a comma tokenises into the tokens of each side. */
  lemma {:induction false} TokensSplit(a: string, c: char, b: string)
    requires Skipped(c)
    ensures Tokens(a + [c] + b) == Tokens(a) + Tokens(b)
    decreases |a|
  {
    var s := a + [c] + b;
    if a == [] {
      assert s[1..] == b;
      TokensSkip(s);
    } else if Skipped(a[0]) {
      TokensSplit(a[1..], c, b);
      assert s[1..] == a[1..] + [c] + b;
      TokensSkip(s);
      TokensSkip(a);
    } else if a[0] == ';' {
      TokensSplit(a[1..], c, b);
      assert s[1..] == a[1..] + [c] + b;
      TokensSemi(s);
      TokensSemi(a);
    } else {
      var n := WordLength(a);
      WordLengthStops(a, c, b);
      TokensSplit(a[n..], c, b);
      assert s[..n] == a[..n];
      assert s[n..] == a[n..] + [c] + b;
      TokensWord(s);
      TokensWord(a);
    }
  }

  lemma TokensSkip(s: string)
    requires s != [] && Skipped(s[0])
    ensures Tokens(s) == Tokens(s[1..])
  {
  }

  lemma TokensSemi(s: string)
    requires s != [] && s[0] == ';'
    ensures Tokens(s) == [";"] + Tokens(s[1..])
  {
  }

  lemma TokensWord(s: string)
    requires s != [] && !Skipped(s[0]) && s[0] != ';'
    ensures Tokens(s) == [s[..WordLength(s)]] + Tokens(s[WordLength(s)..])
  {
  }

  lemma WordLengthStops(a: string, c: char, b: string)
    requires Skipped(c)
    ensures WordLength(a + [c] + b) == WordLength(a)
  {
    var s := a + [c] + b;
    var n := WordLength(a);
    WordRun(s, n);
  }

  /** A run of `n` word characters followed by a non-word character or the end is the word token's length. */
  lemma {:induction false} WordRun(s: string, n: nat)
    requires n <= |s| && forall i :: 0 <= i < n ==> WordChar(s[i])
    requires n < |s| ==> !WordChar(s[n])
    ensures WordLength(s) == n
  {
    if n > 0 {
      WordRun(s[1..], n - 1);
    }
  }

  /** A word on its own is one token. */
  lemma TokensOfWord(w: string)
    requires w != [] && forall i :: 0 <= i < |w| ==> WordChar(w[i])
    ensures Tokens(w) == [w]
  {
    WordRun(w, |w|);
    assert !Skipped(w[0]) && w[0] != ';';
    assert w[..|w|] == w;
    assert Tokens(w[|w|..]) == [];
  }

  /** Words joined by single spaces tokenise into the words. */
  lemma TokensOfWords(ws: seq<string>)
    requires forall k :: 0 <= k < |ws| ==> ws[k] != [] && forall i :: 0 <= i < |ws[k]| ==> WordChar(ws[k][i])
    ensures Tokens(Join(ws, " ")) == ws
  {
    if |ws| == 1 {
      TokensOfWord(ws[0]);
    } else if |ws| > 1 {
      TokensOfWords(ws[1..]);
      TokensOfWord(ws[0]);
      assert Join(ws, " ") == ws[0] + [' '] + Join(ws[1..], " ");
      TokensSplit(ws[0], ' ', Join(ws[1..], " "));
      assert ws == [ws[0]] + ws[1..];
    }
  }

  // ---------------------------------------------------------------- GROUP BY

  /** `GROUP` followed by `BY` at token `i`, compared case-sensitively. */
  predicate GroupByPair(ts: seq<string>, i: int) {
    0 <= i && i + 1 < |ts| && ts[i] == "GROUP" && ts[i + 1] == "BY"
  }

  /** The pair pushed for a grouping field: its part before the first `->`, and the field itself. */
  function FieldPair(f: string): (r: (string, string))
    ensures r.1 == f && StartsWith(f, r.0)
    ensures !Contains(f, "->") ==> r.0 == f
  {
    match IndexOf(f, "->")
    case None => (f, f)
    case Some(k) => (f[..k], f)
  }

  /**
    The token loop from `i`: every `GROUP BY` pair pushes the pair of the token after it; a pair
    with nothing after it reads `contains` of `undefined` and throws.
  */
  function GroupByScan(ts: seq<string>, i: nat, fields: seq<(string, string)>): (r: Result<seq<(string, string)>>)
    requires i <= |ts|
    ensures r.Success? ==> |fields| <= |r.value| && r.value[..|fields|] == fields
    decreases |ts| - i
  {
    if i == |ts| then Success(fields)
    else if GroupByPair(ts, i) then
      if i + 2 == |ts| then Failure("TypeError: Cannot read properties of undefined (reading 'contains')")
      else GroupByScan(ts, i + 1, fields + [FieldPair(ts[i + 2])])
    else GroupByScan(ts, i + 1, fields)
  }

  /**
    The loop throws exactly when the tokens end in `GROUP BY`; otherwise it collects a pair for
    every `GROUP BY`, so it has one exactly when some pair exists, and the first is that of the
    field after the first pair.
  */
  lemma {:induction false} GroupByScanSpec(ts: seq<string>, i: nat, fields: seq<(string, string)>)
    requires i <= |ts|
    ensures GroupByScan(ts, i, fields).Failure? <==> (|ts| >= i + 2 && GroupByPair(ts, |ts| - 2))
    ensures GroupByScan(ts, i, fields).Success? ==>
      var r := GroupByScan(ts, i, fields).value;
      && (|r| > |fields| <==> exists k :: i <= k && GroupByPair(ts, k))
      && forall k :: i <= k && GroupByPair(ts, k) && (forall j :: i <= j < k ==> !GroupByPair(ts, j)) ==>
           r[|fields|] == FieldPair(ts[k + 2])
    decreases |ts| - i
  {
    if i < |ts| {
      if GroupByPair(ts, i) {
        if i + 2 < |ts| {
          GroupByScanSpec(ts, i + 1, fields + [FieldPair(ts[i + 2])]);
          var r := GroupByScan(ts, i, fields);
          if r.Success? {
            assert r.value[..|fields| + 1] == fields + [FieldPair(ts[i + 2])];
            assert r.value[|fields|] == (fields + [FieldPair(ts[i + 2])])[|fields|];
          }
        }
      } else {
        GroupByScanSpec(ts, i + 1, fields);
      }
    }
  }

  /** What the rewrite leaves: the source to run, whether it can group, and the grouping fields found. */
  datatype Rewritten = Rewritten(source: string, groupingPossible: bool, groupByFields: seq<(string, string)>)

  /** `SELECT * FROM ?`. */
  const QueryPrefix := "SELECT * FROM ?"

  /**
    The rewrite both constructors apply to the source without its comment lines. A source with a
    line starting `SELECT` has its table pointed at `?`; any other gets the projection on its
    first `GROUP BY` field when grouping is possible and one is found, and the plain prefix
    otherwise. The token loop can throw.
  */
  function Rewrite(source: string): (r: Result<Rewritten>)
    ensures r.Success? ==> r.value.groupingPossible == HasGroupBy(source)
    ensures HasSelect(source) ==> r == Success(Rewritten(PointAtTable(source), HasGroupBy(source), []))
    ensures !HasSelect(source) && r.Success? && r.value.groupByFields == [] ==> r.value.source == QueryPrefix + " " + source
    ensures !HasSelect(source) && r.Success? && r.value.groupByFields != [] ==>
      r.value.source == "SELECT " + r.value.groupByFields[0].1 + " AS " + r.value.groupByFields[0].0 + ", ARRAY(_) AS tasks FROM ? " + source
  {
    var grouping := HasGroupBy(source);
    if HasSelect(source) then Success(Rewritten(PointAtTable(source), grouping, []))
    else
      var tokens := Tokens(source);
      if grouping && tokens != [] then
        match GroupByScan(tokens, 0, [])
        case Failure(e) => Failure(e)
        case Success(fields) =>
          if fields != [] then
            Success(Rewritten("SELECT " + fields[0].1 + " AS " + fields[0].0 + ", ARRAY(_) AS tasks FROM ? " + source, grouping, fields))
          else Success(Rewritten(QueryPrefix + " " + source, grouping, fields))
      else Success(Rewritten(QueryPrefix + " " + source, grouping, []))
  }

  /**
    Without a `SELECT` line the rewrite throws exactly when grouping is possible and the tokens
    end in `GROUP BY`, and it projects on the field after the first `GROUP BY` whenever there is
    one and grouping is possible.
  */
  lemma RewriteGroupBy(source: string)
    requires !HasSelect(source)
    ensures var ts := Tokens(source);
      Rewrite(source).Failure? <==> HasGroupBy(source) && |ts| >= 2 && GroupByPair(ts, |ts| - 2)
    ensures var ts := Tokens(source);
      forall k :: HasGroupBy(source) && GroupByPair(ts, k) && (forall j :: 0 <= j < k ==> !GroupByPair(ts, j)) && Rewrite(source).Success? ==>
        Rewrite(source).value.groupByFields != [] && Rewrite(source).value.groupByFields[0] == FieldPair(ts[k + 2])
    ensures (!HasGroupBy(source) || forall k :: !GroupByPair(Tokens(source), k)) ==>
      Rewrite(source) == Success(Rewritten(QueryPrefix + " " + source, HasGroupBy(source), []))
  {
    GroupByScanSpec(Tokens(source), 0, []);
  }
}

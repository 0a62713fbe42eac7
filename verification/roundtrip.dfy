/**
  Decoding what the encoder writes. `toFileLineString` puts the trailing fields after the
  description in one fixed order; `fromLine` strips them from the end in another order and
  repeats until a pass strips nothing. This module proves that, for a description that does not
  itself end in something the suffix expressions accept, the decoder recovers every field.
*/
module RoundTrip {
  import opened Wrappers
  import opened Text
  import opened Dates
  import opened Statuses
  import opened Tasks
  import Properties
  import opened TaskLine

  // ---------------------------------------------------------------- tokens

  /** One trailing field as the encoder writes it. */
  datatype Token = PriorityToken(priority: Priority) | RuleToken(text: string) | DateToken(field: DateField, date: Date)

  /** The marker the encoder writes for a date field (the first of the field's markers). */
  function MarkerOf(f: DateField): (m: char)
    ensures m in Markers(f)
  {
    match f
    case StartField => StartMarker
    case ScheduledField => ScheduledMarker
    case DueField => DueMarker
    case DoneField => DoneMarker
  }

  function Render(k: Token): string
  {
    match k
    case PriorityToken(p) => PrioritySegment(p, false)
    case RuleToken(text) => [' ', RecurrenceMarker, ' '] + text
    case DateToken(f, d) => DateSegment(MarkerOf(f), Some(d), false, false)
  }

  /** A token the decoder can read back: a real priority, a trimmed rule of rule characters, a printable date. */
  predicate WellFormed(k: Token) {
    match k
    case PriorityToken(p) => p != NoPriority
    case RuleToken(text) => text != [] && IsTrimmed(text) && NoDoubleSpace(text) && forall i :: 0 <= i < |text| ==> IsRuleChar(text[i])
    case DateToken(_, d) => Printable(d)
  }

  function RenderAll(ks: seq<Token>): string
  {
    if ks == [] then "" else RenderAll(ks[..|ks| - 1]) + Render(ks[|ks| - 1])
  }

  lemma RenderAllAppend(a: seq<Token>, b: seq<Token>)
    ensures RenderAll(a + b) == RenderAll(a) + RenderAll(b)
  {
    forall ks: seq<Token>, k: Token
      ensures RenderAll(ks + [k]) == RenderAll(ks) + Render(k)
    {
      RenderAllSnoc(ks, k);
    }
    SnocAppend(a, b, RenderAll, Render);
  }

  /** A map from lists to texts that renders a list one element after another renders a concatenation piecewise. */
  lemma {:induction false} SnocAppend<T>(a: seq<T>, b: seq<T>, h: seq<T> -> string, f: T -> string)
    requires h([]) == ""
    requires forall ks: seq<T>, k: T :: h(ks + [k]) == h(ks) + f(k)
    ensures h(a + b) == h(a) + h(b)
    decreases |b|
  {
    if b == [] {
      assert a + b == a && h(a) + "" == h(a);
    } else {
      var b0, last := b[..|b| - 1], b[|b| - 1];
      assert b == b0 + [last];
      assert a + b == (a + b0) + [last];
      SnocAppend(a, b0, h, f);
      assert h(a + b) == (h(a) + h(b0)) + f(last);
      assert h(b) == h(b0) + f(last);
    }
  }

  lemma RenderAllSnoc(ks: seq<Token>, k: Token)
    ensures RenderAll(ks + [k]) == RenderAll(ks) + Render(k)
  {
    assert (ks + [k])[..|ks|] == ks;
  }

  // ---------------------------------------------------------------- spacing

  predicate NoDoubleSpace(s: string) {
    forall i :: 0 <= i < |s| - 1 ==> !(s[i] == ' ' && s[i + 1] == ' ')
  }

  /** A run of encoded fields: empty, or a space, then text without double spaces ending in a non-space. */
  predicate Spaced(w: string) {
    w == [] || (|w| >= 2 && w[0] == ' ' && !IsSpace(w[1]) && !IsSpace(w[|w| - 1]) && NoDoubleSpace(w))
  }

  /** Text that may stand first on a line: non-empty, trimmed, no double spaces. */
  predicate Solid(s: string) {
    s != [] && IsTrimmed(s) && NoDoubleSpace(s)
  }

  lemma SolidThenSpaced(x: string, w: string)
    requires Solid(x) && Spaced(w)
    ensures Solid(x + w)
  {
    var s := x + w;
    if w != [] {
      forall i | 0 <= i < |s| - 1
        ensures !(s[i] == ' ' && s[i + 1] == ' ')
      {
        if i < |x| - 1 {
          assert s[i] == x[i] && s[i + 1] == x[i + 1];
        } else if i == |x| - 1 {
          assert s[i] == x[|x| - 1] && !IsSpace(s[i]);
        } else {
          assert s[i] == w[i - |x|] && s[i + 1] == w[i - |x| + 1];
        }
      }
    } else {
      assert s == x;
    }
  }

  lemma SpacedConcat(a: string, b: string)
    requires Spaced(a) && Spaced(b)
    ensures Spaced(a + b)
  {
    if a == [] {
      assert a + b == b;
    } else if b == [] {
      assert a + b == a;
    } else {
      var s := a + b;
      forall i | 0 <= i < |s| - 1
        ensures !(s[i] == ' ' && s[i + 1] == ' ')
      {
        if i < |a| - 1 {
          assert s[i] == a[i] && s[i + 1] == a[i + 1];
        } else if i == |a| - 1 {
          assert s[i] == a[|a| - 1] && !IsSpace(s[i]);
        } else {
          assert s[i] == b[i - |a|] && s[i + 1] == b[i - |a| + 1];
        }
      }
    }
  }

  lemma RenderSpaced(k: Token)
    requires WellFormed(k)
    ensures Spaced(Render(k))
  {
    match k
    case PriorityToken(p) =>
    case RuleToken(text) => RuleSpaced(text);
    case DateToken(f, d) => DateSpaced(f, d);
  }

  lemma RuleSpaced(text: string)
    requires WellFormed(RuleToken(text))
    ensures Spaced(Render(RuleToken(text)))
  {
    var w := Render(RuleToken(text));
    forall i | 0 <= i < |w| - 1
      ensures !(w[i] == ' ' && w[i + 1] == ' ')
    {
      if i >= 3 {
        assert w[i] == text[i - 3] && w[i + 1] == text[i - 2];
      }
    }
  }

  lemma DateSpaced(f: DateField, d: Date)
    requires Printable(d)
    ensures Spaced(Render(DateToken(f, d)))
  {
    var w := Render(DateToken(f, d));
    var t := Format(d);
    ParseFormat(d);
    forall i | 0 <= i < |t|
      ensures t[i] != ' '
    {
      DateTextChar(t, i);
    }
    assert w == [' ', MarkerOf(f), ' '] + t;
    forall i | 0 <= i < |w| - 1
      ensures !(w[i] == ' ' && w[i + 1] == ' ')
    {
      if i >= 3 {
        assert w[i] == t[i - 3];
      }
    }
    assert !IsSpace(w[1]) by {
      MarkerNotSpace(f);
    }
    assert !IsSpace(w[|w| - 1]) by {
      DateTextChar(t, 9);
      assert w[|w| - 1] == t[9];
    }
  }

  lemma MarkerNotSpace(f: DateField)
    ensures !IsSpace(MarkerOf(f))
  {
  }

  /** Date text consists of digits and dashes. */
  lemma DateTextChar(t: string, i: nat)
    requires IsDateText(t) && i < |t|
    ensures IsDigit(t[i]) || t[i] == '-'
  {
    if i < 4 {
      assert t[..4][i] == t[i];
    } else if 5 <= i < 7 {
      assert t[5..7][i - 5] == t[i];
    } else if 8 <= i {
      assert t[8..][i - 8] == t[i];
    }
  }

  lemma {:induction false} RenderAllSpaced(ks: seq<Token>)
    requires forall i :: 0 <= i < |ks| ==> WellFormed(ks[i])
    ensures Spaced(RenderAll(ks))
    decreases |ks|
  {
    if ks != [] {
      RenderAllSpaced(ks[..|ks| - 1]);
      RenderSpaced(ks[|ks| - 1]);
      SpacedConcat(RenderAll(ks[..|ks| - 1]), Render(ks[|ks| - 1]));
    }
  }

  // ---------------------------------------------------------------- the suffix matchers on one token

  lemma RunStartAfter(s: string, p: char -> bool, j: nat)
    requires j < |s| && !p(s[j])
    requires forall i :: j < i < |s| ==> p(s[i])
    ensures RunStart(s, p) == j + 1
  {
  }

  lemma MarkerOfIn(f: DateField, g: DateField)
    ensures MarkerOf(g) in Markers(f) <==> f == g
  {
  }

  /** The last ten characters of a rendered date token are the formatted date. */
  lemma DateTokenTail(y: string, f: DateField, d: Date)
    requires Printable(d)
    ensures var s := y + Render(DateToken(f, d));
      |s| >= 13 && s[|s| - 10..] == Format(d) && s[|s| - 11] == ' ' && s[|s| - 12] == MarkerOf(f) && s[|s| - 13] == ' '
      && IsDateText(s[|s| - 10..]) && Parse(s[|s| - 10..]) == d
  {
    var s := y + Render(DateToken(f, d));
    ParseFormat(d);
    assert Render(DateToken(f, d)) == [' ', MarkerOf(f), ' '] + Format(d);
    assert s[|s| - 10..] == Format(d);
  }

  /** The priority expression reads exactly a priority token. */
  lemma PriorityOnToken(y: string, k: Token)
    requires WellFormed(k)
    ensures MatchPriority(y + Render(k)) == if k.PriorityToken? then Some(k.priority) else None
  {
    var s := y + Render(k);
    match k
    case PriorityToken(p) =>
    case RuleToken(text) =>
      assert s[|s| - 1] == text[|text| - 1];
      assert IsRuleChar(s[|s| - 1]);
    case DateToken(f, d) =>
      DateTokenTail(y, f, d);
      DateTextChar(s[|s| - 10..], 9);
  }

  /** A date expression reads exactly a date token of its own field. */
  lemma DateOnToken(y: string, k: Token, f: DateField)
    requires WellFormed(k)
    ensures MatchDateSuffix(y + Render(k), Markers(f)) ==
      if k.DateToken? && k.field == f then Some((|y| + 1, k.date)) else None
  {
    match k
    case PriorityToken(p) => DateOnPriority(y, p, f);
    case RuleToken(text) => DateOnRule(y, text, f);
    case DateToken(g, d) => DateOnDate(y, g, d, f);
  }

  lemma DateOnDate(y: string, g: DateField, d: Date, f: DateField)
    requires Printable(d)
    ensures MatchDateSuffix(y + Render(DateToken(g, d)), Markers(f)) == if f == g then Some((|y| + 1, d)) else None
  {
    var s := y + Render(DateToken(g, d));
    var n := |s|;
    assert n == |y| + 13 && IsDateText(s[n - 10..]) && Parse(s[n - 10..]) == d
      && s[n - 11] == ' ' && s[n - 12] == MarkerOf(g) by {
      DateTokenTail(y, g, d);
    }
    assert MarkerOf(g) in Markers(f) <==> f == g by {
      MarkerOfIn(f, g);
    }
  }

  lemma DateOnPriority(y: string, p: Priority, f: DateField)
    requires p != NoPriority
    ensures MatchDateSuffix(y + Render(PriorityToken(p)), Markers(f)).None?
  {
    var s := y + Render(PriorityToken(p));
    if |s| >= 11 {
      assert s[|s| - 10..][9] == s[|s| - 1];
    }
  }

  lemma DateOnRule(y: string, text: string, f: DateField)
    requires WellFormed(RuleToken(text))
    ensures MatchDateSuffix(y + Render(RuleToken(text)), Markers(f)).None?
  {
    var s := y + Render(RuleToken(text));
    var c := s[|s| - 3];
    assert c == ' ' || c == RecurrenceMarker || IsRuleChar(c) by {
      if |text| >= 3 {
        assert c == text[|text| - 3];
      }
    }
    if |s| >= 11 {
      assert s[|s| - 10..][7] == c;
    }
  }

  /** The recurrence expression reads exactly a rule token, capturing its text. */
  lemma RecurrenceOnToken(y: string, k: Token)
    requires WellFormed(k)
    ensures MatchRecurrence(y + Render(k)) == if k.RuleToken? then Some((|y| + 1, k.text)) else None
  {
    var s := y + Render(k);
    match k
    case PriorityToken(p) =>
      RunStartAfter(s, IsRuleChar, |s| - 1);
    case RuleToken(text) => RecurrenceOnRule(y, text);
    case DateToken(g, d) => RecurrenceOnDate(y, g, d);
  }

  lemma RecurrenceOnRule(y: string, text: string)
    requires WellFormed(RuleToken(text))
    ensures MatchRecurrence(y + Render(RuleToken(text))) == Some((|y| + 1, text))
  {
    var s := y + Render(RuleToken(text));
    forall i | |y| + 1 < i < |s|
      ensures IsRuleChar(s[i])
    {
      if i > |y| + 2 {
        assert s[i] == text[i - |y| - 3];
      }
    }
    RunStartAfter(s, IsRuleChar, |y| + 1);
    assert s[|y| + 3..] == text;
  }

  lemma RecurrenceOnDate(y: string, g: DateField, d: Date)
    requires Printable(d)
    ensures MatchRecurrence(y + Render(DateToken(g, d))).None?
  {
    var s := y + Render(DateToken(g, d));
    DateTokenTail(y, g, d);
    var t := s[|s| - 10..];
    DateTextChar(t, 8);
    DateTextChar(t, 9);
    assert t[7] == '-';
    assert s[|s| - 2] == t[8] && s[|s| - 1] == t[9] && s[|s| - 3] == t[7];
    RunStartAfter(s, IsRuleChar, |s| - 3);
  }

  /** No block link ends a text whose tail from `j` holds no `^` and starts with a non-id character. */
  lemma NoBlockLinkAfter(s: string, j: nat)
    requires j < |s| && !IsIdChar(s[j]) && s[j] != '^'
    requires forall i :: j < i < |s| ==> s[i] != '^'
    ensures MatchBlockLink(s).None?
  {
  }

  lemma BlockLinkOnToken(y: string, k: Token)
    requires WellFormed(k)
    ensures MatchBlockLink(y + Render(k)).None?
  {
    var r := Render(k);
    var s := y + r;
    RenderNoCaret(k);
    forall i | |y| < i < |s|
      ensures s[i] != '^'
    {
      assert s[i] == r[i - |y|];
    }
    assert s[|y|] == r[0] == ' ';
    NoBlockLinkAfter(s, |y|);
  }

  /** A rendered token is a space and then no `^`. */
  lemma RenderNoCaret(k: Token)
    requires WellFormed(k)
    ensures var r := Render(k); |r| >= 2 && r[0] == ' ' && forall i :: 0 < i < |r| ==> r[i] != '^'
  {
    match k
    case PriorityToken(p) =>
    case RuleToken(text) => RuleNoCaret(text);
    case DateToken(g, d) => DateNoCaret(g, d);
  }

  lemma RuleNoCaret(text: string)
    requires forall i :: 0 <= i < |text| ==> IsRuleChar(text[i])
    ensures var r := [' ', RecurrenceMarker, ' '] + text; forall i :: 0 < i < |r| ==> r[i] != '^'
  {
    var r := [' ', RecurrenceMarker, ' '] + text;
    forall i | 2 < i < |r|
      ensures r[i] != '^'
    {
      assert r[i] == text[i - 3] && IsRuleChar(text[i - 3]);
    }
  }

  lemma DateNoCaret(g: DateField, d: Date)
    requires Printable(d)
    ensures var r := Render(DateToken(g, d)); |r| >= 2 && r[0] == ' ' && forall i :: 0 < i < |r| ==> r[i] != '^'
  {
    var r := Render(DateToken(g, d));
    DateTokenTail([], g, d);
    assert [] + r == r;
    var t := r[|r| - 10..];
    forall i | 2 < i < |r|
      ensures r[i] != '^'
    {
      DateTextChar(t, i - 3);
      assert t[i - 3] == r[i];
    }
  }

  /** The block link expression reads an appended ` ^id`. */
  lemma BlockLinkOf(y: string, id: string)
    requires id != [] && forall i :: 0 <= i < |id| ==> IsIdChar(id[i])
    ensures MatchBlockLink(y + " ^" + id) == Some(|y|)
  {
    var s := y + " ^" + id;
    forall i | |y| + 1 < i < |s|
      ensures IsIdChar(s[i])
    {
      assert s[i] == id[i - |y| - 2];
    }
    RunStartAfter(s, IsIdChar, |y| + 1);
  }

  // ---------------------------------------------------------------- the loop state

  /**
    A description the suffix expressions leave alone: it stands first on a line and none of the
    end-anchored expressions, nor the block link, matches it.
  */
  predicate Inert(desc: string) {
    && Solid(desc)
    && MatchPriority(desc).None?
    && (forall f: DateField :: MatchDateSuffix(desc, Markers(f)).None?)
    && MatchRecurrence(desc).None?
    && MatchBlockLink(desc).None?
  }

  predicate AllWellFormed(ks: seq<Token>) {
    forall i :: 0 <= i < |ks| ==> WellFormed(ks[i])
  }

  function Gap(sp: bool): string {
    if sp then " " else ""
  }

  /** The description followed by the tokens; `sp` is the extra space a removed created date leaves. */
  function Prefix(desc: string, sp: bool, ks: seq<Token>): string {
    desc + Gap(sp) + RenderAll(ks)
  }

  /** What the loop sees: the description alone once every token is gone (the stripping trims). */
  function St(desc: string, sp: bool, ks: seq<Token>): string {
    if ks == [] then desc else Prefix(desc, sp, ks)
  }

  lemma Decompose(desc: string, sp: bool, pre: seq<Token>, k: Token)
    ensures St(desc, sp, pre + [k]) == Prefix(desc, sp, pre) + Render(k)
  {
    assert (pre + [k])[..|pre + [k]| - 1] == pre;
  }

  /** Stripping a token and trimming leaves the state of the remaining tokens. */
  lemma TrimGap(desc: string, sp: bool, pre: seq<Token>)
    requires Solid(desc) && AllWellFormed(pre)
    ensures Trim(Prefix(desc, sp, pre) + " ") == St(desc, sp, pre)
  {
    if pre == [] {
      assert Prefix(desc, sp, pre) + " " == desc + (Gap(sp) + " ");
      TrimSpaceSuffix(desc, Gap(sp) + " ");
    } else {
      var w := RenderAll(pre);
      RenderAllSpaced(pre);
      var x := Prefix(desc, sp, pre);
      assert x[0] == desc[0];
      assert x[|x| - 1] == w[|w| - 1];
      TrimSpaceSuffix(x, " ");
    }
  }

  lemma AllWellFormedParts(pre: seq<Token>, slot: seq<Token>)
    requires AllWellFormed(pre + slot)
    ensures AllWellFormed(pre) && AllWellFormed(slot)
  {
    assert forall i :: 0 <= i < |pre| ==> pre[i] == (pre + slot)[i];
    assert forall i :: 0 <= i < |slot| ==> slot[i] == (pre + slot)[|pre| + i];
  }

  /** The state as a prefix and its last token. */
  lemma LastToken(desc: string, sp: bool, ks: seq<Token>)
    requires ks != []
    ensures St(desc, sp, ks) == Prefix(desc, sp, ks[..|ks| - 1]) + Render(ks[|ks| - 1])
    ensures AllWellFormed(ks) ==> WellFormed(ks[|ks| - 1])
  {
    assert ks == ks[..|ks| - 1] + [ks[|ks| - 1]];
    Decompose(desc, sp, ks[..|ks| - 1], ks[|ks| - 1]);
  }

  /** Stripping the last token `k` at `|x| + 1` leaves the state of the tokens before it. */
  lemma StripLast(desc: string, sp: bool, pre: seq<Token>, k: Token)
    requires Solid(desc) && AllWellFormed(pre) && WellFormed(k)
    ensures var s := St(desc, sp, pre + [k]);
      |Prefix(desc, sp, pre)| + 1 <= |s| && Trim(s[..|Prefix(desc, sp, pre)| + 1]) == St(desc, sp, pre)
  {
    CutState(desc, sp, pre, k);
    TrimGap(desc, sp, pre);
  }

  lemma CutState(desc: string, sp: bool, pre: seq<Token>, k: Token)
    requires WellFormed(k)
    ensures var x := Prefix(desc, sp, pre); var s := St(desc, sp, pre + [k]);
      |x| + 1 <= |s| && s[..|x| + 1] == x + " "
  {
    Decompose(desc, sp, pre, k);
    RenderSpaced(k);
    CutAfter(Prefix(desc, sp, pre), Render(k));
  }

  lemma CutAfter(x: string, w: string)
    requires w != [] && w[0] == ' '
    ensures |x| + 1 <= |x + w| && (x + w)[..|x| + 1] == x + " "
  {
    assert (x + w)[..|x| + 1] == x + [w[0]];
  }

  /** A date step changes nothing when the last token is not its field's. */
  lemma StepDateKeeps(desc: string, sp: bool, ks: seq<Token>, found: Found, m: bool, f: DateField)
    requires Inert(desc) && AllWellFormed(ks)
    requires ks != [] ==> !(ks[|ks| - 1].DateToken? && ks[|ks| - 1].field == f)
    ensures StepDate(Scan(St(desc, sp, ks), found, m), f) == Scan(St(desc, sp, ks), found, m)
  {
    if ks != [] {
      LastToken(desc, sp, ks);
      DateOnToken(Prefix(desc, sp, ks[..|ks| - 1]), ks[|ks| - 1], f);
    }
  }

  /** A date step strips its field's token when it is last. */
  lemma StepDateStrips(desc: string, sp: bool, pre: seq<Token>, d: Date, found: Found, m: bool, f: DateField)
    requires Solid(desc) && AllWellFormed(pre) && Printable(d)
    ensures StepDate(Scan(St(desc, sp, pre + [DateToken(f, d)]), found, m), f)
      == Scan(St(desc, sp, pre), SetDate(found, f, d), true)
  {
    Decompose(desc, sp, pre, DateToken(f, d));
    DateOnToken(Prefix(desc, sp, pre), DateToken(f, d), f);
    StripLast(desc, sp, pre, DateToken(f, d));
  }

  /** The priority step changes nothing when the last token is not a priority. */
  lemma StepPriorityKeeps(desc: string, sp: bool, ks: seq<Token>, found: Found, m: bool)
    requires Inert(desc) && AllWellFormed(ks)
    requires ks != [] ==> !ks[|ks| - 1].PriorityToken?
    ensures StepPriority(Scan(St(desc, sp, ks), found, m)) == Scan(St(desc, sp, ks), found, m)
  {
    if ks != [] {
      LastToken(desc, sp, ks);
      PriorityOnToken(Prefix(desc, sp, ks[..|ks| - 1]), ks[|ks| - 1]);
    }
  }

  /** The priority step strips a priority that is last. */
  lemma StepPriorityStrips(desc: string, sp: bool, pre: seq<Token>, p: Priority, found: Found, m: bool)
    requires Solid(desc) && AllWellFormed(pre) && p != NoPriority
    ensures StepPriority(Scan(St(desc, sp, pre + [PriorityToken(p)]), found, m))
      == Scan(St(desc, sp, pre), found.(priority := p), true)
  {
    var x := Prefix(desc, sp, pre);
    var s := St(desc, sp, pre + [PriorityToken(p)]);
    Decompose(desc, sp, pre, PriorityToken(p));
    assert |Render(PriorityToken(p))| == 2;
    assert |s| - 1 == |x| + 1;
    PriorityOnToken(x, PriorityToken(p));
    assert MatchPriority(s) == Some(p);
    StripLast(desc, sp, pre, PriorityToken(p));
    assert Trim(s[..|s| - 1]) == St(desc, sp, pre);
  }

  /** The recurrence step changes nothing when the last token is not a rule. */
  lemma StepRecurrenceKeeps(desc: string, sp: bool, ks: seq<Token>, found: Found, m: bool, svc: RecurrenceService)
    requires Inert(desc) && AllWellFormed(ks)
    requires ks != [] ==> !ks[|ks| - 1].RuleToken?
    ensures StepRecurrence(Scan(St(desc, sp, ks), found, m), svc) == Scan(St(desc, sp, ks), found, m)
  {
    if ks != [] {
      LastToken(desc, sp, ks);
      RecurrenceOnToken(Prefix(desc, sp, ks[..|ks| - 1]), ks[|ks| - 1]);
    }
  }

  /** The recurrence step strips a rule that is last and reads it with the dates found so far. */
  lemma StepRecurrenceStrips(desc: string, sp: bool, pre: seq<Token>, text: string, found: Found, m: bool, svc: RecurrenceService)
    requires Solid(desc) && AllWellFormed(pre) && WellFormed(RuleToken(text))
    ensures StepRecurrence(Scan(St(desc, sp, pre + [RuleToken(text)]), found, m), svc)
      == Scan(St(desc, sp, pre), found.(recurrence := svc.fromText(text, found.startDate, found.scheduledDate, found.dueDate)), true)
  {
    Decompose(desc, sp, pre, RuleToken(text));
    RecurrenceOnToken(Prefix(desc, sp, pre), RuleToken(text));
    StripLast(desc, sp, pre, RuleToken(text));
    TrimOfTrimmed(text);
  }

  // ---------------------------------------------------------------- one pass

  /** The six steps of a pass, in the decoder's order. */
  datatype Step = PriorityStep | DateStep(field: DateField) | RuleStep

  function Apply(st: Step, s: Scan, svc: RecurrenceService): Scan
  {
    match st
    case PriorityStep => StepPriority(s)
    case DateStep(f) => StepDate(s, f)
    case RuleStep => StepRecurrence(s, svc)
  }

  /** The tokens a step's expression reads. */
  predicate Claims(st: Step, k: Token) {
    match st
    case PriorityStep => k.PriorityToken?
    case DateStep(f) => k.DateToken? && k.field == f
    case RuleStep => k.RuleToken?
  }

  /** What a step records for the token it strips. */
  function Record(found: Found, k: Token, svc: RecurrenceService): Found
  {
    match k
    case PriorityToken(p) => found.(priority := p)
    case DateToken(f, d) => SetDate(found, f, d)
    case RuleToken(text) => found.(recurrence := svc.fromText(text, found.startDate, found.scheduledDate, found.dueDate))
  }

  /** Records the slot's token, if any. */
  function Put(found: Found, slot: seq<Token>, svc: RecurrenceService): Found
    requires |slot| <= 1
  {
    if slot == [] then found else Record(found, slot[0], svc)
  }

  /** A slot of the encoded line: at most one token, and one the given step reads. */
  predicate Slot(st: Step, slot: seq<Token>) {
    |slot| <= 1 && AllWellFormed(slot) && forall i :: 0 <= i < |slot| ==> Claims(st, slot[i])
  }

  /**
    One step on a state whose last slot belongs to it: a filled slot is stripped and recorded,
    an empty one leaves the state as it is when the token before it is not the step's.
  */
  lemma SlotStep(desc: string, sp: bool, pre: seq<Token>, slot: seq<Token>, found: Found, m: bool, st: Step, svc: RecurrenceService)
    requires Inert(desc) && AllWellFormed(pre) && Slot(st, slot) && Unclaimed(st, pre)
    ensures Apply(st, Scan(St(desc, sp, pre + slot), found, m), svc)
      == Scan(St(desc, sp, pre), Put(found, slot, svc), m || slot != [])
  {
    if slot == [] {
      assert pre + slot == pre;
      assert pre != [] ==> pre[|pre| - 1] in pre;
      match st
      case PriorityStep => StepPriorityKeeps(desc, sp, pre, found, m);
      case DateStep(f) => StepDateKeeps(desc, sp, pre, found, m, f);
      case RuleStep => StepRecurrenceKeeps(desc, sp, pre, found, m, svc);
    } else {
      assert slot == [slot[0]];
      match slot[0]
      case PriorityToken(p) => StepPriorityStrips(desc, sp, pre, p, found, m);
      case DateToken(f, d) => StepDateStrips(desc, sp, pre, d, found, m, f);
      case RuleToken(text) => StepRecurrenceStrips(desc, sp, pre, text, found, m, svc);
    }
  }

  /** No token of `ks` is read by the step. */
  predicate Unclaimed(st: Step, ks: seq<Token>) {
    forall k :: k in ks ==> !Claims(st, k)
  }

  /**
    The trailing fields of an encoded line, one slot per field in the encoder's order: priority,
    recurrence, start, scheduled, due, done.
  */
  datatype Trail = Trail(p: seq<Token>, r: seq<Token>, s: seq<Token>, sc: seq<Token>, du: seq<Token>, dn: seq<Token>)

  predicate TrailOk(tr: Trail) {
    && Slot(PriorityStep, tr.p) && Slot(RuleStep, tr.r) && Slot(DateStep(StartField), tr.s)
    && Slot(DateStep(ScheduledField), tr.sc) && Slot(DateStep(DueField), tr.du) && Slot(DateStep(DoneField), tr.dn)
  }

  /** Everything after the priority slot. */
  function Tail(tr: Trail): seq<Token> {
    tr.r + tr.s + tr.sc + tr.du + tr.dn
  }

  function Tokens(tr: Trail): seq<Token> {
    tr.p + tr.r + tr.s + tr.sc + tr.du + tr.dn
  }

  /** The fields the decoder records: the dates first, then the rule read with them, then the priority. */
  function Collect(tr: Trail, svc: RecurrenceService): Found
    requires TrailOk(tr)
  {
    Put(Put(Put(Put(Put(Put(NothingFound, tr.dn, svc), tr.du, svc), tr.sc, svc), tr.s, svc), tr.r, svc), tr.p, svc)
  }

  lemma TrailWellFormed(tr: Trail)
    requires TrailOk(tr)
    ensures AllWellFormed(tr.p) && AllWellFormed(tr.p + tr.r) && AllWellFormed(tr.p + tr.r + tr.s)
    ensures AllWellFormed(tr.p + tr.r + tr.s + tr.sc) && AllWellFormed(tr.p + tr.r + tr.s + tr.sc + tr.du)
    ensures AllWellFormed(Tokens(tr))
  {
    assert forall k :: k in Tokens(tr) ==> WellFormed(k);
  }

  /** A pass over a state holding only the priority slot strips it, and nothing else matches. */
  lemma PassPriorityOnly(desc: string, sp: bool, p: seq<Token>, found: Found, svc: RecurrenceService)
    requires Inert(desc) && Slot(PriorityStep, p)
    ensures Pass(St(desc, sp, p), found, svc) == Scan(desc, Put(found, p, svc), p != [])
  {
    var e: seq<Token> := [];
    assert e + p == p && e + e == e;
    SlotStep(desc, sp, e, p, found, false, PriorityStep, svc);
    var f := Put(found, p, svc);
    SlotStep(desc, sp, e, e, f, p != [], DateStep(DoneField), svc);
    SlotStep(desc, sp, e, e, f, p != [], DateStep(DueField), svc);
    SlotStep(desc, sp, e, e, f, p != [], DateStep(ScheduledField), svc);
    SlotStep(desc, sp, e, e, f, p != [], DateStep(StartField), svc);
    SlotStep(desc, sp, e, e, f, p != [], RuleStep, svc);
  }

  /**
    A pass over the whole encoded trail with something after the priority: the priority stays
    (it is not last), and the done, due, scheduled, start and recurrence slots are stripped in turn.
  */
  lemma PassFull(desc: string, sp: bool, tr: Trail, found: Found, svc: RecurrenceService)
    requires Inert(desc) && TrailOk(tr) && Tail(tr) != []
    ensures Pass(St(desc, sp, Tokens(tr)), found, svc)
      == Scan(St(desc, sp, tr.p), Put(Put(Put(Put(Put(found, tr.dn, svc), tr.du, svc), tr.sc, svc), tr.s, svc), tr.r, svc), true)
  {
    var fd := Put(Put(Put(Put(found, tr.dn, svc), tr.du, svc), tr.sc, svc), tr.s, svc);
    var m := tr.s + tr.sc + tr.du + tr.dn != [];
    var s5 := Scan(St(desc, sp, tr.p + tr.r), fd, m);
    assert DateSteps(StepPriority(Scan(St(desc, sp, Tokens(tr)), found, false))) == s5 by {
      PriorityKeepsOnTrail(desc, sp, tr, found, svc);
      DatesOnTrail(desc, sp, tr, found, svc);
    }
    PassFromSteps(St(desc, sp, Tokens(tr)), found, svc, s5);
    TrailWellFormed(tr);
    TrailUnclaimed(tr);
    SlotStep(desc, sp, tr.p, tr.r, fd, m, RuleStep, svc);
    assert m || tr.r != [] by {
      assert |Tail(tr)| == |tr.r| + |tr.s + tr.sc + tr.du + tr.dn|;
    }
  }

  /** The done, due, scheduled and start steps of a pass, in that order. */
  function DateSteps(sc: Scan): Scan {
    StepDate(StepDate(StepDate(StepDate(sc, DoneField), DueField), ScheduledField), StartField)
  }

  /** A pass is the recurrence step after the priority and date steps. */
  lemma PassFromSteps(d: string, found: Found, svc: RecurrenceService, s5: Scan)
    requires DateSteps(StepPriority(Scan(d, found, false))) == s5
    ensures Pass(d, found, svc) == StepRecurrence(s5, svc)
  {
  }

  /** The priority, not last when the tail is non-empty, is left for a later pass. */
  lemma PriorityKeepsOnTrail(desc: string, sp: bool, tr: Trail, found: Found, svc: RecurrenceService)
    requires Inert(desc) && TrailOk(tr) && Tail(tr) != []
    ensures StepPriority(Scan(St(desc, sp, Tokens(tr)), found, false)) == Scan(St(desc, sp, Tokens(tr)), found, false)
  {
    TrailWellFormed(tr);
    var ks := Tokens(tr);
    assert ks == tr.p + Tail(tr);
    assert ks[|ks| - 1] == Tail(tr)[|Tail(tr)| - 1];
    assert Tail(tr)[|Tail(tr)| - 1] in Tail(tr);
    StepPriorityKeeps(desc, sp, ks, found, false);
  }

  /** The done, due, scheduled and start steps strip their slots from the end in turn. */
  lemma DatesOnTrail(desc: string, sp: bool, tr: Trail, found: Found, svc: RecurrenceService)
    requires Inert(desc) && TrailOk(tr)
    ensures StepDate(StepDate(StepDate(StepDate(Scan(St(desc, sp, Tokens(tr)), found, false), DoneField), DueField), ScheduledField), StartField)
      == Scan(St(desc, sp, tr.p + tr.r), Put(Put(Put(Put(found, tr.dn, svc), tr.du, svc), tr.sc, svc), tr.s, svc),
              tr.s + tr.sc + tr.du + tr.dn != [])
  {
    var f1 := Put(found, tr.dn, svc);
    var m1 := tr.dn != [];
    DoneOnTrail(desc, sp, tr, found, svc);
    var f2 := Put(f1, tr.du, svc);
    var m2 := m1 || tr.du != [];
    DueOnTrail(desc, sp, tr, f1, m1, svc);
    var f3 := Put(f2, tr.sc, svc);
    var m3 := m2 || tr.sc != [];
    ScheduledOnTrail(desc, sp, tr, f2, m2, svc);
    StartOnTrail(desc, sp, tr, f3, m3, svc);
    assert m3 || tr.s != [] <==> tr.s + tr.sc + tr.du + tr.dn != [] by {
      assert |tr.s + tr.sc + tr.du + tr.dn| == |tr.s| + |tr.sc| + |tr.du| + |tr.dn|;
    }
  }

  lemma DoneOnTrail(desc: string, sp: bool, tr: Trail, found: Found, svc: RecurrenceService)
    requires Inert(desc) && TrailOk(tr)
    ensures StepDate(Scan(St(desc, sp, Tokens(tr)), found, false), DoneField)
      == Scan(St(desc, sp, tr.p + tr.r + tr.s + tr.sc + tr.du), Put(found, tr.dn, svc), tr.dn != [])
  {
    TrailWellFormed(tr);
    TrailUnclaimed(tr);
    DateSlotStep(desc, sp, tr.p + tr.r + tr.s + tr.sc + tr.du, tr.dn, found, false, DoneField, svc);
  }

  lemma DueOnTrail(desc: string, sp: bool, tr: Trail, found: Found, m: bool, svc: RecurrenceService)
    requires Inert(desc) && TrailOk(tr)
    ensures StepDate(Scan(St(desc, sp, tr.p + tr.r + tr.s + tr.sc + tr.du), found, m), DueField)
      == Scan(St(desc, sp, tr.p + tr.r + tr.s + tr.sc), Put(found, tr.du, svc), m || tr.du != [])
  {
    TrailWellFormed(tr);
    TrailUnclaimed(tr);
    DateSlotStep(desc, sp, tr.p + tr.r + tr.s + tr.sc, tr.du, found, m, DueField, svc);
  }

  lemma ScheduledOnTrail(desc: string, sp: bool, tr: Trail, found: Found, m: bool, svc: RecurrenceService)
    requires Inert(desc) && TrailOk(tr)
    ensures StepDate(Scan(St(desc, sp, tr.p + tr.r + tr.s + tr.sc), found, m), ScheduledField)
      == Scan(St(desc, sp, tr.p + tr.r + tr.s), Put(found, tr.sc, svc), m || tr.sc != [])
  {
    TrailWellFormed(tr);
    TrailUnclaimed(tr);
    DateSlotStep(desc, sp, tr.p + tr.r + tr.s, tr.sc, found, m, ScheduledField, svc);
  }

  lemma StartOnTrail(desc: string, sp: bool, tr: Trail, found: Found, m: bool, svc: RecurrenceService)
    requires Inert(desc) && TrailOk(tr)
    ensures StepDate(Scan(St(desc, sp, tr.p + tr.r + tr.s), found, m), StartField)
      == Scan(St(desc, sp, tr.p + tr.r), Put(found, tr.s, svc), m || tr.s != [])
  {
    TrailWellFormed(tr);
    TrailUnclaimed(tr);
    DateSlotStep(desc, sp, tr.p + tr.r, tr.s, found, m, StartField, svc);
  }

  /** `SlotStep` for a date step. */
  lemma DateSlotStep(desc: string, sp: bool, pre: seq<Token>, slot: seq<Token>, found: Found, m: bool, f: DateField, svc: RecurrenceService)
    requires Inert(desc) && AllWellFormed(pre) && Slot(DateStep(f), slot) && Unclaimed(DateStep(f), pre)
    ensures StepDate(Scan(St(desc, sp, pre + slot), found, m), f) == Scan(St(desc, sp, pre), Put(found, slot, svc), m || slot != [])
  {
    SlotStep(desc, sp, pre, slot, found, m, DateStep(f), svc);
  }

  /** Each step's slot is the only place in the trail holding a token that step reads. */
  lemma TrailUnclaimed(tr: Trail)
    requires TrailOk(tr)
    ensures Unclaimed(DateStep(DoneField), tr.p + tr.r + tr.s + tr.sc + tr.du)
    ensures Unclaimed(DateStep(DueField), tr.p + tr.r + tr.s + tr.sc)
    ensures Unclaimed(DateStep(ScheduledField), tr.p + tr.r + tr.s)
    ensures Unclaimed(DateStep(StartField), tr.p + tr.r)
    ensures Unclaimed(RuleStep, tr.p)
  {
  }



  // ---------------------------------------------------------------- the loop

  /**
    The suffix loop recovers every trailing field of an encoded trail and leaves exactly the
    description, whatever slots are filled: at most three passes are needed.
  */
  lemma LoopRecovers(desc: string, sp: bool, tr: Trail, svc: RecurrenceService)
    requires Inert(desc) && TrailOk(tr)
    ensures var r := StripLoop(St(desc, sp, Tokens(tr)), NothingFound, 0, svc);
      r.description == desc && r.found == Collect(tr, svc) && r.passes <= 3
  {
    var e: seq<Token> := [];
    var start := St(desc, sp, Tokens(tr));
    var fp := Put(Collect(tr, svc), e, svc);
    assert St(desc, sp, e) == desc;
    if Tail(tr) == [] {
      assert Tokens(tr) == tr.p;
      PassPriorityOnly(desc, sp, tr.p, NothingFound, svc);
      var f := Put(NothingFound, tr.p, svc);
      if tr.p != [] {
        PassPriorityOnly(desc, sp, e, f, svc);
        LoopMatched(start, NothingFound, 0, svc, desc, f);
        LoopDone(desc, f, 1, svc, desc, f);
      } else {
        LoopDone(start, NothingFound, 0, svc, desc, f);
      }
    } else {
      PassFull(desc, sp, tr, NothingFound, svc);
      var f5 := Put(Put(Put(Put(Put(NothingFound, tr.dn, svc), tr.du, svc), tr.sc, svc), tr.s, svc), tr.r, svc);
      var mid := St(desc, sp, tr.p);
      LoopMatched(start, NothingFound, 0, svc, mid, f5);
      PassPriorityOnly(desc, sp, tr.p, f5, svc);
      var f6 := Put(f5, tr.p, svc);
      if tr.p != [] {
        PassPriorityOnly(desc, sp, e, f6, svc);
        LoopMatched(mid, f5, 1, svc, desc, f6);
        LoopDone(desc, f6, 2, svc, desc, f6);
      } else {
        LoopDone(mid, f5, 1, svc, desc, f6);
      }
    }
  }

  /** A pass that matched is followed by another pass. */
  lemma LoopMatched(d: string, f: Found, runs: nat, svc: RecurrenceService, d1: string, f1: Found)
    requires runs < 7 && Pass(d, f, svc) == Scan(d1, f1, true)
    ensures StripLoop(d, f, runs, svc) == StripLoop(d1, f1, runs + 1, svc)
  {
  }

  /** A pass that matched nothing ends the loop. */
  lemma LoopDone(d: string, f: Found, runs: nat, svc: RecurrenceService, d1: string, f1: Found)
    requires runs <= 7 && Pass(d, f, svc) == Scan(d1, f1, false)
    ensures StripLoop(d, f, runs, svc) == Stripped(d1, f1, runs + 1)
  {
  }

  // ---------------------------------------------------------------- the encoded task

  function DateSlot(f: DateField, d: Option<Date>): seq<Token> {
    if d.None? then [] else [DateToken(f, d.value)]
  }

  /** The trail `toString` writes for a task under the default layout. */
  function TaskTrail(t: Task, svc: RecurrenceService): Trail {
    Trail(
      if t.priority == NoPriority then [] else [PriorityToken(t.priority)],
      if t.recurrence.None? then [] else [RuleToken(svc.toText(t.recurrence.value))],
      DateSlot(StartField, t.startDate),
      DateSlot(ScheduledField, t.scheduledDate),
      DateSlot(DueField, t.dueDate),
      DateSlot(DoneField, t.doneDate))
  }

  lemma RenderSlot(slot: seq<Token>)
    requires |slot| <= 1
    ensures RenderAll(slot) == if slot == [] then "" else Render(slot[0])
  {
    if slot != [] {
      assert slot[..0] == [];
    }
  }

  /** The priority, recurrence and date segments of the default rendering are the rendered trail. */
  lemma SegmentsRender(t: Task, svc: RecurrenceService)
    ensures PrioritySegment(t.priority, false) + RecurrenceSegment(t.recurrence, false, false, svc)
      + DateSegment(StartMarker, t.startDate, false, false) + DateSegment(ScheduledMarker, t.scheduledDate, false, false)
      + DateSegment(DueMarker, t.dueDate, false, false) + DateSegment(DoneMarker, t.doneDate, false, false)
      == RenderAll(Tokens(TaskTrail(t, svc)))
  {
    var tr := TaskTrail(t, svc);
    SlotSegments(t, svc);
    RenderAllAppend(tr.p, tr.r);
    RenderAllAppend(tr.p + tr.r, tr.s);
    RenderAllAppend(tr.p + tr.r + tr.s, tr.sc);
    RenderAllAppend(tr.p + tr.r + tr.s + tr.sc, tr.du);
    RenderAllAppend(tr.p + tr.r + tr.s + tr.sc + tr.du, tr.dn);
  }

  lemma SlotSegments(t: Task, svc: RecurrenceService)
    ensures var tr := TaskTrail(t, svc);
      && PrioritySegment(t.priority, false) == RenderAll(tr.p)
      && RecurrenceSegment(t.recurrence, false, false, svc) == RenderAll(tr.r)
      && DateSegment(StartMarker, t.startDate, false, false) == RenderAll(tr.s)
      && DateSegment(ScheduledMarker, t.scheduledDate, false, false) == RenderAll(tr.sc)
      && DateSegment(DueMarker, t.dueDate, false, false) == RenderAll(tr.du)
      && DateSegment(DoneMarker, t.doneDate, false, false) == RenderAll(tr.dn)
  {
    PrioritySlotSegment(t.priority);
    RuleSlotSegment(t.recurrence, svc);
    DateSlotSegment(StartField, t.startDate);
    DateSlotSegment(ScheduledField, t.scheduledDate);
    DateSlotSegment(DueField, t.dueDate);
    DateSlotSegment(DoneField, t.doneDate);
  }

  lemma PrioritySlotSegment(p: Priority)
    ensures PrioritySegment(p, false) == RenderAll(if p == NoPriority then [] else [PriorityToken(p)])
  {
    RenderSlot(if p == NoPriority then [] else [PriorityToken(p)]);
  }

  lemma RuleSlotSegment(r: Option<Recurrence>, svc: RecurrenceService)
    ensures RecurrenceSegment(r, false, false, svc) == RenderAll(if r.None? then [] else [RuleToken(svc.toText(r.value))])
  {
    RenderSlot(if r.None? then [] else [RuleToken(svc.toText(r.value))]);
  }

  lemma DateSlotSegment(f: DateField, d: Option<Date>)
    ensures DateSegment(MarkerOf(f), d, false, false) == RenderAll(DateSlot(f, d))
  {
    RenderSlot(DateSlot(f, d));
  }



  /** The created segment: a space and the created markdown, when there is a created date. */
  function CreatedSeg(d: Option<Date>): string {
    if d.None? then "" else " " + Properties.CreatedText(d.value)
  }

  lemma CreatedSegmentOf(t: Task)
    ensures CreatedSegment(t, false) == CreatedSeg(t.createdDate)
  {
    if t.createdDate.Some? {
      Properties.MarkdownOfCreated(t.createdDate.value);
    }
  }

  /** The description with the global filter in front. */
  function Lead(globalFilter: string, desc: string): string {
    if globalFilter == "" then desc else globalFilter + " " + desc
  }

  lemma LeadOf(desc: string, env: EncodeEnv)
    requires Solid(desc) && !env.appendGlobalFilter
    requires env.globalFilter == "" || Solid(env.globalFilter)
    ensures WithGlobalFilter(desc, env) == Lead(env.globalFilter, desc)
  {
    TrimOfTrimmed(desc);
    var gf := env.globalFilter;
    if gf == "" {
      assert gf + " " + desc == " " + desc;
      TrimOneSpace(desc);
    } else {
      var s := gf + " " + desc;
      assert s[0] == gf[0] && s[|s| - 1] == desc[|desc| - 1];
      TrimOfTrimmed(s);
    }
  }

  lemma TrimOneSpace(s: string)
    requires IsTrimmed(s)
    ensures Trim(" " + s) == s
  {
    var u := " " + s;
    assert u[1..] == s;
    assert TrimStart(u) == TrimStart(s) == s;
    assert TrimEnd(s) == s;
  }



  lemma Assoc(a: string, b: string, c: string)
    ensures a + b + c == a + (b + c)
  {
  }

  /** The default rendering of a task: the lead, the created segment, the trail, the block link. */
  lemma ToStringOf(t: Task, env: EncodeEnv)
    requires Solid(t.description) && !env.appendGlobalFilter
    requires env.globalFilter == "" || Solid(env.globalFilter)
    ensures ToString(t, DefaultLayout, env) == Lead(env.globalFilter, t.description) + Trailer(t, env.recurrence)
  {
    var svc := env.recurrence;
    var g := WithGlobalFilter(t.description, env);
    var c := CreatedSegment(t, false);
    var ps := PrioritySegment(t.priority, false);
    var rs := RecurrenceSegment(t.recurrence, false, false, svc);
    var s1 := DateSegment(StartMarker, t.startDate, false, false);
    var s2 := DateSegment(ScheduledMarker, t.scheduledDate, false, false);
    var s3 := DateSegment(DueMarker, t.dueDate, false, false);
    var s4 := DateSegment(DoneMarker, t.doneDate, false, false);
    assert ToString(t, DefaultLayout, env) == g + c + ps + rs + s1 + s2 + s3 + s4 + t.blockLink;
    var h := g + c;
    calc {
      h + ps + rs + s1 + s2 + s3 + s4;
      { Assoc(h, ps, rs); }
      h + (ps + rs) + s1 + s2 + s3 + s4;
      { Assoc(h, ps + rs, s1); }
      h + (ps + rs + s1) + s2 + s3 + s4;
      { Assoc(h, ps + rs + s1, s2); }
      h + (ps + rs + s1 + s2) + s3 + s4;
      { Assoc(h, ps + rs + s1 + s2, s3); }
      h + (ps + rs + s1 + s2 + s3) + s4;
      { Assoc(h, ps + rs + s1 + s2 + s3, s4); }
      h + (ps + rs + s1 + s2 + s3 + s4);
    }
    LeadOf(t.description, env);
    CreatedSegmentOf(t);
    SegmentsRender(t, svc);
    var rk := RenderAll(Tokens(TaskTrail(t, svc)));
    var c' := CreatedSeg(t.createdDate);
    var g' := Lead(env.globalFilter, t.description);
    Assoc(g' + c', rk, t.blockLink);
    Assoc(g', c', rk + t.blockLink);
    Assoc(c', rk, t.blockLink);
  }

  // ---------------------------------------------------------------- characters of the encoded fields

  const CreatedMarker := '\U{2795}'

  /** A character that is neither a line terminator, nor the created marker, nor `^`. */
  predicate Plain(c: char) {
    !IsLineTerminator(c) && c != CreatedMarker && c != '^'
  }

  predicate AllPlain(s: string) {
    forall i :: 0 <= i < |s| ==> Plain(s[i])
  }

  predicate NoBreak(s: string) {
    forall i :: 0 <= i < |s| ==> !IsLineTerminator(s[i])
  }

  lemma PlainConcat(a: string, b: string)
    requires AllPlain(a) && AllPlain(b)
    ensures AllPlain(a + b)
  {
    forall i | 0 <= i < |a + b|
      ensures Plain((a + b)[i])
    {
      if i >= |a| {
        assert (a + b)[i] == b[i - |a|];
      }
    }
  }

  /** A marked date, ` m YYYY-MM-DD`, holds no line terminator, created marker or `^` besides `m`. */
  lemma MarkedDatePlain(m: char, d: Date, i: nat)
    requires Printable(d) && i < |[' ', m, ' '] + Format(d)| && i != 1
    ensures Plain(([' ', m, ' '] + Format(d))[i])
  {
    ParseFormat(d);
    if i >= 3 {
      DateTextChar(Format(d), i - 3);
    }
  }

  lemma RenderPlain(k: Token)
    requires WellFormed(k)
    ensures AllPlain(Render(k))
  {
    var w := Render(k);
    match k
    case PriorityToken(p) =>
    case RuleToken(text) =>
      forall i | 3 <= i < |w|
        ensures Plain(w[i])
      {
        assert w[i] == text[i - 3];
      }
    case DateToken(f, d) =>
      forall i | 0 <= i < |w|
        ensures Plain(w[i])
      {
        if i != 1 {
          MarkedDatePlain(MarkerOf(f), d, i);
        }
      }
  }

  lemma {:induction false} RenderAllPlain(ks: seq<Token>)
    requires AllWellFormed(ks)
    ensures AllPlain(RenderAll(ks))
    decreases |ks|
  {
    if ks != [] {
      RenderAllPlain(ks[..|ks| - 1]);
      RenderPlain(ks[|ks| - 1]);
      PlainConcat(RenderAll(ks[..|ks| - 1]), Render(ks[|ks| - 1]));
    }
  }

  /** The created segment is spaced, and after its marker holds no line terminator, created marker or `^`. */
  lemma CreatedSegShape(d: Option<Date>)
    requires d.Some? ==> Printable(d.value)
    ensures var c := CreatedSeg(d); Spaced(c) && NoBreak(c) && (c != [] ==> c[1] == CreatedMarker && AllPlain(c[2..]) && c[0] == ' ')
  {
    if d.Some? {
      var c := CreatedSeg(d);
      var t := Format(d.value);
      assert c == [' ', CreatedMarker, ' '] + t;
      ParseFormat(d.value);
      forall i | 0 <= i < |c|
        ensures i != 1 ==> Plain(c[i])
        ensures !IsLineTerminator(c[i])
        ensures IsSpace(c[i]) ==> i == 0 || i == 2
      {
        if i >= 3 {
          DateTextChar(t, i - 3);
        }
      }
      forall i | 0 <= i < |c[2..]|
        ensures Plain(c[2..][i])
      {
        assert c[2..][i] == c[i + 2];
      }
    }
  }

  // ---------------------------------------------------------------- the body of the encoded line

  /** A block link as the decoder reads it back: empty, or ` ^` and a non-empty id of `[a-zA-Z0-9-]`. */
  predicate LinkOk(bl: string) {
    bl == "" || (|bl| >= 3 && bl[..2] == " ^" && forall i :: 2 <= i < |bl| ==> IsIdChar(bl[i]))
  }

  lemma LinkSpaced(bl: string)
    requires LinkOk(bl)
    ensures Spaced(bl) && NoBreak(bl)
  {
    if bl != "" {
      assert bl[1] == bl[..2][1];
      assert bl[0] == bl[..2][0];
      assert IsIdChar(bl[|bl| - 1]);
    }
  }

  /** The fields after the description: created segment, rendered trail, block link. */
  function Trailer(t: Task, svc: RecurrenceService): string {
    CreatedSeg(t.createdDate) + RenderAll(Tokens(TaskTrail(t, svc))) + t.blockLink
  }

  /**
    The tasks the round trip covers: a description the suffix expressions leave alone, holding
    no line break or created marker; a global filter that is empty or stands alone; a checklist
    indentation and a one-character status; printable dates; a block link and a rule the
    decoder reads back.
  */
  predicate Encodable(t: Task, globalFilter: string, svc: RecurrenceService) {
    DescOk(t.description) && FilterOk(globalFilter) && ItemOk(t) && DatesOk(t) && RuleOk(t, svc) && LinkOk(t.blockLink)
  }

  /** A description the suffix expressions leave alone, on one line, without the created marker. */
  predicate DescOk(desc: string) {
    Inert(desc) && NoBreak(desc) && CreatedMarker !in desc
  }

  /** A global filter that is empty or a single trimmed word group on one line. */
  predicate FilterOk(gf: string) {
    gf == "" || (Solid(gf) && NoBreak(gf))
  }

  /** Indentation of whitespace and a one-character status indicator. */
  predicate ItemOk(t: Task) {
    AllSpace(t.indentation) && |t.status.indicator| == 1 && !IsLineTerminator(t.status.indicator[0])
  }

  /** Every date is printable as `YYYY-MM-DD`. */
  predicate DatesOk(t: Task) {
    && (t.startDate.Some? ==> Printable(t.startDate.value))
    && (t.scheduledDate.Some? ==> Printable(t.scheduledDate.value))
    && (t.dueDate.Some? ==> Printable(t.dueDate.value))
    && (t.doneDate.Some? ==> Printable(t.doneDate.value))
    && (t.createdDate.Some? ==> Printable(t.createdDate.value))
  }

  /** The printed rule is one the recurrence expression reads back whole. */
  predicate RuleOk(t: Task, svc: RecurrenceService) {
    t.recurrence.Some? ==> WellFormed(RuleToken(svc.toText(t.recurrence.value)))
  }


  lemma TaskTrailOk(t: Task, gf: string, svc: RecurrenceService)
    requires Encodable(t, gf, svc)
    ensures TrailOk(TaskTrail(t, svc))
  {
    DateSlotOk(StartField, t.startDate);
    DateSlotOk(ScheduledField, t.scheduledDate);
    DateSlotOk(DueField, t.dueDate);
    DateSlotOk(DoneField, t.doneDate);
  }

  lemma DateSlotOk(f: DateField, d: Option<Date>)
    requires d.Some? ==> Printable(d.value)
    ensures Slot(DateStep(f), DateSlot(f, d))
  {
  }

  lemma NoBreakConcat(a: string, b: string)
    requires NoBreak(a) && NoBreak(b)
    ensures NoBreak(a + b)
  {
    forall i | 0 <= i < |a + b|
      ensures !IsLineTerminator((a + b)[i])
    {
      if i >= |a| {
        assert (a + b)[i] == b[i - |a|];
      }
    }
  }


  /** The trailer is spaced and holds no line terminator; after the block link it holds no created marker or `^`. */
  lemma TrailerShape(t: Task, gf: string, svc: RecurrenceService)
    requires Encodable(t, gf, svc)
    ensures var c := CreatedSeg(t.createdDate); var rk := RenderAll(Tokens(TaskTrail(t, svc)));
      && Spaced(c + rk) && Spaced(Trailer(t, svc)) && NoBreak(Trailer(t, svc))
      && AllPlain(rk) && Spaced(rk)
  {
    var tr := TaskTrail(t, svc);
    var c := CreatedSeg(t.createdDate);
    var rk := RenderAll(Tokens(tr));
    TaskTrailOk(t, gf, svc);
    TrailWellFormed(tr);
    CreatedSegShape(t.createdDate);
    RenderAllSpaced(Tokens(tr));
    RenderAllPlain(Tokens(tr));
    LinkSpaced(t.blockLink);
    SpacedConcat(c, rk);
    SpacedConcat(c + rk, t.blockLink);
    assert NoBreak(rk);
    NoBreakConcat(c, rk);
    NoBreakConcat(c + rk, t.blockLink);
  }

  lemma DoubleSpaceAbsent(s: string)
    requires NoDoubleSpace(s)
    ensures forall j :: !OccursAt(s, "  ", j)
  {
    forall j
      ensures !OccursAt(s, "  ", j)
    {
      if 0 <= j && j + 2 <= |s| {
        assert s[j..j + 2] == [s[j], s[j + 1]];
      }
    }
  }

  /** Cleaning removes the global filter in front and the space after it, and nothing else. */
  lemma CleanOf(desc: string, w: string, gf: string)
    requires Solid(desc) && Spaced(w) && (gf == "" || Solid(gf))
    ensures CleanDescription(Lead(gf, desc) + w, gf) == desc + w
  {
    SolidThenSpaced(desc, w);
    if gf == "" {
      CleanNoFilter(desc + w);
    } else {
      assert Lead(gf, desc) + w == gf + " " + (desc + w);
      CleanFilter(desc + w, gf);
    }
  }

  lemma CleanNoFilter(d: string)
    requires Solid(d)
    ensures CleanDescription(d, "") == d
  {
    ReplaceFirstAt("", "", d, "");
    assert "" + "" + d == d;
    DoubleSpaceAbsent(d);
    ReplaceFirstAbsent(d, "  ", " ");
    TrimOfTrimmed(d);
  }

  lemma CleanFilter(d: string, gf: string)
    requires Solid(d) && gf != ""
    ensures CleanDescription(gf + " " + d, gf) == d
  {
    var u := " " + d;
    assert gf + " " + d == "" + gf + u;
    ReplaceFirstAt("", gf, u, "");
    assert "" + "" + u == u;
    assert NoDoubleSpace(u) by {
      assert forall i :: 0 < i < |u| ==> u[i] == d[i - 1];
    }
    DoubleSpaceAbsent(u);
    ReplaceFirstAbsent(u, "  ", " ");
    TrimOneSpace(d);
  }

  /** The block link, when there is one, is split off and the rest is left as it was. */
  lemma StripLinkOf(y: string, bl: string)
    requires Solid(y) && LinkOk(bl)
    requires bl == "" ==> MatchBlockLink(y).None?
    ensures StripBlockLink(y + bl) == (y, bl)
  {
    if bl == "" {
      assert y + bl == y;
    } else {
      var id := bl[2..];
      assert bl == " ^" + id;
      assert y + bl == y + " ^" + id;
      BlockLinkOf(y, id);
      assert (y + bl)[..|y|] == y;
      assert (y + bl)[|y|..] == bl;
      TrimOfTrimmed(y);
    }
  }

  /** After an inert description, a tail that starts with a space and holds no `^` ends in no block link. */
  lemma NoLinkAfter(desc: string, tail: string)
    requires Inert(desc)
    requires tail == [] || (tail[0] == ' ' && forall i :: 0 <= i < |tail| ==> tail[i] != '^')
    ensures MatchBlockLink(desc + tail).None?
  {
    if tail != [] {
      var s := desc + tail;
      assert s[|desc|] == ' ';
      assert forall i :: |desc| < i < |s| ==> s[i] == tail[i - |desc|];
      NoBlockLinkAfter(s, |desc|);
    } else {
      assert desc + tail == desc;
    }
  }

  /** No occurrence of a text that starts with the created marker begins inside a prefix without it. */
  lemma MarkerFree(x: string, y: string, p: string)
    requires CreatedMarker !in x && p != [] && p[0] == CreatedMarker
    ensures forall j :: 0 <= j < |x| ==> !OccursAt(x + y, p, j)
  {
    forall j | 0 <= j < |x|
      ensures !OccursAt(x + y, p, j)
    {
      if j + |p| <= |x + y| {
        assert (x + y)[j..j + |p|][0] == (x + y)[j] == x[j];
        assert x[j] in x;
      }
    }
  }

  /** The created date is read from the created segment, and removing it leaves the loop's state. */
  lemma CreatedStripped(desc: string, cd: Option<Date>, ks: seq<Token>)
    requires Inert(desc) && CreatedMarker !in desc && AllWellFormed(ks)
    requires cd.Some? ==> Printable(cd.value)
    ensures var y := desc + CreatedSeg(cd) + RenderAll(ks); var created := CreatedOf(y);
      created.value == cd && Trim(ReplaceFirst(y, CreatedMarkdown(created), "")) == St(desc, cd.Some?, ks)
  {
    RenderAllSpaced(ks);
    RenderAllPlain(ks);
    if cd.Some? {
      CreatedPresent(desc, cd.value, ks);
    } else {
      CreatedMissing(desc, ks);
    }
  }

  lemma CreatedPresent(desc: string, d: Date, ks: seq<Token>)
    requires Solid(desc) && CreatedMarker !in desc && Spaced(RenderAll(ks)) && AllWellFormed(ks) && Printable(d)
    ensures var y := desc + CreatedSeg(Some(d)) + RenderAll(ks); var created := CreatedOf(y);
      created.value == Some(d) && Trim(ReplaceFirst(y, CreatedMarkdown(created), "")) == St(desc, true, ks)
  {
    var rk := RenderAll(ks);
    assert desc + CreatedSeg(Some(d)) + rk == (desc + " ") + Properties.CreatedText(d) + rk;
    CreatedReadPresent(desc + " ", d, rk);
    RemoveCreated(desc, d, rk);
    TrimAfterCreated(desc, ks);
  }

  /** Removing the created markdown takes out exactly the created segment but its leading space. */
  lemma RemoveCreated(desc: string, d: Date, rk: string)
    requires CreatedMarker !in desc
    ensures ReplaceFirst(desc + CreatedSeg(Some(d)) + rk, Properties.CreatedText(d), "") == desc + " " + rk
  {
    var x := desc + " ";
    var ct := Properties.CreatedText(d);
    assert desc + CreatedSeg(Some(d)) + rk == x + ct + rk;
    assert CreatedMarker !in x;
    MarkerFree(x, ct + rk, ct);
    assert x + ct + rk == x + (ct + rk);
    ReplaceFirstAt(x, ct, rk, "");
    assert x + "" == x;
  }


  /** Reading the created property from a text whose first created marker starts its segment. */
  lemma CreatedReadPresent(x: string, d: Date, rk: string)
    requires CreatedMarker !in x && Printable(d)
    ensures var created := CreatedOf(x + Properties.CreatedText(d) + rk);
      created.value == Some(d) && CreatedMarkdown(created) == Properties.CreatedText(d)
      && Properties.CreatedText(d)[0] == CreatedMarker
  {
    var y := x + Properties.CreatedText(d) + rk;
    Properties.CreatedFindsFirstMarker(x, d, rk);
    var created := CreatedOf(y);
    assert created == Properties.NewCreated(Properties.Intended).(value := Some(d), locationIndex := Utf16Length(x), length := 12);
    Properties.MarkdownOfCreated(d);
  }

  lemma TrimAfterCreated(desc: string, ks: seq<Token>)
    requires Solid(desc) && Spaced(RenderAll(ks)) && AllWellFormed(ks)
    ensures Trim(desc + " " + RenderAll(ks)) == St(desc, true, ks)
  {
    var rk := RenderAll(ks);
    if ks == [] {
      assert desc + " " + rk == desc + " ";
      TrimSpaceSuffix(desc, " ");
    } else {
      RenderAllNonEmpty(ks);
      TrimJoined(desc, rk);
    }
  }

  lemma RenderAllNonEmpty(ks: seq<Token>)
    requires AllWellFormed(ks) && ks != []
    ensures RenderAll(ks) != []
  {
    var k := ks[|ks| - 1];
    assert WellFormed(k);
    assert |Render(k)| >= 2 by {
      match k
      case PriorityToken(p) =>
      case RuleToken(text) =>
      case DateToken(f, d) =>
    }
  }

  lemma TrimJoined(desc: string, rk: string)
    requires Solid(desc) && Spaced(rk) && rk != []
    ensures Trim(desc + " " + rk) == desc + " " + rk
  {
    var u := desc + " " + rk;
    assert u[0] == desc[0];
    assert u[|u| - 1] == rk[|rk| - 1];
    TrimOfTrimmed(u);
  }


  lemma CreatedMissing(desc: string, ks: seq<Token>)
    requires Solid(desc) && CreatedMarker !in desc && Spaced(RenderAll(ks)) && AllPlain(RenderAll(ks))
    ensures var y := desc + CreatedSeg(None) + RenderAll(ks); var created := CreatedOf(y);
      created.value == None && Trim(ReplaceFirst(y, CreatedMarkdown(created), "")) == St(desc, false, ks)
  {
    var rk := RenderAll(ks);
    var y := desc + CreatedSeg(None) + rk;
    EmptyMiddle(desc, CreatedSeg(None), rk);
    assert St(desc, false, ks) == y by {
      if ks == [] {
        assert y == desc + "" == desc;
      } else {
        assert Prefix(desc, false, ks) == desc + "" + rk;
      }
    }
    MarkerFreeJoin(desc, rk);
    SolidThenSpaced(desc, rk);
    AbsentCreatedKept(y);
  }

  lemma EmptyMiddle<T>(a: seq<T>, e: seq<T>, b: seq<T>)
    requires e == []
    ensures a + e + b == a + b
  {
  }

  /** A solid text without a created marker reads no created date and is left as it is. */
  lemma AbsentCreatedKept(y: string)
    requires Solid(y) && CreatedMarker !in y
    ensures var created := CreatedOf(y);
      created.value == None && Trim(ReplaceFirst(y, CreatedMarkdown(created), "")) == y
  {
    CreatedReadMissing(y);
    var md := CreatedMarkdown(CreatedOf(y));
    MarkerFree(y, "", md);
    assert y + "" == y;
    forall j
      ensures !OccursAt(y, md, j)
    {
    }
    ReplaceFirstAbsent(y, md, "");
    TrimOfTrimmed(y);
  }

  lemma MarkerFreeJoin(desc: string, rk: string)
    requires CreatedMarker !in desc && AllPlain(rk)
    ensures CreatedMarker !in desc + rk
  {
    forall i | 0 <= i < |desc + rk|
      ensures (desc + rk)[i] != CreatedMarker
    {
      if i < |desc| {
        assert (desc + rk)[i] == desc[i] && desc[i] in desc;
      } else {
        assert (desc + rk)[i] == rk[i - |desc|];
      }
    }
  }

  /** Without a created marker the property stays blank, and its markdown starts with the marker. */
  lemma CreatedReadMissing(y: string)
    requires CreatedMarker !in y && y != []
    ensures CreatedOf(y) == Properties.NewCreated(Properties.Intended)
    ensures var md := CreatedMarkdown(CreatedOf(y)); md != [] && md[0] == CreatedMarker
  {
    Properties.CreatedAbsent(y);
    Properties.EscapeFirst(Properties.CreatedPrefix(Properties.Intended));
  }

  // ---------------------------------------------------------------- the round trip

  /** The recurrence the decoder reads back: the printed rule, read with the task's own dates. */
  function Reread(t: Task, svc: RecurrenceService): Option<Recurrence> {
    if t.recurrence.None? then None
    else svc.fromText(svc.toText(t.recurrence.value), t.startDate, t.scheduledDate, t.dueDate)
  }

  lemma CollectOfTask(t: Task, gf: string, svc: RecurrenceService)
    requires Encodable(t, gf, svc)
    ensures TrailOk(TaskTrail(t, svc)) && Collect(TaskTrail(t, svc), svc) == Found(t.priority, t.startDate, t.scheduledDate, t.dueDate, t.doneDate, Reread(t, svc))
  {
    TaskTrailOk(t, gf, svc);
    var tr := TaskTrail(t, svc);
    var f1 := Put(NothingFound, tr.dn, svc);
    assert f1 == NothingFound.(doneDate := t.doneDate) by { PutDateSlot(NothingFound, DoneField, t.doneDate, svc); }
    var f2 := Put(f1, tr.du, svc);
    assert f2 == f1.(dueDate := t.dueDate) by { PutDateSlot(f1, DueField, t.dueDate, svc); }
    var f3 := Put(f2, tr.sc, svc);
    assert f3 == f2.(scheduledDate := t.scheduledDate) by { PutDateSlot(f2, ScheduledField, t.scheduledDate, svc); }
    var f4 := Put(f3, tr.s, svc);
    assert f4 == f3.(startDate := t.startDate) by { PutDateSlot(f3, StartField, t.startDate, svc); }
    var f5 := Put(f4, tr.r, svc);
    assert f5 == f4.(recurrence := Reread(t, svc));
    assert Put(f5, tr.p, svc) == f5.(priority := t.priority);
  }

  /** A date slot records its date in its own field, and an empty one records nothing. */
  lemma PutDateSlot(found: Found, f: DateField, d: Option<Date>, svc: RecurrenceService)
    ensures Put(found, DateSlot(f, d), svc) == if d.None? then found else SetDate(found, f, d.value)
  {
  }

  /** The created segment and the trail hold no `^`, and start with a space when present. */
  lemma CaretFree(c: string, rk: string)
    requires c == [] || (|c| >= 2 && c[0] == ' ' && c[1] == CreatedMarker && AllPlain(c[2..]))
    requires AllPlain(rk) && (rk == [] || rk[0] == ' ')
    ensures var tail := c + rk; (tail == [] || tail[0] == ' ') && forall i :: 0 <= i < |tail| ==> tail[i] != '^'
  {
    forall i | 0 <= i < |c + rk|
      ensures (c + rk)[i] != '^'
    {
      if i < |c| {
        if i >= 2 {
          assert c[i] == c[2..][i - 2];
        }
      } else {
        assert (c + rk)[i] == rk[i - |c|];
      }
    }
  }

  /** Cleaning and block-link stripping leave the description, created segment and trail, and the link. */
  lemma Preloop(desc: string, c: string, rk: string, bl: string, gf: string)
    requires Inert(desc) && Spaced(c + rk) && LinkOk(bl) && (gf == "" || Solid(gf))
    requires (c + rk == [] || (c + rk)[0] == ' ') && forall i :: 0 <= i < |c + rk| ==> (c + rk)[i] != '^'
    ensures StripBlockLink(CleanDescription(Lead(gf, desc) + (c + rk + bl), gf)) == (desc + c + rk, bl)
  {
    var tail := c + rk;
    PreloopTail(desc, tail, bl, gf);
    Assoc(desc, c, rk);
  }

  lemma PreloopTail(desc: string, tail: string, bl: string, gf: string)
    requires Inert(desc) && Spaced(tail) && LinkOk(bl) && (gf == "" || Solid(gf))
    requires (tail == [] || tail[0] == ' ') && forall i :: 0 <= i < |tail| ==> tail[i] != '^'
    ensures StripBlockLink(CleanDescription(Lead(gf, desc) + (tail + bl), gf)) == (desc + tail, bl)
  {
    LinkSpaced(bl);
    SpacedConcat(tail, bl);
    CleanOf(desc, tail + bl, gf);
    Assoc(desc, tail, bl);
    LinkStep(desc, tail, bl);
  }


  lemma LinkStep(desc: string, tail: string, bl: string)
    requires Inert(desc) && Spaced(tail) && LinkOk(bl)
    requires (tail == [] || tail[0] == ' ') && forall i :: 0 <= i < |tail| ==> tail[i] != '^'
    ensures StripBlockLink(desc + tail + bl) == (desc + tail, bl)
  {
    SolidThenSpaced(desc, tail);
    NoLinkAfter(desc, tail);
    StripLinkOf(desc + tail, bl);
  }

  /**
    The body steps of `fromLine` on an encoded body: cleaning, block link, created date, the suffix
    loop. Every field comes back; the rule is read back with the task's dates.
  */
  lemma ReadBodyOf(t: Task, env: DecodeEnv)
    requires Encodable(t, env.globalFilter, env.recurrence)
    ensures var f := ReadBody(Lead(env.globalFilter, t.description) + Trailer(t, env.recurrence), env);
      && f.description == t.description && f.blockLink == t.blockLink && f.createdDate == t.createdDate
      && f.found == Found(t.priority, t.startDate, t.scheduledDate, t.dueDate, t.doneDate, Reread(t, env.recurrence))
  {
    var svc := env.recurrence;
    var tr := TaskTrail(t, svc);
    TrailerShape(t, env.globalFilter, svc);
    CreatedSegShape(t.createdDate);
    CaretFree(CreatedSeg(t.createdDate), RenderAll(Tokens(tr)));
    TaskTrailOk(t, env.globalFilter, svc);
    BodyRecovers(t.description, t.createdDate, tr, t.blockLink, env);
    CollectOfTask(t, env.globalFilter, svc);
  }

  lemma BodyRecovers(desc: string, cd: Option<Date>, tr: Trail, bl: string, env: DecodeEnv)
    requires Inert(desc) && CreatedMarker !in desc && TrailOk(tr) && LinkOk(bl)
    requires env.globalFilter == "" || Solid(env.globalFilter)
    requires cd.Some? ==> Printable(cd.value)
    requires var tail := CreatedSeg(cd) + RenderAll(Tokens(tr));
      Spaced(tail) && (tail == [] || tail[0] == ' ') && forall i :: 0 <= i < |tail| ==> tail[i] != '^'
    ensures var f := ReadBody(Lead(env.globalFilter, desc) + (CreatedSeg(cd) + RenderAll(Tokens(tr)) + bl), env);
      f.description == desc && f.blockLink == bl && f.createdDate == cd && f.found == Collect(tr, env.recurrence)
  {
    var ks := Tokens(tr);
    var c := CreatedSeg(cd);
    var rk := RenderAll(ks);
    Preloop(desc, c, rk, bl, env.globalFilter);
    TrailWellFormed(tr);
    CreatedStripped(desc, cd, ks);
    LoopRecovers(desc, cd.Some?, tr, env.recurrence);
  }

  lemma LeadShape(gf: string, desc: string)
    requires Solid(desc) && NoBreak(desc) && (gf == "" || (Solid(gf) && NoBreak(gf)))
    ensures Solid(Lead(gf, desc)) && NoBreak(Lead(gf, desc))
  {
    if gf != "" {
      var w := " " + desc;
      assert Spaced(w) by {
        assert forall i :: 0 < i < |w| ==> w[i] == desc[i - 1];
      }
      SolidThenSpaced(gf, w);
      assert NoBreak(w) by {
        assert forall i :: 0 < i < |w| ==> w[i] == desc[i - 1];
      }
      NoBreakConcat(gf, w);
      Assoc(gf, " ", desc);
    }
  }

  /** The encoded body: the lead and the trailer, trimmed already, on one line. */
  lemma BodyShape(t: Task, gf: string, svc: RecurrenceService)
    requires Encodable(t, gf, svc)
    ensures var body := Lead(gf, t.description) + Trailer(t, svc);
      NoBreak(body) && (body == [] || body[0] != ' ') && Trim(body) == body && Contains(body, gf)
  {
    TrailerShape(t, gf, svc);
    BodyShapeOf(gf, t.description, Trailer(t, svc));
  }

  lemma BodyShapeOf(gf: string, desc: string, w: string)
    requires Solid(desc) && NoBreak(desc) && (gf == "" || (Solid(gf) && NoBreak(gf)))
    requires Spaced(w) && NoBreak(w)
    ensures var body := Lead(gf, desc) + w;
      NoBreak(body) && (body == [] || body[0] != ' ') && Trim(body) == body && Contains(body, gf)
  {
    var g := Lead(gf, desc);
    var body := g + w;
    LeadShape(gf, desc);
    SolidThenSpaced(g, w);
    NoBreakConcat(g, w);
    TrimOfTrimmed(body);
    if gf == "" {
      EmptyContained(body);
    } else {
      assert body[..|gf|] == gf;
      assert OccursAt(body, gf, 0);
    }
  }

  /** The encoded line is a checklist item: its indentation, its status character, the encoded body. */
  lemma EncodedLineParts(t: Task, globalFilter: string, svc: RecurrenceService)
    requires Encodable(t, globalFilter, svc)
    ensures var body := Lead(globalFilter, t.description) + Trailer(t, svc);
      && MatchTaskLine(ToFileLine(t, EncodeEnv(globalFilter, false, svc))) == Some(LineParts(t.indentation, t.status.indicator[0], body))
      && Trim(body) == body && Contains(body, globalFilter)
  {
    var body := Lead(globalFilter, t.description) + Trailer(t, svc);
    EncodedLine(t, globalFilter, svc);
    BodyShape(t, globalFilter, svc);
    ItemLineOf(ToFileLine(t, EncodeEnv(globalFilter, false, svc)), t.indentation, t.status.indicator, body);
  }

  lemma ItemLineOf(line: string, indentation: string, indicator: string, body: string)
    requires |indicator| == 1 && line == indentation + "- [" + indicator + "] " + body
    requires AllSpace(indentation) && !IsLineTerminator(indicator[0]) && NoBreak(body) && (body == [] || body[0] != ' ')
    ensures MatchTaskLine(line) == Some(LineParts(indentation, indicator[0], body))
  {
    assert indicator == [indicator[0]];
    ItemLine(line, indentation, indicator[0], body);
  }

  lemma EncodedLine(t: Task, globalFilter: string, svc: RecurrenceService)
    requires Encodable(t, globalFilter, svc)
    ensures ToFileLine(t, EncodeEnv(globalFilter, false, svc))
      == t.indentation + "- [" + t.status.indicator + "] " + (Lead(globalFilter, t.description) + Trailer(t, svc))
  {
    ToStringOf(t, EncodeEnv(globalFilter, false, svc));
    BodyShape(t, globalFilter, svc);
  }


  lemma ItemLine(line: string, indentation: string, c: char, body: string)
    requires line == indentation + "- [" + [c] + "] " + body
    requires AllSpace(indentation) && !IsLineTerminator(c) && NoBreak(body) && (body == [] || body[0] != ' ')
    ensures MatchTaskLine(line) == Some(LineParts(indentation, c, body))
  {
    MatchTaskLineOfItem(indentation, c, body);
  }



  lemma FromLineOfParts(line: string, indentation: string, c: char, body: string, path: string, sectionStart: int,
                        sectionIndex: int, precedingHeader: Option<string>, env: DecodeEnv)
    requires MatchTaskLine(line) == Some(LineParts(indentation, c, body))
    requires Trim(body) == body && Contains(body, env.globalFilter)
    ensures var f := ReadBody(body, env);
      FromLine(line, path, sectionStart, sectionIndex, precedingHeader, env)
      == Some(Task(env.registry.byIndicator(ToLower([c])), f.description, path, indentation,
          sectionStart, sectionIndex, precedingHeader, f.tags, f.found.priority, f.found.startDate,
          f.found.scheduledDate, f.found.dueDate, f.found.doneDate, f.createdDate, f.found.recurrence,
          f.blockLink, line))
  {
  }

  lemma Singleton(s: string)
    requires |s| == 1
    ensures s == [s[0]]
  {
  }


  /**
    The round trip of `toFileLineString` and `fromLine`, with the global filter in front: decoding
    the encoded line gives a task with the same indentation, description, priority, dates, created
    date and block link, the status the registry gives for the indicator, and the printed rule
    read back with the task's dates.
  */
  lemma DecodeEncoded(t: Task, globalFilter: string, registry: Registry, svc: RecurrenceService,
                      path: string, sectionStart: int, sectionIndex: int, precedingHeader: Option<string>)
    requires Encodable(t, globalFilter, svc)
    ensures var r := FromLine(ToFileLine(t, EncodeEnv(globalFilter, false, svc)), path, sectionStart, sectionIndex,
                              precedingHeader, DecodeEnv(globalFilter, registry, svc));
      && r.Some?
      && r.value.indentation == t.indentation
      && r.value.status == registry.byIndicator(ToLower(t.status.indicator))
      && r.value.description == t.description
      && r.value.priority == t.priority
      && r.value.startDate == t.startDate && r.value.scheduledDate == t.scheduledDate
      && r.value.dueDate == t.dueDate && r.value.doneDate == t.doneDate
      && r.value.createdDate == t.createdDate
      && r.value.recurrence == Reread(t, svc)
      && r.value.blockLink == t.blockLink
  {
    var denv := DecodeEnv(globalFilter, registry, svc);
    var line := ToFileLine(t, EncodeEnv(globalFilter, false, svc));
    var body := Lead(globalFilter, t.description) + Trailer(t, svc);
    EncodedLineParts(t, globalFilter, svc);
    Singleton(t.status.indicator);
    FromLineOfParts(line, t.indentation, t.status.indicator[0], body, path, sectionStart, sectionIndex, precedingHeader, denv);
    ReadBodyOf(t, denv);
  }

}

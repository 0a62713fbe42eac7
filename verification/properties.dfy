/**
  The date properties of src/TaskProperties.ts (`CreatedDateProperty`, `DueDateProperty`).
  A property holds prefixes, a spacer and suffixes, from which it builds a regular expression
  around `(\d{4}-\d{2}-\d{2})`; assigning a string stores the first date that expression
  finds. The expression is modelled as a sequence of one-character atoms matched with the
  same greedy backtracking a JavaScript regex uses.
*/
module Properties {
  import opened Wrappers
  import opened Text
  import opened Dates

  /** One position of a compiled pattern: any character of `chars`, skippable when `optional` (a trailing `?`). */
  datatype Atom = Atom(chars: string, optional: bool)

  /** The atoms of a literal: one mandatory atom per character. */
  function Lits(s: string): (r: seq<Atom>)
    ensures |r| == |s|
    ensures forall k :: 0 <= k < |s| ==> r[k] == Atom([s[k]], false)
  {
    seq(|s|, k requires 0 <= k < |s| => Atom([s[k]], false))
  }

  /** `parts.join('')`. */
  function Concat(parts: seq<string>): (r: string)
    ensures forall k, c :: 0 <= k < |parts| && c in parts[k] ==> c in r
  {
    if parts == [] then "" else parts[0] + Concat(parts[1..])
  }

  const Digit := Atom("0123456789", false)
  const Dash := Atom("-", false)

  /** `\d{4}-\d{2}-\d{2}`. */
  const DateAtoms: seq<Atom> := [Digit, Digit, Digit, Digit, Dash, Digit, Digit, Dash, Digit, Digit]

  predicate Mandatory(atoms: seq<Atom>) {
    forall k :: 0 <= k < |atoms| ==> !atoms[k].optional
  }

  /**
    Greedy backtracking match of `atoms` starting at position `i`: an optional atom first tries
    to consume a character and gives it back only when the rest then fails. The result is the
    end of the match.
  */
  function MatchFrom(s: string, i: nat, atoms: seq<Atom>): (r: Option<nat>)
    requires i <= |s|
    ensures r.Some? ==> i <= r.value <= |s|
    decreases |atoms|
  {
    if atoms == [] then Some(i)
    else
      var taken := if i < |s| && s[i] in atoms[0].chars then MatchFrom(s, i + 1, atoms[1..]) else None;
      if taken.Some? then taken
      else if atoms[0].optional then MatchFrom(s, i, atoms[1..])
      else None
  }

  /** `RegExp.exec` without the global flag: the leftmost start at or after `k` where the atoms match. */
  function ExecFrom(s: string, k: nat, atoms: seq<Atom>): (r: Option<(nat, nat)>)
    requires k <= |s|
    ensures r.Some? ==> k <= r.value.0 <= r.value.1 <= |s| && MatchFrom(s, r.value.0, atoms) == Some(r.value.1)
    ensures r.Some? ==> forall j: nat :: k <= j < r.value.0 ==> MatchFrom(s, j, atoms).None?
    ensures r.None? ==> forall j: nat :: k <= j <= |s| ==> MatchFrom(s, j, atoms).None?
    decreases |s| - k
  {
    match MatchFrom(s, k, atoms)
    case Some(e) => Some((k, e))
    case None => if k == |s| then None else ExecFrom(s, k + 1, atoms)
  }

  function Exec(s: string, atoms: seq<Atom>): (r: Option<(nat, nat)>)
    ensures r.Some? ==> r.value.0 <= r.value.1 <= |s| && MatchFrom(s, r.value.0, atoms) == Some(r.value.1)
    ensures r.Some? ==> forall j: nat :: j < r.value.0 ==> MatchFrom(s, j, atoms).None?
    ensures r.None? ==> forall j: nat :: j <= |s| ==> MatchFrom(s, j, atoms).None?
  {
    ExecFrom(s, 0, atoms)
  }

  /** A mandatory first atom that does not take the character at `j` fails there. */
  lemma MissAt(s: string, j: nat, atoms: seq<Atom>)
    requires j <= |s| && atoms != [] && !atoms[0].optional && (j == |s| || s[j] !in atoms[0].chars)
    ensures MatchFrom(s, j, atoms).None?
  {
  }

  /** The leftmost match is at `st` when the atoms match there and nowhere before. */
  lemma ExecAt(s: string, atoms: seq<Atom>, st: nat, en: nat)
    requires st <= |s| && MatchFrom(s, st, atoms) == Some(en)
    requires forall j: nat :: j < st ==> MatchFrom(s, j, atoms).None?
    ensures Exec(s, atoms) == Some((st, en))
  {
  }

  /** The texts the atoms accept along any path, ignoring the greedy preference. */
  predicate Accepts(t: string, atoms: seq<Atom>)
    decreases |atoms|
  {
    if atoms == [] then t == []
    else
      || (|t| > 0 && t[0] in atoms[0].chars && Accepts(t[1..], atoms[1..]))
      || (atoms[0].optional && Accepts(t, atoms[1..]))
  }

  /** What the matcher consumes is accepted by the atoms. */
  lemma {:induction false} MatchSound(s: string, i: nat, atoms: seq<Atom>)
    requires i <= |s| && MatchFrom(s, i, atoms).Some?
    ensures Accepts(s[i..MatchFrom(s, i, atoms).value], atoms)
    decreases |atoms|
  {
    if atoms != [] {
      var e := MatchFrom(s, i, atoms).value;
      if i < |s| && s[i] in atoms[0].chars && MatchFrom(s, i + 1, atoms[1..]).Some? {
        MatchSound(s, i + 1, atoms[1..]);
        assert s[i..e][1..] == s[i + 1..e];
      } else {
        MatchSound(s, i, atoms[1..]);
      }
    }
  }

  /** Backtracking is complete: wherever an accepted text occurs, the matcher succeeds. */
  lemma {:induction false} MatchComplete(s: string, i: nat, t: string, atoms: seq<Atom>)
    requires Accepts(t, atoms) && OccursAt(s, t, i)
    ensures MatchFrom(s, i, atoms).Some?
    decreases |atoms|
  {
    if atoms != [] {
      if |t| > 0 && t[0] in atoms[0].chars && Accepts(t[1..], atoms[1..]) {
        assert s[i] == t[0];
        assert s[i + 1..i + 1 + |t[1..]|] == t[1..];
        MatchComplete(s, i + 1, t[1..], atoms[1..]);
      } else {
        MatchComplete(s, i, t, atoms[1..]);
      }
    }
  }

  /**
    The matched text first occurs where the match starts, so `value.indexOf(match[0])` (how the
    setter records `locationIndex`) is the match position.
  */
  lemma LocationIsMatchStart(s: string, atoms: seq<Atom>)
    requires Exec(s, atoms).Some?
    ensures IndexOf(s, s[Exec(s, atoms).value.0..Exec(s, atoms).value.1]) == Some(Exec(s, atoms).value.0)
  {
    var (st, en) := Exec(s, atoms).value;
    var t := s[st..en];
    assert OccursAt(s, t, st);
    MatchSound(s, st, atoms);
    var j := IndexOf(s, t).value;
    if j < st {
      MatchComplete(s, j, t, atoms);
      assert false;
    }
  }

  /** Each character of `t` is accepted by the atom at the same position. */
  predicate MatchesEach(t: string, atoms: seq<Atom>) {
    |t| == |atoms| && forall k :: 0 <= k < |t| ==> t[k] in atoms[k].chars
  }

  /** A mandatory tail of `n` atoms consumes the last `n` characters of the match, one each. */
  lemma {:induction false} TailMatched(s: string, i: nat, atoms: seq<Atom>, n: nat, e: nat)
    requires i <= |s| && MatchFrom(s, i, atoms) == Some(e)
    requires n <= |atoms| && Mandatory(atoms[|atoms| - n..])
    ensures i + n <= e <= |s|
    ensures n == |atoms| ==> e == i + n
    ensures MatchesEach(s[e - n..e], atoms[|atoms| - n..])
    decreases |atoms|, 2
  {
    if atoms != [] {
      MatchFromStep(s, i, atoms, e);
      if i < |s| && s[i] in atoms[0].chars && MatchFrom(s, i + 1, atoms[1..]).Some? {
        TailMatchedTaken(s, i, atoms, n, e);
      } else {
        TailMatchedSkipped(s, i, atoms, n, e);
      }
    }
  }

  /** `TailMatched` when the first atom consumed `s[i]`. */
  lemma {:induction false} TailMatchedTaken(s: string, i: nat, atoms: seq<Atom>, n: nat, e: nat)
    requires atoms != [] && i < |s| && s[i] in atoms[0].chars && MatchFrom(s, i + 1, atoms[1..]) == Some(e)
    requires n <= |atoms| && Mandatory(atoms[|atoms| - n..])
    ensures i + n <= e <= |s|
    ensures n == |atoms| ==> e == i + n
    ensures MatchesEach(s[e - n..e], atoms[|atoms| - n..])
    decreases |atoms|, 1
  {
    if n == |atoms| {
      TailMatchedWhole(s, i, atoms, e);
    } else {
      var rest := atoms[1..];
      assert Mandatory(rest[|rest| - n..]) by { TailShift(atoms, n); }
      TailMatched(s, i + 1, rest, n, e);
      TailShifted(s, atoms, n, e);
    }
  }

  /** `TailMatchedTaken` when every atom is mandatory: the match is one character per atom. */
  lemma {:induction false} TailMatchedWhole(s: string, i: nat, atoms: seq<Atom>, e: nat)
    requires atoms != [] && i < |s| && s[i] in atoms[0].chars && MatchFrom(s, i + 1, atoms[1..]) == Some(e)
    requires Mandatory(atoms[|atoms| - |atoms|..])
    ensures e == i + |atoms| <= |s|
    ensures MatchesEach(s[e - |atoms|..e], atoms[|atoms| - |atoms|..])
    decreases |atoms|, 0
  {
    var rest := atoms[1..];
    assert Mandatory(rest[|rest| - (|atoms| - 1)..]) by { MandatoryRest(atoms); }
    TailMatched(s, i + 1, rest, |atoms| - 1, e);
    TailFirst(s, i, atoms, e);
  }

  /** `TailMatched` when an optional first atom was skipped; a mandatory one cannot be. */
  lemma {:induction false} TailMatchedSkipped(s: string, i: nat, atoms: seq<Atom>, n: nat, e: nat)
    requires atoms != [] && i <= |s| && atoms[0].optional && MatchFrom(s, i, atoms[1..]) == Some(e)
    requires n <= |atoms| && Mandatory(atoms[|atoms| - n..])
    ensures i + n <= e <= |s|
    ensures n == |atoms| ==> e == i + n
    ensures MatchesEach(s[e - n..e], atoms[|atoms| - n..])
    decreases |atoms|, 0
  {
    if n == |atoms| {
      assert false;
    }
    var rest := atoms[1..];
    assert Mandatory(rest[|rest| - n..]) by { TailShift(atoms, n); }
    TailMatched(s, i, rest, n, e);
    TailShifted(s, atoms, n, e);
  }

  /** The atoms after a mandatory first one are mandatory, and they are their own full tail. */
  lemma MandatoryRest(atoms: seq<Atom>)
    requires atoms != [] && Mandatory(atoms[|atoms| - |atoms|..])
    ensures Mandatory(atoms[1..]) && atoms[1..][|atoms[1..]| - (|atoms| - 1)..] == atoms[1..]
    ensures atoms[|atoms| - |atoms|..] == atoms
  {
    assert atoms[|atoms| - |atoms|..] == atoms;
    forall k | 0 <= k < |atoms[1..]| ensures !atoms[1..][k].optional {
      assert atoms[1..][k] == atoms[k + 1];
    }
  }

  /** The first atom taken at `i`, and the rest matched one by one up to `e`, match all of them. */
  lemma TailFirst(s: string, i: nat, atoms: seq<Atom>, e: nat)
    requires atoms != [] && i < |s| && s[i] in atoms[0].chars
    requires i + 1 + (|atoms| - 1) <= e <= |s| && e == i + 1 + (|atoms| - 1)
    requires MatchesEach(s[e - (|atoms| - 1)..e], atoms[1..][|atoms[1..]| - (|atoms| - 1)..])
    ensures MatchesEach(s[e - |atoms|..e], atoms[|atoms| - |atoms|..])
  {
    assert atoms[1..][|atoms[1..]| - (|atoms| - 1)..] == atoms[1..];
    assert atoms[|atoms| - |atoms|..] == atoms;
    MatchesEachCons(s, i, e, atoms);
  }

  /** A tail matched as part of the rest is matched as part of all the atoms. */
  lemma TailShifted(s: string, atoms: seq<Atom>, n: nat, e: nat)
    requires n < |atoms| && n <= e <= |s|
    requires MatchesEach(s[e - n..e], atoms[1..][|atoms[1..]| - n..])
    ensures MatchesEach(s[e - n..e], atoms[|atoms| - n..])
  {
    TailShift(atoms, n);
  }

  /** Dropping the first atom keeps a tail that does not reach it. */
  lemma TailShift(atoms: seq<Atom>, n: nat)
    requires n < |atoms|
    ensures atoms[1..][|atoms| - 1 - n..] == atoms[|atoms| - n..]
  {
  }

  /** One step of `MatchFrom`: the end comes from taking the first atom, or else from skipping an optional one. */
  lemma MatchFromStep(s: string, i: nat, atoms: seq<Atom>, e: nat)
    requires atoms != [] && i <= |s| && MatchFrom(s, i, atoms) == Some(e)
    ensures i < |s| && s[i] in atoms[0].chars && MatchFrom(s, i + 1, atoms[1..]).Some? ==>
      MatchFrom(s, i + 1, atoms[1..]) == Some(e)
    ensures !(i < |s| && s[i] in atoms[0].chars && MatchFrom(s, i + 1, atoms[1..]).Some?) ==>
      atoms[0].optional && MatchFrom(s, i, atoms[1..]) == Some(e)
  {
  }

  /** A character the first atom accepts, followed by a text the rest accept one by one. */
  lemma MatchesEachCons(s: string, i: nat, e: nat, atoms: seq<Atom>)
    requires atoms != [] && i < e <= |s| && e - i == |atoms|
    requires s[i] in atoms[0].chars && MatchesEach(s[i + 1..e], atoms[1..])
    ensures MatchesEach(s[i..e], atoms)
  {
    var t := s[i..e];
    forall k | 0 <= k < |t|
      ensures t[k] in atoms[k].chars
    {
      if k > 0 {
        assert t[k] == s[i + 1..e][k - 1];
        assert atoms[k] == atoms[1..][k - 1];
      }
    }
  }

  /** Mandatory atoms that accept the next characters are passed over without choice. */
  lemma {:induction false} MandatoryStep(s: string, i: nat, a: seq<Atom>, b: seq<Atom>)
    requires Mandatory(a) && i + |a| <= |s|
    requires MatchesEach(s[i..i + |a|], a)
    ensures MatchFrom(s, i, a + b) == MatchFrom(s, i + |a|, b)
    decreases |a|
  {
    if a != [] {
      assert (a + b)[1..] == a[1..] + b;
      assert (a + b)[0] == a[0];
      assert s[i] == s[i..i + |a|][0];
      assert s[i] in a[0].chars && !a[0].optional;
      var t := s[i + 1..i + 1 + |a[1..]|];
      forall k | 0 <= k < |t|
        ensures t[k] in a[1..][k].chars
      {
        assert t[k] == s[i..i + |a|][k + 1];
      }
      MandatoryStep(s, i + 1, a[1..], b);
      assert MatchFrom(s, i, a + b) == MatchFrom(s, i + 1, (a + b)[1..]);
    } else {
      assert a + b == b;
    }
  }

  /** Ten characters that form date text pass the date atoms. */
  lemma DateTextAccepted(t: string)
    requires IsDateText(t)
    ensures MatchesEach(t, DateAtoms)
  {
    forall k | 0 <= k < 10
      ensures t[k] in DateAtoms[k].chars
    {
      if k < 4 {
        assert t[..4][k] == t[k];
      } else if 5 <= k < 7 {
        assert t[5..7][k - 5] == t[k];
      } else if 8 <= k {
        assert t[8..][k - 8] == t[k];
      }
    }
  }

  /** Ten characters that pass the date atoms form date text. */
  lemma DateAtomsText(t: string)
    requires MatchesEach(t, DateAtoms)
    ensures IsDateText(t)
  {
    forall k | 0 <= k < 4
      ensures IsDigit(t[..4][k])
    {
      assert DateAtoms[k] == Digit;
      DigitAtom(t[k]);
    }
    forall k | 0 <= k < 2
      ensures IsDigit(t[5..7][k]) && IsDigit(t[8..][k])
    {
      assert DateAtoms[5 + k] == Digit && DateAtoms[8 + k] == Digit;
      DigitAtom(t[5 + k]);
      DigitAtom(t[8 + k]);
    }
    assert DateAtoms[4] == Dash && DateAtoms[7] == Dash;
  }

  lemma DigitAtom(c: char)
    requires c in Digit.chars
    ensures IsDigit(c)
  {
  }

  /** Which of the two property classes. */
  datatype Kind = CreatedKind | DueKind

  /**
    A created or due property. `prefixSpacer` belongs to the created-date class only; the due
    class has none and this model ignores the field for it.
  */
  datatype DateProperty = DateProperty(
    kind: Kind,
    prefixes: seq<string>,
    defaultPrefix: string,
    prefixSpacer: string,
    suffixes: seq<string>,
    value: Option<Date>,
    locationIndex: nat,
    length: nat)

  /** How the marker characters are spelled: as they stand in the source file, or as intended. */
  datatype Spelling = AsWritten | Intended

  /** The created-date marker: `➕` (U+2795); the source file holds its UTF-8 bytes read as Windows-1252. */
  function CreatedPrefix(sp: Spelling): string {
    match sp
    case AsWritten => "\U{E2}\U{17E}\U{2022}"
    case Intended => "\U{2795}"
  }

  /** The due-date markers `📅 `, `📆 `, `🗓 `, each with a trailing space, and likewise mis-decoded in the file. */
  function DuePrefixes(sp: Spelling): seq<string> {
    match sp
    case AsWritten => ["\U{F0}\U{178}\U{201C}\U{2026} ", "\U{F0}\U{178}\U{201C}\U{2020} ", "\U{F0}\U{178}\U{2014}\U{201C} "]
    case Intended => ["\U{1F4C5} ", "\U{1F4C6} ", "\U{1F5D3} "]
  }

  /** A blank `CreatedDateProperty`: one prefix, a space spacer, no value. */
  function NewCreated(sp: Spelling): (p: DateProperty)
    ensures p.kind == CreatedKind && p.value.None? && p.prefixes == [p.defaultPrefix] && p.prefixSpacer == " "
  {
    DateProperty(CreatedKind, [CreatedPrefix(sp)], CreatedPrefix(sp), " ", [], None, 0, 0)
  }

  /** A blank `DueDateProperty`: three prefixes, the first one the default, no value. */
  function NewDue(sp: Spelling): (p: DateProperty)
    ensures p.kind == DueKind && p.value.None? && |p.prefixes| == 3 && p.defaultPrefix == p.prefixes[0]
  {
    DateProperty(DueKind, DuePrefixes(sp), DuePrefixes(sp)[0], "", [], None, 0, 0)
  }

  /**
    The atoms `getMatchingRegExp` writes before the date. The due class writes one character
    class of all prefix characters. The created class writes that class (several prefixes) or
    the one prefix, then the spacer, then `?`, which makes only the LAST written character
    optional. With one empty prefix and an empty spacer the `?` has nothing to repeat and
    `new RegExp` throws: `None`.
  */
  function PrefixAtoms(p: DateProperty): (r: Option<seq<Atom>>)
    ensures p.kind == DueKind ==> r.Some? && Mandatory(r.value)
    ensures r.None? <==> p.kind == CreatedKind && |p.prefixes| == 1 && p.prefixes[0] + p.prefixSpacer == ""
  {
    match p.kind
    case DueKind => Some(if |p.prefixes| > 0 then [Atom(Concat(p.prefixes), false)] else [])
    case CreatedKind =>
      if |p.prefixes| == 0 then Some([])
      else
        var lead := if |p.prefixes| > 1 then [Atom(Concat(p.prefixes), false)] + Lits(p.prefixSpacer)
                    else Lits(p.prefixes[0] + p.prefixSpacer);
        if lead == [] then None
        else Some(lead[..|lead| - 1] + [lead[|lead| - 1].(optional := true)])
  }

  /** The atoms after the date: one class of all suffix characters, when there are suffixes. */
  function SuffixAtoms(p: DateProperty): (r: seq<Atom>)
    ensures Mandatory(r) && |r| <= 1
  {
    if |p.suffixes| > 0 then [Atom(Concat(p.suffixes), false)] else []
  }

  /** The whole compiled expression: prefix atoms, the date, suffix atoms. */
  function Pattern(p: DateProperty): (r: Option<seq<Atom>>)
    ensures r.Some? <==> PrefixAtoms(p).Some?
    ensures r.Some? ==> |r.value| >= 10 + |SuffixAtoms(p)|
    ensures r.Some? ==> r.value[|r.value| - 10 - |SuffixAtoms(p)|..] == DateAtoms + SuffixAtoms(p)
  {
    match PrefixAtoms(p)
    case None => None
    case Some(pre) =>
      DateAtomsLength();
      ConcatBack(pre, DateAtoms, SuffixAtoms(p));
      Some(pre + DateAtoms + SuffixAtoms(p))
  }

  /** In a match of the pattern, the characters just before the suffix atoms are date text. */
  lemma CaptureIsDate(p: DateProperty, s: string, m: (nat, nat))
    requires Pattern(p).Some? && Exec(s, Pattern(p).value) == Some(m)
    ensures m.0 + 10 + |SuffixAtoms(p)| <= m.1
    ensures IsDateText(s[m.1 - |SuffixAtoms(p)| - 10..m.1 - |SuffixAtoms(p)|])
  {
    var atoms := Pattern(p).value;
    DateBeforeSuffix(s, m.0, atoms, SuffixAtoms(p));
  }

  /** A match of atoms ending in the date atoms and a mandatory suffix has date text before the suffix. */
  lemma DateBeforeSuffix(s: string, i: nat, atoms: seq<Atom>, suffix: seq<Atom>)
    requires i <= |s| && MatchFrom(s, i, atoms).Some? && Mandatory(suffix)
    requires |atoms| >= 10 + |suffix| && atoms[|atoms| - 10 - |suffix|..] == DateAtoms + suffix
    ensures var e := MatchFrom(s, i, atoms).value;
      i + 10 + |suffix| <= e && IsDateText(s[e - |suffix| - 10..e - |suffix|])
  {
    DateTailMatched(s, i, atoms, suffix);
    TailDate(s, MatchFrom(s, i, atoms).value, DateAtoms + suffix, suffix);
  }

  /** The date and suffix atoms, all mandatory, consume the last characters of the match one each. */
  lemma DateTailMatched(s: string, i: nat, atoms: seq<Atom>, suffix: seq<Atom>)
    requires i <= |s| && MatchFrom(s, i, atoms).Some? && Mandatory(suffix)
    requires |atoms| >= 10 + |suffix| && atoms[|atoms| - 10 - |suffix|..] == DateAtoms + suffix
    ensures var e := MatchFrom(s, i, atoms).value;
      i + 10 + |suffix| <= e && MatchesEach(s[e - 10 - |suffix|..e], DateAtoms + suffix)
  {
    var tail := DateAtoms + suffix;
    assert Mandatory(tail) by {
      DateAtomsMandatory();
      MandatoryConcat(DateAtoms, suffix);
    }
    assert |tail| == 10 + |suffix|;
    MandatoryTailMatched(s, i, atoms, tail);
  }

  /** `TailMatched` for a mandatory tail given by its atoms rather than by its length. */
  lemma MandatoryTailMatched(s: string, i: nat, atoms: seq<Atom>, tail: seq<Atom>)
    requires i <= |s| && MatchFrom(s, i, atoms).Some? && Mandatory(tail)
    requires |tail| <= |atoms| && atoms[|atoms| - |tail|..] == tail
    ensures var e := MatchFrom(s, i, atoms).value;
      i + |tail| <= e && MatchesEach(s[e - |tail|..e], tail)
  {
    TailMatched(s, i, atoms, |tail|, MatchFrom(s, i, atoms).value);
  }

  /** Text the date atoms and then the suffix atoms accept one by one starts with date text. */
  lemma TailDate(s: string, e: nat, tail: seq<Atom>, suffix: seq<Atom>)
    requires 10 + |suffix| <= e <= |s| && tail == DateAtoms + suffix
    requires MatchesEach(s[e - 10 - |suffix|..e], tail)
    ensures IsDateText(s[e - |suffix| - 10..e - |suffix|])
  {
    var j := e - 10 - |suffix|;
    assert j == e - |suffix| - 10 && j + 10 == e - |suffix|;
    MatchesEachFront(s, j, e, tail, 10);
    assert |DateAtoms| == 10;
    ConcatFront(DateAtoms, suffix);
    DateAtomsText(s[j..j + 10]);
  }

  lemma ConcatBack<T>(a: seq<T>, b: seq<T>, c: seq<T>)
    ensures (a + b + c)[|a + b + c| - |b| - |c|..] == b + c
  {
    assert (a + b + c)[|a|..] == b + c;
  }

  lemma DateAtomsLength()
    ensures |DateAtoms| == 10
  {
  }

  lemma ConcatFront<T>(a: seq<T>, b: seq<T>)
    ensures (a + b)[..|a|] == a
  {
  }

  /** The first `m` characters of a text accepted one by one are accepted by the first `m` atoms. */
  lemma MatchesEachFront(s: string, j: nat, e: nat, atoms: seq<Atom>, m: nat)
    requires j <= e <= |s| && MatchesEach(s[j..e], atoms) && m <= |atoms|
    ensures MatchesEach(s[j..j + m], atoms[..m])
  {
    forall k | 0 <= k < m
      ensures s[j..j + m][k] in atoms[..m][k].chars
    {
      assert s[j..j + m][k] == s[j..e][k];
    }
  }

  lemma DateAtomsMandatory()
    ensures Mandatory(DateAtoms)
  {
  }

  lemma MandatoryConcat(a: seq<Atom>, b: seq<Atom>)
    requires Mandatory(a) && Mandatory(b)
    ensures Mandatory(a + b)
  {
    forall k | 0 <= k < |a + b|
      ensures !(a + b)[k].optional
    {
      if k >= |a| {
        assert (a + b)[k] == b[k - |a|];
      }
    }
  }

  /**
    The value setter given a string: when the expression matches, `value` becomes the captured
    date and `locationIndex`/`length` record where the match is, in UTF-16 code units as
    `indexOf` and `.length` count them; otherwise nothing changes.
    `Failure` is the `SyntaxError` an uncompilable expression throws.
  */
  function AssignText(p: DateProperty, s: string): (r: Result<DateProperty>)
    ensures r.Failure? <==> Pattern(p).None?
    ensures r.Success? && Exec(s, Pattern(p).value).None? ==> r.value == p
    ensures r.Success? && Exec(s, Pattern(p).value).Some? ==>
      var m := Exec(s, Pattern(p).value).value;
      var n := |SuffixAtoms(p)|;
      && m.0 + 10 + n <= m.1
      && IsDateText(s[m.1 - n - 10..m.1 - n])
      && r.value == p.(value := Some(Parse(s[m.1 - n - 10..m.1 - n])),
                       locationIndex := Utf16Length(s[..m.0]), length := Utf16Length(s[m.0..m.1]))
  {
    match Pattern(p)
    case None => Failure("SyntaxError: Invalid regular expression: Nothing to repeat")
    case Some(atoms) =>
      match Exec(s, atoms)
      case None => Success(p)
      case Some(m) =>
        CaptureIsDate(p, s, m);
        LocationIsMatchStart(s, atoms);
        var n := |SuffixAtoms(p)|;
        var location := IndexOf(s, s[m.0..m.1]).value;
        Success(p.(value := Some(Parse(s[m.1 - n - 10..m.1 - n])),
                   locationIndex := Utf16Length(s[..location]), length := Utf16Length(s[m.0..m.1])))
  }

  /** The setter given a text where a suffix-free pattern matches `m` and the ten characters before its end read `d`. */
  lemma AssignFound(p: DateProperty, s: string, st: nat, en: nat, d: Date)
    requires Pattern(p).Some? && SuffixAtoms(p) == [] && Exec(s, Pattern(p).value) == Some((st, en))
    requires 10 <= en <= |s| && IsDateText(s[en - 10..en]) && Parse(s[en - 10..en]) == d
    ensures AssignText(p, s) == Success(p.(value := Some(d), locationIndex := Utf16Length(s[..st]), length := Utf16Length(s[st..en])))
  {
  }

  /** What a constructor may be given: nothing, a string to search, or a date. */
  datatype Init = NoInit | TextInit(text: string) | DateInit(date: Date)

  /**
    The constructors: `if (value)` skips a missing argument and the empty string; a string goes
    through the setter; a date (moment or `Date`) is stored as it is.
  */
  function Construct(blank: DateProperty, init: Init): (r: Result<DateProperty>)
    requires blank.value.None?
    ensures init.NoInit? || init == TextInit("") ==> r == Success(blank)
    ensures init.DateInit? ==> r == Success(blank.(value := Some(init.date)))
    ensures init.TextInit? && init.text != "" ==> r == AssignText(blank, init.text)
    ensures r.Success? && r.value.value.None? ==> r.value == blank
  {
    match init
    case NoInit => Success(blank)
    case TextInit(s) => if s == "" then Success(blank) else AssignText(blank, s)
    case DateInit(d) => Success(blank.(value := Some(d)))
  }

  /** Handlebars' `{{…}}` escaping, applied to every value a template writes. */
  function EscapeChar(c: char): (r: string)
    ensures |r| >= 1
  {
    match c
    case '&' => "&amp;"
    case '<' => "&lt;"
    case '>' => "&gt;"
    case '"' => "&quot;"
    case '\'' => "&#x27;"
    case '`' => "&#x60;"
    case '=' => "&#x3D;"
    case _ => [c]
  }

  function Escape(s: string): (r: string)
    ensures |r| >= |s|
  {
    if s == [] then "" else EscapeChar(s[0]) + Escape(s[1..])
  }

  predicate NeedsNoEscape(s: string) {
    forall c :: c in s ==> c !in "&<>\"'`="
  }

  /** Text without the escaped characters is written as it is. */
  lemma {:induction false} EscapePlain(s: string)
    requires NeedsNoEscape(s)
    ensures Escape(s) == s
    decreases |s|
  {
    if s != [] {
      assert s[0] in s;
      EscapeCharPlain(s[0]);
      NeedsNoEscapeTail(s);
      EscapePlain(s[1..]);
      assert s == [s[0]] + s[1..];
    }
  }

  lemma EscapeCharPlain(c: char)
    requires c !in "&<>\"'`="
    ensures EscapeChar(c) == [c]
  {
  }

  lemma NeedsNoEscapeTail(s: string)
    requires s != [] && NeedsNoEscape(s)
    ensures NeedsNoEscape(s[1..])
  {
    forall c | c in s[1..]
      ensures c !in "&<>\"'`="
    {
      assert c in s;
    }
  }

  /** The `date` helper's text: the formatted value, or `''` (created) when there is none. */
  function DateText(p: DateProperty): (r: Result<string>)
    ensures p.value.Some? ==> r == Success(Format(p.value.value))
    ensures p.value.None? ==> (r.Success? <==> p.kind == CreatedKind)
    ensures r.Success? && p.value.None? ==> r.value == ""
  {
    match p.value
    case Some(d) => Success(Format(d))
    case None =>
      match p.kind
      case CreatedKind => Success("")
      case DueKind => Failure("TypeError: Cannot read properties of null (reading 'format')")
  }

  /**
    `toMarkdownString`: prefix, spacer (created only) and date, each escaped. The due helper
    dereferences a missing value and throws.
  */
  function MarkdownString(p: DateProperty): (r: Result<string>)
    ensures r.Success? <==> DateText(p).Success?
    ensures r.Success? ==> StartsWith(r.value, Escape(p.defaultPrefix))
  {
    match DateText(p)
    case Failure(e) => Failure(e)
    case Success(d) =>
      var spacer := if p.kind == CreatedKind then Escape(p.prefixSpacer) else "";
      Success(Escape(p.defaultPrefix) + spacer + Escape(d))
  }

  /** `toRenderedString`: the short template is the escaped prefix alone; the default one is the markdown text. */
  function RenderedString(p: DateProperty, short: bool): (r: Result<string>)
    ensures short ==> r == Success(Escape(p.defaultPrefix))
    ensures !short ==> r == MarkdownString(p)
  {
    if short then Success(Escape(p.defaultPrefix)) else MarkdownString(p)
  }

  /** A formatted date needs no escaping. */
  lemma FormatPlain(d: Date)
    ensures NeedsNoEscape(Format(d))
  {
    var y, m, dd := Decimal(d.year, 4), Decimal(d.month, 2), Decimal(d.day, 2);
    assert Format(d) == y + "-" + m + "-" + dd;
    forall c | c in Format(d)
      ensures c !in "&<>\"'`="
    {
      assert c in y || c == '-' || c in m || c in dd;
    }
  }

  /** The intended created marker, then a space and a date: the text `toMarkdownString` writes. */
  function CreatedText(d: Date): string {
    CreatedPrefix(Intended) + " " + Format(d)
  }

  /** The compiled created pattern: the marker, an optional space, the date. */
  lemma CreatedPattern(sp: Spelling)
    ensures var lead := Lits(CreatedPrefix(sp) + " ");
      Pattern(NewCreated(sp)) == Some(lead[..|lead| - 1] + [Atom(" ", true)] + DateAtoms)
    ensures sp == Intended ==> Pattern(NewCreated(sp)) == Some(CreatedAtoms())
  {
    var p := NewCreated(sp);
    var lead := Lits(CreatedPrefix(sp) + " ");
    assert |p.prefixes| == 1 && p.prefixes[0] + p.prefixSpacer == CreatedPrefix(sp) + " ";
    assert lead[|lead| - 1] == Atom(" ", false);
    var pre := lead[..|lead| - 1] + [Atom(" ", true)];
    assert PrefixAtoms(p) == Some(pre);
    assert SuffixAtoms(p) == [];
    assert pre + DateAtoms + [] == pre + DateAtoms;
    if sp == Intended {
      var text := CreatedPrefix(sp) + " ";
      assert lead[0] == Atom([text[0]], false);
      assert [text[0]] == CreatedPrefix(Intended);
      assert lead[..|lead| - 1] == [lead[0]];
      assert pre == [Atom(CreatedPrefix(Intended), false), Atom(" ", true)];
      assert pre + DateAtoms == CreatedAtoms();
    }
  }

  /** The compiled due pattern: one class of every marker character (the space included), the date. */
  lemma DuePattern(sp: Spelling)
    ensures Pattern(NewDue(sp)) == Some([Atom(Concat(DuePrefixes(sp)), false)] + DateAtoms)
    ensures ' ' in Concat(DuePrefixes(sp))
  {
    var p := NewDue(sp);
    var ps := DuePrefixes(sp);
    assert ' ' in ps[0];
    assert PrefixAtoms(p) == Some([Atom(Concat(ps), false)]);
    assert SuffixAtoms(p) == [];
    assert [Atom(Concat(ps), false)] + DateAtoms + [] == [Atom(Concat(ps), false)] + DateAtoms;
  }


  /** A character without an entity is written as itself. */
  lemma EscapeFirst(s: string)
    requires s != [] && s[0] !in "&<>\"'`="
    ensures |Escape(s)| >= 1 && Escape(s)[0] == s[0]
  {
    assert EscapeChar(s[0]) == [s[0]];
  }

  /** The intended created atoms: the marker, an optional space, the date. */
  function CreatedAtoms(): seq<Atom> {
    [Atom(CreatedPrefix(Intended), false), Atom(" ", true)] + DateAtoms
  }

  /** Where `➕ YYYY-MM-DD` stands, the created atoms match those twelve characters. */
  lemma CreatedMatchAt(s: string, i: nat, d: Date)
    requires OccursAt(s, CreatedText(d), i) && Printable(d)
    ensures MatchFrom(s, i, CreatedAtoms()) == Some(i + 12)
  {
    var f := Format(d);
    ParseFormat(d);
    var t := CreatedText(d);
    var c := CreatedPrefix(Intended)[0];
    assert CreatedPrefix(Intended) == [c];
    assert |t| == 12 && t[0] == c && t[1] == ' ' && t[2..] == f;
    assert s[i..i + 12] == t;
    assert s[i] == c && s[i + 1] == ' ';
    assert s[i + 2..i + 12] == f by {
      assert s[i + 2..i + 12] == t[2..];
    }
    MarkerSpaceDateMatchAt(s, i, c);
  }

  /** A marker character, a space and date text are matched by the marker, the optional space and the date atoms. */
  lemma MarkerSpaceDateMatchAt(s: string, i: nat, c: char)
    requires i + 12 <= |s| && s[i] == c && s[i + 1] == ' ' && IsDateText(s[i + 2..i + 12])
    ensures MatchFrom(s, i, [Atom([c], false), Atom(" ", true)] + DateAtoms) == Some(i + 12)
  {
    var space := [Atom(" ", true)] + DateAtoms;
    DateAtomsFrom(s, i + 2);
    TakeStep(s, i + 1, Atom(" ", true), DateAtoms);
    TakeStep(s, i, Atom([c], false), space);
    assert [Atom([c], false), Atom(" ", true)] + DateAtoms == [Atom([c], false)] + space;
  }

  /** Date text is matched by the date atoms, ten characters. */
  lemma DateAtomsFrom(s: string, j: nat)
    requires j + 10 <= |s| && IsDateText(s[j..j + 10])
    ensures MatchFrom(s, j, DateAtoms) == Some(j + 10)
  {
    DateTextAccepted(s[j..j + 10]);
    assert |DateAtoms| == 10 && Mandatory(DateAtoms);
    MandatoryStep(s, j, DateAtoms, []);
    assert DateAtoms + [] == DateAtoms;
  }

  /** An atom that takes the next character, followed by atoms that then match, consumes it. */
  lemma TakeStep(s: string, j: nat, a: Atom, rest: seq<Atom>)
    requires j < |s| && s[j] in a.chars && MatchFrom(s, j + 1, rest).Some?
    ensures MatchFrom(s, j, [a] + rest) == MatchFrom(s, j + 1, rest)
  {
    assert ([a] + rest)[0] == a && ([a] + rest)[1..] == rest;
  }

  /** In a line whose first `➕` starts `➕ YYYY-MM-DD`, the leftmost match is those twelve characters. */
  lemma CreatedExec(x: string, d: Date, y: string)
    requires CreatedPrefix(Intended)[0] !in x && Printable(d)
    ensures Exec(x + CreatedText(d) + y, CreatedAtoms()) == Some((|x|, |x| + 12))
  {
    var s := x + CreatedText(d) + y;
    var atoms := CreatedAtoms();
    assert OccursAt(s, CreatedText(d), |x|);
    CreatedMatchAt(s, |x|, d);
    assert atoms[0].chars == CreatedPrefix(Intended) == [CreatedPrefix(Intended)[0]];
    forall j: nat | j < |x|
      ensures MatchFrom(s, j, atoms).None?
    {
      assert s[j] == x[j] && x[j] in x;
      MissAt(s, j, atoms);
    }
    ExecAt(s, atoms, |x|, |x| + 12);
  }

  /**
    A fresh created property given a line whose first `➕` starts `➕ YYYY-MM-DD` takes that date
    and records where the marker stands and the twelve characters matched.
  */
  lemma CreatedFindsFirstMarker(x: string, d: Date, y: string)
    requires CreatedPrefix(Intended)[0] !in x && Printable(d)
    ensures AssignText(NewCreated(Intended), x + CreatedText(d) + y)
      == Success(NewCreated(Intended).(value := Some(d), locationIndex := Utf16Length(x), length := 12))
  {
    var p := NewCreated(Intended);
    var s := x + CreatedText(d) + y;
    CreatedPattern(Intended);
    assert Pattern(p) == Some(CreatedAtoms());
    assert SuffixAtoms(p) == [];
    CreatedExec(x, d, y);
    CreatedDateAt(x, d, y);
    AssignFormatted(p, s, |x|, |x| + 12, d);
    assert s[..|x|] == x;
    assert s[|x|..|x| + 12] == CreatedText(d);
    CreatedTextUtf16(d);
  }

  /** `➕ YYYY-MM-DD` is twelve UTF-16 code units: the marker lies inside the Basic Multilingual Plane. */
  lemma CreatedTextUtf16(d: Date)
    requires Printable(d)
    ensures Utf16Length(CreatedText(d)) == 12
  {
    ParseFormat(d);
    DateTextUtf16(Format(d));
    Utf16Append(CreatedPrefix(Intended) + " ", Format(d));
  }

  /** In `x ➕ YYYY-MM-DD y` the date stands in the ten characters ending twelve after `x`. */
  lemma CreatedDateAt(x: string, d: Date, y: string)
    requires Printable(d)
    ensures var s := x + CreatedText(d) + y;
      |x| + 12 <= |s| && s[|x| + 12 - 10..|x| + 12] == Format(d)
  {
    var f := Format(d);
    ParseFormat(d);
    var t := CreatedText(d);
    assert |CreatedPrefix(Intended)| == 1 && |t| == 12 && t[2..] == f;
    var s := x + t + y;
    assert s[|x|..|x| + 12] == t;
    assert s[|x| + 2..|x| + 12] == t[2..];
  }

  /** A line without the `➕` marker leaves a fresh created property without a value. */
  lemma CreatedAbsent(s: string)
    requires CreatedPrefix(Intended)[0] !in s
    ensures AssignText(NewCreated(Intended), s) == Success(NewCreated(Intended))
  {
    CreatedPattern(Intended);
    var atoms := CreatedAtoms();
    forall j: nat | j <= |s|
      ensures MatchFrom(s, j, atoms).None?
    {
      assert atoms[0] == Atom(CreatedPrefix(Intended), false);
      if j < |s| {
        assert s[j] !in atoms[0].chars;
      }
    }
  }

  /** With the intended marker, a created date's markdown is exactly `➕ YYYY-MM-DD`. */
  lemma MarkdownOfCreated(d: Date)
    ensures MarkdownString(NewCreated(Intended).(value := Some(d))) == Success(CreatedText(d))
  {
    FormatPlain(d);
    EscapePlain(Format(d));
    EscapePlain(CreatedPrefix(Intended));
    EscapePlain(" ");
  }

  /**
    Replacing a parsed property's markdown with another property's markdown changes only the
    date in the line.
  */
  lemma ReplaceCreatedDate(x: string, d: Date, y: string, d': Date)
    requires CreatedPrefix(Intended)[0] !in x && Printable(d) && Printable(d')
    ensures var parsed := AssignText(NewCreated(Intended), x + CreatedText(d) + y);
      && parsed.Success?
      && MarkdownString(parsed.value) == Success(CreatedText(d))
      && ReplaceFirst(x + CreatedText(d) + y, MarkdownString(parsed.value).value,
                      MarkdownString(NewCreated(Intended).(value := Some(d'))).value)
         == x + CreatedText(d') + y
  {
    CreatedFindsFirstMarker(x, d, y);
    MarkdownOfLocated(d, Utf16Length(x), 12);
    MarkdownOfCreated(d');
    CreatedReplacedAt(x, d, y, d');
  }

  /** Where the match was found does not change a created property's markdown. */
  lemma MarkdownOfLocated(d: Date, at: nat, n: nat)
    ensures MarkdownString(NewCreated(Intended).(value := Some(d), locationIndex := at, length := n)) == Success(CreatedText(d))
  {
    FormatPlain(d);
    EscapePlain(Format(d));
    EscapePlain(CreatedPrefix(Intended));
    EscapePlain(" ");
  }

  /** Replacing the first created segment in a line whose text before it holds no `➕`. */
  lemma CreatedReplacedAt(x: string, d: Date, y: string, d': Date)
    requires CreatedPrefix(Intended)[0] !in x
    ensures ReplaceFirst(x + CreatedText(d) + y, CreatedText(d), CreatedText(d')) == x + CreatedText(d') + y
  {
    var s := x + CreatedText(d) + y;
    var t := CreatedText(d);
    assert OccursAt(s, t, |x|);
    forall j | 0 <= j < |x|
      ensures !OccursAt(s, t, j)
    {
      assert s[j] == x[j];
      assert t[0] == CreatedPrefix(Intended)[0];
    }
    assert IndexOf(s, t) == Some(|x|);
    assert s[..|x|] == x;
    assert s[|x| + |t|..] == y;
  }

  /** Reading back the markdown text of a created date gives the date (intended marker). */
  lemma CreatedMarkdownRoundTrip(d: Date)
    requires Printable(d)
    ensures AssignText(NewCreated(Intended), MarkdownString(NewCreated(Intended).(value := Some(d))).value).value.value == Some(d)
  {
    MarkdownOfCreated(d);
    var p := NewCreated(Intended);
    assert AssignText(p, CreatedText(d)) == Success(p.(value := Some(d), locationIndex := 0, length := 12)) by {
      CreatedFindsFirstMarker("", d, "");
      assert "" + CreatedText(d) + "" == CreatedText(d);
    }
  }

  /** The intended due atoms: one class of the marker characters, the date. */
  function DueAtoms(): seq<Atom> {
    [Atom(Concat(DuePrefixes(Intended)), false)] + DateAtoms
  }

  /** In `📅 YYYY-MM-DD` the due atoms match from the space on: the space is in the marker class. */
  lemma DueExec(d: Date)
    requires Printable(d)
    ensures Exec(DuePrefixes(Intended)[0] + Format(d), DueAtoms()) == Some((1, 12))
  {
    var s := DuePrefixes(Intended)[0] + Format(d);
    DueMatchAt(s, d);
    DueNoMatchAtMarker(s, d);
    ExecAtOne(s, DueAtoms(), 12);
  }

  /** The leftmost match is at 1 when the atoms fail at 0 and match at 1. */
  lemma ExecAtOne(s: string, atoms: seq<Atom>, en: nat)
    requires 1 <= |s| && MatchFrom(s, 0, atoms).None? && MatchFrom(s, 1, atoms) == Some(en)
    ensures Exec(s, atoms) == Some((1, en))
  {
    forall j: nat | j < 1
      ensures MatchFrom(s, j, atoms).None?
    {
      assert j == 0;
    }
    ExecAt(s, atoms, 1, en);
  }

  lemma DueMatchAt(s: string, d: Date)
    requires Printable(d) && s == DuePrefixes(Intended)[0] + Format(d)
    ensures MatchFrom(s, 1, DueAtoms()) == Some(12)
  {
    var w := DuePrefixes(Intended)[0];
    var f := Format(d);
    assert w == "\U{1F4C5} " && |w| == 2;
    ParseFormat(d);
    assert |s| == 12 && s[1] == ' ' && s[2..12] == f;
    DuePattern(Intended);
    ClassDateMatchAt(s, Concat(DuePrefixes(Intended)));
  }

  lemma DueNoMatchAtMarker(s: string, d: Date)
    requires s == DuePrefixes(Intended)[0] + Format(d)
    ensures MatchFrom(s, 0, DueAtoms()).None?
  {
    var w := DuePrefixes(Intended)[0];
    assert w == "\U{1F4C5} " && |w| == 2;
    assert s[1] == ' ';
    ClassDateMissAtZero(s, Concat(DuePrefixes(Intended)));
  }

  /** A one-character class followed by the date atoms matches twelve characters from position 1 on. */
  lemma ClassDateMatchAt(s: string, cs: string)
    requires |s| == 12 && s[1] in cs && IsDateText(s[2..12])
    ensures MatchFrom(s, 1, [Atom(cs, false)] + DateAtoms) == Some(12)
  {
    var atoms := [Atom(cs, false)] + DateAtoms;
    assert atoms[0] == Atom(cs, false) && atoms[1..] == DateAtoms;
    DateTextAccepted(s[2..12]);
    assert |DateAtoms| == 10;
    MandatoryStep(s, 2, DateAtoms, []);
    assert DateAtoms + [] == DateAtoms;
  }

  /** The class and the date atoms fail at 0 when the character at 1 is not a digit. */
  lemma ClassDateMissAtZero(s: string, cs: string)
    requires |s| >= 2 && s[1] !in Digit.chars
    ensures MatchFrom(s, 0, [Atom(cs, false)] + DateAtoms).None?
  {
    var atoms := [Atom(cs, false)] + DateAtoms;
    assert atoms[0] == Atom(cs, false) && atoms[1..] == DateAtoms;
    assert DateAtoms[0] == Digit;
    MissAt(s, 1, DateAtoms);
  }

  /** With the intended markers, a due date's markdown is exactly `📅 YYYY-MM-DD`. */
  lemma MarkdownOfDue(d: Date)
    ensures MarkdownString(NewDue(Intended).(value := Some(d))) == Success(DuePrefixes(Intended)[0] + Format(d))
  {
    var f := Format(d);
    FormatPlain(d);
    EscapePlain(f);
    EscapePlain(DuePrefixes(Intended)[0]);
    assert DuePrefixes(Intended)[0] + "" + f == DuePrefixes(Intended)[0] + f;
  }

  /** Reading back the markdown text of a due date gives the date (intended markers). */
  lemma DueMarkdownRoundTrip(d: Date)
    requires Printable(d)
    ensures AssignText(NewDue(Intended), MarkdownString(NewDue(Intended).(value := Some(d))).value).value.value == Some(d)
  {
    MarkdownOfDue(d);
    DueAssign(d);
  }

  /** `📅 YYYY-MM-DD` assigned to a fresh due property stores the date, found after the marker. */
  lemma DueAssign(d: Date)
    requires Printable(d)
    ensures AssignText(NewDue(Intended), DuePrefixes(Intended)[0] + Format(d))
      == Success(NewDue(Intended).(value := Some(d), locationIndex := 2, length := 11))
  {
    var p := NewDue(Intended);
    var w := DuePrefixes(Intended)[0];
    assert w == "\U{1F4C5} " && |w| == 2;
    DuePattern(Intended);
    assert Pattern(p) == Some(DueAtoms());
    assert SuffixAtoms(p) == [];
    DueExec(d);
    MarkedDateAt(w, d);
    AssignFormatted(p, w + Format(d), 1, 12, d);
    DueTextUtf16(w + Format(d), Format(d));
  }

  /** In `📅 YYYY-MM-DD` the marker is two UTF-16 code units and the space and date eleven. */
  lemma DueTextUtf16(s: string, f: string)
    requires s == "\U{1F4C5} " + f && IsDateText(f)
    ensures Utf16Length(s[..1]) == 2 && Utf16Length(s[1..12]) == 11
  {
    assert s[..1] == "\U{1F4C5}";
    assert s[1..12] == " " + f;
    DateTextUtf16(f);
  }

  /** After a two-character marker, the date stands in characters 2 to 12. */
  lemma MarkedDateAt(w: string, d: Date)
    requires |w| == 2 && Printable(d)
    ensures 12 <= |w + Format(d)| && (w + Format(d))[12 - 10..12] == Format(d)
  {
    ParseFormat(d);
  }

  /** A match whose last ten characters are a formatted date stores that date and the match position. */
  lemma AssignFormatted(p: DateProperty, s: string, st: nat, en: nat, d: Date)
    requires Pattern(p).Some? && SuffixAtoms(p) == [] && Printable(d)
    requires 10 <= en <= |s| && s[en - 10..en] == Format(d)
    requires Exec(s, Pattern(p).value) == Some((st, en))
    ensures AssignText(p, s) == Success(p.(value := Some(d), locationIndex := Utf16Length(s[..st]), length := Utf16Length(s[st..en])))
  {
    assert IsDateText(s[en - 10..en]) && Parse(s[en - 10..en]) == d by {
      ParseFormat(d);
    }
    AssignFound(p, s, st, en, d);
  }

  /**
    As written, the created marker is not `➕`: a created date's markdown does not read
    `➕ YYYY-MM-DD`, and a line holding only `➕ YYYY-MM-DD` yields no date.
  */
  lemma CreatedPrefixAsWritten(d: Date)
    ensures MarkdownString(NewCreated(AsWritten).(value := Some(d))) != Success(CreatedText(d))
    ensures AssignText(NewCreated(AsWritten), CreatedText(d)) == Success(NewCreated(AsWritten))
  {
    CreatedMarkdownAsWritten(d);
    var atoms := CreatedPatternAsWritten();
    CreatedTextMisses(d, atoms);
    NoExec(CreatedText(d), atoms);
  }

  lemma CreatedMarkdownAsWritten(d: Date)
    ensures MarkdownString(NewCreated(AsWritten).(value := Some(d))) != Success(CreatedText(d))
  {
    var w := CreatedPrefix(AsWritten);
    EscapeFirst(w);
    var md := MarkdownString(NewCreated(AsWritten).(value := Some(d))).value;
    assert md[0] == Escape(w)[0] == '\U{E2}';
    assert CreatedText(d)[0] == '\U{2795}';
  }

  lemma CreatedPatternAsWritten() returns (atoms: seq<Atom>)
    ensures Pattern(NewCreated(AsWritten)) == Some(atoms) && atoms != [] && atoms[0] == Atom("\U{E2}", false)
  {
    CreatedPattern(AsWritten);
    atoms := Pattern(NewCreated(AsWritten)).value;
  }

  /** No position of a `➕` date text starts a match of atoms that begin with a mandatory `â`. */
  lemma CreatedTextMisses(d: Date, atoms: seq<Atom>)
    requires atoms != [] && atoms[0] == Atom("\U{E2}", false)
    ensures forall j: nat :: j <= |CreatedText(d)| ==> MatchFrom(CreatedText(d), j, atoms).None?
  {
    var s := CreatedText(d);
    forall j: nat | j <= |s|
      ensures MatchFrom(s, j, atoms).None?
    {
      if j < |s| {
        assert s[j] != '\U{E2}' by {
          if j >= 2 {
            assert s[j] == Format(d)[j - 2];
            assert IsDigit(s[j]) || s[j] == '-' by {
              FormatPlain(d);
            }
          }
        }
      }
      MissAt(s, j, atoms);
    }
  }

  /** Atoms that match at no position give no `exec` result. */
  lemma NoExec(s: string, atoms: seq<Atom>)
    requires forall j: nat :: j <= |s| ==> MatchFrom(s, j, atoms).None?
    ensures Exec(s, atoms).None?
  {
  }

  /** As written, the due marker is not `📅`: a due date's markdown does not read `📅 YYYY-MM-DD`. */
  lemma DuePrefixAsWritten(d: Date)
    ensures MarkdownString(NewDue(AsWritten).(value := Some(d))) != Success(DuePrefixes(Intended)[0] + Format(d))
  {
    var w := DuePrefixes(AsWritten)[0];
    EscapeFirst(w);
    var md := MarkdownString(NewDue(AsWritten).(value := Some(d))).value;
    assert md[0] == Escape(w)[0] == '\U{F0}';
  }
}

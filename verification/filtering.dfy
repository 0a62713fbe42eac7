/**
  `Array.prototype.filter` applied once per filter, as `applyQueryToTasks` does, for any filter
  representation `F` read by `pass`.
*/
module Filtering {

  /** `xs.filter((x) => pass(f, x))`. */
  function Keep<F, T>(xs: seq<T>, f: F, pass: (F, T) -> bool): (r: seq<T>)
    ensures |r| <= |xs|
  {
    if xs == [] then []
    else (if pass(f, xs[0]) then [xs[0]] else []) + Keep(xs[1..], f, pass)
  }

  /** The filters applied one after another, each narrowing the list the previous one left. */
  function FilterAll<F, T>(fs: seq<F>, xs: seq<T>, pass: (F, T) -> bool): (r: seq<T>)
    ensures |r| <= |xs|
  {
    if fs == [] then xs else FilterAll(fs[1..], Keep(xs, fs[0], pass), pass)
  }

  predicate PassesAll<F, T>(fs: seq<F>, x: T, pass: (F, T) -> bool) {
    forall i :: 0 <= i < |fs| ==> pass(fs[i], x)
  }

  /** The reference: the items passing every filter, in their original order. */
  function Selected<F, T>(xs: seq<T>, fs: seq<F>, pass: (F, T) -> bool): seq<T> {
    if xs == [] then []
    else (if PassesAll(fs, xs[0], pass) then [xs[0]] else []) + Selected(xs[1..], fs, pass)
  }

  /** Applying the filters one after another keeps exactly the items passing all of them, in order. */
  lemma {:induction false} FilterAllSelects<F, T>(fs: seq<F>, xs: seq<T>, pass: (F, T) -> bool)
    ensures FilterAll(fs, xs, pass) == Selected(xs, fs, pass)
    decreases |fs|
  {
    if fs == [] {
      SelectedNone(xs, fs, pass);
    } else {
      FilterAllSelects(fs[1..], Keep(xs, fs[0], pass), pass);
      KeepThenSelect(xs, fs, pass);
    }
  }

  lemma {:induction false} SelectedNone<F, T>(xs: seq<T>, fs: seq<F>, pass: (F, T) -> bool)
    requires fs == []
    ensures Selected(xs, fs, pass) == xs
  {
    if xs != [] {
      SelectedNone(xs[1..], fs, pass);
    }
  }

  /** Narrowing by the first filter, then selecting by the rest, selects by all of them. */
  lemma {:induction false} KeepThenSelect<F, T>(xs: seq<T>, fs: seq<F>, pass: (F, T) -> bool)
    requires fs != []
    ensures Selected(Keep(xs, fs[0], pass), fs[1..], pass) == Selected(xs, fs, pass)
  {
    if xs != [] {
      var x := xs[0];
      KeepThenSelect(xs[1..], fs, pass);
      PassesAllCons(fs, x, pass);
      var kept := Keep(xs[1..], fs[0], pass);
      if pass(fs[0], x) {
        assert Keep(xs, fs[0], pass) == [x] + kept;
        SelectedCons(x, kept, fs[1..], pass);
      } else {
        assert Keep(xs, fs[0], pass) == [] + kept == kept;
      }
    }
  }

  lemma PassesAllCons<F, T>(fs: seq<F>, x: T, pass: (F, T) -> bool)
    requires fs != []
    ensures PassesAll(fs, x, pass) <==> pass(fs[0], x) && PassesAll(fs[1..], x, pass)
  {
    if pass(fs[0], x) && PassesAll(fs[1..], x, pass) {
      forall i | 0 <= i < |fs|
        ensures pass(fs[i], x)
      {
        if i > 0 {
          assert fs[i] == fs[1..][i - 1];
        }
      }
    }
  }

  lemma SelectedCons<F, T>(x: T, rest: seq<T>, fs: seq<F>, pass: (F, T) -> bool)
    ensures Selected([x] + rest, fs, pass) == (if PassesAll(fs, x, pass) then [x] else []) + Selected(rest, fs, pass)
  {
    assert ([x] + rest)[1..] == rest;
  }

  /** The filters combine by AND: filter lists with the same members keep the same items, whatever their order. */
  lemma FilterOrderIrrelevant<F, T>(fs: seq<F>, others: seq<F>, xs: seq<T>, pass: (F, T) -> bool)
    requires forall f :: f in fs <==> f in others
    ensures FilterAll(fs, xs, pass) == FilterAll(others, xs, pass)
  {
    FilterAllSelects(fs, xs, pass);
    FilterAllSelects(others, xs, pass);
    SameSelection(xs, fs, others, pass);
  }

  lemma {:induction false} SameSelection<F, T>(xs: seq<T>, fs: seq<F>, others: seq<F>, pass: (F, T) -> bool)
    requires forall f :: f in fs <==> f in others
    ensures Selected(xs, fs, pass) == Selected(xs, others, pass)
  {
    if xs != [] {
      SameSelection(xs[1..], fs, others, pass);
      assert PassesAll(fs, xs[0], pass) <==> PassesAll(others, xs[0], pass) by {
        if PassesAll(fs, xs[0], pass) {
          forall i | 0 <= i < |others| ensures pass(others[i], xs[0]) {
            assert others[i] in fs;
          }
        }
        if PassesAll(others, xs[0], pass) {
          forall i | 0 <= i < |fs| ensures pass(fs[i], xs[0]) {
            assert fs[i] in others;
          }
        }
      }
    }
  }

  /** Every selected item is an input item passing every filter, and every such item is selected. */
  lemma {:induction false} SelectedSound<F, T>(xs: seq<T>, fs: seq<F>, pass: (F, T) -> bool)
    ensures forall x :: x in Selected(xs, fs, pass) ==> x in xs && PassesAll(fs, x, pass)
    ensures forall x :: x in xs && PassesAll(fs, x, pass) ==> x in Selected(xs, fs, pass)
  {
    if xs != [] {
      SelectedSound(xs[1..], fs, pass);
      assert xs == [xs[0]] + xs[1..];
    }
  }
}

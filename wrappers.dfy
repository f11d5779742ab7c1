/** Optional values and the "first element that yields something" search that
    every early-return loop of the scraper performs. */
module Wrappers {

  datatype Option<+T> = None | Some(value: T) {
    /** The value, or `default` when there is none (Python's `x or default`). */
    function GetOr(default: T): T {
      match this
      case Some(v) => v
      case None => default
    }
  }

  /** The result of the first element of `xs` on which `f` yields a value:
      the shape of every `for x in xs: r = f(x); if r: return r` loop. */
  function FirstSome<T, U>(xs: seq<T>, f: T -> Option<U>): (r: Option<U>)
    ensures r.Some? ==>
      exists k :: 0 <= k < |xs| && f(xs[k]) == r && forall j :: 0 <= j < k ==> f(xs[j]).None?
    ensures r.None? ==> forall k :: 0 <= k < |xs| ==> f(xs[k]).None?
  {
    if xs == [] then None
    else if f(xs[0]).Some? then f(xs[0])
    else FirstSome(xs[1..], f)
  }

  /** The converse of FirstSome's postcondition: the element at `k` wins when
      every element before it yields nothing. */
  lemma {:induction false} FirstSomeAt<T, U>(xs: seq<T>, f: T -> Option<U>, k: nat)
    requires k < |xs| && f(xs[k]).Some?
    requires forall j :: 0 <= j < k ==> f(xs[j]).None?
    ensures FirstSome(xs, f) == f(xs[k])
  {
    if k > 0 {
      FirstSomeAt(xs[1..], f, k - 1);
    }
  }

  /** One step of a search loop: the search from `i` either stops at `xs[i]`
      or continues from `i + 1`. */
  lemma FirstSomeStep<T, U>(xs: seq<T>, f: T -> Option<U>, i: nat)
    requires i < |xs|
    ensures FirstSome(xs[i..], f) == if f(xs[i]).Some? then f(xs[i]) else FirstSome(xs[i + 1..], f)
  {
    assert xs[i..][0] == xs[i];
    assert xs[i..][1..] == xs[i + 1..];
  }

  /** A search over three elements, written out. */
  lemma FirstSomeOfThree<T, U>(xs: seq<T>, f: T -> Option<U>)
    requires |xs| == 3
    ensures FirstSome(xs, f) ==
      if f(xs[0]).Some? then f(xs[0]) else if f(xs[1]).Some? then f(xs[1]) else f(xs[2])
  {
    FirstSomeStep(xs, f, 0);
    FirstSomeStep(xs, f, 1);
    FirstSomeStep(xs, f, 2);
    assert xs[3..] == [];
  }

  /** Searching a concatenation searches the left part first. */
  lemma {:induction false} FirstSomeAppend<T, U>(xs: seq<T>, ys: seq<T>, f: T -> Option<U>)
    ensures FirstSome(xs + ys, f) == if FirstSome(xs, f).Some? then FirstSome(xs, f) else FirstSome(ys, f)
  {
    if xs != [] {
      assert (xs + ys)[0] == xs[0];
      assert (xs + ys)[1..] == xs[1..] + ys;
      FirstSomeAppend(xs[1..], ys, f);
    } else {
      assert xs + ys == ys;
    }
  }
}

/** Option, and the all-or-nothing collection of optional results that models a
    JavaScript `map` whose callback may throw. */
module Wrappers {

  datatype Option<+T> = None | Some(value: T) {

    /** The value in `Some`, or `default` for `None`: a destructuring default. */
    function GetOr(default: T): T {
      if Some? then value else default
    }
  }

  /** `Some` of every value when no entry is `None`, else `None`. */
  function AllSome<T>(xs: seq<Option<T>>): (r: Option<seq<T>>)
    ensures r.Some? <==> forall i :: 0 <= i < |xs| ==> xs[i].Some?
    ensures r.Some? ==> |r.value| == |xs| && forall i :: 0 <= i < |xs| ==> xs[i] == Some(r.value[i])
  {
    if forall i :: 0 <= i < |xs| ==> xs[i].Some? then
      Some(seq(|xs|, i requires 0 <= i < |xs| => xs[i].value))
    else
      None
  }

  /** `xs.map(f)` for a callback that cannot throw. */
  function Map<A, B>(xs: seq<A>, f: A -> B): (r: seq<B>)
    ensures |r| == |xs| && forall i :: 0 <= i < |xs| ==> r[i] == f(xs[i])
  {
    seq(|xs|, i requires 0 <= i < |xs| => f(xs[i]))
  }

  lemma MapConcat<A, B>(xs: seq<A>, ys: seq<A>, f: A -> B)
    ensures Map(xs + ys, f) == Map(xs, f) + Map(ys, f)
  {
  }

  /** Removing the element at `k` takes one occurrence out of the multiset. */
  lemma RemoveAt<A>(ys: seq<A>, k: int)
    requires 0 <= k < |ys|
    ensures multiset(ys[..k] + ys[k + 1..]) == multiset(ys) - multiset{ys[k]}
  {
    assert ys == ys[..k] + [ys[k]] + ys[k + 1..];
  }

  lemma MapRemoveAt<A, B>(ys: seq<A>, k: int, f: A -> B)
    requires 0 <= k < |ys|
    ensures multiset(Map(ys, f)) == multiset(Map(ys[..k] + ys[k + 1..], f)) + multiset{f(ys[k])}
  {
    assert ys == ys[..k] + [ys[k]] + ys[k + 1..];
    MapConcat(ys[..k] + [ys[k]], ys[k + 1..], f);
    MapConcat(ys[..k], [ys[k]], f);
    MapConcat(ys[..k], ys[k + 1..], f);
  }

  /** Mapping two permutations of each other gives permutations of each other. */
  lemma {:induction false} MapPermutation<A, B>(xs: seq<A>, ys: seq<A>, f: A -> B)
    requires multiset(xs) == multiset(ys)
    ensures multiset(Map(xs, f)) == multiset(Map(ys, f))
  {
    if xs == [] {
      assert |multiset(ys)| == 0;
    } else {
      var init, y := xs[..|xs| - 1], xs[|xs| - 1];
      assert xs == init + [y];
      assert y in multiset(ys);
      var k :| 0 <= k < |ys| && ys[k] == y;
      RemoveAt(ys, k);
      MapPermutation(init, ys[..k] + ys[k + 1..], f);
      MapLastMatch(xs, ys, k, f);
    }
  }

  /** The inductive step: the last element of `xs` matched with `ys[k]`. */
  lemma MapLastMatch<A, B>(xs: seq<A>, ys: seq<A>, k: int, f: A -> B)
    requires xs != [] && 0 <= k < |ys| && ys[k] == xs[|xs| - 1]
    requires multiset(Map(xs[..|xs| - 1], f)) == multiset(Map(ys[..k] + ys[k + 1..], f))
    ensures multiset(Map(xs, f)) == multiset(Map(ys, f))
  {
    assert xs == xs[..|xs| - 1] + [xs[|xs| - 1]];
    MapConcat(xs[..|xs| - 1], [xs[|xs| - 1]], f);
    MapRemoveAt(ys, k, f);
  }

  /** `xs.filter(keep)`. */
  function Filter<T>(xs: seq<T>, keep: T -> bool): (r: seq<T>)
    ensures |r| <= |xs|
    ensures forall i :: 0 <= i < |r| ==> keep(r[i])
  {
    if xs == [] then []
    else (if keep(xs[0]) then [xs[0]] else []) + Filter(xs[1..], keep)
  }

  /** `filter` keeps each kept value as often as it occurs, and drops the rest. */
  lemma {:induction false} FilterCount<T>(xs: seq<T>, keep: T -> bool, x: T)
    ensures multiset(Filter(xs, keep))[x] == if keep(x) then multiset(xs)[x] else 0
  {
    if xs != [] {
      FilterCount(xs[1..], keep, x);
      assert xs == [xs[0]] + xs[1..];
    }
  }

  /** `filter` works element by element: it distributes over concatenation. */
  lemma {:induction false} FilterConcat<T>(xs: seq<T>, ys: seq<T>, keep: T -> bool)
    ensures Filter(xs + ys, keep) == Filter(xs, keep) + Filter(ys, keep)
  {
    if xs == [] {
      assert xs + ys == ys;
    } else {
      assert (xs + ys)[0] == xs[0] && (xs + ys)[1..] == xs[1..] + ys;
      FilterConcat(xs[1..], ys, keep);
    }
  }
}

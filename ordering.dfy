/** Ordering of a node's child edges by `childrenOrder`
    (WebhookListener/businessLogic.js:44-52). */
module ChildOrder {
  import opened Wrappers
  import opened JsonValues
  import opened Graph

  /** The id the comparator reads from an edge, `node.factSheet.id`. It is only
      consulted on edges that wrap a fact sheet; for a plain vertex it is the
      vertex id, a value the model never reaches through the comparator. */
  function SortKey(g: GraphNode): string {
    match g
    case Wrapper(_, fs) => fs.id
    case Direct(v) => v.id
  }

  function Keys(s: seq<GraphNode>): (r: seq<string>)
    ensures |r| == |s|
    ensures forall i :: 0 <= i < |s| ==> r[i] == SortKey(s[i])
  {
    seq(|s|, i requires 0 <= i < |s| => SortKey(s[i]))
  }

  /** The rank object `childIdx`: a fold over `childrenOrder` that assigns each
      id its index, a later occurrence overwriting an earlier one. */
  function RankTable(order: seq<Json>): map<string, nat>
  {
    if order == [] then map[]
    else
      var t := RankTable(order[..|order| - 1]);
      match order[|order| - 1]
      case Str(id) => t[id := |order| - 1]
      case _ => t
  }

  /** The comparator `idxA < idxB ? -1 : idxA > idxB ? 1 : 0`; an id missing
      from the table has an undefined rank, so both tests fail and it yields 0. */
  function Compare(table: map<string, nat>, a: GraphNode, b: GraphNode): (c: int)
    ensures -1 <= c <= 1
  {
    var ka := SortKey(a);
    var kb := SortKey(b);
    if ka in table && kb in table then
      if table[ka] < table[kb] then -1 else if table[ka] > table[kb] then 1 else 0
    else 0
  }

  /** Inserts `x` after the last element of the sorted prefix `s` that does not
      compare greater than it: a stable insertion step. */
  function Insert(s: seq<GraphNode>, x: GraphNode, table: map<string, nat>): (r: seq<GraphNode>)
    ensures |r| == |s| + 1
  {
    if s == [] || Compare(table, s[|s| - 1], x) <= 0 then s + [x]
    else Insert(s[..|s| - 1], x, table) + [s[|s| - 1]]
  }

  lemma {:induction false} InsertMultiset(s: seq<GraphNode>, x: GraphNode, table: map<string, nat>)
    ensures multiset(Insert(s, x, table)) == multiset(s) + multiset{x}
  {
    if !(s == [] || Compare(table, s[|s| - 1], x) <= 0) {
      InsertMultiset(s[..|s| - 1], x, table);
      assert s == s[..|s| - 1] + [s[|s| - 1]];
    }
  }

  /** `children.sort(comparator)`, as a stable insertion sort. */
  function SortChildren(s: seq<GraphNode>, table: map<string, nat>): (r: seq<GraphNode>)
    ensures |r| == |s|
    ensures multiset(r) == multiset(s)
  {
    if s == [] then []
    else
      assert s == s[..|s| - 1] + [s[|s| - 1]];
      InsertMultiset(SortChildren(s[..|s| - 1], table), s[|s| - 1], table);
      Insert(SortChildren(s[..|s| - 1], table), s[|s| - 1], table)
  }

  /** An id list as a `childrenOrder` array of strings. */
  function Strs(ids: seq<string>): (r: seq<Json>)
    ensures |r| == |ids| && forall i :: 0 <= i < |ids| ==> r[i] == Str(ids[i])
  {
    seq(|ids|, i requires 0 <= i < |ids| => Str(ids[i]))
  }

  ghost predicate AllRanked(s: seq<GraphNode>, table: map<string, nat>) {
    forall i :: 0 <= i < |s| ==> SortKey(s[i]) in table
  }

  ghost predicate RankSorted(s: seq<GraphNode>, table: map<string, nat>)
    requires AllRanked(s, table)
  {
    forall i, j :: 0 <= i < j < |s| ==> table[SortKey(s[i])] <= table[SortKey(s[j])]
  }

  ghost predicate NoInversion(s: seq<GraphNode>, table: map<string, nat>) {
    forall i, j :: 0 <= i < j < |s| ==> Compare(table, s[i], s[j]) <= 0
  }

  ghost predicate Distinct<T>(s: seq<T>) {
    forall i, j :: 0 <= i < j < |s| ==> s[i] != s[j]
  }

  /** An id is ranked exactly when it occurs in `childrenOrder`, and its rank is
      the position of its last occurrence. */
  lemma {:induction false} RankTableLastPosition(order: seq<Json>, id: string)
    ensures id in RankTable(order) <==> exists i :: 0 <= i < |order| && order[i] == Str(id)
    ensures id in RankTable(order) ==>
      RankTable(order)[id] < |order| && order[RankTable(order)[id]] == Str(id) &&
      forall j :: RankTable(order)[id] < j < |order| ==> order[j] != Str(id)
  {
    if order != [] {
      var p := order[..|order| - 1];
      RankTableLastPosition(p, id);
      if id in RankTable(p) {
        var i := RankTable(p)[id];
        assert order[i] == p[i];
      }
      forall i | 0 <= i < |p|
        ensures order[i] == p[i]
      {
      }
    }
  }

  /** With distinct ids, each id's rank is its index. */
  lemma RankOfDistinct(ids: seq<string>, order: seq<Json>, k: int)
    requires order == Strs(ids)
    requires Distinct(ids)
    requires 0 <= k < |ids|
    ensures ids[k] in RankTable(order) && RankTable(order)[ids[k]] == k
  {
    RankTableLastPosition(order, ids[k]);
    assert order[k] == Str(ids[k]);
  }

  lemma {:induction false} InsertSorted(s: seq<GraphNode>, x: GraphNode, table: map<string, nat>)
    requires AllRanked(s, table) && SortKey(x) in table
    requires RankSorted(s, table)
    ensures AllRanked(Insert(s, x, table), table)
    ensures RankSorted(Insert(s, x, table), table)
  {
    var r := Insert(s, x, table);
    InsertMultiset(s, x, table);
    forall i | 0 <= i < |r|
      ensures SortKey(r[i]) in table
    {
      assert r[i] in multiset(s) + multiset{x};
    }
    if s == [] || Compare(table, s[|s| - 1], x) <= 0 {
    } else {
      var init := s[..|s| - 1];
      var last := s[|s| - 1];
      InsertSorted(init, x, table);
      var r' := Insert(init, x, table);
      InsertMultiset(init, x, table);
      forall i | 0 <= i < |r'|
        ensures table[SortKey(r'[i])] <= table[SortKey(last)]
      {
        assert r'[i] in multiset(init) + multiset{x};
        if r'[i] != x {
          assert r'[i] in init;
        }
      }
    }
  }

  /** When every child id is ranked, the sort orders the children by rank. */
  lemma {:induction false} SortSorted(s: seq<GraphNode>, table: map<string, nat>)
    requires AllRanked(s, table)
    ensures AllRanked(SortChildren(s, table), table)
    ensures RankSorted(SortChildren(s, table), table)
  {
    if s != [] {
      SortSorted(s[..|s| - 1], table);
      InsertSorted(SortChildren(s[..|s| - 1], table), s[|s| - 1], table);
    }
  }

  /** An order without inversions is left as it is: in particular the children
      keep the query order when none of their ids is ranked. */
  lemma {:induction false} SortKeepsOrder(s: seq<GraphNode>, table: map<string, nat>)
    requires NoInversion(s, table)
    ensures SortChildren(s, table) == s
  {
    if s != [] {
      var init, x := s[..|s| - 1], s[|s| - 1];
      assert s == init + [x];
      assert NoInversion(init, table) by {
        forall i, j | 0 <= i < j < |init|
          ensures Compare(table, init[i], init[j]) <= 0
        {
          assert init[i] == s[i] && init[j] == s[j];
        }
      }
      SortKeepsOrder(init, table);
      if init != [] {
        assert Compare(table, init[|init| - 1], x) <= 0 by {
          assert init[|init| - 1] == s[|s| - 2];
        }
      }
      assert SortChildren(s, table) == Insert(init, x, table);
    }
  }

  /** The rank of an edge's id in the table; `None` when it is not ranked. */
  function Rank(table: map<string, nat>, g: GraphNode): Option<nat> {
    if SortKey(g) in table then Some(table[SortKey(g)]) else None
  }

  /** The edges of rank `c`: one class of edges the comparator calls equal. */
  function RankIs(table: map<string, nat>, c: Option<nat>): GraphNode -> bool {
    g => Rank(table, g) == c
  }

  /** An insertion step only moves `x` past edges of a strictly greater rank,
      so within each rank class `x` lands after the edges already there. */
  lemma {:induction false} InsertStable(s: seq<GraphNode>, x: GraphNode, table: map<string, nat>, c: Option<nat>)
    ensures Filter(Insert(s, x, table), RankIs(table, c)) ==
      Filter(s, RankIs(table, c)) + Filter([x], RankIs(table, c))
  {
    var keep := RankIs(table, c);
    if s == [] || Compare(table, s[|s| - 1], x) <= 0 {
      FilterConcat(s, [x], keep);
    } else {
      var init, last := s[..|s| - 1], s[|s| - 1];
      assert s == init + [last];
      InsertStable(init, x, table, c);
      FilterConcat(Insert(init, x, table), [last], keep);
      FilterConcat(init, [last], keep);
      assert Rank(table, last) != Rank(table, x);
      assert [x][1..] == [] && [last][1..] == [];
      assert Filter([x], keep) == [] || Filter([last], keep) == [];
    }
  }

  /** The sort is stable: the edges of any one rank, and the unranked edges,
      come out in the relative order they came in. */
  lemma {:induction false} SortStable(s: seq<GraphNode>, table: map<string, nat>, c: Option<nat>)
    ensures Filter(SortChildren(s, table), RankIs(table, c)) == Filter(s, RankIs(table, c))
  {
    if s != [] {
      var init, last := s[..|s| - 1], s[|s| - 1];
      assert s == init + [last];
      SortStable(init, table, c);
      InsertStable(SortChildren(init, table), last, table, c);
      FilterConcat(init, [last], RankIs(table, c));
    }
  }

  lemma UnrankedKeepsOrder(s: seq<GraphNode>, table: map<string, nat>)
    requires forall i :: 0 <= i < |s| ==> SortKey(s[i]) !in table
    ensures SortChildren(s, table) == s
  {
    SortKeepsOrder(s, table);
  }

  lemma KeysConcat(a: seq<GraphNode>, b: seq<GraphNode>)
    ensures Keys(a + b) == Keys(a) + Keys(b)
  {
  }

  lemma {:induction false} InsertKeys(s: seq<GraphNode>, x: GraphNode, table: map<string, nat>)
    ensures multiset(Keys(Insert(s, x, table))) == multiset(Keys(s)) + multiset{SortKey(x)}
  {
    if s == [] || Compare(table, s[|s| - 1], x) <= 0 {
      KeysConcat(s, [x]);
    } else {
      var init := s[..|s| - 1];
      InsertKeys(init, x, table);
      KeysConcat(Insert(init, x, table), [s[|s| - 1]]);
      assert s == init + [s[|s| - 1]];
      KeysConcat(init, [s[|s| - 1]]);
    }
  }

  lemma {:induction false} SortKeys(s: seq<GraphNode>, table: map<string, nat>)
    ensures multiset(Keys(SortChildren(s, table))) == multiset(Keys(s))
  {
    if s != [] {
      var init := s[..|s| - 1];
      SortKeys(init, table);
      InsertKeys(SortChildren(init, table), s[|s| - 1], table);
      assert s == init + [s[|s| - 1]];
      KeysConcat(init, [s[|s| - 1]]);
    }
  }

  lemma {:induction false} DistinctCount<T>(b: seq<T>, v: T)
    requires Distinct(b)
    ensures multiset(b)[v] <= 1
  {
    if b != [] {
      var init := b[..|b| - 1];
      assert b == init + [b[|b| - 1]];
      DistinctCount(init, v);
      if b[|b| - 1] == v {
        assert v !in init;
      }
    }
  }

  lemma DistinctByMultiset<T>(a: seq<T>, b: seq<T>)
    requires multiset(a) == multiset(b) && Distinct(b)
    ensures Distinct(a)
  {
    forall i, j | 0 <= i < j < |a|
      ensures a[i] != a[j]
    {
      if a[i] == a[j] {
        assert a == a[..j] + a[j..];
        assert a[i] in a[..j];
        assert a[j] in a[j..];
        DistinctCount(b, a[i]);
        assert false;
      }
    }
  }

  lemma {:induction false} StrictLowerBound(f: seq<int>, i: int)
    requires forall p, q :: 0 <= p < q < |f| ==> f[p] < f[q]
    requires forall p :: 0 <= p < |f| ==> 0 <= f[p]
    requires 0 <= i < |f|
    ensures f[i] >= i
  {
    if i > 0 {
      StrictLowerBound(f, i - 1);
    }
  }

  lemma {:induction false} StrictUpperBound(f: seq<int>, i: int)
    requires forall p, q :: 0 <= p < q < |f| ==> f[p] < f[q]
    requires forall p :: 0 <= p < |f| ==> f[p] < |f|
    requires 0 <= i < |f|
    ensures f[i] <= i
    decreases |f| - i
  {
    if i < |f| - 1 {
      StrictUpperBound(f, i + 1);
    }
  }

  /** Under the permutation precondition every child id is ranked, and its rank
      is the index of that id in `childrenOrder`. */
  lemma RankedByIndex(s: seq<GraphNode>, ids: seq<string>, order: seq<Json>)
    requires order == Strs(ids)
    requires Distinct(ids)
    requires multiset(Keys(s)) == multiset(ids)
    ensures AllRanked(s, RankTable(order))
    ensures forall i :: 0 <= i < |s| ==>
      RankTable(order)[SortKey(s[i])] < |ids| && ids[RankTable(order)[SortKey(s[i])]] == SortKey(s[i])
  {
    var ks := Keys(s);
    forall i | 0 <= i < |s|
      ensures SortKey(s[i]) in RankTable(order)
      ensures RankTable(order)[SortKey(s[i])] < |ids| && ids[RankTable(order)[SortKey(s[i])]] == SortKey(s[i])
    {
      assert ks[i] in multiset(ids);
      var p :| 0 <= p < |ids| && ids[p] == ks[i];
      RankOfDistinct(ids, order, p);
    }
  }

  /** Sorted by rank, with distinct ids whose ranks are their indices in `ids`,
      the keys are `ids` itself. */
  lemma SortedDistinctIsOrder(r: seq<GraphNode>, ids: seq<string>, table: map<string, nat>)
    requires |r| == |ids|
    requires AllRanked(r, table) && RankSorted(r, table)
    requires Distinct(Keys(r))
    requires forall i :: 0 <= i < |r| ==> table[SortKey(r[i])] < |ids| && ids[table[SortKey(r[i])]] == SortKey(r[i])
    ensures Keys(r) == ids
  {
    var f := seq(|r|, i requires 0 <= i < |r| => table[SortKey(r[i])] as int);
    forall p, q | 0 <= p < q < |f|
      ensures f[p] < f[q]
    {
      assert Keys(r)[p] != Keys(r)[q];
    }
    forall i | 0 <= i < |r|
      ensures Keys(r)[i] == ids[i]
    {
      StrictLowerBound(f, i);
      StrictUpperBound(f, i);
    }
  }

  /** When `childrenOrder` lists exactly the children's distinct fact-sheet ids,
      the sorted children follow it exactly. */
  lemma SortFollowsOrder(s: seq<GraphNode>, ids: seq<string>, order: seq<Json>)
    requires order == Strs(ids)
    requires Distinct(ids)
    requires multiset(Keys(s)) == multiset(ids)
    ensures Keys(SortChildren(s, RankTable(order))) == ids
  {
    var table := RankTable(order);
    var r := SortChildren(s, table);
    SortKeys(s, table);
    assert |Keys(r)| == |ids| by {
      assert |multiset(Keys(r))| == |multiset(ids)|;
    }
    RankedByIndex(s, ids, order);
    SortSorted(s, table);
    RankedByIndex(r, ids, order);
    DistinctByMultiset(Keys(r), ids);
    SortedDistinctIsOrder(r, ids, table);
  }

  /** `children.sort(comparator)` in place: a stable insertion sort over the
      edge array, equal to `SortChildren` of the original contents. */
  method SortInPlace(a: array<GraphNode>, table: map<string, nat>)
    modifies a
    ensures a[..] == SortChildren(old(a[..]), table)
  {
    ghost var s := a[..];
    var i := 0;
    while i < a.Length
      invariant 0 <= i <= a.Length
      invariant a[..i] == SortChildren(s[..i], table)
      invariant forall k :: i <= k < a.Length ==> a[k] == s[k]
    {
      InsertAt(a, i, table);
      SortSnoc(s, i, table);
      i := i + 1;
    }
    assert a[..] == a[..a.Length] && s == s[..a.Length];
  }

  /** One pass of the insertion sort: shifts the prefix elements that compare
      greater than `a[i]` one place right and drops `a[i]` into the gap. */
  method InsertAt(a: array<GraphNode>, i: int, table: map<string, nat>)
    requires 0 <= i < a.Length
    modifies a
    ensures a[..i + 1] == Insert(old(a[..i]), old(a[i]), table)
    ensures forall k :: i < k < a.Length ==> a[k] == old(a[k])
  {
    ghost var p := a[..i];
    var x := a[i];
    var j := i;
    while j > 0 && Compare(table, a[j - 1], x) > 0
      invariant 0 <= j <= i
      invariant forall k :: 0 <= k < j ==> a[k] == p[k]
      invariant forall k :: j < k <= i ==> a[k] == p[k - 1]
      invariant forall k :: i < k < a.Length ==> a[k] == old(a[k])
      invariant forall k :: j <= k < i ==> Compare(table, p[k], x) > 0
    {
      a[j] := a[j - 1];
      j := j - 1;
    }
    a[j] := x;
    InsertPosition(p, x, table, j);
    Splice(a[..i + 1], p, x, j);
  }

  lemma Splice(b: seq<GraphNode>, p: seq<GraphNode>, x: GraphNode, j: int)
    requires 0 <= j <= |p| && |b| == |p| + 1
    requires forall k :: 0 <= k < j ==> b[k] == p[k]
    requires b[j] == x
    requires forall k :: j < k < |b| ==> b[k] == p[k - 1]
    ensures b == p[..j] + [x] + p[j..]
  {
  }

  lemma SortSnoc(s: seq<GraphNode>, i: int, table: map<string, nat>)
    requires 0 <= i < |s|
    ensures SortChildren(s[..i + 1], table) == Insert(SortChildren(s[..i], table), s[i], table)
  {
    assert s[..i + 1][..i] == s[..i];
  }

  /** `Insert` places `x` right after the last element that does not compare
      greater than it, when all later ones do. */
  lemma {:induction false} InsertPosition(p: seq<GraphNode>, x: GraphNode, table: map<string, nat>, j: int)
    requires 0 <= j <= |p|
    requires j == 0 || Compare(table, p[j - 1], x) <= 0
    requires forall k :: j <= k < |p| ==> Compare(table, p[k], x) > 0
    ensures Insert(p, x, table) == p[..j] + [x] + p[j..]
  {
    if j < |p| {
      var init := p[..|p| - 1];
      InsertPosition(init, x, table, j);
      assert init[..j] == p[..j];
      assert p[j..] == init[j..] + [p[|p| - 1]];
    } else {
      assert p[..j] == p;
    }
  }

}

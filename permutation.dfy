/**
 * The Permutation, Subset, Superset and SubsetAndSuperset constraints.
 * Their summary (`BagRange`) brackets the multiset of values a group of positions can take
 * between a multiset of guaranteed members (`min`) and one of possible members (`max`).
 * A `Bag` is a multiset represented as a sorted sequence with repetition.
 */
module Permutation {
  import opened Logic

  /** Each element is at most the one after it. */
  predicate Sorted(s: seq<int>) {
    |s| <= 1 || (s[0] <= s[1] && Sorted(s[1..]))
  }

  /** A multiset, kept as a sorted sequence. */
  type Bag = s: seq<int> | Sorted(s)

  function Max(x: nat, y: nat): nat { if x < y then y else x }
  function Min(x: nat, y: nat): nat { if x < y then x else y }

  /* ---------- functional definitions of the merge loops ---------- */

  /** The merge performed by `Bag::sum`: elements of `b` not greater than the next element of `a` go first. */
  function Merge(a: seq<int>, b: seq<int>): seq<int>
    decreases |a| + |b|
  {
    if a == [] then b
    else if b != [] && b[0] <= a[0] then [b[0]] + Merge(a, b[1..])
    else [a[0]] + Merge(a[1..], b)
  }

  /** The merge performed by `Bag::union`: one copy of an element that heads both sides. */
  function Union(a: seq<int>, b: seq<int>): seq<int>
    decreases |a| + |b|
  {
    if a == [] && b == [] then []
    else if a != [] && (b == [] || a[0] < b[0]) then [a[0]] + Union(a[1..], b)
    else if b != [] && (a == [] || b[0] < a[0]) then [b[0]] + Union(a, b[1..])
    else [a[0]] + Union(a[1..], b[1..])
  }

  /** The walk performed by `Bag::intersection`. */
  function Intersection(a: seq<int>, b: seq<int>): seq<int>
    decreases |a| + |b|
  {
    if a == [] then []
    else if b != [] && b[0] < a[0] then Intersection(a, b[1..])
    else if b != [] && b[0] == a[0] then [a[0]] + Intersection(a[1..], b[1..])
    else Intersection(a[1..], b)
  }

  /** The walk performed by `Bag::is_subset`. */
  function IsSub(a: seq<int>, b: seq<int>): bool
    decreases |a| + |b|
  {
    if a == [] then true
    else if b == [] then false
    else if b[0] < a[0] then IsSub(a, b[1..])
    else if b[0] > a[0] then false
    else IsSub(a[1..], b[1..])
  }

  /**
   * `Merge` as the loops of `Bag::sum` compute it: `acc` is the output so far, and `i` elements
   * of `a` and `j` of `b` have been taken.
   */
  function MergeAcc(acc: seq<int>, a: seq<int>, b: seq<int>, i: nat, j: nat): seq<int>
    requires i <= |a| && j <= |b|
    decreases |a| - i + |b| - j
  {
    if i == |a| then acc + b[j..]
    else if j < |b| && b[j] <= a[i] then MergeAcc(acc + [b[j]], a, b, i, j + 1)
    else MergeAcc(acc + [a[i]], a, b, i + 1, j)
  }

  lemma {:induction false} MergeAccIsMerge(acc: seq<int>, a: seq<int>, b: seq<int>, i: nat, j: nat)
    requires i <= |a| && j <= |b|
    ensures MergeAcc(acc, a, b, i, j) == acc + Merge(a[i..], b[j..])
    decreases |a| - i + |b| - j
  {
    if i == |a| {
      assert a[i..] == [];
    } else if j < |b| && b[j] <= a[i] {
      MergeAccIsMerge(acc + [b[j]], a, b, i, j + 1);
      assert b[j..][1..] == b[j + 1..];
      Snoc(acc, b[j], Merge(a[i..], b[j + 1..]));
    } else {
      MergeAccIsMerge(acc + [a[i]], a, b, i + 1, j);
      assert a[i..][1..] == a[i + 1..];
      Snoc(acc, a[i], Merge(a[i + 1..], b[j..]));
    }
  }

  /**
   * `Merge` of what is left once `i` elements of `a` and `j` of `b` have been taken; on concrete
   * inputs it evaluates step by step, which the in-file test below relies on.
   */
  function MergeFrom(a: seq<int>, b: seq<int>, i: nat, j: nat): seq<int>
    requires i <= |a| && j <= |b|
    decreases |a| - i + |b| - j
  {
    if i == |a| then b[j..]
    else if j < |b| && b[j] <= a[i] then [b[j]] + MergeFrom(a, b, i, j + 1)
    else [a[i]] + MergeFrom(a, b, i + 1, j)
  }

  lemma {:induction false} MergeFromIsMerge(a: seq<int>, b: seq<int>, i: nat, j: nat)
    requires i <= |a| && j <= |b|
    ensures MergeFrom(a, b, i, j) == Merge(a[i..], b[j..])
    decreases |a| - i + |b| - j
  {
    if i == |a| {
    } else if j < |b| && b[j] <= a[i] {
      MergeFromIsMerge(a, b, i, j + 1);
      assert b[j..][1..] == b[j + 1..];
    } else {
      MergeFromIsMerge(a, b, i + 1, j);
      assert a[i..][1..] == a[i + 1..];
    }
  }

  /** The walk from its start is the merge of the two sides. */
  lemma MergeAccMerges(a: seq<int>, b: seq<int>)
    ensures MergeAcc([], a, b, 0, 0) == Merge(a, b)
  {
    MergeAccIsMerge([], a, b, 0, 0);
    assert a[0..] == a && b[0..] == b;
    assert [] + Merge(a, b) == Merge(a, b);
  }

  /** Appending one element to the output so far, then the rest. */
  lemma Snoc(acc: seq<int>, x: int, rest: seq<int>)
    ensures acc + ([x] + rest) == (acc + [x]) + rest
  {
  }

  /* ---------- properties of the merges on sorted inputs ---------- */

  lemma SortedTail(s: seq<int>)
    requires Sorted(s) && s != []
    ensures Sorted(s[1..])
  {
  }

  lemma SortedCons(x: int, s: seq<int>)
    requires Sorted(s)
    requires s == [] || x <= s[0]
    ensures Sorted([x] + s)
  {
  }

  /** How often `x` occurs in `[y] + s`. */
  lemma ConsCount(y: int, s: seq<int>, x: int)
    ensures multiset([y] + s)[x] == (if x == y then 1 else 0) + multiset(s)[x]
  {
  }

  /** How often `x` occurs in a non-empty `s`, counting the head apart. */
  lemma HeadCount(s: seq<int>, x: int)
    requires s != []
    ensures multiset(s)[x] == (if x == s[0] then 1 else 0) + multiset(s[1..])[x]
  {
    assert s == [s[0]] + s[1..];
  }

  /** Sorted sequences have no element below their head. */
  lemma {:induction false} SortedNotBelowHead(s: seq<int>, x: int)
    requires Sorted(s) && s != [] && x < s[0]
    ensures multiset(s)[x] == 0
    decreases |s|
  {
    HeadCount(s, x);
    if |s| > 1 {
      SortedNotBelowHead(s[1..], x);
    }
  }

  /** A non-empty sequence is its head followed by its tail, as a multiset. */
  lemma HeadCons(s: seq<int>)
    requires s != []
    ensures multiset(s) == multiset{s[0]} + multiset(s[1..])
  {
    assert s == [s[0]] + s[1..];
  }

  lemma {:induction false} MergeCount(a: seq<int>, b: seq<int>)
    ensures multiset(Merge(a, b)) == multiset(a) + multiset(b)
    decreases |a| + |b|
  {
    if a == [] {
    } else if b != [] && b[0] <= a[0] {
      MergeCount(a, b[1..]);
      HeadCons(b);
      assert multiset(Merge(a, b)) == multiset{b[0]} + multiset(Merge(a, b[1..]));
    } else {
      MergeCount(a[1..], b);
      HeadCons(a);
      assert multiset(Merge(a, b)) == multiset{a[0]} + multiset(Merge(a[1..], b));
    }
  }

  lemma {:induction false} MergeSorted(a: seq<int>, b: seq<int>)
    requires Sorted(a) && Sorted(b)
    ensures Sorted(Merge(a, b))
    ensures Merge(a, b) != [] ==> (a != [] && Merge(a, b)[0] == a[0]) || (b != [] && Merge(a, b)[0] == b[0])
    decreases |a| + |b|
  {
    if a == [] {
    } else if b != [] && b[0] <= a[0] {
      SortedTail(b);
      MergeSorted(a, b[1..]);
      SortedCons(b[0], Merge(a, b[1..]));
    } else {
      SortedTail(a);
      MergeSorted(a[1..], b);
      SortedCons(a[0], Merge(a[1..], b));
    }
  }

  lemma {:induction false} UnionSorted(a: seq<int>, b: seq<int>)
    requires Sorted(a) && Sorted(b)
    ensures Sorted(Union(a, b))
    ensures Union(a, b) != [] ==> (a != [] && Union(a, b)[0] == a[0]) || (b != [] && Union(a, b)[0] == b[0])
    decreases |a| + |b|
  {
    if a == [] && b == [] {
    } else if a != [] && (b == [] || a[0] < b[0]) {
      UnionSorted(a[1..], b);
      SortedCons(a[0], Union(a[1..], b));
    } else if b != [] && (a == [] || b[0] < a[0]) {
      UnionSorted(a, b[1..]);
      SortedCons(b[0], Union(a, b[1..]));
    } else {
      UnionSorted(a[1..], b[1..]);
      SortedCons(a[0], Union(a[1..], b[1..]));
    }
  }

  lemma UnionCountStepLeft(a: seq<int>, b: seq<int>, x: int)
    requires a != [] && (b == [] || a[0] < b[0]) && Sorted(b)
    requires multiset(Union(a[1..], b))[x] == Max(multiset(a[1..])[x], multiset(b)[x])
    ensures multiset(Union(a, b))[x] == Max(multiset(a)[x], multiset(b)[x])
  {
    HeadCount(a, x);
    ConsCount(a[0], Union(a[1..], b), x);
    if b != [] {
      SortedNotBelowHead(b, a[0]);
    }
  }

  lemma UnionCountStepRight(a: seq<int>, b: seq<int>, x: int)
    requires b != [] && (a == [] || a[0] > b[0]) && Sorted(a)
    requires multiset(Union(a, b[1..]))[x] == Max(multiset(a)[x], multiset(b[1..])[x])
    ensures multiset(Union(a, b))[x] == Max(multiset(a)[x], multiset(b)[x])
  {
    HeadCount(b, x);
    ConsCount(b[0], Union(a, b[1..]), x);
    if a != [] {
      SortedNotBelowHead(a, b[0]);
    }
  }

  lemma UnionCountStepBoth(a: seq<int>, b: seq<int>, x: int)
    requires a != [] && b != [] && a[0] == b[0]
    requires multiset(Union(a[1..], b[1..]))[x] == Max(multiset(a[1..])[x], multiset(b[1..])[x])
    ensures multiset(Union(a, b))[x] == Max(multiset(a)[x], multiset(b)[x])
  {
    HeadCount(a, x);
    HeadCount(b, x);
    ConsCount(a[0], Union(a[1..], b[1..]), x);
  }

  lemma {:induction false} UnionCount(a: seq<int>, b: seq<int>, x: int)
    requires Sorted(a) && Sorted(b)
    ensures multiset(Union(a, b))[x] == Max(multiset(a)[x], multiset(b)[x])
    decreases |a| + |b|
  {
    if a == [] && b == [] {
    } else if a != [] && (b == [] || a[0] < b[0]) {
      SortedTail(a);
      UnionCount(a[1..], b, x);
      UnionCountStepLeft(a, b, x);
    } else if b != [] && (a == [] || a[0] > b[0]) {
      SortedTail(b);
      UnionCount(a, b[1..], x);
      UnionCountStepRight(a, b, x);
    } else {
      SortedTail(a);
      SortedTail(b);
      UnionCount(a[1..], b[1..], x);
      UnionCountStepBoth(a, b, x);
    }
  }

  lemma {:induction false} IntersectionSorted(a: seq<int>, b: seq<int>)
    requires Sorted(a) && Sorted(b)
    ensures Sorted(Intersection(a, b))
    ensures Intersection(a, b) != [] ==> a != [] && a[0] <= Intersection(a, b)[0]
    decreases |a| + |b|
  {
    if a == [] {
    } else if b != [] && b[0] < a[0] {
      SortedTail(b);
      IntersectionSorted(a, b[1..]);
    } else if b != [] && b[0] == a[0] {
      SortedTail(a);
      SortedTail(b);
      IntersectionSorted(a[1..], b[1..]);
      SortedCons(a[0], Intersection(a[1..], b[1..]));
    } else {
      SortedTail(a);
      IntersectionSorted(a[1..], b);
    }
  }

  lemma IntersectionCountStepSkipRight(a: seq<int>, b: seq<int>, x: int)
    requires a != [] && b != [] && b[0] < a[0] && Sorted(a)
    requires multiset(Intersection(a, b[1..]))[x] == Min(multiset(a)[x], multiset(b[1..])[x])
    ensures multiset(Intersection(a, b))[x] == Min(multiset(a)[x], multiset(b)[x])
  {
    HeadCount(b, x);
    SortedNotBelowHead(a, b[0]);
  }

  lemma IntersectionCountStepBoth(a: seq<int>, b: seq<int>, x: int)
    requires a != [] && b != [] && b[0] == a[0]
    requires multiset(Intersection(a[1..], b[1..]))[x] == Min(multiset(a[1..])[x], multiset(b[1..])[x])
    ensures multiset(Intersection(a, b))[x] == Min(multiset(a)[x], multiset(b)[x])
  {
    HeadCount(a, x);
    HeadCount(b, x);
    ConsCount(a[0], Intersection(a[1..], b[1..]), x);
  }

  lemma IntersectionCountStepSkipLeft(a: seq<int>, b: seq<int>, x: int)
    requires a != [] && (b == [] || b[0] > a[0]) && Sorted(b)
    requires multiset(Intersection(a[1..], b))[x] == Min(multiset(a[1..])[x], multiset(b)[x])
    ensures multiset(Intersection(a, b))[x] == Min(multiset(a)[x], multiset(b)[x])
  {
    HeadCount(a, x);
    if b != [] {
      SortedNotBelowHead(b, a[0]);
    }
  }

  lemma {:induction false} IntersectionCount(a: seq<int>, b: seq<int>, x: int)
    requires Sorted(a) && Sorted(b)
    ensures multiset(Intersection(a, b))[x] == Min(multiset(a)[x], multiset(b)[x])
    decreases |a| + |b|
  {
    if a == [] {
    } else if b != [] && b[0] < a[0] {
      IntersectionCount(a, b[1..], x);
      IntersectionCountStepSkipRight(a, b, x);
    } else if b != [] && b[0] == a[0] {
      IntersectionCount(a[1..], b[1..], x);
      IntersectionCountStepBoth(a, b, x);
    } else {
      IntersectionCount(a[1..], b, x);
      IntersectionCountStepSkipLeft(a, b, x);
    }
  }

  lemma IsSubStepSkip(a: seq<int>, b: seq<int>)
    requires a != [] && b != [] && b[0] < a[0] && Sorted(a)
    ensures multiset(a) <= multiset(b) <==> multiset(a) <= multiset(b[1..])
  {
    SortedNotBelowHead(a, b[0]);
    if multiset(a) <= multiset(b) {
      forall x ensures multiset(a)[x] <= multiset(b[1..])[x] {
        HeadCount(b, x);
      }
    }
    if multiset(a) <= multiset(b[1..]) {
      forall x ensures multiset(a)[x] <= multiset(b)[x] {
        HeadCount(b, x);
      }
    }
  }

  lemma IsSubStepBoth(a: seq<int>, b: seq<int>)
    requires a != [] && b != [] && b[0] == a[0]
    ensures multiset(a) <= multiset(b) <==> multiset(a[1..]) <= multiset(b[1..])
  {
    if multiset(a) <= multiset(b) {
      forall x ensures multiset(a[1..])[x] <= multiset(b[1..])[x] {
        HeadCount(a, x);
        HeadCount(b, x);
      }
    }
    if multiset(a[1..]) <= multiset(b[1..]) {
      forall x ensures multiset(a)[x] <= multiset(b)[x] {
        HeadCount(a, x);
        HeadCount(b, x);
      }
    }
  }

  lemma {:induction false} IsSubCount(a: seq<int>, b: seq<int>)
    requires Sorted(a) && Sorted(b)
    ensures IsSub(a, b) <==> multiset(a) <= multiset(b)
    decreases |a| + |b|
  {
    if a == [] {
    } else if b == [] {
      assert a[0] in multiset(a);
    } else if b[0] < a[0] {
      SortedTail(b);
      IsSubCount(a, b[1..]);
      IsSubStepSkip(a, b);
    } else if b[0] > a[0] {
      SortedNotBelowHead(b, a[0]);
      assert multiset(a)[a[0]] > 0;
    } else {
      SortedTail(a);
      SortedTail(b);
      IsSubCount(a[1..], b[1..]);
      IsSubStepBoth(a, b);
    }
  }

  /** `Bag::union` on sorted inputs: sorted, each element as often as on the side with more. */
  lemma UnionCounts(a: seq<int>, b: seq<int>)
    requires Sorted(a) && Sorted(b)
    ensures Sorted(Union(a, b))
    ensures forall x :: multiset(Union(a, b))[x] == Max(multiset(a)[x], multiset(b)[x])
  {
    UnionSorted(a, b);
    forall x ensures multiset(Union(a, b))[x] == Max(multiset(a)[x], multiset(b)[x]) {
      UnionCount(a, b, x);
    }
  }

  /** `Bag::intersection` on sorted inputs: sorted, each element as often as on the side with fewer. */
  lemma IntersectionCounts(a: seq<int>, b: seq<int>)
    requires Sorted(a) && Sorted(b)
    ensures Sorted(Intersection(a, b))
    ensures forall x :: multiset(Intersection(a, b))[x] == Min(multiset(a)[x], multiset(b)[x])
  {
    IntersectionSorted(a, b);
    forall x ensures multiset(Intersection(a, b))[x] == Min(multiset(a)[x], multiset(b)[x]) {
      IntersectionCount(a, b, x);
    }
  }

  /* ---------- Bag operations (the source's merge loops) ---------- */

  /** `Bag::singleton`. */
  function Singleton(x: int): (r: Bag)
    ensures multiset(r) == multiset{x}
  {
    [x]
  }

  /** Insertion of one element into a sorted sequence; used to describe sorting. */
  function Insert(x: int, s: Bag): (r: Bag)
    ensures multiset(r) == multiset(s) + multiset{x}
    ensures r[0] == x || (s != [] && r[0] == s[0])
  {
    if s == [] || x <= s[0] then
      SortedCons(x, s);
      [x] + s
    else
      SortedTail(s);
      var t := Insert(x, s[1..]);
      HeadCons(s);
      SortedCons(s[0], t);
      [s[0]] + t
  }

  /** `Bag::new`: the input, sorted. */
  function New(elems: seq<int>): (r: Bag)
    ensures multiset(r) == multiset(elems)
  {
    if elems == [] then []
    else
      assert elems == [elems[0]] + elems[1..];
      Insert(elems[0], New(elems[1..]))
  }

  /** `Bag::sum`: the multiset sum, by merging. */
  method Sum(a: Bag, b: Bag) returns (sum: Bag)
    ensures sum == Merge(a, b)
    ensures multiset(sum) == multiset(a) + multiset(b)
  {
    var merged := MergeLoop(a, b);
    MergeAccMerges(a, b);
    MergeSorted(a, b);
    MergeCount(a, b);
    sum := merged;
  }

  /** The two loops of `Bag::sum`: before each element of `a`, the elements of `b` not greater than it. */
  method MergeLoop(a: seq<int>, b: seq<int>) returns (merged: seq<int>)
    ensures merged == MergeAcc([], a, b, 0, 0)
  {
    var acc: seq<int> := [];
    var j := 0;
    for i := 0 to |a|
      invariant 0 <= j <= |b|
      invariant MergeAcc(acc, a, b, i, j) == MergeAcc([], a, b, 0, 0)
    {
      while j < |b| && b[j] <= a[i]
        invariant 0 <= j <= |b|
        invariant MergeAcc(acc, a, b, i, j) == MergeAcc([], a, b, 0, 0)
      {
        acc := acc + [b[j]];
        j := j + 1;
      }
      acc := acc + [a[i]];
    }
    merged := acc + b[j..];
  }

  /** `Bag::union`: each element as often as in the side where it occurs most. */
  method BagUnion(a: Bag, b: Bag) returns (union: Bag)
    ensures union == Union(a, b)
    ensures forall x :: multiset(union)[x] == Max(multiset(a)[x], multiset(b)[x])
  {
    // `restA` and `restB` are what the two peekable iterators have not yet yielded.
    var acc: seq<int> := [];
    var restA: seq<int>, restB: seq<int> := a, b;
    while restA != [] || restB != []
      invariant acc + Union(restA, restB) == Union(a, b)
      decreases |restA| + |restB|
    {
      if restA != [] && (restB == [] || restA[0] < restB[0]) {
        Snoc(acc, restA[0], Union(restA[1..], restB));
        acc := acc + [restA[0]];
        restA := restA[1..];
      } else if restB != [] && (restA == [] || restB[0] < restA[0]) {
        Snoc(acc, restB[0], Union(restA, restB[1..]));
        acc := acc + [restB[0]];
        restB := restB[1..];
      } else {
        Snoc(acc, restA[0], Union(restA[1..], restB[1..]));
        acc := acc + [restA[0]];
        restA, restB := restA[1..], restB[1..];
      }
    }
    assert acc == Union(a, b);
    UnionCounts(a, b);
    union := acc;
  }

  /** `Bag::intersection`: each element as often as in the side where it occurs least. */
  method BagIntersection(a: Bag, b: Bag) returns (intersection: Bag)
    ensures intersection == Intersection(a, b)
    ensures forall x :: multiset(intersection)[x] == Min(multiset(a)[x], multiset(b)[x])
  {
    var acc: seq<int> := [];
    var j := 0;
    for i := 0 to |a|
      invariant 0 <= j <= |b|
      invariant acc + Intersection(a[i..], b[j..]) == Intersection(a, b)
    {
      while j < |b| && b[j] < a[i]
        invariant 0 <= j <= |b|
        invariant acc + Intersection(a[i..], b[j..]) == Intersection(a, b)
      {
        assert b[j..][1..] == b[j + 1..];
        j := j + 1;
      }
      assert a[i..][1..] == a[i + 1..];
      if j < |b| && b[j] == a[i] {
        assert b[j..][1..] == b[j + 1..];
        j := j + 1;
        acc := acc + [a[i]];
      }
    }
    assert a[|a|..] == [];
    assert Intersection(a[|a|..], b[j..]) == [];
    assert acc == Intersection(a, b);
    IntersectionCounts(a, b);
    intersection := acc;
  }

  /** `Bag::is_subset`: whether every element occurs in `a` no more often than in `b`. */
  method BagIsSubset(a: Bag, b: Bag) returns (r: bool)
    ensures r == IsSub(a, b)
    ensures r <==> multiset(a) <= multiset(b)
  {
    IsSubCount(a, b);
    var j := 0;
    for i := 0 to |a|
      invariant 0 <= j <= |b|
      invariant IsSub(a[i..], b[j..]) == IsSub(a, b)
    {
      while j < |b| && b[j] < a[i]
        invariant 0 <= j <= |b|
        invariant IsSub(a[i..], b[j..]) == IsSub(a, b)
      {
        assert b[j..][1..] == b[j + 1..];
        j := j + 1;
      }
      if j == |b| {
        return false;
      }
      var y := b[j];
      j := j + 1;
      if y > a[i] {
        return false;
      }
      assert a[i..][1..] == a[i + 1..];
      assert b[j - 1..][1..] == b[j..];
    }
    assert a[|a|..] == [];
    r := true;
  }

  /* ---------- the summary type ---------- */

  /** Guaranteed members `min`, possible members `max`. */
  datatype BagRange = BagRange(min: Bag, max: Bag)

  /** The range is consistent: every guaranteed member is also possible. */
  ghost predicate Valid(r: BagRange) {
    multiset(r.min) <= multiset(r.max)
  }

  /** The multiset `m` is one of those the range describes. */
  ghost predicate Contains(r: BagRange, m: multiset<int>) {
    multiset(r.min) <= m <= multiset(r.max)
  }

  /** `BagRange::singleton`: exactly the one element. */
  function RangeSingleton(x: int): (r: BagRange)
    ensures Valid(r) && Contains(r, multiset{x})
    ensures forall m :: Contains(r, m) ==> m == multiset{x}
  {
    BagRange(Singleton(x), Singleton(x))
  }

  /** `BagRange::and`: guaranteed and possible members of two disjoint groups add up. */
  function RangeAnd(a: BagRange, b: BagRange): (r: BagRange)
    ensures multiset(r.min) == multiset(a.min) + multiset(b.min)
    ensures multiset(r.max) == multiset(a.max) + multiset(b.max)
  {
    MergeSorted(a.min, b.min);
    MergeSorted(a.max, b.max);
    MergeCount(a.min, b.min);
    MergeCount(a.max, b.max);
    BagRange(Merge(a.min, b.min), Merge(a.max, b.max))
  }

  /** `BagRange::or`: guaranteed members of both alternatives, possible members of either. */
  function RangeOr(a: BagRange, b: BagRange): (r: BagRange)
    ensures forall x :: multiset(r.min)[x] == Min(multiset(a.min)[x], multiset(b.min)[x])
    ensures forall x :: multiset(r.max)[x] == Max(multiset(a.max)[x], multiset(b.max)[x])
  {
    IntersectionCounts(a.min, b.min);
    UnionCounts(a.max, b.max);
    BagRange(Intersection(a.min, b.min), Union(a.max, b.max))
  }

  /** `and` keeps ranges consistent, and is sound: any choice from each side is in the result. */
  lemma AndSound(a: BagRange, b: BagRange, ma: multiset<int>, mb: multiset<int>)
    requires Valid(a) && Valid(b)
    ensures Valid(RangeAnd(a, b))
    ensures Contains(a, ma) && Contains(b, mb) ==> Contains(RangeAnd(a, b), ma + mb)
  {
  }

  /** `or` keeps ranges consistent, and is sound: anything either alternative allows is allowed. */
  lemma OrSound(a: BagRange, b: BagRange, m: multiset<int>)
    requires Valid(a) && Valid(b)
    ensures Valid(RangeOr(a, b))
    ensures Contains(a, m) || Contains(b, m) ==> Contains(RangeOr(a, b), m)
  {
    var r := RangeOr(a, b);
    forall x ensures multiset(r.min)[x] <= multiset(r.max)[x] {
      assert multiset(a.min)[x] <= multiset(a.max)[x];
    }
    if Contains(a, m) || Contains(b, m) {
      forall x ensures multiset(r.min)[x] <= m[x] <= multiset(r.max)[x] {
        if Contains(a, m) {
          assert multiset(a.min)[x] <= m[x] <= multiset(a.max)[x];
        } else {
          assert multiset(b.min)[x] <= m[x] <= multiset(b.max)[x];
        }
      }
    }
  }

  /** `BagRange::is_equal`. */
  function IsEqual(r: BagRange, other: Bag): (v: YesNoMaybe)
    ensures v == No <==> !(multiset(r.min) <= multiset(other) <= multiset(r.max))
    ensures v == Yes <==> multiset(r.min) <= multiset(other) <= multiset(r.max) && multiset(r.max) <= multiset(r.min)
  {
    IsSubCount(r.min, other);
    IsSubCount(other, r.max);
    IsSubCount(r.max, r.min);
    if IsSub(r.min, other) && IsSub(other, r.max) then
      if IsSub(r.max, r.min) then Yes else Maybe
    else
      No
  }

  /** `BagRange::is_subset`. */
  function IsSubset(r: BagRange, other: Bag): (v: YesNoMaybe)
    ensures v == Yes <==> multiset(r.max) <= multiset(other)
    ensures Valid(r) ==> (v == No <==> !(multiset(r.min) <= multiset(other)))
  {
    IsSubCount(r.max, other);
    IsSubCount(r.min, other);
    if IsSub(r.max, other) then Yes
    else if IsSub(r.min, other) then Maybe
    else No
  }

  /** `BagRange::is_superset`. */
  function IsSuperset(r: BagRange, other: Bag): (v: YesNoMaybe)
    ensures v == Yes <==> multiset(other) <= multiset(r.min)
    ensures Valid(r) ==> (v == No <==> !(multiset(other) <= multiset(r.max)))
  {
    IsSubCount(other, r.min);
    IsSubCount(other, r.max);
    if IsSub(other, r.min) then Yes
    else if IsSub(other, r.max) then Maybe
    else No
  }

  /* ---------- the four constraint kinds ---------- */

  datatype BagConstraint =
    | Subset(elems: Bag)
    | Superset(elems: Bag)
    | SubsetAndSuperset(lo: Bag, hi: Bag)
    | Permutation(expected: Bag)

  /** The constraint kinds' constructors, which sort their arguments. */
  function NewSubset(elems: seq<int>): (c: BagConstraint)
    ensures c.Subset? && multiset(c.elems) == multiset(elems)
  {
    Subset(New(elems))
  }

  function NewSuperset(elems: seq<int>): (c: BagConstraint)
    ensures c.Superset? && multiset(c.elems) == multiset(elems)
  {
    Superset(New(elems))
  }

  function NewSubsetAndSuperset(lo: seq<int>, hi: seq<int>): (c: BagConstraint)
    ensures c.SubsetAndSuperset? && multiset(c.lo) == multiset(lo) && multiset(c.hi) == multiset(hi)
  {
    SubsetAndSuperset(New(lo), New(hi))
  }

  function NewPermutation(elems: seq<int>): (c: BagConstraint)
    ensures c.Permutation? && multiset(c.expected) == multiset(elems)
  {
    Permutation(New(elems))
  }

  /** The `NAME` constant of each kind. */
  function Name(c: BagConstraint): string
  {
    match c
    case Subset(_) => "Subset"
    case Superset(_) => "Superset"
    case SubsetAndSuperset(_, _) => "SubsetAndSuperset"
    case Permutation(_) => "Permutation"
  }

  /** Whether the multiset of values `m` satisfies the constraint. */
  ghost predicate Satisfies(c: BagConstraint, m: multiset<int>) {
    match c
    case Subset(s) => m <= multiset(s)
    case Superset(s) => multiset(s) <= m
    case SubsetAndSuperset(lo, hi) => multiset(lo) <= m <= multiset(hi)
    case Permutation(e) => m == multiset(e)
  }

  /** Each kind's `check`: the `singleton`, `and` and `or` of every kind are the BagRange ones. */
  function Check(c: BagConstraint, r: BagRange): YesNoMaybe
  {
    match c
    case Subset(s) => IsSubset(r, s)
    case Superset(s) => IsSuperset(r, s)
    case SubsetAndSuperset(lo, hi) => And(IsSubset(r, hi), IsSuperset(r, lo))
    case Permutation(e) => IsEqual(r, e)
  }

  /**
   * `check` is sound for every kind: `Yes` means every multiset the range allows satisfies the
   * constraint, and `No` means none does.
   */
  lemma CheckSound(c: BagConstraint, r: BagRange, m: multiset<int>)
    requires Valid(r) && Contains(r, m)
    ensures Check(c, r) == Yes ==> Satisfies(c, m)
    ensures Check(c, r) == No ==> !Satisfies(c, m)
  {
    match c
    case Subset(s) =>
    case Superset(s) =>
    case SubsetAndSuperset(lo, hi) =>
    case Permutation(e) =>
      if Check(c, r) == Yes {
        assert multiset(r.min) == multiset(r.max);
      }
  }

  /** A range pinned to one multiset checks `Yes` exactly when that multiset satisfies the constraint. */
  lemma CheckExact(c: BagConstraint, r: BagRange)
    requires multiset(r.min) == multiset(r.max)
    ensures Check(c, r) != Maybe
    ensures Check(c, r) == Yes <==> Satisfies(c, multiset(r.min))
  {
  }

  /* ---------- the in-file tests: letters a..g written as 1..7 ---------- */

  lemma SumExample()
    ensures Merge([1, 1, 2, 5, 5, 7], [1, 2, 2, 3, 6]) == [1, 1, 1, 2, 2, 2, 3, 5, 5, 6, 7]
  {
    var a, b := [1, 1, 2, 5, 5, 7], [1, 2, 2, 3, 6];
    assert MergeFrom([1, 1, 2, 5, 5, 7], [1, 2, 2, 3, 6], 0, 0) == [1, 1, 1, 2, 2, 2, 3, 5, 5, 6, 7];
    MergeFromIsMerge([1, 1, 2, 5, 5, 7], [1, 2, 2, 3, 6], 0, 0);
    assert [1, 1, 2, 5, 5, 7][0..] == [1, 1, 2, 5, 5, 7] && [1, 2, 2, 3, 6][0..] == [1, 2, 2, 3, 6];
  }

  lemma UnionExample()
    ensures Union([1, 1, 2, 5, 5, 7], [1, 2, 2, 3, 6]) == [1, 1, 2, 2, 3, 5, 5, 6, 7]
  {
    // Two points along the union walk, from its end.
    assert Union([7], [6]) == [6, 7];
    assert Union([5, 5, 7], [2, 3, 6]) == [2, 3, 5, 5, 6, 7];
  }

  lemma IntersectionExample()
    ensures Intersection([1, 2, 2, 3, 4, 6, 6], [2, 3, 5, 5, 6, 6, 7]) == [2, 3, 6, 6]
  {
    // The intersection walk, from its last step back to its first.
    assert Intersection([6], [6, 7]) == [6];
    assert Intersection([6, 6], [6, 6, 7]) == [6, 6];
    assert Intersection([6, 6], [5, 6, 6, 7]) == [6, 6];
    assert Intersection([6, 6], [5, 5, 6, 6, 7]) == [6, 6];
    assert Intersection([4, 6, 6], [5, 5, 6, 6, 7]) == [6, 6];
    assert Intersection([3, 4, 6, 6], [3, 5, 5, 6, 6, 7]) == [3, 6, 6];
    assert Intersection([2, 3, 4, 6, 6], [3, 5, 5, 6, 6, 7]) == [3, 6, 6];
    assert Intersection([2, 2, 3, 4, 6, 6], [2, 3, 5, 5, 6, 6, 7]) == [2, 3, 6, 6];
  }

  lemma IsSubsetExamples()
    ensures IsSub([1, 3, 5], [1, 2, 3, 3, 4, 5])
    ensures !IsSub([1, 3, 5], [1, 2, 4, 5])
    ensures IsSub([1], [1, 1])
    ensures IsSub([2], [1, 2, 3])
  {
  }
}

/**
 * The draft comparison of bags: for two bags, each standing for a set of multisets, how many
 * pairs of members are in the sub-multiset relation, all (`Yes`), none (`No`) or some (`Maybe`).
 * The arms compared here are those between bags holding exactly one value.
 */
module BagRules {
  import opened Logic
  import Rules
  import Permutation

  /** A description of what a formula can evaluate to. */
  datatype Bag =
    | Multiset(min: seq<int>, max: seq<int>)  // a multiset between `min` and `max`, both sorted
    | Range(lo: int, hi: int)                 // exactly one value from `lo` to `hi`
    | Set(values: seq<int>)                   // exactly one of the values, sorted and distinct
    | Single(value: int)                      // exactly this value

  /** The shape the comments on `Bag` promise: something to choose from, in order. */
  predicate WellFormed(b: Bag) {
    match b
    case Multiset(min, max) => Rules.SortedUp(min) && Rules.SortedUp(max) && max != []
    case Range(lo, hi) => lo <= hi
    case Set(values) => values != [] && Rules.StrictlyUp(values)
    case Single(_) => true
  }

  /** `x` can occur in what the bag describes. */
  predicate Possible(b: Bag, x: int) {
    match b
    case Multiset(_, max) => x in max
    case Range(lo, hi) => lo <= x <= hi
    case Set(values) => x in values
    case Single(v) => x == v
  }

  /** `as_range` does not panic: a set, or a multiset's maximum, has a first and last element. */
  predicate HasRange(b: Bag) {
    (b.Set? ==> b.values != []) && (b.Multiset? ==> b.max != [])
  }

  /** `as_range`: the least and greatest value the bag can hold. */
  function AsRange(b: Bag): (r: (int, int))
    requires HasRange(b)
    ensures WellFormed(b) ==> forall x :: Possible(b, x) ==> r.0 <= x <= r.1
    ensures WellFormed(b) ==> Possible(b, r.0) && Possible(b, r.1)
  {
    match b
    case Single(v) => (v, v)
    case Set(values) => (values[0], values[|values| - 1])
    case Range(lo, hi) => (lo, hi)
    case Multiset(_, max) => (max[0], max[|max| - 1])
  }

  /**
   * The free `is_subset`: walk `big` once, as a peekable iterator, skipping what is smaller than
   * each element of `small` and then requiring that element. On sorted inputs this decides
   * whether `small` is a sub-multiset of `big`.
   */
  method IsSubsetSorted(small: seq<int>, big: seq<int>) returns (r: bool)
    ensures r == Permutation.IsSub(small, big)
    ensures Permutation.Sorted(small) && Permutation.Sorted(big) ==> (r <==> multiset(small) <= multiset(big))
  {
    if Permutation.Sorted(small) && Permutation.Sorted(big) {
      Permutation.IsSubCount(small, big);
    }
    var rest := big;
    for i := 0 to |small|
      invariant Permutation.IsSub(small[i..], rest) == Permutation.IsSub(small, big)
    {
      var s := small[i];
      while rest != [] && rest[0] < s
        invariant Permutation.IsSub(small[i..], rest) == Permutation.IsSub(small, big)
      {
        rest := rest[1..];
      }
      if rest == [] {
        return false;
      }
      var b := rest[0];
      rest := rest[1..];
      if b > s {
        return false;
      }
      assert small[i..][1..] == small[i + 1..];
    }
    assert small[|small|..] == [];
    r := true;
  }

  /** A single value against a set: all of it if the set is just that value, some of it if it holds it. */
  function SingleSet(v: int, vals: seq<int>): YesNoMaybe {
    if vals == [v] then Yes else if v in vals then Maybe else No
  }

  /** A single value against a range. */
  function SingleRange(v: int, lo: int, hi: int): YesNoMaybe {
    if lo == v && hi == v then Yes else if lo <= v <= hi then Maybe else No
  }

  /** A set against a range. */
  function SetRange(vals: seq<int>, lo: int, hi: int): YesNoMaybe {
    if lo == hi && vals == [lo] then Yes
    else if exists v | v in vals :: lo <= v <= hi then Maybe
    else No
  }

  /** The arms of `Bag::is_subset` that are defined: no multisets, and two sets only when both are the same single value. */
  predicate Comparable(a: Bag, b: Bag) {
    && !a.Multiset? && !b.Multiset?
    && (a.Set? && b.Set? ==> |a.values| == 1 && |b.values| == 1 && a.values[0] == b.values[0])
  }

  /** `Bag::is_subset` between bags that each hold exactly one value. */
  function IsSubset(a: Bag, b: Bag): (r: YesNoMaybe)
    requires Comparable(a, b)
  {
    match (a, b)
    case (Single(v1), Single(v2)) => FromBool(v1 == v2)
    case (Single(v), Set(vals)) => SingleSet(v, vals)
    case (Set(vals), Single(v)) => SingleSet(v, vals)
    case (Set(_), Set(_)) => Yes
    case (Single(v), Range(lo, hi)) => SingleRange(v, lo, hi)
    case (Range(lo, hi), Single(v)) => SingleRange(v, lo, hi)
    case (Set(vals), Range(lo, hi)) => SetRange(vals, lo, hi)
    case (Range(lo, hi), Set(vals)) => SetRange(vals, lo, hi)
    case (Range(lo1, hi1), Range(lo2, hi2)) =>
      if lo1 == hi1 && lo2 == hi2 && lo1 == lo2 then Yes
      else if hi1 < lo2 || hi2 < lo1 then No
      else Maybe
  }

  /** All pairs of values the two bags can hold are equal. */
  ghost predicate AllPairsEqual(a: Bag, b: Bag) {
    forall x, y :: Possible(a, x) && Possible(b, y) ==> x == y
  }

  /** No pair of values the two bags can hold is equal. */
  ghost predicate NoPairEqual(a: Bag, b: Bag) {
    forall x, y :: Possible(a, x) && Possible(b, y) ==> x != y
  }

  /**
   * What the verdict means: `[x]` is a sub-multiset of `[y]` exactly when `x == y`, so `Yes`
   * when every pair of possible values is equal, `No` when none is, and `Maybe` otherwise.
   */
  lemma IsSubsetMeaning(a: Bag, b: Bag)
    requires WellFormed(a) && WellFormed(b) && Comparable(a, b)
    ensures IsSubset(a, b) == Yes <==> AllPairsEqual(a, b)
    ensures IsSubset(a, b) == No <==> NoPairEqual(a, b)
  {
    match (a, b)
    case (Single(v1), Single(v2)) =>
      assert Possible(a, v1) && Possible(b, v2);
    case (Single(v), Set(vals)) =>
      SingleSetMeaning(a, b, v, vals);
    case (Set(vals), Single(v)) =>
      SingleSetMeaning(b, a, v, vals);
    case (Set(vals1), Set(vals2)) =>
      assert Possible(a, vals1[0]) && Possible(b, vals2[0]);
    case (Single(v), Range(lo, hi)) =>
      SingleRangeMeaning(a, b, v, lo, hi);
    case (Range(lo, hi), Single(v)) =>
      SingleRangeMeaning(b, a, v, lo, hi);
    case (Set(vals), Range(lo, hi)) =>
      SetRangeMeaning(a, b, vals, lo, hi);
    case (Range(lo, hi), Set(vals)) =>
      SetRangeMeaning(b, a, vals, lo, hi);
    case (Range(lo1, hi1), Range(lo2, hi2)) =>
      assert Possible(a, lo1) && Possible(a, hi1) && Possible(b, lo2) && Possible(b, hi2);
      if !(hi1 < lo2 || hi2 < lo1) {
        var m := if lo1 < lo2 then lo2 else lo1;
        assert Possible(a, m) && Possible(b, m);
      }
  }

  /** The comparison is symmetric. */
  lemma IsSubsetSymmetric(a: Bag, b: Bag)
    requires WellFormed(a) && WellFormed(b) && Comparable(a, b)
    ensures IsSubset(a, b) == IsSubset(b, a)
  {
    IsSubsetMeaning(a, b);
    IsSubsetMeaning(b, a);
  }

  /** A well-formed set all of whose values are `v` is `[v]`. */
  lemma SetOfOne(vals: seq<int>, v: int)
    requires vals != [] && Rules.StrictlyUp(vals) && forall x :: x in vals ==> x == v
    ensures vals == [v]
  {
    assert vals[0] in vals && vals[|vals| - 1] in vals;
    Rules.Spread(vals);
    assert vals == [vals[0]];
  }

  lemma SingleSetMeaning(s: Bag, t: Bag, v: int, vals: seq<int>)
    requires s == Single(v) && t == Set(vals) && WellFormed(t)
    ensures SingleSet(v, vals) == Yes <==> AllPairsEqual(s, t) && AllPairsEqual(t, s)
    ensures SingleSet(v, vals) == No <==> NoPairEqual(s, t) && NoPairEqual(t, s)
  {
    assert Possible(s, v);
    if AllPairsEqual(s, t) {
      assert forall x :: x in vals ==> Possible(t, x);
      SetOfOne(vals, v);
    }
    if v in vals {
      assert Possible(t, v);
    }
  }

  lemma SingleRangeMeaning(s: Bag, t: Bag, v: int, lo: int, hi: int)
    requires s == Single(v) && t == Range(lo, hi) && WellFormed(t)
    ensures SingleRange(v, lo, hi) == Yes <==> AllPairsEqual(s, t) && AllPairsEqual(t, s)
    ensures SingleRange(v, lo, hi) == No <==> NoPairEqual(s, t) && NoPairEqual(t, s)
  {
    assert Possible(s, v) && Possible(t, lo) && Possible(t, hi);
    if lo <= v <= hi {
      assert Possible(t, v);
    }
  }

  lemma SetRangeMeaning(s: Bag, t: Bag, vals: seq<int>, lo: int, hi: int)
    requires s == Set(vals) && t == Range(lo, hi) && WellFormed(s) && WellFormed(t)
    ensures SetRange(vals, lo, hi) == Yes <==> AllPairsEqual(s, t) && AllPairsEqual(t, s)
    ensures SetRange(vals, lo, hi) == No <==> NoPairEqual(s, t) && NoPairEqual(t, s)
  {
    assert Possible(s, vals[0]) && Possible(t, lo) && Possible(t, hi);
    if AllPairsEqual(s, t) {
      assert forall x :: x in vals ==> Possible(s, x);
      SetOfOne(vals, lo);
    }
    if exists v | v in vals :: lo <= v <= hi {
      var v :| v in vals && lo <= v <= hi;
      assert Possible(s, v) && Possible(t, v);
    }
  }
}

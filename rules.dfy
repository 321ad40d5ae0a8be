/**
 * The draft rule language: a `Bag` describes the values a formula can take, a bag function maps
 * argument bags to a result bag, and a formula is a variable or a bag function over formulae.
 */
module Rules {
  import opened Options
  import opened Logic

  /** A description of what a formula can evaluate to. */
  datatype Bag =
    | Multiset(min: seq<int>, max: seq<int>)  // a multiset between `min` and `max`, both sorted
    | Range(lo: int, hi: int)                 // exactly one value from `lo` to `hi`
    | Set(values: seq<int>)                   // exactly one of the values, sorted and distinct
    | Single(value: int)                      // exactly this value
    | Empty                                   // nothing: unsatisfiable

  predicate SortedUp(s: seq<int>) {
    forall i, j :: 0 <= i <= j < |s| ==> s[i] <= s[j]
  }

  predicate StrictlyUp(s: seq<int>) {
    forall i, j :: 0 <= i < j < |s| ==> s[i] < s[j]
  }

  /** The shape the comments on `Bag` promise, and a non-empty `max` for a multiset. */
  predicate WellFormed(b: Bag) {
    match b
    case Multiset(min, max) => SortedUp(min) && SortedUp(max) && max != []
    case Range(lo, hi) => lo <= hi
    case Set(values) => values != [] && StrictlyUp(values)
    case Single(_) => true
    case Empty => true
  }

  /** `x` can occur in what the bag describes. */
  predicate Possible(b: Bag, x: int) {
    match b
    case Multiset(_, max) => x in max
    case Range(lo, hi) => lo <= x <= hi
    case Set(values) => x in values
    case Single(v) => x == v
    case Empty => false
  }

  /**
   * `as_range`: the least and greatest value a bag can hold, `None` for `Empty`. Indexing the
   * first and last element panics on an empty set or an empty multiset maximum.
   */
  function AsRange(b: Bag): (r: Option<(int, int)>)
    requires b.Set? ==> b.values != []
    requires b.Multiset? ==> b.max != []
    ensures r.None? <==> b.Empty?
    ensures WellFormed(b) && r.Some? ==> forall x :: Possible(b, x) ==> r.value.0 <= x <= r.value.1
  {
    match b
    case Empty => None
    case Single(v) => Some((v, v))
    case Set(values) => Some((values[0], values[|values| - 1]))
    case Range(lo, hi) => Some((lo, hi))
    case Multiset(_, max) => Some((max[0], max[|max| - 1]))
  }

  /** The range is tight: both of its ends can occur. */
  lemma AsRangeTight(b: Bag)
    requires WellFormed(b) && !b.Empty?
    ensures AsRange(b).Some? && Possible(b, AsRange(b).value.0) && Possible(b, AsRange(b).value.1)
  {
  }

  /** The values a verdict stands for when a rule's result is read as a boolean: 0 false, 1 true. */
  predicate Encodes(v: YesNoMaybe, x: int) {
    match v
    case No => x == 0
    case Yes => x == 1
    case Maybe => x == 0 || x == 1
  }

  /** `yes_no`: the verdict a bag over 0 and 1 encodes; `None` for any other bag. */
  function YesNo(b: Bag): (r: Option<YesNoMaybe>)
    ensures r == Some(No) <==> b in {Single(0), Set([0]), Range(0, 0), Multiset([0], [0])}
    ensures r == Some(Yes) <==> b in {Single(1), Set([1]), Range(1, 1), Multiset([1], [1])}
    ensures r == Some(Maybe) <==> b in {Set([0, 1]), Range(0, 1), Multiset([], [0, 1])}
  {
    match b
    case Empty => None
    case Single(v) => if v == 0 then Some(No) else if v == 1 then Some(Yes) else None
    case Set(vals) =>
      if vals == [0] then Some(No) else if vals == [1] then Some(Yes)
      else if vals == [0, 1] then Some(Maybe) else None
    case Range(lo, hi) =>
      if lo == 0 && hi == 0 then Some(No) else if lo == 1 && hi == 1 then Some(Yes)
      else if lo == 0 && hi == 1 then Some(Maybe) else None
    case Multiset(min, max) =>
      if min == [0] && max == [0] then Some(No) else if min == [1] && max == [1] then Some(Yes)
      else if min == [] && max == [0, 1] then Some(Maybe) else None
  }

  /**
   * For a well-formed bag holding one value, `yes_no` decodes exactly the bags whose values are
   * all 0 or 1, and the verdict stands for exactly the values the bag can hold.
   */
  lemma YesNoMeaning(b: Bag)
    requires WellFormed(b) && !b.Empty? && !b.Multiset?
    ensures YesNo(b).Some? <==> forall x :: Possible(b, x) ==> x == 0 || x == 1
    ensures YesNo(b).Some? ==> forall x :: Possible(b, x) <==> Encodes(YesNo(b).value, x)
  {
    match b
    case Single(v) =>
      assert Possible(b, v);
    case Range(lo, hi) =>
      if forall x :: Possible(b, x) ==> x == 0 || x == 1 {
        assert Possible(b, lo) && Possible(b, hi);
      }
    case Set(vals) =>
      if forall x :: Possible(b, x) ==> x == 0 || x == 1 {
        assert forall x :: x in vals ==> Possible(b, x);
        SetOfBits(vals);
      }
  }

  /** A sorted set of distinct values, all 0 or 1, is `[0]`, `[1]` or `[0, 1]`. */
  lemma SetOfBits(vals: seq<int>)
    requires vals != [] && StrictlyUp(vals) && forall x :: x in vals ==> x == 0 || x == 1
    ensures vals == [0] || vals == [1] || vals == [0, 1]
  {
    assert vals[0] in vals && vals[|vals| - 1] in vals;
    Spread(vals);
    if |vals| == 1 {
      assert vals == [vals[0]];
    } else {
      assert vals == [vals[0], vals[1]];
    }
  }

  /** Distinct sorted integers span at least one less than their number. */
  lemma {:induction false} Spread(s: seq<int>)
    requires s != [] && StrictlyUp(s)
    ensures s[|s| - 1] >= s[0] + |s| - 1
  {
    if |s| > 1 {
      Spread(s[..|s| - 1]);
    }
  }

  /* ---------- bag functions ---------- */

  /** The arguments with the slot at `idx` holding `v`, as the default `parallel_apply` builds them. */
  function Substituted<B>(args: seq<B>, idx: nat, v: B): (r: seq<B>)
    ensures |r| == |args|
  {
    seq(|args|, i requires 0 <= i < |args| => if i == idx then v else args[i])
  }

  /** Substituting is updating the one slot, when there is such a slot, and changes nothing otherwise. */
  lemma SubstitutedIsUpdate<B>(args: seq<B>, idx: nat, v: B)
    ensures idx < |args| ==> Substituted(args, idx, v) == args[idx := v]
    ensures idx >= |args| ==> Substituted(args, idx, v) == args
  {
  }

  /** What the default `parallel_apply` returns: for each option, `apply` with that option in the slot. */
  function Parallel<B>(apply: seq<B> -> B, args: seq<B>, idx: nat, options: seq<B>): (out: seq<B>)
    ensures |out| == |options|
  {
    seq(|options|, k requires 0 <= k < |options| => apply(Substituted(args, idx, options[k])))
  }

  /** The default `parallel_apply`: one application per option, in order. */
  method ParallelApply<B>(apply: seq<B> -> B, args: seq<B>, idx: nat, options: seq<B>) returns (output: seq<B>)
    ensures |output| == |options|
    ensures forall k :: 0 <= k < |options| ==> output[k] == apply(Substituted(args, idx, options[k]))
    ensures output == Parallel(apply, args, idx, options)
  {
    output := [];
    for k := 0 to |options|
      invariant output == Parallel(apply, args, idx, options[..k])
    {
      var bags := Substituted(args, idx, options[k]);
      output := output + [apply(bags)];
    }
    assert options[..|options|] == options;
  }

  /** A formula: a variable, or a bag function applied to formulae over the listed variables. */
  datatype Formula =
    | Var(v: nat)
    | BagFn(vars: seq<nat>, name: string, formulae: seq<Formula>)

  /** `Formula::vars`: the variable of a variable formula, the stored list of a function formula. */
  function Vars(f: Formula): (vs: seq<nat>)
    ensures f.Var? ==> vs == [f.v]
    ensures f.BagFn? ==> vs == f.vars
  {
    match f
    case Var(v) => [v]
    case BagFn(vars, _, _) => vars
  }
}

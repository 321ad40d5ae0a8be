/**
 * The `Prod` bag function: the range of a product of arguments, each described by a bag, by
 * multiplying the ends of their ranges.
 */
module Prod {
  import Rules
  import opened BagRules

  /** The name the function reports, `"sum"`, as written. */
  function Name(): string {
    "sum"
  }

  /** Every bag has a range. */
  predicate AllHaveRanges(bs: seq<Bag>) {
    forall i :: 0 <= i < |bs| ==> HasRange(bs[i])
  }

  /** The product of the numbers, 1 for none. */
  function Product(xs: seq<int>): int {
    if xs == [] then 1 else Product(xs[..|xs| - 1]) * xs[|xs| - 1]
  }

  /** The lower ends of the arguments' ranges. */
  function Lows(args: seq<Bag>): (ls: seq<int>)
    requires AllHaveRanges(args)
    ensures |ls| == |args|
  {
    seq(|args|, i requires 0 <= i < |args| && AllHaveRanges(args) => AsRange(args[i]).0)
  }

  /** The upper ends of the arguments' ranges. */
  function Highs(args: seq<Bag>): (hs: seq<int>)
    requires AllHaveRanges(args)
    ensures |hs| == |args|
  {
    seq(|args|, i requires 0 <= i < |args| && AllHaveRanges(args) => AsRange(args[i]).1)
  }

  /** What `apply` returns: the range from the product of the lower ends to the product of the upper ends. */
  function Applied(args: seq<Bag>): Bag
    requires AllHaveRanges(args)
  {
    Range(Product(Lows(args)), Product(Highs(args)))
  }

  /** `apply`: fold the arguments' ranges into running products; no arguments panics with "zero args". */
  method Apply(args: seq<Bag>) returns (r: Bag)
    requires args != [] && AllHaveRanges(args)
    ensures r == Applied(args)
  {
    var (min, max) := AsRange(args[0]);
    assert Lows(args[..1]) == [min] && Highs(args[..1]) == [max];
    ProductOne(min);
    ProductOne(max);
    for i := 1 to |args|
      invariant min == Product(Lows(args[..i])) && max == Product(Highs(args[..i]))
    {
      var (aMin, aMax) := AsRange(args[i]);
      assert Lows(args[..i + 1]) == Lows(args[..i]) + [aMin];
      assert Highs(args[..i + 1]) == Highs(args[..i]) + [aMax];
      min := min * aMin;
      max := max * aMax;
    }
    assert args[..|args|] == args;
    r := Range(min, max);
  }

  /** Multiplying numbers between non-negative bounds gives a product between the products of the bounds. */
  lemma {:induction false} ProductMonotone(lo: seq<int>, xs: seq<int>, hi: seq<int>)
    requires |lo| == |xs| == |hi|
    requires forall i :: 0 <= i < |xs| ==> 0 <= lo[i] <= xs[i] <= hi[i]
    ensures 0 <= Product(lo) <= Product(xs) <= Product(hi)
  {
    if xs != [] {
      var n := |xs| - 1;
      ProductMonotone(lo[..n], xs[..n], hi[..n]);
      MulMonotone(Product(lo[..n]), Product(xs[..n]), lo[n], xs[n]);
      MulMonotone(Product(xs[..n]), Product(hi[..n]), xs[n], hi[n]);
    }
  }

  lemma MulMonotone(a: int, b: int, c: int, d: int)
    requires 0 <= a <= b && 0 <= c <= d
    ensures 0 <= a * c <= b * d
  {
    assert a * c <= b * c;
    assert b * c <= b * d;
  }

  /**
   * The result of `apply` covers every product of values the arguments can take, when no
   * argument can be negative.
   */
  lemma ApplyCovers(args: seq<Bag>, xs: seq<int>)
    requires AllHaveRanges(args) && |xs| == |args|
    requires forall i :: 0 <= i < |args| ==> WellFormed(args[i]) && Possible(args[i], xs[i]) && AsRange(args[i]).0 >= 0
    ensures Applied(args).lo <= Product(xs) <= Applied(args).hi
  {
    ProductMonotone(Lows(args), xs, Highs(args));
  }

  /** The helper `add`, which multiplies the ends of two ranges. */
  function Add(b1: Bag, b2: Bag): Bag
    requires HasRange(b1) && HasRange(b2)
  {
    var (min1, max1) := AsRange(b1);
    var (min2, max2) := AsRange(b2);
    Range(min1 * min2, max1 * max2)
  }

  /**
   * `parallel_apply` as written: with one argument, each option's range; otherwise each option's
   * range times the product of ALL arguments, including the slot the option stands for.
   */
  function ParallelApplyAsWritten(args: seq<Bag>, idx: nat, options: seq<Bag>): (out: seq<Bag>)
    requires args != [] && AllHaveRanges(args) && AllHaveRanges(options)
    ensures |out| == |options|
  {
    if |args| == 1 then
      seq(|options|, k requires 0 <= k < |options| => var (min, max) := AsRange(options[k]); Range(min, max))
    else
      var all := Applied(args);
      seq(|options|, k requires 0 <= k < |options| => Add(options[k], all))
  }

  /**
   * With two arguments 2 and 3 and the first slot taking the option 5, the product is 15, but
   * the code multiplies the option into a product that still holds the slot's placeholder.
   */
  lemma ParallelApplyCountsSlotTwice()
    ensures ParallelApplyAsWritten([Single(2), Single(3)], 0, [Single(5)]) == [Range(30, 30)]
    ensures Applied(Rules.Substituted([Single(2), Single(3)], 0, Single(5))) == Range(15, 15)
  {
    var args := [Single(2), Single(3)];
    assert Lows(args) == [2, 3] && Highs(args) == [2, 3];
    ProductTwo(2, 3);
    var sub := Rules.Substituted(args, 0, Single(5));
    assert sub == [Single(5), Single(3)];
    assert Lows(sub) == [5, 3] && Highs(sub) == [5, 3];
    ProductTwo(5, 3);
    assert Add(Single(5), Applied(args)) == Range(30, 30);
  }

  /** The arguments without the parallel slot. */
  function Others(args: seq<Bag>, idx: nat): (os: seq<Bag>)
    requires idx < |args|
    ensures |os| == |args| - 1
  {
    args[..idx] + args[idx + 1..]
  }

  /**
   * `parallel_apply` as its comment intends: each option's range times the product of all
   * arguments except the parallel slot.
   */
  function ParallelApply(args: seq<Bag>, idx: nat, options: seq<Bag>): (out: seq<Bag>)
    requires idx < |args| && AllHaveRanges(args) && AllHaveRanges(options)
    ensures |out| == |options|
  {
    if |args| == 1 then
      seq(|options|, k requires 0 <= k < |options| => var (min, max) := AsRange(options[k]); Range(min, max))
    else
      var rest := Applied(Others(args, idx));
      seq(|options|, k requires 0 <= k < |options| => Add(options[k], rest))
  }

  /** The intended `parallel_apply` agrees with the default one: option `k` gives `apply` with the option in the slot. */
  lemma ParallelApplyIsDefault(args: seq<Bag>, idx: nat, options: seq<Bag>, k: nat)
    requires idx < |args| && AllHaveRanges(args) && AllHaveRanges(options) && k < |options|
    ensures AllHaveRanges(Rules.Substituted(args, idx, options[k]))
    ensures ParallelApply(args, idx, options)[k] == Applied(Rules.Substituted(args, idx, options[k]))
  {
    var o := options[k];
    var sub := Rules.Substituted(args, idx, o);
    Rules.SubstitutedIsUpdate(args, idx, o);
    assert sub == args[..idx] + [o] + args[idx + 1..];
    var (oMin, oMax) := AsRange(o);
    if |args| == 1 {
      assert sub == [o];
      assert Lows(sub) == [oMin] && Highs(sub) == [oMax];
      ProductOne(oMin);
      ProductOne(oMax);
    } else {
      var os := Others(args, idx);
      SplitProduct(args[..idx], o, args[idx + 1..]);
      assert Applied(os) == Range(Product(Lows(os)), Product(Highs(os)));
    }
  }

  /** The ends' products with `o` in the middle are `o`'s ends times the products without it. */
  lemma SplitProduct(a: seq<Bag>, o: Bag, b: seq<Bag>)
    requires AllHaveRanges(a) && HasRange(o) && AllHaveRanges(b)
    ensures AllHaveRanges(a + [o] + b) && AllHaveRanges(a + b)
    ensures Product(Lows(a + [o] + b)) == AsRange(o).0 * Product(Lows(a + b))
    ensures Product(Highs(a + [o] + b)) == AsRange(o).1 * Product(Highs(a + b))
  {
    assert Lows(a + [o] + b) == Lows(a) + [AsRange(o).0] + Lows(b);
    assert Lows(a + b) == Lows(a) + Lows(b);
    assert Highs(a + [o] + b) == Highs(a) + [AsRange(o).1] + Highs(b);
    assert Highs(a + b) == Highs(a) + Highs(b);
    ProductMiddle(Lows(a), AsRange(o).0, Lows(b));
    ProductMiddle(Highs(a), AsRange(o).1, Highs(b));
  }

  lemma ProductOne(x: int)
    ensures Product([x]) == x
  {
    assert [x][..0] == [];
  }

  lemma ProductTwo(x: int, y: int)
    ensures Product([x, y]) == x * y
  {
    assert [x, y][..1] == [x];
    ProductOne(x);
  }

  lemma ProductMiddle(xs: seq<int>, m: int, ys: seq<int>)
    ensures Product(xs + [m] + ys) == m * Product(xs + ys)
  {
    ProductConcat(xs + [m], ys);
    ProductConcat(xs, ys);
    assert Product(xs + [m]) == Product(xs) * m by {
      assert (xs + [m])[..|xs|] == xs;
    }
  }

  /** The product of a concatenation is the product of the products. */
  lemma {:induction false} ProductConcat(xs: seq<int>, ys: seq<int>)
    ensures Product(xs + ys) == Product(xs) * Product(ys)
  {
    if ys == [] {
      assert xs + ys == xs;
    } else {
      var n := |ys| - 1;
      assert (xs + ys)[..|xs + ys| - 1] == xs + ys[..n];
      ProductConcat(xs, ys[..n]);
      calc {
        Product(xs + ys);
        Product(xs + ys[..n]) * ys[n];
        Product(xs) * Product(ys[..n]) * ys[n];
        Product(xs) * (Product(ys[..n]) * ys[n]);
      }
    }
  }
}

/**
 * The Pred constraint: a user predicate over the values of its positions, in order.
 * Its summary is a partial assignment: slot `i` holds `Some(v)` when position `i` is known to be
 * `v` in every case the summary covers, and `None` otherwise.
 */
module Pred {
  import opened Logic
  import opened Options

  /**
   * A constraint instance. The fixed-arity constructor wraps the user predicate in a check that
   * panics when it is called with a slice whose length is not `numParams`; `fixedArity` records that.
   */
  datatype Pred<!T> = Pred(numParams: nat, pred: seq<T> -> bool, fixedArity: bool)

  const NAME: string := "Pred"

  /** `Pred::new::<N>`: a predicate over arrays of exactly `n` values. */
  function New<T>(n: nat, pred: seq<T> -> bool): (p: Pred<T>)
    ensures p.numParams == n && p.fixedArity && p.pred == pred
  {
    Pred(n, pred, true)
  }

  /** `Pred::new_with_len`: a predicate over slices of any length; only `numParams` is fixed. */
  function NewWithLen<T>(len: nat, pred: seq<T> -> bool): (p: Pred<T>)
    ensures p.numParams == len && !p.fixedArity && p.pred == pred
  {
    Pred(len, pred, false)
  }

  /** The predicate may be called on these values without panicking. */
  predicate CallableOn<T>(p: Pred<T>, values: seq<T>) {
    p.fixedArity ==> |values| == p.numParams
  }

  /* ---------- the summary algebra ---------- */

  /** `singleton`: only slot `index` is known; panics when `index` is out of range. */
  function Singleton<T>(p: Pred<T>, index: nat, elem: T): (r: seq<Option<T>>)
    requires index < p.numParams
    ensures |r| == p.numParams
    ensures r[index] == Some(elem)
    ensures forall i :: 0 <= i < |r| && i != index ==> r[i] == None
  {
    seq(p.numParams, i => None)[index := Some(elem)]
  }

  /** What `and` computes: `b`'s known slots overwrite `a`'s. */
  function AndSpec<T>(a: seq<Option<T>>, b: seq<Option<T>>): seq<Option<T>>
  {
    seq(|a|, i requires 0 <= i < |a| => if i < |b| && b[i].Some? then b[i] else a[i])
  }

  /** What `or` computes: a slot stays known only where both sides agree. */
  function OrSpec<T(==)>(a: seq<Option<T>>, b: seq<Option<T>>): seq<Option<T>>
    requires |b| <= |a|
  {
    seq(|a|, i requires 0 <= i < |a| => if i < |b| && a[i] != b[i] then None else a[i])
  }

  /**
   * `and`: combine the summaries of two disjoint groups of positions. Indexing past the end
   * of `a` panics, which happens exactly when `b` knows a slot that `a` does not have.
   */
  method And<T>(a: seq<Option<T>>, b: seq<Option<T>>) returns (result: seq<Option<T>>)
    requires forall i :: |a| <= i < |b| ==> b[i] == None
    ensures result == AndSpec(a, b)
  {
    result := a;
    for i := 0 to |b|
      invariant |result| == |a|
      invariant forall j :: 0 <= j < |a| ==> result[j] == if j < i && j < |b| && b[j].Some? then b[j] else a[j]
    {
      if b[i].Some? {
        result := result[i := b[i]];
      }
    }
  }

  /** `or`: the summary of either of two alternatives. Panics if `b` is longer than `a`. */
  method Or<T(==)>(a: seq<Option<T>>, b: seq<Option<T>>) returns (result: seq<Option<T>>)
    requires |b| <= |a|
    ensures result == OrSpec(a, b)
  {
    result := a;
    for i := 0 to |b|
      invariant |result| == |a|
      invariant forall j :: 0 <= j < |a| ==> result[j] == if j < i && a[j] != b[j] then None else a[j]
    {
      if result[i] != b[i] {
        result := result[i := None];
      }
    }
  }

  /** Every slot known. */
  predicate AllKnown<T>(s: seq<Option<T>>) {
    forall i :: 0 <= i < |s| ==> s[i].Some?
  }

  /** The values of a fully known summary. */
  function Values<T>(s: seq<Option<T>>): (vs: seq<T>)
    requires AllKnown(s)
    ensures |vs| == |s| && forall i :: 0 <= i < |s| ==> s[i] == Some(vs[i])
  {
    seq(|s|, i requires 0 <= i < |s| => s[i].value)
  }

  /** `check`: `Maybe` while some slot is unknown, otherwise the predicate's verdict on the values. */
  function Check<T>(p: Pred<T>, summary: seq<Option<T>>): (r: YesNoMaybe)
    requires AllKnown(summary) ==> CallableOn(p, Values(summary))
    ensures r == Maybe <==> exists i :: 0 <= i < |summary| && summary[i] == None
    ensures AllKnown(summary) ==> (r == Yes <==> p.pred(Values(summary)))
  {
    if AllKnown(summary) then FromBool(p.pred(Values(summary))) else Maybe
  }

  /* ---------- properties ---------- */

  /** The full assignment `vs` agrees with every known slot of the summary. */
  ghost predicate Describes<T>(s: seq<Option<T>>, vs: seq<T>) {
    |s| == |vs| && forall i :: 0 <= i < |s| && s[i].Some? ==> s[i].value == vs[i]
  }

  /** `or` of a summary with itself changes nothing. */
  lemma OrIdempotent<T>(a: seq<Option<T>>)
    ensures OrSpec(a, a) == a
  {
  }

  /** `or` only forgets: an unknown slot of `a` stays unknown, and a known result slot is `a`'s. */
  lemma OrOnlyForgets<T>(a: seq<Option<T>>, b: seq<Option<T>>, i: nat)
    requires |b| <= |a| && i < |a|
    ensures a[i] == None ==> OrSpec(a, b)[i] == None
    ensures OrSpec(a, b)[i] != None ==> OrSpec(a, b)[i] == a[i] && (i < |b| ==> b[i] == a[i])
  {
  }

  /** `or` is sound: whatever either alternative admits, the result admits. */
  lemma OrSound<T>(a: seq<Option<T>>, b: seq<Option<T>>, vs: seq<T>)
    requires |a| == |b|
    requires Describes(a, vs) || Describes(b, vs)
    ensures Describes(OrSpec(a, b), vs)
  {
  }

  /** `and` is sound: an assignment both summaries admit is admitted by their combination. */
  lemma AndSound<T>(a: seq<Option<T>>, b: seq<Option<T>>, vs: seq<T>)
    requires Describes(a, vs) && Describes(b, vs)
    ensures Describes(AndSpec(a, b), vs)
  {
  }

  /** `and` only learns: a slot known in `a` or `b` is known afterwards. */
  lemma AndOnlyLearns<T>(a: seq<Option<T>>, b: seq<Option<T>>, i: nat)
    requires i < |a|
    ensures a[i].Some? ==> AndSpec(a, b)[i].Some?
    ensures i < |b| && b[i].Some? ==> AndSpec(a, b)[i] == b[i]
  {
  }

  /** Singletons at the same position with different values combine under `or` to nothing known. */
  lemma DisagreeingSingletons<T>(p: Pred<T>, index: nat, x: T, y: T)
    requires index < p.numParams && x != y
    ensures forall i :: 0 <= i < p.numParams ==> OrSpec(Singleton(p, index, x), Singleton(p, index, y))[i] == None
  {
  }

  /** Singletons at two positions combine under `and` to both values known. */
  lemma AndOfSingletons<T>(p: Pred<T>, i: nat, j: nat, x: T, y: T)
    requires i < p.numParams && j < p.numParams && i != j
    ensures AndSpec(Singleton(p, i, x), Singleton(p, j, y))[i] == Some(x)
    ensures AndSpec(Singleton(p, i, x), Singleton(p, j, y))[j] == Some(y)
  {
  }

  /**
   * `check` is sound: a definite verdict is the predicate's value on every assignment the
   * summary admits (there is only one).
   */
  lemma CheckSound<T>(p: Pred<T>, summary: seq<Option<T>>, vs: seq<T>)
    requires AllKnown(summary) ==> CallableOn(p, Values(summary))
    requires Describes(summary, vs) && Check(p, summary) != Maybe
    ensures CallableOn(p, vs) && (Check(p, summary) == Yes <==> p.pred(vs))
  {
    assert Values(summary) == vs;
  }

  /** The in-file test, with the predicate `a < b` over two values. */
  lemma PredExample()
    ensures var p := New(2, (s: seq<int>) => |s| == 2 && s[0] < s[1]);
      && Singleton(p, 0, 10) == [Some(10), None]
      && Singleton(p, 1, 10) == [None, Some(10)]
      && OrSpec(Singleton(p, 0, 10), Singleton(p, 0, 20)) == [None, None]
      && AndSpec(Singleton(p, 0, 10), Singleton(p, 1, 20)) == [Some(10), Some(20)]
      && Check(p, [None, None]) == Maybe
      && Check(p, [Some(1), None]) == Maybe
      && Check(p, [None, Some(1)]) == Maybe
      && Check(p, [Some(1), Some(2)]) == Yes
      && Check(p, [Some(2), Some(2)]) == No
  {
    var p := New(2, (s: seq<int>) => |s| == 2 && s[0] < s[1]);
    assert Singleton(p, 0, 10) == [Some(10), None];
    assert Singleton(p, 1, 10) == [None, Some(10)];
    assert OrSpec(Singleton(p, 0, 10), Singleton(p, 0, 20)) == [None, None];
    assert AndSpec(Singleton(p, 0, 10), Singleton(p, 1, 20)) == [Some(10), Some(20)];
    assert Values([Some(1), Some(2)]) == [1, 2];
    assert Values([Some(2), Some(2)]) == [2, 2];
  }
}

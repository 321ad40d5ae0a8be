/**
 * The per-variable table shared by the table and the guessing solver: variable `i` is `vars[i]`
 * and may take any of the values `entries[i]` (its domain). Every table counts as the set of
 * assignments picking one value from each domain. This module holds what both versions of the
 * table compute, as functions on the two sequences, and what is proved about them.
 */
module Domains {
  import opened Logic
  import opened Options
  import opened Algebra

  /* ---------- size and possibilities ---------- */

  /** `size`: the total number of values over all domains. */
  function Size<V>(entries: seq<seq<V>>): nat {
    if entries == [] then 0
    else Size(entries[..|entries| - 1]) + |entries[|entries| - 1]|
  }

  /** `possibilities`: the number of assignments, the product of the domain sizes. */
  function Possibilities<V>(entries: seq<seq<V>>): nat {
    if entries == [] then 1
    else Possibilities(entries[..|entries| - 1]) * |entries[|entries| - 1]|
  }

  predicate AllNonEmpty<V>(entries: seq<seq<V>>) {
    forall i :: 0 <= i < |entries| ==> entries[i] != []
  }

  /** `is_solved`: no domain has more than one value. */
  predicate Solved<V>(entries: seq<seq<V>>) {
    forall i :: 0 <= i < |entries| ==> |entries[i]| <= 1
  }

  lemma SizeConcat<V>(a: seq<seq<V>>, b: seq<seq<V>>)
    ensures Size(a + b) == Size(a) + Size(b)
    decreases |b|
  {
    if b != [] {
      assert (a + b)[..|a + b| - 1] == a + b[..|b| - 1];
      SizeConcat(a, b[..|b| - 1]);
    } else {
      assert a + b == a;
    }
  }

  lemma PossibilitiesConcat<V>(a: seq<seq<V>>, b: seq<seq<V>>)
    ensures Possibilities(a + b) == Possibilities(a) * Possibilities(b)
    decreases |b|
  {
    if b != [] {
      assert (a + b)[..|a + b| - 1] == a + b[..|b| - 1];
      PossibilitiesConcat(a, b[..|b| - 1]);
      assert Possibilities(a + b) == Possibilities(a) * Possibilities(b[..|b| - 1]) * |b[|b| - 1]|;
    } else {
      assert a + b == a;
    }
  }

  /** Appending a domain adds its length to `size` and multiplies `possibilities` by it. */
  lemma {:induction false} AppendDomain<V>(entries: seq<seq<V>>, values: seq<V>)
    ensures Size(entries + [values]) == Size(entries) + |values|
    ensures Possibilities(entries + [values]) == Possibilities(entries) * |values|
  {
    assert (entries + [values])[..|entries|] == entries;
  }

  /** `size` and `possibilities` split around domain `v`. */
  lemma SplitAt<V>(entries: seq<seq<V>>, v: nat)
    requires v < |entries|
    ensures Size(entries) == Size(entries[..v]) + |entries[v]| + Size(entries[v + 1..])
    ensures Possibilities(entries) == Possibilities(entries[..v]) * |entries[v]| * Possibilities(entries[v + 1..])
  {
    assert entries == entries[..v] + [entries[v]] + entries[v + 1..];
    SizeConcat(entries[..v] + [entries[v]], entries[v + 1..]);
    PossibilitiesConcat(entries[..v] + [entries[v]], entries[v + 1..]);
    AppendDomain(entries[..v], entries[v]);
  }

  /** Replacing domain `v` changes `size` by the difference of lengths, and scales `possibilities`. */
  lemma ReplaceDomain<V>(entries: seq<seq<V>>, v: nat, values: seq<V>)
    requires v < |entries|
    ensures Size(entries[v := values]) + |entries[v]| == Size(entries) + |values|
    ensures Possibilities(entries[v := values]) == Possibilities(entries[..v]) * |values| * Possibilities(entries[v + 1..])
  {
    var e := entries[v := values];
    assert e[..v] == entries[..v] && e[v + 1..] == entries[v + 1..];
    SplitAt(entries, v);
    SplitAt(e, v);
  }

  /** Shrinking a domain never adds possibilities. */
  lemma ShrinkDomain<V>(entries: seq<seq<V>>, v: nat, values: seq<V>)
    requires v < |entries| && |values| <= |entries[v]|
    ensures Possibilities(entries[v := values]) <= Possibilities(entries)
  {
    ReplaceDomain(entries, v, values);
    SplitAt(entries, v);
    var a, b := Possibilities(entries[..v]), Possibilities(entries[v + 1..]);
    MulMonotone(a, |values|, |entries[v]|);
    MulMonotone(b, a * |values|, a * |entries[v]|);
  }

  lemma MulMonotone(k: nat, x: nat, y: nat)
    requires x <= y
    ensures k * x <= k * y && x * k <= y * k
  {
  }

  /** With no empty domain there is at least one assignment. */
  lemma {:induction false} PossibilitiesPositive<V>(entries: seq<seq<V>>)
    requires AllNonEmpty(entries)
    ensures Possibilities(entries) >= 1
  {
    if entries != [] {
      PossibilitiesPositive(entries[..|entries| - 1]);
      MulMonotone(Possibilities(entries[..|entries| - 1]), 1, |entries[|entries| - 1]|);
    }
  }

  /** With no empty domain, the table is solved exactly when it stands for a single assignment. */
  lemma {:induction false} SolvedIffOnePossibility<V>(entries: seq<seq<V>>)
    requires AllNonEmpty(entries)
    ensures Solved(entries) <==> Possibilities(entries) == 1
  {
    if entries != [] {
      var init, last := entries[..|entries| - 1], entries[|entries| - 1];
      SolvedIffOnePossibility(init);
      PossibilitiesPositive(init);
      var p := Possibilities(init);
      if Possibilities(entries) == 1 {
        assert p * |last| == 1;
        MulMonotone(p, 1, |last|);
        MulMonotone(|last|, 1, p);
        assert p == 1 && |last| == 1;
        assert forall i :: 0 <= i < |entries| - 1 ==> entries[i] == init[i];
      }
      if Solved(entries) {
        assert forall i :: 0 <= i < |init| ==> init[i] == entries[i];
      }
    }
  }

  /* ---------- guessing ---------- */

  /** `var_guessing_score`: 0 for a singleton domain, `1_000_000 - n` for a domain of `n` values. */
  function Score(n: nat): int {
    if n == 1 then 0 else 1_000_000 - n
  }

  /** `max_by_key` over `0..n`: the last index whose score is greatest. */
  function GuessVarUpTo<V>(entries: seq<seq<V>>, n: nat): (r: nat)
    requires 1 <= n <= |entries|
    ensures r < n
    ensures forall i :: 0 <= i < n ==> Score(|entries[i]|) <= Score(|entries[r]|)
    ensures forall i :: r < i < n ==> Score(|entries[i]|) < Score(|entries[r]|)
  {
    if n == 1 then 0
    else
      var j := GuessVarUpTo(entries, n - 1);
      if Score(|entries[n - 1]|) >= Score(|entries[j]|) then n - 1 else j
  }

  /** The variable `guess` splits on (`unwrap_or(0)` for a table without variables). */
  function GuessVar<V>(entries: seq<seq<V>>): nat {
    if entries == [] then 0 else GuessVarUpTo(entries, |entries|)
  }

  /** `make_guess`: domain `v` keeps only its value number `g`. */
  function MakeGuess<V>(entries: seq<seq<V>>, v: nat, g: nat): (r: seq<seq<V>>)
    requires v < |entries| && g < |entries[v]|
  {
    entries[v := [entries[v][g]]]
  }

  /** The tables that splitting on variable `v` gives: one per value of its domain, in order. */
  function SplitOn<V>(entries: seq<seq<V>>, v: nat): (children: seq<seq<seq<V>>>)
    requires v < |entries|
  {
    seq(|entries[v]|, g requires 0 <= g < |entries[v]| => MakeGuess(entries, v, g))
  }

  /** `guess`: split on the variable with the best score. */
  function Guesses<V>(entries: seq<seq<V>>): seq<seq<seq<V>>>
    requires entries != []
  {
    SplitOn(entries, GuessVar(entries))
  }

  /** Each child of a split fixes a different value of `v` and leaves every other domain alone. */
  lemma SplitOnChildren<V>(entries: seq<seq<V>>, v: nat)
    requires v < |entries|
    ensures |SplitOn(entries, v)| == |entries[v]|
    ensures forall g :: 0 <= g < |entries[v]| ==>
      && |SplitOn(entries, v)[g]| == |entries|
      && SplitOn(entries, v)[g][v] == [entries[v][g]]
      && (forall i :: 0 <= i < |entries| && i != v ==> SplitOn(entries, v)[g][i] == entries[i])
  {
  }

  /** A child of a split on a domain of `n` values has `n - 1` fewer values in all. */
  lemma SplitOnShrinks<V>(entries: seq<seq<V>>, v: nat, g: nat)
    requires v < |entries| && g < |entries[v]|
    ensures Size(SplitOn(entries, v)[g]) + |entries[v]| == Size(entries) + 1
  {
    ReplaceDomain(entries, v, [entries[v][g]]);
  }

  /** The total of `possibilities` over a list of tables. */
  function SumPossibilities<V>(tables: seq<seq<seq<V>>>): nat {
    if tables == [] then 0
    else SumPossibilities(tables[..|tables| - 1]) + Possibilities(tables[|tables| - 1])
  }

  lemma {:induction false} SumOfEqual<V>(tables: seq<seq<seq<V>>>, p: nat)
    requires forall k :: 0 <= k < |tables| ==> Possibilities(tables[k]) == p
    ensures SumPossibilities(tables) == |tables| * p
  {
    if tables != [] {
      SumOfEqual(tables[..|tables| - 1], p);
    }
  }

  /**
   * A split neither loses nor duplicates assignments: the children's possibilities add up to
   * the parent's.
   */
  lemma SplitOnPartitions<V>(entries: seq<seq<V>>, v: nat)
    requires v < |entries|
    ensures SumPossibilities(SplitOn(entries, v)) == Possibilities(entries)
  {
    var p := Possibilities(entries[..v]) * Possibilities(entries[v + 1..]);
    ChildrenPossibilities(entries, v);
    SumOfEqual(SplitOn(entries, v), p);
    SplitAt(entries, v);
    Rearrange(Possibilities(entries[..v]), |entries[v]|, Possibilities(entries[v + 1..]));
  }

  lemma ChildrenPossibilities<V>(entries: seq<seq<V>>, v: nat)
    requires v < |entries|
    ensures forall g :: 0 <= g < |SplitOn(entries, v)| ==>
      Possibilities(SplitOn(entries, v)[g]) == Possibilities(entries[..v]) * Possibilities(entries[v + 1..])
  {
    forall g | 0 <= g < |SplitOn(entries, v)|
      ensures Possibilities(SplitOn(entries, v)[g]) == Possibilities(entries[..v]) * Possibilities(entries[v + 1..])
    {
      ChildPossibilities(entries, v, g);
    }
  }

  lemma ChildPossibilities<V>(entries: seq<seq<V>>, v: nat, g: nat)
    requires v < |entries| && g < |entries[v]|
    ensures Possibilities(SplitOn(entries, v)[g]) == Possibilities(entries[..v]) * Possibilities(entries[v + 1..])
  {
    ReplaceDomain(entries, v, [entries[v][g]]);
  }

  lemma Rearrange(a: nat, n: nat, b: nat)
    ensures n * (a * b) == a * n * b
  {
  }

  /* ---------- what guess picks: as written and as intended ---------- */

  /**
   * The score goes negative past a million values, below the 0 of a singleton domain. Here the
   * only open domain has 1_000_001 values, yet `guess` picks the solved variable 0, and the one
   * "child" is the table itself: the solver would pop it and push it back forever.
   */
  lemma GuessPicksSingletonPastAMillion()
    ensures var entries := [[0], seq(1_000_001, i => i)];
      && !Solved(entries) && AllNonEmpty(entries)
      && GuessVar(entries) == 0 && |entries[GuessVar(entries)]| == 1
      && Guesses(entries) == [entries]
  {
    var entries := [[0], seq(1_000_001, i => i)];
    assert Score(|entries[1]|) == -1 < Score(|entries[0]|);
    assert GuessVar(entries) == 0;
    assert MakeGuess(entries, 0, 0) == entries;
  }

  /**
   * The intended order of preference: any domain of two or more values before any other, and
   * among those, fewer values first. `n` is at least as good a guess as `m`.
   */
  predicate AtLeastAsGood(n: nat, m: nat) {
    if (n >= 2) != (m >= 2) then n >= 2 else n <= m
  }

  /** `max_by_key` over `0..n` with the intended preference: the last best index. */
  function BestGuessUpTo<V>(entries: seq<seq<V>>, n: nat): (r: nat)
    requires 1 <= n <= |entries|
    ensures r < n
    ensures forall i :: 0 <= i < n ==> AtLeastAsGood(|entries[r]|, |entries[i]|)
  {
    if n == 1 then 0
    else
      var j := BestGuessUpTo(entries, n - 1);
      if AtLeastAsGood(|entries[n - 1]|, |entries[j]|) then n - 1 else j
  }

  /** The variable the solver splits on: the smallest domain with two or more values. */
  function BestGuess<V>(entries: seq<seq<V>>): (r: nat)
    requires entries != []
    ensures r < |entries|
    ensures !Solved(entries) ==> |entries[r]| >= 2
    ensures forall i :: 0 <= i < |entries| && |entries[i]| >= 2 ==> |entries[r]| <= |entries[i]|
  {
    BestGuessUpTo(entries, |entries|)
  }

  /** Below a million values the score orders domains the intended way. */
  lemma ScoreMatchesPreference(n: nat, m: nat)
    requires 1 <= n < 1_000_000 && 1 <= m < 1_000_000
    ensures Score(n) >= Score(m) <==> AtLeastAsGood(n, m)
  {
  }

  /** While every domain has fewer than a million values, `guess` picks what was intended. */
  lemma {:induction false} GuessVarUpToAgrees<V>(entries: seq<seq<V>>, n: nat)
    requires 1 <= n <= |entries|
    requires forall i :: 0 <= i < |entries| ==> 1 <= |entries[i]| < 1_000_000
    ensures GuessVarUpTo(entries, n) == BestGuessUpTo(entries, n)
  {
    if n > 1 {
      GuessVarUpToAgrees(entries, n - 1);
      ScoreMatchesPreference(|entries[n - 1]|, |entries[GuessVarUpTo(entries, n - 1)]|);
    }
  }

  /** The corrected split: on the smallest open domain, so every child is strictly smaller. */
  function GuessesCorrected<V>(entries: seq<seq<V>>): (children: seq<seq<seq<V>>>)
    requires entries != [] && !Solved(entries)
    ensures |children| >= 2
    ensures forall g :: 0 <= g < |children| ==> Size(children[g]) < Size(entries)
    ensures SumPossibilities(children) == Possibilities(entries)
  {
    var v := BestGuess(entries);
    SplitOnPartitions(entries, v);
    forall g | 0 <= g < |entries[v]|
      ensures Size(SplitOn(entries, v)[g]) < Size(entries)
    {
      SplitOnShrinks(entries, v, g);
    }
    SplitOn(entries, v)
  }

  /* ---------- evaluating a constraint over a table ---------- */

  /** `iter().position(..).unwrap()`: the first index holding `x`. */
  function IndexOf<Var(==)>(vars: seq<Var>, x: Var): (i: nat)
    requires x in vars
    ensures i < |vars| && vars[i] == x
    ensures forall j :: 0 <= j < i ==> vars[j] != x
  {
    if vars[0] == x then 0 else 1 + IndexOf(vars[1..], x)
  }

  /** The left fold of `or` over the singletons of a domain, in order. */
  function FoldOr<V, S>(c: Constraint<V, S>, p: nat, values: seq<V>): S
    requires values != []
  {
    if |values| == 1 then c.singleton(p, values[0])
    else c.or(FoldOr(c, p, values[..|values| - 1]), c.singleton(p, values[|values| - 1]))
  }

  /** An fixing `(var, entry)` names an existing value of an existing variable. */
  predicate FixingIn<V>(entries: seq<seq<V>>, fixing: Option<(nat, nat)>) {
    fixing.Some? ==> fixing.value.0 < |entries| && fixing.value.1 < |entries[fixing.value.0]|
  }

  /** `x` is declared and its domain is not empty. */
  predicate Declared<Var(==), V>(vars: seq<Var>, entries: seq<seq<V>>, x: Var) {
    |vars| == |entries| && x in vars && entries[IndexOf(vars, x)] != []
  }

  /**
   * `eval_constraint_for_param`: the summary of parameter `p` (variable `x`): the singleton of the
   * fixed value when the fixing is about `x`, otherwise the `or` of its whole domain.
   */
  function EvalForParam<Var(==), V, S>(vars: seq<Var>, entries: seq<seq<V>>, c: Constraint<V, S>, p: nat, x: Var, fixing: Option<(nat, nat)>): S
    requires Declared(vars, entries, x) && FixingIn(entries, fixing)
  {
    var i := IndexOf(vars, x);
    if fixing.Some? && fixing.value.0 == i then c.singleton(p, entries[i][fixing.value.1])
    else FoldOr(c, p, entries[i])
  }

  predicate AllDeclared<Var(==), V>(vars: seq<Var>, entries: seq<seq<V>>, params: seq<Var>) {
    |vars| == |entries| && forall k :: 0 <= k < |params| ==> Declared(vars, entries, params[k])
  }

  /** The left fold of `and` over the summaries of the first `n` parameters. */
  function EvalParams<Var(==), V, S>(vars: seq<Var>, entries: seq<seq<V>>, c: Constraint<V, S>, params: seq<Var>, n: nat, fixing: Option<(nat, nat)>): S
    requires 1 <= n <= |params|
    requires AllDeclared(vars, entries, params) && FixingIn(entries, fixing)
  {
    if n == 1 then EvalForParam(vars, entries, c, 0, params[0], fixing)
    else c.and(EvalParams(vars, entries, c, params, n - 1, fixing), EvalForParam(vars, entries, c, n - 1, params[n - 1], fixing))
  }

  /** `eval_constraint` of the guessing solver: `check` of the `and` of all parameter summaries. */
  function EvalConstraint<Var(==), V, S>(vars: seq<Var>, entries: seq<seq<V>>, c: Constraint<V, S>, params: seq<Var>, fixing: Option<(nat, nat)>): YesNoMaybe
    requires params != []
    requires AllDeclared(vars, entries, params) && FixingIn(entries, fixing)
  {
    c.check(EvalParams(vars, entries, c, params, |params|, fixing))
  }

  /** Evaluating under an fixing is evaluating the table in which that guess was made. */
  lemma FixingIsGuessForParam<Var, V, S>(vars: seq<Var>, entries: seq<seq<V>>, c: Constraint<V, S>, p: nat, x: Var, v: nat, g: nat)
    requires Declared(vars, entries, x) && v < |entries| && g < |entries[v]|
    ensures Declared(vars, MakeGuess(entries, v, g), x)
    ensures EvalForParam(vars, entries, c, p, x, Some((v, g))) == EvalForParam(vars, MakeGuess(entries, v, g), c, p, x, None)
  {
  }

  lemma {:induction false} FixingIsGuessUpTo<Var, V, S>(vars: seq<Var>, entries: seq<seq<V>>, c: Constraint<V, S>, params: seq<Var>, n: nat, v: nat, g: nat)
    requires 1 <= n <= |params|
    requires AllDeclared(vars, entries, params) && v < |entries| && g < |entries[v]|
    ensures AllDeclared(vars, MakeGuess(entries, v, g), params)
    ensures EvalParams(vars, entries, c, params, n, Some((v, g))) == EvalParams(vars, MakeGuess(entries, v, g), c, params, n, None)
  {
    forall k | 0 <= k < |params|
      ensures Declared(vars, MakeGuess(entries, v, g), params[k])
    {
      FixingIsGuessForParam(vars, entries, c, k, params[k], v, g);
    }
    FixingIsGuessForParam(vars, entries, c, n - 1, params[n - 1], v, g);
    if n > 1 {
      FixingIsGuessUpTo(vars, entries, c, params, n - 1, v, g);
    }
  }

  /**
   * The fixing `(v, g)` the simplifier evaluates under means exactly "variable `v` takes its
   * value number `g`": the verdict is the one for the table that fixes that value.
   */
  lemma FixingIsGuess<Var, V, S>(vars: seq<Var>, entries: seq<seq<V>>, c: Constraint<V, S>, params: seq<Var>, v: nat, g: nat)
    requires params != [] && AllDeclared(vars, entries, params) && v < |entries| && g < |entries[v]|
    ensures AllDeclared(vars, MakeGuess(entries, v, g), params)
    ensures EvalConstraint(vars, entries, c, params, Some((v, g))) == EvalConstraint(vars, MakeGuess(entries, v, g), c, params, None)
  {
    FixingIsGuessUpTo(vars, entries, c, params, |params|, v, g);
  }
}

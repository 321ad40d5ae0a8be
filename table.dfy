/**
 * The table of `src/table.rs`: a column per variable, holding the values it may still take.
 * Its fields are public and updated in place, so it is a class; what its methods compute is
 * stated with the functions of `Domains`.
 */
module Tables {
  import opened Logic
  import opened Options
  import opened Algebra
  import opened Domains

  class Table<Var(==), V> {
    var vars: seq<Var>
    var entries: seq<seq<V>>

    /** Every variable has a column and no column is empty. */
    ghost predicate Valid()
      reads this
    {
      |vars| == |entries| && AllNonEmpty(entries)
    }

    /** `Table::new`: no variables. */
    constructor ()
      ensures vars == [] && entries == []
      ensures Valid()
    {
      vars := [];
      entries := [];
    }

    /** `clone`. */
    constructor Clone(other: Table<Var, V>)
      ensures vars == other.vars && entries == other.entries
    {
      vars := other.vars;
      entries := other.entries;
    }

    /** `add_column`: panics on an empty domain, otherwise appends the variable and its values. */
    method AddColumn(x: Var, values: seq<V>)
      requires values != []
      modifies this
      ensures vars == old(vars) + [x] && entries == old(entries) + [values]
      ensures old(Valid()) ==> Valid()
      ensures Domains.Size(entries) == Domains.Size(old(entries)) + |values|
      ensures Domains.Possibilities(entries) == Domains.Possibilities(old(entries)) * |values|
    {
      AppendDomain(entries, values);
      vars := vars + [x];
      entries := entries + [values];
    }

    /** `size`: the sum of the domain lengths. */
    method Size() returns (size: nat)
      ensures size == Domains.Size(entries)
    {
      size := 0;
      for i := 0 to |entries|
        invariant size == Domains.Size(entries[..i])
      {
        assert entries[..i + 1][..i] == entries[..i];
        size := size + |entries[i]|;
      }
      assert entries[..|entries|] == entries;
    }

    /** `possibilities`: the product of the domain lengths, as an exact integer. */
    method Possibilities() returns (product: nat)
      ensures product == Domains.Possibilities(entries)
      ensures Valid() ==> product >= 1 && (product == 1 <==> Solved(entries))
    {
      product := 1;
      for i := 0 to |entries|
        invariant product == Domains.Possibilities(entries[..i])
      {
        assert entries[..i + 1][..i] == entries[..i];
        product := product * |entries[i]|;
      }
      assert entries[..|entries|] == entries;
      if Valid() {
        PossibilitiesPositive(entries);
        SolvedIffOnePossibility(entries);
      }
    }

    /** `make_guess`: domain `v` keeps only its value number `g`; nothing else changes. */
    method MakeGuess(v: nat, g: nat)
      requires v < |entries| && g < |entries[v]|
      modifies this
      ensures vars == old(vars)
      ensures entries == Domains.MakeGuess(old(entries), v, g)
      ensures old(Valid()) ==> Valid()
    {
      entries := entries[v := [entries[v][g]]];
    }

    /**
     * `guess`: one new table per value of the variable with the best score, each fixing that
     * value. A table without variables panics.
     */
    method Guess() returns (children: seq<Table<Var, V>>)
      requires entries != []
      ensures |children| == |Guesses(entries)|
      ensures forall g :: 0 <= g < |children| ==>
        fresh(children[g]) && children[g].vars == vars && children[g].entries == Guesses(entries)[g]
    {
      var v := GuessVar(entries);
      children := [];
      for g := 0 to |entries[v]|
        invariant |children| == g
        invariant forall j :: 0 <= j < g ==>
          fresh(children[j]) && children[j].vars == vars && children[j].entries == Domains.MakeGuess(entries, v, j)
      {
        var table := new Table.Clone(this);
        table.MakeGuess(v, g);
        children := children + [table];
      }
    }

    /** `eval_constraint_for_param`. */
    method EvalConstraintForParam<S>(c: Constraint<V, S>, p: nat, x: Var, fixing: Option<(nat, nat)>) returns (summary: S)
      requires Declared(vars, entries, x) && FixingIn(entries, fixing)
      ensures summary == EvalForParam(vars, entries, c, p, x, fixing)
    {
      var i := IndexOf(vars, x);
      if fixing.Some? && fixing.value.0 == i {
        return c.singleton(p, entries[i][fixing.value.1]);
      }
      var values := entries[i];
      summary := c.singleton(p, values[0]);
      for k := 1 to |values|
        invariant summary == FoldOr(c, p, values[..k])
      {
        assert values[..k + 1][..k] == values[..k];
        summary := c.or(summary, c.singleton(p, values[k]));
      }
      assert values[..|values|] == values;
    }

    /**
     * `eval_constraint_for_all`: one verdict per value of parameter `pi`, in domain order,
     * each for the other parameters' summaries joined with that value's singleton.
     */
    method EvalConstraintForAll<S>(c: Constraint<V, S>, params: seq<Var>, pi: nat) returns (verdicts: seq<YesNoMaybe>)
      requires pi < |params| && AllDeclared(vars, entries, params)
      ensures verdicts == EvalForAllSpec(vars, entries, c, params, pi)
    {
      var values := entries[IndexOf(vars, params[pi])];
      if |params| == 1 {
        verdicts := [];
        for k := 0 to |values|
          invariant verdicts == seq(k, j requires 0 <= j < k => c.check(c.singleton(pi, values[j])))
        {
          verdicts := verdicts + [c.check(c.singleton(pi, values[k]))];
        }
        return;
      }
      var acc := EvalOthers(c, params, pi);
      verdicts := [];
      for k := 0 to |values|
        invariant verdicts == seq(k, j requires 0 <= j < k => c.check(c.and(acc, c.singleton(pi, values[j]))))
      {
        verdicts := verdicts + [c.check(c.and(acc, c.singleton(pi, values[k])))];
      }
    }

    /** The first half of `eval_constraint_for_all`: the `and` of every other parameter's summary. */
    method EvalOthers<S>(c: Constraint<V, S>, params: seq<Var>, pi: nat) returns (acc: S)
      requires pi < |params| && |params| >= 2 && AllDeclared(vars, entries, params)
      ensures OthersUpTo(vars, entries, c, params, pi, |params|) == Some(acc)
    {
      var first := if pi == 0 then 1 else 0;
      acc := EvalConstraintForParam(c, first, params[first], None);
      for j := first + 1 to |params|
        invariant OthersUpTo(vars, entries, c, params, pi, j) == Some(acc)
      {
        if j != pi {
          var next := EvalConstraintForParam(c, j, params[j], None);
          acc := c.and(acc, next);
        }
      }
    }

    /**
     * `eval_constraint`: `Yes` at once when the fixed variable is not a parameter, otherwise
     * `check` of the `and` of the parameter summaries.
     */
    method EvalConstraint<S>(c: Constraint<V, S>, params: seq<Var>, fixing: Option<(nat, nat)>) returns (r: YesNoMaybe)
      requires params != [] && AllDeclared(vars, entries, params) && FixingIn(entries, fixing)
      ensures fixing.Some? && vars[fixing.value.0] !in params ==> r == Yes
      ensures !(fixing.Some? && vars[fixing.value.0] !in params) ==> r == Domains.EvalConstraint(vars, entries, c, params, fixing)
    {
      if fixing.Some? && vars[fixing.value.0] !in params {
        return Yes;
      }
      var acc := EvalConstraintForParam(c, 0, params[0], fixing);
      for k := 1 to |params|
        invariant acc == EvalParams(vars, entries, c, params, k, fixing)
      {
        var next := EvalConstraintForParam(c, k, params[k], fixing);
        acc := c.and(acc, next);
      }
      r := c.check(acc);
    }

    /** `is_solved`: no domain has two values or more. */
    method IsSolved() returns (solved: bool)
      ensures solved == Solved(entries)
    {
      for i := 0 to |entries|
        invariant forall j :: 0 <= j < i ==> |entries[j]| <= 1
      {
        if |entries[i]| > 1 {
          return false;
        }
      }
      return true;
    }

    /**
     * `into_state`: the `set` calls made on a fresh state, in order: one per variable whose
     * domain is a single value.
     */
    method IntoState() returns (calls: seq<(Var, V)>)
      ensures calls == SetCalls(vars, entries, Min(|vars|, |entries|))
    {
      calls := [];
      for i := 0 to Min(|vars|, |entries|)
        invariant calls == SetCalls(vars, entries, i)
      {
        if |entries[i]| == 1 {
          assert SetCalls(vars, entries, i + 1) == SetCalls(vars, entries, i) + [(vars[i], entries[i][0])];
          calls := calls + [(vars[i], entries[i][0])];
        } else {
          assert SetCalls(vars, entries, i + 1) == SetCalls(vars, entries, i);
        }
      }
    }
  }

  function Min(a: nat, b: nat): nat {
    if a <= b then a else b
  }

  /**
   * The `set` calls `into_state` makes for the first `n` variables: exactly one for each
   * variable whose domain is a single value, with that value, in variable order.
   */
  function SetCalls<Var, V>(vars: seq<Var>, entries: seq<seq<V>>, n: nat): (calls: seq<(Var, V)>)
    requires n <= |vars| && n <= |entries|
    ensures |calls| <= n
  {
    if n == 0 then []
    else
      var prev := SetCalls(vars, entries, n - 1);
      if |entries[n - 1]| == 1 then prev + [(vars[n - 1], entries[n - 1][0])] else prev
  }

  /** Every single-valued variable among the first `n` is set to its value, and nothing else is. */
  lemma {:induction false} SetCallsMembers<Var, V>(vars: seq<Var>, entries: seq<seq<V>>, n: nat)
    requires n <= |vars| && n <= |entries|
    ensures forall i :: 0 <= i < n && |entries[i]| == 1 ==> (vars[i], entries[i][0]) in SetCalls(vars, entries, n)
    ensures forall k :: 0 <= k < |SetCalls(vars, entries, n)| ==>
      exists i :: 0 <= i < n && |entries[i]| == 1 && SetCalls(vars, entries, n)[k] == (vars[i], entries[i][0])
  {
    if n > 0 {
      SetCallsMembers(vars, entries, n - 1);
      var prev := SetCalls(vars, entries, n - 1);
      var calls := SetCalls(vars, entries, n);
      assert calls == if |entries[n - 1]| == 1 then prev + [(vars[n - 1], entries[n - 1][0])] else prev;
      forall i | 0 <= i < n && |entries[i]| == 1
        ensures (vars[i], entries[i][0]) in calls
      {
        if i < n - 1 {
          var k :| 0 <= k < |prev| && prev[k] == (vars[i], entries[i][0]);
          assert calls[k] == prev[k];
        } else {
          assert calls[|prev|] == (vars[i], entries[i][0]);
        }
      }
      forall k | 0 <= k < |calls|
        ensures exists i :: 0 <= i < n && |entries[i]| == 1 && SetCalls(vars, entries, n)[k] == (vars[i], entries[i][0])
      {
        if k == |prev| {
          assert calls[k] == (vars[n - 1], entries[n - 1][0]);
        } else {
          assert k < |prev|;
          assert exists i :: 0 <= i < n - 1 && |entries[i]| == 1 && SetCalls(vars, entries, n - 1)[k] == (vars[i], entries[i][0]);
          var i :| 0 <= i < n - 1 && |entries[i]| == 1 && prev[k] == (vars[i], entries[i][0]);
          assert calls[k] == prev[k];
        }
      }
      assert forall k :: 0 <= k < |calls| ==>
        exists i :: 0 <= i < n && |entries[i]| == 1 && SetCalls(vars, entries, n)[k] == (vars[i], entries[i][0]);
    } else {
      assert |SetCalls(vars, entries, n)| == 0;
    }
  }

  /**
   * The `and` of the summaries of the first `n` parameters other than `pi`, left to right;
   * `None` while there is none yet.
   */
  function OthersUpTo<Var(==), V, S>(vars: seq<Var>, entries: seq<seq<V>>, c: Constraint<V, S>, params: seq<Var>, pi: nat, n: nat): (r: Option<S>)
    requires n <= |params| && AllDeclared(vars, entries, params)
    ensures r.Some? <==> n >= 2 || (n == 1 && pi != 0)
  {
    if n == 0 then None
    else
      var prev := OthersUpTo(vars, entries, c, params, pi, n - 1);
      if n - 1 == pi then prev
      else
        var s := EvalForParam(vars, entries, c, n - 1, params[n - 1], None);
        if prev.None? then Some(s) else Some(c.and(prev.value, s))
  }

  /** What `eval_constraint_for_all` computes. */
  function EvalForAllSpec<Var(==), V, S>(vars: seq<Var>, entries: seq<seq<V>>, c: Constraint<V, S>, params: seq<Var>, pi: nat): seq<YesNoMaybe>
    requires pi < |params| && AllDeclared(vars, entries, params)
  {
    var values := entries[IndexOf(vars, params[pi])];
    if |params| == 1 then seq(|values|, k requires 0 <= k < |values| => c.check(c.singleton(pi, values[k])))
    else
      var others := OthersUpTo(vars, entries, c, params, pi, |params|).value;
      seq(|values|, k requires 0 <= k < |values| => c.check(c.and(others, c.singleton(pi, values[k]))))
  }

  /** No two parameters are the same variable. */
  predicate Distinct<Var(==)>(params: seq<Var>) {
    forall j, k :: 0 <= j < k < |params| ==> params[j] != params[k]
  }

  /**
   * While parameter `pi` is fixed to value `k`, the first `n` summaries combine (for `n > pi`)
   * into the others' summary joined with the singleton of the fixed value.
   */
  lemma {:induction false} FixedFoldRegroups<Var, V, S(!new)>(vars: seq<Var>, entries: seq<seq<V>>, c: Constraint<V, S>, params: seq<Var>, pi: nat, k: nat, n: nat)
    requires pi < n <= |params| && AllDeclared(vars, entries, params) && Distinct(params)
    requires k < |entries[IndexOf(vars, params[pi])]|
    requires AndLaws(c)
    ensures var fixing := Some((IndexOf(vars, params[pi]), k));
      var single := c.singleton(pi, entries[IndexOf(vars, params[pi])][k]);
      var others := OthersUpTo(vars, entries, c, params, pi, n);
      EvalParams(vars, entries, c, params, n, fixing) == if others.None? then single else c.and(others.value, single)
  {
    var v := IndexOf(vars, params[pi]);
    var fixing := Some((v, k));
    var single := c.singleton(pi, entries[v][k]);
    if n == pi + 1 {
      if n > 1 {
        UnfixedPrefix(vars, entries, c, params, pi, k, n - 1);
      }
    } else {
      FixedFoldRegroups(vars, entries, c, params, pi, k, n - 1);
      var s := EvalForParam(vars, entries, c, n - 1, params[n - 1], None);
      assert EvalForParam(vars, entries, c, n - 1, params[n - 1], fixing) == s by {
        assert params[n - 1] != params[pi];
      }
      var prev := OthersUpTo(vars, entries, c, params, pi, n - 1);
      if prev.Some? {
        calc {
          c.and(c.and(prev.value, single), s);
          c.and(prev.value, c.and(single, s));
          { assert c.and(single, s) == c.and(s, single); }
          c.and(prev.value, c.and(s, single));
          c.and(c.and(prev.value, s), single);
        }
      } else {
        assert c.and(single, s) == c.and(s, single);
      }
    }
  }

  /** Before the fixed parameter, the fold is the same as the others' summary. */
  lemma {:induction false} UnfixedPrefix<Var, V, S>(vars: seq<Var>, entries: seq<seq<V>>, c: Constraint<V, S>, params: seq<Var>, pi: nat, k: nat, n: nat)
    requires 1 <= n <= pi < |params| && AllDeclared(vars, entries, params) && Distinct(params)
    requires k < |entries[IndexOf(vars, params[pi])]|
    ensures Some(EvalParams(vars, entries, c, params, n, Some((IndexOf(vars, params[pi]), k)))) == OthersUpTo(vars, entries, c, params, pi, n)
  {
    assert params[n - 1] != params[pi];
    if n > 1 {
      UnfixedPrefix(vars, entries, c, params, pi, k, n - 1);
    }
  }

  /**
   * When `and` may be regrouped and reordered and the parameters are distinct,
   * `eval_constraint_for_all` gives for each value exactly the verdict of evaluating the
   * constraint with that value fixed.
   */
  lemma ForAllIsFixedEval<Var, V, S(!new)>(vars: seq<Var>, entries: seq<seq<V>>, c: Constraint<V, S>, params: seq<Var>, pi: nat, k: nat)
    requires pi < |params| && AllDeclared(vars, entries, params) && Distinct(params)
    requires k < |entries[IndexOf(vars, params[pi])]|
    requires AndLaws(c)
    ensures |EvalForAllSpec(vars, entries, c, params, pi)| == |entries[IndexOf(vars, params[pi])]|
    ensures FixingIn(entries, Some((IndexOf(vars, params[pi]), k)))
    ensures EvalForAllSpec(vars, entries, c, params, pi)[k]
      == Domains.EvalConstraint(vars, entries, c, params, Some((IndexOf(vars, params[pi]), k)))
  {
    FixedFoldRegroups(vars, entries, c, params, pi, k, |params|);
  }

  /** A constraint whose parameters do not include the fixed variable is blind to the fixing. */
  lemma FixingElsewhereIsIgnored<Var, V, S>(vars: seq<Var>, entries: seq<seq<V>>, c: Constraint<V, S>, params: seq<Var>, v: nat, g: nat)
    requires params != [] && AllDeclared(vars, entries, params)
    requires v < |entries| && g < |entries[v]| && vars[v] !in params
    ensures Domains.EvalConstraint(vars, entries, c, params, Some((v, g))) == Domains.EvalConstraint(vars, entries, c, params, None)
  {
    FixingElsewhereUpTo(vars, entries, c, params, v, g, |params|);
  }

  lemma {:induction false} FixingElsewhereUpTo<Var, V, S>(vars: seq<Var>, entries: seq<seq<V>>, c: Constraint<V, S>, params: seq<Var>, v: nat, g: nat, n: nat)
    requires 1 <= n <= |params| && AllDeclared(vars, entries, params)
    requires v < |entries| && g < |entries[v]| && vars[v] !in params
    ensures EvalParams(vars, entries, c, params, n, Some((v, g))) == EvalParams(vars, entries, c, params, n, None)
  {
    assert IndexOf(vars, params[n - 1]) != v;
    if n > 1 {
      FixingElsewhereUpTo(vars, entries, c, params, v, g, n - 1);
    }
  }
}

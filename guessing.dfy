/**
 * The guess-and-simplify solver of `src/guessing_solver.rs`. It keeps a list of tables still to
 * explore and a list of solutions found. Simplifying a table deletes, over and over until
 * nothing changes, every value that some constraint rules out; solving splits an unsolved table
 * on one variable and simplifies the pieces, until no table is left.
 */
module GuessingSolver {
  import opened Logic
  import opened Options
  import opened Algebra
  import opened Domains

  /** A table of this solver: the same columns as the table of `src/table.rs`, held by value. */
  datatype Table<Var, V> = Table(vars: seq<Var>, entries: seq<seq<V>>)

  /** A solved table: one value per variable. */
  datatype Solution<Var, V> = Solution(vars: seq<Var>, entries: seq<V>)

  /**
   * A constraint with its value type erased: its name, its parameters and the verdict it gives
   * on a table, optionally with one variable fixed to one of its values.
   */
  datatype DynConstraint<!Var, !V> = DynConstraint(
    name: string,
    params: seq<Var>,
    eval: (Table<Var, V>, Option<(nat, nat)>) -> YesNoMaybe)

  /** Every column has a variable and no column is empty. */
  predicate WellFormed<Var, V>(t: Table<Var, V>) {
    |t.vars| == |t.entries| && AllNonEmpty(t.entries)
  }

  /** `add_column`: panics on an empty domain, otherwise appends the variable and its values. */
  function AddColumn<Var, V>(t: Table<Var, V>, x: Var, values: seq<V>): (r: Table<Var, V>)
    requires values != []
    ensures r.vars == t.vars + [x] && r.entries == t.entries + [values]
    ensures WellFormed(t) ==> WellFormed(r)
    ensures Size(r.entries) == Size(t.entries) + |values|
  {
    AppendDomain(t.entries, values);
    Table(t.vars + [x], t.entries + [values])
  }

  /** `into_solution`: each (single-valued) domain gives up its value. */
  function IntoSolution<Var, V>(t: Table<Var, V>): (s: Solution<Var, V>)
    requires Solved(t.entries) && AllNonEmpty(t.entries)
    ensures s.vars == t.vars && |s.entries| == |t.entries|
    ensures forall i :: 0 <= i < |t.entries| ==> t.entries[i] == [s.entries[i]]
  {
    Solution(t.vars, seq(|t.entries|, i requires 0 <= i < |t.entries| => t.entries[i][0]))
  }

  /** The table standing for exactly one solution. */
  function SolutionTable<Var, V>(s: Solution<Var, V>): Table<Var, V> {
    Table(s.vars, seq(|s.entries|, i requires 0 <= i < |s.entries| => [s.entries[i]]))
  }

  lemma IntoSolutionRoundTrip<Var, V>(t: Table<Var, V>)
    requires Solved(t.entries) && AllNonEmpty(t.entries)
    ensures SolutionTable(IntoSolution(t)) == t
  {
  }

  /** The table-level evaluation is defined: the panics of `eval_constraint` do not happen. */
  predicate Evaluable<Var(==), V>(t: Table<Var, V>, params: seq<Var>, fixing: Option<(nat, nat)>) {
    params != [] && AllDeclared(t.vars, t.entries, params) && FixingIn(t.entries, fixing)
  }

  /**
   * `DynConstraint::new`: the constraint's name, its parameters, and evaluation through the
   * constraint's algebra. Where the source would panic (no parameters, an undeclared parameter)
   * the verdict is `Maybe`, which rules nothing out.
   */
  function NewDynConstraint<Var(==), V, S>(params: seq<Var>, c: Constraint<V, S>): (d: DynConstraint<Var, V>)
    ensures d.name == c.name && d.params == params
  {
    DynConstraint(c.name, params,
      (t: Table<Var, V>, fixing: Option<(nat, nat)>) =>
        if Evaluable(t, params, fixing) then Domains.EvalConstraint(t.vars, t.entries, c, params, fixing) else Maybe)
  }

  /**
   * Evaluating a constraint with variable `v` fixed to its value number `g` is evaluating the
   * table in which that guess was made.
   */
  lemma DynEvalIsGuess<Var, V, S>(params: seq<Var>, c: Constraint<V, S>, t: Table<Var, V>, v: nat, g: nat)
    requires Evaluable(t, params, Some((v, g)))
    ensures NewDynConstraint(params, c).eval(t, Some((v, g)))
      == NewDynConstraint(params, c).eval(Table(t.vars, MakeGuess(t.entries, v, g)), None)
  {
    FixingIsGuess(t.vars, t.entries, c, params, v, g);
  }

  /* ---------- what one simplification pass flags ---------- */

  /** Some constraint says `No`. */
  predicate AnyNo<Var, V>(cs: seq<DynConstraint<Var, V>>, t: Table<Var, V>, fixing: Option<(nat, nat)>) {
    exists k :: 0 <= k < |cs| && cs[k].eval(t, fixing) == No
  }

  /** Strictly ascending (variable, entry) pairs, compared lexicographically. */
  predicate Ascending(pairs: seq<(nat, nat)>) {
    forall j, k :: 0 <= j < k < |pairs| ==> Before(pairs[j], pairs[k])
  }

  /** The flagged entries of variable `v` among its first `n`, ascending. */
  function FlagsOf<Var, V>(t: Table<Var, V>, cs: seq<DynConstraint<Var, V>>, v: nat, n: nat): (r: seq<(nat, nat)>)
    ensures forall p :: p in r ==> p.0 == v && p.1 < n && AnyNo(cs, t, Some(p))
    ensures forall e :: 0 <= e < n && AnyNo(cs, t, Some((v, e))) ==> (v, e) in r
    ensures Ascending(r)
  {
    if n == 0 then []
    else FlagsOf(t, cs, v, n - 1) + if AnyNo(cs, t, Some((v, n - 1))) then [(v, n - 1)] else []
  }

  /** The flagged pairs of the first `m` variables, ascending. */
  function FlagsUpTo<Var, V>(t: Table<Var, V>, cs: seq<DynConstraint<Var, V>>, m: nat): (r: seq<(nat, nat)>)
    requires m <= |t.entries|
    ensures forall p :: p in r ==> p.0 < m && p.1 < |t.entries[p.0]| && AnyNo(cs, t, Some(p))
    ensures forall v, e :: 0 <= v < m && 0 <= e < |t.entries[v]| && AnyNo(cs, t, Some((v, e))) ==> (v, e) in r
    ensures Ascending(r)
  {
    if m == 0 then []
    else
      var prev := FlagsUpTo(t, cs, m - 1);
      var next := FlagsOf(t, cs, m - 1, |t.entries[m - 1]|);
      AscendingConcat(prev, next);
      prev + next
  }

  lemma AscendingConcat(a: seq<(nat, nat)>, b: seq<(nat, nat)>)
    requires Ascending(a) && Ascending(b)
    requires forall p, q :: p in a && q in b ==> p.0 < q.0
    ensures Ascending(a + b)
  {
    forall j, k | 0 <= j < k < |a + b|
      ensures Before((a + b)[j], (a + b)[k])
    {
      if j < |a| && k >= |a| {
        assert (a + b)[j] in a && (a + b)[k] in b;
      } else if j >= |a| {
        assert (a + b)[j] == b[j - |a|] && (a + b)[k] == b[k - |a|];
      }
    }
  }

  /** What one pass of `simplify_table` flags: every (variable, entry) some constraint rules out. */
  function Flagged<Var, V>(t: Table<Var, V>, cs: seq<DynConstraint<Var, V>>): seq<(nat, nat)>
    requires |t.vars| <= |t.entries|
  {
    FlagsUpTo(t, cs, |t.vars|)
  }

  /** No constraint rules out any remaining value: the fixpoint `simplify_table` stops at. */
  predicate Stable<Var, V>(t: Table<Var, V>, cs: seq<DynConstraint<Var, V>>) {
    forall v, e :: 0 <= v < |t.entries| && 0 <= e < |t.entries[v]| ==> !AnyNo(cs, t, Some((v, e)))
  }

  /** A solution no constraint rules out. */
  predicate Accepted<Var, V>(s: Solution<Var, V>, cs: seq<DynConstraint<Var, V>>) {
    Stable(SolutionTable(s), cs)
  }

  /* ---------- what the reverse removal keeps ---------- */

  /** Pair `p` comes strictly before pair `q` in (variable, entry) order. */
  predicate Before(p: (nat, nat), q: (nat, nat)) {
    p.0 < q.0 || (p.0 == q.0 && p.1 < q.1)
  }

  /** Every pair names an existing entry of `entries`. */
  predicate InRange<V>(entries: seq<seq<V>>, del: seq<(nat, nat)>) {
    forall i :: 0 <= i < |del| ==> del[i].0 < |entries| && del[i].1 < |entries[del[i].0]|
  }

  /** The pairs of a list, as a set. */
  function Elems(s: seq<(nat, nat)>): set<(nat, nat)> {
    if s == [] then {} else {s[0]} + Elems(s[1..])
  }

  /** Every domain of `small` is a sub-multiset of the same domain of `big`. */
  ghost predicate Shrunk<V>(small: seq<seq<V>>, big: seq<seq<V>>) {
    |small| == |big| && forall w :: 0 <= w < |small| ==> multiset(small[w]) <= multiset(big[w])
  }

  /** The first `n` values of domain `d` of variable `v` whose pair is not in `gone`, in order. */
  function Keep<V>(d: seq<V>, v: nat, gone: set<(nat, nat)>, n: nat): seq<V>
    requires n <= |d|
  {
    if n == 0 then []
    else Keep(d, v, gone, n - 1) + if (v, n - 1) in gone then [] else [d[n - 1]]
  }

  lemma {:induction false} KeepUnflagged<V>(d: seq<V>, v: nat, gone: set<(nat, nat)>, n: nat)
    requires n <= |d|
    requires forall e :: 0 <= e < n ==> (v, e) !in gone
    ensures Keep(d, v, gone, n) == d[..n]
  {
    if n > 0 {
      KeepUnflagged(d, v, gone, n - 1);
      assert d[..n] == d[..n - 1] + [d[n - 1]];
    }
  }

  lemma {:induction false} KeepSubset<V>(d: seq<V>, v: nat, gone: set<(nat, nat)>, n: nat)
    requires n <= |d|
    ensures multiset(Keep(d, v, gone, n)) <= multiset(d[..n])
  {
    if n > 0 {
      KeepSubset(d, v, gone, n - 1);
      assert d[..n] == d[..n - 1] + [d[n - 1]];
    }
  }

  /** Flagging a pair of another variable keeps the same values. */
  lemma {:induction false} KeepOtherVar<V>(d: seq<V>, w: nat, p: (nat, nat), gone: set<(nat, nat)>, n: nat)
    requires n <= |d| && p.0 != w
    ensures Keep(d, w, gone + {p}, n) == Keep(d, w, gone, n)
  {
    if n > 0 {
      KeepOtherVar(d, w, p, gone, n - 1);
    }
  }

  /**
   * Flagging entry `e` of `v`, below every other flagged entry of `v`, removes exactly the value
   * at position `e` of what was kept.
   */
  lemma {:induction false} KeepRemoveBelow<V>(d: seq<V>, v: nat, e: nat, gone: set<(nat, nat)>, n: nat)
    requires e < n <= |d|
    requires forall f :: 0 <= f <= e ==> (v, f) !in gone
    ensures |Keep(d, v, gone, n)| > e
    ensures Keep(d, v, gone + {(v, e)}, n) == Keep(d, v, gone, n)[..e] + Keep(d, v, gone, n)[e + 1..]
  {
    var gone' := gone + {(v, e)};
    if n == e + 1 {
      KeepUnflagged(d, v, gone, e);
      KeepUnflagged(d, v, gone', e);
      assert Keep(d, v, gone, n) == d[..e] + [d[e]];
    } else {
      KeepRemoveBelow(d, v, e, gone, n - 1);
      var k := Keep(d, v, gone, n - 1);
      var tail := if (v, n - 1) in gone then [] else [d[n - 1]];
      assert ((v, n - 1) in gone') == ((v, n - 1) in gone);
      assert (k + tail)[..e] == k[..e];
      assert (k + tail)[e + 1..] == k[e + 1..] + tail;
    }
  }

  /** A bound on every pair of a list is a bound on its set. */
  lemma {:induction false} ElemsAfter(s: seq<(nat, nat)>, lo: (nat, nat))
    requires forall i :: 0 <= i < |s| ==> Before(lo, s[i])
    ensures forall p :: p in Elems(s) ==> Before(lo, p)
  {
    if s != [] {
      ElemsAfter(s[1..], lo);
    }
  }

  /** One step of the reverse removal: the set of pairs `k..` is pair `k` and the set of pairs `k + 1..`. */
  lemma ElemsStep(del: seq<(nat, nat)>, k: nat)
    requires k < |del|
    ensures Elems(del[k..]) == {del[k]} + Elems(del[k + 1..])
  {
    assert del[k..][1..] == del[k + 1..];
  }

  /** Domain `p.0` without its entry number `p.1`: what `Vec::remove` leaves. */
  function RemovePair<V>(entries: seq<seq<V>>, p: (nat, nat)): seq<seq<V>>
    requires p.0 < |entries| && p.1 < |entries[p.0]|
  {
    entries[p.0 := entries[p.0][..p.1] + entries[p.0][p.1 + 1..]]
  }

  /** Every domain of `entries` is what `Keep` leaves of the same domain of `start` for the pairs `gone`. */
  ghost predicate KeptSoFar<V>(start: seq<seq<V>>, entries: seq<seq<V>>, gone: set<(nat, nat)>) {
    |entries| == |start| && forall w :: 0 <= w < |start| ==> entries[w] == Keep(start[w], w, gone, |start[w]|)
  }

  /**
   * One step of the reverse removal: deleting the entry of pair `k` from what the later pairs
   * left keeps exactly what pairs `k..` leave, one value fewer.
   */
  lemma RemoveStep<V>(start: seq<seq<V>>, cur: seq<seq<V>>, del: seq<(nat, nat)>, k: nat)
    requires k < |del| && Ascending(del) && InRange(start, del)
    requires KeptSoFar(start, cur, Elems(del[k + 1..]))
    ensures del[k].0 < |cur| && del[k].1 < |cur[del[k].0]|
    ensures KeptSoFar(start, RemovePair(cur, del[k]), Elems(del[k..]))
    ensures Size(RemovePair(cur, del[k])) + 1 == Size(cur)
  {
    var (v, e) := del[k];
    var gone := Elems(del[k + 1..]);
    var later := del[k + 1..];
    forall i | 0 <= i < |later|
      ensures Before(del[k], later[i])
    {
      assert later[i] == del[k + 1 + i];
    }
    ElemsAfter(later, del[k]);
    ElemsStep(del, k);
    KeepRemoveBelow(start[v], v, e, gone, |start[v]|);
    assert Elems(del[k..]) == gone + {(v, e)};
    forall w | 0 <= w < |start| && w != v
      ensures Keep(start[w], w, gone + {(v, e)}, |start[w]|) == Keep(start[w], w, gone, |start[w]|)
    {
      KeepOtherVar(start[w], w, (v, e), gone, |start[w]|);
    }
    ReplaceDomain(cur, v, cur[v][..e] + cur[v][e + 1..]);
  }

  lemma NothingRemovedYet<V>(start: seq<seq<V>>, del: seq<(nat, nat)>)
    ensures KeptSoFar(start, start, Elems(del[|del|..]))
  {
    assert Elems(del[|del|..]) == {};
    forall w | 0 <= w < |start|
      ensures start[w] == Keep(start[w], w, {}, |start[w]|)
    {
      KeepUnflagged(start[w], w, {}, |start[w]|);
      assert start[w][..|start[w]|] == start[w];
    }
  }

  /** Whatever the removal has done so far only took values away. */
  lemma KeptShrinks<V>(start: seq<seq<V>>, now: seq<seq<V>>, gone: set<(nat, nat)>)
    requires KeptSoFar(start, now, gone)
    ensures Shrunk(now, start)
  {
    forall w | 0 <= w < |now|
      ensures multiset(now[w]) <= multiset(start[w])
    {
      KeepSubset(start[w], w, gone, |start[w]|);
      assert start[w][..|start[w]|] == start[w];
    }
  }

  /** Every domain of `start` without the values whose pairs are in `gone`. */
  function KeepAll<V>(start: seq<seq<V>>, gone: set<(nat, nat)>): (r: seq<seq<V>>)
    ensures |r| == |start|
  {
    seq(|start|, w requires 0 <= w < |start| => Keep(start[w], w, gone, |start[w]|))
  }

  lemma KeptSoFarIsKeepAll<V>(start: seq<seq<V>>, entries: seq<seq<V>>, gone: set<(nat, nat)>)
    ensures KeptSoFar(start, entries, gone) <==> entries == KeepAll(start, gone)
  {
  }

  /**
   * The outcome of the reverse removal of `simplify_table` once the pairs `del[k..]` are gone:
   * pair `k - 1` is deleted next, and the removal stops with `true` at the first deletion that
   * empties a domain, or reaches pair 0 with `false`.
   */
  function RemoveRun<V>(start: seq<seq<V>>, del: seq<(nat, nat)>, k: nat): (bool, seq<seq<V>>)
    requires k <= |del| && InRange(start, del)
  {
    if k == 0 then (false, KeepAll(start, Elems(del)))
    else
      var now := KeepAll(start, Elems(del[k - 1..]));
      if now[del[k - 1].0] == [] then (true, now) else RemoveRun(start, del, k - 1)
  }

  /**
   * The removal only takes values away; it reports `true` exactly when it leaves an empty domain,
   * and otherwise it has deleted every flagged value, one each.
   */
  lemma {:induction false} RemoveRunFacts<V>(start: seq<seq<V>>, del: seq<(nat, nat)>, k: nat)
    requires Ascending(del) && InRange(start, del) && k <= |del|
    requires AllNonEmpty(KeepAll(start, Elems(del[k..])))
    requires Size(KeepAll(start, Elems(del[k..]))) + (|del| - k) == Size(start)
    ensures var (emptied, entries) := RemoveRun(start, del, k);
      && Shrunk(entries, start)
      && (emptied <==> !AllNonEmpty(entries))
      && (!emptied ==> entries == KeepAll(start, Elems(del)) && Size(entries) + |del| == Size(start))
    decreases k
  {
    var cur := KeepAll(start, Elems(del[k..]));
    KeptSoFarIsKeepAll(start, cur, Elems(del[k..]));
    if k == 0 {
      assert del[0..] == del;
      KeptShrinks(start, cur, Elems(del));
    } else {
      RemoveStep(start, cur, del, k - 1);
      var now := RemovePair(cur, del[k - 1]);
      KeptSoFarIsKeepAll(start, now, Elems(del[k - 1..]));
      if now[del[k - 1].0] == [] {
        KeptShrinks(start, now, Elems(del[k - 1..]));
      } else {
        assert AllNonEmpty(now);
        RemoveRunFacts(start, del, k - 1);
      }
    }
  }

  /** `RemoveRunFacts` for the whole removal, from a table without empty domains. */
  lemma RemoveRunFromStart<V>(start: seq<seq<V>>, del: seq<(nat, nat)>)
    requires AllNonEmpty(start) && Ascending(del) && InRange(start, del)
    ensures var (emptied, entries) := RemoveRun(start, del, |del|);
      && Shrunk(entries, start)
      && (emptied <==> !AllNonEmpty(entries))
      && (!emptied ==> entries == KeepAll(start, Elems(del)) && Size(entries) + |del| == Size(start))
  {
    NothingRemovedYet(start, del);
    KeptSoFarIsKeepAll(start, start, Elems(del[|del|..]));
    RemoveRunFacts(start, del, |del|);
  }

  /**
   * The removal half of one pass of `simplify_table`: deletes the flagged entries, last first,
   * and stops with `true` as soon as a domain becomes empty.
   */
  method RemoveFlagged<V>(start: seq<seq<V>>, del: seq<(nat, nat)>) returns (emptied: bool, entries: seq<seq<V>>)
    requires AllNonEmpty(start) && Ascending(del) && InRange(start, del)
    ensures (emptied, entries) == RemoveRun(start, del, |del|)
    ensures Shrunk(entries, start) && (emptied <==> !AllNonEmpty(entries))
    ensures !emptied ==> entries == KeepAll(start, Elems(del)) && Size(entries) + |del| == Size(start)
  {
    NothingRemovedYet(start, del);
    entries := start;
    var k := |del|;
    while k > 0
      invariant 0 <= k <= |del|
      invariant KeptSoFar(start, entries, Elems(del[k..]))
      invariant RemoveRun(start, del, k) == RemoveRun(start, del, |del|)
    {
      k := k - 1;
      RemoveStep(start, entries, del, k);
      entries := RemovePair(entries, del[k]);
      RemoveRunStep(start, del, k, entries);
      if entries[del[k].0] == [] {
        RemoveRunFromStart(start, del);
        return true, entries;
      }
    }
    assert del[0..] == del;
    RemoveRunEnd(start, del, entries);
    RemoveRunFromStart(start, del);
    emptied := false;
  }

  /** One deletion of the removal, as `RemoveRun` takes it. */
  lemma RemoveRunStep<V>(start: seq<seq<V>>, del: seq<(nat, nat)>, k: nat, entries: seq<seq<V>>)
    requires k < |del| && InRange(start, del) && KeptSoFar(start, entries, Elems(del[k..]))
    ensures RemoveRun(start, del, k + 1) == if entries[del[k].0] == [] then (true, entries) else RemoveRun(start, del, k)
  {
    KeptSoFarIsKeepAll(start, entries, Elems(del[k..]));
  }

  /** The end of the removal, as `RemoveRun` takes it. */
  lemma RemoveRunEnd<V>(start: seq<seq<V>>, del: seq<(nat, nat)>, entries: seq<seq<V>>)
    requires InRange(start, del) && KeptSoFar(start, entries, Elems(del))
    ensures RemoveRun(start, del, 0) == (false, entries)
  {
    KeptSoFarIsKeepAll(start, entries, Elems(del));
  }

  /* ---------- the measure that makes `solve` terminate ---------- */

  /** `2p - 1` for a table of `p >= 1` possibilities. */
  function Weight<Var, V>(t: Table<Var, V>): nat {
    var p := Possibilities(t.entries);
    if p == 0 then 0 else 2 * p - 1
  }

  function Measure<Var, V>(tables: seq<Table<Var, V>>): nat {
    if tables == [] then 0
    else Measure(tables[..|tables| - 1]) + Weight(tables[|tables| - 1])
  }

  lemma {:induction false} MeasureConcat<Var, V>(a: seq<Table<Var, V>>, b: seq<Table<Var, V>>)
    ensures Measure(a + b) == Measure(a) + Measure(b)
    decreases |b|
  {
    if b == [] {
      assert a + b == a;
    } else {
      assert (a + b)[..|a + b| - 1] == a + b[..|b| - 1];
      MeasureConcat(a, b[..|b| - 1]);
    }
  }

  lemma MeasureSingle<Var, V>(t: Table<Var, V>)
    ensures Measure([t]) == Weight(t)
  {
    assert [t][..0] == [];
  }

  /** Fewer values in every domain never means more possibilities. */
  lemma {:induction false} PossibilitiesMonotone<V>(small: seq<seq<V>>, big: seq<seq<V>>)
    requires |small| == |big|
    requires forall i :: 0 <= i < |small| ==> |small[i]| <= |big[i]|
    ensures Possibilities(small) <= Possibilities(big)
  {
    if small != [] {
      var n := |small| - 1;
      PossibilitiesMonotone(small[..n], big[..n]);
      MulMonotone(Possibilities(small[..n]), |small[n]|, |big[n]|);
      MulMonotone(|big[n]|, Possibilities(small[..n]), Possibilities(big[..n]));
    }
  }

  /** The tables a split yields, with the parent's variables. */
  function ChildTables<Var, V>(vars: seq<Var>, children: seq<seq<seq<V>>>): seq<Table<Var, V>> {
    seq(|children|, k requires 0 <= k < |children| => Table(vars, children[k]))
  }

  lemma {:induction false} MeasureOfChildren<Var, V>(vars: seq<Var>, children: seq<seq<seq<V>>>)
    requires forall k :: 0 <= k < |children| ==> Possibilities(children[k]) >= 1
    ensures Measure(ChildTables(vars, children)) + |children| == 2 * SumPossibilities(children)
  {
    if children != [] {
      var n := |children| - 1;
      MeasureOfChildren(vars, children[..n]);
      assert ChildTables(vars, children)[..n] == ChildTables(vars, children[..n]);
    }
  }

  /** A split on the smallest open domain lowers the measure: the parent weighs more than its children. */
  lemma SplitLowersMeasure<Var, V>(t: Table<Var, V>)
    requires WellFormed(t) && t.entries != [] && !Solved(t.entries)
    ensures Measure(ChildTables(t.vars, GuessesCorrected(t.entries))) < Weight(t)
    ensures forall k :: 0 <= k < |GuessesCorrected(t.entries)| ==> WellFormed(Table(t.vars, GuessesCorrected(t.entries)[k]))
  {
    var children := GuessesCorrected(t.entries);
    var v := BestGuess(t.entries);
    forall k | 0 <= k < |children|
      ensures WellFormed(Table(t.vars, children[k])) && Possibilities(children[k]) >= 1
    {
      assert children[k] == MakeGuess(t.entries, v, k);
      PossibilitiesPositive(children[k]);
    }
    MeasureOfChildren(t.vars, children);
    PossibilitiesPositive(t.entries);
  }

  /* ---------- what `simplify_table`, `simplify` and `solve` compute ---------- */

  /** The flagged pairs name existing entries, in ascending order. */
  lemma FlaggedInRange<Var, V>(t: Table<Var, V>, cs: seq<DynConstraint<Var, V>>)
    requires |t.vars| <= |t.entries|
    ensures Ascending(Flagged(t, cs)) && InRange(t.entries, Flagged(t, cs))
  {
    var del := Flagged(t, cs);
    forall i | 0 <= i < |del|
      ensures del[i].0 < |t.entries| && del[i].1 < |t.entries[del[i].0]|
    {
      assert del[i] in del;
    }
  }

  /**
   * What `simplify_table` makes of a table: flag every value some constraint rules out, delete
   * the flagged values last first, and start over, until a pass flags nothing (`false`) or a
   * deletion empties a domain (`true`, with the table as that deletion left it).
   */
  ghost function Simplified<Var, V>(t: Table<Var, V>, cs: seq<DynConstraint<Var, V>>): (bool, Table<Var, V>)
    requires WellFormed(t)
    decreases Size(t.entries)
  {
    var del := Flagged(t, cs);
    if del == [] then (false, t)
    else
      FlaggedInRange(t, cs);
      RemoveRunFromStart(t.entries, del);
      var (emptied, entries) := RemoveRun(t.entries, del, |del|);
      if emptied then (true, Table(t.vars, entries))
      else Simplified(Table(t.vars, entries), cs)
  }

  /**
   * Simplifying only takes values away; it reports `true` exactly when it leaves an empty
   * domain, and otherwise no constraint rules out any value that is left.
   */
  lemma {:induction false} SimplifiedFacts<Var, V>(t: Table<Var, V>, cs: seq<DynConstraint<Var, V>>)
    requires WellFormed(t)
    ensures var (emptied, r) := Simplified(t, cs);
      && r.vars == t.vars && Shrunk(r.entries, t.entries)
      && (emptied <==> !AllNonEmpty(r.entries))
      && (!emptied ==> WellFormed(r) && Stable(r, cs))
    decreases Size(t.entries)
  {
    var del := Flagged(t, cs);
    if del != [] {
      FlaggedInRange(t, cs);
      RemoveRunFromStart(t.entries, del);
      var (emptied, entries) := RemoveRun(t.entries, del, |del|);
      if !emptied {
        var next := Table(t.vars, entries);
        SimplifiedFacts(next, cs);
        ShrunkTransitive(Simplified(next, cs).1.entries, entries, t.entries);
      }
    }
  }

  /** Simplifying a table never raises its weight. */
  lemma SimplifiedWeighs<Var, V>(t: Table<Var, V>, cs: seq<DynConstraint<Var, V>>)
    requires WellFormed(t)
    ensures Weight(Simplified(t, cs).1) <= Weight(t)
  {
    SimplifiedFacts(t, cs);
    ShrunkWeighsLess(t, Simplified(t, cs).1);
  }

  lemma AllValidTail<Var, V>(ts: seq<Table<Var, V>>)
    requires ts != [] && AllValid(ts)
    ensures WellFormed(ts[0]) && AllValid(ts[1..])
  {
    assert forall i :: 0 <= i < |ts| - 1 ==> ts[1..][i] == ts[i + 1];
  }

  /** The first loop of `simplify`: every table simplified, in order, the emptied ones dropped. */
  ghost function SimplifyEach<Var, V>(ts: seq<Table<Var, V>>, cs: seq<DynConstraint<Var, V>>): (r: seq<Table<Var, V>>)
    requires AllValid(ts)
    ensures AllValid(r)
  {
    if ts == [] then []
    else
      AllValidTail(ts);
      SimplifiedFacts(ts[0], cs);
      var rest := SimplifyEach(ts[1..], cs);
      var (emptied, t) := Simplified(ts[0], cs);
      if emptied then rest
      else
        ConsValid(t, rest);
        [t] + rest
  }

  /** The tables the second loop of `simplify` leaves: the unsolved ones, in order. */
  ghost function Unsolved<Var, V>(ts: seq<Table<Var, V>>): seq<Table<Var, V>> {
    if ts == [] then [] else (if Solved(ts[0].entries) then [] else [ts[0]]) + Unsolved(ts[1..])
  }

  /** The solutions the second loop of `simplify` adds: one per solved table, the last table first. */
  ghost function SolvedRev<Var, V>(ts: seq<Table<Var, V>>): seq<Solution<Var, V>>
    requires AllValid(ts)
  {
    if ts == [] then []
    else
      AllValidTail(ts);
      SolvedRev(ts[1..]) + if Solved(ts[0].entries) then [IntoSolution(ts[0])] else []
  }

  /** A table in front of a list weighs its own weight more. */
  lemma MeasureCons<Var, V>(t: Table<Var, V>, ts: seq<Table<Var, V>>)
    ensures Measure([t] + ts) == Weight(t) + Measure(ts)
  {
    MeasureConcat([t], ts);
    MeasureSingle(t);
  }

  lemma ConsValid<Var, V>(t: Table<Var, V>, ts: seq<Table<Var, V>>)
    ensures AllValid([t] + ts) <==> WellFormed(t) && AllValid(ts)
  {
    var l := [t] + ts;
    assert l[0] == t;
    assert forall i :: 0 <= i < |ts| ==> l[i + 1] == ts[i];
    assert forall i :: 0 < i < |l| ==> l[i] == ts[i - 1];
  }

  lemma ConsStable<Var, V>(t: Table<Var, V>, ts: seq<Table<Var, V>>, cs: seq<DynConstraint<Var, V>>)
    ensures AllStable([t] + ts, cs) <==> Stable(t, cs) && AllStable(ts, cs)
  {
    var l := [t] + ts;
    assert l[0] == t;
    assert forall i :: 0 <= i < |ts| ==> l[i + 1] == ts[i];
    assert forall i :: 0 < i < |l| ==> l[i] == ts[i - 1];
  }

  lemma ConsUnsolved<Var, V>(t: Table<Var, V>, ts: seq<Table<Var, V>>)
    ensures NoneSolved([t] + ts) <==> !Solved(t.entries) && NoneSolved(ts)
  {
    var l := [t] + ts;
    assert l[0] == t;
    assert forall i :: 0 <= i < |ts| ==> l[i + 1] == ts[i];
    assert forall i :: 0 < i < |l| ==> l[i] == ts[i - 1];
  }

  /** No constraint rules out a value of a table the first loop of `simplify` keeps. */
  lemma {:induction false} SimplifyEachStable<Var, V>(ts: seq<Table<Var, V>>, cs: seq<DynConstraint<Var, V>>)
    requires AllValid(ts)
    ensures AllStable(SimplifyEach(ts, cs), cs)
    decreases |ts|
  {
    if ts != [] {
      AllValidTail(ts);
      var rest := SimplifyEach(ts[1..], cs);
      SimplifyEachStable(ts[1..], cs);
      SimplifiedFacts(ts[0], cs);
      var (emptied, t) := Simplified(ts[0], cs);
      if !emptied {
        ConsStable(t, rest, cs);
      }
    }
  }

  /** The tables the first loop of `simplify` keeps weigh no more than the tables it was given. */
  lemma {:induction false} SimplifyEachWeighs<Var, V>(ts: seq<Table<Var, V>>, cs: seq<DynConstraint<Var, V>>)
    requires AllValid(ts)
    ensures Measure(SimplifyEach(ts, cs)) <= Measure(ts)
    decreases |ts|
  {
    if ts != [] {
      AllValidTail(ts);
      var rest := SimplifyEach(ts[1..], cs);
      SimplifyEachWeighs(ts[1..], cs);
      assert ts == [ts[0]] + ts[1..];
      MeasureCons(ts[0], ts[1..]);
      var (emptied, r) := Simplified(ts[0], cs);
      if emptied {
        assert SimplifyEach(ts, cs) == rest;
      } else {
        assert SimplifyEach(ts, cs) == [r] + rest;
        SimplifiedWeighs(ts[0], cs);
        MeasureCons(r, rest);
      }
    }
  }

  lemma SimplifyEachFacts<Var, V>(ts: seq<Table<Var, V>>, cs: seq<DynConstraint<Var, V>>)
    requires AllValid(ts)
    ensures AllStable(SimplifyEach(ts, cs), cs)
    ensures Measure(SimplifyEach(ts, cs)) <= Measure(ts)
  {
    SimplifyEachStable(ts, cs);
    SimplifyEachWeighs(ts, cs);
  }

  /** The tables the second loop of `simplify` leaves are well formed and unsolved. */
  lemma {:induction false} UnsolvedValid<Var, V>(ts: seq<Table<Var, V>>)
    requires AllValid(ts)
    ensures AllValid(Unsolved(ts)) && NoneSolved(Unsolved(ts))
    decreases |ts|
  {
    if ts != [] {
      AllValidTail(ts);
      UnsolvedValid(ts[1..]);
      if !Solved(ts[0].entries) {
        assert Unsolved(ts) == [ts[0]] + Unsolved(ts[1..]);
        ConsValid(ts[0], Unsolved(ts[1..]));
        ConsUnsolved(ts[0], Unsolved(ts[1..]));
      }
    }
  }

  /** The tables the second loop of `simplify` leaves are stable when the tables it was given were. */
  lemma {:induction false} UnsolvedStable<Var, V>(ts: seq<Table<Var, V>>, cs: seq<DynConstraint<Var, V>>)
    requires AllStable(ts, cs)
    ensures AllStable(Unsolved(ts), cs)
    decreases |ts|
  {
    if ts != [] {
      assert ts == [ts[0]] + ts[1..];
      ConsStable(ts[0], ts[1..], cs);
      UnsolvedStable(ts[1..], cs);
      if !Solved(ts[0].entries) {
        assert Unsolved(ts) == [ts[0]] + Unsolved(ts[1..]);
        ConsStable(ts[0], Unsolved(ts[1..]), cs);
      }
    }
  }

  /** The tables the second loop of `simplify` leaves weigh no more than the tables it was given. */
  lemma {:induction false} UnsolvedWeighs<Var, V>(ts: seq<Table<Var, V>>)
    ensures Measure(Unsolved(ts)) <= Measure(ts)
    decreases |ts|
  {
    if ts != [] {
      assert ts == [ts[0]] + ts[1..];
      MeasureCons(ts[0], ts[1..]);
      UnsolvedWeighs(ts[1..]);
      if Solved(ts[0].entries) {
        assert Unsolved(ts) == Unsolved(ts[1..]);
      } else {
        assert Unsolved(ts) == [ts[0]] + Unsolved(ts[1..]);
        MeasureCons(ts[0], Unsolved(ts[1..]));
      }
    }
  }

  lemma UnsolvedFacts<Var, V>(ts: seq<Table<Var, V>>, cs: seq<DynConstraint<Var, V>>)
    requires AllValid(ts)
    ensures AllValid(Unsolved(ts)) && NoneSolved(Unsolved(ts))
    ensures AllStable(ts, cs) ==> AllStable(Unsolved(ts), cs)
    ensures Measure(Unsolved(ts)) <= Measure(ts)
  {
    UnsolvedValid(ts);
    if AllStable(ts, cs) {
      UnsolvedStable(ts, cs);
    }
    UnsolvedWeighs(ts);
  }

  /** The solutions the second loop of `simplify` adds are accepted, when the tables were stable. */
  lemma {:induction false} SolvedRevAccepted<Var, V>(ts: seq<Table<Var, V>>, cs: seq<DynConstraint<Var, V>>)
    requires AllValid(ts) && AllStable(ts, cs)
    ensures AllAccepted(SolvedRev(ts), cs)
    decreases |ts|
  {
    if ts != [] {
      AllValidTail(ts);
      assert forall i :: 0 <= i < |ts| - 1 ==> ts[1..][i] == ts[i + 1];
      SolvedRevAccepted(ts[1..], cs);
      if Solved(ts[0].entries) {
        SolutionAccepted(ts[0], cs);
        AcceptedConcat(SolvedRev(ts[1..]), [IntoSolution(ts[0])], cs);
      }
    }
  }

  /**
   * What `solve` finds once `simplify` has run: while a table is left, the last one is split on
   * its smallest open domain, the list simplified again, and the solutions it yields collected.
   */
  ghost function Search<Var, V>(ts: seq<Table<Var, V>>, cs: seq<DynConstraint<Var, V>>): seq<Solution<Var, V>>
    requires AllValid(ts) && NoneSolved(ts)
    decreases Measure(ts)
  {
    if ts == [] then []
    else
      Popped(ts);
      var simp := SimplifyEach(Branched(ts), cs);
      SimplifyEachWeighs(Branched(ts), cs);
      UnsolvedValid(simp);
      UnsolvedWeighs(simp);
      SolvedRev(simp) + Search(Unsolved(simp), cs)
  }

  /** What `solve` returns for a list of tables: `simplify`, then the search on what is left. */
  ghost function Solutions<Var, V>(ts: seq<Table<Var, V>>, cs: seq<DynConstraint<Var, V>>): seq<Solution<Var, V>>
    requires AllValid(ts)
  {
    var simp := SimplifyEach(ts, cs);
    UnsolvedValid(simp);
    SolvedRev(simp) + Search(Unsolved(simp), cs)
  }

  /** The search from a non-empty list, one round unfolded, after solutions `found` so far. */
  lemma SearchUnfold<Var, V>(found: seq<Solution<Var, V>>, ts: seq<Table<Var, V>>, cs: seq<DynConstraint<Var, V>>)
    requires ts != [] && AllValid(ts) && NoneSolved(ts)
    ensures AllValid(Branched(ts))
    ensures var simp := SimplifyEach(Branched(ts), cs);
      AllValid(Unsolved(simp)) && NoneSolved(Unsolved(simp))
      && found + Search(ts, cs) == (found + SolvedRev(simp)) + Search(Unsolved(simp), cs)
  {
    Popped(ts);
    var simp := SimplifyEach(Branched(ts), cs);
    UnsolvedValid(simp);
    assert Search(ts, cs) == SolvedRev(simp) + Search(Unsolved(simp), cs);
    ConcatAssoc(found, SolvedRev(simp), Search(Unsolved(simp), cs));
  }

  lemma ConcatAssoc<T>(a: seq<T>, b: seq<T>, c: seq<T>)
    ensures a + (b + c) == (a + b) + c
  {
  }

  /** What `solve` returns, `simplify` unfolded, after solutions `found` so far. */
  lemma SolutionsUnfold<Var, V>(found: seq<Solution<Var, V>>, ts: seq<Table<Var, V>>, cs: seq<DynConstraint<Var, V>>)
    requires AllValid(ts)
    ensures var simp := SimplifyEach(ts, cs);
      AllValid(Unsolved(simp)) && NoneSolved(Unsolved(simp))
      && found + Solutions(ts, cs) == (found + SolvedRev(simp)) + Search(Unsolved(simp), cs)
  {
    var simp := SimplifyEach(ts, cs);
    UnsolvedValid(simp);
    ConcatAssoc(found, SolvedRev(simp), Search(Unsolved(simp), cs));
  }

  /** Once no table is left, the solutions gathered are what `solve` returns, all of them accepted. */
  lemma SearchDone<Var, V>(base: seq<Solution<Var, V>>, sols: seq<Solution<Var, V>>, ts: seq<Table<Var, V>>,
                           cs: seq<DynConstraint<Var, V>>)
    requires AllValid(ts) && sols + Search([], cs) == base + Solutions(ts, cs)
    ensures sols == base + Solutions(ts, cs)
    ensures base <= sols && AllAccepted(sols[|base|..], cs)
  {
    assert sols + Search([], cs) == sols;
    SolutionsAccepted(ts, cs);
    assert sols[|base|..] == Solutions(ts, cs);
  }

  /** Every solution the search finds is accepted by every constraint. */
  lemma {:induction false} SearchAccepted<Var, V>(ts: seq<Table<Var, V>>, cs: seq<DynConstraint<Var, V>>)
    requires AllValid(ts) && NoneSolved(ts)
    ensures AllAccepted(Search(ts, cs), cs)
    decreases Measure(ts)
  {
    if ts != [] {
      Popped(ts);
      var simp := SimplifyEach(Branched(ts), cs);
      SimplifyEachFacts(Branched(ts), cs);
      UnsolvedFacts(simp, cs);
      SolvedRevAccepted(simp, cs);
      SearchAccepted(Unsolved(simp), cs);
      AcceptedConcat(SolvedRev(simp), Search(Unsolved(simp), cs), cs);
    }
  }

  /** Every solution `solve` returns is accepted by every constraint. */
  lemma SolutionsAccepted<Var, V>(ts: seq<Table<Var, V>>, cs: seq<DynConstraint<Var, V>>)
    requires AllValid(ts)
    ensures AllAccepted(Solutions(ts, cs), cs)
  {
    var simp := SimplifyEach(ts, cs);
    SimplifyEachFacts(ts, cs);
    UnsolvedFacts(simp, cs);
    SolvedRevAccepted(simp, cs);
    SearchAccepted(Unsolved(simp), cs);
    AcceptedConcat(SolvedRev(simp), Search(Unsolved(simp), cs), cs);
  }

  lemma AcceptedConcat<Var, V>(a: seq<Solution<Var, V>>, b: seq<Solution<Var, V>>, cs: seq<DynConstraint<Var, V>>)
    requires AllAccepted(a, cs) && AllAccepted(b, cs)
    ensures AllAccepted(a + b, cs)
  {
    forall k | 0 <= k < |a + b|
      ensures Accepted((a + b)[k], cs)
    {
      if k >= |a| {
        assert (a + b)[k] == b[k - |a|];
      }
    }
  }

  /* ---------- the solver ---------- */

  class GuessingSolver<Var(==), V> {
    var tables: seq<Table<Var, V>>
    var solutions: seq<Solution<Var, V>>
    var constraints: seq<DynConstraint<Var, V>>

    /** Every table to explore has a variable per column and no empty column. */
    ghost predicate Valid()
      reads this
    {
      AllValid(tables)
    }

    /** `GuessingSolver::new`: one table without variables, no solutions, no constraints. */
    constructor ()
      ensures tables == [Table([], [])] && solutions == [] && constraints == []
      ensures Valid()
    {
      tables := [Table([], [])];
      solutions := [];
      constraints := [];
    }

    /** `var`: only before solving starts, i.e. while there is exactly one table. */
    method Var(x: Var, values: seq<V>)
      requires |tables| == 1 && values != []
      modifies this
      ensures tables == [AddColumn(old(tables[0]), x, values)]
      ensures solutions == old(solutions) && constraints == old(constraints)
      ensures old(Valid()) ==> Valid()
    {
      tables := [AddColumn(tables[0], x, values)];
    }

    /** `constraint`: registers one more constraint over `params`. */
    method Constraint<S>(params: seq<Var>, c: Algebra.Constraint<V, S>)
      modifies this
      ensures constraints == old(constraints) + [NewDynConstraint(params, c)]
      ensures tables == old(tables) && solutions == old(solutions)
    {
      constraints := constraints + [NewDynConstraint(params, c)];
    }

    /** Whether some constraint says `No` with variable `v` fixed to its value number `e`. */
    method Rejects(t: Table<Var, V>, v: nat, e: nat) returns (found: bool)
      ensures found == AnyNo(constraints, t, Some((v, e)))
    {
      found := false;
      var k := 0;
      while k < |constraints| && !found
        invariant 0 <= k <= |constraints|
        invariant !found ==> forall j :: 0 <= j < k ==> constraints[j].eval(t, Some((v, e))) != No
        invariant found ==> AnyNo(constraints, t, Some((v, e)))
      {
        if constraints[k].eval(t, Some((v, e))) == No {
          found := true;
        }
        k := k + 1;
      }
    }

    /** The flagging half of one pass of `simplify_table`, on the table as it stands. */
    method FlagPass(t: Table<Var, V>) returns (del: seq<(nat, nat)>)
      requires |t.vars| <= |t.entries|
      ensures del == Flagged(t, constraints)
    {
      del := [];
      for v := 0 to |t.vars|
        invariant del == FlagsUpTo(t, constraints, v)
      {
        for e := 0 to |t.entries[v]|
          invariant del == FlagsUpTo(t, constraints, v) + FlagsOf(t, constraints, v, e)
        {
          var found := Rejects(t, v, e);
          if found {
            del := del + [(v, e)];
          }
        }
      }
    }

    /**
     * The passes of `simplify_table` on one table: flag against the table as it stands, delete
     * what was flagged, and repeat until a pass flags nothing (then `false`) or a deletion empties
     * a domain (then `true`). Values only ever go away.
     */
    method SimplifyPasses(t: Table<Var, V>) returns (emptied: bool, r: Table<Var, V>)
      requires WellFormed(t)
      ensures (emptied, r) == Simplified(t, constraints)
      ensures r.vars == t.vars && Shrunk(r.entries, t.entries)
      ensures emptied <==> !AllNonEmpty(r.entries)
      ensures !emptied ==> Stable(r, constraints)
    {
      SimplifiedFacts(t, constraints);
      r := t;
      while true
        invariant WellFormed(r) && Simplified(r, constraints) == Simplified(t, constraints)
        decreases Size(r.entries)
      {
        var del := FlagPass(r);
        if del == [] {
          return false, r;
        }
        FlaggedInRange(r, constraints);
        var entries;
        emptied, entries := RemoveFlagged(r.entries, del);
        r := Table(r.vars, entries);
        if emptied {
          return;
        }
      }
    }

    /** `simplify_table`: simplifies table `ti` in place; `true` when a domain became empty. */
    method SimplifyTable(ti: nat) returns (emptied: bool)
      requires ti < |tables| && WellFormed(tables[ti])
      modifies this
      ensures solutions == old(solutions) && constraints == old(constraints)
      ensures |tables| == |old(tables)| && tables == old(tables)[ti := tables[ti]]
      ensures (emptied, tables[ti]) == Simplified(old(tables[ti]), constraints)
      ensures tables[ti].vars == old(tables[ti].vars) && Shrunk(tables[ti].entries, old(tables[ti].entries))
      ensures emptied <==> !AllNonEmpty(tables[ti].entries)
      ensures !emptied ==> Stable(tables[ti], constraints)
    {
      var r;
      emptied, r := SimplifyPasses(tables[ti]);
      tables := tables[ti := r];
    }

    /**
     * `possibilities`: the total number of assignments over all tables still to explore, as an
     * exact integer.
     */
    method Possibilities() returns (count: nat)
      ensures count == TotalPossibilities(tables)
    {
      count := 0;
      for i := 0 to |tables|
        invariant count == TotalPossibilities(tables[..i])
      {
        var entries := tables[i].entries;
        var product := 1;
        for j := 0 to |entries|
          invariant product == Domains.Possibilities(entries[..j])
        {
          assert entries[..j + 1][..j] == entries[..j];
          product := product * |entries[j]|;
        }
        assert entries[..|entries|] == entries;
        assert tables[..i + 1][..i] == tables[..i];
        count := count + product;
      }
      assert tables[..|tables|] == tables;
    }

    /**
     * `simplify`: simplify every table, last first, dropping those that emptied a domain; then
     * move every solved table, last first, to the solutions.
     */
    method Simplify()
      requires Valid()
      modifies this
      ensures constraints == old(constraints)
      ensures tables == Unsolved(SimplifyEach(old(tables), constraints))
      ensures solutions == old(solutions) + SolvedRev(SimplifyEach(old(tables), constraints))
      ensures Valid() && NoneSolved(tables) && AllStable(tables, constraints)
      ensures AllAccepted(solutions[|old(solutions)|..], constraints)
      ensures Measure(tables) <= Measure(old(tables))
    {
      SimplifyAll();
      MoveSolved();
    }

    /** The first loop of `simplify`: every table simplified in place, emptied ones dropped. */
    method SimplifyAll()
      requires Valid()
      modifies this
      ensures constraints == old(constraints) && solutions == old(solutions)
      ensures tables == SimplifyEach(old(tables), constraints)
      ensures Valid() && AllStable(tables, constraints)
      ensures Measure(tables) <= Measure(old(tables))
    {
      ghost var o := tables;
      var i := |tables|;
      assert o[i..] == [];
      while i > 0
        invariant 0 <= i <= |o| && AllValid(o[i..])
        invariant constraints == old(constraints) && solutions == old(solutions)
        invariant tables == o[..i] + SimplifyEach(o[i..], constraints)
      {
        i := i - 1;
        ghost var before := tables;
        AllValidFrom(o, i + 1);
        assert tables[i] == o[i];
        var emptied := SimplifyTable(i);
        SimplifyEachStep(o, i, before, tables[i], emptied, constraints);
        if emptied {
          tables := tables[..i] + tables[i + 1..];
        }
      }
      assert o[0..] == o;
      SimplifyEachFacts(o, constraints);
    }

    /** The second loop of `simplify`: solved tables move to the solutions, the last one first. */
    method MoveSolved()
      requires Valid() && AllStable(tables, constraints)
      modifies this
      ensures constraints == old(constraints)
      ensures tables == Unsolved(old(tables))
      ensures solutions == old(solutions) + SolvedRev(old(tables))
      ensures Valid() && NoneSolved(tables) && AllStable(tables, constraints)
      ensures AllAccepted(solutions[|old(solutions)|..], constraints)
      ensures Measure(tables) <= Measure(old(tables))
    {
      ghost var o, base := tables, solutions;
      var i := |tables|;
      assert o[i..] == [];
      while i > 0
        invariant 0 <= i <= |o| && AllValid(o[i..])
        invariant constraints == old(constraints)
        invariant tables == o[..i] + Unsolved(o[i..])
        invariant solutions == base + SolvedRev(o[i..])
      {
        i := i - 1;
        ghost var before := tables;
        MoveSolvedStep(o, i, before);
        if Solved(tables[i].entries) {
          var t := tables[i];
          tables := tables[..i] + tables[i + 1..];
          solutions := solutions + [IntoSolution(t)];
        }
      }
      assert o[0..] == o;
      MoveSolvedEnd(o, base, constraints);
    }

    /**
     * `solve`: simplify, then split the last table and simplify again, until no table is
     * left; hand over the solutions found and keep none. Splitting is on the smallest open
     * domain, so each round lowers the measure.
     */
    method Solve() returns (found: seq<Solution<Var, V>>)
      requires Valid()
      modifies this
      ensures tables == [] && solutions == [] && constraints == old(constraints)
      ensures found == old(solutions) + Solutions(old(tables), constraints)
      ensures old(solutions) <= found && AllAccepted(found[|old(solutions)|..], constraints)
    {
      ghost var start, base, cs := tables, solutions, constraints;
      Simplify();
      SolutionsUnfold(base, start, cs);
      while tables != []
        invariant constraints == cs && Valid() && NoneSolved(tables)
        invariant solutions + Search(tables, cs) == base + Solutions(start, cs)
        decreases Measure(tables)
      {
        var t := tables[|tables| - 1];
        var rest := tables[..|tables| - 1];
        ghost var before, mid := tables, solutions;
        Popped(tables);
        tables := rest + ChildTables(t.vars, GuessesCorrected(t.entries));
        assert tables == Branched(before);
        Simplify();
        SearchUnfold(mid, before, constraints);
      }
      SearchDone(base, solutions, start, cs);
      found := solutions;
      solutions := [];
    }
  }

  /* ---------- facts about the list of tables ---------- */

  ghost predicate AllValid<Var, V>(ts: seq<Table<Var, V>>) {
    forall i :: 0 <= i < |ts| ==> WellFormed(ts[i])
  }

  ghost predicate AllStable<Var, V>(ts: seq<Table<Var, V>>, cs: seq<DynConstraint<Var, V>>) {
    forall i :: 0 <= i < |ts| ==> Stable(ts[i], cs)
  }

  ghost predicate NoneSolved<Var, V>(ts: seq<Table<Var, V>>) {
    forall i :: 0 <= i < |ts| ==> !Solved(ts[i].entries)
  }

  ghost predicate AllAccepted<Var, V>(sols: seq<Solution<Var, V>>, cs: seq<DynConstraint<Var, V>>) {
    forall k :: 0 <= k < |sols| ==> Accepted(sols[k], cs)
  }

  /** A list split at `i` into what comes before, table `i`, and what comes after. */
  lemma Around<T>(o: seq<T>, i: nat)
    requires i < |o|
    ensures o[i..] == [o[i]] + o[i + 1..] && o[..i + 1] == o[..i] + [o[i]]
  {
  }

  /** What `SimplifyEach` makes of a list with a table in front of it. */
  lemma SimplifyEachCons<Var, V>(t: Table<Var, V>, ts: seq<Table<Var, V>>, cs: seq<DynConstraint<Var, V>>)
    requires WellFormed(t) && AllValid(ts)
    ensures AllValid([t] + ts)
    ensures var (emptied, r) := Simplified(t, cs);
      SimplifyEach([t] + ts, cs) == if emptied then SimplifyEach(ts, cs) else [r] + SimplifyEach(ts, cs)
  {
    ConsValid(t, ts);
    assert ([t] + ts)[0] == t && ([t] + ts)[1..] == ts;
  }

  /** One step of the first loop of `simplify`: table `i` simplified, dropped if it emptied. */
  lemma SimplifyEachStep<Var, V>(o: seq<Table<Var, V>>, i: nat, before: seq<Table<Var, V>>, t: Table<Var, V>,
                                 emptied: bool, cs: seq<DynConstraint<Var, V>>)
    requires i < |o| && AllValid(o[i + 1..]) && WellFormed(o[i])
    requires before == o[..i + 1] + SimplifyEach(o[i + 1..], cs)
    requires (emptied, t) == Simplified(o[i], cs)
    ensures AllValid(o[i..])
    ensures var now := before[i := t];
      (if emptied then now[..i] + now[i + 1..] else now) == o[..i] + SimplifyEach(o[i..], cs)
  {
    Around(o, i);
    SimplifyEachCons(o[i], o[i + 1..], cs);
    DropOrReplace(o[..i], o[i], t, SimplifyEach(o[i + 1..], cs), emptied);
  }

  /** Dropping or replacing the element after a prefix. */
  lemma DropOrReplace<T>(p: seq<T>, x: T, y: T, rest: seq<T>, drop: bool)
    ensures var now := (p + [x] + rest)[|p| := y];
      (if drop then now[..|p|] + now[|p| + 1..] else now) == p + if drop then rest else [y] + rest
  {
    var now := (p + [x] + rest)[|p| := y];
    assert now[..|p|] == p && now[|p| + 1..] == rest;
  }

  /** One step of the second loop of `simplify`: table `i` moves to the solutions if solved. */
  lemma MoveSolvedStep<Var, V>(o: seq<Table<Var, V>>, i: nat, before: seq<Table<Var, V>>)
    requires i < |o| && AllValid(o)
    requires before == o[..i + 1] + Unsolved(o[i + 1..])
    ensures AllValid(o[i + 1..]) && AllValid(o[i..]) && before[i] == o[i]
    ensures Solved(o[i].entries) ==> before[..i] + before[i + 1..] == o[..i] + Unsolved(o[i..])
    ensures !Solved(o[i].entries) ==> before == o[..i] + Unsolved(o[i..])
    ensures SolvedRev(o[i..]) == SolvedRev(o[i + 1..]) + if Solved(o[i].entries) then [IntoSolution(o[i])] else []
  {
    AllValidFrom(o, i);
    AllValidFrom(o, i + 1);
    var tail := o[i..];
    assert tail[0] == o[i] && tail[1..] == o[i + 1..];
    assert o[..i + 1] == o[..i] + [o[i]];
    DropOrReplace(o[..i], o[i], o[i], Unsolved(o[i + 1..]), Solved(o[i].entries));
  }

  lemma AllValidFrom<Var, V>(o: seq<Table<Var, V>>, i: nat)
    requires i <= |o| && AllValid(o)
    ensures AllValid(o[i..])
  {
    assert forall k :: 0 <= k < |o| - i ==> o[i..][k] == o[i + k];
  }

  /** What the second loop of `simplify` leaves, once it has gone through every table. */
  lemma MoveSolvedEnd<Var, V>(o: seq<Table<Var, V>>, base: seq<Solution<Var, V>>, cs: seq<DynConstraint<Var, V>>)
    requires AllValid(o) && AllStable(o, cs)
    ensures AllValid(Unsolved(o)) && NoneSolved(Unsolved(o)) && AllStable(Unsolved(o), cs)
    ensures AllAccepted((base + SolvedRev(o))[|base|..], cs)
    ensures Measure(Unsolved(o)) <= Measure(o)
  {
    UnsolvedFacts(o, cs);
    SolvedRevAccepted(o, cs);
    assert (base + SolvedRev(o))[|base|..] == SolvedRev(o);
  }

  /** A solved table that no constraint rules out gives an accepted solution. */
  lemma SolutionAccepted<Var, V>(t: Table<Var, V>, cs: seq<DynConstraint<Var, V>>)
    requires WellFormed(t) && Solved(t.entries) && Stable(t, cs)
    ensures Accepted(IntoSolution(t), cs)
  {
    IntoSolutionRoundTrip(t);
  }

  /**
   * Replacing the last table by the tables its split yields keeps every table well formed and
   * lowers the measure.
   */
  lemma Popped<Var, V>(ts: seq<Table<Var, V>>)
    requires ts != [] && AllValid(ts) && NoneSolved(ts)
    ensures AllValid(Branched(ts)) && Measure(Branched(ts)) < Measure(ts)
  {
    var t := ts[|ts| - 1];
    var rest := ts[..|ts| - 1];
    var children := ChildTables(t.vars, GuessesCorrected(t.entries));
    assert WellFormed(t) && !Solved(t.entries);
    assert t.entries != [];
    SplitLowersMeasure(t);
    MeasureConcat(rest, children);
    MeasureConcat(rest, [t]);
    MeasureSingle(t);
    assert rest + [t] == ts;
  }

  /** The list with its last table replaced by the tables its split yields. */
  ghost function Branched<Var, V>(ts: seq<Table<Var, V>>): seq<Table<Var, V>>
    requires ts != [] && ts[|ts| - 1].entries != [] && !Solved(ts[|ts| - 1].entries)
  {
    var t := ts[|ts| - 1];
    ts[..|ts| - 1] + ChildTables(t.vars, GuessesCorrected(t.entries))
  }

  /** The total of `possibilities` over a list of tables. */
  function TotalPossibilities<Var, V>(tables: seq<Table<Var, V>>): nat {
    if tables == [] then 0
    else TotalPossibilities(tables[..|tables| - 1]) + Domains.Possibilities(tables[|tables| - 1].entries)
  }

  lemma ShrunkTransitive<V>(a: seq<seq<V>>, b: seq<seq<V>>, c: seq<seq<V>>)
    requires Shrunk(a, b) && Shrunk(b, c)
    ensures Shrunk(a, c)
  {
  }

  lemma ShrunkWeighsLess<Var, V>(big: Table<Var, V>, small: Table<Var, V>)
    requires Shrunk(small.entries, big.entries)
    ensures Weight(small) <= Weight(big)
  {
    forall w | 0 <= w < |small.entries|
      ensures |small.entries[w]| <= |big.entries[w]|
    {
      var a, b := multiset(small.entries[w]), multiset(big.entries[w]);
      assert b == a + (b - a);
    }
    PossibilitiesMonotone(small.entries, big.entries);
  }

}

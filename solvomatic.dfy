/**
 * The `Solvomatic` driver of `src/lib.rs`: a registry of type-erased constraints over a
 * partition table, the fixpoint loop that applies them until the table stops shrinking, the
 * latch that retires constraints that will always hold, and the step that tries every merge of
 * two partitions and keeps the cheapest.
 *
 * The partition table itself (`Table::apply_constraint`, `merge`, `cost`, ...) is not part of
 * this model: the driver sees it only through the operations recorded in `TableOps`.
 */
module Solvomatic {
  import opened Options
  import Algebra

  /** The operations of the partition table that the driver calls. */
  datatype TableOps<!T, !Var, !V> = TableOps(
    empty: T,
    addColumn: (T, Var, seq<V>) -> T,
    size: T -> nat,
    possibilities: T -> nat,
    numPartitions: T -> nat,
    cost: T -> nat,
    merge: (T, nat, nat) -> T,
    mergeConstants: T -> T)

  /** What applying a constraint leaves: the table as the constraint left it, and `Ok(complete)` or `Err`. */
  datatype Applied<T> = Applied(table: T, result: Result<bool, ()>)

  /** A registered constraint: its name, its parameters, how to apply it, and whether it is retired. */
  datatype DynConstraint<!T, !Var> = DynConstraint(name: string, params: seq<Var>, apply: T -> Applied<T>, done: bool)

  /** The table as the failing constraint left it, and that constraint's parameters and name. */
  datatype Unsatisfiable<T, Var> = Unsatisfiable(table: T, header: seq<Var>, constraint: string)

  /* ---------- `apply_constraints` ---------- */

  /** One pass over the constraints, in order, skipping the retired ones; stops at the first failure. */
  function Pass<T, Var>(cs: seq<DynConstraint<T, Var>>, t: T): Result<T, Unsatisfiable<T, Var>> {
    if cs == [] then Ok(t)
    else if cs[0].done then Pass(cs[1..], t)
    else
      var a := cs[0].apply(t);
      if a.result.Err? then Err(Unsatisfiable(a.table, cs[0].params, cs[0].name))
      else Pass(cs[1..], a.table)
  }

  /** Passes are made while the previous one lowered the size below `lastSize`. */
  function Fixpoint<T, Var>(size: T -> nat, cs: seq<DynConstraint<T, Var>>, t: T, lastSize: nat): Result<T, Unsatisfiable<T, Var>>
    decreases lastSize
  {
    if size(t) < lastSize then
      match Pass(cs, t)
      case Err(u) => Err(u)
      case Ok(next) => Fixpoint(size, cs, next, size(t))
    else Ok(t)
  }

  /** What `apply_constraints` returns for table `t`: a first pass is always made. */
  function ApplyAll<T, Var>(size: T -> nat, cs: seq<DynConstraint<T, Var>>, t: T): Result<T, Unsatisfiable<T, Var>> {
    Fixpoint(size, cs, t, size(t) + 1)
  }

  /** Continues a pass that has gone through a prefix of the constraints. */
  function Then<T, Var>(r: Result<T, Unsatisfiable<T, Var>>, rest: seq<DynConstraint<T, Var>>): Result<T, Unsatisfiable<T, Var>> {
    match r
    case Err(u) => Err(u)
    case Ok(t) => Pass(rest, t)
  }

  /** A pass over `cs` is a pass over its first `k` constraints followed by a pass over the rest. */
  lemma {:induction false} PassSplit<T, Var>(cs: seq<DynConstraint<T, Var>>, t: T, k: nat)
    requires k <= |cs|
    ensures Pass(cs, t) == Then(Pass(cs[..k], t), cs[k..])
    decreases k
  {
    if k == 0 {
      assert cs[..0] == [] && cs[0..] == cs;
    } else {
      assert cs[1..][..k - 1] == cs[..k][1..];
      assert cs[1..][k - 1..] == cs[k..];
      if cs[0].done {
        PassSplit(cs[1..], t, k - 1);
      } else if cs[0].apply(t).result.Ok? {
        PassSplit(cs[1..], cs[0].apply(t).table, k - 1);
      }
    }
  }

  /**
   * The failure a pass reports is that of the first active constraint whose application fails,
   * with the table as it left it and its own name and parameters.
   */
  lemma FirstFailure<T, Var>(cs: seq<DynConstraint<T, Var>>, t: T, k: nat, reached: T)
    requires k < |cs| && Pass(cs[..k], t) == Ok(reached)
    requires !cs[k].done && cs[k].apply(reached).result.Err?
    ensures Pass(cs, t) == Err(Unsatisfiable(cs[k].apply(reached).table, cs[k].params, cs[k].name))
  {
    PassSplit(cs, t, k);
    assert cs[k..][0] == cs[k];
  }

  /** A failed pass names one of the active constraints. */
  lemma {:induction false} PassFailureNamed<T, Var>(cs: seq<DynConstraint<T, Var>>, t: T) returns (k: nat)
    requires Pass(cs, t).Err?
    ensures k < |cs| && !cs[k].done
    ensures Pass(cs, t).error.constraint == cs[k].name && Pass(cs, t).error.header == cs[k].params
  {
    if cs[0].done || cs[0].apply(t).result.Ok? {
      var t' := if cs[0].done then t else cs[0].apply(t).table;
      var j := PassFailureNamed(cs[1..], t');
      k := j + 1;
    } else {
      k := 0;
    }
  }

  /** Retired constraints play no part: a pass over only the active ones gives the same result. */
  function Active<T, Var>(cs: seq<DynConstraint<T, Var>>): (r: seq<DynConstraint<T, Var>>)
    ensures forall k :: 0 <= k < |r| ==> !r[k].done
    ensures |r| <= |cs|
  {
    if cs == [] then [] else (if cs[0].done then [] else [cs[0]]) + Active(cs[1..])
  }

  lemma {:induction false} PassSkipsDone<T, Var>(cs: seq<DynConstraint<T, Var>>, t: T)
    ensures Pass(cs, t) == Pass(Active(cs), t)
    decreases |cs|
  {
    if cs != [] {
      var rest := Active(cs[1..]);
      if cs[0].done {
        assert Active(cs) == rest;
        PassSkipsDone(cs[1..], t);
      } else {
        assert Active(cs) == [cs[0]] + rest;
        assert Active(cs)[1..] == rest;
        if cs[0].apply(t).result.Ok? {
          PassSkipsDone(cs[1..], cs[0].apply(t).table);
        }
      }
    }
  }

  /** With every constraint retired, `apply_constraints` hands the table back unchanged. */
  lemma AllDoneChangesNothing<T, Var>(size: T -> nat, cs: seq<DynConstraint<T, Var>>, t: T)
    requires forall k :: 0 <= k < |cs| ==> cs[k].done
    ensures ApplyAll(size, cs, t) == Ok(t)
  {
    PassSkipsDone(cs, t);
    assert Active(cs) == [] by {
      if Active(cs) != [] {
        ActiveFromCs(cs, Active(cs)[0]);
      }
    }
    assert Pass(cs, t) == Ok(t);
    assert Fixpoint(size, cs, t, size(t)) == Ok(t);
  }

  /** Every constraint `Active` keeps comes from the list. */
  lemma {:induction false} ActiveFromCs<T, Var>(cs: seq<DynConstraint<T, Var>>, c: DynConstraint<T, Var>)
    requires c in Active(cs)
    ensures c in cs && !c.done
  {
    if cs != [] {
      if c != cs[0] || cs[0].done {
        ActiveFromCs(cs[1..], c);
      }
    }
  }

  /**
   * `apply_constraints` returns a table only once a pass has failed to lower the size: the result
   * is what a pass made of some table at least as small.
   */
  lemma {:induction false} FixpointStable<T, Var>(size: T -> nat, cs: seq<DynConstraint<T, Var>>, t: T, lastSize: nat)
    returns (before: T)
    requires size(t) < lastSize && Fixpoint(size, cs, t, lastSize).Ok?
    ensures Pass(cs, before) == Fixpoint(size, cs, t, lastSize)
    ensures size(Fixpoint(size, cs, t, lastSize).value) >= size(before)
    decreases lastSize
  {
    var next := Pass(cs, t).value;
    if size(next) < size(t) {
      before := FixpointStable(size, cs, next, size(t));
    } else {
      before := t;
    }
  }

  /** A failure of `apply_constraints` names one of the active constraints. */
  lemma {:induction false} FixpointFailureNamed<T, Var>(size: T -> nat, cs: seq<DynConstraint<T, Var>>, t: T, lastSize: nat)
    returns (k: nat)
    requires Fixpoint(size, cs, t, lastSize).Err?
    ensures k < |cs| && !cs[k].done
    ensures Fixpoint(size, cs, t, lastSize).error.constraint == cs[k].name
    ensures Fixpoint(size, cs, t, lastSize).error.header == cs[k].params
    decreases lastSize
  {
    if Pass(cs, t).Err? {
      k := PassFailureNamed(cs, t);
    } else {
      k := FixpointFailureNamed(size, cs, Pass(cs, t).value, size(t));
    }
  }

  /* ---------- partitions never grow ---------- */

  /** The number of partitions never grows under this application. */
  ghost predicate KeepsPartitions<T(!new), Var, V>(ops: TableOps<T, Var, V>, apply: T -> Applied<T>) {
    forall t: T :: ops.numPartitions(apply(t).table) <= ops.numPartitions(t)
  }

  ghost predicate AllKeepPartitions<T(!new), Var, V>(ops: TableOps<T, Var, V>, cs: seq<DynConstraint<T, Var>>) {
    forall k :: 0 <= k < |cs| ==> KeepsPartitions(ops, cs[k].apply)
  }

  /**
   * What the driver relies on for `solve` to end: merging constants never adds a partition and
   * merging two partitions removes at least one.
   */
  ghost predicate PartitionLaws<T(!new), Var, V>(ops: TableOps<T, Var, V>) {
    && (forall t: T :: ops.numPartitions(ops.mergeConstants(t)) <= ops.numPartitions(t))
    && (forall t: T, i: nat, j: nat :: i < j < ops.numPartitions(t) ==> ops.numPartitions(ops.merge(t, i, j)) < ops.numPartitions(t))
  }

  lemma {:induction false} PassKeepsPartitions<T(!new), Var, V>(ops: TableOps<T, Var, V>, cs: seq<DynConstraint<T, Var>>, t: T)
    requires AllKeepPartitions(ops, cs) && Pass(cs, t).Ok?
    ensures ops.numPartitions(Pass(cs, t).value) <= ops.numPartitions(t)
    decreases |cs|
  {
    if cs != [] {
      assert AllKeepPartitions(ops, cs[1..]) by {
        forall k | 0 <= k < |cs[1..]|
          ensures KeepsPartitions(ops, cs[1..][k].apply)
        {
          assert cs[1..][k] == cs[k + 1];
        }
      }
      assert KeepsPartitions(ops, cs[0].apply);
      var t' := if cs[0].done then t else cs[0].apply(t).table;
      PassKeepsPartitions(ops, cs[1..], t');
    }
  }

  lemma {:induction false} FixpointKeepsPartitions<T(!new), Var, V>(ops: TableOps<T, Var, V>, cs: seq<DynConstraint<T, Var>>, t: T, lastSize: nat)
    requires AllKeepPartitions(ops, cs) && Fixpoint(ops.size, cs, t, lastSize).Ok?
    ensures ops.numPartitions(Fixpoint(ops.size, cs, t, lastSize).value) <= ops.numPartitions(t)
    decreases lastSize
  {
    if ops.size(t) < lastSize {
      PassKeepsPartitions(ops, cs, t);
      FixpointKeepsPartitions(ops, cs, Pass(cs, t).value, ops.size(t));
    }
  }

  /* ---------- `mark_completed_constraints` ---------- */

  /** A constraint is retired once applying it to a copy of `t` reports it complete. */
  function MarkIfComplete<T, Var>(c: DynConstraint<T, Var>, t: T): DynConstraint<T, Var> {
    if !c.done && c.apply(t).result == Ok(true) then c.(done := true) else c
  }

  /** `done` flags only go from false to true; nothing else about a constraint changes. */
  ghost predicate Latched<T, Var>(before: seq<DynConstraint<T, Var>>, after: seq<DynConstraint<T, Var>>) {
    |after| == |before| &&
    forall k :: 0 <= k < |before| ==>
      after[k] == before[k].(done := after[k].done) && (before[k].done ==> after[k].done)
  }

  /** What `mark_completed_constraints` leaves in the registry. */
  function Completed<T, Var>(cs: seq<DynConstraint<T, Var>>, t: T): (r: seq<DynConstraint<T, Var>>)
    ensures Latched(cs, r)
    ensures forall k :: 0 <= k < |cs| ==> (r[k].done <==> cs[k].done || cs[k].apply(t).result == Ok(true))
  {
    seq(|cs|, k requires 0 <= k < |cs| => MarkIfComplete(cs[k], t))
  }

  lemma LatchedTransitive<T, Var>(a: seq<DynConstraint<T, Var>>, b: seq<DynConstraint<T, Var>>, c: seq<DynConstraint<T, Var>>)
    requires Latched(a, b) && Latched(b, c)
    ensures Latched(a, c)
  {
    forall k | 0 <= k < |a|
      ensures c[k] == a[k].(done := c[k].done)
    {
      assert b[k] == a[k].(done := b[k].done);
    }
  }

  /** Marking twice against the same table retires nothing more. */
  lemma CompletedIdempotent<T, Var>(cs: seq<DynConstraint<T, Var>>, t: T)
    ensures Completed(Completed(cs, t), t) == Completed(cs, t)
  {
    var once := Completed(cs, t);
    forall k | 0 <= k < |cs|
      ensures Completed(once, t)[k] == once[k]
    {
    }
  }

  /* ---------- the step combiner ---------- */

  /** The reduction of `step`: an error wins, the left one first; otherwise the cheaper table, the left one on a tie. */
  function Combine<T, Var>(cost: T -> nat, a: Result<T, Unsatisfiable<T, Var>>, b: Result<T, Unsatisfiable<T, Var>>): Result<T, Unsatisfiable<T, Var>> {
    match (a, b)
    case (Err(e), _) => Err(e)
    case (_, Err(e)) => Err(e)
    case (Ok(x), Ok(y)) => if cost(x) <= cost(y) then Ok(x) else Ok(y)
  }

  /** The grouping of the reduction does not matter, so a parallel reduction agrees with a sequential one. */
  lemma CombineAssociative<T, Var>(cost: T -> nat, a: Result<T, Unsatisfiable<T, Var>>, b: Result<T, Unsatisfiable<T, Var>>, c: Result<T, Unsatisfiable<T, Var>>)
    ensures Combine(cost, Combine(cost, a, b), c) == Combine(cost, a, Combine(cost, b, c))
  {
  }

  /** `reduce_with`, left to right: `None` on no candidates. */
  function Reduce<T, Var>(cost: T -> nat, rs: seq<Result<T, Unsatisfiable<T, Var>>>): (r: Option<Result<T, Unsatisfiable<T, Var>>>)
    ensures r.Some? <==> rs != []
  {
    if rs == [] then None
    else
      var init := Reduce(cost, rs[..|rs| - 1]);
      Some(if init.None? then rs[|rs| - 1] else Combine(cost, init.value, rs[|rs| - 1]))
  }

  /** With some candidate failing, the reduction is the first failure. */
  lemma {:induction false} ReduceFirstError<T, Var>(cost: T -> nat, rs: seq<Result<T, Unsatisfiable<T, Var>>>, k: nat)
    requires k < |rs| && rs[k].Err? && forall j :: 0 <= j < k ==> rs[j].Ok?
    ensures Reduce(cost, rs) == Some(rs[k])
    decreases |rs|
  {
    var n := |rs| - 1;
    if k < n {
      ReduceFirstError(cost, rs[..n], k);
    } else if k > 0 {
      var _ := ReduceAllOk(cost, rs[..n]);
    }
  }

  /** With every candidate a table, the reduction is the first of the cheapest. */
  lemma {:induction false} ReduceAllOk<T, Var>(cost: T -> nat, rs: seq<Result<T, Unsatisfiable<T, Var>>>) returns (m: nat)
    requires rs != [] && forall j :: 0 <= j < |rs| ==> rs[j].Ok?
    ensures m < |rs| && Reduce(cost, rs) == Some(rs[m])
    ensures forall j :: 0 <= j < |rs| ==> cost(rs[m].value) <= cost(rs[j].value)
    ensures forall j :: 0 <= j < m ==> cost(rs[j].value) > cost(rs[m].value)
    decreases |rs|
  {
    var n := |rs| - 1;
    if n == 0 {
      m := 0;
    } else {
      var m' := ReduceAllOk(cost, rs[..n]);
      if cost(rs[m'].value) <= cost(rs[n].value) {
        m := m';
      } else {
        m := n;
      }
    }
  }

  /** A reduction that yields a table saw no failure. */
  lemma ReduceOkMeansAllOk<T, Var>(cost: T -> nat, rs: seq<Result<T, Unsatisfiable<T, Var>>>)
    requires rs != [] && Reduce(cost, rs).value.Ok?
    ensures forall j :: 0 <= j < |rs| ==> rs[j].Ok?
  {
    if exists j :: 0 <= j < |rs| && rs[j].Err? {
      var k := FirstErr(rs);
      ReduceFirstError(cost, rs, k);
    }
  }

  /** The index of the first failure in a list that has one. */
  lemma {:induction false} FirstErr<T, Var>(rs: seq<Result<T, Unsatisfiable<T, Var>>>) returns (k: nat)
    requires exists j :: 0 <= j < |rs| && rs[j].Err?
    ensures k < |rs| && rs[k].Err? && forall j :: 0 <= j < k ==> rs[j].Ok?
    decreases |rs|
  {
    var n := |rs| - 1;
    assert forall j :: 0 <= j < n ==> rs[..n][j] == rs[j];
    if exists j :: 0 <= j < n && rs[j].Err? {
      k := FirstErr(rs[..n]);
    } else {
      k := n;
    }
  }

  /* ---------- the merge candidates of `step` ---------- */

  /** The pairs `(i, i + 1)`, ..., `(i, j - 1)`, in order. */
  function Row(i: nat, j: nat): seq<(nat, nat)>
    decreases j
  {
    if j <= i + 1 then [] else Row(i, j - 1) + [(i, j - 1)]
  }

  /** The rows of pairs of the first `i` partitions out of `n`, in order. */
  function Rows(n: nat, i: nat): seq<(nat, nat)> {
    if i == 0 then [] else Rows(n, i - 1) + Row(i - 1, n)
  }

  /** Every pair `i < j` of `n` partitions, in lexicographic order. */
  function Pairs(n: nat): seq<(nat, nat)> {
    if n == 0 then [] else Rows(n, n - 1)
  }

  lemma {:induction false} RowMembers(i: nat, j: nat, p: (nat, nat))
    ensures p in Row(i, j) <==> p.0 == i && i < p.1 < j
    decreases j
  {
    if j > i + 1 {
      RowMembers(i, j - 1, p);
    }
  }

  lemma {:induction false} RowsMembers(n: nat, i: nat, p: (nat, nat))
    ensures p in Rows(n, i) <==> p.0 < i && p.0 < p.1 < n
  {
    if i > 0 {
      RowsMembers(n, i - 1, p);
      RowMembers(i - 1, n, p);
    }
  }

  /** The options of `step` are exactly the pairs `i < j < n`. */
  lemma PairsMembers(n: nat, p: (nat, nat))
    ensures p in Pairs(n) <==> p.0 < p.1 < n
  {
    if n > 0 {
      RowsMembers(n, n - 1, p);
    }
  }

  /** Merging partitions `p` of `t` and applying every constraint to the result. */
  function Tried<T, Var, V>(ops: TableOps<T, Var, V>, cs: seq<DynConstraint<T, Var>>, t: T, p: (nat, nat)): Result<T, Unsatisfiable<T, Var>> {
    ApplyAll(ops.size, cs, ops.merge(t, p.0, p.1))
  }

  function Candidates<T, Var, V>(ops: TableOps<T, Var, V>, cs: seq<DynConstraint<T, Var>>, t: T, options: seq<(nat, nat)>): (r: seq<Result<T, Unsatisfiable<T, Var>>>)
    ensures |r| == |options|
  {
    seq(|options|, k requires 0 <= k < |options| => Tried(ops, cs, t, options[k]))
  }

  /**
   * What a `step` makes of a table whose constants are already merged: with several partitions,
   * the reduction of every tried merge (its error, or the table it keeps); otherwise nothing.
   */
  function StepOutcome<T, Var, V>(ops: TableOps<T, Var, V>, cs: seq<DynConstraint<T, Var>>, merged: T): (Result<(), Unsatisfiable<T, Var>>, T) {
    var n := ops.numPartitions(merged);
    if n > 1 then
      match Reduce(ops.cost, Candidates(ops, cs, merged, Pairs(n)))
      case Some(Err(u)) => (Err(u), merged)
      case Some(Ok(best)) => (Ok(()), best)
      case None => (Ok(()), merged)
    else (Ok(()), merged)
  }

  /** Under the partition laws a successful step with several partitions leaves fewer of them. */
  lemma StepShrinks<T(!new), Var, V>(ops: TableOps<T, Var, V>, cs: seq<DynConstraint<T, Var>>, merged: T)
    requires PartitionLaws(ops) && AllKeepPartitions(ops, cs)
    requires ops.numPartitions(merged) > 1 && StepOutcome(ops, cs, merged).0.Ok?
    ensures ops.numPartitions(StepOutcome(ops, cs, merged).1) < ops.numPartitions(merged)
  {
    var n := ops.numPartitions(merged);
    var options := Pairs(n);
    PairsMembers(n, (0, 1));
    var rs := Candidates(ops, cs, merged, options);
    ReduceOkMeansAllOk(ops.cost, rs);
    var m := ReduceAllOk(ops.cost, rs);
    var p := options[m];
    PairsMembers(n, p);
    FixpointKeepsPartitions(ops, cs, ops.merge(merged, p.0, p.1), ops.size(ops.merge(merged, p.0, p.1)) + 1);
  }

  /** The table a successful step keeps is the cheapest of the tried merges, the first one on a tie. */
  lemma StepKeepsCheapest<T, Var, V>(ops: TableOps<T, Var, V>, cs: seq<DynConstraint<T, Var>>, merged: T) returns (m: nat)
    requires ops.numPartitions(merged) > 1 && StepOutcome(ops, cs, merged).0.Ok?
    ensures var options := Pairs(ops.numPartitions(merged));
      && m < |options| && Tried(ops, cs, merged, options[m]) == Ok(StepOutcome(ops, cs, merged).1)
      && (forall j :: 0 <= j < |options| ==>
            Tried(ops, cs, merged, options[j]).Ok? &&
            ops.cost(StepOutcome(ops, cs, merged).1) <= ops.cost(Tried(ops, cs, merged, options[j]).value))
      && (forall j :: 0 <= j < m ==> ops.cost(Tried(ops, cs, merged, options[j]).value) > ops.cost(StepOutcome(ops, cs, merged).1))
  {
    var options := Pairs(ops.numPartitions(merged));
    PairsMembers(ops.numPartitions(merged), (0, 1));
    var rs := Candidates(ops, cs, merged, options);
    ReduceOkMeansAllOk(ops.cost, rs);
    m := ReduceAllOk(ops.cost, rs);
    forall j | 0 <= j < |options|
      ensures rs[j] == Tried(ops, cs, merged, options[j])
    {
    }
  }

  /** An error that comes out of the reduction is one of the candidates. */
  lemma {:induction false} ReduceErrFrom<T, Var>(cost: T -> nat, rs: seq<Result<T, Unsatisfiable<T, Var>>>) returns (j: nat)
    requires Reduce(cost, rs).Some? && Reduce(cost, rs).value.Err?
    ensures j < |rs| && rs[j] == Reduce(cost, rs).value
    decreases |rs|
  {
    var n := |rs| - 1;
    var init := Reduce(cost, rs[..n]);
    if init.Some? && init.value.Err? {
      j := ReduceErrFrom(cost, rs[..n]);
      assert rs[..n][j] == rs[j];
    } else {
      j := n;
    }
  }

  /** A failed step names a constraint that was active during it. */
  lemma StepFailureNamed<T, Var, V>(ops: TableOps<T, Var, V>, cs: seq<DynConstraint<T, Var>>, merged: T) returns (k: nat)
    requires StepOutcome(ops, cs, merged).0.Err?
    ensures k < |cs| && !cs[k].done
    ensures StepOutcome(ops, cs, merged).0.error.constraint == cs[k].name
    ensures StepOutcome(ops, cs, merged).0.error.header == cs[k].params
  {
    var options := Pairs(ops.numPartitions(merged));
    var rs := Candidates(ops, cs, merged, options);
    var j := ReduceErrFrom(ops.cost, rs);
    var p := options[j];
    var m := ops.merge(merged, p.0, p.1);
    k := FixpointFailureNamed(ops.size, cs, m, ops.size(m) + 1);
  }

  /* ---------- `solve` ---------- */

  /** Retiring constraints changes none of their applications. */
  lemma CompletedKeepsPartitions<T(!new), Var, V>(ops: TableOps<T, Var, V>, cs: seq<DynConstraint<T, Var>>, t: T)
    requires AllKeepPartitions(ops, cs)
    ensures AllKeepPartitions(ops, Completed(cs, t))
  {
    var after := Completed(cs, t);
    forall k | 0 <= k < |after|
      ensures KeepsPartitions(ops, after[k].apply)
    {
      assert after[k].apply == cs[k].apply;
    }
  }

  /** A successful step from a table with several partitions leaves fewer of them. */
  lemma StepProgress<T(!new), Var, V>(ops: TableOps<T, Var, V>, cs: seq<DynConstraint<T, Var>>, t: T)
    requires PartitionLaws(ops) && AllKeepPartitions(ops, cs) && ops.numPartitions(t) > 1
    requires StepOutcome(ops, Completed(cs, t), ops.mergeConstants(t)).0.Ok?
    ensures AllKeepPartitions(ops, Completed(cs, t))
    ensures ops.numPartitions(StepOutcome(ops, Completed(cs, t), ops.mergeConstants(t)).1) < ops.numPartitions(t)
  {
    CompletedKeepsPartitions(ops, cs, t);
    var merged := ops.mergeConstants(t);
    if ops.numPartitions(merged) > 1 {
      StepShrinks(ops, Completed(cs, t), merged);
    }
  }

  /**
   * The loop of `solve` from table `t`: while there are several partitions and more than one
   * possibility, step; the outcome, the table and the registry it ends with (constants merged on
   * success).
   */
  ghost function SolveSteps<T(!new), Var, V>(ops: TableOps<T, Var, V>, cs: seq<DynConstraint<T, Var>>, t: T)
    : (Result<(), Unsatisfiable<T, Var>>, T, seq<DynConstraint<T, Var>>)
    requires PartitionLaws(ops) && AllKeepPartitions(ops, cs)
    decreases ops.numPartitions(t)
  {
    if ops.numPartitions(t) > 1 && ops.possibilities(t) > 1 then
      var done := Completed(cs, t);
      var (r, next) := StepOutcome(ops, done, ops.mergeConstants(t));
      if r.Err? then (r, next, done)
      else
        StepProgress(ops, cs, t);
        SolveSteps(ops, done, next)
    else (Ok(()), ops.mergeConstants(t), cs)
  }

  /** What `solve` makes of table `t` and registry `cs`: `apply_constraints`, then the loop. */
  ghost function SolveOutcome<T(!new), Var, V>(ops: TableOps<T, Var, V>, cs: seq<DynConstraint<T, Var>>, t: T)
    : (Result<(), Unsatisfiable<T, Var>>, T, seq<DynConstraint<T, Var>>)
    requires PartitionLaws(ops) && AllKeepPartitions(ops, cs)
  {
    match ApplyAll(ops.size, cs, t)
    case Err(u) => (Err(u), t, cs)
    case Ok(first) => SolveSteps(ops, cs, first)
  }

  /** A failure of the loop of `solve` names a constraint still active when it ends. */
  lemma {:induction false} SolveStepsFailureNamed<T(!new), Var, V>(ops: TableOps<T, Var, V>, cs: seq<DynConstraint<T, Var>>, t: T)
    returns (k: nat)
    requires PartitionLaws(ops) && AllKeepPartitions(ops, cs) && SolveSteps(ops, cs, t).0.Err?
    ensures var (r, _, after) := SolveSteps(ops, cs, t);
      k < |after| && !after[k].done && r.error.constraint == after[k].name && r.error.header == after[k].params
    decreases ops.numPartitions(t)
  {
    var done := Completed(cs, t);
    var (r, next) := StepOutcome(ops, done, ops.mergeConstants(t));
    if r.Err? {
      k := StepFailureNamed(ops, done, ops.mergeConstants(t));
    } else {
      StepProgress(ops, cs, t);
      k := SolveStepsFailureNamed(ops, done, next);
    }
  }

  /** A failure of `solve` names a constraint still active when it ends. */
  lemma SolveFailureNamed<T(!new), Var, V>(ops: TableOps<T, Var, V>, cs: seq<DynConstraint<T, Var>>, t: T)
    returns (k: nat)
    requires PartitionLaws(ops) && AllKeepPartitions(ops, cs) && SolveOutcome(ops, cs, t).0.Err?
    ensures var (r, _, after) := SolveOutcome(ops, cs, t);
      k < |after| && !after[k].done && r.error.constraint == after[k].name && r.error.header == after[k].params
  {
    if ApplyAll(ops.size, cs, t).Err? {
      k := FixpointFailureNamed(ops.size, cs, t, ops.size(t) + 1);
    } else {
      k := SolveStepsFailureNamed(ops, cs, ApplyAll(ops.size, cs, t).value);
    }
  }

  /** `solve` only retires constraints, and on success its table is one whose constants were merged. */
  lemma {:induction false} SolveStepsLatched<T(!new), Var, V>(ops: TableOps<T, Var, V>, cs: seq<DynConstraint<T, Var>>, t: T)
    requires PartitionLaws(ops) && AllKeepPartitions(ops, cs)
    ensures Latched(cs, SolveSteps(ops, cs, t).2)
    ensures SolveSteps(ops, cs, t).0.Ok? ==> exists last: T ::
      SolveSteps(ops, cs, t).1 == ops.mergeConstants(last) && (ops.numPartitions(last) <= 1 || ops.possibilities(last) <= 1)
    decreases ops.numPartitions(t)
  {
    if ops.numPartitions(t) > 1 && ops.possibilities(t) > 1 {
      var done := Completed(cs, t);
      var (r, next) := StepOutcome(ops, done, ops.mergeConstants(t));
      if r.Ok? {
        StepProgress(ops, cs, t);
        SolveStepsLatched(ops, done, next);
        LatchedTransitive(cs, done, SolveSteps(ops, done, next).2);
      }
    } else {
      assert forall k :: 0 <= k < |cs| ==> cs[k] == cs[k].(done := cs[k].done);
    }
  }

  /* ---------- the driver ---------- */

  class Solvomatic<T(!new), Var, V> {
    const ops: TableOps<T, Var, V>
    var table: T
    var constraints: seq<DynConstraint<T, Var>>

    /** No registered constraint adds partitions. */
    ghost predicate Valid()
      reads this
    {
      AllKeepPartitions(ops, constraints)
    }

    /** `Solvomatic::new`: an empty table and no constraints. */
    constructor (ops: TableOps<T, Var, V>)
      ensures this.ops == ops && table == ops.empty && constraints == []
      ensures Valid()
    {
      this.ops := ops;
      table := ops.empty;
      constraints := [];
    }

    /** `var`: adds a column to the table. */
    method AddVar(x: Var, values: seq<V>)
      modifies this
      ensures table == ops.addColumn(old(table), x, values) && constraints == old(constraints)
    {
      table := ops.addColumn(table, x, values);
    }

    /**
     * `mapped_constraint`: registers one active constraint named after its kind, over `params` in
     * the order given. `apply` stands for `table.apply_constraint(params, map, constraint)`.
     */
    method MappedConstraint<N, S>(params: seq<Var>, c: Algebra.Constraint<N, S>, apply: T -> Applied<T>)
      modifies this
      ensures constraints == old(constraints) + [DynConstraint(c.name, params, apply, false)]
      ensures table == old(table)
      ensures old(Valid()) && KeepsPartitions(ops, apply) ==> Valid()
    {
      constraints := constraints + [DynConstraint(c.name, params, apply, false)];
    }

    /** `constraint`: `mapped_constraint` with the identity map. */
    method Constraint<S>(params: seq<Var>, c: Algebra.Constraint<V, S>, apply: T -> Applied<T>)
      modifies this
      ensures constraints == old(constraints) + [DynConstraint(c.name, params, apply, false)]
      ensures table == old(table)
      ensures old(Valid()) && KeepsPartitions(ops, apply) ==> Valid()
    {
      MappedConstraint(params, c, apply);
    }

    /** `apply_constraints`: passes over the active constraints until one leaves the size where it was. */
    method ApplyConstraints(t: T) returns (r: Result<T, Unsatisfiable<T, Var>>)
      ensures r == ApplyAll(ops.size, constraints, t)
    {
      var current := t;
      var lastSize: nat := ops.size(current) + 1;
      while ops.size(current) < lastSize
        invariant Fixpoint(ops.size, constraints, current, lastSize) == ApplyAll(ops.size, constraints, t)
        decreases lastSize
      {
        ghost var passStart, before := current, lastSize;
        lastSize := ops.size(current);
        var i := 0;
        while i < |constraints|
          invariant 0 <= i <= |constraints|
          invariant Pass(constraints, passStart) == Pass(constraints[i..], current)
        {
          var c := constraints[i];
          assert constraints[i..][1..] == constraints[i + 1..];
          if !c.done {
            var a := c.apply(current);
            if a.result.Err? {
              return Err(Unsatisfiable(a.table, c.params, c.name));
            }
            current := a.table;
          }
          i := i + 1;
        }
      }
      r := Ok(current);
    }

    /** `mark_completed_constraints`: retires every active constraint that reports itself complete. */
    method MarkCompletedConstraints()
      modifies this
      ensures table == old(table) && constraints == Completed(old(constraints), table)
    {
      for i := 0 to |constraints|
        invariant table == old(table) && |constraints| == |old(constraints)|
        invariant forall k :: 0 <= k < |constraints| ==>
          constraints[k] == if k < i then MarkIfComplete(old(constraints)[k], table) else old(constraints)[k]
      {
        if !constraints[i].done && constraints[i].apply(table).result == Ok(true) {
          constraints := constraints[i := constraints[i].(done := true)];
        }
      }
    }

    /** The options of `step`: every pair `i < j` of partitions, in order. */
    method MergeOptions(n: nat) returns (options: seq<(nat, nat)>)
      requires n > 1
      ensures options == Pairs(n)
    {
      options := [];
      for i := 0 to n - 1
        invariant options == Rows(n, i)
      {
        for j := i + 1 to n
          invariant options == Rows(n, i) + Row(i, j)
        {
          options := options + [(i, j)];
        }
      }
    }

    /**
     * `step`: retire completed constraints, merge the constant partitions, then try every merge of
     * two partitions and keep the reduction (the first error, or the cheapest table).
     */
    method Step() returns (r: Result<(), Unsatisfiable<T, Var>>)
      modifies this
      ensures constraints == Completed(old(constraints), old(table))
      ensures (r, table) == StepOutcome(ops, constraints, ops.mergeConstants(old(table)))
    {
      MarkCompletedConstraints();
      table := ops.mergeConstants(table);
      var n := ops.numPartitions(table);
      if n > 1 {
        var options := MergeOptions(n);
        var best: Option<Result<T, Unsatisfiable<T, Var>>> := None;
        ghost var cs, merged := constraints, table;
        for k := 0 to |options|
          invariant constraints == cs && table == merged
          invariant best == Reduce(ops.cost, Candidates(ops, constraints, table, options[..k]))
        {
          var c := ApplyConstraints(ops.merge(table, options[k].0, options[k].1));
          assert Candidates(ops, constraints, table, options[..k + 1])[..k] == Candidates(ops, constraints, table, options[..k]);
          best := Some(if best.None? then c else Combine(ops.cost, best.value, c));
        }
        assert options[..|options|] == options;
        match best.value
        case Err(u) =>
          return Err(u);
        case Ok(t) =>
          table := t;
      }
      r := Ok(());
    }

    /**
     * `solve`: apply the constraints, then step while there are several partitions and more than
     * one possibility, and finally merge the constants.
     */
    method Solve() returns (r: Result<(), Unsatisfiable<T, Var>>)
      requires PartitionLaws(ops) && Valid()
      modifies this
      ensures (r, table, constraints) == SolveOutcome(ops, old(constraints), old(table))
      ensures Latched(old(constraints), constraints)
      ensures r.Ok? ==> exists last: T ::
        table == ops.mergeConstants(last) && (ops.numPartitions(last) <= 1 || ops.possibilities(last) <= 1)
      ensures r.Err? ==>
        exists k :: 0 <= k < |constraints| && !constraints[k].done && r.error.constraint == constraints[k].name && r.error.header == constraints[k].params
    {
      ghost var outcome := SolveOutcome(ops, constraints, table);
      ghost var named: nat;
      if outcome.0.Err? {
        named := SolveFailureNamed(ops, constraints, table);
      }
      var first := ApplyConstraints(table);
      if first.Err? {
        return Err(first.error);
      }
      table := first.value;
      SolveStepsLatched(ops, constraints, table);
      while ops.numPartitions(table) > 1 && ops.possibilities(table) > 1
        invariant Valid() && SolveSteps(ops, constraints, table) == outcome
        decreases ops.numPartitions(table)
      {
        ghost var before, cs := table, constraints;
        var s := Step();
        if s.Err? {
          return Err(s.error);
        }
        StepProgress(ops, cs, before);
      }
      table := ops.mergeConstants(table);
      r := Ok(());
    }
  }
}

/**
 * The Count constraint: each listed value must occur between a minimum and a maximum number
 * of times among the constraint's positions. Its summary maps each value to bounds on how
 * often that value occurs in a group of positions; a value missing from a map counts as (0, 0).
 */
module Count {
  import opened Logic

  /** Occurrence bounds `(min, max)`. */
  datatype Bounds = Bounds(min: nat, max: nat)

  /** A constraint instance: the occurrence limits per value. */
  datatype Count<N(!new)> = Count(limits: map<N, Bounds>)

  const NAME: string := "Count"

  /** A map lookup with (0, 0) for a missing key. */
  function Get<N(!new)>(m: map<N, Bounds>, k: N): Bounds {
    if k in m then m[k] else Bounds(0, 0)
  }

  /* ---------- construction ---------- */

  /** The map built by inserting the triples in order, so a later triple replaces an earlier one. */
  function FromTriples<N(!new)>(triples: seq<(N, nat, nat)>): map<N, Bounds>
  {
    if triples == [] then map[]
    else
      var last := triples[|triples| - 1];
      FromTriples(triples[..|triples| - 1])[last.0 := Bounds(last.1, last.2)]
  }

  /** Each listed value is a key, and its bounds come from the last triple that mentions it. */
  lemma {:induction false} FromTriplesLastWins<N(!new)>(triples: seq<(N, nat, nat)>, i: nat)
    requires i < |triples|
    requires forall j :: i < j < |triples| ==> triples[j].0 != triples[i].0
    ensures triples[i].0 in FromTriples(triples)
    ensures FromTriples(triples)[triples[i].0] == Bounds(triples[i].1, triples[i].2)
  {
    if i < |triples| - 1 {
      FromTriplesLastWins(triples[..|triples| - 1], i);
    }
  }

  /** Only listed values are keys. */
  lemma {:induction false} FromTriplesKeys<N(!new)>(triples: seq<(N, nat, nat)>, k: N)
    ensures k in FromTriples(triples) <==> exists i :: 0 <= i < |triples| && triples[i].0 == k
  {
    if triples != [] {
      var front := triples[..|triples| - 1];
      FromTriplesKeys(front, k);
      if k in FromTriples(front) {
        var i :| 0 <= i < |front| && front[i].0 == k;
        assert triples[i].0 == k;
      }
      if k != triples[|triples| - 1].0 && exists i :: 0 <= i < |triples| && triples[i].0 == k {
        var i :| 0 <= i < |triples| && triples[i].0 == k;
        assert front[i].0 == k;
      }
    }
  }

  /** `Count::new`: insert each triple into a fresh map. */
  method New<N(!new)>(triples: seq<(N, nat, nat)>) returns (c: Count<N>)
    ensures c.limits == FromTriples(triples)
  {
    var m: map<N, Bounds> := map[];
    for i := 0 to |triples|
      invariant m == FromTriples(triples[..i])
    {
      var (v, lo, hi) := triples[i];
      assert triples[..i + 1][..i] == triples[..i];
      m := m[v := Bounds(lo, hi)];
    }
    assert triples[..|triples|] == triples;
    c := Count(m);
  }

  /* ---------- the summary algebra ---------- */

  /** `combine_hashmaps`: `combine` applied key by key over the union of the keys. */
  function Combine<N(!new)>(a: map<N, Bounds>, b: map<N, Bounds>, combine: (Bounds, Bounds) -> Bounds): (r: map<N, Bounds>)
    ensures r.Keys == a.Keys + b.Keys
    ensures forall k :: k in r ==> r[k] == combine(Get(a, k), Get(b, k))
  {
    map k | k in a.Keys + b.Keys :: combine(Get(a, k), Get(b, k))
  }

  function AddBounds(x: Bounds, y: Bounds): Bounds {
    Bounds(x.min + y.min, x.max + y.max)
  }

  function HullBounds(x: Bounds, y: Bounds): Bounds {
    Bounds(if x.min < y.min then x.min else y.min, if x.max < y.max then y.max else x.max)
  }

  /** `singleton`: the position certainly holds `v`, once; the index is ignored. */
  function Singleton<N(!new)>(index: nat, v: N): (r: map<N, Bounds>)
    ensures r.Keys == {v} && r[v] == Bounds(1, 1)
  {
    map[v := Bounds(1, 1)]
  }

  /** `and`: two disjoint groups; bounds add up. */
  function And<N(!new)>(a: map<N, Bounds>, b: map<N, Bounds>): (r: map<N, Bounds>)
    ensures r.Keys == a.Keys + b.Keys
    ensures forall k | k in r :: r[k] == AddBounds(Get(a, k), Get(b, k))
  {
    Combine(a, b, AddBounds)
  }

  /** `or`: either alternative; the lower minimum and the higher maximum. */
  function Or<N(!new)>(a: map<N, Bounds>, b: map<N, Bounds>): (r: map<N, Bounds>)
    ensures r.Keys == a.Keys + b.Keys
    ensures forall k | k in r :: r[k] == HullBounds(Get(a, k), Get(b, k))
  {
    Combine(a, b, HullBounds)
  }

  lemma AndCommutative<N(!new)>(a: map<N, Bounds>, b: map<N, Bounds>)
    ensures And(a, b) == And(b, a)
  {
    forall k | k in And(a, b) ensures And(a, b)[k] == And(b, a)[k] {
      assert Get(And(a, b), k) == Get(And(b, a), k);
    }
  }

  lemma OrCommutative<N(!new)>(a: map<N, Bounds>, b: map<N, Bounds>)
    ensures Or(a, b) == Or(b, a)
  {
    forall k | k in Or(a, b) ensures Or(a, b)[k] == Or(b, a)[k] {
      assert Get(Or(a, b), k) == Get(Or(b, a), k);
    }
  }

  /* ---------- meaning of a summary ---------- */

  /** The summary `s` admits the multiset of values `m` occurring in the group. */
  ghost predicate Describes<N(!new)>(s: map<N, Bounds>, m: multiset<N>) {
    forall k :: Get(s, k).min <= m[k] <= Get(s, k).max
  }

  /** `m` meets the occurrence limits. */
  ghost predicate Satisfies<N(!new)>(limits: map<N, Bounds>, m: multiset<N>) {
    forall k :: Get(limits, k).min <= m[k] <= Get(limits, k).max
  }

  lemma SingletonSound<N(!new)>(index: nat, v: N)
    ensures Describes(Singleton(index, v), multiset{v})
  {
  }

  lemma AddWithin(x: Bounds, y: Bounds, p: nat, q: nat)
    requires x.min <= p <= x.max && y.min <= q <= y.max
    ensures AddBounds(x, y).min <= p + q <= AddBounds(x, y).max
  {
  }

  lemma AndSoundAt<N(!new)>(a: map<N, Bounds>, b: map<N, Bounds>, p: nat, q: nat, k: N)
    requires Get(a, k).min <= p <= Get(a, k).max
    requires Get(b, k).min <= q <= Get(b, k).max
    ensures Get(And(a, b), k).min <= p + q <= Get(And(a, b), k).max
  {
    AddWithin(Get(a, k), Get(b, k), p, q);
  }

  /** Combining disjoint groups with `and` admits the sum of anything the parts admit. */
  lemma AndSound<N(!new)>(a: map<N, Bounds>, b: map<N, Bounds>, ma: multiset<N>, mb: multiset<N>)
    requires Describes(a, ma) && Describes(b, mb)
    ensures Describes(And(a, b), ma + mb)
  {
    forall k ensures Get(And(a, b), k).min <= (ma + mb)[k] <= Get(And(a, b), k).max {
      AndSoundAt(a, b, ma[k], mb[k], k);
    }
  }
  /** `or` admits anything either alternative admits. */
  lemma OrSound<N(!new)>(a: map<N, Bounds>, b: map<N, Bounds>, m: multiset<N>)
    requires Describes(a, m) || Describes(b, m)
    ensures Describes(Or(a, b), m)
  {
    forall k ensures Get(Or(a, b), k).min <= m[k] <= Get(Or(a, b), k).max {
      if Describes(a, m) {
        assert Get(a, k).min <= m[k] <= Get(a, k).max;
      } else {
        assert Get(b, k).min <= m[k] <= Get(b, k).max;
      }
    }
  }

  /* ---------- check ---------- */

  /** The verdict for one value, from its actual bounds and its limits. */
  function KeyVerdict(actual: Bounds, limit: Bounds): YesNoMaybe {
    if actual.min > limit.max || actual.max < limit.min then No
    else if actual.min >= limit.min && actual.max <= limit.max then Yes
    else Maybe
  }

  /** `Yes` means every count the actual bounds allow is within the limits, `No` that none is. */
  lemma KeyVerdictSound(actual: Bounds, limit: Bounds, n: nat)
    requires actual.min <= n <= actual.max
    ensures KeyVerdict(actual, limit) == Yes ==> limit.min <= n <= limit.max
    ensures KeyVerdict(actual, limit) == No ==> !(limit.min <= n <= limit.max)
  {
  }

  /** For consistent bounds, anything but `No` leaves a count that both allow: the intervals overlap. */
  lemma KeyVerdictComplete(actual: Bounds, limit: Bounds) returns (n: nat)
    requires actual.min <= actual.max && limit.min <= limit.max
    requires KeyVerdict(actual, limit) != No
    ensures actual.min <= n <= actual.max && limit.min <= n <= limit.max
  {
    n := if actual.min < limit.min then limit.min else actual.min;
  }

  /** What `check` computes: `No` if some value is `No`, `Yes` if every value is `Yes`, else `Maybe`. */
  ghost function CheckSpec<N(!new)>(limits: map<N, Bounds>, s: map<N, Bounds>): YesNoMaybe {
    if exists k :: k in s.Keys + limits.Keys && KeyVerdict(Get(s, k), Get(limits, k)) == No then No
    else if forall k :: k in s.Keys + limits.Keys ==> KeyVerdict(Get(s, k), Get(limits, k)) == Yes then Yes
    else Maybe
  }

  /** `check`: folds `and` from `Yes` over the union of the keys, in whatever order the map yields them. */
  method Check<N(!new)>(c: Count<N>, s: map<N, Bounds>) returns (satisfied: YesNoMaybe)
    ensures satisfied == CheckSpec(c.limits, s)
  {
    var keys := s.Keys + c.limits.Keys;
    ghost var seen: set<N> := {};
    satisfied := Yes;
    while keys != {}
      invariant keys + seen == s.Keys + c.limits.Keys
      invariant satisfied == No <==> exists k :: k in seen && KeyVerdict(Get(s, k), Get(c.limits, k)) == No
      invariant satisfied == Yes <==> forall k :: k in seen ==> KeyVerdict(Get(s, k), Get(c.limits, k)) == Yes
      decreases keys
    {
      var k :| k in keys;
      var sat := KeyVerdict(Get(s, k), Get(c.limits, k));
      satisfied := Logic.And(satisfied, sat);
      keys := keys - {k};
      seen := seen + {k};
    }
  }

  /** `check` is sound: `Yes` means every multiset the summary admits meets the limits, `No` that none does. */
  lemma CheckSound<N(!new)>(limits: map<N, Bounds>, s: map<N, Bounds>, m: multiset<N>)
    requires Describes(s, m)
    ensures CheckSpec(limits, s) == Yes ==> Satisfies(limits, m)
    ensures CheckSpec(limits, s) == No ==> !Satisfies(limits, m)
  {
    if CheckSpec(limits, s) == Yes {
      forall k ensures Get(limits, k).min <= m[k] <= Get(limits, k).max {
        KeyVerdictSound(Get(s, k), Get(limits, k), m[k]);
      }
    }
    if CheckSpec(limits, s) == No {
      var k :| k in s.Keys + limits.Keys && KeyVerdict(Get(s, k), Get(limits, k)) == No;
      KeyVerdictSound(Get(s, k), Get(limits, k), m[k]);
    }
  }

  /** A value without limits may not occur: a summary where it certainly occurs checks `No`. */
  lemma UnlistedValueIsNo<N(!new)>(limits: map<N, Bounds>, s: map<N, Bounds>, v: N)
    requires v !in limits && Get(s, v).min >= 1
    ensures CheckSpec(limits, s) == No
  {
    assert v in s.Keys + limits.Keys;
    assert KeyVerdict(Get(s, v), Get(limits, v)) == No;
  }
}

/**
 * The Seq constraint: the values of its positions, in order, spell one of a list of allowed
 * sequences. Its summary (`SeqSet`) has one bit per allowed sequence, set while that sequence
 * may still be spelled, and a count of the combinations the summary stands for.
 */
module SeqConstraint {
  import opened Logic

  datatype Seq<T> = Seq(seqLen: nat, allowed: seq<seq<T>>)

  datatype SeqSet = SeqSet(bits: seq<bool>, count: nat)

  const NAME: string := "Seq"

  /** `Seq::new`: panics unless every allowed sequence has length `seqLen`. */
  function New<T>(seqLen: nat, allowed: seq<seq<T>>): (c: Seq<T>)
    requires forall i :: 0 <= i < |allowed| ==> |allowed[i]| == seqLen
    ensures c.seqLen == seqLen && c.allowed == allowed
    ensures forall i :: 0 <= i < |c.allowed| ==> |c.allowed[i]| == c.seqLen
  {
    Seq(seqLen, allowed)
  }

  /** What `singleton` computes: bit `i` is set iff allowed sequence `i` has `elem` at `index`. */
  function SingletonSpec<T(==)>(c: Seq<T>, index: nat, elem: T): SeqSet
    requires forall i :: 0 <= i < |c.allowed| ==> index < |c.allowed[i]|
  {
    SeqSet(seq(|c.allowed|, i requires 0 <= i < |c.allowed| => c.allowed[i][index] == elem), 1)
  }

  /** `singleton`: set the bit of every allowed sequence with `elem` at `index`. */
  method Singleton<T(==)>(c: Seq<T>, index: nat, elem: T) returns (s: SeqSet)
    requires forall i :: 0 <= i < |c.allowed| ==> index < |c.allowed[i]|
    ensures s == SingletonSpec(c, index, elem)
    ensures |s.bits| == |c.allowed| && s.count == 1
    ensures forall i :: 0 <= i < |s.bits| ==> (s.bits[i] <==> c.allowed[i][index] == elem)
  {
    var bits := seq(|c.allowed|, _ => false);
    for i := 0 to |c.allowed|
      invariant |bits| == |c.allowed|
      invariant forall j :: 0 <= j < |bits| ==> (bits[j] <==> j < i && c.allowed[j][index] == elem)
    {
      if c.allowed[i][index] == elem {
        bits := bits[i := true];
      }
    }
    s := SeqSet(bits, 1);
  }

  /** `and`: bitwise AND of the bits, product of the counts. */
  function And(a: SeqSet, b: SeqSet): (r: SeqSet)
    requires |a.bits| == |b.bits|
    ensures |r.bits| == |a.bits|
    ensures forall i :: 0 <= i < |r.bits| ==> (r.bits[i] <==> a.bits[i] && b.bits[i])
    ensures r.count == a.count * b.count
  {
    SeqSet(seq(|a.bits|, i requires 0 <= i < |a.bits| => a.bits[i] && b.bits[i]), a.count * b.count)
  }

  /** `or`: bitwise OR of the bits, sum of the counts. */
  function Or(a: SeqSet, b: SeqSet): (r: SeqSet)
    requires |a.bits| == |b.bits|
    ensures |r.bits| == |a.bits|
    ensures forall i :: 0 <= i < |r.bits| ==> (r.bits[i] <==> a.bits[i] || b.bits[i])
    ensures r.count == a.count + b.count
  {
    SeqSet(seq(|a.bits|, i requires 0 <= i < |a.bits| => a.bits[i] || b.bits[i]), a.count + b.count)
  }

  /** The number of set bits. */
  function Popcount(bits: seq<bool>): (n: nat)
    ensures n <= |bits|
    ensures n == 0 <==> forall i :: 0 <= i < |bits| ==> !bits[i]
  {
    if bits == [] then 0
    else (if bits[0] then 1 else 0) + Popcount(bits[1..])
  }

  /** Popcount adds up over a split. */
  lemma {:induction false} PopcountSplit(bits: seq<bool>, k: nat)
    requires k <= |bits|
    ensures Popcount(bits) == Popcount(bits[..k]) + Popcount(bits[k..])
    decreases k
  {
    if k > 0 {
      PopcountSplit(bits[1..], k - 1);
      assert bits[1..][..k - 1] == bits[..k][1..];
      assert bits[1..][k - 1..] == bits[k..];
    }
  }

  /** `check`: `No` when no sequence is possible, `Yes` when the possible ones match the count. */
  function Check(s: SeqSet): (r: YesNoMaybe)
    ensures r == No <==> forall i :: 0 <= i < |s.bits| ==> !s.bits[i]
    ensures r == Yes <==> Popcount(s.bits) != 0 && Popcount(s.bits) == s.count
  {
    var n := Popcount(s.bits);
    if n == 0 then No
    else if n == s.count then Yes
    else Maybe
  }

  /* ---------- properties ---------- */

  lemma AndCommutative(a: SeqSet, b: SeqSet)
    requires |a.bits| == |b.bits|
    ensures And(a, b) == And(b, a)
  {
  }

  lemma OrCommutative(a: SeqSet, b: SeqSet)
    requires |a.bits| == |b.bits|
    ensures Or(a, b) == Or(b, a)
  {
  }

  lemma AndAssociative(a: SeqSet, b: SeqSet, c: SeqSet)
    requires |a.bits| == |b.bits| == |c.bits|
    ensures And(And(a, b), c) == And(a, And(b, c))
  {
    assert a.count * b.count * c.count == a.count * (b.count * c.count);
  }

  lemma OrAssociative(a: SeqSet, b: SeqSet, c: SeqSet)
    requires |a.bits| == |b.bits| == |c.bits|
    ensures Or(Or(a, b), c) == Or(a, Or(b, c))
  {
  }

  /** `and` of singletons at two positions keeps exactly the sequences matching at both. */
  lemma AndOfSingletons<T>(c: Seq<T>, i: nat, x: T, j: nat, y: T, k: nat)
    requires forall w :: 0 <= w < |c.allowed| ==> i < |c.allowed[w]| && j < |c.allowed[w]|
    requires k < |c.allowed|
    ensures And(SingletonSpec(c, i, x), SingletonSpec(c, j, y)).bits[k] <==> c.allowed[k][i] == x && c.allowed[k][j] == y
    ensures And(SingletonSpec(c, i, x), SingletonSpec(c, j, y)).count == 1
  {
  }

  /** The in-file test, first half: exactly four of the words have the form s?x. */
  lemma SeqExamplePattern()
    ensures var c := New(3, ["sax", "sex", "six", "sox", "sat", "tax", "too"]);
      Popcount(And(SingletonSpec(c, 0, 's'), SingletonSpec(c, 2, 'x')).bits) == 4
  {
    var c := New(3, ["sax", "sex", "six", "sox", "sat", "tax", "too"]);
    var bits := And(SingletonSpec(c, 0, 's'), SingletonSpec(c, 2, 'x')).bits;
    assert bits == [true, true, true, true, false, false, false];
    assert Popcount(bits[4..]) == 0;
    assert Popcount(bits[3..]) == 1 + Popcount(bits[4..]) by { assert bits[3..][1..] == bits[4..]; }
    assert Popcount(bits[2..]) == 1 + Popcount(bits[3..]) by { assert bits[2..][1..] == bits[3..]; }
    assert Popcount(bits[1..]) == 1 + Popcount(bits[2..]) by { assert bits[1..][1..] == bits[2..]; }
  }

  /** The in-file test, second half: pinning "too" letter by letter leaves one word, a definite `Yes`. */
  lemma SeqExamplePinned()
    ensures var c := New(3, ["sax", "sex", "six", "sox", "sat", "tax", "too"]);
      Check(And(And(SingletonSpec(c, 1, 'o'), SingletonSpec(c, 2, 'o')), SingletonSpec(c, 0, 't'))) == Yes
  {
    var c := New(3, ["sax", "sex", "six", "sox", "sat", "tax", "too"]);
    var bits := And(And(SingletonSpec(c, 1, 'o'), SingletonSpec(c, 2, 'o')), SingletonSpec(c, 0, 't')).bits;
    assert bits == [false, false, false, false, false, false, true];
    assert bits[6..] == [true];
    assert Popcount(bits[..6]) == 0;
    PopcountSplit(bits, 6);
  }
}

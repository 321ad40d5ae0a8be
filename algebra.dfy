/**
 * The interface every constraint kind implements: a summary type `S` of the values a group of
 * positions may take, built from `singleton`s and combined with `and` (disjoint groups of
 * positions, both present) and `or` (the same positions, either alternative), and a three-valued
 * `check` of a summary. The trait itself is not part of this model; a constraint is the record of
 * its four operations, with its name.
 */
module Algebra {
  import opened Logic

  datatype Constraint<!V, !S> = Constraint(
    name: string,
    singleton: (nat, V) -> S,
    and: (S, S) -> S,
    or: (S, S) -> S,
    check: S -> YesNoMaybe)

  /** `and` may be regrouped and reordered freely. */
  ghost predicate AndLaws<V, S(!new)>(c: Constraint<V, S>) {
    && (forall a: S, b: S {:trigger c.and(a, b)} :: c.and(a, b) == c.and(b, a))
    && (forall a: S, b: S, d: S {:trigger c.and(c.and(a, b), d)} :: c.and(c.and(a, b), d) == c.and(a, c.and(b, d)))
  }
}

/** Three-valued verdicts returned by every constraint's `check`, and their conjunction. */
module Logic {

  datatype YesNoMaybe = Yes | No | Maybe

  /** Conjunction of two verdicts: `No` absorbs, `Yes` only from `Yes` and `Yes`, otherwise `Maybe`. */
  function And(a: YesNoMaybe, b: YesNoMaybe): (r: YesNoMaybe)
    ensures r == Yes <==> a == Yes && b == Yes
    ensures r == No <==> a == No || b == No
    ensures r == Maybe <==> a != No && b != No && (a == Maybe || b == Maybe)
  {
    match (a, b)
    case (Yes, Yes) => Yes
    case (Maybe, Maybe) => Maybe
    case (Yes, Maybe) => Maybe
    case (Maybe, Yes) => Maybe
    case (No, _) => No
    case (_, No) => No
  }

  /** Converts a boolean into a definite verdict. */
  function FromBool(b: bool): (r: YesNoMaybe)
    ensures r != Maybe
    ensures r == Yes <==> b
  {
    if b then Yes else No
  }

  lemma AndCommutative(a: YesNoMaybe, b: YesNoMaybe)
    ensures And(a, b) == And(b, a)
  {
  }

  lemma AndAssociative(a: YesNoMaybe, b: YesNoMaybe, c: YesNoMaybe)
    ensures And(And(a, b), c) == And(a, And(b, c))
  {
  }

  lemma AndIdentityAbsorb(a: YesNoMaybe)
    ensures And(Yes, a) == a && And(a, Yes) == a
    ensures And(No, a) == No && And(a, No) == No
  {
  }
}

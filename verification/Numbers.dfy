/** Definitions on natural numbers that several models share. */
module Numbers {

  function Min(x: nat, y: nat): nat
  {
    if x < y then x else y
  }

  /** No number occurs twice. */
  predicate Distinct(s: seq<nat>)
  {
    forall i, j :: 0 <= i < j < |s| ==> s[i] != s[j]
  }
}

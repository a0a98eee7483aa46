/** `uinteger` and `Id`: the identifiers of graph elements. */
module Identifiers {
  import opened JsonValues

  const MinValue: int := 0
  const MaxValue: int := 2147483647

  /** The JavaScript number with integral value k. */
  function Number(k: int): Json
  {
    Num(k as real)
  }

  /** `Number.isInteger` on an exact number. */
  predicate IsInteger(n: real)
  {
    n == n.Floor as real
  }

  /** `uinteger.is`: a defined, non-null integral number in [0, 2^31 - 1]. */
  function UintegerIs(v: Json): (r: bool)
    ensures r <==> exists k: int | MinValue <= k <= MaxValue :: v == Number(k)
  {
    if v.Num? && IsInteger(v.n) && v.n >= MinValue as real && v.n <= MaxValue as real then
      assert v == Number(v.n.Floor);
      true
    else
      false
  }

  /** `Id.is`: a string or a `uinteger`. */
  function IdIs(v: Json): (r: bool)
    ensures r <==> v.Str? || exists k: int | MinValue <= k <= MaxValue :: v == Number(k)
  {
    v.Str? || UintegerIs(v)
  }
}

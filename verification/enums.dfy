/**
 * The enumerated-type helpers that one macro generates for each of the
 * stream, format, preset, distortion and option enumerations.
 *
 * An enumeration is described by its name table: the value `v` is named
 * `names[v]`, and the enumeration's COUNT constant is the length of the
 * table. The five tables themselves live outside this model.
 */
module Enums {

  import opened Wrappers
  import opened Decimal

  datatype EnumTable = EnumTable(names: seq<string>)

  /** The enumeration's COUNT constant. */
  function Count(t: EnumTable): nat {
    |t.names|
  }

  /** `is_valid`: the value lies in the enumeration's declared range. */
  predicate IsValid(t: EnumTable, v: int) {
    v >= 0 && v < Count(t)
  }

  /**
   * `operator <<`: the canonical name of a valid value, and the decimal
   * form of the raw integer otherwise (negative values included).
   */
  function Render(t: EnumTable, v: int): (s: string)
    ensures IsValid(t, v) ==> s == t.names[v]
    ensures !IsValid(t, v) ==> Canonical(s) && ParseDecimal(s) == Some(v)
  {
    if IsValid(t, v) then t.names[v]
    else
      DecimalRoundTrip(v);
      IntToDecimal(v)
  }

  /** The values `0, 1, ..., count - 1`, in the order a counting loop visits them. */
  function Range(count: nat): (vs: seq<int>)
    ensures |vs| == count
    ensures forall k :: 0 <= k < count ==> vs[k] == k
    decreases count
  {
    if count == 0 then [] else Range(count - 1) + [count - 1]
  }

  /** A loop from 0 to COUNT visits exactly the valid values, each once. */
  lemma ValidIffInRange(t: EnumTable, v: int)
    ensures IsValid(t, v) <==> v in Range(Count(t))
  {
    var vs := Range(Count(t));
    if v in vs {
      var k :| 0 <= k < |vs| && vs[k] == v;
    }
    if IsValid(t, v) {
      assert vs[v] == v;
    }
  }
}

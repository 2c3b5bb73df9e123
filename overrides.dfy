/**
 * The per-period one-off payment overrides, as a sparse map from period
 * number to the payment typed for that period, and the two transitions the
 * page applies to it.
 */
module Overrides {

  type OverrideMap = map<int, real>

  /**
   * What the payment cell of period `k` holds once trimmed: nothing, a
   * finite number, or text that does not read as a finite number.
   */
  datatype Entry = Blank | Finite(value: real) | NotFinite

  /** Every override is a payment of zero or more. */
  predicate NonNegative(o: OverrideMap)
  {
    forall k :: k in o ==> o[k] >= 0.0
  }

  /**
   * `setOverride(k, text)`: a blank entry removes the override of period
   * `k`, a finite non-negative amount sets it, and anything else (a
   * negative amount, text that is not a finite number) leaves the map
   * as it was.
   */
  function SetOverride(o: OverrideMap, k: int, entry: Entry): (o': OverrideMap)
    ensures entry.Blank? ==> o'.Keys == o.Keys - {k}
    ensures entry.Finite? && entry.value >= 0.0 ==> o'.Keys == o.Keys + {k} && o'[k] == entry.value
    ensures entry.NotFinite? || (entry.Finite? && entry.value < 0.0) ==> o' == o
    ensures forall p :: p in o' && p != k ==> p in o && o'[p] == o[p]
  {
    match entry
    case Blank => o - {k}
    case Finite(v) => if v >= 0.0 then o[k := v] else o
    case NotFinite => o
  }

  /** `clearOverrides()`: every override is dropped at once. */
  function ClearOverrides(): (o: OverrideMap)
    ensures |o| == 0
  {
    map[]
  }

  /** The only values that enter the map are non-negative, so the invariant is kept. */
  lemma SetOverridePreservesNonNegative(o: OverrideMap, k: int, entry: Entry)
    requires NonNegative(o)
    ensures NonNegative(SetOverride(o, k, entry))
  {
    var o' := SetOverride(o, k, entry);
    forall p | p in o'
      ensures o'[p] >= 0.0
    {
      if p != k {
        assert o'[p] == o[p];
      }
    }
  }

  /**
   * Clearing a period's cell undoes setting it when the period had no
   * override before: "no override" stays distinct from "an override of 0".
   */
  lemma BlankUndoesSet(o: OverrideMap, k: int, v: real)
    requires k !in o
    ensures SetOverride(SetOverride(o, k, Finite(v)), k, Blank) == o
  {
    var o' := SetOverride(SetOverride(o, k, Finite(v)), k, Blank);
    assert o'.Keys == o.Keys;
  }

  /** Typing the same entry twice into one cell has the effect of typing it once. */
  lemma SetOverrideIdempotent(o: OverrideMap, k: int, entry: Entry)
    ensures SetOverride(SetOverride(o, k, entry), k, entry) == SetOverride(o, k, entry)
  {
    var once := SetOverride(o, k, entry);
    var twice := SetOverride(once, k, entry);
    assert twice.Keys == once.Keys;
  }
}

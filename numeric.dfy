/** Bounds of numeric static parameters and what happens to a value that
    falls outside them. */
module Numeric {
  import opened Common

  datatype OutOfBoundsAction = Discard | AdjustToRange | ApplyDefault

  /** `tBounds<T>`: either the default bounds, which hold every value of
      the type, or a range with an action and a default for the
      `ApplyDefault` action. */
  datatype Bounds =
    | Unbounded
    | Range(min: int, max: int, action: OutOfBoundsAction, outOfBoundsDefault: int)

  predicate InBounds(b: Bounds, v: int) {
    b.Unbounded? || (b.min <= v && v <= b.max)
  }

  /** `ToBounds`: the nearest end of the range. */
  function ToBounds(b: Bounds, v: int): (r: int)
    requires b.Range?
    ensures b.min <= b.max ==> InBounds(b, r)
    ensures InBounds(b, v) ==> r == v
  {
    if v < b.min then b.min else if v > b.max then b.max else v
  }

  /** The value the numeric `Set` stores, or None when it discards it. */
  function Enforce(b: Bounds, v: int): (r: Option<int>)
    ensures r.None? <==> b.Range? && !InBounds(b, v) && b.action == Discard
    ensures InBounds(b, v) ==> r == Some(v)
    ensures Sound(b) && r.Some? ==> InBounds(b, r.value)
    ensures b.Range? && !InBounds(b, v) && b.action == AdjustToRange ==> r == Some(if v < b.min then b.min else b.max)
    ensures b.Range? && !InBounds(b, v) && b.action == ApplyDefault ==> r == Some(b.outOfBoundsDefault)
  {
    if InBounds(b, v) then Some(v)
    else match b.action
      case Discard => None
      case AdjustToRange => Some(ToBounds(b, v))
      case ApplyDefault => Some(b.outOfBoundsDefault)
  }

  /** Bounds are sound when the range is not empty and the default for
      out-of-range values lies inside it. */
  predicate Sound(b: Bounds) {
    b.Unbounded? || (b.min <= b.max && b.min <= b.outOfBoundsDefault <= b.max)
  }

  /** With sound bounds whatever is stored lies within them, and storing it
      again changes nothing. */
  lemma EnforceInBounds(b: Bounds, v: int)
    requires Sound(b)
    ensures Enforce(b, v).Some? ==> InBounds(b, Enforce(b, v).value) && Enforce(b, Enforce(b, v).value) == Enforce(b, v)
  {
  }
}

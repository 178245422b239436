/**
 * The slideshow cursor: a zero-based index into the full photo list that the
 * Prev/Next buttons and the arrow keys move by one, wrapping around at both
 * ends. With no photos the cursor does not move.
 */
module Slideshow {

  /** `#next`: `(index + 1) % count`, guarded by a non-empty photo list. */
  function Next(index: nat, count: nat): (r: nat)
    ensures count > 0 ==> r < count
    ensures count == 0 ==> r == index
  {
    if count > 0 then (index + 1) % count else index
  }

  /**
   * `#prev`: `(index - 1 + count) % count`, guarded by a non-empty photo list.
   * The dividend is never negative here, so JavaScript's `%` and Dafny's agree.
   */
  function Prev(index: nat, count: nat): (r: nat)
    ensures count > 0 ==> r < count
    ensures count == 0 ==> r == index
  {
    if count > 0 then (index - 1 + count) % count else index
  }

  /** The cursor is in range: zero while there are no photos, a valid index otherwise. */
  predicate InRange(index: nat, count: nat)
    ensures InRange(index, count) ==> (index < count <==> count > 0)
  {
    if count == 0 then index == 0 else index < count
  }

  /** Inside the list Next moves one step forward; from the last photo it wraps to the first. */
  lemma NextStep(index: nat, count: nat)
    requires index < count
    ensures Next(index, count) == if index + 1 == count then 0 else index + 1
  {
  }

  /** Inside the list Prev moves one step back; from the first photo it wraps to the last. */
  lemma PrevStep(index: nat, count: nat)
    requires index < count
    ensures Prev(index, count) == if index == 0 then count - 1 else index - 1
  {
  }

  /** Both moves keep the cursor in range. */
  lemma MovesKeepInRange(index: nat, count: nat)
    requires InRange(index, count)
    ensures InRange(Next(index, count), count)
    ensures InRange(Prev(index, count), count)
  {
  }

  /** Next then Prev, or Prev then Next, returns to the original photo. */
  lemma PrevNextInverse(index: nat, count: nat)
    requires InRange(index, count)
    ensures Prev(Next(index, count), count) == index
    ensures Next(Prev(index, count), count) == index
  {
    if count > 0 {
      NextStep(index, count);
      PrevStep(index, count);
      NextStep(Prev(index, count), count);
      PrevStep(Next(index, count), count);
    }
  }

  /** Three photos: Prev from the first shows the third, and Next from there is back at the first. */
  lemma ThreePhotosWrap()
    ensures Prev(0, 3) == 2
    ensures Next(2, 3) == 0
  {
  }
}

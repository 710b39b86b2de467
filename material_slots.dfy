/**
 * The active-material index arithmetic of the next/previous material select
 * operators: the index moves one slot forward or back, wrapping around the
 * object's material slots. Python's `%` with a positive divisor is Dafny's
 * Euclidean `%`; with no slot at all Python raises ZeroDivisionError, which
 * is `None` here.
 */
module MaterialSlots {
  import opened Wrappers

  /** `(cur_i + 1) % am`, the new active material index of next-material select. */
  function NextMaterialIndex(current: int, slots: nat): (r: Option<nat>)
    ensures r.Some? <==> slots > 0
    ensures r.Some? ==> r.value < slots
  {
    if slots == 0 then None else Some((current + 1) % slots)
  }

  /** `(cur_i - 1) % am`, the new active material index of previous-material select. */
  function PreviousMaterialIndex(current: int, slots: nat): (r: Option<nat>)
    ensures r.Some? <==> slots > 0
    ensures r.Some? ==> r.value < slots
  {
    if slots == 0 then None else Some((current - 1) % slots)
  }

  /** From a valid slot, next moves one slot forward and wraps from the last slot to the first. */
  lemma NextWraps(current: nat, slots: nat)
    requires current < slots
    ensures NextMaterialIndex(current, slots) == Some(if current + 1 == slots then 0 else current + 1)
  {
  }

  /** From a valid slot, previous moves one slot back and wraps from the first slot to the last. */
  lemma PreviousWraps(current: nat, slots: nat)
    requires current < slots
    ensures PreviousMaterialIndex(current, slots) == Some(if current == 0 then slots - 1 else current - 1)
  {
    if current == 0 {
      assert (0 - 1) % slots == slots - 1 by {
        assert -1 == (-1) * slots + (slots - 1);
      }
    }
  }

  /** Previous undoes next, and next undoes previous, for every valid slot. */
  lemma NextPreviousInverse(current: nat, slots: nat)
    requires current < slots
    ensures PreviousMaterialIndex(NextMaterialIndex(current, slots).value, slots) == Some(current)
    ensures NextMaterialIndex(PreviousMaterialIndex(current, slots).value, slots) == Some(current)
  {
    NextWraps(current, slots);
    PreviousWraps(current, slots);
    var n := NextMaterialIndex(current, slots).value;
    var p := PreviousMaterialIndex(current, slots).value;
    PreviousWraps(n, slots);
    NextWraps(p, slots);
  }
}

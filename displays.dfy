/** Displays as the platform enumerates them, and resolution of the display
    that hosts the pointer. */
module Displays {
  import opened Wrappers
  import opened Geometry
  import opened Seqs

  /** A display identifier: an unsigned 32-bit number. */
  newtype DisplayId = x: int | 0 <= x < 0x1_0000_0000

  /** The identifier that names no display. */
  const NullDisplay: DisplayId := 0

  /** An enumerated screen: the display number found in its device
      description (absent when that entry is missing or not a number), its
      frame in global coordinates and its maximum refresh rate. */
  datatype Screen = Screen(number: Option<DisplayId>, frame: Rect, maximumFramesPerSecond: int)

  /** The first screen, in enumeration order, whose frame contains `p`. */
  function ScreenAt(screens: seq<Screen>, p: Point): (m: Option<Screen>)
    ensures m.Some? ==> m.value in screens && m.value.frame.Contains(p)
    ensures m.Some? ==> exists i :: 0 <= i < |screens| && screens[i] == m.value &&
                          forall j :: 0 <= j < i ==> !screens[j].frame.Contains(p)
    ensures m.None? <==> forall i :: 0 <= i < |screens| ==> !screens[i].frame.Contains(p)
  {
    match FirstWhere(screens, (s: Screen) => s.frame.Contains(p))
    case None => None
    case Some(i) => Some(screens[i])
  }

  /** The identifier of a resolved monitor, or the null identifier when
      there is no monitor or its number is missing. */
  function MonitorId(m: Option<Screen>): (id: DisplayId)
    ensures m.None? ==> id == NullDisplay
    ensures m.Some? && m.value.number.Some? ==> id == m.value.number.value
    ensures m.Some? && m.value.number.None? ==> id == NullDisplay
  {
    match m
    case None => NullDisplay
    case Some(s) => s.number.GetOr(NullDisplay)
  }

  /** No point lies in the frames of two different screens. */
  ghost predicate NonOverlapping(screens: seq<Screen>) {
    forall i, j, q :: 0 <= i < j < |screens| && screens[i].frame.Contains(q) ==> !screens[j].frame.Contains(q)
  }

  /** On a layout whose screens do not overlap, the pointer resolves to the
      one screen whose frame holds it. */
  lemma ScreenAtNonOverlapping(screens: seq<Screen>, k: nat, p: Point)
    requires NonOverlapping(screens)
    requires k < |screens| && screens[k].frame.Contains(p)
    ensures ScreenAt(screens, p) == Some(screens[k])
  {
  }
}

/** The cursor state tracker: the mirrored cursor, the monitor that hosts
    the pointer, the enabled-monitor set and whether the overlay is hidden. */
module MouseView {
  import opened Wrappers
  import opened Geometry
  import opened Displays
  import opened Defaults
  import opened Overlay

  /** The identifiers in a persisted list, as a set. */
  function Elements(ids: seq<DisplayId>): (s: set<DisplayId>)
    ensures forall x :: x in s <==> x in ids
  {
    set x | x in ids
  }

  class MouseViewController {
    var currentCursor: Cursor
    var currentMonitor: Option<Screen>
    var enabledMonitors: set<DisplayId>
    /** Whether the cursor image view is hidden. */
    var hidden: bool
    /** How many times a new cursor was stored, each re-rendering the image. */
    ghost var cursorReplacements: nat

    /** Hidden exactly when the current monitor's identifier (the null
        identifier when there is no monitor) is not enabled. */
    ghost predicate VisibilityCurrent()
      reads this
    {
      hidden == (MonitorId(currentMonitor) !in enabledMonitors)
    }

    /** Set-up: the cursor current at launch, no monitor yet, a visible image
        view, and the enabled set as persisted (the observer's initial call). */
    constructor (defaults: UserDefaults, cursor: Cursor)
      ensures currentCursor == cursor && currentMonitor == None && !hidden
      ensures enabledMonitors == if defaults.ActiveMonitors().Some? then Elements(defaults.ActiveMonitors().value) else {}
      ensures cursorReplacements == 0
    {
      currentCursor := cursor;
      currentMonitor := None;
      hidden := false;
      cursorReplacements := 0;
      enabledMonitors := {};
      new;
      ActiveMonitorsChanged(defaults);
    }

    /** The observer of the persisted list: a present list replaces the
        enabled set, an absent one leaves it as it was. */
    method ActiveMonitorsChanged(defaults: UserDefaults)
      modifies this
      ensures defaults.ActiveMonitors().Some? ==> enabledMonitors == Elements(defaults.ActiveMonitors().value)
      ensures defaults.ActiveMonitors().None? ==> enabledMonitors == old(enabledMonitors)
      ensures currentCursor == old(currentCursor) && currentMonitor == old(currentMonitor)
      ensures hidden == old(hidden) && cursorReplacements == old(cursorReplacements)
    {
      var mons := defaults.ActiveMonitors();
      if mons.Some? {
        enabledMonitors := Elements(mons.value);
      }
    }

    /** Re-resolves the monitor when a position is given, then recomputes
        whether the overlay is hidden. */
    method ResetCurrentMonitor(mousePosition: Option<Point>, screens: seq<Screen>)
      modifies this
      ensures mousePosition.Some? ==> currentMonitor == ScreenAt(screens, mousePosition.value)
      ensures mousePosition.None? ==> currentMonitor == old(currentMonitor)
      ensures VisibilityCurrent()
      ensures currentCursor == old(currentCursor) && enabledMonitors == old(enabledMonitors)
      ensures cursorReplacements == old(cursorReplacements)
    {
      if mousePosition.Some? {
        currentMonitor := ScreenAt(screens, mousePosition.value);
      }
      hidden := MonitorId(currentMonitor) !in enabledMonitors;
    }

    /** Handles one throttled pointer event and returns whether the overlay
        is visible. `systemCursor` is the cursor the system reports (null when
        it reports none) and `screens` the current enumeration. */
    method Update(systemCursor: Cursor?, mousePosition: Point, screens: seq<Screen>) returns (visible: bool)
      modifies this
      ensures systemCursor != null && systemCursor != old(currentCursor) ==>
                currentCursor == systemCursor && cursorReplacements == old(cursorReplacements) + 1
      ensures systemCursor == null || systemCursor == old(currentCursor) ==>
                currentCursor == old(currentCursor) && cursorReplacements == old(cursorReplacements)
      ensures old(currentMonitor).Some? && old(currentMonitor).value.frame.Contains(mousePosition) ==>
                currentMonitor == old(currentMonitor) && hidden == old(hidden)
      ensures old(currentMonitor).None? || !old(currentMonitor).value.frame.Contains(mousePosition) ==>
                currentMonitor == ScreenAt(screens, mousePosition) && VisibilityCurrent()
      ensures old(VisibilityCurrent()) ==> VisibilityCurrent()
      ensures enabledMonitors == old(enabledMonitors)
      ensures visible == !hidden
    {
      if systemCursor != null && systemCursor != currentCursor {
        currentCursor := systemCursor;
        cursorReplacements := cursorReplacements + 1;
      }
      if !(currentMonitor.Some? && currentMonitor.value.frame.Contains(mousePosition)) {
        ResetCurrentMonitor(Some(mousePosition), screens);
      }
      visible := !hidden;
    }
  }
}

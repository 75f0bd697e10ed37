# MouseHook tracking core in Dafny

MouseHook is a macOS background agent. It copies the system pointer (its cursor image, hotspot and position) into an always-on-top overlay window, so the real cursor stays visible during screen sharing. This project models the adaptive tracking engine of `MouseHook/AppDelegate.swift` and `MouseHook/MouseViewController.swift` and proves properties of the model:

- **Monitor enablement registry** (`Registry`, `Defaults`, `App.AppDelegate.UpdateEnabledMonitors`, `App.AppDelegate.MenuItemClicked`). The persisted list of enabled display identifiers lives under the setting `"enabledMonitors"`. Toggling an identifier removes its first occurrence if it is present, and otherwise inserts it at the front. An absent list counts as empty.
- **Cursor state tracker** (`MouseView.MouseViewController`). This class holds the mirrored cursor, the monitor under the pointer, the enabled set and the hidden flag of the image view. It re-resolves the monitor only when the pointer has left it, choosing the first screen in enumeration order whose frame contains the pointer. It then recomputes the hidden flag.
- **Overlay position calculator** (`Overlay`). The window origin is the pointer minus the adjusted hotspot. A cursor whose image size and hotspot equal the arrow's has its vertical hotspot flipped to `height - y`.
- **Refresh-rate selection and throttle-mode switch** (`Refresh`, `App.AppDelegate`). The fast rate is the highest positive refresh rate any screen reports, or 60 if none does. The mode flag follows visibility after every event. Each change of the flag cancels the held subscription and then subscribes to the throttle the new value selects.

Modelling choices:
- Coordinates are `real`. A display identifier is an unsigned 32-bit newtype, and identifier 0 is the null display.
- Rectangle containment is the platform's: rectangles are standardised and containment is half-open (`minX <= x < maxX`, and the same for y).
- A throttle records whether it is the fast or the slow one, so the two stay distinct even when the target rate happens to be 5 Hz.
- A cursor is a class with constant fields. `systemCursor != currentCursor` is therefore object identity, as `!==` is in the source.
- The settings store is a class holding a map from setting name to stored value. A stored value that is not a list of identifiers reads as absent, as the typed cast does.
- These operating-system queries become parameters: the screen list, the system cursor (null when there is none), the arrow cursor and the pointer position.
- Property observation becomes explicit calls:
  - Every assignment to the fast flag runs its change handler (`SetFastFreqRefresh` calls `FastFreqRefreshChanged`).
  - Storing the enabled list runs the tracker's observer (`UpdateEnabledMonitors` calls `ActiveMonitorsChanged`).
  - The tracker's constructor runs that observer once, for the `.initial` option.
- The ghost sequences `subscriptions` and `trace` record every subscription made, and every cancellation and subscription in order. `SubscriptionsValid` uses them to state that at most one subscription is live.

Behaviour the model takes from the code that a reader might not expect:
- With no current monitor, visibility is tested with the null identifier 0. If 0 is in the enabled set, the overlay is visible with no monitor (`MouseView.MouseViewController.VisibilityCurrent`).
- The image view starts out visible. The visibility invariant holds only after the first re-resolution, which the first event always triggers, because there is no monitor yet.
- The tracker's own observer keeps the previous enabled set when the persisted list is absent. Only the toggle in `AppDelegate` treats an absent list as empty.
- A mode switch cancels the old subscription before it creates the new one. Between those two steps no subscription is live (`trace` records the order).

## Model

| member | source | states |
|---|---|---|
| `Seqs.FirstWhere` | MouseHook/MouseViewController.swift:75 | the result is the index of the first element satisfying the predicate: no earlier element satisfies it, and the result is absent exactly when no element does |
| `Seqs.RemoveAt` | MouseHook/AppDelegate.swift:146 | `remove(at:)`: one element shorter; elements before the index are kept and the later ones shift down by one |
| `Displays.ScreenAt` | MouseHook/MouseViewController.swift:75 | the result is a screen whose frame contains the point, and no earlier screen's frame contains it; the result is absent exactly when no frame contains the point |
| `Displays.MonitorId` | MouseHook/MouseViewController.swift:77 | the identifier used for the visibility test: the screen's number, or the null display 0 when there is no monitor or the number is missing |
| `Displays.ScreenAtNonOverlapping` | MouseHook/MouseViewController.swift:75 | on non-overlapping screens, a point inside a screen's frame resolves to that screen |
| `Geometry.Rect.Contains` | MouseHook/MouseViewController.swift:75 | `CGRect.contains` on the standardised rectangle, as used here and at line 86: a point on a maximum edge is never contained, a rectangle of zero width or height contains nothing, and the minimum corner is contained exactly when the rectangle is non-empty |
| `Geometry.SharedEdgeBelongsToOne` | MouseHook/MouseViewController.swift:86 | half-open containment: a point on an edge shared by two frames lies in only one of them, and never on the maximum edge |
| `Defaults.UserDefaults.ActiveMonitors` | MouseHook/AppDelegate.swift:165-167 | the persisted list is present exactly when the key holds a list of identifiers, and it is that list |
| `Defaults.UserDefaults.SetActiveMonitors` | MouseHook/AppDelegate.swift:170-172 | stores the list under the key, after which it reads back unchanged; other settings are untouched |
| `Registry.FirstIndexOf` | MouseHook/AppDelegate.swift:145 | `firstIndex(of:)`: the index holds the identifier and no earlier element equals it; the index is absent exactly when the identifier is not in the list |
| `Registry.Loaded` | MouseHook/AppDelegate.swift:139-143 | an absent persisted list is read as the empty list, and a present one as itself |
| `Registry.Toggle` | MouseHook/AppDelegate.swift:145-149 | an absent identifier gives `[id] + list`; a present one makes the list one shorter |
| `Registry.ToggleRemovesFirstOccurrence` | MouseHook/AppDelegate.swift:145-146 | for a present identifier, the result is the list with exactly its first occurrence deleted and everything else in order |
| `Registry.ToggleMultiset` | MouseHook/AppDelegate.swift:145-149 | as a multiset, the result loses one copy of a present identifier or gains one copy of an absent one; nothing else changes |
| `Registry.ToggleNoDup` | MouseHook/AppDelegate.swift:145-151 | toggling keeps a list free of duplicates |
| `Registry.ToggleFlipsMembership` | MouseHook/AppDelegate.swift:145-151 | on a list without duplicates, membership of the toggled identifier flips; every other identifier's membership is unchanged |
| `Registry.ToggleTwiceRestores` | MouseHook/AppDelegate.swift:147-148 | toggling an absent identifier twice gives back the original list |
| `Registry.ToggleTimesNoDup` | MouseHook/AppDelegate.swift:145-151 | any number of toggles keeps a list free of duplicates |
| `Registry.ToggleTimesStep` | MouseHook/AppDelegate.swift:145-151 | on a list that started without duplicates, each further toggle flips the identifier's membership |
| `Registry.ToggleParity` | MouseHook/AppDelegate.swift:136-152 | after n toggles of a list without duplicates, the identifier's membership equals its original membership exactly when n is even |
| `Overlay.IsArrowCursor` | MouseHook/MouseViewController.swift:111-114 | holds exactly when the image size and the hotspot both equal the arrow's, so the arrow itself always qualifies |
| `Overlay.AdjustedHotSpot` | MouseHook/MouseViewController.swift:101-109 | x is always the hotspot's x; a non-arrow hotspot is unchanged; the arrow's y becomes height - y; a hotspot inside the image stays inside it |
| `Overlay.FrameOrigin` | MouseHook/MouseViewController.swift:59-62 | translating the origin by the adjusted hotspot gives the pointer; for a non-arrow cursor the origin is the pointer minus the hotspot |
| `Overlay.FrameOriginUnique` | MouseHook/MouseViewController.swift:59-62 | the origin is the only placement that puts the adjusted hotspot on the pointer |
| `Overlay.ArrowFrameOrigin` | MouseHook/MouseViewController.swift:103-106 | for the arrow with image height H and hotspot (hx, hy), the origin is the pointer minus (hx, H - hy) |
| `Overlay.FrameOriginExample` | MouseHook/MouseViewController.swift:59-62 | a non-arrow cursor with hotspot (5, 5) at pointer (100, 100) gives origin (95, 95) |
| `Overlay.LookalikePlacedAsArrow` | MouseHook/MouseViewController.swift:111-114 | the arrow test ignores identity: a different cursor with the arrow's size and hotspot is placed exactly like the arrow |
| `Refresh.RefreshRates` | MouseHook/AppDelegate.swift:155-156 | one reported rate per screen, in enumeration order |
| `Refresh.PositiveRates` | MouseHook/AppDelegate.swift:157 | keeps exactly the strictly positive rates |
| `Refresh.Maximum` | MouseHook/AppDelegate.swift:158 | absent exactly for the empty sequence; otherwise an element that is at least every element |
| `Refresh.TargetFPS` | MouseHook/AppDelegate.swift:154-160 | always positive; 60 when no screen reports a positive rate; otherwise a rate some screen reports that is at least every screen's rate |
| `Refresh.Subscription.constructor` | MouseHook/AppDelegate.swift:52-57 | a new subscription is live and is to the given throttle |
| `Refresh.Subscription.Cancel` | MouseHook/AppDelegate.swift:48 | a cancelled subscription is no longer live |
| `MouseView.Elements` | MouseHook/MouseViewController.swift:51 | the set of identifiers in the persisted list |
| `MouseView.MouseViewController.constructor` | MouseHook/MouseViewController.swift:14-53 | starts with the launch cursor, no monitor and a visible image view; the enabled set is the persisted list's elements, or empty when the list is absent |
| `MouseView.MouseViewController.ActiveMonitorsChanged` | MouseHook/MouseViewController.swift:49-53 | a present persisted list replaces the enabled set; an absent one keeps the previous set; nothing else changes |
| `MouseView.MouseViewController.ResetCurrentMonitor` | MouseHook/MouseViewController.swift:73-78 | with a position, the monitor becomes the first screen containing it, or none; with no position it is unchanged; afterwards hidden holds exactly when the monitor's identifier (0 without a monitor) is not enabled |
| `MouseView.MouseViewController.Update` | MouseHook/MouseViewController.swift:80-91 | the cursor is replaced, and counted, only when a system cursor exists and is a different object; the monitor and hidden flag stay unless the pointer left the monitor, in which case both are recomputed; the visibility invariant is preserved; returns `!hidden` |
| `App.AppDelegate.SingleLiveSubscription` | MouseHook/AppDelegate.swift:47-52 | in a running state the held subscription is the only live one |
| `App.AppDelegate.constructor` | MouseHook/AppDelegate.swift:33-60 | fast throttle at the screens' target rate and slow throttle at 5 Hz; the tracker starts visible, with no monitor, the launch cursor, no cursor replacement counted, and the persisted list's elements as its enabled set (empty when the list is absent); window at the zero origin; the fast flag is set and exactly one subscription, to the fast throttle, is made |
| `App.AppDelegate.FastFreqRefreshChanged` | MouseHook/AppDelegate.swift:47-58 | cancels the held subscription (if any) first, then holds one new live subscription, to the fast throttle exactly when the new value is true; the trace records that order |
| `App.AppDelegate.SetFastFreqRefresh` | MouseHook/AppDelegate.swift:47-59 | every assignment of the flag runs the change handler: the flag takes the value and the state is running, with one new subscription |
| `App.AppDelegate.Update` | MouseHook/AppDelegate.swift:67-78 | the tracker replaces its cursor only when the system cursor exists and is a different object, keeps its enabled set and re-resolves the monitor only when the pointer left it, preserving the visibility invariant; the window origin moves to the frame origin of that cursor only when the tracker reports visible; afterwards the fast flag equals visibility; when the flag did not change nothing is resubscribed, and when it did the old subscription is cancelled before exactly one new one |
| `App.AppDelegate.UpdateEnabledMonitors` | MouseHook/AppDelegate.swift:136-152 | stores the toggle of the persisted list, with an absent list read as empty (so it becomes `[id]`); the tracker's enabled set becomes that list's elements; monitor, cursor and hidden flag unchanged |
| `App.AppDelegate.MenuItemClicked` | MouseHook/AppDelegate.swift:131-134 | stores the toggled list and nothing else; the tracker's enabled set becomes its elements, its cursor and monitor are unchanged, and visibility is recomputed at once; with the pointer on the toggled display and no duplicates in the list, the overlay is hidden exactly when the display had been enabled |
| `App.AppDelegate.MenuItemClickedUnobserved` | MouseHook/MouseViewController.swift:49-53 | the click when the tracker's observer is never notified: the toggled list is stored but the enabled set stays as read at launch, and visibility is recomputed against that stale set |

## Left out

- Combine's `throttle` timing, `DispatchQueue` scheduling and `receive(on:)` are concurrency inside a library. The model keeps only the throttle's configured rate, the mode flag and the subscription handle. Delivering an event through the live subscription is a call to `App.AppDelegate.Update`.
- The global event monitor (`NSEvent.addGlobalMonitorForEvents`, its removal in `deinit`) and `NSEvent.mouseLocation` are operating-system input. The position is a parameter.
- `App.AppDelegate.Update`: the source reads the pointer position twice, once inside the tracker and once for the origin. The model uses one position for both reads.
- `NSScreen.screens`, `NSCursor.currentSystem`, `NSCursor.current` and `NSCursor.arrow` are operating-system queries. They are parameters.
- Window and menu set-up are user interface and are not modelled: `setupMouseWindow`, including its 50 by 50 fallback size, `setupMenu`, `menuNeedsUpdate` and `viewDidLoad`.
- `applyCurrentCursorImage` is not modelled either. It sets the image, frame, content size and `contentsScale`. The model only counts each cursor replacement that triggers it (`cursorReplacements`).
- The stride `1.0 / Double(targetFPS)` is floating point. The model stops at the integer target rate.
- CGFloat arithmetic is modelled as exact real arithmetic. NaN, infinities, rounding and `CGRect.null` are not modelled.
- The settings store's persistence and its property-observation plumbing are replaced by the map and by explicit calls.
- The model assumes storing the list notifies the tracker at once (`App.AppDelegate.UpdateEnabledMonitors` calls the observer). The code admits two readings. The setter `setActiveMonitors(_:)` has the key-value-coding name for the observed key path `activeMonitors`, so automatic observation may wrap it and notify the tracker after every store. Or the observation follows only the stored key `enabledMonitors`, and the tracker is never notified. Which one holds is platform behaviour the source text does not settle; see "## Findings".
- The current monitor is a snapshot of the screen taken when it is resolved. The source holds a live screen object and re-reads its frame on each event and its display number on each visibility recompute. The model does not capture a display that is moved or renumbered while the pointer stays on it: it keeps testing against the old frame and number.
- `menuItemClicked` reads the display identifier from the menu item's identifier string and force-unwraps it. The model passes the identifier directly.

## Findings

| source | as written | input that shows it | evidently intended | confidence | as-written member | corrected member |
|---|---|---|---|---|---|---|
| MouseHook/MouseViewController.swift:49 | the tracker observes the key path `activeMonitors`, but the list is stored under the settings key `enabledMonitors` (MouseHook/AppDelegate.swift:171) and the store goes through `@objc func setActiveMonitors(_:)` (MouseHook/AppDelegate.swift:170, called at :151), whose name is the key-value-coding setter for `activeMonitors`; if the settings store's automatic observation wraps that setter, the observer runs after every store; if it notifies only on a change to the stored key, the observer never runs again after the `.initial` call; which happens is platform behaviour outside the source text, and this row models the second reading | one display numbered 7, nothing persisted, pointer on display 7: clicking its menu entry stores `[7]` but the overlay stays hidden (`App.UnobservedClickKeepsOverlayHidden`) | a menu toggle refreshes the tracker's enabled set, so the click shows the overlay at once (`App.ObservedClickShowsOverlay`) | low, not executed; rests on the settings store's observation rule, which is outside this model | `App.AppDelegate.MenuItemClickedUnobserved` | `App.AppDelegate.MenuItemClicked` |

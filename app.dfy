/** The application delegate: the enabled-monitor toggle behind the menu,
    the overlay window's placement and the switch between the fast and the
    slow event throttle. */
module App {
  import opened Wrappers
  import opened Geometry
  import opened Seqs
  import opened Displays
  import opened Defaults
  import opened Registry
  import opened Overlay
  import opened Refresh
  import opened MouseView

  /** What happened to a subscription, in the order it happened. */
  datatype SubscriptionEvent = Cancelled(token: Subscription) | Subscribed(token: Subscription)

  class AppDelegate {
    const defaults: UserDefaults
    const mouseController: MouseViewController
    const fastEventThrottle: Throttle
    const slowEventThrottle: Throttle
    var fastFreqRefresh: bool
    var cancellationToken: Subscription?
    /** The overlay window's frame origin. */
    var windowOrigin: Point
    /** Every subscription made, oldest first. */
    ghost var subscriptions: seq<Subscription>
    /** Every cancellation and subscription, in order. */
    ghost var trace: seq<SubscriptionEvent>

    /** At most one subscription is live: the held one, which is the last made;
        each earlier one was cancelled. */
    ghost predicate SubscriptionsValid()
      reads this, subscriptions
    {
      && (cancellationToken == null <==> subscriptions == [])
      && (cancellationToken != null ==>
            cancellationToken == subscriptions[|subscriptions| - 1] && !cancellationToken.cancelled)
      && (forall i :: 0 <= i < |subscriptions| - 1 ==> subscriptions[i].cancelled)
    }

    /** Running state: exactly one live subscription, and it is to the fast
        throttle exactly when the fast mode flag is set. */
    ghost predicate Valid()
      reads this, subscriptions
    {
      && SubscriptionsValid()
      && cancellationToken != null
      && cancellationToken.throttle == (if fastFreqRefresh then fastEventThrottle else slowEventThrottle)
    }

    /** In a running state the held subscription is the only live one. */
    lemma SingleLiveSubscription()
      requires Valid()
      ensures forall i :: 0 <= i < |subscriptions| && !subscriptions[i].cancelled ==> subscriptions[i] == cancellationToken
    {
    }

    /** Launch: the fast throttle runs at the target rate of the screens
        present, the slow one at 5 Hz; the window starts at the zero origin;
        setting the fast flag subscribes to the fast throttle. */
    constructor (screens: seq<Screen>, defaults: UserDefaults, cursor: Cursor)
      ensures this.defaults == defaults && fresh(mouseController) && fresh(cancellationToken)
      ensures mouseController.currentCursor == cursor && mouseController.currentMonitor == None
      ensures !mouseController.hidden && mouseController.cursorReplacements == 0
      ensures mouseController.enabledMonitors ==
                if defaults.ActiveMonitors().Some? then Elements(defaults.ActiveMonitors().value) else {}
      ensures fastEventThrottle == Throttle(Fast, TargetFPS(screens)) && slowEventThrottle == Throttle(Slow, SlowHz)
      ensures Valid() && fastFreqRefresh
      ensures |subscriptions| == 1 && cancellationToken.throttle == fastEventThrottle
      ensures trace == [Subscribed(cancellationToken)]
      ensures windowOrigin == Point(0.0, 0.0)
    {
      this.defaults := defaults;
      mouseController := new MouseViewController(defaults, cursor);
      fastEventThrottle := Throttle(Fast, TargetFPS(screens));
      slowEventThrottle := Throttle(Slow, SlowHz);
      windowOrigin := Point(0.0, 0.0);
      fastFreqRefresh := false;
      cancellationToken := null;
      subscriptions := [];
      trace := [];
      new;
      SetFastFreqRefresh(true);
    }

    /** The observer of the fast flag: cancels the held subscription, then
        subscribes to the throttle the new value selects. */
    method FastFreqRefreshChanged(newValue: bool)
      requires SubscriptionsValid()
      modifies this, cancellationToken
      ensures SubscriptionsValid() && cancellationToken != null && fresh(cancellationToken)
      ensures cancellationToken.throttle == (if newValue then fastEventThrottle else slowEventThrottle)
      ensures old(cancellationToken) != null ==> old(cancellationToken).cancelled
      ensures subscriptions == old(subscriptions) + [cancellationToken]
      ensures trace == old(trace) + (if old(cancellationToken) != null then [Cancelled(old(cancellationToken))] else [])
                                  + [Subscribed(cancellationToken)]
      ensures fastFreqRefresh == old(fastFreqRefresh) && windowOrigin == old(windowOrigin)
    {
      if cancellationToken != null {
        cancellationToken.Cancel();
        trace := trace + [Cancelled(cancellationToken)];
      }
      var eventThrottle := if newValue then fastEventThrottle else slowEventThrottle;
      cancellationToken := new Subscription(eventThrottle);
      subscriptions := subscriptions + [cancellationToken];
      trace := trace + [Subscribed(cancellationToken)];
    }

    /** Assigning the fast flag; every assignment notifies its observer. */
    method SetFastFreqRefresh(value: bool)
      requires SubscriptionsValid()
      modifies this, cancellationToken
      ensures Valid() && fastFreqRefresh == value && fresh(cancellationToken)
      ensures old(cancellationToken) != null ==> old(cancellationToken).cancelled
      ensures subscriptions == old(subscriptions) + [cancellationToken]
      ensures trace == old(trace) + (if old(cancellationToken) != null then [Cancelled(old(cancellationToken))] else [])
                                  + [Subscribed(cancellationToken)]
      ensures windowOrigin == old(windowOrigin)
    {
      fastFreqRefresh := value;
      FastFreqRefreshChanged(value);
    }

    /** Handles one throttled pointer event: the tracker decides visibility,
        a visible overlay is moved under the pointer, and the throttle mode
        follows visibility, switching only when it differs. */
    method Update(systemCursor: Cursor?, mousePosition: Point, screens: seq<Screen>, arrow: Cursor)
      requires Valid()
      modifies this, mouseController, cancellationToken
      ensures Valid()
      ensures fastFreqRefresh == !mouseController.hidden
      ensures !mouseController.hidden ==> windowOrigin == FrameOrigin(mousePosition, mouseController.currentCursor, arrow)
      ensures mouseController.hidden ==> windowOrigin == old(windowOrigin)
      ensures fastFreqRefresh == old(fastFreqRefresh) ==>
                cancellationToken == old(cancellationToken) && subscriptions == old(subscriptions) && trace == old(trace)
      ensures fastFreqRefresh != old(fastFreqRefresh) ==>
                old(cancellationToken).cancelled && fresh(cancellationToken) &&
                subscriptions == old(subscriptions) + [cancellationToken] &&
                trace == old(trace) + [Cancelled(old(cancellationToken)), Subscribed(cancellationToken)]
      ensures old(mouseController.currentMonitor).Some? && old(mouseController.currentMonitor).value.frame.Contains(mousePosition) ==>
                mouseController.currentMonitor == old(mouseController.currentMonitor) && mouseController.hidden == old(mouseController.hidden)
      ensures old(mouseController.currentMonitor).None? || !old(mouseController.currentMonitor).value.frame.Contains(mousePosition) ==>
                mouseController.currentMonitor == ScreenAt(screens, mousePosition) && mouseController.VisibilityCurrent()
      ensures systemCursor != null && systemCursor != old(mouseController.currentCursor) ==>
                mouseController.currentCursor == systemCursor &&
                mouseController.cursorReplacements == old(mouseController.cursorReplacements) + 1
      ensures systemCursor == null || systemCursor == old(mouseController.currentCursor) ==>
                mouseController.currentCursor == old(mouseController.currentCursor) &&
                mouseController.cursorReplacements == old(mouseController.cursorReplacements)
      ensures mouseController.enabledMonitors == old(mouseController.enabledMonitors)
      ensures old(mouseController.VisibilityCurrent()) ==> mouseController.VisibilityCurrent()
    {
      var cursorVisible := mouseController.Update(systemCursor, mousePosition, screens);
      if cursorVisible {
        windowOrigin := FrameOrigin(mousePosition, mouseController.currentCursor, arrow);
      }
      if fastFreqRefresh != cursorVisible {
        SetFastFreqRefresh(cursorVisible);
      }
    }

    /** Toggles `toUpdate` in the persisted list (an absent list counts as
        empty) and stores the result; storing notifies the tracker. */
    method UpdateEnabledMonitors(toUpdate: DisplayId)
      modifies defaults, mouseController
      ensures defaults.store == old(defaults.store)[EnabledMonitorsKey := DisplayIdList(Toggle(Loaded(old(defaults.ActiveMonitors())), toUpdate))]
      ensures old(defaults.ActiveMonitors()).None? ==> defaults.ActiveMonitors() == Some([toUpdate])
      ensures mouseController.enabledMonitors == Elements(Toggle(Loaded(old(defaults.ActiveMonitors())), toUpdate))
      ensures mouseController.currentMonitor == old(mouseController.currentMonitor)
      ensures mouseController.currentCursor == old(mouseController.currentCursor)
      ensures mouseController.hidden == old(mouseController.hidden)
    {
      var enabledMonitors: seq<DisplayId>;
      var actual := defaults.ActiveMonitors();
      if actual.Some? {
        enabledMonitors := actual.value;
      } else {
        enabledMonitors := [];
      }
      var found := FirstIndexOf(enabledMonitors, toUpdate);
      if found.Some? {
        enabledMonitors := RemoveAt(enabledMonitors, found.value);
      } else {
        enabledMonitors := [toUpdate] + enabledMonitors;
      }
      assert actual.None? ==> enabledMonitors == [toUpdate];
      defaults.SetActiveMonitors(enabledMonitors);
      mouseController.ActiveMonitorsChanged(defaults);
    }

    /** A click on a display's menu entry: toggles it, then recomputes
        visibility at once without moving the monitor. When the pointer is on
        that display and the persisted list had no duplicates, the overlay is
        hidden afterwards exactly when the display had been enabled. */
    method MenuItemClicked(toUpdate: DisplayId)
      modifies defaults, mouseController
      ensures defaults.store == old(defaults.store)[EnabledMonitorsKey := DisplayIdList(Toggle(Loaded(old(defaults.ActiveMonitors())), toUpdate))]
      ensures defaults.ActiveMonitors() == Some(Toggle(Loaded(old(defaults.ActiveMonitors())), toUpdate))
      ensures mouseController.enabledMonitors == Elements(Toggle(Loaded(old(defaults.ActiveMonitors())), toUpdate))
      ensures mouseController.currentMonitor == old(mouseController.currentMonitor)
      ensures mouseController.currentCursor == old(mouseController.currentCursor)
      ensures mouseController.VisibilityCurrent()
      ensures NoDup(Loaded(old(defaults.ActiveMonitors()))) && MonitorId(mouseController.currentMonitor) == toUpdate ==>
                (mouseController.hidden <==> toUpdate in Loaded(old(defaults.ActiveMonitors())))
    {
      ghost var before := Loaded(defaults.ActiveMonitors());
      UpdateEnabledMonitors(toUpdate);
      mouseController.ResetCurrentMonitor(None, []);
      if NoDup(before) {
        ToggleFlipsMembership(before, toUpdate);
      }
    }

    /** The click as the source writes it if the settings store never
        notifies the tracker's observer, which watches the property name
        `activeMonitors` while the list is stored under `enabledMonitors`:
        the list is toggled, but visibility is recomputed against the enabled
        set the tracker read at launch. */
    method MenuItemClickedUnobserved(toUpdate: DisplayId)
      modifies defaults, mouseController
      ensures defaults.store == old(defaults.store)[EnabledMonitorsKey := DisplayIdList(Toggle(Loaded(old(defaults.ActiveMonitors())), toUpdate))]
      ensures mouseController.enabledMonitors == old(mouseController.enabledMonitors)
      ensures mouseController.currentMonitor == old(mouseController.currentMonitor)
      ensures mouseController.currentCursor == old(mouseController.currentCursor)
      ensures mouseController.VisibilityCurrent()
    {
      var enabledMonitors := Toggle(Loaded(defaults.ActiveMonitors()), toUpdate);
      defaults.SetActiveMonitors(enabledMonitors);
      mouseController.ResetCurrentMonitor(None, []);
    }
  }

  /** One display, numbered 7, and nothing persisted yet. */
  function SingleScreen(): Screen {
    Screen(Some(7), Rect(Point(0.0, 0.0), Size(100.0, 100.0)), 60)
  }

  /** With the click as written, enabling the display under the pointer
      leaves the overlay hidden although the display is now stored as enabled. */
  method UnobservedClickKeepsOverlayHidden()
  {
    var defaults := new UserDefaults(map[]);
    var arrow := new Cursor(Size(17.0, 23.0), Point(4.0, 5.0));
    var app := new AppDelegate([SingleScreen()], defaults, arrow);
    app.Update(null, Point(10.0, 10.0), [SingleScreen()], arrow);
    assert app.mouseController.currentMonitor == Some(SingleScreen());
    assert app.mouseController.hidden;
    app.MenuItemClickedUnobserved(7);
    assert Toggle([], 7) == [7];
    assert defaults.ActiveMonitors() == Some([7]);
    assert app.mouseController.hidden;
  }

  /** With the tracker notified, the same click shows the overlay at once. */
  method ObservedClickShowsOverlay()
  {
    var defaults := new UserDefaults(map[]);
    var arrow := new Cursor(Size(17.0, 23.0), Point(4.0, 5.0));
    var app := new AppDelegate([SingleScreen()], defaults, arrow);
    app.Update(null, Point(10.0, 10.0), [SingleScreen()], arrow);
    assert app.mouseController.hidden;
    app.MenuItemClicked(7);
    assert Toggle([], 7) == [7];
    assert defaults.ActiveMonitors() == Some([7]);
    assert !app.mouseController.hidden;
  }
}

/** Refresh-rate selection for the fast throttle, and the throttles and
    subscriptions the mode switch chooses between. */
module Refresh {
  import opened Wrappers
  import opened Displays

  /** The rate used when no display reports a positive refresh rate. */
  const DefaultFPS: int := 60

  /** The fixed rate of the slow throttle, in events per second. */
  const SlowHz: int := 5

  /** The reported refresh rate of each screen, in enumeration order. */
  function RefreshRates(screens: seq<Screen>): (rates: seq<int>)
    ensures |rates| == |screens|
    ensures forall i :: 0 <= i < |screens| ==> rates[i] == screens[i].maximumFramesPerSecond
  {
    if screens == [] then [] else [screens[0].maximumFramesPerSecond] + RefreshRates(screens[1..])
  }

  /** The strictly positive rates, in order. */
  function PositiveRates(rates: seq<int>): (r: seq<int>)
    ensures forall x :: x in r <==> x in rates && x > 0
    ensures |r| <= |rates|
  {
    if rates == [] then []
    else if rates[0] > 0 then [rates[0]] + PositiveRates(rates[1..])
    else PositiveRates(rates[1..])
  }

  /** The largest element, absent for the empty sequence. */
  function Maximum(s: seq<int>): (m: Option<int>)
    ensures m.None? <==> s == []
    ensures m.Some? ==> m.value in s && forall x :: x in s ==> x <= m.value
  {
    if s == [] then None
    else
      assert s == [s[0]] + s[1..];
      match Maximum(s[1..])
      case None => Some(s[0])
      case Some(rest) => Some(if s[0] < rest then rest else s[0])
  }

  /** The target frame rate of the fast throttle: the highest positive rate
      any screen reports, or the default when none reports one. */
  function TargetFPS(screens: seq<Screen>): (fps: int)
    ensures fps > 0
    ensures (forall i :: 0 <= i < |screens| ==> screens[i].maximumFramesPerSecond <= 0) ==> fps == DefaultFPS
    ensures (exists i :: 0 <= i < |screens| && screens[i].maximumFramesPerSecond > 0) ==>
              (exists i :: 0 <= i < |screens| && screens[i].maximumFramesPerSecond == fps) &&
              (forall i :: 0 <= i < |screens| ==> screens[i].maximumFramesPerSecond <= fps)
  {
    var rates := RefreshRates(screens);
    var positive := PositiveRates(rates);
    assert forall i :: 0 <= i < |screens| && screens[i].maximumFramesPerSecond > 0 ==> rates[i] in positive;
    Maximum(positive).GetOr(DefaultFPS)
  }

  /** Which of the two republishers a throttle is. */
  datatype ThrottleKind = Fast | Slow

  /** A rate-limited republisher of the pointer-event stream: the fast or
      the slow one, with its rate in events per second. */
  datatype Throttle = Throttle(kind: ThrottleKind, hz: int)

  /** A subscription to a throttle; it stays live until it is cancelled. */
  class Subscription {
    const throttle: Throttle
    var cancelled: bool

    constructor (throttle: Throttle)
      ensures this.throttle == throttle && !cancelled
    {
      this.throttle := throttle;
      cancelled := false;
    }

    method Cancel()
      modifies this
      ensures cancelled
    {
      cancelled := true;
    }
  }
}

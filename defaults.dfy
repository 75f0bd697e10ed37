/** The settings store and the two accessors through which the core reads
    and writes the persisted list of enabled monitors. */
module Defaults {
  import opened Wrappers
  import opened Displays

  /** The setting name under which the enabled-monitor list is stored. */
  const EnabledMonitorsKey: string := "enabledMonitors"

  /** A stored setting: a list of display identifiers, or a value of some
      other shape (which the typed read rejects). */
  datatype Value = DisplayIdList(ids: seq<DisplayId>) | OtherValue

  /** The user's settings, as a map from setting name to stored value. */
  class UserDefaults {
    var store: map<string, Value>

    constructor (store: map<string, Value>)
      ensures this.store == store
    {
      this.store := store;
    }

    /** The persisted enabled-monitor list; absent when nothing is stored
        under the key or the stored value is not a list of identifiers. */
    function ActiveMonitors(): (r: Option<seq<DisplayId>>)
      reads this
      ensures r.Some? <==> EnabledMonitorsKey in store && store[EnabledMonitorsKey].DisplayIdList?
      ensures r.Some? ==> store[EnabledMonitorsKey] == DisplayIdList(r.value)
    {
      if EnabledMonitorsKey in store && store[EnabledMonitorsKey].DisplayIdList?
      then Some(store[EnabledMonitorsKey].ids)
      else None
    }

    /** Stores the enabled-monitor list; every other setting is kept. */
    method SetActiveMonitors(enabledMonitors: seq<DisplayId>)
      modifies this
      ensures store == old(store)[EnabledMonitorsKey := DisplayIdList(enabledMonitors)]
      ensures ActiveMonitors() == Some(enabledMonitors)
      ensures forall k :: k != EnabledMonitorsKey ==> (k in store <==> k in old(store))
    {
      store := store[EnabledMonitorsKey := DisplayIdList(enabledMonitors)];
    }
  }
}

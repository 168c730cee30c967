/**
 * Store details of one Steam application (`AppDetails`,
 * app/core/manager_class/app_details_class.py): fields read once from the
 * store API's dictionary, saved to and deleted from the local apps table,
 * with an event on the bus for each change the table reports.
 */
module AppCatalog {
  import opened Wrappers
  import opened Text
  import opened EventBus

  /** The dictionary the store API returns for an app, with the keys the class reads. */
  datatype RawDetails = RawDetails(
    steamAppid: Option<int>,
    name: Option<string>,
    headerImage: Option<string>,
    priceOverview: Option<map<string, string>>)

  /** `https://store.steampowered.com/app/{appid}/`. */
  function StoreUrl(appid: int): string
  {
    "https://store.steampowered.com/app/" + IntToString(appid) + "/"
  }

  /** `price_overview.final_formatted`, or `''` when either level is missing. */
  function FinalFormatted(price: Option<map<string, string>>): (r: string)
    ensures price.None? ==> r == ""
    ensures price.Some? && "final_formatted" in price.value ==> r == price.value["final_formatted"]
    ensures price.Some? && "final_formatted" !in price.value ==> r == ""
  {
    match price
    case None => ""
    case Some(m) => if "final_formatted" in m then m["final_formatted"] else ""
  }

  /** What the apps table holds for an appid: the encrypted details, or a row that no longer decrypts. */
  datatype Stored = Readable(raw: RawDetails) | Unreadable

  /** The `apps` table, keyed by appid. */
  class AppStore {
    var rows: map<int, Stored>

    constructor ()
      ensures rows == map[]
    {
      rows := map[];
    }
  }

  /** One app's details: the dictionary, and the fields `__init__` reads from it with their defaults. */
  class AppDetails {
    const raw: RawDetails
    const appid: int := raw.steamAppid.GetOr(0)
    const name: string := raw.name.GetOr("")
    const image: string := raw.headerImage.GetOr("")
    const priceOverview: string := FinalFormatted(raw.priceOverview)
    const storeUrl: string := StoreUrl(appid)

    /** `__init__`. */
    constructor (raw: RawDetails)
      ensures this.raw == raw
    {
      this.raw := raw;
    }

    /** `is_real_app`: the appid is set and not zero. */
    predicate IsRealApp()
    {
      appid != 0
    }

    /**
     * `save`: nothing for an app that is not real; otherwise the row is
     * written, and when the table reports success (`saved`) the bus hears
     * that the app was added.
     */
    method Save(store: AppStore, bus: CallbackManager, saved: bool)
      modifies store, bus
      ensures !IsRealApp() || !saved ==> store.rows == old(store.rows) && bus.submitted == old(bus.submitted)
      ensures IsRealApp() && saved ==> store.rows == old(store.rows)[appid := Readable(raw)]
      ensures IsRealApp() && saved ==>
        bus.submitted == old(bus.submitted) + Triggered(bus.callbacks, Event(AppIdAdded), [Ref(this)], map[])
      ensures bus.callbacks == old(bus.callbacks)
    {
      if !IsRealApp() {
        return;
      }
      if saved {
        store.rows := store.rows[appid := Readable(raw)];
        bus.Trigger(Event(AppIdAdded), [Ref(this)], map[]);
      }
    }

    /**
     * `delete`: nothing for an app that is not real; otherwise the row is
     * removed, and when the table reports success (`deleted`) the bus hears
     * that the app was removed.
     */
    method Delete(store: AppStore, bus: CallbackManager, deleted: bool)
      modifies store, bus
      ensures !IsRealApp() || !deleted ==> store.rows == old(store.rows) && bus.submitted == old(bus.submitted)
      ensures IsRealApp() && deleted ==> store.rows == old(store.rows) - {appid}
      ensures IsRealApp() && deleted ==>
        bus.submitted == old(bus.submitted) + Triggered(bus.callbacks, Event(AppIdRemoved), [Ref(this)], map[])
      ensures bus.callbacks == old(bus.callbacks)
    {
      if !IsRealApp() {
        return;
      }
      if deleted {
        store.rows := store.rows - {appid};
        bus.Trigger(Event(AppIdRemoved), [Ref(this)], map[]);
      }
    }
  }

  /**
   * `AppDetails.load`: `None` when the table has no row for the appid.
   * `decrypt_data` turns a failure into `None` itself, so the `except` that
   * would fall back to `{}` never runs, and `cls(None)` raises
   * `AttributeError` on a row that does not decrypt (`raised`).
   */
  method Load(store: AppStore, appid: int) returns (a: AppDetails?, raised: bool)
    ensures raised <==> appid in store.rows && store.rows[appid].Unreadable?
    ensures appid !in store.rows || raised ==> a == null
    ensures appid in store.rows && store.rows[appid].Readable? ==> a != null && fresh(a) && a.raw == store.rows[appid].raw
  {
    a, raised := null, false;
    if appid !in store.rows {
      return;
    }
    match store.rows[appid] {
      case Readable(raw) =>
        a := new AppDetails(raw);
      case Unreadable =>
        raised := true;
    }
  }

  /** A real app saved with success loads back with the same details. */
  method SaveThenLoad(a: AppDetails, store: AppStore, bus: CallbackManager) returns (b: AppDetails?)
    requires a.IsRealApp()
    modifies store, bus
    ensures b != null && b.raw == a.raw && b.appid == a.appid && b.name == a.name
    ensures b != null && b.image == a.image && b.priceOverview == a.priceOverview && b.storeUrl == a.storeUrl
  {
    a.Save(store, bus, true);
    var raised;
    b, raised := Load(store, a.appid);
  }

  /** Deleting a real app with success leaves nothing to load. */
  method DeleteThenLoad(a: AppDetails, store: AppStore, bus: CallbackManager) returns (b: AppDetails?)
    requires a.IsRealApp()
    modifies store, bus
    ensures b == null
  {
    a.Delete(store, bus, true);
    var raised;
    b, raised := Load(store, a.appid);
  }
}

/**
 * The app-id picker (`AppIDSelector`, app/ui/widgets/widget_app_selector.py):
 * a radio group with one row per saved app plus a "custom" row whose text
 * field accepts an app id or a store URL, and an optional per-widget
 * config setting that remembers the choice.
 */
module AppSelector {
  import opened Wrappers
  import opened Text
  import opened EventBus
  import opened Settings
  import opened AppCatalog

  // ----- reading an app id out of the custom field -----

  /** The marker of `app/(\d+)/`. */
  const Marker := "app/"

  /** The capture of `app/(\d+)/` when a match starts at `i`: the digit run must be non-empty and end at a `/`. */
  function MatchAt(s: string, i: nat): (r: Option<string>)
    requires i <= |s|
    ensures r.Some? ==> IsNumeric(r.value)
  {
    if !OccursAt(s, Marker, i) then None
    else
      var e := DigitRunEnd(s, i + 4);
      if e > i + 4 && e < |s| && s[e] == '/' then Some(s[i + 4..e]) else None
  }

  /**
   * The capture of the match that starts last before `n`. Two matches never
   * overlap (a match holds no `a` after its first character), so the last
   * match `re.findall` reports is the one that starts last.
   */
  function LastMatch(s: string, n: nat): (r: Option<string>)
    requires n <= |s|
    ensures r.Some? ==> IsNumeric(r.value)
  {
    if n == 0 then None
    else match MatchAt(s, n - 1)
      case Some(d) => Some(d)
      case None => LastMatch(s, n - 1)
  }

  /** `input_app_id`: the last captured id, or else the stripped input. */
  function Candidate(s: string): string
  {
    match LastMatch(s, |s|)
    case Some(d) => d
    case None => Strip(s)
  }

  /** What `_on_change_app_ids_input` returns: the candidate when it is all digits, else `''`. */
  function ExtractAppId(s: string): (r: string)
    ensures r == "" || IsNumeric(r)
  {
    if IsNumeric(Candidate(s)) then Candidate(s) else ""
  }

  /** Positions that cannot start a match leave the search to the positions before them. */
  lemma {:induction false} LastMatchSkip(s: string, n: nat, m: nat)
    requires m <= n <= |s|
    requires forall j :: m <= j < n ==> s[j] != 'a'
    ensures LastMatch(s, n) == LastMatch(s, m)
    decreases n
  {
    if n > m {
      assert !OccursAt(s, Marker, n - 1) by {
        if n + 3 <= |s| {
          assert s[n - 1..n + 3][0] != Marker[0];
        }
      }
      LastMatchSkip(s, n - 1, m);
    }
  }

  /** An id typed as plain digits is taken as it is. */
  lemma DigitsAreTheId(d: string)
    requires IsNumeric(d)
    ensures ExtractAppId(d) == d
  {
    LastMatchSkip(d, |d|, 0);
    StripUnchanged(d);
  }

  /** In any text ending with `app/<digits>/`, those digits are the id, whatever comes before. */
  lemma UrlIdIsTheId(pre: string, d: string)
    requires IsNumeric(d)
    ensures ExtractAppId(pre + Marker + d + "/") == d
  {
    var s := pre + Marker + d + "/";
    var p := |pre|;
    assert s[p..p + 4] == Marker;
    assert s == (pre + Marker + d) + "/";
    forall k | p + 4 <= k < p + 4 + |d| ensures IsDigit((pre + Marker + d)[k]) {
      assert (pre + Marker + d)[k] == d[k - p - 4];
    }
    DigitRunOfDigits(pre + Marker + d, "/", p + 4);
    assert s[p + 4..p + 4 + |d|] == d;
    assert MatchAt(s, p) == Some(d);
    forall j | p + 1 <= j < |s| ensures s[j] != 'a' {
      if j < p + 4 {
        assert s[j] == Marker[j - p];
      } else if j < p + 4 + |d| {
        assert s[j] == d[j - p - 4];
      }
    }
    LastMatchSkip(s, |s|, p + 1);
  }

  /** The store page URL of a real app with a positive id gives back that id. */
  lemma StoreUrlIsTheId(appid: nat)
    requires appid > 0
    ensures ExtractAppId(StoreUrl(appid)) == IntToString(appid)
  {
    var pre := "https://store.steampowered.com/";
    assert StoreUrl(appid) == pre + Marker + NatToString(appid) + "/";
    UrlIdIsTheId(pre, NatToString(appid));
  }

  // ----- the selection -----

  /** The name of the widget class, the last part of its config key. */
  const ClassName := "AppIDSelector"

  /** The radio value of the custom row. */
  const Custom := "custom"

  /** `get_select_game` as a value: the custom field's id, the selected app's id, or `''`. */
  function Selection(radio: string, input: string): (r: string)
    ensures radio == Custom ==> r == ExtractAppId(input)
    ensures radio != Custom ==> r == radio
  {
    if radio == Custom then ExtractAppId(input) else radio
  }

  /**
   * `set_select_game` on the radio value and the custom field: without
   * `is_click`, choosing the current value deselects it; otherwise a listed
   * app is selected, `custom` selects the custom row, any other non-empty id
   * goes into the custom field with the custom row selected, and `''` clears.
   */
  function Selected(radio: string, input: string, listed: set<string>, appId: string, isClick: bool): (string, string)
  {
    if !isClick && radio == appId then ("", input)
    else if appId in listed then (appId, input)
    else if appId == Custom then (Custom, input)
    else if appId != "" then (Custom, appId)
    else ("", input)
  }

  /** Selecting a listed app makes it the selection, unless it was already selected and this is not a click. */
  lemma SelectListed(radio: string, input: string, listed: set<string>, appId: string, isClick: bool)
    requires appId in listed && appId != Custom && (isClick || radio != appId)
    ensures var (r, i) := Selected(radio, input, listed, appId, isClick); Selection(r, i) == appId
  {
  }

  /** An id that is not listed goes through the custom field and comes back as the selection. */
  lemma SelectUnlisted(radio: string, input: string, listed: set<string>, appId: string, isClick: bool)
    requires IsNumeric(appId) && appId !in listed && (isClick || radio != appId)
    ensures var (r, i) := Selected(radio, input, listed, appId, isClick); r == Custom && Selection(r, i) == appId
  {
    assert IsDigit(appId[0]) && !IsDigit(Custom[0]);
    DigitsAreTheId(appId);
  }

  /** A second selection of the same app, not by a click, deselects it. */
  lemma SelectTwiceDeselects(radio: string, input: string, listed: set<string>, appId: string)
    requires appId in listed && appId != ""
    ensures var (r1, i1) := Selected(radio, input, listed, appId, true);
      var (r2, i2) := Selected(r1, i1, listed, appId, false);
      r2 == "" && Selection(r2, i2) == ""
  {
  }

  /** `str(value)` for the `set_select_game(app_id=...)` argument, with a falsy value as `''`. */
  function ArgText(v: Value): (r: string)
    ensures v.StrValue? ==> r == v.s
    ensures v.NoneValue? || v == IntValue(0) || v == BoolValue(false) ==> r == ""
  {
    match v
    case NoneValue => ""
    case BoolValue(b) => if b then "True" else ""
    case IntValue(i) => if i == 0 then "" else IntToString(i)
    case StrValue(s) => s
    case Ref(_) => ""
  }

  // ----- the config key -----

  /** The items of `s` from last to first. */
  function Reverse<T>(s: seq<T>): (r: seq<T>)
    ensures |r| == |s| && forall k :: 0 <= k < |s| ==> r[k] == s[|s| - 1 - k]
  {
    if s == [] then [] else [s[|s| - 1]] + Reverse(s[..|s| - 1])
  }

  /**
   * `_get_config_name` for a widget on a page (`mounted`) whose ancestors'
   * class names are `parents`, nearest first: `None` without a page or
   * ancestors, else the names root first and the widget's own, joined by `_`.
   */
  function ConfigNameOf(mounted: bool, parents: seq<string>): (r: Option<string>)
    ensures r.Some? <==> mounted && parents != []
    ensures r.Some? ==> |r.value| > |ClassName|
  {
    if !mounted || parents == [] then None
    else
      JoinAppend(Reverse(parents), "_", ClassName);
      Some(Join(Reverse(parents) + [ClassName], "_"))
  }

  lemma ClassNameHasNoSeparator()
    ensures '_' !in ClassName
  {
  }

  /** With ancestor names free of `_`, no part of the config key holds one. */
  lemma NoSeparatorInParts(parents: seq<string>)
    requires forall k :: 0 <= k < |parents| ==> '_' !in parents[k]
    ensures forall k :: 0 <= k < |parents| + 1 ==> "_"[0] !in (Reverse(parents) + [ClassName])[k]
  {
    var parts := Reverse(parents) + [ClassName];
    assert "_"[0] == '_';
    forall k | 0 <= k < |parts|
      ensures '_' !in parts[k]
    {
      if k < |parents| {
        var j := |parents| - 1 - k;
        assert parts[k] == parents[j] && '_' !in parents[j];
      } else {
        ClassNameHasNoSeparator();
      }
    }
  }

  /** With names free of `_`, the config key splits back into the ancestors, root first, and the class name. */
  lemma ConfigNameParts(parents: seq<string>)
    requires parents != [] && forall k :: 0 <= k < |parents| ==> '_' !in parents[k]
    ensures Split(ConfigNameOf(true, parents).value, "_") == Reverse(parents) + [ClassName]
  {
    var parts := Reverse(parents) + [ClassName];
    NoSeparatorInParts(parents);
    SplitJoin(parts, "_");
  }

  // ----- the widget -----

  class AppIdSelector {
    /** `_dialog_radio_group.value`, `''` when nothing is selected. */
    var radio: string
    /** `_app_ids_input.value`. */
    var input: string
    /** `_app_controls_map`: one row per listed app, keyed by `str(appid)`. */
    var controls: map<string, int>
    /** The app rows below the custom row, by appid. */
    var column: seq<int>
    /** The appid of `_custom_app_details`, once one was loaded. */
    var customApp: Option<int>
    /** The visibility of the load button, the custom logo, name and save button. */
    var loadVisible: bool
    var logoVisible: bool
    var nameVisible: bool
    var saveVisible: bool
    /** `use_config`, whether the widget is on a page, and its ancestors' class names, nearest first. */
    const useConfig: bool
    const mounted: bool
    const parents: seq<string>

    /** Every row is a real app under its own id, so no row is `custom` or `''`. */
    predicate Valid()
      reads this
    {
      forall k :: k in controls ==> controls[k] != 0 && k == IntToString(controls[k])
    }

    constructor (useConfig: bool, mounted: bool, parents: seq<string>)
      ensures Valid() && radio == "" && input == "" && controls == map[] && column == []
      ensures customApp.None? && !loadVisible && !logoVisible && !nameVisible && !saveVisible
      ensures this.useConfig == useConfig && this.mounted == mounted && this.parents == parents
    {
      radio := "";
      input := "";
      controls := map[];
      column := [];
      customApp := None;
      loadVisible, logoVisible, nameVisible, saveVisible := false, false, false, false;
      this.useConfig := useConfig;
      this.mounted := mounted;
      this.parents := parents;
    }

    /** `set_select_game(app_id=appId, is_click=isClick)`. */
    method SetSelectGame(appId: string, isClick: bool)
      modifies this
      ensures (radio, input) == Selected(old(radio), old(input), controls.Keys, appId, isClick)
      ensures controls == old(controls) && column == old(column) && customApp == old(customApp)
      ensures loadVisible == old(loadVisible) && logoVisible == old(logoVisible)
      ensures nameVisible == old(nameVisible) && saveVisible == old(saveVisible)
    {
      if !isClick && radio == appId {
        radio := "";
      } else if appId in controls {
        radio := appId;
      } else if appId == Custom {
        radio := Custom;
      } else if appId != "" {
        radio := Custom;
        input := appId;
      } else {
        radio := "";
      }
    }

    /** `set_select_game(app_id='custom')` while the custom row is not selected: it becomes selected. */
    method SelectCustom()
      requires Valid() && radio != Custom
      modifies this
      ensures radio == Custom && input == old(input)
      ensures controls == old(controls) && column == old(column) && customApp == old(customApp)
      ensures loadVisible == old(loadVisible) && logoVisible == old(logoVisible)
      ensures nameVisible == old(nameVisible) && saveVisible == old(saveVisible)
    {
      assert Custom !in controls by {
        if Custom in controls {
          NotCustom(controls[Custom]);
        }
      }
      SetSelectGame(Custom, false);
    }

    /**
     * `_on_change_app_ids_input`: selects the custom row first when asked,
     * shows the load button for a new numeric id and the logo, name and save
     * button for the id already loaded, and returns the id or `''`.
     */
    method OnChangeInput(setCustom: bool) returns (id: string)
      requires Valid()
      modifies this
      ensures id == ExtractAppId(input)
      ensures setCustom ==> radio == Custom
      ensures !setCustom ==> radio == old(radio)
      ensures input == old(input) && controls == old(controls) && column == old(column) && customApp == old(customApp)
      ensures ShowsFor(input)
    {
      if setCustom && radio != Custom {
        SelectCustom();
      }
      var candidate := Candidate(input);
      var numeric := IsNumeric(candidate);
      var shown := customApp.Some? && IntToString(customApp.value) == candidate;
      ShowControls(!shown && numeric, shown);
      id := if numeric then candidate else "";
    }

    /** Shows the load button as `load` says and the logo, name and save button as `loaded` says. */
    method ShowControls(load: bool, loaded: bool)
      modifies this
      ensures loadVisible == load && logoVisible == loaded && nameVisible == loaded && saveVisible == loaded
      ensures radio == old(radio) && input == old(input) && controls == old(controls)
      ensures column == old(column) && customApp == old(customApp)
    {
      loadVisible := load;
      logoVisible := loaded;
      nameVisible := loaded;
      saveVisible := loaded;
    }

    /**
     * The custom row's controls as `_on_change_app_ids_input` leaves them for
     * the text `text`: the logo, name and save button exactly when the loaded
     * app is the one the text names, the load button for any other numeric id.
     */
    predicate ShowsFor(text: string)
      reads this
    {
      var shown := customApp.Some? && IntToString(customApp.value) == Candidate(text);
      loadVisible == (!shown && IsNumeric(Candidate(text)))
      && logoVisible == shown && nameVisible == shown && saveVisible == shown
    }

    /** `get_select_game`: the id the widget stands for now. */
    method GetSelectGame() returns (id: string)
      requires Valid()
      modifies this
      ensures id == Selection(old(radio), old(input))
      ensures radio == old(radio) && input == old(input)
      ensures controls == old(controls) && column == old(column) && customApp == old(customApp)
      ensures radio == Custom ==> ShowsFor(input)
      ensures radio != Custom ==>
        loadVisible == old(loadVisible) && logoVisible == old(logoVisible)
        && nameVisible == old(nameVisible) && saveVisible == old(saveVisible)
    {
      if radio == Custom {
        id := OnChangeInput(false);
      } else if radio != "" {
        id := radio;
      } else {
        id := "";
      }
    }

    /** `_get_config_name`, walking up from the nearest ancestor. */
    method ConfigName() returns (name: Option<string>)
      ensures name == ConfigNameOf(mounted, parents)
    {
      if !mounted {
        return None;
      }
      var hierarchy: seq<string> := [];
      var i := 0;
      while i < |parents|
        invariant 0 <= i <= |parents|
        invariant hierarchy == Reverse(parents[..i])
      {
        assert parents[..i + 1][..i] == parents[..i];
        hierarchy := [parents[i]] + hierarchy;
        i := i + 1;
      }
      assert parents[..i] == parents;
      if hierarchy == [] {
        return None;
      }
      JoinAppend(hierarchy, "_", ClassName);
      name := Some(Join(hierarchy, "_") + "_" + ClassName);
    }

    /** `get_config_value`: the widget's string setting (declared on first use with default `''`), if it has one. */
    method GetConfigValue(config: Config, store: SettingStore) returns (v: Value)
      requires config.Valid()
      modifies config
      ensures config.Valid()
      ensures var name := ConfigNameOf(mounted, parents);
        (!useConfig || name.None? ==> v == NoneValue && config.properties == old(config.properties))
        && (useConfig && name.Some? ==>
             config.properties == Added(old(config.properties), Property(name.value, StrType, StrValue("")))
             && v == Read(store.settings, config.properties[name.value]))
    {
      if !useConfig {
        return NoneValue;
      }
      var name := ConfigName();
      if name.None? || name.value == "" {
        return NoneValue;
      }
      config.AddProperty(name.value, StrType, StrValue(""));
      v := config.GetProperty(name.value, store);
    }

    /** `set_config_value`: stores the selection in the widget's setting, if it has one. */
    method SetConfigValue(value: string, config: Config, store: SettingStore, bus: CallbackManager)
      requires config.Valid()
      modifies config, store, bus
      ensures config.Valid() && bus.callbacks == old(bus.callbacks)
      ensures var name := ConfigNameOf(mounted, parents);
        (!useConfig || name.None? ==> store.settings == old(store.settings) && config.properties == old(config.properties))
        && (useConfig && name.Some? ==>
             config.properties == Added(old(config.properties), Property(name.value, StrType, StrValue("")))
             && store.settings == Written(old(store.settings), config.properties[name.value], StrValue(value)))
    {
      if !useConfig {
        return;
      }
      var name := ConfigName();
      if name.None? || name.value == "" {
        return;
      }
      config.AddProperty(name.value, StrType, StrValue(""));
      config.SetProperty(name.value, StrValue(value), store, bus);
    }

    /** The widget's saved selection as `get_config_value` reads it, its config key declared. */
    predicate RestoredFrom(name: Option<string>, oldProperties: map<string, Property>, properties: map<string, Property>,
                           settings: map<string, Value>, oldRadio: string, oldInput: string, isClick: bool)
      reads this
    {
      (name.None? ==>
         properties == oldProperties
         && (radio, input) == Selected(oldRadio, oldInput, controls.Keys, ArgText(NoneValue), isClick))
      && (name.Some? ==>
            properties == Added(oldProperties, Property(name.value, StrType, StrValue("")))
            && (radio, input) == Selected(oldRadio, oldInput, controls.Keys, ArgText(Read(settings, properties[name.value])), isClick))
    }

    /** The row part of `_update_app_ids`: one row per real app of `apps`, ordered by appid. */
    method RefreshRows(apps: seq<AppDetails>)
      requires Valid()
      modifies this
      ensures Valid() && controls == Rows(apps)
      ensures Increasing(column) && (forall x :: x in column <==> x in controls.Values)
      ensures radio == old(radio) && input == old(input) && customApp == old(customApp)
      ensures loadVisible == old(loadVisible) && logoVisible == old(logoVisible)
      ensures nameVisible == old(nameVisible) && saveVisible == old(saveVisible)
    {
      var merged := MergeRows(controls, apps);
      var pruned := PruneUnlisted(merged, apps);
      UpdatedRows(controls, apps, pruned);
      controls := pruned;
      column := SortedValues(controls);
    }

    /** The config part of `_update_app_ids`: the saved value, when the widget uses its config, selected again. */
    method RestoreSelection(isClick: bool, config: Config, store: SettingStore)
      requires Valid() && config.Valid()
      modifies this, config
      ensures Valid() && config.Valid()
      ensures controls == old(controls) && column == old(column) && customApp == old(customApp)
      ensures loadVisible == old(loadVisible) && logoVisible == old(logoVisible)
      ensures nameVisible == old(nameVisible) && saveVisible == old(saveVisible)
      ensures !useConfig ==> radio == old(radio) && input == old(input) && config.properties == old(config.properties)
      ensures useConfig ==>
        RestoredFrom(ConfigNameOf(mounted, parents), old(config.properties), config.properties, store.settings,
                     old(radio), old(input), isClick)
    {
      if useConfig {
        var saved := GetConfigValue(config, store);
        SetSelectGame(ArgText(saved), isClick);
      }
    }

    /**
     * `_update_app_ids`: one row per real app of `apps` (the stored list), the
     * rows ordered by appid, then the remembered selection restored when the
     * widget uses its config, then the main button refreshed through
     * `get_select_game`.
     */
    method UpdateAppIds(apps: seq<AppDetails>, isClick: bool, config: Config, store: SettingStore)
      requires Valid() && config.Valid()
      modifies this, config
      ensures Valid() && config.Valid()
      ensures controls == Rows(apps)
      ensures Increasing(column) && (forall x :: x in column <==> x in controls.Values)
      ensures !useConfig ==> radio == old(radio) && input == old(input) && config.properties == old(config.properties)
      ensures useConfig ==>
        RestoredFrom(ConfigNameOf(mounted, parents), old(config.properties), config.properties, store.settings,
                     old(radio), old(input), isClick)
      ensures customApp == old(customApp)
      ensures radio == Custom ==> ShowsFor(input)
      ensures radio != Custom ==>
        loadVisible == old(loadVisible) && logoVisible == old(logoVisible)
        && nameVisible == old(nameVisible) && saveVisible == old(saveVisible)
    {
      RefreshRows(apps);
      RestoreSelection(isClick, config, store);
      var _ := GetSelectGame();
    }
  }

  /** The rows for `apps`: each real app under `str(appid)`, a later app with the same id replacing an earlier. */
  function Rows(apps: seq<AppDetails>): (r: map<string, int>)
    ensures forall k :: k in r ==> r[k] != 0 && k == IntToString(r[k])
  {
    if apps == [] then map[]
    else
      var a := apps[|apps| - 1];
      var earlier := Rows(apps[..|apps| - 1]);
      if a.IsRealApp() then earlier[IntToString(a.appid) := a.appid] else earlier
  }

  /** Some app of the list, real or not, has the id `k` (`any(str(app.appid) == str(k) ...)`). */
  predicate Listed(apps: seq<AppDetails>, k: string)
  {
    exists i :: 0 <= i < |apps| && IntToString(apps[i].appid) == k
  }

  /** A printed number starts with `-` when negative and with a digit otherwise. */
  lemma IdTextStart(i: int)
    ensures |IntToString(i)| > 0
    ensures i < 0 ==> IntToString(i)[0] == '-'
    ensures i >= 0 ==> IsDigit(IntToString(i)[0])
  {
  }

  /** No printed number reads `custom`. */
  lemma NotCustom(i: int)
    ensures IntToString(i) != Custom
  {
    IdTextStart(i);
    assert !IsDigit(Custom[0]) && Custom[0] != '-';
  }

  /** Only `0` prints as `"0"`. */
  lemma ZeroText(i: int)
    requires IntToString(i) == "0"
    ensures i == 0
  {
    IdTextStart(i);
    NatToStringInjective(i, 0);
  }

  /** A row exists for an id exactly when a real app of the list has it. */
  lemma {:induction false} RowsListed(apps: seq<AppDetails>, k: string)
    ensures k in Rows(apps) <==> exists i :: 0 <= i < |apps| && apps[i].IsRealApp() && IntToString(apps[i].appid) == k
  {
    if apps != [] {
      var prev := apps[..|apps| - 1];
      RowsListed(prev, k);
      if exists i :: 0 <= i < |prev| && prev[i].IsRealApp() && IntToString(prev[i].appid) == k {
        var i :| 0 <= i < |prev| && prev[i].IsRealApp() && IntToString(prev[i].appid) == k;
        assert apps[i] == prev[i];
      }
      if exists i :: 0 <= i < |apps| && apps[i].IsRealApp() && IntToString(apps[i].appid) == k {
        var i :| 0 <= i < |apps| && apps[i].IsRealApp() && IntToString(apps[i].appid) == k;
        if i < |prev| {
          assert prev[i] == apps[i];
        }
      }
    }
  }

  /**
   * The dictionary update of `_update_app_ids`: each real app's row goes in
   * under `str(appid)`, replacing a row already there (the source's
   * `appid not in` test compares an `int` with `str` keys, so it never holds back a row).
   */
  method MergeRows(rows: map<string, int>, apps: seq<AppDetails>) returns (r: map<string, int>)
    ensures r == rows + Rows(apps)
  {
    r := rows;
    var i := 0;
    while i < |apps|
      invariant 0 <= i <= |apps|
      invariant r == rows + Rows(apps[..i])
    {
      assert apps[..i + 1][..i] == apps[..i];
      if apps[i].IsRealApp() {
        r := r[IntToString(apps[i].appid) := apps[i].appid];
      }
      i := i + 1;
    }
    assert apps[..i] == apps;
  }

  /** The pruning loop of `_update_app_ids`: a row whose id no app of the list has is deleted. */
  method PruneUnlisted(rows: map<string, int>, apps: seq<AppDetails>) returns (r: map<string, int>)
    ensures forall k :: k in r <==> k in rows && Listed(apps, k)
    ensures forall k :: k in r ==> r[k] == rows[k]
  {
    r := rows;
    var keys := rows.Keys;
    while keys != {}
      invariant keys <= rows.Keys
      invariant forall k :: k in r <==> k in rows && (k in keys || Listed(apps, k))
      invariant forall k :: k in r ==> r[k] == rows[k]
      decreases keys
    {
      var k :| k in keys;
      if !Listed(apps, k) {
        r := r - {k};
      }
      keys := keys - {k};
    }
  }

  /**
   * Merging and pruning leave exactly the rows of the list: an old row that
   * survives is listed by a real app, because a non-real app's id is `"0"`
   * and no row has that key.
   */
  lemma UpdatedRows(before: map<string, int>, apps: seq<AppDetails>, r: map<string, int>)
    requires forall k :: k in before ==> before[k] != 0 && k == IntToString(before[k])
    requires forall k :: k in r <==> k in before + Rows(apps) && Listed(apps, k)
    requires forall k :: k in r ==> r[k] == (before + Rows(apps))[k]
    ensures r == Rows(apps)
  {
    forall k | k in r
      ensures k in Rows(apps)
    {
      var i :| 0 <= i < |apps| && IntToString(apps[i].appid) == k;
      if !apps[i].IsRealApp() {
        assert k == "0";
        if k in before {
          ZeroText(before[k]);
        } else {
          ZeroText(Rows(apps)[k]);
        }
      }
      RowsListed(apps, k);
    }
    forall k | k in Rows(apps)
      ensures k in r
    {
      RowsListed(apps, k);
    }
  }

  /** Strictly increasing. */
  predicate Increasing(s: seq<int>)
  {
    forall i, j :: 0 <= i < j < |s| ==> s[i] < s[j]
  }

  lemma IncreasingAppend(s: seq<int>, m: int)
    requires Increasing(s) && forall i :: 0 <= i < |s| ==> s[i] < m
    ensures Increasing(s + [m])
  {
  }

  /** The least id of a non-empty set. */
  lemma {:induction false} Least(s: set<int>) returns (m: int)
    requires s != {}
    ensures m in s && forall x :: x in s ==> m <= x
    decreases |s|
  {
    if forall x :: x !in s {
      assert false;
    }
    var y :| y in s;
    if s == {y} {
      m := y;
    } else {
      var rest := Least(s - {y});
      m := if y < rest then y else rest;
      forall x | x in s
        ensures m <= x
      {
        if x != y {
          assert x in s - {y};
        }
      }
    }
  }

  /** The rows' appids in increasing order (`sorted(..., key=int(app_id))`). */
  method SortedValues(rows: map<string, int>) returns (column: seq<int>)
    ensures Increasing(column) && forall x :: x in column <==> x in rows.Values
  {
    var rest := rows.Values;
    column := [];
    while rest != {}
      invariant Increasing(column)
      invariant forall x :: x in rows.Values <==> x in column || x in rest
      invariant forall x, y :: x in column && y in rest ==> x < y
      invariant forall x :: x in column ==> x !in rest
      decreases |rest|
    {
      ghost var least := Least(rest);
      var m :| m in rest && forall x :: x in rest ==> m <= x;
      forall i | 0 <= i < |column|
        ensures column[i] < m
      {
        assert column[i] in column;
      }
      IncreasingAppend(column, m);
      column := column + [m];
      rest := rest - {m};
    }
  }

  /** A selection stored through the widget's setting is what the widget reads back. */
  method SaveThenRestore(w: AppIdSelector, value: string, config: Config, store: SettingStore, bus: CallbackManager)
    returns (v: Value)
    requires config.Valid() && w.useConfig && w.mounted && w.parents != []
    requires var name := ConfigNameOf(true, w.parents).value;
      name in config.properties ==> config.properties[name].kind == StrType
    modifies config, store, bus
    ensures v == StrValue(value) && ArgText(v) == value
  {
    w.SetConfigValue(value, config, store, bus);
    var name := ConfigNameOf(true, w.parents).value;
    WriteThenRead(old(store.settings), config.properties[name], StrValue(value));
    v := w.GetConfigValue(config, store);
  }
}

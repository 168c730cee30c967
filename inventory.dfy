/**
 * The inventory of one account and app (`InventoryManager`,
 * app/package/data_collectors/steam_api_utility.py): pages of raw asset and
 * description records, merged page by page, with each description given the
 * assets of its (classid, instanceid) kind.
 */
module Inventory {
  import opened Wrappers
  import opened ItemStack

  /**
   * A raw asset record.  `classid` and `instanceid` are `None` when the key
   * is missing (the source then reads the default 0).
   */
  datatype Asset = Asset(
    assetid: Option<string>,
    id: Option<string>,
    classid: Option<string>,
    instanceid: Option<string>,
    contextid: Option<string>,
    amount: int)

  /**
   * A raw description record; `items` is the slot `parse_inventory` fills in.
   * `empty` marks the record `{}`, which Python treats as false.
   */
  datatype RawDescription = RawDescription(
    empty: bool,
    classid: Option<string>,
    instanceid: Option<string>,
    appid: string,
    name: string,
    nameColor: string,
    marketHashName: string,
    tradable: bool,
    marketable: bool,
    ownerDescriptions: seq<OwnerDescription>,
    items: seq<Asset>)

  /** One page of the inventory endpoint, in either of Steam's two formats. */
  datatype Page = Page(
    success: bool,
    descriptions: seq<RawDescription>,
    rgDescriptions: seq<RawDescription>,
    assets: seq<Asset>,
    rgInventory: seq<Asset>,
    more: bool,
    nextStart: Option<string>)

  /** `items.get('descriptions') or rgDescriptions.values()`. */
  function PageDescriptions(p: Page): seq<RawDescription>
  {
    if p.descriptions != [] then p.descriptions else p.rgDescriptions
  }

  /** `items.get('assets') or rgInventory.values()`. */
  function PageAssets(p: Page): seq<Asset>
  {
    if p.assets != [] then p.assets else p.rgInventory
  }

  /** `assetid or id`. */
  function AssetId(a: Asset): string
  {
    if a.assetid.GetOr("") != "" then a.assetid.GetOr("") else a.id.GetOr("")
  }

  /** `InventoryItem(asset)` placed in a description of app `appid`. */
  function ToUnit(a: Asset, appid: string): Unit
  {
    Unit(AssetId(a), appid, a.contextid.GetOr("2"), a.amount)
  }

  /** The unit list of the descriptor built from a description record. */
  function UnitsOf(d: RawDescription): (us: seq<Unit>)
    ensures |us| == |d.items|
    ensures forall i :: 0 <= i < |us| ==> us[i] == ToUnit(d.items[i], d.appid)
  {
    ToUnits(d.items, d.appid)
  }

  function ToUnits(items: seq<Asset>, appid: string): (us: seq<Unit>)
    ensures |us| == |items|
    ensures forall i :: 0 <= i < |us| ==> us[i] == ToUnit(items[i], appid)
  {
    if items == [] then [] else [ToUnit(items[0], appid)] + ToUnits(items[1..], appid)
  }

  function InfoOf(d: RawDescription): DescriptionInfo
  {
    DescriptionInfo(d.appid, d.classid.GetOr(""), d.instanceid.GetOr(""), d.name, d.nameColor,
                    d.marketHashName, d.tradable, d.marketable, d.ownerDescriptions)
  }

  // ----- grouping assets under descriptions -----

  /** Whether an asset belongs under a description: equal classid and equal instanceid. */
  predicate Belongs(a: Asset, d: RawDescription)
  {
    a.classid == d.classid && a.instanceid == d.instanceid
  }

  /** The assets of a description's kind, in asset order. */
  function Matching(assets: seq<Asset>, d: RawDescription): seq<Asset>
  {
    if assets == [] then []
    else (if Belongs(assets[0], d) then [assets[0]] else []) + Matching(assets[1..], d)
  }

  /** An asset is grouped under a description exactly when it is one of the assets and belongs there. */
  lemma {:induction false} MatchingMembers(assets: seq<Asset>, d: RawDescription, a: Asset)
    ensures a in Matching(assets, d) <==> a in assets && Belongs(a, d)
  {
    if assets != [] {
      MatchingMembers(assets[1..], d, a);
      assert assets == [assets[0]] + assets[1..];
    }
  }

  /** Grouping over two pages of assets lists the first page's units before the second's. */
  lemma {:induction false} MatchingAppend(a: seq<Asset>, b: seq<Asset>, d: RawDescription)
    ensures Matching(a + b, d) == Matching(a, d) + Matching(b, d)
  {
    if a == [] {
      assert a + b == b;
    } else {
      var head := if Belongs(a[0], d) then [a[0]] else [];
      assert (a + b)[0] == a[0] && (a + b)[1..] == a[1..] + b;
      assert Matching(a + b, d) == head + Matching(a[1..] + b, d);
      MatchingAppend(a[1..], b, d);
      assert head + (Matching(a[1..], d) + Matching(b, d)) == (head + Matching(a[1..], d)) + Matching(b, d);
    }
  }

  /** `item['items'] = ...` for one description: skipped when it has no classid. */
  function GroupOne(d: RawDescription, assets: seq<Asset>): RawDescription
  {
    if d.classid.None? then d else d.(items := Matching(assets, d))
  }

  /** The description records after the grouping loop of `parse_inventory`. */
  function Group(ds: seq<RawDescription>, assets: seq<Asset>): (r: seq<RawDescription>)
    ensures |r| == |ds|
    ensures forall i :: 0 <= i < |ds| ==> r[i] == GroupOne(ds[i], assets)
  {
    if ds == [] then [] else [GroupOne(ds[0], assets)] + Group(ds[1..], assets)
  }

  // ----- merging a next page -----

  /** The (classid, instanceid) pair the merge compares, missing keys included. */
  function Key(d: RawDescription): (Option<string>, Option<string>)
  {
    (d.classid, d.instanceid)
  }

  predicate HasKey(ds: seq<RawDescription>, k: (Option<string>, Option<string>))
  {
    exists i :: 0 <= i < |ds| && Key(ds[i]) == k
  }

  /** A present key matches only when the incoming record is not `{}`: the `if des` of the `any` tests the incoming record. */
  predicate KnownKind(ds: seq<RawDescription>, d: RawDescription)
  {
    !d.empty && HasKey(ds, Key(d))
  }

  /**
   * The description loop of `add_next_invent`: a description is appended
   * unless its key is already present; the record `{}` is always appended.
   */
  function MergeDescriptions(ds: seq<RawDescription>, incoming: seq<RawDescription>): seq<RawDescription>
    decreases |incoming|
  {
    if incoming == [] then ds
    else if KnownKind(ds, incoming[0]) then MergeDescriptions(ds, incoming[1..])
    else MergeDescriptions(ds + [incoming[0]], incoming[1..])
  }

  /** The `{}` records of a page, in order. */
  function Empties(ds: seq<RawDescription>): (r: seq<RawDescription>)
    ensures |r| <= |ds|
    ensures forall d :: d in r ==> d.empty && d in ds
  {
    if ds == [] then [] else (if ds[0].empty then [ds[0]] else []) + Empties(ds[1..])
  }

  /** No two non-empty records share a kind. */
  predicate DistinctKeys(ds: seq<RawDescription>)
  {
    forall i, j :: 0 <= i < j < |ds| && !ds[i].empty && !ds[j].empty ==> Key(ds[i]) != Key(ds[j])
  }

  /** A key present in a list stays present when records are appended. */
  lemma HasKeyAppend(ds: seq<RawDescription>, more: seq<RawDescription>, k: (Option<string>, Option<string>))
    requires HasKey(ds, k)
    ensures HasKey(ds + more, k)
  {
    var i :| 0 <= i < |ds| && Key(ds[i]) == k;
    assert Key((ds + more)[i]) == k;
  }

  /** Merging keeps what was there, in place, and only appends. */
  lemma {:induction false} MergePrefix(ds: seq<RawDescription>, incoming: seq<RawDescription>)
    ensures |ds| <= |MergeDescriptions(ds, incoming)|
    ensures MergeDescriptions(ds, incoming)[..|ds|] == ds
    decreases |incoming|
  {
    if incoming != [] {
      if KnownKind(ds, incoming[0]) {
        MergePrefix(ds, incoming[1..]);
      } else {
        MergePrefix(ds + [incoming[0]], incoming[1..]);
        assert (ds + [incoming[0]])[..|ds|] == ds;
      }
    }
  }

  /** After merging, a key is present exactly when it was present before or on the next page. */
  lemma {:induction false} MergeKeys(ds: seq<RawDescription>, incoming: seq<RawDescription>, k: (Option<string>, Option<string>))
    ensures HasKey(MergeDescriptions(ds, incoming), k) <==> HasKey(ds, k) || HasKey(incoming, k)
    decreases |incoming|
  {
    if incoming != [] {
      var rest := incoming[1..];
      assert HasKey(incoming, k) <==> Key(incoming[0]) == k || HasKey(rest, k) by {
        if HasKey(incoming, k) && Key(incoming[0]) != k {
          var i :| 0 <= i < |incoming| && Key(incoming[i]) == k;
          assert Key(rest[i - 1]) == k;
        }
        if HasKey(rest, k) {
          var i :| 0 <= i < |rest| && Key(rest[i]) == k;
          assert Key(incoming[i + 1]) == k;
        }
      }
      if KnownKind(ds, incoming[0]) {
        MergeKeys(ds, rest, k);
      } else {
        var ds' := ds + [incoming[0]];
        MergeKeys(ds', rest, k);
        assert HasKey(ds', k) <==> HasKey(ds, k) || Key(incoming[0]) == k by {
          if HasKey(ds', k) && Key(incoming[0]) != k {
            var i :| 0 <= i < |ds'| && Key(ds'[i]) == k;
            assert i < |ds| && Key(ds[i]) == k;
          }
          if HasKey(ds, k) {
            var i :| 0 <= i < |ds| && Key(ds[i]) == k;
            assert Key(ds'[i]) == k;
          }
          assert Key(ds'[|ds|]) == Key(incoming[0]);
        }
      }
    }
  }

  /** Merging never introduces a second description of one kind. */
  lemma {:induction false} MergeDistinct(ds: seq<RawDescription>, incoming: seq<RawDescription>)
    requires DistinctKeys(ds)
    ensures DistinctKeys(MergeDescriptions(ds, incoming))
    decreases |incoming|
  {
    if incoming != [] {
      if KnownKind(ds, incoming[0]) {
        MergeDistinct(ds, incoming[1..]);
      } else {
        var ds' := ds + [incoming[0]];
        assert DistinctKeys(ds') by {
          forall i, j | 0 <= i < j < |ds'| && !ds'[i].empty && !ds'[j].empty ensures Key(ds'[i]) != Key(ds'[j]) {
            if j == |ds| {
              assert Key(ds[i]) != Key(incoming[0]);
            }
          }
        }
        MergeDistinct(ds', incoming[1..]);
      }
    }
  }

  /** A page whose kinds are all present already adds only its `{}` records. */
  lemma {:induction false} MergeKnown(ds: seq<RawDescription>, incoming: seq<RawDescription>)
    requires forall j :: 0 <= j < |incoming| && !incoming[j].empty ==> HasKey(ds, Key(incoming[j]))
    ensures MergeDescriptions(ds, incoming) == ds + Empties(incoming)
    decreases |incoming|
  {
    if incoming != [] {
      var rest := incoming[1..];
      assert forall j :: 0 <= j < |rest| ==> rest[j] == incoming[j + 1];
      if incoming[0].empty {
        var ds' := ds + [incoming[0]];
        forall j | 0 <= j < |rest| && !rest[j].empty ensures HasKey(ds', Key(rest[j])) {
          HasKeyAppend(ds, [incoming[0]], Key(rest[j]));
        }
        MergeKnown(ds', rest);
        assert Empties(incoming) == [incoming[0]] + Empties(rest);
      } else {
        MergeKnown(ds, rest);
        assert Empties(incoming) == Empties(rest);
      }
    }
  }

  /** Merging the same page a second time only appends its `{}` records again. */
  lemma MergeIdempotent(ds: seq<RawDescription>, incoming: seq<RawDescription>)
    ensures MergeDescriptions(MergeDescriptions(ds, incoming), incoming) == MergeDescriptions(ds, incoming) + Empties(incoming)
    ensures Empties(incoming) == [] ==>
      MergeDescriptions(MergeDescriptions(ds, incoming), incoming) == MergeDescriptions(ds, incoming)
  {
    var m := MergeDescriptions(ds, incoming);
    forall j | 0 <= j < |incoming| && !incoming[j].empty ensures HasKey(m, Key(incoming[j])) {
      MergeKeys(ds, incoming, Key(incoming[j]));
    }
    MergeKnown(m, incoming);
  }

  // ----- the manager -----

  /** What an inventory holds, as values: the description records and the asset records. */
  datatype InventoryData = InventoryData(descriptions: seq<RawDescription>, assets: seq<Asset>)

  /** The inventory built from one page (`InventoryManager(page)`). */
  function Initial(p: Page): InventoryData
  {
    InventoryData(Group(PageDescriptions(p), PageAssets(p)), PageAssets(p))
  }

  /** `base.add_next_invent(next)`: assets concatenated, descriptions merged, grouping redone. */
  function Merged(base: InventoryData, next: InventoryData): InventoryData
  {
    var assets := base.assets + next.assets;
    InventoryData(Group(MergeDescriptions(base.descriptions, next.descriptions), assets), assets)
  }

  class InventoryManager {
    var descriptions: seq<RawDescription>
    var assets: seq<Asset>
    const success: bool
    var inventory: seq<Descriptor>

    function Data(): InventoryData
      reads this
    {
      InventoryData(descriptions, assets)
    }

    /** The descriptors mirror the description records, one fresh object each. */
    ghost predicate Mirrors()
      reads this, inventory
    {
      |inventory| == |descriptions| &&
      forall i :: 0 <= i < |inventory| ==>
        inventory[i].info == InfoOf(descriptions[i]) && inventory[i].units == UnitsOf(descriptions[i])
    }

    constructor (p: Page)
      ensures Data() == Initial(p) && success == p.success
      ensures Mirrors() && forall i :: 0 <= i < |inventory| ==> fresh(inventory[i])
    {
      descriptions := PageDescriptions(p);
      assets := PageAssets(p);
      success := p.success;
      inventory := [];
      new;
      ParseInventory();
    }

    /** `parse_inventory`: fills each description's units, then rebuilds the descriptor list. */
    method ParseInventory()
      modifies this
      ensures descriptions == Group(old(descriptions), old(assets)) && assets == old(assets)
      ensures Mirrors() && forall i :: 0 <= i < |inventory| ==> fresh(inventory[i])
    {
      GroupAssets();
      inventory := BuildDescriptors(descriptions);
    }

    /** The grouping loop of `parse_inventory`. */
    method GroupAssets()
      modifies this`descriptions
      ensures descriptions == Group(old(descriptions), assets)
    {
      var i := 0;
      while i < |descriptions|
        invariant 0 <= i <= |descriptions| == |old(descriptions)|
        invariant forall k :: 0 <= k < i ==> descriptions[k] == GroupOne(old(descriptions)[k], assets)
        invariant forall k :: i <= k < |descriptions| ==> descriptions[k] == old(descriptions)[k]
      {
        var d := descriptions[i];
        if d.classid.Some? {
          descriptions := descriptions[i := d.(items := Matching(assets, d))];
        }
        i := i + 1;
      }
    }

    /** `add_next_invent`: nothing for no manager; otherwise assets appended, new kinds appended, regrouped. */
    method AddNextInvent(next: InventoryManager?)
      modifies this
      ensures next == null ==> Data() == old(Data())
      ensures next != null ==> Data() == Merged(old(Data()), old(next.Data()))
      ensures next != null ==> Mirrors() && forall i :: 0 <= i < |inventory| ==> fresh(inventory[i])
    {
      if next == null {
        return;
      }
      var incoming := next.descriptions;
      assets := assets + next.assets;
      var i := 0;
      while i < |incoming|
        invariant 0 <= i <= |incoming|
        invariant assets == old(assets) + old(next.assets)
        invariant MergeDescriptions(descriptions, incoming[i..]) == MergeDescriptions(old(descriptions), incoming)
      {
        assert incoming[i..][0] == incoming[i] && incoming[i..][1..] == incoming[i + 1..];
        var found := false;
        var j := 0;
        while j < |descriptions| && !found && !incoming[i].empty
          invariant 0 <= j <= |descriptions|
          invariant found ==> KnownKind(descriptions, incoming[i])
          invariant !found ==> forall m :: 0 <= m < j ==> Key(descriptions[m]) != Key(incoming[i])
        {
          if Key(descriptions[j]) == Key(incoming[i]) {
            found := true;
          }
          j := j + 1;
        }
        if !found {
          descriptions := descriptions + [incoming[i]];
        }
        i := i + 1;
      }
      ParseInventory();
    }
  }

  /** `[InventoryItemRgDescriptions(item) for item in descriptions]`. */
  method BuildDescriptors(ds: seq<RawDescription>) returns (built: seq<Descriptor>)
    ensures |built| == |ds|
    ensures forall k :: 0 <= k < |ds| ==> fresh(built[k])
    ensures forall k :: 0 <= k < |ds| ==> built[k].info == InfoOf(ds[k]) && built[k].units == UnitsOf(ds[k])
  {
    built := [];
    var i := 0;
    while i < |ds|
      invariant 0 <= i <= |ds|
      invariant |built| == i
      invariant forall k :: 0 <= k < i ==> fresh(built[k])
      invariant forall k :: 0 <= k < i ==> built[k].info == InfoOf(ds[k]) && built[k].units == UnitsOf(ds[k])
    {
      var d := new Descriptor(InfoOf(ds[i]), UnitsOf(ds[i]));
      built := built + [d];
      i := i + 1;
    }
  }

  /** `get_tradable_inventory`. */
  function Tradable(inv: seq<Descriptor>): (r: seq<Descriptor>)
    ensures forall i :: 0 <= i < |r| ==> r[i] in inv && r[i].info.tradable
    ensures forall i :: 0 <= i < |inv| && inv[i].info.tradable ==> inv[i] in r
  {
    if inv == [] then []
    else (if inv[0].info.tradable then [inv[0]] else []) + Tradable(inv[1..])
  }

  /** `sum(get_amount())` over a list of descriptors. */
  function AmountSum(inv: seq<Descriptor>): int
    reads inv
  {
    if inv == [] then 0 else Amount(inv[0].units) + AmountSum(inv[1..])
  }

  /** `get_amount_items(only_tradable)`. */
  function AmountItems(inv: seq<Descriptor>, onlyTradable: bool): int
    reads inv
  {
    AmountSum(if onlyTradable then Tradable(inv) else inv)
  }

  /** Counting only tradable stacks never gives more than counting all of them, and neither is negative. */
  lemma {:induction false} TradableAmountBound(inv: seq<Descriptor>)
    ensures 0 <= AmountItems(inv, true) <= AmountItems(inv, false)
  {
    if inv != [] {
      TradableAmountBound(inv[1..]);
      var rest := Tradable(inv[1..]);
      if inv[0].info.tradable {
        assert Tradable(inv) == [inv[0]] + rest;
        assert ([inv[0]] + rest)[1..] == rest;
      } else {
        assert Tradable(inv) == rest;
      }
    }
  }

  // ----- following pages -----

  /** The answer to one inventory request: a transport failure, or a decoded page. */
  datatype Response = Failed | Answered(page: Page)

  /** `more_items and last_assetid`: whether the page names a next page. */
  predicate HasNext(p: Page)
  {
    p.more && p.nextStart.Some? && p.nextStart.value != ""
  }

  /**
   * The inventory loaded from the `i`-th response on: `None` when that
   * request fails or is unsuccessful; otherwise its page, merged with the
   * following pages when it names one and they load.  A request past the end
   * of `rs` counts as failed.
   */
  function Chain(rs: seq<Response>, i: nat): Option<InventoryData>
    decreases |rs| - i
  {
    if i >= |rs| || rs[i].Failed? || !rs[i].page.success then None
    else if !HasNext(rs[i].page) then Some(Initial(rs[i].page))
    else match Chain(rs, i + 1)
      case None => Some(Initial(rs[i].page))
      case Some(next) => Some(Merged(Initial(rs[i].page), next))
  }

  /** The pages `i` up to `j` (exclusive) merged in order, each page's own grouping first. */
  function Loaded(rs: seq<Response>, i: nat, j: nat): InventoryData
    requires i < j <= |rs| && forall k :: i <= k < j ==> rs[k].Answered?
    decreases j - i
  {
    if i + 1 == j then Initial(rs[i].page) else Merged(Initial(rs[i].page), Loaded(rs, i + 1, j))
  }

  lemma LoadedStep(rs: seq<Response>, i: nat, j: nat, rest: InventoryData)
    requires i + 1 < j <= |rs| && forall k :: i <= k < j ==> rs[k].Answered?
    requires rest == Loaded(rs, i + 1, j)
    ensures Loaded(rs, i, j) == Merged(Initial(rs[i].page), rest)
  {
  }

  /** One loaded page in front of what the following requests load. */
  lemma ChainStep(rs: seq<Response>, i: nat, rest: Option<InventoryData>)
    requires i < |rs| && rs[i].Answered? && rs[i].page.success
    requires i + 1 < |rs| && rs[i + 1].Answered? && rs[i + 1].page.success ==> Chain(rs, i + 1) == rest
    requires !(i + 1 < |rs| && rs[i + 1].Answered? && rs[i + 1].page.success) ==> rest.None?
    ensures rest.None? || !HasNext(rs[i].page) ==> Chain(rs, i) == Some(Initial(rs[i].page))
    ensures rest.Some? && HasNext(rs[i].page) ==> Chain(rs, i) == Some(Merged(Initial(rs[i].page), rest.value))
  {
  }

  /** A page that names a next one, in front of pages that load, loads with them. */
  lemma LoadedInFront(rs: seq<Response>, i: nat, j: nat)
    requires i + 1 < j <= |rs| && forall k :: i <= k < j ==> rs[k].Answered?
    requires rs[i].page.success && rs[i + 1].page.success && HasNext(rs[i].page)
    requires Chain(rs, i + 1) == Some(Loaded(rs, i + 1, j))
    ensures Chain(rs, i) == Some(Loaded(rs, i, j))
  {
    var rest := Loaded(rs, i + 1, j);
    ChainStep(rs, i, Some(rest));
    LoadedStep(rs, i, j, rest);
  }

  /**
   * A failed continuation keeps the pages loaded before it: when the pages
   * from `i` load and chain on up to the first failure at `j` (a failed or
   * unsuccessful request, or none left), the result is those pages merged.
   */
  lemma {:induction false} ChainKeepsEarlierPages(rs: seq<Response>, i: nat, j: nat)
    requires i < j <= |rs|
    requires forall k :: i <= k < j ==> rs[k].Answered? && rs[k].page.success
    requires forall k :: i <= k < j - 1 ==> HasNext(rs[k].page)
    requires j < |rs| ==> rs[j].Failed? || !rs[j].page.success
    ensures Chain(rs, i) == Some(Loaded(rs, i, j))
    decreases j - i
  {
    if i + 1 < j {
      ChainKeepsEarlierPages(rs, i + 1, j);
      LoadedInFront(rs, i, j);
    } else {
      ChainStep(rs, i, None);
    }
  }

  /** Grouping assets under descriptions keeps their keys, so distinct keys stay distinct. */
  lemma GroupDistinct(ds: seq<RawDescription>, assets: seq<Asset>)
    requires DistinctKeys(ds)
    ensures DistinctKeys(Group(ds, assets))
  {
    var g := Group(ds, assets);
    assert forall k :: 0 <= k < |ds| ==> Key(g[k]) == Key(ds[k]);
  }

  /** Every kind on every loaded page appears once among the loaded descriptions when no page had one twice. */
  lemma {:induction false} ChainDistinct(rs: seq<Response>, i: nat)
    requires forall k :: i <= k < |rs| && rs[k].Answered? ==> DistinctKeys(PageDescriptions(rs[k].page))
    ensures Chain(rs, i).Some? ==> DistinctKeys(Chain(rs, i).value.descriptions)
    decreases |rs| - i
  {
    if Chain(rs, i).Some? {
      var p := rs[i].page;
      GroupDistinct(PageDescriptions(p), PageAssets(p));
      if HasNext(p) && Chain(rs, i + 1).Some? {
        ChainDistinct(rs, i + 1);
        var base := Initial(p);
        var next := Chain(rs, i + 1).value;
        var m := MergeDescriptions(base.descriptions, next.descriptions);
        MergeDistinct(base.descriptions, next.descriptions);
        GroupDistinct(m, base.assets + next.assets);
      }
    }
  }

  /** Loads the inventory from the `i`-th response on, merging later pages into the first. */
  method LoadInventory(rs: seq<Response>, i: nat) returns (inv: InventoryManager?)
    ensures inv == null <==> Chain(rs, i).None?
    ensures inv != null ==> fresh(inv) && inv.Data() == Chain(rs, i).value && inv.Mirrors()
    decreases |rs| - i
  {
    if i >= |rs| || rs[i].Failed? || !rs[i].page.success {
      return null;
    }
    var p := rs[i].page;
    inv := new InventoryManager(p);
    if HasNext(p) {
      var next := LoadInventory(rs, i + 1);
      if next != null {
        inv.AddNextInvent(next);
      }
    }
  }

  /** Which endpoint `get_inventory_items` uses. */
  datatype Endpoint = OwnInventory | PartnerInventory

  /**
   * `get_inventory_items`: nothing without a live session; the account's own
   * endpoint when the requested id is empty or the account's own, else the
   * trade partner endpoint.
   */
  method GetInventoryItems(alive: bool, accountSteamId: string, requested: string, rs: seq<Response>)
    returns (endpoint: Option<Endpoint>, inv: InventoryManager?)
    ensures endpoint.None? <==> !alive
    ensures endpoint == Some(OwnInventory) <==> alive && (requested == "" || requested == accountSteamId)
    ensures !alive ==> inv == null
    ensures alive ==> (inv == null <==> Chain(rs, 0).None?)
    ensures inv != null ==> fresh(inv) && inv.Data() == Chain(rs, 0).value
  {
    if !alive {
      return None, null;
    }
    var id := if requested == "" then accountSteamId else requested;
    endpoint := if id == accountSteamId then Some(OwnInventory) else Some(PartnerInventory);
    inv := LoadInventory(rs, 0);
  }
}

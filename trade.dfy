/**
 * The trade basket (`TradeItemsContent`, app/ui/pages/page_trade.py): the
 * stacks each side puts into a trade, at most one per (classid,
 * instanceid), the trade-offer payload built from them and the per-app
 * summary written into the trade comment.
 */
module Trade {
  import opened Wrappers
  import opened Text
  import opened ItemStack

  // ----- one entry per kind -----

  /** `next(i for i in items if same classid and instanceid)`: the first entry of the item's kind. */
  function FindKind(items: seq<Descriptor>, item: Descriptor): (r: Option<nat>)
    ensures r.Some? ==> r.value < |items| && items[r.value].SameKind(item)
    ensures r.Some? ==> forall j :: 0 <= j < r.value ==> !items[j].SameKind(item)
    ensures r.None? ==> forall j :: 0 <= j < |items| ==> !items[j].SameKind(item)
  {
    if items == [] then None
    else if items[0].SameKind(item) then Some(0)
    else match FindKind(items[1..], item)
      case None => None
      case Some(j) => Some(j + 1)
  }

  /** No two entries share a (classid, instanceid). */
  predicate OneEntryPerKind(items: seq<Descriptor>)
  {
    forall i, j :: 0 <= i < j < |items| ==> !items[i].SameKind(items[j])
  }

  /** Entries of different kinds are different objects. */
  lemma OneEntryDistinct(items: seq<Descriptor>)
    requires OneEntryPerKind(items)
    ensures Distinct(items)
  {
    forall i, j | 0 <= i < j < |items| ensures items[i] != items[j] {
      if items[i] == items[j] {
        assert items[i].SameKind(items[j]);
      }
    }
  }

  /**
   * The side after an item was added to it: merged into the entry of its
   * kind, or appended; `stacks` are the units of the entries.
   */
  predicate AddedTo(before: seq<Descriptor>, stacks: seq<seq<Unit>>, after: seq<Descriptor>, stacks': seq<seq<Unit>>,
                    item: Descriptor, units: seq<Unit>)
    requires |stacks| == |before|
  {
    match FindKind(before, item)
    case None => after == before + [item] && stacks' == stacks + [units]
    case Some(k) => after == before && stacks' == stacks[k := AddUnits(stacks[k], units)]
  }

  /** The sum of the amounts of a side's entries, negative units included. */
  function SideTotal(stacks: seq<seq<Unit>>): int
  {
    if stacks == [] then 0 else Total(stacks[0]) + SideTotal(stacks[1..])
  }

  lemma {:induction false} SideTotalAppend(a: seq<seq<Unit>>, b: seq<seq<Unit>>)
    ensures SideTotal(a + b) == SideTotal(a) + SideTotal(b)
    decreases |a|
  {
    if a == [] {
      assert a + b == b;
    } else {
      assert (a + b)[0] == a[0] && (a + b)[1..] == a[1..] + b;
      SideTotalAppend(a[1..], b);
    }
  }

  lemma {:induction false} SideTotalUpdate(stacks: seq<seq<Unit>>, k: nat, s: seq<Unit>)
    requires k < |stacks|
    ensures SideTotal(stacks[k := s]) == SideTotal(stacks) - Total(stacks[k]) + Total(s)
    decreases |stacks|
  {
    if k > 0 {
      assert stacks[k := s][1..] == stacks[1..][k - 1 := s];
      SideTotalUpdate(stacks[1..], k - 1, s);
    }
  }

  /** Adding an item to a side adds exactly its units' total to the side's total. */
  lemma AddedToConserves(before: seq<Descriptor>, stacks: seq<seq<Unit>>, after: seq<Descriptor>, stacks': seq<seq<Unit>>,
                         item: Descriptor, units: seq<Unit>)
    requires |stacks| == |before| && AddedTo(before, stacks, after, stacks', item, units)
    ensures SideTotal(stacks') == SideTotal(stacks) + Total(units)
    ensures |after| == |stacks'|
  {
    match FindKind(before, item)
    case None =>
      SideTotalAppend(stacks, [units]);
      assert SideTotal([units]) == Total(units) + SideTotal([]);
    case Some(k) =>
      SideTotalUpdate(stacks, k, AddUnits(stacks[k], units));
      AddUnitsTotal(stacks[k], units);
  }

  /** No entry of `a` is an entry of `b`. */
  predicate Apart(a: seq<Descriptor>, b: seq<Descriptor>)
  {
    forall i, j :: 0 <= i < |a| && 0 <= j < |b| ==> a[i] != b[j]
  }

  /**
   * `add_self_item` / `add_partner_item` on one side's list: an item of a
   * kind already present is merged into that entry with `add_items`,
   * otherwise it is appended.  The other side's list and its units stay as
   * they were, and the two lists stay apart.
   */
  method AddToSide(items: seq<Descriptor>, item: Descriptor, other: seq<Descriptor>) returns (items': seq<Descriptor>)
    requires OneEntryPerKind(items) && item !in items && item !in other && Apart(items, other)
    modifies items
    ensures OneEntryPerKind(items') && Apart(items', other)
    ensures AddedTo(items, old(Units(items)), items', Units(items'), item, old(item.units))
    ensures Units(other) == old(Units(other))
  {
    OneEntryDistinct(items);
    ghost var before := Units(items);
    ghost var kept := Units(other);
    match FindKind(items, item) {
      case None =>
        items' := items + [item];
        forall i, j | 0 <= i < j < |items'| ensures !items'[i].SameKind(items'[j]) {
          if j == |items| {
            assert !items[i].SameKind(item);
          }
        }
        UnitsAre(items', before + [item.units]);
        forall i, j | 0 <= i < |items'| && 0 <= j < |other| ensures items'[i] != other[j] {
          if i < |items| {
            assert items'[i] == items[i];
          }
        }
      case Some(k) =>
        var original := items[k];
        assert forall j :: 0 <= j < |other| ==> other[j] != original;
        original.AddItems(item);
        items' := items;
        assert forall j :: 0 <= j < |items| && j != k ==> items[j] != original;
        UnitsAre(items, before[k := original.units]);
        UnitsAre(other, kept);
    }
  }

  /** A steam id as Python compares them; `None` until the side is known. */
  type SteamId = Option<string>

  /** The two lists of a trade basket and who owns them. */
  class TradeItemsContent {
    var selfItems: seq<Descriptor>
    var partnerItems: seq<Descriptor>
    var selfSteamId: SteamId
    var partnerSteamId: SteamId
    /** Whether `callback_remove_item` is set. */
    var hasRemoveCallback: bool
    /** The calls made to `callback_remove_item`, in order. */
    var removedCalls: seq<(SteamId, Descriptor)>

    predicate Valid()
      reads this
    {
      OneEntryPerKind(selfItems) && OneEntryPerKind(partnerItems)
      && Apart(selfItems, partnerItems)
    }

    /** An empty basket with unknown owners and no callback. */
    constructor ()
      ensures Valid()
      ensures selfItems == [] && partnerItems == [] && selfSteamId == None && partnerSteamId == None
      ensures !hasRemoveCallback && removedCalls == []
    {
      selfItems, partnerItems := [], [];
      selfSteamId, partnerSteamId := None, None;
      hasRemoveCallback := false;
      removedCalls := [];
    }

    /** Puts the two lists in place; the owners and the callback stay. */
    method SetSides(mine: seq<Descriptor>, theirs: seq<Descriptor>)
      modifies this
      ensures selfItems == mine && partnerItems == theirs
      ensures Units(selfItems) == old(Units(mine)) && Units(partnerItems) == old(Units(theirs))
      ensures selfSteamId == old(selfSteamId) && partnerSteamId == old(partnerSteamId)
      ensures removedCalls == old(removedCalls) && hasRemoveCallback == old(hasRemoveCallback)
    {
      selfItems, partnerItems := mine, theirs;
    }

    /** `add_self_item`: the item goes to the own side; the partner's side is untouched. */
    method AddSelfItem(item: Descriptor)
      requires Valid() && item !in selfItems && item !in partnerItems
      modifies this, selfItems
      ensures Valid()
      ensures selfSteamId == old(selfSteamId) && partnerSteamId == old(partnerSteamId)
      ensures removedCalls == old(removedCalls) && hasRemoveCallback == old(hasRemoveCallback)
      ensures partnerItems == old(partnerItems) && Units(partnerItems) == old(Units(partnerItems))
      ensures AddedTo(old(selfItems), old(Units(selfItems)), selfItems, Units(selfItems), item, old(item.units))
    {
      var side := AddToSide(selfItems, item, partnerItems);
      SetSides(side, partnerItems);
    }

    /** `add_partner_item`: the item goes to the partner's side; the own side is untouched. */
    method AddPartnerItem(item: Descriptor)
      requires Valid() && item !in selfItems && item !in partnerItems
      modifies this, partnerItems
      ensures Valid()
      ensures selfSteamId == old(selfSteamId) && partnerSteamId == old(partnerSteamId)
      ensures removedCalls == old(removedCalls) && hasRemoveCallback == old(hasRemoveCallback)
      ensures selfItems == old(selfItems) && Units(selfItems) == old(Units(selfItems))
      ensures AddedTo(old(partnerItems), old(Units(partnerItems)), partnerItems, Units(partnerItems), item, old(item.units))
    {
      var side := AddToSide(partnerItems, item, selfItems);
      SetSides(selfItems, side);
    }

    /**
     * `add_item`: an item for neither owner, or one holding nothing, is
     * ignored; otherwise it goes to the owner's side (the own side when both
     * ids are equal), merged into the entry of its kind or appended.
     */
    method AddItem(steamId: SteamId, item: Descriptor)
      requires Valid() && item !in selfItems && item !in partnerItems
      modifies this, selfItems, partnerItems
      ensures Valid()
      ensures selfSteamId == old(selfSteamId) && partnerSteamId == old(partnerSteamId)
      ensures removedCalls == old(removedCalls) && hasRemoveCallback == old(hasRemoveCallback)
      ensures (steamId != selfSteamId && steamId != partnerSteamId) || Amount(old(item.units)) == 0 ==>
        selfItems == old(selfItems) && partnerItems == old(partnerItems)
        && Units(selfItems) == old(Units(selfItems)) && Units(partnerItems) == old(Units(partnerItems))
      ensures steamId == selfSteamId && Amount(old(item.units)) > 0 ==>
        partnerItems == old(partnerItems) && Units(partnerItems) == old(Units(partnerItems))
        && AddedTo(old(selfItems), old(Units(selfItems)), selfItems, Units(selfItems), item, old(item.units))
      ensures steamId != selfSteamId && steamId == partnerSteamId && Amount(old(item.units)) > 0 ==>
        selfItems == old(selfItems) && Units(selfItems) == old(Units(selfItems))
        && AddedTo(old(partnerItems), old(Units(partnerItems)), partnerItems, Units(partnerItems), item, old(item.units))
    {
      if steamId != selfSteamId && steamId != partnerSteamId {
        return;
      }
      if Amount(item.units) <= 0 {
        return;
      }
      if steamId == selfSteamId {
        AddSelfItem(item);
      } else {
        AddPartnerItem(item);
      }
    }

    /**
     * `on_click_button_remove_item`: for a known owner the entry of the
     * item's kind leaves that owner's list (the own list when both ids are
     * equal), and `callback_remove_item`, when set, is called with the owner
     * and the item even if no entry was found.  An unknown owner is ignored.
     */
    method RemoveItem(owner: SteamId, item: Descriptor)
      requires Valid()
      modifies this
      ensures Valid()
      ensures selfSteamId == old(selfSteamId) && partnerSteamId == old(partnerSteamId)
      ensures hasRemoveCallback == old(hasRemoveCallback)
      ensures owner != selfSteamId && owner != partnerSteamId ==>
        selfItems == old(selfItems) && partnerItems == old(partnerItems) && removedCalls == old(removedCalls)
      ensures owner == selfSteamId ==>
        selfItems == Without(old(selfItems), item) && partnerItems == old(partnerItems)
      ensures owner != selfSteamId && owner == partnerSteamId ==>
        partnerItems == Without(old(partnerItems), item) && selfItems == old(selfItems)
      ensures owner == selfSteamId || owner == partnerSteamId ==>
        removedCalls == old(removedCalls) + (if hasRemoveCallback then [(owner, item)] else [])
    {
      if owner != selfSteamId && owner != partnerSteamId {
        return;
      }
      if owner == selfSteamId {
        WithoutKeepsOneEntry(selfItems, item);
        selfItems := Without(selfItems, item);
      } else {
        WithoutKeepsOneEntry(partnerItems, item);
        partnerItems := Without(partnerItems, item);
      }
      if hasRemoveCallback {
        removedCalls := removedCalls + [(owner, item)];
      }
    }

    /** `create_trade_data`: the payload of both sides, or `None` when neither offers anything. */
    method CreateTradeData() returns (r: Option<TradeOffer>)
      ensures r == TradeData(Units(selfItems), Units(partnerItems))
    {
      var mine := CollectAssets(selfItems);
      var theirs := CollectAssets(partnerItems);
      if mine == [] && theirs == [] {
        return None;
      }
      r := Some(TradeOffer(mine, theirs));
    }

    /** `create_comment_trade`: both ids and both per-app summaries in the comment's fixed layout. */
    method CreateCommentTrade() returns (comment: string)
      ensures comment == Comment(selfSteamId, partnerSteamId,
        FormatText(AppCounts(Entries(selfItems))), FormatText(AppCounts(Entries(partnerItems))))
    {
      var mine := FormatItems(selfItems);
      var theirs := FormatItems(partnerItems);
      comment := Comment(selfSteamId, partnerSteamId, mine, theirs);
    }

    /** `clear_items`: both lists emptied, so there is nothing left to offer; the owners and the callback stay. */
    method ClearItems()
      modifies this
      ensures Valid() && selfItems == [] && partnerItems == []
      ensures TradeData(Units(selfItems), Units(partnerItems)).None?
      ensures selfSteamId == old(selfSteamId) && partnerSteamId == old(partnerSteamId)
      ensures removedCalls == old(removedCalls) && hasRemoveCallback == old(hasRemoveCallback)
    {
      selfItems, partnerItems := [], [];
      TradeDataNone([], []);
    }
  }

  /** The side's list without the entry of the item's kind (`items.remove(original_item)`). */
  function Without(items: seq<Descriptor>, item: Descriptor): (r: seq<Descriptor>)
    ensures |r| <= |items|
  {
    match FindKind(items, item)
    case None => items
    case Some(k) => items[..k] + items[k + 1..]
  }

  /** Removing keeps one entry per kind, drops every entry of the item's kind and keeps all the others. */
  lemma WithoutKeepsOneEntry(items: seq<Descriptor>, item: Descriptor)
    requires OneEntryPerKind(items)
    ensures OneEntryPerKind(Without(items, item))
    ensures forall d :: d in Without(items, item) ==> d in items && !d.SameKind(item)
    ensures forall d :: d in items && !d.SameKind(item) ==> d in Without(items, item)
  {
    match FindKind(items, item)
    case None =>
    case Some(k) =>
      var r := items[..k] + items[k + 1..];
      assert forall i :: 0 <= i < |r| ==> r[i] == (if i < k then items[i] else items[i + 1]);
      forall d | d in r ensures !d.SameKind(item) {
        var i :| 0 <= i < |r| && r[i] == d;
        if i >= k {
          assert !items[k].SameKind(items[i + 1]);
        }
      }
      forall d | d in items && !d.SameKind(item) ensures d in r {
        var i :| 0 <= i < |items| && items[i] == d;
        assert i != k;
        if i < k {
          assert r[i] == d;
        } else {
          assert r[i - 1] == d;
        }
      }
  }

  // ----- the trade payload -----

  /** One asset of the offer; the amount is printed as a decimal string. */
  datatype AssetRecord = AssetRecord(appid: string, contextid: string, amount: string, assetid: string)

  /**
   * The offer: the `me` and `them` asset lists (the payload's fixed parts,
   * `newversion`, `version` 4, empty `currency`, `ready` false, are constant).
   */
  datatype TradeOffer = TradeOffer(me: seq<AssetRecord>, them: seq<AssetRecord>)

  /** The records of one stack: one per unit with a positive amount. */
  function Records(us: seq<Unit>): (r: seq<AssetRecord>)
    ensures |r| <= |us|
    ensures forall i :: 0 <= i < |r| ==> IsNumeric(r[i].amount)
  {
    if us == [] then []
    else
      (if us[0].amount > 0 then [AssetRecord(us[0].appid, us[0].contextid, NatToString(us[0].amount), us[0].assetid)] else [])
      + Records(us[1..])
  }

  /** The records of one side: those of every stack whose amount is positive, stack by stack. */
  function SideAssets(stacks: seq<seq<Unit>>): (r: seq<AssetRecord>)
    ensures forall i :: 0 <= i < |r| ==> IsNumeric(r[i].amount)
  {
    if stacks == [] then []
    else
      var last := stacks[|stacks| - 1];
      SideAssets(stacks[..|stacks| - 1]) + (if Amount(last) > 0 then Records(last) else [])
  }

  /** The payload for both sides' stacks; `None` when both lists of records are empty. */
  function TradeData(mine: seq<seq<Unit>>, theirs: seq<seq<Unit>>): Option<TradeOffer>
  {
    var me, them := SideAssets(mine), SideAssets(theirs);
    if me == [] && them == [] then None else Some(TradeOffer(me, them))
  }

  /** The loop of `create_trade_data` over one side's list. */
  method CollectAssets(items: seq<Descriptor>) returns (assets: seq<AssetRecord>)
    ensures assets == SideAssets(Units(items))
  {
    ghost var stacks := Units(items);
    assets := [];
    var i := 0;
    while i < |items|
      invariant 0 <= i <= |items|
      invariant assets == SideAssets(stacks[..i])
    {
      assert stacks[..i + 1][..i] == stacks[..i];
      var us := items[i].units;
      if Amount(us) > 0 {
        assets := assets + Records(us);
      }
      i := i + 1;
    }
    assert stacks[..i] == stacks;
  }

  /** The amounts of the records, read back as numbers and summed. */
  function ParsedSum(rs: seq<AssetRecord>): nat
    requires forall i :: 0 <= i < |rs| ==> IsNumeric(rs[i].amount)
  {
    if rs == [] then 0
    else
      assert IsNumeric(rs[0].amount);
      DigitsValue(rs[0].amount) + ParsedSum(rs[1..])
  }

  lemma {:induction false} ParsedSumAppend(a: seq<AssetRecord>, b: seq<AssetRecord>)
    requires forall i :: 0 <= i < |a| ==> IsNumeric(a[i].amount)
    requires forall i :: 0 <= i < |b| ==> IsNumeric(b[i].amount)
    ensures ParsedSum(a + b) == ParsedSum(a) + ParsedSum(b)
    decreases |a|
  {
    if a == [] {
      assert a + b == b;
    } else {
      assert (a + b)[0] == a[0] && (a + b)[1..] == a[1..] + b;
      ParsedSumAppend(a[1..], b);
    }
  }

  /** A stack's records carry exactly its positive amounts, each one positive. */
  lemma {:induction false} RecordsCarry(us: seq<Unit>)
    ensures ParsedSum(Records(us)) == PositiveTotal(us)
    ensures forall i :: 0 <= i < |Records(us)| ==> DigitsValue(Records(us)[i].amount) > 0
    ensures Records(us) == [] <==> PositiveTotal(us) == 0
  {
    if us != [] {
      RecordsCarry(us[1..]);
      var head := if us[0].amount > 0 then [AssetRecord(us[0].appid, us[0].contextid, NatToString(us[0].amount), us[0].assetid)] else [];
      ParsedSumAppend(head, Records(us[1..]));
      if us[0].amount > 0 {
        NatToStringRoundTrip(us[0].amount);
      }
      assert Records(us) == head + Records(us[1..]);
    }
  }

  /** What a side offers: the positive amounts of its stacks whose own amount is positive. */
  function OfferedTotal(stacks: seq<seq<Unit>>): nat
  {
    if stacks == [] then 0
    else
      var last := stacks[|stacks| - 1];
      OfferedTotal(stacks[..|stacks| - 1]) + (if Amount(last) > 0 then PositiveTotal(last) else 0)
  }

  /** The records of a side add up to what it offers. */
  lemma {:induction false} SideAssetsSum(stacks: seq<seq<Unit>>)
    ensures ParsedSum(SideAssets(stacks)) == OfferedTotal(stacks)
  {
    if stacks != [] {
      var init, last := stacks[..|stacks| - 1], stacks[|stacks| - 1];
      SideAssetsSum(init);
      RecordsCarry(last);
      var tail := if Amount(last) > 0 then Records(last) else [];
      assert SideAssets(stacks) == SideAssets(init) + tail;
      ParsedSumAppend(SideAssets(init), tail);
    }
  }

  /** A side has no records exactly when all its stacks are empty. */
  lemma {:induction false} SideAssetsEmpty(stacks: seq<seq<Unit>>)
    ensures SideAssets(stacks) == [] <==> forall i :: 0 <= i < |stacks| ==> Amount(stacks[i]) == 0
  {
    if stacks != [] {
      var init, last := stacks[..|stacks| - 1], stacks[|stacks| - 1];
      SideAssetsEmpty(init);
      var tail := if Amount(last) > 0 then Records(last) else [];
      assert tail == [] <==> Amount(last) == 0 by {
        RecordsCarry(last);
        TotalBelowPositive(last);
      }
      assert SideAssets(stacks) == SideAssets(init) + tail;
      assert forall i :: 0 <= i < |init| ==> init[i] == stacks[i];
      assert stacks == init + [last];
    }
  }



  /** `create_trade_data` gives `None` exactly when no stack on either side holds anything. */
  lemma TradeDataNone(mine: seq<seq<Unit>>, theirs: seq<seq<Unit>>)
    ensures TradeData(mine, theirs).None? <==>
      (forall i :: 0 <= i < |mine| ==> Amount(mine[i]) == 0) && (forall i :: 0 <= i < |theirs| ==> Amount(theirs[i]) == 0)
    ensures TradeData(mine, theirs).Some? ==>
      ParsedSum(TradeData(mine, theirs).value.me) == OfferedTotal(mine)
      && ParsedSum(TradeData(mine, theirs).value.them) == OfferedTotal(theirs)
  {
    SideAssetsSum(mine);
    SideAssetsSum(theirs);
    SideAssetsEmpty(mine);
    SideAssetsEmpty(theirs);
  }

  // ----- the trade comment -----

  /** One app's line of the summary. */
  datatype AppCount = AppCount(appid: string, count: nat)

  predicate DistinctApps(d: seq<AppCount>)
  {
    forall i, j :: 0 <= i < j < |d| ==> d[i].appid != d[j].appid
  }

  function FindApp(d: seq<AppCount>, app: string): (r: Option<nat>)
    ensures r.Some? ==> r.value < |d| && d[r.value].appid == app
    ensures r.None? ==> forall j :: 0 <= j < |d| ==> d[j].appid != app
  {
    if d == [] then None
    else if d[0].appid == app then Some(0)
    else match FindApp(d[1..], app)
      case None => None
      case Some(j) => Some(j + 1)
  }

  /** `items_dict[app_id] = items_dict.get(app_id, 0) + amount`: a new key goes last. */
  function AddCount(d: seq<AppCount>, app: string, amount: nat): seq<AppCount>
  {
    match FindApp(d, app)
    case None => d + [AppCount(app, amount)]
    case Some(k) => d[k := AppCount(app, d[k].count + amount)]
  }

  /** `items_dict.get(app, 0)`. */
  function Lookup(d: seq<AppCount>, app: string): nat
  {
    match FindApp(d, app)
    case None => 0
    case Some(k) => d[k].count
  }

  /** `sum(items_dict.values())`. */
  function SumCounts(d: seq<AppCount>): nat
  {
    if d == [] then 0 else d[0].count + SumCounts(d[1..])
  }

  /** Each stack's app id and amount, in list order. */
  function Entries(items: seq<Descriptor>): (r: seq<(string, nat)>)
    reads items
    ensures |r| == |items| && forall i :: 0 <= i < |items| ==> r[i] == (items[i].info.appid, Amount(items[i].units))
  {
    if items == [] then [] else [(items[0].info.appid, Amount(items[0].units))] + Entries(items[1..])
  }

  /** The dictionary `format_items` builds: positive amounts summed per app, apps in first-seen order. */
  function AppCounts(entries: seq<(string, nat)>): seq<AppCount>
  {
    if entries == [] then []
    else
      var d := AppCounts(entries[..|entries| - 1]);
      var e := entries[|entries| - 1];
      if e.1 <= 0 then d else AddCount(d, e.0, e.1)
  }

  /** The amounts the entries carry for one app. */
  function AppSum(entries: seq<(string, nat)>, app: string): nat
  {
    if entries == [] then 0
    else
      var e := entries[|entries| - 1];
      AppSum(entries[..|entries| - 1], app) + (if e.0 == app then e.1 else 0)
  }

  /** The amounts of all entries. */
  function AllSum(entries: seq<(string, nat)>): nat
  {
    if entries == [] then 0 else AllSum(entries[..|entries| - 1]) + entries[|entries| - 1].1
  }

  lemma {:induction false} SumCountsUpdate(d: seq<AppCount>, k: nat, c: AppCount)
    requires k < |d|
    ensures SumCounts(d[k := c]) == SumCounts(d) - d[k].count + c.count
    decreases |d|
  {
    if k > 0 {
      assert d[k := c][1..] == d[1..][k - 1 := c];
      SumCountsUpdate(d[1..], k - 1, c);
    }
  }

  lemma {:induction false} SumCountsAppend(d: seq<AppCount>, c: AppCount)
    ensures SumCounts(d + [c]) == SumCounts(d) + c.count
    decreases |d|
  {
    if d == [] {
      assert d + [c] == [c];
    } else {
      assert (d + [c])[1..] == d[1..] + [c];
      SumCountsAppend(d[1..], c);
    }
  }

  /** Adding to the dictionary keeps its keys distinct, adds to one key only and to the grand total. */
  lemma AddCountFacts(d: seq<AppCount>, app: string, amount: nat)
    requires DistinctApps(d)
    ensures DistinctApps(AddCount(d, app, amount))
    ensures forall x :: Lookup(AddCount(d, app, amount), x) == Lookup(d, x) + (if x == app then amount else 0)
    ensures SumCounts(AddCount(d, app, amount)) == SumCounts(d) + amount
  {
    var r := AddCount(d, app, amount);
    match FindApp(d, app)
    case None =>
      SumCountsAppend(d, AppCount(app, amount));
      forall x ensures Lookup(r, x) == Lookup(d, x) + (if x == app then amount else 0) {
        FindAppAppend(d, AppCount(app, amount), x);
      }
    case Some(k) =>
      SumCountsUpdate(d, k, AppCount(app, d[k].count + amount));
      forall x ensures Lookup(r, x) == Lookup(d, x) + (if x == app then amount else 0) {
        FindAppFirst(d, x);
        FindAppFirst(r, x);
      }
  }

  lemma FindAppAppend(d: seq<AppCount>, c: AppCount, x: string)
    requires FindApp(d, c.appid).None?
    ensures Lookup(d + [c], x) == Lookup(d, x) + (if x == c.appid then c.count else 0)
  {
    FindAppSnoc(d, c, x);
  }

  /** Looking up in a list with one more entry at the end. */
  lemma {:induction false} FindAppSnoc(d: seq<AppCount>, c: AppCount, x: string)
    ensures FindApp(d + [c], x) ==
      if FindApp(d, x).Some? then FindApp(d, x) else if c.appid == x then Some(|d|) else None
    decreases |d|
  {
    if d == [] {
      assert d + [c] == [c];
    } else {
      assert (d + [c])[0] == d[0] && (d + [c])[1..] == d[1..] + [c];
      FindAppSnoc(d[1..], c, x);
    }
  }

  /** `FindApp` finds the first entry of the app. */
  lemma {:induction false} FindAppFirst(d: seq<AppCount>, x: string)
    ensures FindApp(d, x).Some? ==> forall j :: 0 <= j < FindApp(d, x).value ==> d[j].appid != x
    ensures forall k :: 0 <= k < |d| && d[k].appid == x && (forall j :: 0 <= j < k ==> d[j].appid != x) ==> FindApp(d, x) == Some(k)
    decreases |d|
  {
    if d != [] && d[0].appid != x {
      FindAppFirst(d[1..], x);
      forall k | 0 <= k < |d| && d[k].appid == x && (forall j :: 0 <= j < k ==> d[j].appid != x)
        ensures FindApp(d, x) == Some(k)
      {
        assert d[1..][k - 1] == d[k];
        assert forall j :: 0 <= j < k - 1 ==> d[1..][j] == d[j + 1];
      }
    }
  }

  /** The dictionary holds each app once, with the sum of that app's positive amounts, and the grand total. */
  lemma {:induction false} AppCountsSums(entries: seq<(string, nat)>)
    ensures DistinctApps(AppCounts(entries))
    ensures forall x :: Lookup(AppCounts(entries), x) == AppSum(entries, x)
    ensures SumCounts(AppCounts(entries)) == AllSum(entries)
  {
    if entries != [] {
      var init := entries[..|entries| - 1];
      var e := entries[|entries| - 1];
      AppCountsSums(init);
      if e.1 > 0 {
        AddCountFacts(AppCounts(init), e.0, e.1);
      }
    }
  }

  /** The dictionary is empty exactly when no entry carries anything. */
  lemma {:induction false} AppCountsEmpty(entries: seq<(string, nat)>)
    ensures AppCounts(entries) == [] <==> forall i :: 0 <= i < |entries| ==> entries[i].1 == 0
  {
    if entries != [] {
      var init := entries[..|entries| - 1];
      var e := entries[|entries| - 1];
      AppCountsEmpty(init);
      if e.1 > 0 {
        match FindApp(AppCounts(init), e.0)
        case None =>
        case Some(k) =>
      }
      assert forall i :: 0 <= i < |init| ==> init[i] == entries[i];
    }
  }

  /** The summary text: "No items." for an empty dictionary, else the total and one line per app. */
  function FormatText(d: seq<AppCount>): string
  {
    if d == [] then "No items."
    else NatToString(SumCounts(d)) + " pcs.\n" + Join(AppLines(d), "\n")
  }

  function AppLines(d: seq<AppCount>): (r: seq<string>)
    ensures |r| == |d|
  {
    if d == [] then [] else ["- AppID " + d[0].appid + ": " + NatToString(d[0].count) + " pcs."] + AppLines(d[1..])
  }

  /** `format_items` answers "No items." exactly when no stack holds anything. */
  lemma FormatNoItems(entries: seq<(string, nat)>)
    ensures FormatText(AppCounts(entries)) == "No items." <==> forall i :: 0 <= i < |entries| ==> entries[i].1 == 0
  {
    AppCountsEmpty(entries);
    var d := AppCounts(entries);
    if d != [] {
      var t := FormatText(d);
      assert t[0] == NatToString(SumCounts(d))[0];
      assert IsDigit(t[0]);
    }
  }

  /** `format_items`: the dictionary loop over one side's list. */
  method FormatItems(items: seq<Descriptor>) returns (text: string)
    ensures text == FormatText(AppCounts(Entries(items)))
  {
    ghost var entries := Entries(items);
    var counts: seq<AppCount> := [];
    var i := 0;
    while i < |items|
      invariant 0 <= i <= |items|
      invariant counts == AppCounts(entries[..i])
    {
      assert entries[..i + 1][..i] == entries[..i];
      var amount := Amount(items[i].units);
      if amount > 0 {
        counts := AddCount(counts, items[i].info.appid, amount);
      }
      i := i + 1;
    }
    assert entries[..i] == entries;
    text := FormatText(counts);
  }

  /** `f"{x}"` of an optional id: "None" when unknown. */
  function IdText(id: SteamId): string
  {
    if id.None? then "None" else id.value
  }

  /** The comment of `create_comment_trade` around the two summaries. */
  function Comment(selfId: SteamId, partnerId: SteamId, mine: string, theirs: string): (r: string)
    ensures StartsWith(r, "My Items (SteamID: ")
  {
    var r := "My Items (SteamID: " + IdText(selfId) + ")\n"
      + "Total: " + mine + "\n\n"
      + "Your Items (SteamID: " + IdText(partnerId) + ")\n"
      + "Total: " + theirs + "\n\n"
      + "Please review all items carefully before confirming the trade.";
    assert r[..19] == "My Items (SteamID: ";
    r
  }

  // ----- the trade URL -----

  /** Steam's offset between a 32-bit account id and a 64-bit steam id. */
  const SteamId64Base: nat := 76561197960265728

  /** Whether `partner=` followed by a digit starts at `i`: where `partner=[0-9]+` can match. */
  predicate PartnerAt(s: string, i: nat)
  {
    OccursAt(s, "partner=", i) && i + 8 < |s| && IsDigit(s[i + 8])
  }

  /** The number of the leftmost `partner=[0-9]+` match at or after `i`, its digits taken greedily. */
  function PartnerFrom(s: string, i: nat): (r: Option<nat>)
    requires i <= |s|
    ensures r.None? ==> forall j :: i <= j <= |s| ==> !PartnerAt(s, j)
    decreases |s| - i
  {
    if PartnerAt(s, i) then Some(DigitsValue(s[i + 8..DigitRunEnd(s, i + 8)]))
    else if i == |s| then None
    else PartnerFrom(s, i + 1)
  }

  /** Positions with no match can be skipped. */
  lemma {:induction false} PartnerFromSkip(s: string, i: nat, k: nat)
    requires i <= k <= |s| && forall j :: i <= j < k ==> !PartnerAt(s, j)
    ensures PartnerFrom(s, i) == PartnerFrom(s, k)
    decreases k - i
  {
    if i < k {
      PartnerFromSkip(s, i + 1, k);
    }
  }

  /** Where the line that holds position `i` ends: `.` does not match a newline. */
  function LineEnd(s: string, i: nat): (j: nat)
    requires i <= |s|
    ensures i <= j <= |s| && (j == |s| || s[j] == '\n')
    ensures forall k :: i <= k < j ==> s[k] != '\n'
    decreases |s| - i
  {
    if i == |s| || s[i] == '\n' then i else LineEnd(s, i + 1)
  }

  /** The first match of `token=.*`, with every `token=` in it then removed. */
  function TokenOf(s: string): Option<string>
  {
    match IndexOf(s, "token=")
    case None => None
    case Some(i) => Some(ReplaceAll(s[i..LineEnd(s, i)], "token=", ""))
  }

  /** Who the partner is: a 64-bit id from the URL, or the id a profile-URL lookup printed. */
  datatype Partner = SteamId64(id: nat) | LookedUp(text: string)

  /** The trade page's partner fields. */
  class TradePageContent {
    var tradeUrl: string
    var partnerSteamId: Option<Partner>
    var partnerToken: Option<string>
    /** The partners `update_partner_user` was called for, in order. */
    var partnerUpdates: seq<Option<Partner>>

    constructor ()
      ensures tradeUrl == "" && partnerSteamId == None && partnerToken == None && partnerUpdates == []
    {
      tradeUrl, partnerSteamId, partnerToken, partnerUpdates := "", None, None, [];
    }

    /**
     * `on_update_trade_url` for the input `value`: an empty input changes
     * nothing; otherwise the partner id comes from the first `partner=N`
     * (N plus the 64-bit base), the token from the first `token=` match, and
     * only when there is no partner id is the profile-URL lookup `lookup`
     * used.  The partner is then loaded when an id or a non-empty token was found.
     */
    method OnUpdateTradeUrl(value: string, lookup: Option<string>)
      modifies this
      ensures value == "" ==> (tradeUrl == old(tradeUrl) && partnerSteamId == old(partnerSteamId)
        && partnerToken == old(partnerToken) && partnerUpdates == old(partnerUpdates))
      ensures value != "" ==> tradeUrl == value && partnerToken == TokenOf(value)
      ensures value != "" && PartnerFrom(value, 0).Some? ==>
        partnerSteamId == Some(SteamId64(PartnerFrom(value, 0).value + SteamId64Base))
      ensures value != "" && PartnerFrom(value, 0).None? ==>
        partnerSteamId == (if lookup.Some? then Some(LookedUp(lookup.value)) else None)
      ensures value != "" ==> (partnerUpdates == old(partnerUpdates) +
        (if partnerSteamId.Some? || (partnerToken.Some? && partnerToken.value != "") then [partnerSteamId] else []))
    {
      if value == "" {
        return;
      }
      tradeUrl := value;
      partnerSteamId, partnerToken := None, None;
      var n := PartnerFrom(value, 0);
      if n.Some? {
        partnerSteamId := Some(SteamId64(n.value + SteamId64Base));
      }
      partnerToken := TokenOf(value);
      if partnerSteamId.None? && lookup.Some? {
        partnerSteamId := Some(LookedUp(lookup.value));
      }
      if partnerSteamId.None? && (partnerToken.None? || partnerToken.value == "") {
        return;
      }
      partnerUpdates := partnerUpdates + [partnerSteamId];
    }
  }

  /** A string without `=` holds no match of a pattern containing `=`. */
  lemma NoEqualsNoMatch(s: string, pat: string)
    requires '=' in pat && '=' !in s
    ensures forall j :: 0 <= j <= |s| ==> !OccursAt(s, pat, j)
    ensures !Contains(s, pat)
  {
    forall j | 0 <= j <= |s| ensures !OccursAt(s, pat, j) {
    }
  }

  /** `IndexOf` is the occurrence before which there is none. */
  lemma FirstOccurrence(s: string, pat: string, p: nat)
    requires OccursAt(s, pat, p) && forall j :: 0 <= j < p ==> !OccursAt(s, pat, j)
    ensures IndexOf(s, pat) == Some(p)
  {
  }

  /** The partner number of a URL of the usual shape is the account id. */
  lemma PartnerOfUrl(prefix: string, account: nat, rest: string)
    requires '=' !in prefix && (rest == [] || !IsDigit(rest[0]))
    ensures PartnerFrom(prefix + "partner=" + NatToString(account) + rest, 0) == Some(account)
  {
    var digits := NatToString(account);
    var url := prefix + "partner=" + digits + rest;
    var a := |prefix|;
    var d := a + 8;
    assert url[a..d] == "partner=";
    forall j | 0 <= j < a ensures !PartnerAt(url, j) {
      NoPartnerInPrefix(prefix, digits + rest, j);
      assert url == prefix + "partner=" + (digits + rest);
    }
    PartnerFromSkip(url, 0, a);
    assert OccursAt(url, "partner=", a);
    assert url[d] == digits[0];
    assert url == (prefix + "partner=" + digits) + rest;
    DigitRunOfDigits(prefix + "partner=" + digits, rest, d);
    assert url[d..d + |digits|] == digits;
    NatToStringRoundTrip(account);
  }

  lemma NoPartnerInPrefix(prefix: string, rest: string, j: nat)
    requires '=' !in prefix && j < |prefix|
    ensures !OccursAt(prefix + "partner=" + rest, "partner=", j)
  {
    var url := prefix + "partner=" + rest;
    var a := |prefix|;
    if j + 8 <= |url| {
      if j + 7 < a {
        assert url[j + 7] == prefix[j + 7];
      } else {
        assert url[j + 7] == "partner="[j + 7 - a];
      }
      assert url[j..j + 8][7] == url[j + 7] != '=';
    }
  }

  /** The token of a URL whose text before `token=` holds no `token=`. */
  lemma TokenOfUrl(head: string, token: string)
    requires '=' !in token && '\n' !in token
    requires forall j :: 0 <= j < |head| ==> !OccursAt(head + "token=" + token, "token=", j)
    ensures TokenOf(head + "token=" + token) == Some(token)
  {
    var m := "token=" + token;
    var url := head + m;
    assert url == head + "token=" + token;
    var p := |head|;
    assert url[p..] == m && url[p..p + 6] == "token=";
    FirstOccurrence(url, "token=", p);
    LineEndOfTail(head, m);
    assert url[p..LineEnd(url, p)] == m;
    ReplaceToken(token);
  }

  /** A line running to the end of the text ends there. */
  lemma LineEndOfTail(head: string, m: string)
    requires '\n' !in m
    ensures LineEnd(head + m, |head|) == |head + m|
  {
  }

  /** Removing every `token=` from `token=` followed by a token without `=` leaves the token. */
  lemma ReplaceToken(token: string)
    requires '=' !in token
    ensures ReplaceAll("token=" + token, "token=", "") == token
  {
    var m := "token=" + token;
    assert m[..6] == "token=";
    FirstOccurrence(m, "token=", 0);
    assert m[6..] == token;
    NoEqualsNoMatch(token, "token=");
  }

  /** No `token=` starts before the `&token=` that follows the partner number. */
  lemma NoTokenBefore(prefix: string, digits: string, token: string, j: nat)
    requires '=' !in prefix && Digits(digits) && j < |prefix| + 8 + |digits| + 1
    ensures !OccursAt(prefix + "partner=" + digits + "&token=" + token, "token=", j)
  {
    var url := prefix + "partner=" + digits + "&token=" + token;
    var a := |prefix|;
    var d := a + 8;
    var e := d + |digits|;
    if j + 6 <= |url| {
      var q := j + 5;
      assert url[j..j + 6][5] == url[q] && url[j..j + 6][0] == url[j];
      if q < a {
        assert url[q] == prefix[q];
      } else if q < d {
        assert url[q] == "partner="[q - a];
        if q - a == 7 {
          assert url[j] == "partner="[2];
        }
      } else if q < e {
        assert url[q] == digits[q - d];
      } else {
        assert url[q] == "&token="[q - e];
      }
    }
  }

  /**
   * Decoding a trade URL of the usual shape gives back the account id plus
   * the 64-bit base and the token, for a prefix and a token without `=` or
   * line breaks.
   */
  lemma TradeUrlRoundTrip(prefix: string, account: nat, token: string)
    requires '=' !in prefix && '=' !in token && '\n' !in token
    ensures var url := prefix + "partner=" + NatToString(account) + "&token=" + token;
      PartnerFrom(url, 0) == Some(account) && TokenOf(url) == Some(token)
  {
    var digits := NatToString(account);
    var head := prefix + "partner=" + digits + "&";
    assert prefix + "partner=" + digits + "&token=" + token == prefix + "partner=" + digits + ("&token=" + token);
    PartnerOfUrl(prefix, account, "&token=" + token);
    assert prefix + "partner=" + digits + "&token=" + token == head + "token=" + token;
    forall j | 0 <= j < |head| ensures !OccursAt(head + "token=" + token, "token=", j) {
      NoTokenBefore(prefix, digits, token, j);
    }
    TokenOfUrl(head, token);
  }
}

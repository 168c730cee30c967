/**
 * The market page (`MarketPageContent`, app/ui/pages/page_market.py): the
 * listings of the selected app are filtered, then narrowed by the name typed
 * into the filter field and sorted by the quantity and unit price buttons.
 */
module MarketPage {
  import opened Wrappers
  import opened Text
  import opened MarketData
  import opened Sorting

  /** The listings `_on_select_app_id` keeps: non-empty, not a bug item, of the selected app. */
  predicate Shown(l: Listing, appId: string)
  {
    !IsEmpty(l) && !IsBugItem(l) && IsForCurrentGame(l, appId)
  }

  /** The list comprehension that builds the rows, in the order of the search results. */
  function RealItems(ls: seq<Listing>, appId: string): (r: seq<Listing>)
    ensures |r| <= |ls|
    ensures forall i :: 0 <= i < |r| ==> !IsBugItem(r[i])
  {
    if ls == [] then []
    else (if Shown(ls[0], appId) then [ls[0]] else []) + RealItems(ls[1..], appId)
  }

  /** A listing becomes a row exactly when it is among the results and passes all three tests. */
  lemma {:induction false} RealItemsMembers(ls: seq<Listing>, appId: string, l: Listing)
    ensures l in RealItems(ls, appId) <==> l in ls && Shown(l, appId)
  {
    if ls != [] {
      RealItemsMembers(ls[1..], appId, l);
      assert ls == [ls[0]] + ls[1..];
    }
  }

  /** Whether a lower-cased filter occurs in the lower-cased name, hash name or market hash name. */
  predicate NameMatches(l: Listing, find: string)
    requires l.asset.marketHashName.Some?
  {
    Contains(Lower(l.name), find) || Contains(Lower(l.hashName), find)
    || Contains(Lower(l.asset.marketHashName.value), find)
  }

  predicate NoBugItems(items: seq<Listing>)
  {
    forall i :: 0 <= i < |items| ==> !IsBugItem(items[i])
  }

  /** The rows `__sort_by_name` appends for the lower-cased filter `find`; all of them when it is empty. */
  function KeepNamed(items: seq<Listing>, find: string): (r: seq<Listing>)
    requires NoBugItems(items)
    ensures |r| <= |items|
  {
    if items == [] then []
    else
      var last := items[|items| - 1];
      NotBugHasHashName(last);
      KeepNamed(items[..|items| - 1], find) + (if find == "" || NameMatches(last, find) then [last] else [])
  }

  /** `__sort_by_name` for the text `value` of the filter field. */
  function ByName(items: seq<Listing>, value: string): seq<Listing>
    requires NoBugItems(items)
  {
    KeepNamed(items, Lower(value))
  }

  /** With an empty filter every row stays, in its order. */
  lemma {:induction false} ByNameEmpty(items: seq<Listing>)
    requires NoBugItems(items)
    ensures ByName(items, "") == items
  {
    KeepAll(items);
  }

  lemma {:induction false} KeepAll(items: seq<Listing>)
    requires NoBugItems(items)
    ensures KeepNamed(items, "") == items
  {
    if items != [] {
      KeepAll(items[..|items| - 1]);
      assert items == items[..|items| - 1] + [items[|items| - 1]];
    }
  }

  /** With a filter, a row stays exactly when the filter occurs in one of its names. */
  lemma {:induction false} ByNameMembers(items: seq<Listing>, value: string, l: Listing)
    requires NoBugItems(items) && value != ""
    ensures l in ByName(items, value) <==>
      (l in items && NameMatches(l, Lower(value)))
  {
    KeepNamedMembers(items, Lower(value), l);
  }

  lemma {:induction false} KeepNamedMembers(items: seq<Listing>, find: string, l: Listing)
    requires NoBugItems(items) && find != ""
    ensures l in KeepNamed(items, find) <==> (l in items && NameMatches(l, find))
  {
    if items != [] {
      var init, last := items[..|items| - 1], items[|items| - 1];
      KeepNamedMembers(init, find, l);
      assert items == init + [last];
    }
  }

  /** The quantity key: `sell_listings`. */
  function AmountKey(l: Listing): Key
  {
    Num(l.sellListings as real)
  }

  /** The unit price key: `sell_price`. */
  function PriceKey(l: Listing): Key
  {
    Num(l.sellPrice as real)
  }

  /** The two sort criteria in button order: quantity first, unit price second. */
  function MarketCriteria(states: seq<SortState>): (r: seq<Criterion<Listing>>)
    requires |states| == 2
    ensures |r| == 2 && r[0].order == states[0] && r[1].order == states[1]
  {
    [Criterion(states[0], AmountKey), Criterion(states[1], PriceKey)]
  }

  class MarketPageContent {
    /** The rows built for the selected app (`__items_content`). */
    var itemsContent: seq<Listing>
    /** The rows shown, in their order (`_items_column.controls`). */
    var controls: seq<Listing>
    /** The text of the name filter field. */
    var sortName: string
    /** The quantity and unit price buttons. */
    const buttons: SortButtons

    predicate Valid()
      reads this, buttons
    {
      |buttons.states| == 2 && NoBugItems(itemsContent)
    }

    /** A fresh page: no rows, an empty filter and the quantity button pointing up. */
    constructor ()
      ensures Valid() && fresh(buttons)
      ensures itemsContent == [] && controls == [] && sortName == ""
      ensures buttons.states == [Up, Off]
    {
      itemsContent := [];
      controls := [];
      sortName := "";
      buttons := new SortButtons([Up, Off]);
    }

    /** `__sort_by_name`: rebuilds the shown rows by appending every row that matches the filter. */
    method SortByName()
      requires Valid()
      modifies this
      ensures itemsContent == old(itemsContent) && sortName == old(sortName) && Valid()
      ensures controls == ByName(itemsContent, sortName)
    {
      var find := Lower(sortName);
      controls := [];
      var i := 0;
      while i < |itemsContent|
        invariant itemsContent == old(itemsContent) && sortName == old(sortName)
        invariant 0 <= i <= |itemsContent|
        invariant controls == KeepNamed(itemsContent[..i], find)
      {
        var item := itemsContent[i];
        assert itemsContent[..i + 1] == itemsContent[..i] + [item];
        if find == "" {
          controls := controls + [item];
        } else {
          NotBugHasHashName(item);
          if NameMatches(item, find) {
            controls := controls + [item];
          }
        }
        i := i + 1;
      }
      assert itemsContent[..i] == itemsContent;
    }

    /** `__sort_items`: the name filter, then the active buttons as stable sorts, the first button primary. */
    method SortItems()
      requires Valid()
      modifies this
      ensures Valid()
      ensures itemsContent == old(itemsContent) && sortName == old(sortName)
      ensures multiset(controls) == multiset(ByName(itemsContent, sortName))
      ensures controls == SortAll(ByName(itemsContent, sortName), Active(MarketCriteria(buttons.states)))
      ensures forall i, j :: 0 <= i < j < |controls| ==>
        LexOrd(controls[i], controls[j], Active(MarketCriteria(buttons.states)))
    {
      SortByName();
      controls := Sorting.SortItems(controls, MarketCriteria(buttons.states));
    }

    /** `_on_click_sort` for button `k` (0 quantity, 1 unit price), then a re-sort. */
    method OnClickSort(k: nat)
      requires Valid() && k < 2
      modifies this, buttons
      ensures Valid()
      ensures buttons.states[k] == Click(old(buttons.states)[k]) && buttons.states[1 - k] == Off
      ensures itemsContent == old(itemsContent) && sortName == old(sortName)
      ensures controls == SortAll(ByName(itemsContent, sortName), Active(MarketCriteria(buttons.states)))
    {
      buttons.OnClickSort(k);
      SortItems();
    }

    /** `_on_change_sort_name`: the field now holds `value`, and the rows are filtered and sorted again. */
    method OnChangeSortName(value: string)
      requires Valid()
      modifies this
      ensures Valid() && sortName == value && itemsContent == old(itemsContent)
      ensures controls == SortAll(ByName(itemsContent, value), Active(MarketCriteria(buttons.states)))
    {
      sortName := value;
      SortItems();
    }

    /**
     * `_on_select_app_id`: the shown rows are cleared; for a selected app the
     * listings `fetched` from the market become the rows, which are then
     * filtered by name and sorted.
     */
    method OnSelectAppId(appId: string, fetched: seq<Listing>)
      requires Valid()
      modifies this
      ensures Valid() && sortName == old(sortName)
      ensures appId == "" ==> controls == [] && itemsContent == old(itemsContent)
      ensures appId != "" ==> itemsContent == RealItems(fetched, appId)
      ensures appId != "" ==>
        controls == SortAll(ByName(itemsContent, sortName), Active(MarketCriteria(buttons.states)))
    {
      controls := [];
      if appId == "" {
        return;
      }
      itemsContent := RealItems(fetched, appId);
      controls := itemsContent;
      SortItems();
    }
  }

  /** Every shown row after selecting an app is a listing of that app that passes the filters. */
  lemma ShownRowsAreReal(fetched: seq<Listing>, appId: string, value: string, states: seq<SortState>, l: Listing)
    requires |states| == 2
    requires l in SortAll(ByName(RealItems(fetched, appId), value), Active(MarketCriteria(states)))
    ensures l in fetched && Shown(l, appId)
  {
    var rows := RealItems(fetched, appId);
    var named := ByName(rows, value);
    assert l in multiset(named);
    if value == "" {
      ByNameEmpty(rows);
    } else {
      ByNameMembers(rows, value, l);
    }
    RealItemsMembers(fetched, appId, l);
  }
}

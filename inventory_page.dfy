/**
 * The sortable rows of the inventory page (`ItemRowContent` prices and
 * `InventoryPageContent._on_click_sort` / `__sort_items`,
 * app/ui/pages/page_inventory.py).
 */
module InventoryPage {
  import opened Wrappers
  import opened MarketData
  import opened Sorting

  /**
   * What a row's sort keys are computed from: the stack's name and amount,
   * the market search result's price in cents (`market_listen`), the order
   * book (`market_histogram`) and whether the price texts are visible.
   */
  datatype ItemRow = ItemRow(
    name: string,
    amount: nat,
    listing: Option<int>,
    histogram: Option<Histogram>,
    pricesVisible: bool)

  /** `get_histogram_price`: 0 without an order book, else its best bid or best ask. */
  function HistogramPrice(row: ItemRow, isBuy: bool): (r: real)
    ensures row.histogram.None? ==> r == 0.0
    ensures row.histogram.Some? && isBuy ==> r == HighestBuyOrder(row.histogram.value)
    ensures row.histogram.Some? && !isBuy ==> r == LowestSellOrder(row.histogram.value)
  {
    match row.histogram
    case None => 0.0
    case Some(h) => if isBuy then HighestBuyOrder(h) else LowestSellOrder(h)
  }

  /**
   * `get_market_listen_price`: the listed price in cents, for one unit or the
   * whole stack, while the price texts are visible; otherwise the best ask
   * turned into cents.
   */
  function ListenPrice(row: ItemRow, isAll: bool): real
  {
    var histogramPrice := HistogramPrice(row, false) * 100.0;
    var amount := row.amount as real;
    if row.listing.Some? && row.pricesVisible then
      (if isAll then row.listing.value as real * amount else row.listing.value as real)
    else if isAll then histogramPrice * amount
    else histogramPrice
  }

  /** The whole stack is priced at its amount times the unit price, whichever source the price comes from. */
  lemma ListenPriceTotal(row: ItemRow)
    ensures ListenPrice(row, true) == ListenPrice(row, false) * row.amount as real
  {
  }

  /** Without a visible listing the unit price is the best ask in cents, or 0 without an order book. */
  lemma ListenPriceFallback(row: ItemRow)
    requires !(row.listing.Some? && row.pricesVisible)
    ensures row.histogram.None? ==> ListenPrice(row, false) == 0.0
    ensures row.histogram.Some? ==> ListenPrice(row, false) == LowestSellOrder(row.histogram.value) * 100.0
  {
  }

  function NameKey(r: ItemRow): Key { Text(r.name) }
  function AmountKey(r: ItemRow): Key { Num(r.amount as real) }
  function UnitPriceKey(r: ItemRow): Key { Num(ListenPrice(r, false)) }
  function StackPriceKey(r: ItemRow): Key { Num(ListenPrice(r, true)) }
  function MinPriceKey(r: ItemRow): Key { Num(HistogramPrice(r, false)) }
  function AutoBuyPriceKey(r: ItemRow): Key { Num(HistogramPrice(r, true)) }

  /** The six criteria in button order: name, amount, unit price, stack price, minimum price, auto-buy price. */
  function InventoryCriteria(states: seq<SortState>): (r: seq<Criterion<ItemRow>>)
    requires |states| == 6
    ensures |r| == 6 && forall i :: 0 <= i < 6 ==> r[i].order == states[i]
  {
    [Criterion(states[0], NameKey), Criterion(states[1], AmountKey),
     Criterion(states[2], UnitPriceKey), Criterion(states[3], StackPriceKey),
     Criterion(states[4], MinPriceKey), Criterion(states[5], AutoBuyPriceKey)]
  }

  class InventoryPageContent {
    /** The rows shown, in their order (`_items_column.controls`). */
    var controls: seq<ItemRow>
    /** The six sort buttons. */
    const buttons: SortButtons

    predicate Valid()
      reads this, buttons
    {
      |buttons.states| == 6
    }

    /** A page showing `rows`, with only the amount button pointing up. */
    constructor (rows: seq<ItemRow>)
      ensures Valid() && fresh(buttons) && controls == rows
      ensures buttons.states == [Off, Up, Off, Off, Off, Off]
    {
      controls := rows;
      buttons := new SortButtons([Off, Up, Off, Off, Off, Off]);
    }

    /** `__sort_items`: the active buttons applied as stable sorts from the last to the first. */
    method SortItems()
      requires Valid()
      modifies this
      ensures Valid()
      ensures controls == SortAll(old(controls), Active(InventoryCriteria(buttons.states)))
      ensures multiset(controls) == multiset(old(controls))
      ensures forall i, j :: 0 <= i < j < |controls| ==>
        LexOrd(controls[i], controls[j], Active(InventoryCriteria(buttons.states)))
    {
      controls := Sorting.SortItems(controls, InventoryCriteria(buttons.states));
    }

    /** `_on_click_sort` on button `k`: it advances, the others are cleared, and the rows are sorted again. */
    method OnClickSort(k: nat)
      requires Valid() && k < 6
      modifies this, buttons
      ensures Valid()
      ensures buttons.states[k] == Click(old(buttons.states)[k])
      ensures forall i :: 0 <= i < 6 && i != k ==> buttons.states[i] == Off
      ensures controls == SortAll(old(controls), Active(InventoryCriteria(buttons.states)))
    {
      buttons.OnClickSort(k);
      SortItems();
    }
  }

  /** After a click only the clicked button can be active, so the rows are sorted by its key alone. */
  lemma OneActiveCriterion(states: seq<SortState>, k: nat)
    requires |states| == 6 && k < 6
    requires states[k] != Off && forall i :: 0 <= i < 6 && i != k ==> states[i] == Off
    ensures Active(InventoryCriteria(states)) == [InventoryCriteria(states)[k]]
  {
    var cs := InventoryCriteria(states);
    assert cs == cs[..k] + [cs[k]] + cs[k + 1..];
    NoneActive(cs[..k]);
    NoneActive(cs[k + 1..]);
    ActiveAppend(cs[..k], [cs[k]]);
    ActiveAppend(cs[..k] + [cs[k]], cs[k + 1..]);
  }

  lemma {:induction false} NoneActive<T>(cs: seq<Criterion<T>>)
    requires forall i :: 0 <= i < |cs| ==> cs[i].order == Off
    ensures Active(cs) == []
  {
    if cs != [] {
      NoneActive(cs[1..]);
    }
  }

  lemma {:induction false} ActiveAppend<T>(a: seq<Criterion<T>>, b: seq<Criterion<T>>)
    ensures Active(a + b) == Active(a) + Active(b)
  {
    if a == [] {
      assert a + b == b;
    } else {
      var ab := a + b;
      assert ab[0] == a[0] && ab[1..] == a[1..] + b;
      var head := if a[0].order != Off then [a[0]] else [];
      assert Active(ab) == head + Active(a[1..] + b);
      ActiveAppend(a[1..], b);
      assert Active(a) == head + Active(a[1..]);
    }
  }
}

/**
 * Market search results and order books (`MarketListenItem`,
 * `ItemOrdersHistogram`, `__load_market_listings`,
 * app/package/data_collectors/steam_api_utility.py).
 */
module MarketData {
  import opened Wrappers

  /** The asset description attached to a search result; `None` where the key is missing. */
  datatype AssetDescription = AssetDescription(appid: Option<string>, marketHashName: Option<string>, nameColor: string)

  /** One market search result. Prices are in cents. */
  datatype Listing = Listing(name: string, hashName: string, sellListings: int, sellPrice: int, asset: AssetDescription)

  /** `str(x)` of an optional value: Python prints a missing one as "None". */
  function PyStr(o: Option<string>): string
  {
    if o.None? then "None" else o.value
  }

  /** `is_bug_item`: the listing's hash name differs from its asset's market hash name (a missing one included). */
  predicate IsBugItem(l: Listing)
  {
    l.asset.marketHashName != Some(l.hashName)
  }

  /** `is_empty`. */
  predicate IsEmpty(l: Listing)
  {
    l.hashName == ""
  }

  /** `is_for_current_game`: the asset's app id, printed, equals the selected one. */
  predicate IsForCurrentGame(l: Listing, appId: string)
  {
    PyStr(l.asset.appid) == appId
  }

  /** A listing that passes the bug check carries its own hash name as market hash name. */
  lemma NotBugHasHashName(l: Listing)
    requires !IsBugItem(l)
    ensures l.asset.marketHashName.Some? && l.asset.marketHashName.value == l.hashName
  {
  }

  /**
   * `calculate_commission_amount(price)`: the price (the listing's own when
   * none or zero is given) less the distance between it and the price
   * without the 15% fee.
   */
  function CommissionAmount(price: Option<real>, sellPrice: real): (r: real)
    ensures var p := if price.None? || price.value == 0.0 then sellPrice else price.value;
      r <= p && (p >= 0.0 ==> r * 115.0 == p * 100.0)
  {
    var p := if price.None? || price.value == 0.0 then sellPrice else price.value;
    var commission := p - p / 115.0 * 100.0;
    p - (if commission < 0.0 then -commission else commission)
  }

  // ----- order books -----

  /** `get_max_price` over the first column of an order graph: 0 for an empty graph. */
  function MaxPrice(prices: seq<real>): (r: real)
    ensures prices == [] ==> r == 0.0
    ensures prices != [] ==> r in prices && forall i :: 0 <= i < |prices| ==> prices[i] <= r
  {
    if prices == [] then 0.0
    else if |prices| == 1 then prices[0]
    else
      var m := MaxPrice(prices[1..]);
      assert forall i :: 1 <= i < |prices| ==> prices[i] == prices[1..][i - 1];
      if prices[0] >= m then prices[0] else m
  }

  /** `get_min_price` over the first column of an order graph: 0 for an empty graph. */
  function MinPrice(prices: seq<real>): (r: real)
    ensures prices == [] ==> r == 0.0
    ensures prices != [] ==> r in prices && forall i :: 0 <= i < |prices| ==> r <= prices[i]
  {
    if prices == [] then 0.0
    else if |prices| == 1 then prices[0]
    else
      var m := MinPrice(prices[1..]);
      assert forall i :: 1 <= i < |prices| ==> prices[i] == prices[1..][i - 1];
      if prices[0] <= m then prices[0] else m
  }

  /** An item's order book: the prices of the buy and sell order graphs. */
  datatype Histogram = Histogram(success: bool, buyGraph: seq<real>, sellGraph: seq<real>)

  /** `get_highest_buy_order`: the best bid; the graph object is always present, so the empty graph gives 0. */
  function HighestBuyOrder(h: Histogram): real
  {
    MaxPrice(h.buyGraph)
  }

  /** `get_lowest_sell_order`: the best ask, 0 for an empty graph. */
  function LowestSellOrder(h: Histogram): real
  {
    MinPrice(h.sellGraph)
  }

  /** With both sides non-empty, the best bid is at least every bid and the best ask at most every ask. */
  lemma OrderBookBounds(h: Histogram)
    requires h.buyGraph != [] && h.sellGraph != []
    ensures forall i :: 0 <= i < |h.buyGraph| ==> h.buyGraph[i] <= HighestBuyOrder(h)
    ensures forall i :: 0 <= i < |h.sellGraph| ==> LowestSellOrder(h) <= h.sellGraph[i]
    ensures HighestBuyOrder(h) in h.buyGraph && LowestSellOrder(h) in h.sellGraph
  {
  }

  // ----- paged market search -----

  /** The answer to one search request: failed (transport, status or `success` false) or a page. */
  datatype SearchResponse = SearchFailed | SearchPage(results: seq<Listing>, totalCount: int)

  /** The page size of the search endpoint. */
  const PageSize: nat := 100

  /** Whether the page at `start` is followed by the one at `start + 100`. */
  predicate FollowsOn(total: int, start: nat, maxLoad: int)
  {
    total > start + PageSize && start + PageSize < maxLoad
  }

  /**
   * `__load_market_listings(start)`: up to two attempts at the page; the
   * first successful one contributes its results and, when the total says
   * there is more below `maxLoad`, those of the next page.  `respond(start,
   * attempt)` is the answer to that attempt.
   */
  function LoadListings(respond: (nat, nat) -> SearchResponse, start: nat, maxLoad: int): seq<Listing>
    decreases if maxLoad > start then maxLoad - start else 0
  {
    var answer := if respond(start, 0).SearchPage? then respond(start, 0) else respond(start, 1);
    if answer.SearchFailed? then []
    else if FollowsOn(answer.totalCount, start, maxLoad) then answer.results + LoadListings(respond, start + PageSize, maxLoad)
    else answer.results
  }

  /** The requests `LoadListings` makes, in order, as (start, attempt) pairs. */
  function Requests(respond: (nat, nat) -> SearchResponse, start: nat, maxLoad: int): seq<(nat, nat)>
    decreases if maxLoad > start then maxLoad - start else 0
  {
    var attempts := if respond(start, 0).SearchPage? then [(start, 0)] else [(start, 0), (start, 1)];
    var answer := if respond(start, 0).SearchPage? then respond(start, 0) else respond(start, 1);
    if answer.SearchPage? && FollowsOn(answer.totalCount, start, maxLoad)
    then attempts + Requests(respond, start + PageSize, maxLoad)
    else attempts
  }

  /**
   * Every request is one of at most two attempts, at `start` or at a later
   * page boundary below `maxLoad`.
   */
  lemma {:induction false} RequestsBounded(respond: (nat, nat) -> SearchResponse, start: nat, maxLoad: int)
    ensures forall k :: 0 <= k < |Requests(respond, start, maxLoad)| ==>
      var (s, attempt) := Requests(respond, start, maxLoad)[k];
      attempt < 2 && s >= start && (s - start) % PageSize == 0 && (s == start || s < maxLoad)
    decreases if maxLoad > start then maxLoad - start else 0
  {
    var answer := if respond(start, 0).SearchPage? then respond(start, 0) else respond(start, 1);
    var attempts := if respond(start, 0).SearchPage? then [(start, 0)] else [(start, 0), (start, 1)];
    if answer.SearchPage? && FollowsOn(answer.totalCount, start, maxLoad) {
      RequestsBounded(respond, start + PageSize, maxLoad);
      var rest := Requests(respond, start + PageSize, maxLoad);
      assert Requests(respond, start, maxLoad) == attempts + rest;
      forall k | |attempts| <= k < |attempts| + |rest|
        ensures var (s, attempt) := (attempts + rest)[k];
          attempt < 2 && s >= start && (s - start) % PageSize == 0 && (s == start || s < maxLoad)
      {
        var (s, attempt) := rest[k - |attempts|];
        assert (attempts + rest)[k] == rest[k - |attempts|];
        assert (s - start) == (s - (start + PageSize)) + PageSize;
      }
    }
  }

  /** Both attempts at the first page failing gives no results; one succeeding gives its results first. */
  lemma LoadFirstPage(respond: (nat, nat) -> SearchResponse, start: nat, maxLoad: int)
    ensures respond(start, 0).SearchFailed? && respond(start, 1).SearchFailed? ==> LoadListings(respond, start, maxLoad) == []
    ensures respond(start, 0).SearchPage? ==>
      LoadListings(respond, start, maxLoad)[..|respond(start, 0).results|] == respond(start, 0).results
    ensures respond(start, 0).SearchFailed? && respond(start, 1).SearchPage? ==>
      LoadListings(respond, start, maxLoad)[..|respond(start, 1).results|] == respond(start, 1).results
  {
  }

  /** `get_market_listings`: nothing without a live session. */
  function MarketListings(alive: bool, respond: (nat, nat) -> SearchResponse, start: nat, maxLoad: int): (r: seq<Listing>)
    ensures !alive ==> r == []
  {
    if !alive then [] else LoadListings(respond, start, maxLoad)
  }
}

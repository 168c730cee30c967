/**
 * Picking inventory items into a trade (app/ui/pages/page_trade.py): the
 * single-row add of `ItemRowContent`, and the multi-row add of
 * `UserInventoryContent`, which first shares the request out round-robin
 * over the ready rows ("equilibrium") and then takes from each row in turn.
 */
module TradeAllocation {
  import opened Wrappers
  import opened ItemStack

  function Min(a: int, b: int): int
  {
    if a <= b then a else b
  }

  /** The number typed into a count field; an empty field counts as 0. */
  function FieldValue(input: Option<int>): int
  {
    match input
    case None => 0
    case Some(v) => v
  }

  // ----- the single-row add -----

  /** The count the single-row add asks for: the field's value, or 1 when that is not positive. */
  function RowRequest(input: Option<int>): (n: int)
    ensures n >= 1
    ensures FieldValue(input) > 0 ==> n == FieldValue(input)
    ensures FieldValue(input) <= 0 ==> n == 1
  {
    if FieldValue(input) <= 0 then 1 else FieldValue(input)
  }

  /**
   * `ItemRowContent.on_press_add_icon_button`: the requested units are split
   * off the row's stack, removed from it and handed to the select callback.
   */
  method AddFromRow(item: Descriptor, input: Option<int>) returns (taken: Descriptor)
    modifies item
    ensures fresh(taken) && taken.info == item.info
    ensures taken.units == Take(old(item.units), RowRequest(input))
    ensures item.units == RemoveUnits(old(item.units), taken.units)
    ensures Amount(item.units) == Amount(old(item.units)) - Min(RowRequest(input), Amount(old(item.units)))
  {
    var amountNeed := RowRequest(input);
    taken := item.GetAmountItems(amountNeed);
    item.RemoveItems(taken);
    TakeThenRemove(old(item.units), amountNeed);
  }

  // ----- the equilibrium allocation -----

  function Sum(xs: seq<int>): int
  {
    if xs == [] then 0 else xs[0] + Sum(xs[1..])
  }

  /**
   * The allocation after `p` full round-robin passes and a partial pass that
   * reached row `b`: each row holds `p`, plus one when it comes before `b`,
   * never more than its own amount.
   */
  function Spread(totals: seq<nat>, p: nat, b: nat): (r: seq<nat>)
    ensures |r| == |totals|
    ensures forall j :: 0 <= j < |r| ==> r[j] == Min(totals[j], p + (if j < b then 1 else 0))
  {
    seq(|totals|, j requires 0 <= j < |totals| => Min(totals[j], p + (if j < b then 1 else 0)))
  }

  /**
   * The `while remaining > 0` loop of `on_press_add_icon_button`: one unit at
   * a time to each ready row that still has units left, in row order, until
   * the request is shared out.
   */
  method Equilibrium(totals: seq<nat>, need: int) returns (alloc: seq<nat>)
    requires need > 0 && Sum(totals) > need
    ensures |alloc| == |totals|
    ensures forall j :: 0 <= j < |alloc| ==> alloc[j] <= totals[j]
    ensures Sum(alloc) == need
    ensures exists p: nat, b: nat :: alloc == Spread(totals, p, b)
  {
    alloc := seq(|totals|, _ => 0);
    assert alloc == Spread(totals, 0, 0);
    SpreadSumZero(totals);
    var remaining := need;
    ghost var p: nat, b: nat := 0, 0;
    while remaining > 0
      invariant alloc == Spread(totals, p, b)
      invariant remaining == need - Sum(alloc) && remaining >= 0
      invariant remaining > 0 ==> b == 0 && p < need
      decreases need - p + (if remaining > 0 then 1 else 0)
    {
      var i;
      alloc, remaining, i := Pass(totals, p, alloc, remaining);
      if i == |totals| {
        SpreadWrap(totals, p);
        p, b := p + 1, 0;
        if remaining > 0 {
          SpreadBelow(totals, p);
        }
      } else {
        b := i;
      }
    }
  }

  /** One pass of the `for` loop over the ready rows; `i` is where it stopped. */
  method Pass(totals: seq<nat>, ghost p: nat, alloc: seq<nat>, remaining: int) returns (alloc': seq<nat>, remaining': int, i: nat)
    requires alloc == Spread(totals, p, 0) && remaining >= 0
    ensures alloc' == Spread(totals, p, i) && i <= |totals|
    ensures remaining' == remaining - (Sum(alloc') - Sum(alloc)) && remaining' >= 0
    ensures i < |totals| ==> remaining' == 0
  {
    alloc', remaining' := alloc, remaining;
    i := 0;
    while i < |totals|
      invariant 0 <= i <= |totals|
      invariant alloc' == Spread(totals, p, i)
      invariant remaining' == remaining - (Sum(alloc') - Sum(alloc)) && remaining' >= 0
    {
      if remaining' <= 0 {
        break;
      }
      SpreadNext(totals, p, i);
      if alloc'[i] < totals[i] {
        SumUpdate(alloc', i, alloc'[i] + 1);
        alloc' := alloc'[i := alloc'[i] + 1];
        remaining' := remaining' - 1;
      }
      i := i + 1;
    }
  }

  lemma SpreadNext(totals: seq<nat>, p: nat, i: nat)
    requires i < |totals|
    ensures Spread(totals, p, i + 1) ==
      (if Spread(totals, p, i)[i] < totals[i] then Spread(totals, p, i)[i := Spread(totals, p, i)[i] + 1]
       else Spread(totals, p, i))
  {
  }

  lemma SpreadWrap(totals: seq<nat>, p: nat)
    ensures Spread(totals, p, |totals|) == Spread(totals, p + 1, 0)
  {
  }

  lemma {:induction false} SumUpdate(xs: seq<int>, i: nat, v: int)
    requires i < |xs|
    ensures Sum(xs[i := v]) == Sum(xs) - xs[i] + v
  {
    if i > 0 {
      SumUpdate(xs[1..], i - 1, v);
      assert xs[i := v][1..] == xs[1..][i - 1 := v];
    }
  }

  lemma {:induction false} SumAtLeast(xs: seq<nat>, j: nat)
    requires j < |xs|
    ensures xs[j] <= Sum(xs)
  {
    if j > 0 {
      SumAtLeast(xs[1..], j - 1);
    }
    SumNonNegative(xs[1..]);
  }

  lemma {:induction false} SumNonNegative(xs: seq<nat>)
    ensures Sum(xs) >= 0
  {
    if xs != [] {
      SumNonNegative(xs[1..]);
    }
  }

  lemma {:induction false} SumZeros(xs: seq<nat>)
    requires forall j :: 0 <= j < |xs| ==> xs[j] == 0
    ensures Sum(xs) == 0
  {
    if xs != [] {
      SumZeros(xs[1..]);
    }
  }

  lemma SpreadSumZero(totals: seq<nat>)
    ensures Sum(Spread(totals, 0, 0)) == 0
  {
    SumZeros(Spread(totals, 0, 0));
  }

  /** While some row is not yet full, `p` passes have handed out at least `p` units. */
  lemma SpreadBelow(totals: seq<nat>, p: nat)
    requires Sum(Spread(totals, p, 0)) < Sum(totals)
    ensures p <= Sum(Spread(totals, p, 0))
  {
    SpreadFull(totals, p);
    var j :| 0 <= j < |totals| && totals[j] > p;
    SumAtLeast(Spread(totals, p, 0), j);
  }

  /** Once `p` reaches every row's amount, the passes have handed out everything. */
  lemma SpreadFull(totals: seq<nat>, p: nat)
    ensures (forall j :: 0 <= j < |totals| ==> totals[j] <= p) ==> Spread(totals, p, 0) == totals
  {
  }

  /** The round-robin is fair: a row still below its amount holds at most one unit less than any other row. */
  lemma SpreadBalanced(totals: seq<nat>, p: nat, b: nat, i: nat, j: nat)
    requires i < |totals| && j < |totals|
    requires Spread(totals, p, b)[i] < totals[i]
    ensures Spread(totals, p, b)[j] <= Spread(totals, p, b)[i] + 1
  {
  }

  /**
   * A row that got nothing comes after every row that got something: with
   * every row holding at least one unit, a zero means no pass was completed
   * and the partial pass stopped before it.
   */
  lemma SpreadZeroTail(totals: seq<nat>, p: nat, b: nat, i: nat, k: nat)
    requires forall j :: 0 <= j < |totals| ==> totals[j] > 0
    requires i <= k < |totals| && Spread(totals, p, b)[i] == 0
    ensures Spread(totals, p, b)[k] == 0
  {
  }

  // ----- taking from the ready rows -----

  /** `is_can_trade_item() and item.tradable and item.get_amount() > 0`. */
  predicate Ready(row: Descriptor, checked: bool)
    reads row
  {
    checked && row.info.tradable && Amount(row.units) > 0
  }

  /** `ready_to_trade_items`: the rows that are checked, tradable and not empty, in row order. */
  function ReadyRows(rows: seq<Descriptor>, selected: seq<bool>): (r: seq<Descriptor>)
    requires |selected| == |rows|
    reads rows
    ensures |r| <= |rows|
    ensures forall k :: 0 <= k < |r| ==> r[k] in rows && r[k].info.tradable && Amount(r[k].units) > 0
  {
    if rows == [] then []
    else
      var n := |rows| - 1;
      ReadyRows(rows[..n], selected[..n]) + (if Ready(rows[n], selected[n]) then [rows[n]] else [])
  }

  /** A row takes part exactly when it is one of the rows and is ready. */
  lemma {:induction false} ReadyRowsMembers(rows: seq<Descriptor>, selected: seq<bool>, x: Descriptor)
    requires |selected| == |rows|
    ensures x in ReadyRows(rows, selected) <==>
      exists i :: 0 <= i < |rows| && rows[i] == x && Ready(x, selected[i])
  {
    if rows != [] {
      var n := |rows| - 1;
      ReadyRowsMembers(rows[..n], selected[..n], x);
      if exists i :: 0 <= i < n && rows[..n][i] == x && Ready(x, selected[..n][i]) {
        var i :| 0 <= i < n && rows[..n][i] == x && Ready(x, selected[..n][i]);
        assert rows[i] == x && selected[i] == selected[..n][i];
      }
      if exists i :: 0 <= i < |rows| && rows[i] == x && Ready(x, selected[i]) {
        var i :| 0 <= i < |rows| && rows[i] == x && Ready(x, selected[i]);
        if i < n {
          assert rows[..n][i] == x && selected[..n][i] == selected[i];
        }
      }
    }
  }

  /** Different rows stay different after filtering. */
  lemma {:induction false} ReadyRowsDistinct(rows: seq<Descriptor>, selected: seq<bool>)
    requires |selected| == |rows| && Distinct(rows)
    ensures Distinct(ReadyRows(rows, selected))
  {
    if rows != [] {
      var n := |rows| - 1;
      ReadyRowsDistinct(rows[..n], selected[..n]);
      var init := ReadyRows(rows[..n], selected[..n]);
      forall k | 0 <= k < |init| ensures init[k] != rows[n] {
        assert init[k] in rows[..n];
      }
    }
  }

  /** `total_items_count`: the amount of each ready row. */
  function Amounts(stacks: seq<seq<Unit>>): (r: seq<nat>)
    ensures |r| == |stacks| && forall j :: 0 <= j < |stacks| ==> r[j] == Amount(stacks[j])
  {
    if stacks == [] then [] else [Amount(stacks[0])] + Amounts(stacks[1..])
  }

  /**
   * `custom_count`: the outstanding request, or the row's equilibrium share
   * when it has one, capped by the per-item count when that is positive.
   */
  function Request(need: int, share: nat, perItem: int): (c: int)
    ensures perItem > 0 ==> c <= perItem
    ensures share > 0 && perItem <= 0 ==> c == share
    ensures share == 0 && perItem <= 0 ==> c == need
    ensures need > 0 ==> c > 0
  {
    var c := if share > 0 then share else need;
    if perItem > 0 then Min(c, perItem) else c
  }

  /** The stacks after the take loop, the stacks handed to the callback, and the request left. */
  datatype TakeRun = TakeRun(stacks: seq<seq<Unit>>, taken: seq<seq<Unit>>, need: int)

  /** What one row of the take loop does with its stack: the units it keeps and the units it hands over. */
  datatype RowSplit = RowSplit(left: seq<Unit>, taken: seq<Unit>)

  /** One row of the take loop: `get_amount_items(c)`, then `remove_items` of that copy. */
  function RowTake(us: seq<Unit>, c: int): RowSplit
  {
    var t := Take(us, c);
    RowSplit(RemoveUnits(us, t), t)
  }

  /**
   * The take loop of `on_press_add_icon_button` over the ready rows' stacks,
   * with the row's own work as the parameter `step` (`RowTake` in the
   * program): the loop stops once the request is met; each row splits off
   * its `custom_count` and loses it, and the request drops by the amount
   * handed over.  The lemmas below rely only on the two facts about `step`
   * they name (`StepAmount`, `StepConserves`).
   */
  function Run(step: (seq<Unit>, int) -> RowSplit, stacks: seq<seq<Unit>>, shares: seq<nat>, perItem: int, need: int): (r: TakeRun)
    requires |shares| == |stacks|
    ensures |r.stacks| == |stacks| && |r.taken| <= |stacks|
    ensures need <= 0 ==> r.taken == [] && r.stacks == stacks && r.need == need
    decreases |stacks|
  {
    if stacks == [] || need <= 0 then TakeRun(stacks, [], need)
    else
      var s := step(stacks[0], Request(need, shares[0], perItem));
      var rest := Run(step, stacks[1..], shares[1..], perItem, need - Amount(s.taken));
      TakeRun([s.left] + rest.stacks, [s.taken] + rest.taken, rest.need)
  }

  /** The take loop of the program. */
  function Takes(stacks: seq<seq<Unit>>, shares: seq<nat>, perItem: int, need: int): (r: TakeRun)
    requires |shares| == |stacks|
    ensures |r.stacks| == |stacks| && |r.taken| <= |stacks|
    ensures need <= 0 ==> r.taken == [] && r.stacks == stacks && r.need == need
  {
    Run(RowTake, stacks, shares, perItem, need)
  }

  /** A step hands over the count asked for, or the whole positive amount when that is less. */
  ghost predicate StepAmount(step: (seq<Unit>, int) -> RowSplit)
  {
    forall us: seq<Unit>, c: int ::
      Amount(step(us, c).taken) == if c <= 0 then 0 else if c <= PositiveTotal(us) then c else PositiveTotal(us)
  }

  /** What a step keeps and what it hands over add up to the stack. */
  ghost predicate StepConserves(step: (seq<Unit>, int) -> RowSplit)
  {
    forall us: seq<Unit>, c: int :: Total(step(us, c).left) + Total(step(us, c).taken) == Total(us)
  }

  /** The program's row step has both. */
  lemma RowTakeSteps()
    ensures StepAmount(RowTake) && StepConserves(RowTake)
  {
    forall us: seq<Unit>, c: int
      ensures Amount(RowTake(us, c).taken) == if c <= 0 then 0 else if c <= PositiveTotal(us) then c else PositiveTotal(us)
    {
      TakeAmount(us, c);
    }
    forall us: seq<Unit>, c: int
      ensures Total(RowTake(us, c).left) + Total(RowTake(us, c).taken) == Total(us)
    {
      TakeKnown(us, c);
      RemoveUnitsTotal(us, Take(us, c));
    }
  }

  function SumAmounts(stacks: seq<seq<Unit>>): int
  {
    if stacks == [] then 0 else Amount(stacks[0]) + SumAmounts(stacks[1..])
  }

  lemma SumAmountsCons(t: seq<Unit>, ts: seq<seq<Unit>>)
    ensures SumAmounts([t] + ts) == Amount(t) + SumAmounts(ts)
  {
    assert ([t] + ts)[1..] == ts;
  }

  /** One step of the run: the first row's step, then the run over the other rows. */
  lemma RunCons(step: (seq<Unit>, int) -> RowSplit, stacks: seq<seq<Unit>>, shares: seq<nat>, perItem: int, need: int)
    requires |shares| == |stacks| && stacks != [] && need > 0
    ensures var s := step(stacks[0], Request(need, shares[0], perItem));
      var rest := Run(step, stacks[1..], shares[1..], perItem, need - Amount(s.taken));
      var r := Run(step, stacks, shares, perItem, need);
      r.taken == [s.taken] + rest.taken && r.stacks == [s.left] + rest.stacks && r.need == rest.need
  {
  }

  /** The request left is the request less everything handed over. */
  lemma {:induction false} RunNeed(step: (seq<Unit>, int) -> RowSplit, stacks: seq<seq<Unit>>, shares: seq<nat>, perItem: int, need: int)
    requires |shares| == |stacks|
    ensures var r := Run(step, stacks, shares, perItem, need); r.need == need - SumAmounts(r.taken)
    decreases |stacks|
  {
    if stacks != [] && need > 0 {
      var s := step(stacks[0], Request(need, shares[0], perItem));
      var rest := Run(step, stacks[1..], shares[1..], perItem, need - Amount(s.taken));
      RunNeed(step, stacks[1..], shares[1..], perItem, need - Amount(s.taken));
      RunCons(step, stacks, shares, perItem, need);
      SumAmountsCons(s.taken, rest.taken);
    }
  }

  /** The first row of a run is the first row's step. */
  lemma RunHead(step: (seq<Unit>, int) -> RowSplit, stacks: seq<seq<Unit>>, shares: seq<nat>, perItem: int, need: int)
    requires |shares| == |stacks| && stacks != [] && need > 0
    ensures var s := step(stacks[0], Request(need, shares[0], perItem));
      var r := Run(step, stacks, shares, perItem, need);
      r.taken != [] && r.taken[0] == s.taken && r.stacks[0] == s.left
  {
    RunCons(step, stacks, shares, perItem, need);
  }

  /** Row `k > 0` of a run is row `k - 1` of the run over the other rows. */
  lemma RunShift(step: (seq<Unit>, int) -> RowSplit, stacks: seq<seq<Unit>>, shares: seq<nat>, perItem: int, need: int, k: nat)
    requires |shares| == |stacks| && need > 0 && 0 < k < |stacks|
    ensures var s := step(stacks[0], Request(need, shares[0], perItem));
      var rest := Run(step, stacks[1..], shares[1..], perItem, need - Amount(s.taken));
      var r := Run(step, stacks, shares, perItem, need);
      |r.taken| == |rest.taken| + 1 && r.stacks[k] == rest.stacks[k - 1]
      && (k < |r.taken| ==> r.taken[k] == rest.taken[k - 1])
  {
    RunCons(step, stacks, shares, perItem, need);
  }

  /** Rows after the last visited one are untouched. */
  lemma {:induction false} RunKeepsRest(step: (seq<Unit>, int) -> RowSplit, stacks: seq<seq<Unit>>, shares: seq<nat>, perItem: int, need: int, k: nat)
    requires |shares| == |stacks| && |Run(step, stacks, shares, perItem, need).taken| <= k < |stacks|
    ensures Run(step, stacks, shares, perItem, need).stacks[k] == stacks[k]
    decreases |stacks|
  {
    if need > 0 {
      var s := step(stacks[0], Request(need, shares[0], perItem));
      RunHead(step, stacks, shares, perItem, need);
      RunShift(step, stacks, shares, perItem, need, k);
      RunKeepsRest(step, stacks[1..], shares[1..], perItem, need - Amount(s.taken), k - 1);
    }
  }

  /** Each visited row keeps exactly what it did not hand over. */
  lemma {:induction false} RunConserves(step: (seq<Unit>, int) -> RowSplit, stacks: seq<seq<Unit>>, shares: seq<nat>, perItem: int, need: int, k: nat)
    requires |shares| == |stacks| && StepConserves(step) && k < |Run(step, stacks, shares, perItem, need).taken|
    ensures var r := Run(step, stacks, shares, perItem, need);
      Total(r.stacks[k]) + Total(r.taken[k]) == Total(stacks[k])
    decreases |stacks|
  {
    var s := step(stacks[0], Request(need, shares[0], perItem));
    RunHead(step, stacks, shares, perItem, need);
    if k > 0 {
      RunShift(step, stacks, shares, perItem, need, k);
      RunConserves(step, stacks[1..], shares[1..], perItem, need - Amount(s.taken), k - 1);
    }
  }

  /** A positive per-item count caps what each row hands over. */
  lemma {:induction false} RunCapped(step: (seq<Unit>, int) -> RowSplit, stacks: seq<seq<Unit>>, shares: seq<nat>, perItem: int, need: int, k: nat)
    requires |shares| == |stacks| && StepAmount(step) && perItem > 0 && k < |Run(step, stacks, shares, perItem, need).taken|
    ensures Amount(Run(step, stacks, shares, perItem, need).taken[k]) <= perItem
    decreases |stacks|
  {
    var s := step(stacks[0], Request(need, shares[0], perItem));
    RunHead(step, stacks, shares, perItem, need);
    if k > 0 {
      RunShift(step, stacks, shares, perItem, need, k);
      RunCapped(step, stacks[1..], shares[1..], perItem, need - Amount(s.taken), k - 1);
    }
  }

  /**
   * With shares that add up to the request, each within its row's amount and
   * no share after a zero share, and no per-item cap, every row hands over
   * exactly its share and the whole request is met.
   */
  lemma {:induction false} RunShares(step: (seq<Unit>, int) -> RowSplit, stacks: seq<seq<Unit>>, shares: seq<nat>, perItem: int, need: int)
    requires |shares| == |stacks| && StepAmount(step) && need == Sum(shares) && perItem <= 0
    requires forall j :: 0 <= j < |stacks| ==> shares[j] <= Amount(stacks[j])
    requires forall i, k :: 0 <= i <= k < |shares| && shares[i] == 0 ==> shares[k] == 0
    ensures var r := Run(step, stacks, shares, perItem, need);
      r.need == 0
      && (forall k :: 0 <= k < |r.taken| ==> Amount(r.taken[k]) == shares[k])
      && (forall k :: |r.taken| <= k < |shares| ==> shares[k] == 0)
    decreases |stacks|
  {
    if stacks != [] {
      SumNonNegative(shares[1..]);
      if shares[0] == 0 {
        SumZeros(shares);
      } else {
        var t := step(stacks[0], shares[0]).taken;
        TotalBelowPositive(stacks[0]);
        assert Amount(t) == shares[0];
        RunShares(step, stacks[1..], shares[1..], perItem, need - shares[0]);
        var r := Run(step, stacks, shares, perItem, need);
        var rest := Run(step, stacks[1..], shares[1..], perItem, need - shares[0]);
        assert r.taken[0] == t && r.taken[1..] == rest.taken;
      }
    }
  }

  /**
   * The property the equilibrium is for: when the ready rows hold more than
   * the request and there is no per-item cap, the round-robin shares are
   * taken exactly and nothing of the request is left.
   */
  lemma EquilibriumMeetsRequest(stacks: seq<seq<Unit>>, shares: seq<nat>, perItem: int, need: int, p: nat, b: nat)
    requires forall j :: 0 <= j < |stacks| ==> Amount(stacks[j]) > 0
    requires perItem <= 0
    requires shares == Spread(Amounts(stacks), p, b) && Sum(shares) == need
    ensures var r := Takes(stacks, shares, perItem, need);
      r.need == 0 && forall k :: 0 <= k < |r.taken| ==> Amount(r.taken[k]) == shares[k]
  {
    var totals := Amounts(stacks);
    forall i, k | 0 <= i <= k < |shares| && shares[i] == 0 ensures shares[k] == 0 {
      SpreadZeroTail(totals, p, b, i, k);
    }
    RowTakeSteps();
    RunShares(RowTake, stacks, shares, perItem, need);
  }

  /** One row of the take loop, on the descriptor itself; the other rows are untouched. */
  method TakeFromRow(items: seq<Descriptor>, i: nat, share: nat, perItem: int, need: int) returns (need': int, taken: Descriptor)
    requires Distinct(items) && i < |items|
    modifies items[i]
    ensures fresh(taken)
    ensures taken.units == Take(old(items[i].units), Request(need, share, perItem))
    ensures Units(items) == old(Units(items))[i := RemoveUnits(old(items[i].units), taken.units)]
    ensures need' == need - Amount(taken.units)
  {
    ghost var before := Units(items);
    var item := items[i];
    var customCount := Request(need, share, perItem);
    taken := item.GetAmountItems(customCount);
    item.RemoveItems(taken);
    need' := need - Amount(taken.units);
    assert forall j :: 0 <= j < |items| && j != i ==> items[j] != item;
    UnitsAre(items, before[i := item.units]);
  }

  /** Rows already visited, followed by the rest of the run. */
  function After(done: seq<seq<Unit>>, given: seq<seq<Unit>>, rest: TakeRun): TakeRun
  {
    TakeRun(done + rest.stacks, given + rest.taken, rest.need)
  }

  /**
   * The take loop on the ready rows; `picked` are the stacks of the
   * descriptors passed to the select callback, one per visited row.
   */
  method TakeLoop(ready: seq<Descriptor>, shares: seq<nat>, perItem: int, need: int) returns (need': int, picked: seq<seq<Unit>>)
    requires Distinct(ready) && |shares| == |ready|
    modifies ready
    ensures var r := Takes(old(Units(ready)), shares, perItem, need);
      Units(ready) == r.stacks && picked == r.taken && need' == r.need
  {
    ghost var before := Units(ready);
    ghost var done: seq<seq<Unit>> := [];
    need', picked := need, [];
    var i := 0;
    assert before[i..] == before && shares[i..] == shares;
    ghost var whole := Takes(before, shares, perItem, need);
    assert whole.stacks == [] + whole.stacks && whole.taken == [] + whole.taken;
    while i < |ready| && need' > 0
      invariant 0 <= i <= |ready| && |done| == i
      invariant Units(ready) == done + before[i..]
      invariant whole == After(done, picked, Takes(before[i..], shares[i..], perItem, need'))
    {
      var taken;
      ghost var left;
      need', taken, left := TakeNext(ready, shares, perItem, i, need', before, done, picked, whole);
      picked := picked + [taken.units];
      done := done + [left];
      i := i + 1;
    }
  }

  /** One turn of the take loop: row `i` hands over its part, and the loop invariant moves on by one row. */
  method TakeNext(ready: seq<Descriptor>, shares: seq<nat>, perItem: int, i: nat, need: int,
                  ghost before: seq<seq<Unit>>, ghost done: seq<seq<Unit>>, ghost picked: seq<seq<Unit>>, ghost whole: TakeRun)
    returns (need': int, taken: Descriptor, ghost left: seq<Unit>)
    requires Distinct(ready) && |shares| == |ready| == |before| && i < |ready| && |done| == i && need > 0
    requires Units(ready) == done + before[i..]
    requires whole == After(done, picked, Takes(before[i..], shares[i..], perItem, need))
    modifies ready[i]
    ensures Units(ready) == (done + [left]) + before[i + 1..]
    ensures whole == After(done + [left], picked + [taken.units], Takes(before[i + 1..], shares[i + 1..], perItem, need'))
  {
    assert (done + before[i..])[i] == before[i];
    need', taken := TakeFromRow(ready, i, shares[i], perItem, need);
    left := RemoveUnits(before[i], taken.units);
    LoopStep(whole, done, picked, before, shares, perItem, i, need, taken.units, need');
    Splice(done, before[i..], left);
  }

  /** The run from row `i` on: row `i`'s step, then the run from row `i + 1`. */
  lemma RunAt(step: (seq<Unit>, int) -> RowSplit, stacks: seq<seq<Unit>>, shares: seq<nat>, perItem: int, i: nat, need: int, x: RowSplit, need': int)
    requires |shares| == |stacks| && i < |stacks| && need > 0
    requires x == step(stacks[i], Request(need, shares[i], perItem)) && need' == need - Amount(x.taken)
    ensures Run(step, stacks[i..], shares[i..], perItem, need) ==
      After([x.left], [x.taken], Run(step, stacks[i + 1..], shares[i + 1..], perItem, need'))
  {
    var s, h := stacks[i..], shares[i..];
    assert s[0] == stacks[i] && s[1..] == stacks[i + 1..];
    assert h[0] == shares[i] && h[1..] == shares[i + 1..];
    var rest := Run(step, s[1..], h[1..], perItem, need');
    assert Run(step, s, h, perItem, need) == TakeRun([x.left] + rest.stacks, [x.taken] + rest.taken, rest.need);
  }

  /** The loop invariant carried over one row. */
  lemma LoopStep(whole: TakeRun, done: seq<seq<Unit>>, given: seq<seq<Unit>>, before: seq<seq<Unit>>, shares: seq<nat>,
                 perItem: int, i: nat, need: int, t: seq<Unit>, need': int)
    requires |shares| == |before| && i < |before| && need > 0
    requires t == Take(before[i], Request(need, shares[i], perItem)) && need' == need - Amount(t)
    requires whole == After(done, given, Takes(before[i..], shares[i..], perItem, need))
    ensures whole == After(done + [RemoveUnits(before[i], t)], given + [t], Takes(before[i + 1..], shares[i + 1..], perItem, need'))
  {
    RunAt(RowTake, before, shares, perItem, i, need, RowSplit(RemoveUnits(before[i], t), t), need');
    AfterAfter(done, given, RemoveUnits(before[i], t), t, Takes(before[i + 1..], shares[i + 1..], perItem, need'));
  }

  lemma AfterAfter(done: seq<seq<Unit>>, given: seq<seq<Unit>>, x: seq<Unit>, y: seq<Unit>, rest: TakeRun)
    ensures After(done, given, After([x], [y], rest)) == After(done + [x], given + [y], rest)
  {
    assert done + ([x] + rest.stacks) == (done + [x]) + rest.stacks;
    assert given + ([y] + rest.taken) == (given + [y]) + rest.taken;
  }

  lemma Splice(done: seq<seq<Unit>>, rest: seq<seq<Unit>>, x: seq<Unit>)
    requires rest != []
    ensures (done + rest)[|done| := x] == (done + [x]) + rest[1..]
  {
    var a, b := (done + rest)[|done| := x], (done + [x]) + rest[1..];
    assert |a| == |b|;
    forall k | 0 <= k < |a| ensures a[k] == b[k] {
      if k > |done| {
        assert a[k] == rest[k - |done|] == b[k];
      }
    }
  }

  /**
   * `UserInventoryContent.on_press_add_icon_button`: a request of 0 or less
   * does nothing; otherwise the ready rows are found, the request is shared
   * out round-robin when equilibrium is on and the rows hold more than asked,
   * and the take loop runs.  `field` is what the count field shows afterwards,
   * `picked` what the select callback received, `shares` the equilibrium
   * shares by ready row (all 0 when there are none).
   */
  method AddFromInventory(rows: seq<Descriptor>, selected: seq<bool>, countInput: Option<int>, perItemInput: Option<int>, equilibrium: bool)
    returns (field: int, picked: seq<seq<Unit>>, ghost shares: seq<nat>)
    requires Distinct(rows) && |selected| == |rows|
    modifies rows
    ensures FieldValue(countInput) <= 0 ==> field == FieldValue(countInput) && picked == [] && Units(rows) == old(Units(rows))
    ensures FieldValue(countInput) > 0 ==> |shares| == |old(ReadyRows(rows, selected))|
    ensures var need := FieldValue(countInput);
      var ready := old(ReadyRows(rows, selected));
      var before := old(Units(ready));
      need > 0 ==>
        (equilibrium && Sum(Amounts(before)) > need ==>
             Sum(shares) == need && exists p: nat, b: nat :: shares == Spread(Amounts(before), p, b))
        && (!(equilibrium && Sum(Amounts(before)) > need) ==> forall j :: 0 <= j < |shares| ==> shares[j] == 0)
        && var r := Takes(before, shares, FieldValue(perItemInput), need);
        Units(ready) == r.stacks && picked == r.taken && field == (if r.need <= 0 then 0 else r.need)
    ensures forall x :: x in rows && x !in old(ReadyRows(rows, selected)) ==> x.units == old(x.units)
    ensures var need := FieldValue(countInput);
      var before := old(Units(ReadyRows(rows, selected)));
      need > 0 && equilibrium && FieldValue(perItemInput) <= 0 && Sum(Amounts(before)) > need ==>
        field == 0 && SumAmounts(picked) == need && |picked| <= |shares|
        && forall k :: 0 <= k < |picked| ==> Amount(picked[k]) == shares[k]
  {
    var amountNeed := FieldValue(countInput);
    shares := [];
    if amountNeed <= 0 {
      field, picked := amountNeed, [];
      return;
    }
    var ready := ReadyRows(rows, selected);
    ReadyRowsDistinct(rows, selected);
    var left;
    left, picked, shares := ShareAndTake(ready, amountNeed, FieldValue(perItemInput), equilibrium);
    field := if left <= 0 then 0 else left;
  }

  /**
   * The part of the multi-row add after the ready rows are found: the
   * equilibrium shares when they apply (all 0 otherwise), then the take loop.
   * The ready rows are distinct and none of them is empty.
   */
  method ShareAndTake(ready: seq<Descriptor>, need: int, perItem: int, equilibrium: bool)
    returns (left: int, picked: seq<seq<Unit>>, shares: seq<nat>)
    requires Distinct(ready) && need > 0 && forall k :: 0 <= k < |ready| ==> Amount(ready[k].units) > 0
    modifies ready
    ensures |shares| == |ready|
    ensures var before := old(Units(ready));
      (equilibrium && Sum(Amounts(before)) > need ==>
           Sum(shares) == need && exists p: nat, b: nat :: shares == Spread(Amounts(before), p, b))
      && (!(equilibrium && Sum(Amounts(before)) > need) ==> forall j :: 0 <= j < |shares| ==> shares[j] == 0)
    ensures var r := Takes(old(Units(ready)), shares, perItem, need);
      Units(ready) == r.stacks && picked == r.taken && left == r.need
    ensures left == need - SumAmounts(picked)
    ensures equilibrium && perItem <= 0 && Sum(Amounts(old(Units(ready)))) > need ==>
      left == 0 && |picked| <= |shares| && forall k :: 0 <= k < |picked| ==> Amount(picked[k]) == shares[k]
  {
    ghost var before := Units(ready);
    var totals := Amounts(Units(ready));
    shares := seq(|ready|, _ => 0);
    if equilibrium && Sum(totals) > need {
      shares := Equilibrium(totals, need);
    }
    left, picked := TakeLoop(ready, shares, perItem, need);
    if equilibrium && perItem <= 0 && Sum(totals) > need {
      var p: nat, b: nat :| shares == Spread(totals, p, b);
      EquilibriumMeetsRequest(before, shares, perItem, need, p, b);
    }
    RunNeed(RowTake, before, shares, perItem, need);
  }
}

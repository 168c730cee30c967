/**
 * Selling from the inventory page (app/ui/pages/page_inventory.py): the
 * "sell all" row (`SellAllItemContent`) and the single-item sell dialog
 * (`SellItemDialog`).  Both walk their item rows, split the wanted count off
 * each stack with `get_amount_items`, offer every split-off unit to the
 * market, zero the units whose sale was refused, and remove only what was
 * confirmed from the stack.  The market's answers are a sequence of
 * booleans consumed one per sell call, in call order.
 */
module SellFlow {
  import opened Wrappers
  import opened ItemStack
  import opened MarketData
  import opened SellPricing

  // ----- one stack -----

  /** The split-off copy after the sell calls, and the index of the next unused answer. */
  datatype Confirmed = Confirmed(units: seq<Unit>, next: nat)

  /**
   * The sell calls for a split-off copy: each unit with a positive amount is
   * offered in turn and keeps its amount only if its answer is a success; a
   * missing answer counts as a failure.
   */
  function Confirm(taken: seq<Unit>, answers: seq<bool>, next: nat): (r: Confirmed)
    ensures |r.units| == |taken| && next <= r.next
    decreases |taken|
  {
    if taken == [] then Confirmed([], next)
    else if taken[0].amount <= 0 then
      var rest := Confirm(taken[1..], answers, next);
      Confirmed([taken[0]] + rest.units, rest.next)
    else
      var sold := next < |answers| && answers[next];
      var rest := Confirm(taken[1..], answers, next + 1);
      Confirmed([if sold then taken[0] else taken[0].(amount := 0)] + rest.units, rest.next)
  }

  /** Each confirmed unit is the offered unit, or a positive offered unit zeroed. */
  lemma {:induction false} ConfirmShape(taken: seq<Unit>, answers: seq<bool>, next: nat)
    ensures var r := Confirm(taken, answers, next);
      forall i :: 0 <= i < |taken| ==> r.units[i] == taken[i] || (taken[i].amount > 0 && r.units[i] == taken[i].(amount := 0))
    decreases |taken|
  {
    if taken != [] {
      var n' := if taken[0].amount <= 0 then next else next + 1;
      ConfirmShape(taken[1..], answers, n');
      var r := Confirm(taken, answers, next);
      forall i | 1 <= i < |taken|
        ensures r.units[i] == taken[i] || (taken[i].amount > 0 && r.units[i] == taken[i].(amount := 0))
      {
        assert r.units[i] == Confirm(taken[1..], answers, n').units[i - 1];
        assert taken[i] == taken[1..][i - 1];
      }
    }
  }

  /** Confirmed units never carry more than was offered, and never a negative amount when none was offered. */
  lemma {:induction false} ConfirmBounds(taken: seq<Unit>, answers: seq<bool>, next: nat)
    requires forall i :: 0 <= i < |taken| ==> taken[i].amount >= 0
    ensures 0 <= Total(Confirm(taken, answers, next).units) <= Total(taken)
    ensures AllKnown(taken, Confirm(taken, answers, next).units)
    decreases |taken|
  {
    var r := Confirm(taken, answers, next);
    if taken != [] {
      var n' := if taken[0].amount <= 0 then next else next + 1;
      ConfirmBounds(taken[1..], answers, n');
      ConfirmShape(taken, answers, next);
      assert r.units[1..] == Confirm(taken[1..], answers, n').units;
      forall j | 0 <= j < |r.units| ensures Known(taken, r.units[j].assetid) {
        assert taken[j].assetid == r.units[j].assetid;
      }
    }
  }

  /** When every answer from `next` on is a success and there are enough of them, everything offered is sold. */
  lemma {:induction false} ConfirmAllSold(taken: seq<Unit>, answers: seq<bool>, next: nat)
    requires next + |taken| <= |answers|
    requires forall k :: next <= k < |answers| ==> answers[k]
    ensures Confirm(taken, answers, next).units == taken
    decreases |taken|
  {
    if taken != [] {
      var n' := if taken[0].amount <= 0 then next else next + 1;
      ConfirmAllSold(taken[1..], answers, n');
      assert taken == [taken[0]] + taken[1..];
    }
  }

  /** When no answer from `next` on is a success, every offered unit is zeroed. */
  lemma {:induction false} ConfirmNoneSold(taken: seq<Unit>, answers: seq<bool>, next: nat)
    requires forall k :: next <= k < |answers| ==> !answers[k]
    ensures forall i :: 0 <= i < |taken| ==>
      Confirm(taken, answers, next).units[i].amount == if taken[i].amount > 0 then 0 else taken[i].amount
    decreases |taken|
  {
    if taken != [] {
      var n' := if taken[0].amount <= 0 then next else next + 1;
      ConfirmNoneSold(taken[1..], answers, n');
      var r := Confirm(taken, answers, next);
      forall i | 1 <= i < |taken|
        ensures r.units[i].amount == if taken[i].amount > 0 then 0 else taken[i].amount
      {
        assert r.units[i] == Confirm(taken[1..], answers, n').units[i - 1];
        assert taken[i] == taken[1..][i - 1];
      }
    }
  }

  /** A stack after one sell step, the pending count, and the next unused answer. */
  datatype Step = Step(units: seq<Unit>, count: int, next: nat)

  /**
   * One row of `start_sell`: split `count` off the stack, offer the copy,
   * take the whole copy off the pending count and put back what did not
   * sell, then remove the confirmed copy from the stack.
   */
  function SellStep(us: seq<Unit>, count: int, answers: seq<bool>, next: nat): Step
  {
    var taken := Take(us, count);
    var c := Confirm(taken, answers, next);
    Step(RemoveUnits(us, c.units), count - Amount(taken) + (Amount(taken) - Amount(c.units)), c.next)
  }

  /**
   * A sell step lowers the stack by exactly what was confirmed, and the
   * pending count by the same; that is never more than was asked for nor
   * more than the stack held in positive units.
   */
  lemma SellStepConserves(us: seq<Unit>, count: int, answers: seq<bool>, next: nat)
    ensures var r := SellStep(us, count, answers, next);
      var sold := count - r.count;
      0 <= sold && (count <= 0 ==> sold == 0) && (count > 0 ==> sold <= count) && sold <= PositiveTotal(us) &&
      Total(r.units) == Total(us) - sold
  {
    var taken := Take(us, count);
    var c := Confirm(taken, answers, next);
    TakeShape(us, count);
    TakeTotal(us, count);
    ConfirmBounds(taken, answers, next);
    TakeKnown(us, count);
    ConfirmKnown(us, taken, c.units);
    RemoveUnitsTotal(us, c.units);
  }

  lemma ConfirmKnown(us: seq<Unit>, taken: seq<Unit>, confirmed: seq<Unit>)
    requires AllKnown(us, taken) && AllKnown(taken, confirmed)
    ensures AllKnown(us, confirmed)
  {
    forall j | 0 <= j < |confirmed| ensures Known(us, confirmed[j].assetid) {
      assert Known(taken, confirmed[j].assetid);
      var m :| 0 <= m < |taken| && taken[m].assetid == confirmed[j].assetid;
      assert Known(us, taken[m].assetid);
      var n :| 0 <= n < |us| && us[n].assetid == taken[m].assetid;
      assert us[n].assetid == confirmed[j].assetid;
    }
  }

  /** With nothing pending a sell step offers nothing and changes nothing. */
  lemma {:induction false} SellStepIdle(us: seq<Unit>, count: int, answers: seq<bool>, next: nat)
    requires count <= 0
    ensures SellStep(us, count, answers, next) == Step(us, count, next)
  {
    var taken := Take(us, count);
    TakeShape(us, count);
    TakeTotal(us, count);
    assert forall i :: 0 <= i < |taken| ==> taken[i].amount == 0 by {
      forall i | 0 <= i < |taken| ensures taken[i].amount == 0 {
        TakeZeroAt(us, count, i);
      }
    }
    ConfirmIdle(taken, answers, next);
    RemoveNothing(us, taken);
  }

  lemma {:induction false} TakeZeroAt(us: seq<Unit>, count: int, i: nat)
    requires count <= 0 && i < |us|
    ensures |Take(us, count)| == |us| && Take(us, count)[i].amount == 0
  {
    TakeShape(us, count);
    if i > 0 {
      TakeZeroAt(us[1..], count, i - 1);
      assert Take(us, count)[i] == Take(us[1..], count)[i - 1];
    }
  }

  lemma {:induction false} ConfirmIdle(taken: seq<Unit>, answers: seq<bool>, next: nat)
    requires forall i :: 0 <= i < |taken| ==> taken[i].amount == 0
    ensures Confirm(taken, answers, next) == Confirmed(taken, next)
    decreases |taken|
  {
    if taken != [] {
      ConfirmIdle(taken[1..], answers, next);
      assert taken == [taken[0]] + taken[1..];
    }
  }

  /** Removing units that carry nothing leaves the stack as it was. */
  lemma {:induction false} RemoveNothing(us: seq<Unit>, incoming: seq<Unit>)
    requires forall i :: 0 <= i < |incoming| ==> incoming[i].amount == 0
    ensures RemoveUnits(us, incoming) == us
    decreases |incoming|
  {
    if incoming != [] {
      match Find(us, incoming[0].assetid) {
        case None =>
        case Some(j) =>
          assert us[j := us[j].(amount := us[j].amount - 0)] == us;
      }
      RemoveNothing(SubtractOne(us, incoming[0]), incoming[1..]);
    }
  }

  // ----- all rows -----

  /** The stacks after a sell run, the pending count left, and the next unused answer. */
  datatype SellRun = SellRun(stacks: seq<seq<Unit>>, count: int, next: nat)

  /** Whether a row takes part: marketable, and for the sell-all row also holding a positive amount. */
  predicate Offered(us: seq<Unit>, marketable: bool, skipEmpty: bool)
  {
    marketable && !(skipEmpty && Amount(us) <= 0)
  }

  /** The rows of a sell run in order, each one a sell step on the count the earlier rows left. */
  function SellRows(stacks: seq<seq<Unit>>, marketable: seq<bool>, skipEmpty: bool, count: int, answers: seq<bool>, next: nat): (r: SellRun)
    requires |marketable| == |stacks|
    ensures |r.stacks| == |stacks|
    decreases |stacks|
  {
    if stacks == [] then SellRun([], count, next)
    else
      var s := if Offered(stacks[0], marketable[0], skipEmpty) then SellStep(stacks[0], count, answers, next)
               else Step(stacks[0], count, next);
      var rest := SellRows(stacks[1..], marketable[1..], skipEmpty, s.count, answers, s.next);
      SellRun([s.units] + rest.stacks, rest.count, rest.next)
  }

  /** Rows that are not offered come out of a run as they went in. */
  lemma {:induction false} SellRowsSkips(stacks: seq<seq<Unit>>, marketable: seq<bool>, skipEmpty: bool, count: int, answers: seq<bool>, next: nat)
    requires |marketable| == |stacks|
    ensures var r := SellRows(stacks, marketable, skipEmpty, count, answers, next);
      forall i :: 0 <= i < |stacks| && !Offered(stacks[i], marketable[i], skipEmpty) ==> r.stacks[i] == stacks[i]
    decreases |stacks|
  {
    if stacks != [] {
      var s := if Offered(stacks[0], marketable[0], skipEmpty) then SellStep(stacks[0], count, answers, next)
               else Step(stacks[0], count, next);
      SellRowsSkips(stacks[1..], marketable[1..], skipEmpty, s.count, answers, s.next);
      var r := SellRows(stacks, marketable, skipEmpty, count, answers, next);
      forall i | 1 <= i < |stacks| && !Offered(stacks[i], marketable[i], skipEmpty) ensures r.stacks[i] == stacks[i] {
        assert stacks[1..][i - 1] == stacks[i] && marketable[1..][i - 1] == marketable[i];
        assert r.stacks[i] == SellRows(stacks[1..], marketable[1..], skipEmpty, s.count, answers, s.next).stacks[i - 1];
      }
    }
  }

  /** The sum of the raw unit sums over all rows. */
  function StacksTotal(stacks: seq<seq<Unit>>): int
  {
    if stacks == [] then 0 else Total(stacks[0]) + StacksTotal(stacks[1..])
  }

  /** `get_sum_amount`: the `get_amount` of every marketable row added up. */
  function MarketableTotal(stacks: seq<seq<Unit>>, marketable: seq<bool>): (r: nat)
    requires |marketable| == |stacks|
  {
    if stacks == [] then 0
    else (if marketable[0] then Amount(stacks[0]) else 0) + MarketableTotal(stacks[1..], marketable[1..])
  }

  /**
   * A sell run: the rows together lose exactly what was sold, the pending
   * count drops by that same amount, and never by more than it was.
   */
  lemma {:induction false} SellRowsConserve(stacks: seq<seq<Unit>>, marketable: seq<bool>, skipEmpty: bool, count: int, answers: seq<bool>, next: nat)
    requires |marketable| == |stacks|
    ensures var r := SellRows(stacks, marketable, skipEmpty, count, answers, next);
      var sold := count - r.count;
      0 <= sold && (count <= 0 ==> sold == 0) && (count > 0 ==> sold <= count) &&
      StacksTotal(r.stacks) == StacksTotal(stacks) - sold
    decreases |stacks|
  {
    if stacks != [] {
      var s := if Offered(stacks[0], marketable[0], skipEmpty) then SellStep(stacks[0], count, answers, next)
               else Step(stacks[0], count, next);
      if Offered(stacks[0], marketable[0], skipEmpty) {
        SellStepConserves(stacks[0], count, answers, next);
      }
      SellRowsConserve(stacks[1..], marketable[1..], skipEmpty, s.count, answers, s.next);
      var r := SellRows(stacks, marketable, skipEmpty, count, answers, next);
      assert r.stacks[1..] == SellRows(stacks[1..], marketable[1..], skipEmpty, s.count, answers, s.next).stacks;
    }
  }

  /** With nothing pending a run changes no row. */
  lemma {:induction false} SellRowsIdle(stacks: seq<seq<Unit>>, marketable: seq<bool>, skipEmpty: bool, count: int, answers: seq<bool>, next: nat)
    requires |marketable| == |stacks| && count <= 0
    ensures SellRows(stacks, marketable, skipEmpty, count, answers, next) == SellRun(stacks, count, next)
    decreases |stacks|
  {
    if stacks != [] {
      SellStepIdle(stacks[0], count, answers, next);
      SellRowsIdle(stacks[1..], marketable[1..], skipEmpty, count, answers, next);
      assert stacks == [stacks[0]] + stacks[1..];
    }
  }

  /** A run over a prefix of rows already processed, followed by the rest. */
  function After(done: seq<seq<Unit>>, rest: SellRun): SellRun
  {
    SellRun(done + rest.stacks, rest.count, rest.next)
  }

  /** Whether each row is marketable. */
  function Flags(items: seq<Descriptor>): (r: seq<bool>)
    ensures |r| == |items| && forall i :: 0 <= i < |items| ==> r[i] == items[i].info.marketable
  {
    if items == [] then [] else [items[0].info.marketable] + Flags(items[1..])
  }

  // ----- the imperative sell loop -----

  /** The inner loop of `start_sell`: one sell call per positive unit, a refused unit set to 0 in place. */
  method OfferUnits(copy: Descriptor, answers: seq<bool>, next: nat) returns (next': nat)
    modifies copy
    ensures copy.units == Confirm(old(copy.units), answers, next).units
    ensures next' == Confirm(old(copy.units), answers, next).next
  {
    ghost var original := copy.units;
    ghost var done: seq<Unit> := [];
    ghost var whole := Confirm(original, answers, next);
    next' := next;
    var i := 0;
    assert original[i..] == original;
    assert whole.units == [] + whole.units;
    while i < |copy.units|
      invariant 0 <= i <= |original| && |done| == i
      invariant copy.units == done + original[i..]
      invariant whole == Glue(done, Confirm(original[i..], answers, next'))
    {
      next', done := OfferNext(copy, i, answers, next', original, done, whole);
      i := i + 1;
    }
  }

  /** One unit of the inner loop; the loop invariant moves on by one unit. */
  method OfferNext(copy: Descriptor, i: nat, answers: seq<bool>, next: nat,
                   ghost original: seq<Unit>, ghost done: seq<Unit>, ghost whole: Confirmed)
    returns (next': nat, ghost done': seq<Unit>)
    requires |done| == i < |original| && copy.units == done + original[i..]
    requires whole == Glue(done, Confirm(original[i..], answers, next))
    modifies copy
    ensures |done'| == i + 1 && copy.units == done' + original[i + 1..]
    ensures whole == Glue(done', Confirm(original[i + 1..], answers, next'))
  {
    var u := copy.units[i];
    ghost var rest := original[i..];
    assert rest[0] == u && rest[1..] == original[i + 1..];
    next' := next;
    if u.amount > 0 {
      var sold := next < |answers| && answers[next];
      next' := next + 1;
      if !sold {
        copy.units := copy.units[i := u.(amount := 0)];
      }
    }
    ConfirmCons(rest, answers, next);
    assert Confirm(rest, answers, next) == Glue([copy.units[i]], Confirm(original[i + 1..], answers, next'));
    GlueGlue(done, [copy.units[i]], Confirm(original[i + 1..], answers, next'));
    done' := done + [copy.units[i]];
    assert copy.units == done' + original[i + 1..];
  }

  lemma ConfirmCons(rest: seq<Unit>, answers: seq<bool>, next: nat)
    requires rest != []
    ensures var sold := rest[0].amount <= 0 || (next < |answers| && answers[next]);
      var n' := if rest[0].amount <= 0 then next else next + 1;
      Confirm(rest, answers, next) == Glue([if sold then rest[0] else rest[0].(amount := 0)], Confirm(rest[1..], answers, n'))
  {
  }

  lemma GlueGlue(a: seq<Unit>, b: seq<Unit>, r: Confirmed)
    ensures Glue(a, Glue(b, r)) == Glue(a + b, r)
  {
    assert a + (b + r.units) == (a + b) + r.units;
  }

  /** Units already offered, followed by the offers still to come. */
  function Glue(done: seq<Unit>, rest: Confirmed): Confirmed
  {
    Confirmed(done + rest.units, rest.next)
  }

  /** One row of `start_sell`, on the descriptor itself. */
  method SellFromStack(item: Descriptor, count: int, answers: seq<bool>, next: nat) returns (count': int, next': nat)
    modifies item
    ensures var s := SellStep(old(item.units), count, answers, next);
      item.units == s.units && count' == s.count && next' == s.next
  {
    var copy := item.GetAmountItems(count);
    var selling: int := Amount(copy.units);
    count' := count - selling;
    next' := OfferUnits(copy, answers, next);
    var sold: int := Amount(copy.units);
    count' := count' + (selling - sold);
    item.RemoveItems(copy);
  }

  /** What one row of a run does to a stack: rows that are not offered are passed over. */
  function RowStep(us: seq<Unit>, marketable: bool, skipEmpty: bool, count: int, answers: seq<bool>, next: nat): Step
  {
    if Offered(us, marketable, skipEmpty) then SellStep(us, count, answers, next) else Step(us, count, next)
  }

  /** One row of the loop, on the `i`th descriptor; the other rows are untouched. */
  method SellRow(items: seq<Descriptor>, i: nat, skipEmpty: bool, count: int, answers: seq<bool>, next: nat) returns (count': int, next': nat)
    requires Distinct(items) && i < |items|
    modifies items[i]
    ensures var s := RowStep(old(items[i].units), items[i].info.marketable, skipEmpty, count, answers, next);
      Units(items) == old(Units(items))[i := s.units] && count' == s.count && next' == s.next
  {
    ghost var before := Units(items);
    var item := items[i];
    count', next' := count, next;
    if Offered(item.units, item.info.marketable, skipEmpty) {
      count', next' := SellFromStack(item, count, answers, next);
    }
    assert forall j :: 0 <= j < |items| && j != i ==> items[j] != item;
    UnitsAre(items, before[i := item.units]);
  }

  /** The row loop shared by both sell flows; the dialog stops once nothing is pending. */
  method SellRowsLoop(items: seq<Descriptor>, skipEmpty: bool, count: int, answers: seq<bool>) returns (count': int, next': nat)
    requires Distinct(items)
    modifies items
    ensures var r := SellRows(old(Units(items)), Flags(items), skipEmpty, count, answers, 0);
      Units(items) == r.stacks && count' == r.count && next' == r.next
  {
    ghost var before := Units(items);
    ghost var flags := Flags(items);
    ghost var done: seq<seq<Unit>> := [];
    ghost var whole := SellRows(before, flags, skipEmpty, count, answers, 0);
    count', next' := count, 0;
    var i := 0;
    assert before[i..] == before && flags[i..] == flags;
    assert whole.stacks == [] + whole.stacks;
    while i < |items| && (skipEmpty || count' > 0)
      invariant 0 <= i <= |items| && |done| == i
      invariant Units(items) == done + before[i..]
      invariant whole == After(done, SellRows(before[i..], flags[i..], skipEmpty, count', answers, next'))
    {
      count', next', done := SellNext(items, i, skipEmpty, count', answers, next', before, flags, done, whole);
      i := i + 1;
    }
    if i < |items| {
      SellRowsIdle(before[i..], flags[i..], skipEmpty, count', answers, next');
    } else {
      assert SellRows(before[i..], flags[i..], skipEmpty, count', answers, next') == SellRun([], count', next');
    }
  }

  /** One row of the row loop; the loop invariant moves on by one row. */
  method SellNext(items: seq<Descriptor>, i: nat, skipEmpty: bool, count: int, answers: seq<bool>, next: nat,
                  ghost before: seq<seq<Unit>>, ghost flags: seq<bool>, ghost done: seq<seq<Unit>>, ghost whole: SellRun)
    returns (count': int, next': nat, ghost done': seq<seq<Unit>>)
    requires Distinct(items) && flags == Flags(items) && |before| == |items| && |done| == i < |items|
    requires Units(items) == done + before[i..]
    requires whole == After(done, SellRows(before[i..], flags[i..], skipEmpty, count, answers, next))
    modifies items[i]
    ensures |done'| == i + 1 && Units(items) == done' + before[i + 1..]
    ensures whole == After(done', SellRows(before[i + 1..], flags[i + 1..], skipEmpty, count', answers, next'))
  {
    ghost var rest := before[i..];
    assert rest[0] == before[i] && rest[1..] == before[i + 1..];
    assert flags[i..][0] == flags[i] && flags[i..][1..] == flags[i + 1..];
    assert (done + before[i..])[i] == before[i];
    assert items[i].units == before[i] && items[i].info.marketable == flags[i];
    ghost var s := RowStep(before[i], flags[i], skipEmpty, count, answers, next);
    SellRowsCons(rest, flags[i..], skipEmpty, count, answers, next);
    count', next' := SellRow(items, i, skipEmpty, count, answers, next);
    AfterAfter(done, [s.units], SellRows(before[i + 1..], flags[i + 1..], skipEmpty, count', answers, next'));
    Splice(done, before[i..], s.units);
    done' := done + [s.units];
  }

  lemma SellRowsCons(stacks: seq<seq<Unit>>, marketable: seq<bool>, skipEmpty: bool, count: int, answers: seq<bool>, next: nat)
    requires |marketable| == |stacks| && stacks != []
    ensures var s := RowStep(stacks[0], marketable[0], skipEmpty, count, answers, next);
      SellRows(stacks, marketable, skipEmpty, count, answers, next) ==
      After([s.units], SellRows(stacks[1..], marketable[1..], skipEmpty, s.count, answers, s.next))
  {
  }

  lemma Splice(done: seq<seq<Unit>>, rest: seq<seq<Unit>>, x: seq<Unit>)
    requires rest != []
    ensures (done + rest)[|done| := x] == (done + [x]) + rest[1..]
  {
    var a, b := (done + rest)[|done| := x], (done + [x]) + rest[1..];
    assert |a| == |b|;
    forall k | 0 <= k < |a| ensures a[k] == b[k] {
      if k < |done| {
      } else if k > |done| {
        assert a[k] == rest[k - |done|] == rest[1..][k - |done| - 1];
      }
    }
  }

  lemma AfterAfter(a: seq<seq<Unit>>, b: seq<seq<Unit>>, r: SellRun)
    ensures After(a, After(b, r)) == After(a + b, r)
  {
    assert a + (b + r.stacks) == (a + b) + r.stacks;
  }

  // ----- set_sell_amount -----

  /**
   * `set_sell_amount`: a missing or non-positive amount becomes 0, and the
   * amount is capped at the marketable total.
   */
  function ClampCount(amount: Option<int>, total: nat): (r: nat)
    ensures r <= total
    ensures amount.None? || amount.value <= 0 ==> r == 0
    ensures amount.Some? && 0 <= amount.value <= total ==> r == amount.value
    ensures amount.Some? && amount.value > total ==> r == total
  {
    var a := if amount.Some? && amount.value > 0 then amount.value else 0;
    if a > total then total else a
  }

  /** `set_user_price`: a 0 on either side sets both to 0; otherwise the given side decides, the net side last. */
  function UserPrices(sell: Option<real>, get: Option<real>): (Option<real>, Option<real>)
  {
    if sell == Some(0.0) || get == Some(0.0) then (Some(0.0), Some(0.0))
    else if get.Some? then (Some(GrossFromNet(get.value)), get)
    else if sell.Some? then (sell, Some(NetFromGross(sell.value)))
    else (None, None)
  }

  /** A price typed by the user on one side fixes the other side by the fee rules, both ways round. */
  lemma UserPricesConsistent(sell: Option<real>, get: Option<real>)
    ensures var (s, g) := UserPrices(sell, get);
      (sell != Some(0.0) && get.Some? && get.value >= MinNet ==> s.Some? && g == get && NetFromGross(s.value) == get.value) &&
      (get.None? && sell.Some? && sell.value >= MinGross ==> s == sell && g.Some? && GrossFromNet(g.value) == sell.value)
  {
    if sell != Some(0.0) && get.Some? && get.value >= MinNet {
      NetOfGross(get.value);
    }
    if get.None? && sell.Some? && sell.value >= MinGross {
      GrossOfNet(sell.value);
    }
  }

  // ----- SellAllItemContent -----

  /** The "sell all of this item" row of the inventory page. */
  class SellAllItemContent {
    var items: seq<Descriptor>
    var histogram: Option<Histogram>
    var percent: real
    var minimumAutoBuy: bool
    var minimumPrice: real
    var dontSell: real
    var countSell: int
    var prices: Prices
    var userSell: Option<real>
    var userGet: Option<real>
    var histogramBuy: real
    var histogramSell: real

    constructor ()
      ensures items == [] && histogram.None? && countSell == 0 && prices == Zero
      ensures percent == 1.0 && minimumAutoBuy && minimumPrice == 0.03 && dontSell == 0.0
      ensures userSell.None? && userGet.None? && histogramBuy == 0.0 && histogramSell == 0.0
    {
      items := [];
      histogram := None;
      percent := 1.0;
      minimumAutoBuy := true;
      minimumPrice := 0.03;
      dontSell := 0.0;
      countSell := 0;
      prices := Zero;
      userSell := None;
      userGet := None;
      histogramBuy := 0.0;
      histogramSell := 0.0;
    }

    function Settings(): PriceSettings
      reads this
    {
      PriceSettings(percent, minimumAutoBuy, minimumPrice, dontSell, histogramBuy)
    }

    /** `get_sum_amount`. */
    function SumAmount(): nat
      reads this, items
    {
      MarketableTotal(Units(items), Flags(items))
    }

    /** `get_price_sell`: 0 without a count; else the user's price, else the computed one, rounded to cents. */
    function GetPriceSell(): (r: real)
      reads this
      ensures countSell == 0 ==> r == 0.0
      ensures countSell != 0 && userSell.Some? ==> r == Round2(userSell.value)
      ensures countSell != 0 && userSell.None? && (prices.sell.None? || prices.sell == Some(0.0)) ==> r == 0.0
    {
      if countSell == 0 then 0.0
      else if userSell.Some? then Round2(userSell.value)
      else if prices.sell.Some? && prices.sell.value != 0.0 then Round2(prices.sell.value)
      else 0.0
    }

    /** `get_price_get`, the same for the net price. */
    function GetPriceGet(): (r: real)
      reads this
      ensures countSell == 0 ==> r == 0.0
      ensures countSell != 0 && userGet.Some? ==> r == Round2(userGet.value)
      ensures countSell != 0 && userGet.None? && (prices.get.None? || prices.get == Some(0.0)) ==> r == 0.0
    {
      if countSell == 0 then 0.0
      else if userGet.Some? then Round2(userGet.value)
      else if prices.get.Some? && prices.get.value != 0.0 then Round2(prices.get.value)
      else 0.0
    }

    /** `get_count_sell`: the count, unless it or either rounded price is 0. */
    function GetCountSell(): (r: int)
      reads this
      ensures r != 0 <==> countSell != 0 && GetPriceSell() != 0.0 && GetPriceGet() != 0.0
      ensures r != 0 ==> r == countSell
    {
      if countSell == 0 || GetPriceSell() == 0.0 || GetPriceGet() == 0.0 then 0 else countSell
    }

    /** The guards of `start_sell` before any row is touched. */
    predicate ReadyToSell(connected: bool)
      reads this
    {
      connected && GetCountSell() != 0 && GetPriceSell() != 0.0 && GetPriceSell() > dontSell &&
      Trunc(GetPriceGet() * 100.0) != 0
    }

    /** A user price of 0 on either side keeps `start_sell` from selling anything. */
    lemma ZeroUserPriceBlocksSale(connected: bool)
      requires userSell == Some(0.0) && userGet == Some(0.0)
      ensures !ReadyToSell(connected)
    {
    }

    /** `init_items`: take the rows, and set the count to everything marketable when none is set. */
    method InitItems(rows: seq<Descriptor>)
      modifies this
      ensures items == rows
      ensures countSell == if old(countSell) == 0 then SumAmount() else old(countSell)
      ensures prices == old(prices) && Settings() == old(Settings()) && userSell == old(userSell) && userGet == old(userGet)
      ensures histogram == old(histogram) && histogramSell == old(histogramSell)
    {
      items := rows;
      if countSell == 0 {
        SetSellAmount(Some(SumAmount()));
      }
    }

    /** `set_sell_amount`. */
    method SetSellAmount(amount: Option<int>)
      modifies this
      ensures countSell == ClampCount(amount, SumAmount())
      ensures items == old(items) && prices == old(prices) && Settings() == old(Settings())
      ensures userSell == old(userSell) && userGet == old(userGet)
      ensures histogram == old(histogram) && histogramSell == old(histogramSell)
    {
      countSell := ClampCount(amount, SumAmount());
    }

    /** `set_price`. */
    method SetPrice(sell: Option<real>, get: Option<real>)
      modifies this
      ensures prices == SellPricing.SetPrice(old(Settings()), sell, get)
      ensures items == old(items) && countSell == old(countSell) && Settings() == old(Settings())
      ensures userSell == old(userSell) && userGet == old(userGet)
      ensures histogram == old(histogram) && histogramSell == old(histogramSell)
    {
      prices := SellPricing.SetPrice(Settings(), sell, get);
    }

    /** `set_user_price`. */
    method SetUserPrice(sell: Option<real>, get: Option<real>)
      modifies this
      ensures (userSell, userGet) == UserPrices(sell, get)
      ensures items == old(items) && countSell == old(countSell) && prices == old(prices) && Settings() == old(Settings())
      ensures histogram == old(histogram) && histogramSell == old(histogramSell)
    {
      var (s, g) := UserPrices(sell, get);
      userSell, userGet := s, g;
    }

    /** `__on_change_sell_price`: the typed text, read by `parce_value`, with no number meaning 0. */
    method OnChangeSellPrice(text: string)
      modifies this
      ensures (userSell, userGet) == UserPrices(Some(ParsedOrZero(ParceValue(text))), None)
      ensures items == old(items) && countSell == old(countSell) && prices == old(prices) && Settings() == old(Settings())
      ensures histogram == old(histogram) && histogramSell == old(histogramSell)
    {
      SetUserPrice(Some(ParsedOrZero(ParceValue(text))), None);
    }

    /** `__on_change_get_price`. */
    method OnChangeGetPrice(text: string)
      modifies this
      ensures (userSell, userGet) == UserPrices(None, Some(ParsedOrZero(ParceValue(text))))
      ensures items == old(items) && countSell == old(countSell) && prices == old(prices) && Settings() == old(Settings())
      ensures histogram == old(histogram) && histogramSell == old(histogramSell)
    {
      SetUserPrice(None, Some(ParsedOrZero(ParceValue(text))));
    }

    /** `__on_change_count`: the quantity box only admits digits; empty means 0. */
    method OnChangeCount(text: string)
      requires Text.Digits(text)
      modifies this
      ensures countSell == ClampCount(Some(Text.DigitsValue(text)), SumAmount())
      ensures items == old(items) && prices == old(prices) && Settings() == old(Settings())
      ensures userSell == old(userSell) && userGet == old(userGet)
      ensures histogram == old(histogram) && histogramSell == old(histogramSell)
    {
      SetSellAmount(Some(if text == [] then 0 else Text.DigitsValue(text)));
    }

    /**
     * `init_histogram`: a missing or unsuccessful order book is refused with
     * `False`; otherwise it sets the prices from the lowest sell order and
     * the method falls off its end, returning `None` (`result.None?`).
     */
    method InitHistogram(h: Option<Histogram>) returns (result: Option<bool>)
      modifies this
      ensures result.None? <==> h.Some? && h.value.success
      ensures result.Some? ==> !result.value
      ensures result.Some? ==> histogram == old(histogram) && prices == old(prices) && Settings() == old(Settings())
      ensures result.None? ==> histogram == h && histogramSell == LowestSellOrder(h.value) && histogramBuy == HighestBuyOrder(h.value)
      ensures result.None? ==> prices == SellPricing.SetPrice(Settings(), Some(LowestSellOrder(h.value)), None)
      ensures items == old(items) && countSell == old(countSell) && userSell == old(userSell) && userGet == old(userGet)
      ensures percent == old(percent) && minimumAutoBuy == old(minimumAutoBuy)
      ensures minimumPrice == old(minimumPrice) && dontSell == old(dontSell)
    {
      if h.None? || !h.value.success {
        return Some(false);
      }
      histogram := h;
      histogramSell := LowestSellOrder(h.value);
      histogramBuy := HighestBuyOrder(h.value);
      SetPrice(Some(histogramSell), None);
      return None;
    }

    /** `set_percent`: a missing or 0 percent is ignored; otherwise prices follow the lowest sell order, if any. */
    method SetPercent(p: Option<real>)
      modifies this
      ensures p.None? || p == Some(0.0) ==> percent == old(percent) && prices == old(prices)
      ensures p.Some? && p != Some(0.0) ==> (percent == p.value &&
        prices == if histogramSell == 0.0 then old(prices) else SellPricing.SetPrice(Settings(), Some(histogramSell), None))
      ensures items == old(items) && countSell == old(countSell) && userSell == old(userSell) && userGet == old(userGet)
      ensures minimumAutoBuy == old(minimumAutoBuy) && minimumPrice == old(minimumPrice) && dontSell == old(dontSell)
      ensures histogram == old(histogram) && histogramBuy == old(histogramBuy) && histogramSell == old(histogramSell)
    {
      if p.None? || p.value == 0.0 {
        return;
      }
      percent := p.value;
      if histogramSell == 0.0 {
        return;
      }
      SetPrice(Some(histogramSell), None);
    }

    /** `set_price_to_auto_buy`: percent back to 1 and the price to the highest buy order, raised to the minimum on request. */
    method SetPriceToAutoBuy(setMinimumPrice: bool)
      modifies this
      ensures histogram.None? ==> percent == old(percent) && prices == old(prices)
      ensures histogram.Some? ==> (percent == 1.0 &&
        var best := HighestBuyOrder(histogram.value);
        prices == SellPricing.SetPrice(Settings(), Some(if setMinimumPrice && best < minimumPrice then minimumPrice else best), None))
      ensures items == old(items) && countSell == old(countSell) && userSell == old(userSell) && userGet == old(userGet)
      ensures minimumAutoBuy == old(minimumAutoBuy) && minimumPrice == old(minimumPrice) && dontSell == old(dontSell)
      ensures histogram == old(histogram) && histogramBuy == old(histogramBuy) && histogramSell == old(histogramSell)
    {
      if histogram.None? {
        return;
      }
      percent := 1.0;
      var best := HighestBuyOrder(histogram.value);
      if setMinimumPrice && best < minimumPrice {
        best := minimumPrice;
      }
      SetPrice(Some(best), None);
    }

    /** `set_is_minimum_auto_buy`: switching it on lifts a price below the highest buy order, unless the user typed one. */
    method SetIsMinimumAutoBuy(flag: Option<bool>)
      modifies this
      ensures minimumAutoBuy == flag.GetOr(true)
      ensures var keep := !minimumAutoBuy || old(userSell).Some? || old(userGet).Some? || old(GetPriceSell()) >= histogramBuy;
        prices == if keep then old(prices) else SellPricing.SetPrice(Settings(), Some(histogramBuy), None)
      ensures items == old(items) && countSell == old(countSell) && userSell == old(userSell) && userGet == old(userGet)
      ensures percent == old(percent) && minimumPrice == old(minimumPrice) && dontSell == old(dontSell)
      ensures histogram == old(histogram) && histogramBuy == old(histogramBuy) && histogramSell == old(histogramSell)
    {
      minimumAutoBuy := flag.GetOr(true);
      if !minimumAutoBuy || userSell.Some? || userGet.Some? {
        return;
      }
      if GetPriceSell() >= histogramBuy {
        return;
      }
      SetPrice(Some(histogramBuy), None);
    }

    /** `set_minimum_price`: missing means 0.03; a lower price is lifted to it, unless the user typed one. */
    method SetMinimumPrice(minimum: Option<real>)
      modifies this
      ensures minimumPrice == minimum.GetOr(0.03)
      ensures var keep := old(userSell).Some? || old(userGet).Some? || old(GetPriceSell()) >= minimumPrice;
        prices == if keep then old(prices) else SellPricing.SetPrice(Settings(), Some(minimumPrice), None)
      ensures items == old(items) && countSell == old(countSell) && userSell == old(userSell) && userGet == old(userGet)
      ensures percent == old(percent) && minimumAutoBuy == old(minimumAutoBuy) && dontSell == old(dontSell)
      ensures histogram == old(histogram) && histogramBuy == old(histogramBuy) && histogramSell == old(histogramSell)
    {
      minimumPrice := minimum.GetOr(0.03);
      if userSell.Some? || userGet.Some? {
        return;
      }
      if GetPriceSell() >= minimumPrice {
        return;
      }
      SetPrice(Some(minimumPrice), None);
    }

    /** `set_price_dont_sell`: missing means 0; a current price under the line clears both prices to 0. */
    method SetPriceDontSell(line: Option<real>)
      modifies this
      ensures dontSell == line.GetOr(0.0)
      ensures prices == if old(GetPriceSell()) >= dontSell then old(prices) else Zero
      ensures items == old(items) && countSell == old(countSell) && userSell == old(userSell) && userGet == old(userGet)
      ensures percent == old(percent) && minimumAutoBuy == old(minimumAutoBuy) && minimumPrice == old(minimumPrice)
      ensures histogram == old(histogram) && histogramBuy == old(histogramBuy) && histogramSell == old(histogramSell)
    {
      dontSell := line.GetOr(0.0);
      if GetPriceSell() >= dontSell {
        return;
      }
      SetPrice(Some(0.0), None);
    }

    /**
     * `start_sell`: after the guards, every marketable row with a positive
     * amount sells its share of the pending count; the count left over,
     * unsold units included, becomes the new quantity.
     */
    method StartSell(connected: bool, answers: seq<bool>) returns (cents: int)
      requires Distinct(items)
      modifies this, items
      ensures items == old(items) && prices == old(prices) && Settings() == old(Settings())
      ensures userSell == old(userSell) && userGet == old(userGet)
      ensures histogram == old(histogram) && histogramSell == old(histogramSell)
      ensures !old(ReadyToSell(connected)) ==> Units(items) == old(Units(items)) && countSell == old(countSell) && cents == 0
      ensures old(ReadyToSell(connected)) ==>
        var run := SellRows(old(Units(items)), Flags(items), true, old(GetCountSell()), answers, 0);
        cents == Trunc(old(GetPriceGet()) * 100.0) &&
        Units(items) == run.stacks && countSell == ClampCount(Some(run.count), SumAmount())
    {
      if !ReadyToSell(connected) {
        return 0;
      }
      var count := GetCountSell();
      cents := Trunc(GetPriceGet() * 100.0);
      var left, offered := SellRowsLoop(items, true, count, answers);
      SetSellAmount(Some(left));
    }
  }

  /** The number `parce_value` read, or 0 when it read none. */
  function ParsedOrZero(p: Parsed): real
  {
    match p
    case Number(v) => v
    case NoNumber => 0.0
  }

  /**
   * After a sell-all run the rows hold exactly what was sold less than
   * before, and the new quantity never exceeds what was pending.
   */
  lemma StartSellAccounting(stacks: seq<seq<Unit>>, marketable: seq<bool>, count: int, answers: seq<bool>)
    requires |marketable| == |stacks| && count > 0
    ensures var r := SellRows(stacks, marketable, true, count, answers, 0);
      0 <= r.count <= count && StacksTotal(r.stacks) == StacksTotal(stacks) - (count - r.count) &&
      ClampCount(Some(r.count), MarketableTotal(r.stacks, marketable)) <= count
  {
    SellRowsConserve(stacks, marketable, true, count, answers, 0);
  }

  // ----- SellItemDialog -----

  /** A fraction between 0 and 1 of a total, cut toward zero, stays within the total. */
  lemma FractionBounds(total: nat, p: real)
    requires 0.0 <= p <= 1.0
    ensures 0 <= Trunc(total as real * p) <= total
  {
    var t := total as real;
    var d := t * (1.0 - p);
    assert d >= 0.0;
    assert t * p == t - d;
  }

  /** `_set_sell_count`: a fraction of the marketable total (cut toward zero) or a count, clamped to it; nothing given, nothing set. */
  function DialogCount(count: Option<int>, percent: Option<real>, total: nat): (r: Option<int>)
    ensures count.None? && (percent.None? || percent == Some(0.0)) <==> r.None?
    ensures r.Some? ==> 0 <= r.value <= total
    ensures percent.Some? && percent != Some(0.0) && 0.0 <= percent.value <= 1.0 ==> r == Some(Trunc(total as real * percent.value))
    ensures (percent.None? || percent == Some(0.0)) && count.Some? && 0 <= count.value <= total ==> r == count
  {
    if count.None? && (percent.None? || percent == Some(0.0)) then None
    else
      var c := if percent.Some? && percent.value != 0.0 then Trunc(total as real * percent.value) else count.value;
      assert percent.Some? && 0.0 <= percent.value <= 1.0 ==> 0 <= Trunc(total as real * percent.value) <= total by {
        if percent.Some? && 0.0 <= percent.value <= 1.0 {
          FractionBounds(total, percent.value);
        }
      }
      Some(if c > total then total else if c < 0 then 0 else c)
  }

  /** The sell dialog of one item kind. */
  class SellItemDialog {
    var items: seq<Descriptor>
    var priceGet: Option<real>
    var priceSell: Option<real>
    var countSell: int
    var open: bool

    constructor (rows: seq<Descriptor>)
      ensures items == rows && priceGet.None? && priceSell.None? && countSell == 1 && open
    {
      items := rows;
      priceGet := None;
      priceSell := None;
      countSell := 1;
      open := true;
    }

    function SumAmount(): nat
      reads this, items
    {
      MarketableTotal(Units(items), Flags(items))
    }

    /** `_set_price_get`. */
    method SetPriceGet(net: Option<real>)
      modifies this
      ensures net.None? ==> priceSell == old(priceSell) && priceGet == old(priceGet)
      ensures net.Some? ==> priceSell.Some? && priceGet.Some? && (priceSell.value, priceGet.value) == DialogFromNet(net.value)
      ensures items == old(items) && countSell == old(countSell) && open == old(open)
    {
      if net.None? {
        return;
      }
      var (s, g) := DialogFromNet(net.value);
      priceSell, priceGet := Some(s), Some(g);
    }

    /** `_set_price_sell`. */
    method SetPriceSell(gross: Option<real>)
      modifies this
      ensures gross.None? ==> priceSell == old(priceSell) && priceGet == old(priceGet)
      ensures gross.Some? ==> priceSell.Some? && priceGet.Some? && (priceSell.value, priceGet.value) == DialogFromGross(gross.value)
      ensures items == old(items) && countSell == old(countSell) && open == old(open)
    {
      if gross.None? {
        return;
      }
      var (s, g) := DialogFromGross(gross.value);
      priceSell, priceGet := Some(s), Some(g);
    }

    /** `_set_sell_count`. */
    method SetSellCount(count: Option<int>, percent: Option<real>)
      modifies this
      ensures countSell == DialogCount(count, percent, SumAmount()).GetOr(old(countSell))
      ensures items == old(items) && priceGet == old(priceGet) && priceSell == old(priceSell) && open == old(open)
    {
      match DialogCount(count, percent, SumAmount()) {
        case None =>
        case Some(c) => countSell := c;
      }
    }

    /** Whether `_on_click_start_sell` gets past its guards. */
    predicate ReadyToSell(connected: bool)
      reads this
    {
      priceGet.Some? && priceGet.value != 0.0 && countSell != 0 && connected
    }

    /**
     * `_on_click_start_sell`: while the dialog is open and something is
     * pending, every marketable row sells its share; the count left becomes
     * the new quantity.
     */
    method OnClickStartSell(connected: bool, answers: seq<bool>) returns (cents: int)
      requires Distinct(items)
      modifies this, items
      ensures items == old(items) && priceGet == old(priceGet) && priceSell == old(priceSell) && open == old(open)
      ensures !old(ReadyToSell(connected)) ==> Units(items) == old(Units(items)) && countSell == old(countSell) && cents == 0
      ensures old(ReadyToSell(connected)) ==>
        var run := if open then SellRows(old(Units(items)), Flags(items), false, old(countSell), answers, 0)
                   else SellRun(old(Units(items)), old(countSell), 0);
        cents == Trunc(old(priceGet).value * 100.0) &&
        Units(items) == run.stacks && countSell == DialogCount(Some(run.count), None, SumAmount()).value
    {
      if !ReadyToSell(connected) {
        return 0;
      }
      var count := countSell;
      cents := Trunc(priceGet.value * 100.0);
      if open {
        var offered;
        count, offered := SellRowsLoop(items, false, count, answers);
      }
      SetSellCount(Some(count), None);
    }
  }

  /** The dialog sells exactly what the sell-all row would for rows with a positive amount. */
  lemma DialogMatchesSellAll(stacks: seq<seq<Unit>>, marketable: seq<bool>, count: int, answers: seq<bool>, next: nat)
    requires |marketable| == |stacks|
    requires forall i :: 0 <= i < |stacks| ==> Amount(stacks[i]) > 0
    ensures SellRows(stacks, marketable, false, count, answers, next) == SellRows(stacks, marketable, true, count, answers, next)
    decreases |stacks|
  {
    if stacks != [] {
      var s := if marketable[0] then SellStep(stacks[0], count, answers, next) else Step(stacks[0], count, next);
      DialogMatchesSellAll(stacks[1..], marketable[1..], s.count, answers, s.next);
    }
  }

  // ----- ItemRowContent._update_market_description -----

  /** What an item row shows about the market. */
  datatype MarketStatus = Restricted(until: BanEnd) | NotMarketable | PriceUnknown | Marketable

  /**
   * `_update_market_description`: a trade-ban end first, then "Not
   * Marketable", then "Price is unknown" without listing or order book,
   * else "Marketable".  A row without an item has no ban and is not marketable.
   */
  function MarketDescription(ban: BanEnd, marketable: bool, hasListing: bool, hasHistogram: bool): MarketStatus
  {
    if ban != NotRestricted then Restricted(ban)
    else if !marketable then NotMarketable
    else if !hasListing && !hasHistogram then PriceUnknown
    else Marketable
  }

  /** A row shows prices exactly when it is not restricted, is marketable and has some price source. */
  lemma MarketDescriptionShowsPrices(ban: BanEnd, marketable: bool, hasListing: bool, hasHistogram: bool)
    ensures MarketDescription(ban, marketable, hasListing, hasHistogram) == Marketable <==>
      ban == NotRestricted && marketable && (hasListing || hasHistogram)
    ensures MarketDescription(ban, marketable, hasListing, hasHistogram).Restricted? <==> ban != NotRestricted
  {
  }
}

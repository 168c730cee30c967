/**
 * Item stacks of the Steam inventory (`InventoryItemRgDescriptions` and its
 * `InventoryItem` units, app/package/data_collectors/steam_api_utility.py).
 *
 * A descriptor describes one (classid, instanceid) item kind and holds the
 * asset units of that kind.  Selling and trading split a stack with
 * `get_amount_items`, and move units between stacks with `add_items` and
 * `remove_items`, which match units by asset id.
 */
module ItemStack {
  import opened Wrappers
  import opened Text

  /** One asset (`InventoryItem`): its id, owning app and context, and how many it holds. */
  datatype Unit = Unit(assetid: string, appid: string, contextid: string, amount: int)

  // ----- amounts -----

  /** Sum of the unit amounts, negative ones included. */
  function Total(us: seq<Unit>): int
  {
    if us == [] then 0 else us[0].amount + Total(us[1..])
  }

  /** Sum of the positive unit amounts: what `get_amount_items` can hand out. */
  function PositiveTotal(us: seq<Unit>): nat
  {
    if us == [] then 0 else (if us[0].amount > 0 then us[0].amount else 0) + PositiveTotal(us[1..])
  }

  /** `get_amount`: the sum of the unit amounts, never below zero. */
  function Amount(us: seq<Unit>): nat
  {
    if Total(us) > 0 then Total(us) else 0
  }

  lemma {:induction false} TotalAppend(a: seq<Unit>, b: seq<Unit>)
    ensures Total(a + b) == Total(a) + Total(b)
  {
    if a == [] {
      assert a + b == b;
    } else {
      TotalAppend(a[1..], b);
      assert (a + b)[1..] == a[1..] + b;
    }
  }

  /** The positive amounts bound the plain sum from above. */
  lemma {:induction false} TotalBelowPositive(us: seq<Unit>)
    ensures Total(us) <= PositiveTotal(us)
    ensures (forall i :: 0 <= i < |us| ==> us[i].amount >= 0) ==> Total(us) == PositiveTotal(us)
  {
    if us != [] {
      TotalBelowPositive(us[1..]);
    }
  }

  // ----- get_amount_items -----

  /**
   * `get_amount_items(k)`: a copy of the units where, walking in order, each
   * positive unit gives as much of the outstanding `k` as it can, and every
   * other unit (and every unit after `k` is used up) gets amount 0.
   */
  function Take(us: seq<Unit>, k: int): seq<Unit>
  {
    if us == [] then []
    else if us[0].amount <= 0 || k <= 0 then [us[0].(amount := 0)] + Take(us[1..], k)
    else if us[0].amount >= k then [us[0].(amount := k)] + Take(us[1..], 0)
    else [us[0]] + Take(us[1..], k - us[0].amount)
  }

  /** The copy has the same assets in the same order, each holding between 0 and what it held. */
  lemma {:induction false} TakeShape(us: seq<Unit>, k: int)
    ensures |Take(us, k)| == |us|
    ensures forall i :: 0 <= i < |us| ==> Take(us, k)[i] == us[i].(amount := Take(us, k)[i].amount)
    ensures forall i :: 0 <= i < |us| ==> 0 <= Take(us, k)[i].amount && (us[i].amount > 0 || Take(us, k)[i].amount == 0)
    ensures forall i :: 0 <= i < |us| ==> Take(us, k)[i].amount <= us[i].amount || us[i].amount <= 0
  {
    if us != [] {
      var k' := if us[0].amount <= 0 || k <= 0 then k else if us[0].amount >= k then 0 else k - us[0].amount;
      TakeShape(us[1..], k');
      var t := Take(us, k);
      assert t[1..] == Take(us[1..], k');
      forall i | 1 <= i < |us| ensures t[i] == us[i].(amount := t[i].amount) {
        assert t[i] == Take(us[1..], k')[i - 1] && us[i] == us[1..][i - 1];
      }
    }
  }

  /** The copy holds exactly `k` units, or everything positive there is when that is less. */
  lemma {:induction false} TakeTotal(us: seq<Unit>, k: int)
    ensures Total(Take(us, k)) == if k <= 0 then 0 else if k <= PositiveTotal(us) then k else PositiveTotal(us)
  {
    if us != [] {
      var k' := if us[0].amount <= 0 || k <= 0 then k else if us[0].amount >= k then 0 else k - us[0].amount;
      TakeTotal(us[1..], k');
      assert Take(us, k)[1..] == Take(us[1..], k');
    }
  }

  /** `get_amount` of the copy, as the trade and sell dialogs read it. */
  lemma TakeAmount(us: seq<Unit>, k: int)
    ensures Amount(Take(us, k)) == if k <= 0 then 0 else if k <= PositiveTotal(us) then k else PositiveTotal(us)
  {
    TakeTotal(us, k);
  }

  /** The first unit of a split, by the three cases of the loop. */
  lemma TakeFirst(us: seq<Unit>, k: int)
    requires us != []
    ensures us[0].amount <= 0 || k <= 0 ==> Take(us, k) == [us[0].(amount := 0)] + Take(us[1..], k)
    ensures us[0].amount > 0 && k > 0 && us[0].amount >= k ==> Take(us, k) == [us[0].(amount := k)] + Take(us[1..], 0)
    ensures us[0].amount > 0 && k > 0 && us[0].amount < k ==> Take(us, k) == [us[0]] + Take(us[1..], k - us[0].amount)
  {
  }

  lemma AppendOne<T>(a: seq<T>, x: T, b: seq<T>)
    ensures a + ([x] + b) == (a + [x]) + b
  {
  }

  // ----- matching units by asset id -----

  /** `next(i for i in items if i.assetid == id)`: the first unit with that asset id. */
  function Find(us: seq<Unit>, id: string): (r: Option<nat>)
    ensures r.Some? ==> r.value < |us| && us[r.value].assetid == id
    ensures r.Some? ==> forall j :: 0 <= j < r.value ==> us[j].assetid != id
    ensures r.None? ==> forall j :: 0 <= j < |us| ==> us[j].assetid != id
  {
    if us == [] then None
    else if us[0].assetid == id then Some(0)
    else match Find(us[1..], id)
      case None => None
      case Some(j) => Some(j + 1)
  }

  /** One step of `remove_items`: the first unit with the asset id loses the amount; no match, no change. */
  function SubtractOne(us: seq<Unit>, o: Unit): seq<Unit>
  {
    match Find(us, o.assetid)
    case None => us
    case Some(i) => us[i := us[i].(amount := us[i].amount - o.amount)]
  }

  /** One step of `add_items`: the first unit with the asset id gains the amount, or the unit is appended. */
  function AddOne(us: seq<Unit>, o: Unit): seq<Unit>
  {
    match Find(us, o.assetid)
    case None => us + [o]
    case Some(i) => us[i := us[i].(amount := us[i].amount + o.amount)]
  }

  /** `remove_items`: each incoming unit in turn. */
  function RemoveUnits(us: seq<Unit>, incoming: seq<Unit>): seq<Unit>
    decreases |incoming|
  {
    if incoming == [] then us else RemoveUnits(SubtractOne(us, incoming[0]), incoming[1..])
  }

  /** `add_items`: each incoming unit in turn. */
  function AddUnits(us: seq<Unit>, incoming: seq<Unit>): seq<Unit>
    decreases |incoming|
  {
    if incoming == [] then us else AddUnits(AddOne(us, incoming[0]), incoming[1..])
  }

  predicate DistinctAssets(us: seq<Unit>)
  {
    forall i, j :: 0 <= i < j < |us| ==> us[i].assetid != us[j].assetid
  }

  /** Some unit of the stack has the asset id. */
  predicate Known(us: seq<Unit>, id: string)
  {
    exists i :: 0 <= i < |us| && us[i].assetid == id
  }

  /** Every incoming unit names an asset the stack holds. */
  predicate AllKnown(us: seq<Unit>, incoming: seq<Unit>)
  {
    forall j :: 0 <= j < |incoming| ==> Known(us, incoming[j].assetid)
  }

  /** How much the incoming units carry for one asset id. */
  function SumFor(incoming: seq<Unit>, id: string): int
  {
    if incoming == [] then 0
    else (if incoming[0].assetid == id then incoming[0].amount else 0) + SumFor(incoming[1..], id)
  }

  /** One `remove_items` step on distinct asset ids: only the unit with the incoming id loses its amount. */
  lemma SubtractOneShape(us: seq<Unit>, o: Unit)
    requires DistinctAssets(us)
    ensures var next := SubtractOne(us, o);
      |next| == |us| && DistinctAssets(next)
      && forall i :: 0 <= i < |us| ==>
        next[i] == us[i].(amount := us[i].amount - (if us[i].assetid == o.assetid then o.amount else 0))
  {
  }

  /** One `add_items` step with a known id on distinct asset ids: only the unit with that id gains the amount. */
  lemma AddOneShape(us: seq<Unit>, o: Unit)
    requires DistinctAssets(us) && Find(us, o.assetid).Some?
    ensures var next := AddOne(us, o);
      |next| == |us| && DistinctAssets(next)
      && forall i :: 0 <= i < |us| ==>
        next[i] == us[i].(amount := us[i].amount + (if us[i].assetid == o.assetid then o.amount else 0))
  {
  }

  /** Units known to a stack stay known to a stack with the same ids in the same places. */
  lemma KnownSameIds(us: seq<Unit>, next: seq<Unit>, incoming: seq<Unit>)
    requires AllKnown(us, incoming) && |next| == |us|
    requires forall i :: 0 <= i < |us| ==> next[i].assetid == us[i].assetid
    ensures AllKnown(next, incoming)
  {
    forall j | 0 <= j < |incoming|
      ensures Known(next, incoming[j].assetid)
    {
      var i :| 0 <= i < |us| && us[i].assetid == incoming[j].assetid;
      assert next[i].assetid == us[i].assetid;
    }
  }

  lemma KnownTail(us: seq<Unit>, incoming: seq<Unit>)
    requires AllKnown(us, incoming) && incoming != []
    ensures AllKnown(us, incoming[1..]) && Find(us, incoming[0].assetid).Some?
  {
    assert Known(us, incoming[0].assetid);
    forall j | 0 <= j < |incoming[1..]|
      ensures Known(us, incoming[1..][j].assetid)
    {
      assert incoming[1..][j] == incoming[j + 1];
    }
  }

  /** `add_items` is its first step, then the rest. */
  lemma AddUnitsCons(us: seq<Unit>, incoming: seq<Unit>)
    requires incoming != []
    ensures AddUnits(us, incoming) == AddUnits(AddOne(us, incoming[0]), incoming[1..])
  {
  }

  /** `remove_items` is its first step, then the rest. */
  lemma RemoveUnitsCons(us: seq<Unit>, incoming: seq<Unit>)
    requires incoming != []
    ensures RemoveUnits(us, incoming) == RemoveUnits(SubtractOne(us, incoming[0]), incoming[1..])
  {
  }

  /** With distinct asset ids, removing lowers each unit by what the incoming units carry for its id. */
  lemma {:induction false} RemoveUnitsPointwise(us: seq<Unit>, incoming: seq<Unit>)
    requires DistinctAssets(us)
    ensures |RemoveUnits(us, incoming)| == |us|
    ensures forall i :: 0 <= i < |us| ==>
      RemoveUnits(us, incoming)[i] == us[i].(amount := us[i].amount - SumFor(incoming, us[i].assetid))
    decreases |incoming|
  {
    if incoming != [] {
      var o := incoming[0];
      var next := SubtractOne(us, o);
      SubtractOneShape(us, o);
      RemoveUnitsPointwise(next, incoming[1..]);
    }
  }

  /** With distinct asset ids and only known incoming units, adding raises each unit by what is carried for its id. */
  lemma {:induction false} AddUnitsPointwise(us: seq<Unit>, incoming: seq<Unit>)
    requires DistinctAssets(us) && AllKnown(us, incoming)
    ensures |AddUnits(us, incoming)| == |us|
    ensures forall i :: 0 <= i < |us| ==>
      AddUnits(us, incoming)[i] == us[i].(amount := us[i].amount + SumFor(incoming, us[i].assetid))
    decreases |incoming|
  {
    if incoming != [] {
      var o := incoming[0];
      KnownTail(us, incoming);
      var next := AddOne(us, o);
      AddOneShape(us, o);
      KnownSameIds(us, next, incoming[1..]);
      AddUnitsPointwise(next, incoming[1..]);
    }
  }

  /** `remove_items` lowers the raw sum by the amounts of the incoming units it finds. */
  lemma {:induction false} RemoveUnitsTotal(us: seq<Unit>, incoming: seq<Unit>)
    requires AllKnown(us, incoming)
    ensures Total(RemoveUnits(us, incoming)) == Total(us) - Total(incoming)
    decreases |incoming|
  {
    if incoming != [] {
      var o := incoming[0];
      KnownTail(us, incoming);
      var i := Find(us, o.assetid).value;
      var next := SubtractOne(us, o);
      assert next == us[i := us[i].(amount := us[i].amount - o.amount)];
      TotalUpdate(us, i, us[i].amount - o.amount);
      KnownSameIds(us, next, incoming[1..]);
      RemoveUnitsTotal(next, incoming[1..]);
    }
  }

  /** `add_items` raises the raw sum by the amounts of all incoming units, matched or appended. */
  lemma {:induction false} AddUnitsTotal(us: seq<Unit>, incoming: seq<Unit>)
    ensures Total(AddUnits(us, incoming)) == Total(us) + Total(incoming)
    decreases |incoming|
  {
    if incoming != [] {
      var o := incoming[0];
      AddOneTotal(us, o);
      AddUnitsTotal(AddOne(us, o), incoming[1..]);
    }
  }

  /** One `add_items` step raises the raw sum by the unit's amount. */
  lemma AddOneTotal(us: seq<Unit>, o: Unit)
    ensures Total(AddOne(us, o)) == Total(us) + o.amount
  {
    match Find(us, o.assetid) {
      case None =>
        assert AddOne(us, o) == us + [o];
        TotalAppend(us, [o]);
        assert Total([o]) == o.amount;
      case Some(i) =>
        assert AddOne(us, o) == us[i := us[i].(amount := us[i].amount + o.amount)];
        TotalUpdate(us, i, us[i].amount + o.amount);
    }
  }

  /** Changing one amount changes the sum by the difference. */
  lemma {:induction false} TotalUpdate(us: seq<Unit>, i: nat, a: int)
    requires i < |us|
    ensures Total(us[i := us[i].(amount := a)]) == Total(us) - us[i].amount + a
  {
    if i > 0 {
      TotalUpdate(us[1..], i - 1, a);
      assert us[i := us[i].(amount := a)][1..] == us[1..][i - 1 := us[i].(amount := a)];
    }
  }

  /** The split-off copy names only assets of the stack it came from. */
  lemma TakeKnown(us: seq<Unit>, k: int)
    ensures AllKnown(us, Take(us, k))
  {
    TakeShape(us, k);
    forall j | 0 <= j < |Take(us, k)|
      ensures Known(us, Take(us, k)[j].assetid)
    {
      assert us[j].assetid == Take(us, k)[j].assetid;
    }
  }

  /**
   * Taking `k` from a stack and removing what was taken leaves
   * `get_amount` lowered by `k`, or emptied when it held less.
   */
  lemma TakeThenRemove(us: seq<Unit>, k: int)
    ensures Amount(RemoveUnits(us, Take(us, k))) ==
      Amount(us) - (if k <= 0 then 0 else if k <= Amount(us) then k else Amount(us))
  {
    TakeKnown(us, k);
    RemoveUnitsTotal(us, Take(us, k));
    TakeTotal(us, k);
    TotalBelowPositive(us);
  }

  /** Removing units and adding the same units back restores the stack exactly. */
  lemma RemoveThenAdd(us: seq<Unit>, moved: seq<Unit>)
    requires DistinctAssets(us) && AllKnown(us, moved)
    ensures AddUnits(RemoveUnits(us, moved), moved) == us
  {
    var r := RemoveUnits(us, moved);
    RemoveUnitsPointwise(us, moved);
    assert forall i :: 0 <= i < |us| ==> r[i].assetid == us[i].assetid;
    assert DistinctAssets(r);
    KnownSameIds(us, r, moved);
    AddUnitsPointwise(r, moved);
    var a := AddUnits(r, moved);
    forall i | 0 <= i < |us| ensures a[i] == us[i] {
      assert a[i] == r[i].(amount := r[i].amount + SumFor(moved, r[i].assetid));
    }
  }

  /** Adding known units and removing them again restores the stack exactly. */
  lemma AddThenRemove(us: seq<Unit>, moved: seq<Unit>)
    requires DistinctAssets(us) && AllKnown(us, moved)
    ensures RemoveUnits(AddUnits(us, moved), moved) == us
  {
    var a := AddUnits(us, moved);
    AddUnitsPointwise(us, moved);
    assert forall i :: 0 <= i < |us| ==> a[i].assetid == us[i].assetid;
    assert DistinctAssets(a);
    RemoveUnitsPointwise(a, moved);
    var r := RemoveUnits(a, moved);
    assert |r| == |us|;
    forall i | 0 <= i < |us| ensures r[i] == us[i] {
      assert r[i] == a[i].(amount := a[i].amount - SumFor(moved, a[i].assetid));
    }
  }

  /** A stack split with `get_amount_items` and returned with `add_items` is what it was before. */
  lemma TakeRemoveAddRestores(us: seq<Unit>, k: int)
    requires DistinctAssets(us)
    ensures AddUnits(RemoveUnits(us, Take(us, k)), Take(us, k)) == us
  {
    TakeKnown(us, k);
    RemoveThenAdd(us, Take(us, k));
  }

  // ----- the descriptor -----

  /** The result of the owner-description scan behind `end_ban_marketable`. */
  datatype BanEnd =
    | NotRestricted
    | GmtText(text: string)        // a description mentioning GMT, returned as text
    | TaggedTime(epoch: nat)       // a `[date]N[/date]` tag
    | LocalDate(stamp: string)     // a "DD Month YYYY (H:MM:SS)" date that parsed

  /** How the localized date pattern fared on a description's text. */
  datatype LocalDateMatch = NoLocalDate | ParsedLocalDate(stamp: string) | UnparsableLocalDate

  /** An owner description: its text, and the outcome of the localized date parse on it. */
  datatype OwnerDescription = OwnerDescription(value: string, localDate: LocalDateMatch)

  /** The `[date]N[/date]` tag that starts at position `i`, if one does. */
  function DateTagAt(s: string, i: nat): Option<nat>
    requires i <= |s|
  {
    if !OccursAt(s, "[date]", i) then None
    else
      var j := DigitRunEnd(s, i + 6);
      if j > i + 6 && OccursAt(s, "[/date]", j) then Some(DigitsValue(s[i + 6..j])) else None
  }

  /** The leftmost `[date]N[/date]` tag at or after position `i`. */
  function FindDateTag(s: string, i: nat): Option<nat>
    requires i <= |s|
    decreases |s| - i
  {
    if DateTagAt(s, i).Some? then DateTagAt(s, i)
    else if i == |s| then None
    else FindDateTag(s, i + 1)
  }

  /** A tag written out as `[date]N[/date]` is read back as N. */
  lemma DateTagRoundTrip(n: nat, rest: string)
    ensures FindDateTag("[date]" + NatToString(n) + "[/date]" + rest, 0) == Some(n)
  {
    var d := NatToString(n);
    var s := "[date]" + d + "[/date]" + rest;
    assert s[..6] == "[date]";
    assert s[6..6 + |d|] == d;
    assert s[6 + |d|..6 + |d| + 7] == "[/date]";
    assert OccursAt(s, "[date]", 0);
    assert s == "[date]" + d + ("[/date]" + rest);
    DigitRunOfDigits("[date]" + d, "[/date]" + rest, 6);
    NatToStringRoundTrip(n);
  }

  /** What one owner description settles: nothing when blank or when no date form is found in it. */
  function Outcome(d: OwnerDescription): (r: Option<BanEnd>)
    ensures r.Some? ==> !r.value.NotRestricted?
    ensures r.Some? ==> Strip(d.value) != []
  {
    var v := d.value;
    if Strip(v) == [] then None
    else if Contains(v, "GMT") then Some(GmtText(v))
    else if FindDateTag(v, 0).Some? then Some(TaggedTime(FindDateTag(v, 0).value))
    else if d.localDate.ParsedLocalDate? then Some(LocalDate(d.localDate.stamp))
    else None
  }

  /** `__extract_date_from_owner_descriptions`: the first description that settles it. */
  function EndBan(ds: seq<OwnerDescription>): BanEnd
  {
    if ds == [] then NotRestricted
    else match Outcome(ds[0])
      case Some(b) => b
      case None => EndBan(ds[1..])
  }

  predicate Settles(d: OwnerDescription)
  {
    Outcome(d).Some?
  }

  /** A first description that does not settle it hands the search to the rest. */
  lemma EndBanSkip(ds: seq<OwnerDescription>)
    requires ds != [] && !Settles(ds[0])
    ensures EndBan(ds) == EndBan(ds[1..])
  {
  }

  /** Past an unsettling first description, "none settles" means the same on the rest. */
  lemma {:induction false} NoneSettlesTail(ds: seq<OwnerDescription>)
    requires ds != [] && !Settles(ds[0])
    ensures (forall k :: 0 <= k < |ds| ==> !Settles(ds[k])) <==> (forall k :: 0 <= k < |ds[1..]| ==> !Settles(ds[1..][k]))
  {
    assert forall k :: 0 <= k < |ds[1..]| ==> ds[1..][k] == ds[k + 1];
    forall k | 0 <= k < |ds| && (forall k :: 0 <= k < |ds[1..]| ==> !Settles(ds[1..][k]))
      ensures !Settles(ds[k])
    {
      if k > 0 {
        assert ds[k] == ds[1..][k - 1];
      }
    }
  }

  /** No restriction is reported exactly when no description settles it. */
  lemma {:induction false} EndBanNoneIff(ds: seq<OwnerDescription>)
    ensures EndBan(ds) == NotRestricted <==> forall k :: 0 <= k < |ds| ==> !Settles(ds[k])
  {
    if ds != [] {
      EndBanNoneIff(ds[1..]);
      if !Settles(ds[0]) {
        EndBanSkip(ds);
        NoneSettlesTail(ds);
      }
    }
  }

  /** Text is reported only when it comes from a description that mentions GMT. */
  lemma {:induction false} EndBanGmtSource(ds: seq<OwnerDescription>)
    ensures EndBan(ds).GmtText? ==> exists k :: 0 <= k < |ds| && EndBan(ds).text == ds[k].value && Contains(ds[k].value, "GMT")
  {
    if ds != [] && EndBan(ds).GmtText? {
      if Outcome(ds[0]).None? {
        EndBanGmtSource(ds[1..]);
        var k :| 0 <= k < |ds[1..]| && EndBan(ds[1..]).text == ds[1..][k].value && Contains(ds[1..][k].value, "GMT");
        assert ds[k + 1] == ds[1..][k];
      }
    }
  }

  /** The parts of a description that no operation here changes. */
  datatype DescriptionInfo = DescriptionInfo(
    appid: string,
    classid: string,
    instanceid: string,
    name: string,
    nameColor: string,
    marketHashName: string,
    tradable: bool,
    marketable: bool,
    ownerDescriptions: seq<OwnerDescription>)

  /** `get_item_id`. */
  function ItemId(info: DescriptionInfo): string
  {
    info.classid + "_" + info.instanceid
  }

  /** For Steam's numeric ids the item id names the (classid, instanceid) pair uniquely. */
  lemma ItemIdInjective(a: DescriptionInfo, b: DescriptionInfo)
    requires Digits(a.classid) && Digits(a.instanceid) && Digits(b.classid) && Digits(b.instanceid)
    requires ItemId(a) == ItemId(b)
    ensures a.classid == b.classid && a.instanceid == b.instanceid
  {
    assert '_' !in a.classid && '_' !in a.instanceid;
    assert '_' !in b.classid && '_' !in b.instanceid;
    assert Join([a.classid, a.instanceid], "_") == ItemId(a);
    assert Join([b.classid, b.instanceid], "_") == ItemId(b);
    SplitJoin([a.classid, a.instanceid], "_");
    SplitJoin([b.classid, b.instanceid], "_");
  }

  /** `get_color`: empty without a colour, else the colour with every '#' dropped and one put in front. */
  function Color(nameColor: string): (r: string)
    ensures r == [] <==> nameColor == []
    ensures r != [] ==> r[0] == '#' && '#' !in r[1..]
  {
    if nameColor == [] then "" else ("#" + RemoveChar(nameColor, '#'))
  }

  /** `s.replace(c, '')` for one character. */
  function RemoveChar(s: string, c: char): (r: string)
    ensures c !in r
    ensures forall x :: x in r <==> x in s && x != c
  {
    if s == [] then "" else (if s[0] == c then "" else [s[0]]) + RemoveChar(s[1..], c)
  }

  /** Applying `get_color` to its own result changes nothing. */
  lemma {:induction false} ColorIdempotent(nameColor: string)
    ensures Color(Color(nameColor)) == Color(nameColor)
  {
    if nameColor != [] {
      var r := RemoveChar(nameColor, '#');
      RemoveCharAbsent(r, '#');
      assert "#" + r == ['#'] + r;
      assert RemoveChar(['#'] + r, '#') == RemoveChar(r, '#');
    }
  }

  lemma {:induction false} RemoveCharAbsent(s: string, c: char)
    requires c !in s
    ensures RemoveChar(s, c) == s
  {
    if s != [] {
      RemoveCharAbsent(s[1..], c);
      assert s == [s[0]] + s[1..];
    }
  }

  /** `get_market_url`: none without a market hash name. */
  function MarketUrl(info: DescriptionInfo): (r: Option<string>)
    ensures r.None? <==> info.marketHashName == []
    ensures r.Some? ==> StartsWith(r.value, "https://steamcommunity.com/market/listings/")
  {
    if info.marketHashName == [] then None
    else Some("https://steamcommunity.com/market/listings/" + info.appid + "/" + info.marketHashName)
  }

  /** A description kind together with the units it holds. */
  class Descriptor {
    const info: DescriptionInfo
    var units: seq<Unit>

    constructor (info: DescriptionInfo, units: seq<Unit>)
      ensures this.info == info && this.units == units
    {
      this.info := info;
      this.units := units;
    }

    /** Whether another descriptor describes the same (classid, instanceid). */
    predicate SameKind(other: Descriptor)
    {
      other.info.classid == info.classid && other.info.instanceid == info.instanceid
    }

    /** `get_amount_items(k)`: a new descriptor of the same kind holding the split-off units. */
    method GetAmountItems(k: int) returns (copy: Descriptor)
      ensures fresh(copy)
      ensures copy.info == info && copy.units == Take(units, k)
    {
      var taken: seq<Unit> := [];
      var outstanding := k;
      var i := 0;
      while i < |units|
        invariant 0 <= i <= |units|
        invariant taken + Take(units[i..], outstanding) == Take(units, k)
      {
        var u := units[i];
        ghost var rest := units[i..];
        assert rest[0] == u && rest[1..] == units[i + 1..];
        TakeFirst(rest, outstanding);
        var x: Unit, next: int;
        if u.amount <= 0 || outstanding <= 0 {
          x, next := u.(amount := 0), outstanding;
        } else if u.amount >= outstanding {
          x, next := u.(amount := outstanding), 0;
        } else {
          x, next := u, outstanding - u.amount;
        }
        AppendOne(taken, x, Take(units[i + 1..], next));
        taken, outstanding := taken + [x], next;
        i := i + 1;
      }
      copy := new Descriptor(info, taken);
    }

    /** `add_items`: ignored for no descriptor or another kind; otherwise each unit is merged or appended. */
    method AddItems(other: Descriptor?)
      modifies this
      ensures units == if other == null || !SameKind(other) then old(units) else AddUnits(old(units), old(other.units))
    {
      if other == null || !SameKind(other) {
        return;
      }
      var incoming := other.units;
      var i := 0;
      while i < |incoming|
        invariant 0 <= i <= |incoming|
        invariant AddUnits(units, incoming[i..]) == AddUnits(old(units), incoming)
      {
        assert incoming[i..][0] == incoming[i] && incoming[i..][1..] == incoming[i + 1..];
        var o := incoming[i];
        AddUnitsCons(units, incoming[i..]);
        ghost var next := AddOne(units, o);
        match Find(units, o.assetid) {
          case None =>
            units := units + [o];
          case Some(j) =>
            units := units[j := units[j].(amount := units[j].amount + o.amount)];
        }
        assert units == next;
        i := i + 1;
      }
    }

    /** `remove_items`: ignored for no descriptor or another kind; otherwise each matched unit loses the amount. */
    method RemoveItems(other: Descriptor?)
      modifies this
      ensures units == if other == null || !SameKind(other) then old(units) else RemoveUnits(old(units), old(other.units))
    {
      if other == null || !SameKind(other) {
        return;
      }
      var incoming := other.units;
      var i := 0;
      while i < |incoming|
        invariant 0 <= i <= |incoming|
        invariant RemoveUnits(units, incoming[i..]) == RemoveUnits(old(units), incoming)
      {
        assert incoming[i..][0] == incoming[i] && incoming[i..][1..] == incoming[i + 1..];
        var o := incoming[i];
        RemoveUnitsCons(units, incoming[i..]);
        ghost var next := SubtractOne(units, o);
        match Find(units, o.assetid) {
          case None =>
          case Some(j) =>
            units := units[j := units[j].(amount := units[j].amount - o.amount)];
        }
        assert units == next;
        i := i + 1;
      }
    }
  }

  /** The stacks of the rows. */
  function Units(items: seq<Descriptor>): (r: seq<seq<Unit>>)
    reads items
    ensures |r| == |items| && forall i :: 0 <= i < |items| ==> r[i] == items[i].units
  {
    if items == [] then [] else [items[0].units] + Units(items[1..])
  }

  /** Rows that are pairwise different objects. */
  predicate Distinct(items: seq<Descriptor>)
  {
    forall i, j :: 0 <= i < j < |items| ==> items[i] != items[j]
  }

  /** The stacks read off rows that hold the given ones. */
  lemma UnitsAre(items: seq<Descriptor>, stacks: seq<seq<Unit>>)
    requires |stacks| == |items| && forall j :: 0 <= j < |items| ==> items[j].units == stacks[j]
    ensures Units(items) == stacks
  {
  }

  /** The example of splitting a stack of 3 and 5 for 7, then removing what was taken. */
  lemma SplitExample()
    ensures Take([Unit("a", "730", "2", 3), Unit("b", "730", "2", 5)], 7)
         == [Unit("a", "730", "2", 3), Unit("b", "730", "2", 4)]
    ensures RemoveUnits([Unit("a", "730", "2", 3), Unit("b", "730", "2", 5)],
                        [Unit("a", "730", "2", 3), Unit("b", "730", "2", 4)])
         == [Unit("a", "730", "2", 0), Unit("b", "730", "2", 1)]
  {
    var us := [Unit("a", "730", "2", 3), Unit("b", "730", "2", 5)];
    assert us[1..] == [Unit("b", "730", "2", 5)];
    var r1 := SubtractOne(us, Unit("a", "730", "2", 3));
    assert Find(us, "a") == Some(0);
    assert r1 == [Unit("a", "730", "2", 0), Unit("b", "730", "2", 5)];
    assert Find(r1, "b") == Some(1);
  }
}

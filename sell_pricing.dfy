/**
 * Market price rules of the inventory page (app/ui/pages/page_inventory.py):
 * reading a typed price, converting between what the buyer pays (gross)
 * and what the seller receives (net) under Steam's 15% fee with a two-cent
 * minimum, and the clamps `set_price` applies.  Prices are `real`s in the
 * wallet currency; floating-point rounding is not modelled.
 */
module SellPricing {
  import opened Wrappers
  import opened Text

  // ----- parce_value -----

  /** The result of `parce_value`: a float, or '' when the text holds no digit. */
  datatype Parsed = Number(value: real) | NoNumber

  /** The first digit at or after position `i`. */
  function FirstDigit(s: string, i: nat): (r: Option<nat>)
    requires i <= |s|
    ensures r.Some? ==> i <= r.value < |s| && IsDigit(s[r.value]) && forall k :: i <= k < r.value ==> !IsDigit(s[k])
    ensures r.None? ==> forall k :: i <= k < |s| ==> !IsDigit(s[k])
    decreases |s| - i
  {
    if i == |s| then None else if IsDigit(s[i]) then Some(i) else FirstDigit(s, i + 1)
  }

  function Pow10(n: nat): (r: nat)
    ensures r >= 1
  {
    if n == 0 then 1 else 10 * Pow10(n - 1)
  }

  /** Where the at most three fraction digits that start at `k` end. */
  function FractionEnd(s: string, k: nat): (e: nat)
    requires k <= |s|
    ensures k <= e <= |s| && e <= k + 3
    ensures forall m :: k <= m < e ==> IsDigit(s[m])
  {
    var run := DigitRunEnd(s, k);
    if run <= k + 3 then run else k + 3
  }

  /** The decimal `whole.frac` where `frac` was written with `places` digits. */
  function Decimal(whole: nat, frac: nat, places: nat): (r: real)
    ensures r >= whole as real
  {
    whole as real + frac as real / Pow10(places) as real
  }

  /** The number whose first digit sits at `i`: its digit run, then an optional point and up to three digits. */
  function NumberAt(s: string, i: nat): real
    requires i < |s|
  {
    var j := DigitRunEnd(s, i);
    if j < |s| && s[j] == '.' then
      var e := FractionEnd(s, j + 1);
      Decimal(DigitsValue(s[i..j]), DigitsValue(s[j + 1..e]), e - j - 1)
    else DigitsValue(s[i..j]) as real
  }

  /**
   * `parce_value`: commas become points, then the leftmost `\d+(\.\d{0,3})?`
   * is read as a decimal number.
   */
  function ParceValue(text: string): Parsed
  {
    var s := ReplaceChar(text, ',', '.');
    match FirstDigit(s, 0)
    case None => NoNumber
    case Some(i) => Number(NumberAt(s, i))
  }

  /** A text yields no number exactly when it holds no digit, and a number read is never negative. */
  lemma ParceValueShape(text: string)
    ensures ParceValue(text) == NoNumber <==> forall k :: 0 <= k < |text| ==> !IsDigit(text[k])
    ensures ParceValue(text).Number? ==> ParceValue(text).value >= 0.0
  {
    var s := ReplaceChar(text, ',', '.');
    assert forall k :: 0 <= k < |text| ==> (IsDigit(s[k]) <==> IsDigit(text[k]));
  }

  /** A comma and a point are read alike. */
  lemma ParceValueCommaPoint(text: string)
    ensures ParceValue(ReplaceChar(text, ',', '.')) == ParceValue(text)
  {
    NoCommaUnchanged(ReplaceChar(text, ',', '.'));
  }

  /** `f'{x:.2f}'` of an amount of cents. */
  function FormatCents(cents: nat): string
  {
    NatToString(cents / 100) + "." + [DigitChar(cents % 100 / 10), DigitChar(cents % 10)]
  }

  /** A number written as digits, a point and up to three digits reads back as that decimal. */
  lemma ParseDecimal(w: string, f: string)
    requires IsNumeric(w) && Digits(f) && |f| <= 3
    ensures ParceValue(w + "." + f) == Number(Decimal(DigitsValue(w), DigitsValue(f), |f|))
  {
    var t := w + "." + f;
    DecimalHasNoComma(w, f);
    NoCommaUnchanged(t);
    assert t[0] == w[0];
    assert FirstDigit(t, 0) == Some(0);
    DecimalRuns(w, f);
  }

  lemma DecimalHasNoComma(w: string, f: string)
    requires Digits(w) && Digits(f)
    ensures forall k :: 0 <= k < |w + "." + f| ==> (w + "." + f)[k] != ','
  {
    var t := w + "." + f;
    forall k | 0 <= k < |t| ensures t[k] != ',' {
      if k < |w| { assert t[k] == w[k]; } else if k > |w| { assert t[k] == f[k - |w| - 1]; }
    }
  }

  lemma DecimalRuns(w: string, f: string)
    requires IsNumeric(w) && Digits(f) && |f| <= 3
    ensures NumberAt(w + "." + f, 0) == Decimal(DigitsValue(w), DigitsValue(f), |f|)
  {
    var t := w + "." + f;
    WholeRun(w, f);
    FractionRun(w, f);
    assert t[0..|w|] == w;
    assert t[|w| + 1..|w| + 1 + |f|] == f;
    NumberAtPoint(t, 0, |w|, |w| + 1 + |f|, w, f);
  }

  /** The number at `i` read from its whole part `a` and fraction part `b`. */
  lemma NumberAtPoint(s: string, i: nat, j: nat, e: nat, a: string, b: string)
    requires i < |s| && DigitRunEnd(s, i) == j && j < |s| && s[j] == '.' && FractionEnd(s, j + 1) == e
    requires s[i..j] == a && s[j + 1..e] == b
    ensures NumberAt(s, i) == Decimal(DigitsValue(a), DigitsValue(b), |b|)
  {
  }

  lemma WholeRun(w: string, f: string)
    requires IsNumeric(w) && Digits(f)
    ensures DigitRunEnd(w + "." + f, 0) == |w| && (w + "." + f)[|w|] == '.'
  {
    assert w + "." + f == w + ("." + f);
    DigitRunOfDigits(w, "." + f, 0);
  }

  lemma FractionRun(w: string, f: string)
    requires Digits(f) && |f| <= 3
    ensures FractionEnd(w + "." + f, |w| + 1) == |w| + 1 + |f|
  {
    var t := w + "." + f;
    forall k | |w| + 1 <= k < |t| ensures IsDigit(t[k]) {
      assert t[k] == f[k - |w| - 1];
    }
    DigitRunOfDigits(t, [], |w| + 1);
    assert t + [] == t;
  }

  /** Reading back a price the page displayed (`f'{x:.2f}'`) gives the price. */
  lemma ParseDisplayedPrice(cents: nat)
    ensures ParceValue(FormatCents(cents)) == Number(cents as real / 100.0)
  {
    var f := [DigitChar(cents % 100 / 10), DigitChar(cents % 10)];
    ParseDecimal(NatToString(cents / 100), f);
    NatToStringRoundTrip(cents / 100);
    TwoDigits(cents % 100 / 10, cents % 10);
    CentsDecimal(cents);
  }

  lemma TwoDigits(a: nat, b: nat)
    requires a < 10 && b < 10
    ensures DigitsValue([DigitChar(a), DigitChar(b)]) == a * 10 + b
  {
    var f := [DigitChar(a), DigitChar(b)];
    assert f[..|f| - 1] == [DigitChar(a)];
    assert [DigitChar(a)][..0] == [];
    assert DigitsValue([DigitChar(a)]) == a;
    assert DigitsValue(f) == DigitsValue([DigitChar(a)]) * 10 + DigitValue(DigitChar(b));
  }

  lemma CentsDecimal(cents: nat)
    ensures Decimal(cents / 100, cents % 100 / 10 * 10 + cents % 10, 2) == cents as real / 100.0
  {
    var q, r := cents / 100, cents % 100;
    var a, b := r / 10, r % 10;
    assert cents == 10 * (10 * q + a) + b;
    assert cents % 10 == b;
    assert Pow10(2) == 100;
    assert (cents as real) == (q as real) * 100.0 + (r as real);
  }

  lemma {:induction false} NoCommaUnchanged(t: string)
    requires forall k :: 0 <= k < |t| ==> t[k] != ','
    ensures ReplaceChar(t, ',', '.') == t
  {
  }

  /** A plain whole number reads back as itself. */
  lemma ParseWholeNumber(n: nat)
    ensures ParceValue(NatToString(n)) == Number(n as real)
  {
    var t := NatToString(n);
    NoCommaUnchanged(t);
    assert FirstDigit(t, 0) == Some(0);
    DigitRunOfDigits(t, [], 0);
    assert t[0..|t|] == t;
    NatToStringRoundTrip(n);
  }

  // ----- gross and net -----

  /** The smallest fee Steam takes, and the smallest prices it accepts. */
  const MinCommission: real := 0.02
  const MinNet: real := 0.01
  const MinGross: real := 0.03

  /** `_calculate_price_buy`: what the buyer pays for a net price; 0 below one cent. */
  function GrossFromNet(net: real): real
  {
    if net < MinNet then 0.0
    else
      var gross := net / 100.0 * 115.0;
      var gross' := if gross - net < MinCommission then net + MinCommission else gross;
      if gross' < MinGross then MinGross else gross'
  }

  /** `_calculate_price_sell`: what the seller receives for a gross price; 0 below three cents. */
  function NetFromGross(gross: real): real
  {
    if gross < MinGross then 0.0
    else
      var net := gross / 115.0 * 100.0;
      var net' := if gross - net < MinCommission then gross - MinCommission else net;
      if net' < MinNet then MinNet else net'
  }

  /**
   * From one cent up, the buyer pays at least 3 cents and the fee is at least
   * 2 cents: the net price plus 15% once that fee reaches 2 cents (from
   * 2/15 of a unit up), the net price plus 2 cents below that.
   */
  lemma GrossFloors(net: real)
    ensures net < MinNet ==> GrossFromNet(net) == 0.0
    ensures net >= MinNet ==> GrossFromNet(net) >= MinGross && GrossFromNet(net) - net >= MinCommission
    ensures net >= MinNet && net * 15.0 >= 2.0 ==> GrossFromNet(net) == net * 1.15
    ensures net >= MinNet && net * 15.0 < 2.0 ==> GrossFromNet(net) == net + MinCommission
  {
  }

  /**
   * From three cents up, the seller gets at least a cent and the fee is at
   * least 2 cents: the gross price less its 15% share once that share reaches
   * 2 cents (from 2.3/15 of a unit up), the gross price less 2 cents below that.
   */
  lemma NetFloors(gross: real)
    ensures gross < MinGross ==> NetFromGross(gross) == 0.0
    ensures gross >= MinGross ==> NetFromGross(gross) >= MinNet && gross - NetFromGross(gross) >= MinCommission
    ensures gross >= MinGross && gross * 15.0 >= 2.3 ==> NetFromGross(gross) == gross / 1.15
    ensures gross >= MinGross && gross * 15.0 < 2.3 ==> NetFromGross(gross) == gross - MinCommission
  {
  }

  /** The net price of the gross price of a net price is that net price. */
  lemma NetOfGross(net: real)
    requires net >= MinNet
    ensures NetFromGross(GrossFromNet(net)) == net
  {
    var g := GrossFromNet(net);
    if net * 15.0 >= 2.0 {
      assert g == net / 100.0 * 115.0;
      assert g / 115.0 * 100.0 == net;
    } else {
      assert g == net + MinCommission;
      assert g - g / 115.0 * 100.0 < MinCommission;
    }
  }

  /** The gross price of the net price of a gross price is that gross price. */
  lemma GrossOfNet(gross: real)
    requires gross >= MinGross
    ensures GrossFromNet(NetFromGross(gross)) == gross
  {
    var n := NetFromGross(gross);
    if gross * 15.0 >= 2.3 {
      assert n == gross / 115.0 * 100.0;
      assert n / 100.0 * 115.0 == gross;
    } else {
      assert n == gross - MinCommission;
      assert n / 100.0 * 115.0 - n < MinCommission;
    }
  }

  // ----- rounding to cents -----

  /** `round(x, 2) * 100` as a whole number of cents (half up). */
  function Cents(x: real): int
  {
    (x * 100.0 + 0.5).Floor
  }

  /** `round(x, 2)`. */
  function Round2(x: real): real
  {
    Cents(x) as real / 100.0
  }

  /** `int(x)`: the whole part, cut toward zero. */
  function Trunc(x: real): (r: int)
    ensures x >= 0.0 ==> r >= 0 && r as real <= x < r as real + 1.0
    ensures x < 0.0 ==> r <= 0 && r as real - 1.0 < x <= r as real
  {
    if x >= 0.0 then x.Floor else -((-x).Floor)
  }

  /** A whole number of cents, written as a price and read back by `int(price * 100)`, is itself. */
  lemma CentsOfRound2(x: real)
    ensures Trunc(Round2(x) * 100.0) == Cents(x)
  {
  }

  /** A price rounds to zero exactly when it is under half a cent in size. */
  lemma Round2Zero(x: real)
    ensures Round2(x) == 0.0 <==> -0.005 <= x < 0.005
  {
  }

  // ----- set_price -----

  /** The settings `set_price` reads. */
  datatype PriceSettings = PriceSettings(
    percent: real,          // _price_sell_percent
    minimumAutoBuy: bool,   // _is_minimum_auto_buy
    minimumPrice: real,     // _minimum_price
    dontSell: real,         // _price_dont_sell
    histogramBuy: real)     // _histogram_price_buy

  /** The stored pair (_price_sell, _price_get). */
  datatype Prices = Prices(sell: Option<real>, get: Option<real>)

  const Zero: Prices := Prices(Some(0.0), Some(0.0))

  /** Whether the auto-buy floor applies: switched on and a non-zero best bid. */
  predicate AutoBuyFloor(cfg: PriceSettings)
  {
    cfg.minimumAutoBuy && cfg.histogramBuy != 0.0
  }

  /** The price_sell branch of `set_price`. */
  function FromSell(cfg: PriceSettings, sell: real): Prices
  {
    var p := sell * cfg.percent;
    var p' := if AutoBuyFloor(cfg) && cfg.histogramBuy > p then cfg.histogramBuy else p;
    var p'' := if p' < cfg.minimumPrice then cfg.minimumPrice else p';
    if p'' <= cfg.dontSell then Zero else Prices(Some(p''), Some(NetFromGross(p'')))
  }

  /** The price_get branch of `set_price`, with its re-entries into the price_sell branch. */
  function FromGet(cfg: PriceSettings, net: real): Prices
  {
    var gross := GrossFromNet(net);
    if AutoBuyFloor(cfg) && cfg.histogramBuy > gross then FromSell(cfg, cfg.histogramBuy)
    else if gross < cfg.minimumPrice then FromSell(cfg, cfg.minimumPrice)
    else if gross <= cfg.dontSell then Zero
    else Prices(Some(gross), Some(net))
  }

  /**
   * `set_price(price_sell, price_get)`: none given clears both; a zero clears
   * both to 0; otherwise the given side decides, the net side last.
   */
  function SetPrice(cfg: PriceSettings, sell: Option<real>, get: Option<real>): Prices
  {
    if sell.None? && get.None? then Prices(None, None)
    else if sell == Some(0.0) || get == Some(0.0) then Zero
    else if get.Some? then FromGet(cfg, get.value)
    else FromSell(cfg, sell.value)
  }

  /** Unless cleared, the stored gross price is at least the minimum, above the don't-sell line and at least the best bid when auto-buy is on. */
  lemma SetPriceFloors(cfg: PriceSettings, sell: Option<real>, get: Option<real>)
    requires sell.Some? || get.Some?
    ensures var r := SetPrice(cfg, sell, get);
      r == Zero || (r.sell.Some? && r.sell.value >= cfg.minimumPrice && r.sell.value > cfg.dontSell &&
                    (AutoBuyFloor(cfg) ==> r.sell.value >= cfg.histogramBuy))
  {
  }

  /**
   * Unless cleared, the stored net price is what the seller receives for the
   * stored gross price (for a non-negative don't-sell line).
   */
  lemma SetPriceConsistent(cfg: PriceSettings, sell: Option<real>, get: Option<real>)
    requires sell.Some? || get.Some?
    requires cfg.dontSell >= 0.0
    ensures var r := SetPrice(cfg, sell, get);
      r == Zero || (r.sell.Some? && r.get.Some? && r.get.value == NetFromGross(r.sell.value))
  {
    if get.Some? && get.value != 0.0 && !(sell == Some(0.0)) {
      var g := get.value;
      if g >= MinNet {
        NetOfGross(g);
      }
    }
  }

  // ----- the sell dialog's own clamp -----

  /** `SellItemDialog._set_price_get`: (gross, net) for a net price, clamped to (0.03, 0.01) below a cent. */
  function DialogFromNet(net: real): (r: (real, real))
    ensures r.0 - r.1 >= MinCommission && r.1 >= MinNet
  {
    var gross := net / 100.0 * 115.0;
    var gross' := if gross - net < MinCommission then net + MinCommission else gross;
    if net < MinNet || gross' < MinNet then (MinGross, MinNet) else (gross', net)
  }

  /** `SellItemDialog._set_price_sell`: (gross, net) for a gross price, clamped to (0.03, 0.01) when the net drops under a cent. */
  function DialogFromGross(gross: real): (r: (real, real))
    ensures r.0 - r.1 >= MinCommission && r.1 >= MinNet
  {
    var net := gross / 115.0 * 100.0;
    var net' := if gross - net < MinCommission then gross - MinCommission else net;
    if net' < MinNet || gross < MinNet then (MinGross, MinNet) else (gross, net')
  }

  /** Within Steam's price range the dialog agrees with the page's conversions. */
  lemma DialogAgrees(net: real, gross: real)
    ensures net >= MinNet ==> DialogFromNet(net) == (GrossFromNet(net), net)
    ensures gross >= MinGross ==> DialogFromGross(gross) == (gross, NetFromGross(gross))
  {
  }

  /** Between one and three cents the dialog raises the gross price to 3 cents where the page gives a net of 0. */
  lemma DialogDiffersBelowMinGross(gross: real)
    requires MinNet <= gross < MinGross
    ensures DialogFromGross(gross) == (MinGross, MinNet) && NetFromGross(gross) == 0.0
  {
  }
}

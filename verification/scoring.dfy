/**
 * The rule engine: calculatePoints adds up seven independent rules.
 *
 *   1. one point per letter or digit in the retailer name;
 *   2. 50 points if the total is a round dollar amount;
 *   3. 25 points if the total in cents is a multiple of 25;
 *   4. 5 points for every two items;
 *   5. for each item whose trimmed description length is a multiple of 3,
 *      the price times 0.2, rounded up;
 *   6. 6 points if the day of the purchase date is odd;
 *   7. 10 points if the purchase time falls in [14:00, 16:00).
 *
 * A field that does not parse silently skips the rules that read it. The
 * "5 points if the total is greater than 10.00" rule is commented out in
 * the service and is absent here: ReceiptPoints is the sum of exactly the
 * seven rules above, and TotalSizeIgnored shows the total's size plays
 * no part.
 */
module Scoring {
  import opened Wrappers
  import opened Text
  import opened Amounts
  import opened Clock

  datatype Item = Item(shortDescription: string, price: string)

  datatype Receipt = Receipt(
    retailer: string,
    purchaseDate: string,
    purchaseTime: string,
    items: seq<Item>,
    total: string)

  // ---------------------------------------------------------------------
  // The seven rules
  // ---------------------------------------------------------------------

  /** Rule 1: the number of letters and digits in the retailer name. */
  function RetailerPoints(retailer: string): nat {
    if retailer == [] then 0
    else RetailerPoints(retailer[..|retailer| - 1]) + (if IsAlphanumeric(retailer[|retailer| - 1]) then 1 else 0)
  }

  /** Rule 2: 50 when the total parses and truncating it to an integer does not change it. */
  function RoundDollarPoints(total: string): nat {
    match ParseAmount(total)
    case Some(d) => if IsIntegral(d) then 50 else 0
    case None => 0
  }

  /** Rule 3: 25 when the total parses and int(total*100) is a multiple of 25. */
  function QuarterPoints(total: string): nat {
    match ParseAmount(total)
    case Some(d) => if Cents(d) % 25 == 0 then 25 else 0
    case None => 0
  }

  /** Rule 4: 5 for every complete pair of items. */
  function PairPoints(items: seq<Item>): nat {
    (|items| / 2) * 5
  }

  /** The byte length of the trimmed description is a multiple of 3 (0 included). */
  predicate DescriptionQualifies(item: Item) {
    Utf8Length(TrimSpace(item.shortDescription)) % 3 == 0
  }

  /** Rule 5 for one item: ceil(price * 0.2) when the description qualifies and the price parses. */
  function ItemPoints(item: Item): int {
    if DescriptionQualifies(item) then
      match ParseAmount(item.price)
      case Some(d) => CeilFifth(d)
      case None => 0
    else 0
  }

  /** Rule 5 over the whole item list. */
  function DescriptionPoints(items: seq<Item>): int {
    if items == [] then 0
    else DescriptionPoints(items[..|items| - 1]) + ItemPoints(items[|items| - 1])
  }

  /** Rule 6: 6 when the purchase date parses and its day is odd. */
  function OddDayPoints(purchaseDate: string): nat {
    match ParseDate(purchaseDate)
    case Some(d) => if d.day % 2 != 0 then 6 else 0
    case None => 0
  }

  /** Rule 7: 10 when the purchase time parses and its hour is 14, or 15 with any minute below 60. */
  function AfternoonPoints(purchaseTime: string): nat {
    match ParseTime(purchaseTime)
    case Some(t) => if t.hour == 14 || (t.hour == 15 && t.minute < 60) then 10 else 0
    case None => 0
  }

  /** The score of a receipt: the sum of exactly the seven rules. */
  function ReceiptPoints(r: Receipt): int {
    RetailerPoints(r.retailer)
    + RoundDollarPoints(r.total)
    + QuarterPoints(r.total)
    + PairPoints(r.items)
    + DescriptionPoints(r.items)
    + OddDayPoints(r.purchaseDate)
    + AfternoonPoints(r.purchaseTime)
  }

  // ---------------------------------------------------------------------
  // calculatePoints
  // ---------------------------------------------------------------------

  /** Accumulates the score rule by rule, as the service does. */
  method CalculatePoints(receipt: Receipt) returns (points: int)
    ensures points == ReceiptPoints(receipt)
  {
    points := 0;

    var retailer := receipt.retailer;
    for i := 0 to |retailer|
      invariant points == RetailerPoints(retailer[..i])
    {
      assert retailer[..i + 1][..i] == retailer[..i];
      assert retailer[..i + 1][i] == retailer[i];
      if IsAlphanumeric(retailer[i]) {
        points := points + 1;
      }
    }
    assert retailer[..|retailer|] == retailer;

    var total := ParseAmount(receipt.total);
    if total.Some? {
      if IsIntegral(total.value) {
        points := points + 50;
      }
      if Cents(total.value) % 25 == 0 {
        points := points + 25;
      }
    }

    assert points == RetailerPoints(retailer) + RoundDollarPoints(receipt.total) + QuarterPoints(receipt.total);

    points := points + (|receipt.items| / 2) * 5;

    var items := receipt.items;
    ghost var before := points;
    for i := 0 to |items|
      invariant points == before + DescriptionPoints(items[..i])
    {
      assert items[..i + 1][..i] == items[..i];
      var item := items[i];
      assert DescriptionPoints(items[..i + 1]) == DescriptionPoints(items[..i]) + ItemPoints(item);
      var descLength := Utf8Length(TrimSpace(item.shortDescription));
      if descLength % 3 == 0 {
        var price := ParseAmount(item.price);
        if price.Some? {
          points := points + CeilFifth(price.value);
        }
      }
    }
    assert items[..|items|] == items;
    assert points == RetailerPoints(retailer) + RoundDollarPoints(receipt.total) + QuarterPoints(receipt.total)
      + PairPoints(items) + DescriptionPoints(items);

    var date := ParseDate(receipt.purchaseDate);
    if date.Some? && date.value.day % 2 != 0 {
      points := points + 6;
    }

    var time := ParseTime(receipt.purchaseTime);
    if time.Some? {
      if time.value.hour == 14 || (time.value.hour == 15 && time.value.minute < 60) {
        points := points + 10;
      }
    }
  }

  // ---------------------------------------------------------------------
  // Rule 1
  // ---------------------------------------------------------------------

  /** The positions of the letters and digits in s. */
  function AlphanumericPositions(s: string): set<nat> {
    set i: nat | i < |s| && IsAlphanumeric(s[i])
  }

  /** The retailer rule counts exactly the positions that hold a letter or a digit. */
  lemma {:induction false} RetailerPointsCountsAlphanumerics(s: string)
    ensures RetailerPoints(s) == |AlphanumericPositions(s)|
  {
    if s != [] {
      var n := |s| - 1;
      var init := s[..n];
      RetailerPointsCountsAlphanumerics(init);
      var before := AlphanumericPositions(init);
      if IsAlphanumeric(s[n]) {
        assert AlphanumericPositions(s) == before + {n};
      } else {
        assert AlphanumericPositions(s) == before;
      }
    } else {
      assert AlphanumericPositions(s) == {};
    }
  }

  /** The retailer rule is additive over concatenation: a space or punctuation mark anywhere adds nothing. */
  lemma {:induction false} RetailerPointsAppend(a: string, b: string)
    ensures RetailerPoints(a + b) == RetailerPoints(a) + RetailerPoints(b)
  {
    if b == [] {
      assert a + b == a;
    } else {
      assert (a + b)[..|a + b| - 1] == a + b[..|b| - 1];
      assert (a + b)[|a + b| - 1] == b[|b| - 1];
      RetailerPointsAppend(a, b[..|b| - 1]);
    }
  }

  /** The retailer rule gives at most one point per character, and exactly one per character of an alphanumeric name. */
  lemma {:induction false} RetailerPointsBounds(s: string)
    ensures RetailerPoints(s) <= |s|
    ensures RetailerPoints(s) == |s| <==> forall k :: 0 <= k < |s| ==> IsAlphanumeric(s[k])
  {
    if s != [] {
      var init := s[..|s| - 1];
      RetailerPointsBounds(init);
      if !IsAlphanumeric(s[|s| - 1]) {
        assert RetailerPoints(s) < |s|;
      } else if RetailerPoints(s) == |s| {
        forall k | 0 <= k < |s|
          ensures IsAlphanumeric(s[k])
        {
          if k < |s| - 1 {
            assert s[k] == init[k];
          }
        }
      }
    }
  }

  // ---------------------------------------------------------------------
  // Rules 2 and 3
  // ---------------------------------------------------------------------

  /**
   * The two total rules together give 0, 25 or 75 points, never 50: a
   * round-dollar total is always a multiple of a quarter. An unparsable
   * total gives nothing.
   */
  lemma TotalBonusValues(total: string)
    ensures ParseAmount(total).None? ==> RoundDollarPoints(total) + QuarterPoints(total) == 0
    ensures RoundDollarPoints(total) + QuarterPoints(total) in {0, 25, 75}
  {
    if ParseAmount(total).Some? && IsIntegral(ParseAmount(total).value) {
      IntegralIsQuarter(ParseAmount(total).value);
    }
  }

  /** For a total written with at most two decimals, the rules read its exact cents. */
  lemma TotalRulesOnCents(total: string)
    requires ParseAmount(total).Some? && ParseAmount(total).value.scale <= 2
    ensures var cents := Cents(ParseAmount(total).value);
      && (RoundDollarPoints(total) == 50 <==> cents % 100 == 0)
      && (QuarterPoints(total) == 25 <==> cents % 25 == 0)
      && cents * Pow10(ParseAmount(total).value.scale) == Numerator(ParseAmount(total).value) * 100
  {
    var d := ParseAmount(total).value;
    IntegralIffWholeCents(d);
    CentsExact(d);
  }

  /** Round-dollar holds exactly when no non-zero digit follows the point. */
  lemma RoundDollarIffZeroFraction(sign: string, a: string, b: string)
    requires IsSign(sign) && AllDigits(a) && AllDigits(b) && a + b != []
    ensures RoundDollarPoints(sign + (a + "." + b)) == 50 <==> DigitsValue(b) == 0
  {
    ParseFractionalAmount(sign, a, b);
    IntegralIffNoFraction(ParseAmount(sign + (a + "." + b)).value);
  }

  /** "10.00" earns both total bonuses. */
  lemma RoundTotalExample()
    ensures RoundDollarPoints("10.00") == 50 && QuarterPoints("10.00") == 25
  {
    assert "10.00" == "" + ("10" + "." + "00");
    assert DigitsValue("10") == 10 by {
      assert "10"[..1] == "1";
    }
    assert DigitsValue("00") == 0 by {
      assert "00"[..1] == "0";
    }
    ParseFractionalAmount("", "10", "00");
    var d := Decimal(false, 10, 0, 2);
    IntegralIffNoFraction(d);
    IntegralIsQuarter(d);
  }

  /** "35.35" earns neither total bonus: 3535 cents is not a multiple of 25. */
  lemma UnroundTotalExample()
    ensures RoundDollarPoints("35.35") == 0 && QuarterPoints("35.35") == 0
  {
    assert "35.35" == "" + ("35" + "." + "35");
    assert DigitsValue("35") == 35 by {
      assert "35"[..1] == "3";
    }
    ParseFractionalAmount("", "35", "35");
    var d := Decimal(false, 35, 35, 2);
    IntegralIffNoFraction(d);
    CentsExact(d);
    assert Pow10(2) == 100;
    assert Cents(d) == 3535;
  }

  // ---------------------------------------------------------------------
  // Rule 4
  // ---------------------------------------------------------------------

  /** Two more items add 5 points; a leftover single item adds nothing. */
  lemma PairPointsPerPair(items: seq<Item>, x: Item, y: Item)
    ensures PairPoints(items + [x, y]) == PairPoints(items) + 5
    ensures |items| % 2 == 0 ==> PairPoints(items + [x]) == PairPoints(items)
  {
  }

  // ---------------------------------------------------------------------
  // Rule 5
  // ---------------------------------------------------------------------

  /** The description rule is additive over the item list. */
  lemma {:induction false} DescriptionPointsAppend(a: seq<Item>, b: seq<Item>)
    ensures DescriptionPoints(a + b) == DescriptionPoints(a) + DescriptionPoints(b)
  {
    if b == [] {
      assert a + b == a;
    } else {
      assert (a + b)[..|a + b| - 1] == a + b[..|b| - 1];
      assert (a + b)[|a + b| - 1] == b[|b| - 1];
      DescriptionPointsAppend(a, b[..|b| - 1]);
    }
  }

  /** The description rule is the sum of the items' own points, in any position. */
  lemma {:induction false} DescriptionPointsOfItem(items: seq<Item>, k: nat)
    requires k < |items|
    ensures DescriptionPoints(items) == DescriptionPoints(items[..k]) + ItemPoints(items[k]) + DescriptionPoints(items[k + 1..])
  {
    assert items == items[..k] + ([items[k]] + items[k + 1..]);
    DescriptionPointsAppend(items[..k], [items[k]] + items[k + 1..]);
    DescriptionPointsAppend([items[k]], items[k + 1..]);
    assert DescriptionPoints([items[k]]) == DescriptionPoints([]) + ItemPoints(items[k]);
  }

  /** Items whose trimmed description length is not a multiple of 3 add nothing, whatever their price. */
  lemma {:induction false} DescriptionPointsNoneQualify(items: seq<Item>)
    requires forall k :: 0 <= k < |items| ==> !DescriptionQualifies(items[k])
    ensures DescriptionPoints(items) == 0
  {
    if items != [] {
      DescriptionPointsNoneQualify(items[..|items| - 1]);
    }
  }

  /** An empty or blank description has trimmed length 0, a multiple of 3, so the price bonus applies. */
  lemma BlankDescriptionQualifies(description: string, price: string)
    requires forall k :: 0 <= k < |description| ==> IsSpace(description[k])
    ensures ItemPoints(Item(description, price)) ==
      match ParseAmount(price) case Some(d) => CeilFifth(d) case None => 0
  {
    TrimSpaceOfBlank(description);
  }

  /** A qualifying item priced with at most two decimals earns its cents divided by 500, rounded up. */
  lemma ItemPointsFromCents(item: Item)
    requires DescriptionQualifies(item)
    requires ParseAmount(item.price).Some? && ParseAmount(item.price).value.scale <= 2
    ensures (ItemPoints(item) - 1) * 500 < Cents(ParseAmount(item.price).value) <= ItemPoints(item) * 500
  {
    CeilFifthOfCents(ParseAmount(item.price).value);
  }

  /** Items with a non-negative or unparsable price never lower the score. */
  lemma {:induction false} DescriptionPointsNonNegative(items: seq<Item>)
    requires forall k :: 0 <= k < |items| ==> ParseAmount(items[k].price).None? || !ParseAmount(items[k].price).value.negative
    ensures DescriptionPoints(items) >= 0
  {
    if items != [] {
      var init := items[..|items| - 1];
      DescriptionPointsNonNegative(init);
      var p := ParseAmount(items[|items| - 1].price);
      if p.Some? {
        assert Numerator(p.value) >= 0;
      }
    }
  }

  // ---------------------------------------------------------------------
  // Rules 6 and 7
  // ---------------------------------------------------------------------

  /** A valid date spelled YYYY-MM-DD earns 6 exactly when its day is odd. */
  lemma OddDayOfDate(d: Date)
    requires ValidDate(d)
    ensures OddDayPoints(FormatDate(d)) == (if d.day % 2 == 1 then 6 else 0)
  {
    ParseFormatDate(d);
  }

  /** Only the YYYY-MM-DD spelling of a valid date with an odd day earns the 6 points. */
  lemma OddDayNeedsDate(s: string)
    requires OddDayPoints(s) == 6
    ensures ParseDate(s).Some? && ValidDate(ParseDate(s).value)
    ensures s == FormatDate(ParseDate(s).value) && ParseDate(s).value.day % 2 == 1
  {
    FormatParsedDate(s);
  }

  /** "2022-01-01" earns 6. */
  lemma OddDayExample()
    ensures OddDayPoints("2022-01-01") == 6
  {
    var s := "2022-01-01";
    assert s[..4] == "2022" && s[5..7] == "01" && s[8..] == "01";
    assert DigitsValue("2022") == 2022 by {
      assert "2022"[..3] == "202";
      assert "202"[..2] == "20";
      assert "20"[..1] == "2";
    }
    assert DigitsValue("01") == 1 by {
      assert "01"[..1] == "0";
    }
    assert ValidDate(Date(2022, 1, 1));
  }

  /** The leap day "2024-02-29" exists and earns 6. */
  lemma LeapDayExample()
    ensures OddDayPoints("2024-02-29") == 6
  {
    var s := "2024-02-29";
    assert s[..4] == "2024" && s[5..7] == "02" && s[8..] == "29";
    assert DigitsValue("2024") == 2024 by {
      assert "2024"[..3] == "202";
      assert "202"[..2] == "20";
      assert "20"[..1] == "2";
    }
    assert DigitsValue("02") == 2 by {
      assert "02"[..1] == "0";
    }
    assert DigitsValue("29") == 29 by {
      assert "29"[..1] == "2";
    }
    assert ValidDate(Date(2024, 2, 29));
  }

  /** "2023-02-29" names no day of a non-leap year and earns nothing. */
  lemma MissingDayExample()
    ensures OddDayPoints("2023-02-29") == 0
  {
    var s := "2023-02-29";
    assert s[..4] == "2023" && s[5..7] == "02" && s[8..] == "29";
    assert DigitsValue("2023") == 2023 by {
      assert "2023"[..3] == "202";
      assert "202"[..2] == "20";
      assert "20"[..1] == "2";
    }
    assert DigitsValue("02") == 2 by {
      assert "02"[..1] == "0";
    }
    assert DigitsValue("29") == 29 by {
      assert "29"[..1] == "2";
    }
    assert !ValidDate(Date(2023, 2, 29));
  }

  /** The afternoon rule fires exactly for parsed times in the half-open window [14:00, 16:00). */
  lemma AfternoonWindow(s: string)
    ensures AfternoonPoints(s) == 10 <==>
      ParseTime(s).Some? && 14 * 60 <= MinuteOfDay(ParseTime(s).value) < 16 * 60
  {
  }

  /** A valid time spelled HH:MM earns 10 exactly when its hour is 14 or 15. */
  lemma AfternoonOfTime(t: TimeOfDay)
    requires ValidTime(t)
    ensures AfternoonPoints(FormatTime(t)) == (if t.hour == 14 || t.hour == 15 then 10 else 0)
  {
    ParseFormatTime(t);
  }

  /** "14:00", the first minute of the window, earns 10. */
  lemma AfternoonStartExample()
    ensures AfternoonPoints("14:00") == 10
  {
    assert FormatTime(TimeOfDay(14, 0)) == "14:00";
    AfternoonOfTime(TimeOfDay(14, 0));
  }

  /** "15:59", the last minute of the window, earns 10. */
  lemma AfternoonEndExample()
    ensures AfternoonPoints("15:59") == 10
  {
    assert FormatTime(TimeOfDay(15, 59)) == "15:59";
    AfternoonOfTime(TimeOfDay(15, 59));
  }

  /** "13:59", the minute before the window, earns nothing. */
  lemma BeforeAfternoonExample()
    ensures AfternoonPoints("13:59") == 0
  {
    assert FormatTime(TimeOfDay(13, 59)) == "13:59";
    AfternoonOfTime(TimeOfDay(13, 59));
  }

  /** "16:00", the minute after the window, earns nothing. */
  lemma AfterAfternoonExample()
    ensures AfternoonPoints("16:00") == 0
  {
    assert FormatTime(TimeOfDay(16, 0)) == "16:00";
    AfternoonOfTime(TimeOfDay(16, 0));
  }

  // ---------------------------------------------------------------------
  // The score as a whole
  // ---------------------------------------------------------------------

  /**
   * There is no rule on the size of the total: replacing the whole-dollar
   * part of the total leaves the score unchanged.
   */
  lemma TotalSizeIgnored(r: Receipt, total: string, whole: nat)
    requires ParseAmount(r.total).Some?
    requires ParseAmount(total) == Some(ParseAmount(r.total).value.(whole := whole))
    ensures ReceiptPoints(r.(total := total)) == ReceiptPoints(r)
  {
    TestsIgnoreWholeDollars(ParseAmount(r.total).value, whole);
  }

  /** With no negative price among the items, the score is never negative. */
  lemma PointsNonNegative(r: Receipt)
    requires forall k :: 0 <= k < |r.items| ==> ParseAmount(r.items[k].price).None? || !ParseAmount(r.items[k].price).value.negative
    ensures ReceiptPoints(r) >= 0
  {
    DescriptionPointsNonNegative(r.items);
  }
}

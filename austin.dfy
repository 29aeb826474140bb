/**
 * The Austin itinerary page (app/austin-alishba/page.tsx): the icon each stop
 * of the timeline gets from the hour of its time text, and the budget view
 * that groups the stops into six fixed categories.  `parseInt` is modelled
 * as JavaScript defines it without a radix: leading white space, an optional
 * sign, a `0x` prefix for hexadecimal, then the longest run of digits, and
 * `NaN` when there is none.  Costs are whole numbers here.
 */
module AustinPage {
  import opened JsText
  import opened Seqs

  // --------------------------------------------------------------- parseInt

  /** A JavaScript number as far as the page uses it: an integer or `NaN`. */
  datatype Number = Num(value: int) | NaN

  /** `s` without its leading white space. */
  function TrimStart(s: string): (r: string)
    ensures |r| <= |s| && r == s[|s| - |r|..]
    ensures r != [] ==> !IsJsSpace(r[0])
    ensures forall i :: 0 <= i < |s| - |r| ==> IsJsSpace(s[i])
  {
    if s != [] && IsJsSpace(s[0]) then TrimStart(s[1..]) else s
  }

  predicate IsHexLetter(c: char) { 'a' <= c <= 'f' || 'A' <= c <= 'F' }

  /** The value of a digit character in base 16, as far as it is one. */
  function DigitValue(c: char): (v: nat)
    requires IsDigit(c) || IsHexLetter(c)
    ensures v < 16
    ensures IsDigit(c) <==> v < 10
  {
    if IsDigit(c) then c as int - '0' as int
    else if 'a' <= c <= 'f' then c as int - 'a' as int + 10
    else c as int - 'A' as int + 10
  }

  predicate IsRadixDigit(c: char, radix: nat) {
    (IsDigit(c) || IsHexLetter(c)) && DigitValue(c) < radix
  }

  predicate AllRadixDigits(s: string, radix: nat) {
    forall i :: 0 <= i < |s| ==> IsRadixDigit(s[i], radix)
  }

  /** The longest prefix of `s` made of digits of `radix`. */
  function LeadingDigits(s: string, radix: nat): (r: string)
    ensures |r| <= |s| && r == s[..|r|]
    ensures AllRadixDigits(r, radix)
    ensures |r| < |s| ==> !IsRadixDigit(s[|r|], radix)
  {
    if s != [] && IsRadixDigit(s[0], radix) then [s[0]] + LeadingDigits(s[1..], radix) else []
  }

  /** The value of a digit string in `radix`, most significant digit first. */
  function Value(ds: string, radix: nat): (v: nat)
    requires AllRadixDigits(ds, radix)
    decreases |ds|
  {
    if ds == [] then 0
    else Value(ds[..|ds| - 1], radix) * radix + DigitValue(ds[|ds| - 1])
  }

  /**
   * The unsigned part: a `0x` or `0X` prefix switches to base 16, then the
   * longest run of digits, `NaN` when there is none.
   */
  function Unsigned(u: string): Number {
    var hex := |u| >= 2 && u[0] == '0' && (u[1] == 'x' || u[1] == 'X');
    var radix := if hex then 16 else 10;
    var ds := LeadingDigits(if hex then u[2..] else u, radix);
    if ds == [] then NaN else Num(Value(ds, radix))
  }

  function Negate(n: Number): Number {
    match n
    case NaN => NaN
    case Num(v) => Num(-v)
  }

  /** `parseInt(s)` with no radix. */
  function ParseInt(s: string): Number {
    var t := TrimStart(s);
    if t != [] && t[0] == '-' then Negate(Unsigned(t[1..]))
    else if t != [] && t[0] == '+' then Unsigned(t[1..])
    else Unsigned(t)
  }

  // ------------------------------------------------------------- time icons

  datatype Icon = Sun | Sunset | Moon

  /** `parseInt(time.split(':')[0])`: the number in front of the first `:`. */
  function Hour(time: string): Number {
    ParseInt(Split(time, ':')[0])
  }

  /**
   * The icon for a parsed hour: `Sun` for [6, 18), `Sunset` for [18, 21),
   * and `Moon` for every other hour and for `NaN`, whose comparisons are all
   * false.
   */
  function IconOf(hour: Number): (icon: Icon)
    ensures icon == Sun <==> hour.Num? && 6 <= hour.value < 18
    ensures icon == Sunset <==> hour.Num? && 18 <= hour.value < 21
    ensures icon == Moon <==> hour.NaN? || hour.value < 6 || hour.value >= 21
  {
    match hour
    case NaN => Moon
    case Num(h) =>
      if h >= 6 && h < 18 then Sun
      else if h >= 18 && h < 21 then Sunset
      else Moon
  }

  /** `getTimeIcon(time)`. */
  function TimeIcon(time: string): Icon {
    IconOf(Hour(time))
  }

  // ----------------------------------------------------------------- budget

  /** One stop of the itinerary; `kind` is its `type`, `costAmount` its estimated cost. */
  datatype Location = Location(name: string, time: string, kind: string, cost: string, costAmount: int)

  /** The categories of the budget view, in their order. */
  const Categories: seq<string> := ["food", "view", "activity", "nightlife", "nature", "culture"]

  function Cost(l: Location): int { l.costAmount }

  function OfKind(kind: string): Location -> bool {
    (l: Location) => l.kind == kind
  }

  /** `austinItinerary.reduce((sum, loc) => sum + loc.costAmount, 0)`. */
  function TotalCost(locs: seq<Location>): int {
    Sum(locs, Cost)
  }

  /** One category block: its stops, their cost and its share of the total. */
  datatype BudgetRow = BudgetRow(kind: string, items: seq<Location>, typeCost: int, percentage: real)

  function RowCost(row: BudgetRow): int { row.typeCost }

  /** Whether some stop is of `kind`. */
  function Present(locs: seq<Location>): string -> bool {
    (kind: string) => Filter(locs, OfKind(kind)) != []
  }

  /** The kinds of a list of rows, in order. */
  function Kinds(rows: seq<BudgetRow>): (r: seq<string>)
    ensures |r| == |rows| && forall i :: 0 <= i < |r| ==> r[i] == rows[i].kind
    decreases |rows|
  {
    if rows == [] then [] else Kinds(rows[..|rows| - 1]) + [rows[|rows| - 1].kind]
  }

  /**
   * The blocks for `kinds`, one per kind that has stops (a kind without any
   * renders `null`): each block holds every stop of its kind, their cost and
   * its share of `totalCost`.
   */
  function Rows(locs: seq<Location>, kinds: seq<string>, totalCost: int): (r: seq<BudgetRow>)
    ensures forall i :: 0 <= i < |r| ==> r[i].kind in kinds
    ensures forall i :: 0 <= i < |r| ==>
      && r[i].items == Filter(locs, OfKind(r[i].kind)) && r[i].items != []
      && r[i].typeCost == Sum(r[i].items, Cost)
      && r[i].percentage == Percent(r[i].typeCost, totalCost)
    decreases |kinds|
  {
    if kinds == [] then []
    else
      var init := Rows(locs, kinds[..|kinds| - 1], totalCost);
      var kind := kinds[|kinds| - 1];
      var items := Filter(locs, OfKind(kind));
      var typeCost := Sum(items, Cost);
      var row := BudgetRow(kind, items, typeCost, Percent(typeCost, totalCost));
      var r := init + (if items == [] then [] else [row]);
      r
  }

  /** The budget view. */
  function Budget(locs: seq<Location>): seq<BudgetRow> {
    Rows(locs, Categories, TotalCost(locs))
  }

  // ------------------------------------------------------------ properties

  lemma KindsAppend(rows: seq<BudgetRow>, row: BudgetRow)
    ensures Kinds(rows + [row]) == Kinds(rows) + [row.kind]
  {
    assert (rows + [row])[..|rows|] == rows;
  }

  /** The kinds shown are exactly those of `kinds` with stops, in the order of `kinds`. */
  lemma {:induction false} RowsKinds(locs: seq<Location>, kinds: seq<string>, totalCost: int)
    ensures Kinds(Rows(locs, kinds, totalCost)) == Filter(kinds, Present(locs))
    decreases |kinds|
  {
    if kinds != [] {
      var init := kinds[..|kinds| - 1];
      var kind := kinds[|kinds| - 1];
      RowsKinds(locs, init, totalCost);
      var rows := Rows(locs, init, totalCost);
      var items := Filter(locs, OfKind(kind));
      var typeCost := Sum(items, Cost);
      KindsAppend(rows, BudgetRow(kind, items, typeCost, Percent(typeCost, totalCost)));
      assert rows + [] == rows;
    }
  }

  /** The six category names differ pairwise (already in their first two letters). */
  lemma CategoriesDistinct()
    ensures Distinct(Categories)
  {
    var firstTwo := ["fo", "vi", "ac", "ni", "na", "cu"];
    forall i | 0 <= i < |Categories| ensures Categories[i][..2] == firstTwo[i] {
    }
    forall i, j | 0 <= i < j < |Categories| ensures Categories[i] != Categories[j] {
      assert firstTwo[i] != firstTwo[j];
    }
  }

  lemma DigitCharValue(d: nat)
    requires d < 10
    ensures IsRadixDigit(DigitChar(d), 10) && DigitValue(DigitChar(d)) == d
  {
  }

  lemma {:induction false} DecimalDigits(n: nat)
    ensures AllRadixDigits(NatToString(n), 10)
    ensures Value(NatToString(n), 10) == n
  {
    if n >= 10 {
      DecimalDigits(n / 10);
      DigitCharValue(n % 10);
      var s := NatToString(n);
      assert s[..|s| - 1] == NatToString(n / 10);
    } else {
      DigitCharValue(n);
    }
  }

  /** The digits run up to the first character that is not a digit. */
  lemma {:induction false} LeadingDigitsOf(ds: string, rest: string, radix: nat)
    requires AllRadixDigits(ds, radix)
    requires rest == [] || !IsRadixDigit(rest[0], radix)
    ensures LeadingDigits(ds + rest, radix) == ds
    decreases |ds|
  {
    if ds != [] {
      assert (ds + rest)[1..] == ds[1..] + rest;
      LeadingDigitsOf(ds[1..], rest, radix);
      assert [ds[0]] + ds[1..] == ds;
    }
  }

  /**
   * The decimal text of a number, followed by anything that does not go on
   * with a digit or turn a lone `0` into a `0x` prefix, parses back to that number.
   */
  lemma ParseNatText(n: nat, rest: string)
    requires rest == [] || (!IsDigit(rest[0]) && (n == 0 ==> rest[0] != 'x' && rest[0] != 'X'))
    ensures ParseInt(NatToString(n) + rest) == Num(n)
  {
    var s := NatToString(n) + rest;
    assert s[0] == NatToString(n)[0];
    DigitStartIsUnsigned(s);
    UnsignedNatText(n, rest);
  }

  /** Why `ParseNatText` keeps `x` away from a lone `0`: `0x` is a hexadecimal prefix with no digits after it. */
  lemma ZeroThenXIsNaN(rest: string)
    requires rest == [] || !IsRadixDigit(rest[0], 16)
    ensures ParseInt(NatToString(0) + "x" + rest) == NaN
  {
    var s := NatToString(0) + "x" + rest;
    assert s[..2] == "0x" && s[2..] == rest;
    DigitStartIsUnsigned(s);
  }

  /** Text that starts with a digit has no white space or sign to skip. */
  lemma DigitStartIsUnsigned(s: string)
    requires s != [] && IsDigit(s[0])
    ensures ParseInt(s) == Unsigned(s)
  {
    assert !IsJsSpace(s[0]);
    assert TrimStart(s) == s;
  }

  /** The unsigned step of `ParseNatText`. */
  lemma UnsignedNatText(n: nat, rest: string)
    requires rest == [] || (!IsDigit(rest[0]) && (n == 0 ==> rest[0] != 'x' && rest[0] != 'X'))
    ensures Unsigned(NatToString(n) + rest) == Num(n)
  {
    var s := NatToString(n) + rest;
    DecimalDigits(n);
    if rest != [] {
      assert !IsRadixDigit(rest[0], 10);
    }
    LeadingDigitsOf(NatToString(n), rest, 10);
    if |s| >= 2 && s[0] == '0' {
      LeadingZeroOnlyForZero(n);
      assert NatToString(n) == "0";
      assert s[1] == rest[0];
    }
  }

  /** Only zero's decimal text starts with `0`. */
  lemma {:induction false} LeadingZeroOnlyForZero(n: nat)
    ensures NatToString(n)[0] == '0' ==> n == 0
  {
    if n >= 10 {
      LeadingZeroOnlyForZero(n / 10);
      assert NatToString(n)[0] == NatToString(n / 10)[0];
    }
  }

  /** The text before the first `:` of `h:rest` is `h`. */
  lemma BeforeFirstColon(h: string, rest: string)
    requires ':' !in h
    ensures Split(h + ":" + rest, ':')[0] == h
  {
    SplitAfterPiece(h, ':', rest);
    assert h + ":" + rest == h + [':'] + rest;
  }

  /** The hour of a clock text `h:rest` is `h`, whatever follows the colon. */
  lemma HourOfClockText(h: nat, rest: string)
    ensures Hour(NatToString(h) + ":" + rest) == Num(h)
  {
    DecimalDigits(h);
    assert ':' !in NatToString(h) by {
      forall i | 0 <= i < |NatToString(h)| ensures NatToString(h)[i] != ':' {
        assert IsDigit(NatToString(h)[i]);
      }
    }
    BeforeFirstColon(NatToString(h), rest);
    ParseNatText(h, "");
    assert NatToString(h) + "" == NatToString(h);
  }

  /**
   * A clock text gets its icon from the hour alone: `Sun` from 6 to 17,
   * `Sunset` from 18 to 20, `Moon` otherwise; the minutes and any `AM`/`PM`
   * suffix play no part.
   */
  lemma ClockIcon(h: nat, rest: string)
    ensures TimeIcon(NatToString(h) + ":" + rest) == if 6 <= h < 18 then Sun else if 18 <= h < 21 then Sunset else Moon
  {
    HourOfClockText(h, rest);
  }

  /** A time text with no number before its first colon gets `Moon`. */
  lemma UnparsableHourIsMoon(time: string)
    requires Hour(time) == NaN
    ensures TimeIcon(time) == Moon
  {
  }

  /**
   * On the twelve-hour clock an evening stop written `8:00 PM` parses to
   * hour 8 and gets the morning's `Sun`.
   */
  lemma EveningOnTwelveHourClockIsSun()
    ensures TimeIcon("8:00 PM") == Sun
  {
    assert NatToString(8) == "8";
    ClockIcon(8, "00 PM");
    assert NatToString(8) + ":" + "00 PM" == "8:00 PM";
  }

  /** The budget view shows only the six categories, in their order, and only those with stops. */
  lemma BudgetShowsCategoriesInOrder(locs: seq<Location>)
    ensures Kinds(Budget(locs)) == Filter(Categories, Present(locs))
    ensures Subsequence(Kinds(Budget(locs)), Categories)
    ensures forall c | c in Categories :: c in Kinds(Budget(locs)) <==> exists l | l in locs :: l.kind == c
  {
    RowsKinds(locs, Categories, TotalCost(locs));
    FilterIsSubsequence(Categories, Present(locs));
    forall c | c in Categories
      ensures c in Kinds(Budget(locs)) <==> exists l | l in locs :: l.kind == c
    {
      if exists l | l in locs :: l.kind == c {
        var l :| l in locs && l.kind == c;
        assert l in Filter(locs, OfKind(c));
      }
      if Filter(locs, OfKind(c)) != [] {
        assert Filter(locs, OfKind(c))[0] in Filter(locs, OfKind(c));
      }
    }
  }

  /** A stop of any other type is in no block. */
  lemma OtherKindsNotShown(locs: seq<Location>, l: Location)
    requires l.kind !in Categories
    ensures forall i | 0 <= i < |Budget(locs)| :: l !in Budget(locs)[i].items
  {
    var rows := Budget(locs);
    forall i | 0 <= i < |rows| ensures l !in rows[i].items {
      assert rows[i].kind in Categories;
    }
  }

  /** The cost of the stops of each of `kinds`, added up over `kinds`. */
  function KindCosts(locs: seq<Location>, kinds: seq<string>): int
    decreases |kinds|
  {
    if kinds == [] then 0
    else KindCosts(locs, kinds[..|kinds| - 1]) + Sum(Filter(locs, OfKind(kinds[|kinds| - 1])), Cost)
  }

  predicate Distinct(kinds: seq<string>) {
    forall i, j :: 0 <= i < j < |kinds| ==> kinds[i] != kinds[j]
  }

  /** The blocks' costs add up to the per-kind costs: an omitted block costs nothing. */
  lemma {:induction false} RowCostsAreKindCosts(locs: seq<Location>, kinds: seq<string>, totalCost: int)
    ensures Sum(Rows(locs, kinds, totalCost), RowCost) == KindCosts(locs, kinds)
    decreases |kinds|
  {
    if kinds != [] {
      var init := kinds[..|kinds| - 1];
      var kind := kinds[|kinds| - 1];
      RowCostsAreKindCosts(locs, init, totalCost);
      var items := Filter(locs, OfKind(kind));
      var rows := Rows(locs, init, totalCost);
      var typeCost := Sum(items, Cost);
      if items != [] {
        SumAppend(rows, BudgetRow(kind, items, typeCost, Percent(typeCost, totalCost)), RowCost);
      } else {
        assert rows + [] == rows;
      }
    }
  }

  lemma NoStopsNoCost(locs: seq<Location>, kinds: seq<string>)
    requires locs == []
    ensures KindCosts(locs, kinds) == 0
    decreases |kinds|
  {
    if kinds != [] {
      NoStopsNoCost(locs, kinds[..|kinds| - 1]);
    }
  }

  /** One more stop adds its cost to its own kind, if that is one of `kinds`, and to no other. */
  lemma {:induction false} KindCostsAppend(locs: seq<Location>, x: Location, kinds: seq<string>)
    requires Distinct(kinds)
    ensures KindCosts(locs + [x], kinds) == KindCosts(locs, kinds) + (if x.kind in kinds then x.costAmount else 0)
    decreases |kinds|
  {
    if kinds != [] {
      var init := kinds[..|kinds| - 1];
      var kind := kinds[|kinds| - 1];
      assert kinds == init + [kind];
      KindCostsAppend(locs, x, init);
      KindCostAppend(locs, x, kind);
      assert x.kind == kind ==> x.kind !in init;
    }
  }

  /** One more stop adds its cost to the cost of its own kind, and nothing to another. */
  lemma KindCostAppend(locs: seq<Location>, x: Location, kind: string)
    ensures Sum(Filter(locs + [x], OfKind(kind)), Cost)
         == Sum(Filter(locs, OfKind(kind)), Cost) + (if x.kind == kind then x.costAmount else 0)
  {
    FilterAppend(locs, x, OfKind(kind));
    if OfKind(kind)(x) {
      SumAppend(Filter(locs, OfKind(kind)), x, Cost);
    } else {
      assert Filter(locs, OfKind(kind)) + [] == Filter(locs, OfKind(kind));
    }
  }

  lemma {:induction false} KindCostsCoverAll(locs: seq<Location>, kinds: seq<string>)
    requires Distinct(kinds)
    requires forall l | l in locs :: l.kind in kinds
    ensures KindCosts(locs, kinds) == TotalCost(locs)
    decreases |locs|
  {
    if locs == [] {
      NoStopsNoCost(locs, kinds);
    } else {
      var init := locs[..|locs| - 1];
      var x := locs[|locs| - 1];
      assert locs == init + [x];
      KindCostsCoverAll(init, kinds);
      KindCostsAppend(init, x, kinds);
      SumAppend(init, x, Cost);
    }
  }

  /** When every stop has one of the six types, the blocks' costs add up to the total cost. */
  lemma BudgetAddsUp(locs: seq<Location>)
    requires forall l | l in locs :: l.kind in Categories
    ensures Sum(Budget(locs), RowCost) == TotalCost(locs)
  {
    RowCostsAreKindCosts(locs, Categories, TotalCost(locs));
    CategoriesDistinct();
    KindCostsCoverAll(locs, Categories);
  }
}

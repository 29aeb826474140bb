/**
 * The admin analytics page (app/admin/analytics/page.tsx): per-drop counts
 * over the drops fetched newest first, the ten most used invite codes, the
 * reservations counted by month, and the CSV export of the per-drop rows.
 * Locale date text and `toFixed(1)` are supplied as functions.
 */
module AdminAnalytics {
  import opened JsText
  import opened Seqs
  import opened Schema
  import opened Sorting
  import DropsCurrent

  // ---------------------------------------------------------- drop stats

  /** `fillRate`: the percentage of seats confirmed, or the number 0 for a drop with no seats. */
  datatype FillRate = Rate(percent: real) | NoSeats

  datatype DropStat = DropStat(
    title: string,
    date: string,
    confirmed: nat,
    waitlist: nat,
    fillRate: FillRate,
    status: DropStatus)

  function DateTime(d: Drop): int { d.dateTime }

  /** `.order('date_time', {ascending: false})`. */
  function Newest(drops: seq<Drop>): (r: seq<Drop>)
    ensures SortedDesc(r, DateTime)
    ensures multiset(r) == multiset(drops)
  {
    SortDesc(drops, DateTime)
  }

  function StatOf(d: Drop, rsvps: seq<Rsvp>, dateText: int -> string): DropStat {
    var mine := DropsCurrent.RsvpsOf(rsvps, d.id);
    var confirmed := DropsCurrent.StatusCount(mine, Confirmed);
    DropStat(
      d.title,
      dateText(d.dateTime),
      confirmed,
      DropsCurrent.StatusCount(mine, Waitlist),
      if d.seatLimit > 0 then Rate((confirmed as real / d.seatLimit as real) * 100.0) else NoSeats,
      d.status)
  }

  /** `dropStats`: one entry per fetched drop, in fetch order. */
  function DropStats(t: Tables, dateText: int -> string): (r: seq<DropStat>)
    ensures |r| == |t.drops|
  {
    var ordered := Newest(t.drops);
    seq(|ordered|, i requires 0 <= i < |ordered| => StatOf(ordered[i], t.rsvps, dateText))
  }

  // ------------------------------------------------------- top referrers

  function Uses(c: InviteCode): int { c.currentUses }

  predicate Used(c: InviteCode) { c.currentUses > 0 }

  /** `.filter(c => c.current_uses > 0).sort(by uses, largest first).slice(0, 10)`. */
  function Ranked(codes: seq<InviteCode>): seq<InviteCode> {
    Take(SortDesc(Filter(codes, Used), Uses), 10)
  }

  /** The `{code, uses, maxUses}` shown for a code; the usage percentage is left out. */
  datatype Referrer = Referrer(code: string, uses: int, maxUses: int)

  function TopReferrers(codes: seq<InviteCode>): seq<Referrer> {
    var ranked := Ranked(codes);
    seq(|ranked|, i requires 0 <= i < |ranked| => Referrer(ranked[i].code, ranked[i].currentUses, ranked[i].maxUses))
  }

  /** Every element occurs exactly once. */
  predicate NoDuplicates<T(==)>(s: seq<T>) {
    forall x | x in s :: multiset(s)[x] == 1
  }

  // ------------------------------------------------------ monthly growth

  /**
   * The object the `reduce` fills: its keys in the order they were first
   * set, which is the order `Object.entries` lists them in, and the count
   * under each key.
   */
  datatype Tally = Tally(keys: seq<string>, counts: map<string, nat>)

  /** No key is listed twice, and the listed keys are exactly the keys with a count. */
  predicate WellKept(t: Tally) {
    && (forall i, j :: 0 <= i < j < |t.keys| ==> t.keys[i] != t.keys[j])
    && (forall k | k in t.counts :: k in t.keys)
    && (forall k | k in t.keys :: k in t.counts)
  }

  /** `acc[month] = (acc[month] || 0) + 1`. */
  function Bump(t: Tally, m: string): (r: Tally)
    requires WellKept(t)
    ensures WellKept(r)
  {
    if m in t.counts then Tally(t.keys, t.counts[m := t.counts[m] + 1])
    else Tally(t.keys + [m], t.counts[m := 1])
  }

  /** The tally after the `reduce` over `rsvps`, with `month` giving the key of a timestamp. */
  function TallyOf(rsvps: seq<Rsvp>, month: int -> string): (r: Tally)
    ensures WellKept(r)
    decreases |rsvps|
  {
    if rsvps == [] then Tally([], map[])
    else Bump(TallyOf(rsvps[..|rsvps| - 1], month), month(rsvps[|rsvps| - 1].createdAt))
  }

  datatype MonthCount = MonthCount(month: string, count: nat)

  /** `Object.entries(monthlyGrowth).map(([month, count]) => ({month, count}))`. */
  function GrowthData(t: Tally): (r: seq<MonthCount>)
    requires WellKept(t)
    ensures |r| == |t.keys|
  {
    seq(|t.keys|, i requires 0 <= i < |t.keys| => MonthCount(t.keys[i], t.counts[t.keys[i]]))
  }

  /** `monthlyGrowth` and `growthData`: the object filled one reservation at a time, then listed. */
  method MonthlyGrowth(rsvps: seq<Rsvp>, month: int -> string) returns (growth: seq<MonthCount>)
    ensures growth == GrowthData(TallyOf(rsvps, month))
  {
    var keys: seq<string> := [];
    var counts: map<string, nat> := map[];
    for i := 0 to |rsvps|
      invariant Tally(keys, counts) == TallyOf(rsvps[..i], month)
    {
      assert rsvps[..i + 1][..i] == rsvps[..i];
      var m := month(rsvps[i].createdAt);
      if m in counts {
        counts := counts[m := counts[m] + 1];
      } else {
        counts := counts[m := 1];
        keys := keys + [m];
      }
    }
    assert rsvps[..|rsvps|] == rsvps;
    growth := GrowthData(Tally(keys, counts));
  }

  function CountOf(m: MonthCount): int { m.count }

  // ------------------------------------------------------------- CSV export

  const Header: seq<string> := ["Drop", "Date", "Confirmed", "Waitlist", "Fill Rate", "Status"]

  function DropStatusText(st: DropStatus): string {
    match st
    case Draft => "draft"
    case Announced => "announced"
    case SoldOut => "sold_out"
    case Completed => "completed"
    case Cancelled => "cancelled"
  }

  /** `d.fillRate + '%'` before the `%`: the `toFixed(1)` text, or `0` for the number 0. */
  function FillText(f: FillRate, fixed1: real -> string): string {
    match f
    case Rate(p) => fixed1(p)
    case NoSeats => "0"
  }

  function Cells(d: DropStat, fixed1: real -> string): (r: seq<string>)
    ensures |r| == |Header|
  {
    [d.title, d.date, NatToString(d.confirmed), NatToString(d.waitlist), FillText(d.fillRate, fixed1) + "%",
     DropStatusText(d.status)]
  }

  /** Each row's cells joined by `,`, with no quoting. */
  function Lines(stats: seq<DropStat>, fixed1: real -> string): (r: seq<string>)
    ensures |r| == |stats| + 1
  {
    [Join(Header, ',')] + seq(|stats|, i requires 0 <= i < |stats| => Join(Cells(stats[i], fixed1), ','))
  }

  /** The exported text: the rows joined by a line break. */
  function Csv(stats: seq<DropStat>, fixed1: real -> string): string {
    Join(Lines(stats, fixed1), '\n')
  }

  /** A cell the CSV can carry: no comma and no line break. */
  predicate Plain(s: string) { ',' !in s && '\n' !in s }

  // ------------------------------------------------------------ properties

  /**
   * One entry per drop, newest first; each counts only the reservations of
   * that drop, and `fillRate` is 0 exactly when the drop has no seats.
   */
  lemma DropStatsCountOwnRsvps(t: Tables, dateText: int -> string, i: int)
    requires 0 <= i < |t.drops|
    ensures var d := Newest(t.drops)[i];
      var st := DropStats(t, dateText)[i];
      && d in t.drops
      && st.title == d.title && st.status == d.status
      && st.confirmed == Count(t.rsvps, (x: Rsvp) => x.dropId == d.id && x.status == Confirmed)
      && st.waitlist == Count(t.rsvps, (x: Rsvp) => x.dropId == d.id && x.status == Waitlist)
      && (st.fillRate == NoSeats <==> d.seatLimit <= 0)
  {
    var d := Newest(t.drops)[i];
    assert d in multiset(Newest(t.drops));
    FilterOfFilter(t.rsvps, (x: Rsvp) => x.dropId == d.id, (x: Rsvp) => x.status == Confirmed,
                   (x: Rsvp) => x.dropId == d.id && x.status == Confirmed);
    FilterOfFilter(t.rsvps, (x: Rsvp) => x.dropId == d.id, (x: Rsvp) => x.status == Waitlist,
                   (x: Rsvp) => x.dropId == d.id && x.status == Waitlist);
  }

  /** A drop that has seats but no confirmed guests is 0.0 percent full, not `NoSeats`. */
  lemma EmptyDropWithSeatsHasRate(t: Tables, dateText: int -> string, i: int)
    requires 0 <= i < |t.drops|
    requires Newest(t.drops)[i].seatLimit > 0
    requires forall x | x in t.rsvps :: x.dropId != Newest(t.drops)[i].id
    ensures DropStats(t, dateText)[i].fillRate == Rate(0.0)
  {
    var d := Newest(t.drops)[i];
    FilterNone(t.rsvps, (x: Rsvp) => x.dropId == d.id);
  }

  lemma {:induction false} SortedTakeIsTop<T>(s: seq<T>, key: T -> int, n: nat, c: T)
    requires SortedDesc(s, key)
    requires c in s && c !in Take(s, n)
    ensures |Take(s, n)| == n
    ensures forall x | x in Take(s, n) :: key(x) >= key(c)
  {
    var j :| 0 <= j < |s| && s[j] == c;
    forall i | 0 <= i < |Take(s, n)| ensures s[i] != c {
      assert Take(s, n)[i] in Take(s, n);
    }
    forall x | x in Take(s, n) ensures key(x) >= key(c) {
      var i :| 0 <= i < |Take(s, n)| && Take(s, n)[i] == x;
      assert s[i] == x;
    }
  }

  /**
   * At most ten codes, every one used at least once, most used first, each
   * taken from the table and none twice when the table has no duplicate;
   * a used code left out means the list is full of codes used as often.
   */
  lemma RankedIsTopTen(codes: seq<InviteCode>)
    ensures var r := Ranked(codes);
      && |r| <= 10
      && (forall x | x in r :: Used(x))
      && SortedDesc(r, Uses)
      && multiset(r) <= multiset(codes)
      && (NoDuplicates(codes) ==> NoDuplicates(r))
      && forall c | c in codes && Used(c) && c !in r :: |r| == 10 && forall x | x in r :: Uses(x) >= Uses(c)
  {
    var used := Filter(codes, Used);
    var sorted := SortDesc(used, Uses);
    var r := Take(sorted, 10);
    FilterMultiset(codes, Used);
    TakeKeepsOrder(sorted, 10, Uses);
    forall x | x in r ensures Used(x) {
      assert x in multiset(r);
      assert x in multiset(used);
    }
    if NoDuplicates(codes) {
      forall x | x in r ensures multiset(r)[x] == 1 {
        assert x in multiset(r);
        assert x in multiset(codes);
      }
    }
    forall c | c in codes && Used(c) && c !in r
      ensures |r| == 10 && forall x | x in r :: Uses(x) >= Uses(c)
    {
      assert c in used;
      assert c in multiset(sorted);
      SortedTakeIsTop(sorted, Uses, 10, c);
    }
  }

  /** The listed referrers are the ranked codes, field for field. */
  lemma TopReferrersShowRanked(codes: seq<InviteCode>)
    ensures |TopReferrers(codes)| == |Ranked(codes)| <= 10
    ensures forall i :: 0 <= i < |TopReferrers(codes)| ==>
      && TopReferrers(codes)[i].uses == Ranked(codes)[i].currentUses > 0
      && TopReferrers(codes)[i].code == Ranked(codes)[i].code
  {
    RankedIsTopTen(codes);
    forall i | 0 <= i < |Ranked(codes)| ensures Ranked(codes)[i].currentUses > 0 {
      assert Ranked(codes)[i] in Ranked(codes);
    }
  }

  /** The reservations whose timestamp falls in month `k`. */
  function InMonth(month: int -> string, k: string): Rsvp -> bool {
    (x: Rsvp) => month(x.createdAt) == k
  }

  /** A month has a key iff some reservation falls in it. */
  lemma {:induction false} TallyKeys(rsvps: seq<Rsvp>, month: int -> string)
    ensures forall k :: k in TallyOf(rsvps, month).counts <==> exists x | x in rsvps :: month(x.createdAt) == k
    decreases |rsvps|
  {
    if rsvps != [] {
      var init := rsvps[..|rsvps| - 1];
      var last := rsvps[|rsvps| - 1];
      TallyKeys(init, month);
      assert rsvps == init + [last];
      forall k ensures k in TallyOf(rsvps, month).counts <==> exists x | x in rsvps :: month(x.createdAt) == k {
        if k in TallyOf(init, month).counts {
          var x :| x in init && month(x.createdAt) == k;
          assert x in rsvps;
        }
        if exists x | x in rsvps :: month(x.createdAt) == k {
          var x :| x in rsvps && month(x.createdAt) == k;
          assert x in init || x == last;
        }
      }
    }
  }

  /** The count under each key is the number of reservations in that month. */
  lemma {:induction false} TallyCounts(rsvps: seq<Rsvp>, month: int -> string)
    ensures forall k | k in TallyOf(rsvps, month).counts :: TallyOf(rsvps, month).counts[k] == Count(rsvps, InMonth(month, k))
    decreases |rsvps|
  {
    if rsvps != [] {
      var init := rsvps[..|rsvps| - 1];
      var m := month(rsvps[|rsvps| - 1].createdAt);
      var before := TallyOf(init, month);
      TallyCounts(init, month);
      assert TallyOf(rsvps, month) == Bump(before, m);
      forall k | k in TallyOf(rsvps, month).counts
        ensures TallyOf(rsvps, month).counts[k] == Count(rsvps, InMonth(month, k))
      {
        assert Filter(rsvps, InMonth(month, k))
          == Filter(init, InMonth(month, k)) + (if m == k then [rsvps[|rsvps| - 1]] else []);
        if k !in before.counts {
          TallyKeys(init, month);
          forall i | 0 <= i < |init| ensures !InMonth(month, k)(init[i]) {
            assert init[i] in init;
          }
          FilterNone(init, InMonth(month, k));
        }
      }
    }
  }

  /** Raising one term by one raises the sum by one. */
  lemma {:induction false} SumRaiseOne(s: seq<MonthCount>, s2: seq<MonthCount>, j: int)
    requires |s2| == |s| && 0 <= j < |s|
    requires s2[j].count == s[j].count + 1
    requires forall i :: 0 <= i < |s| && i != j ==> s2[i].count == s[i].count
    ensures Sum(s2, CountOf) == Sum(s, CountOf) + 1
    decreases |s|
  {
    if j < |s| - 1 {
      SumRaiseOne(s[..|s| - 1], s2[..|s2| - 1], j);
    } else {
      SumMono(s[..|s| - 1], CountOf, CountOf);
      SameSum(s[..|s| - 1], s2[..|s2| - 1]);
    }
  }

  lemma {:induction false} SameSum(s: seq<MonthCount>, s2: seq<MonthCount>)
    requires |s2| == |s|
    requires forall i :: 0 <= i < |s| ==> s2[i].count == s[i].count
    ensures Sum(s2, CountOf) == Sum(s, CountOf)
    decreases |s|
  {
    if s != [] {
      SameSum(s[..|s| - 1], s2[..|s2| - 1]);
    }
  }

  /** One more reservation in a month raises the listed counts' sum by one. */
  lemma BumpAddsOne(t: Tally, m: string)
    requires WellKept(t)
    ensures Sum(GrowthData(Bump(t, m)), CountOf) == Sum(GrowthData(t), CountOf) + 1
  {
    var g := GrowthData(t);
    var g2 := GrowthData(Bump(t, m));
    if m in t.counts {
      var j :| 0 <= j < |t.keys| && t.keys[j] == m;
      SumRaiseOne(g, g2, j);
    } else {
      assert g2 == g + [MonthCount(m, 1)];
      SumAppend(g, MonthCount(m, 1), CountOf);
    }
  }

  /** The monthly counts add up to the number of reservations. */
  lemma {:induction false} GrowthAddsUp(rsvps: seq<Rsvp>, month: int -> string)
    ensures Sum(GrowthData(TallyOf(rsvps, month)), CountOf) == |rsvps|
    decreases |rsvps|
  {
    if rsvps != [] {
      var init := rsvps[..|rsvps| - 1];
      GrowthAddsUp(init, month);
      BumpAddsOne(TallyOf(init, month), month(rsvps[|rsvps| - 1].createdAt));
    }
  }

  /** Number and status cells never hold a comma or a line break; the others hold one only if their field does. */
  lemma CellsPlain(d: DropStat, fixed1: real -> string)
    requires Plain(d.date) && Plain(FillText(d.fillRate, fixed1))
    ensures forall j :: 1 <= j < |Header| ==> Plain(Cells(d, fixed1)[j])
    ensures Plain(d.title) ==> Plain(Cells(d, fixed1)[0])
  {
    var cells := Cells(d, fixed1);
    assert cells[4] == FillText(d.fillRate, fixed1) + "%";
    assert forall c | c in cells[2] :: IsDigit(c);
    assert forall c | c in cells[3] :: IsDigit(c);
  }

  /** A row whose cells are plain is one line. */
  lemma RowUnbroken(d: DropStat, fixed1: real -> string)
    requires Plain(d.title) && Plain(d.date) && Plain(FillText(d.fillRate, fixed1))
    ensures '\n' !in Join(Cells(d, fixed1), ',')
  {
    CellsPlain(d, fixed1);
    JoinAvoids(Cells(d, fixed1), ',', '\n');
  }

  /** A row whose cells are plain splits back into its cells. */
  lemma RowSplitsBack(d: DropStat, fixed1: real -> string)
    requires Plain(d.title) && Plain(d.date) && Plain(FillText(d.fillRate, fixed1))
    ensures Split(Join(Cells(d, fixed1), ','), ',') == Cells(d, fixed1)
  {
    CellsPlain(d, fixed1);
    SplitJoin(Cells(d, fixed1), ',');
  }

  lemma HeaderUnbroken()
    ensures '\n' !in Join(Header, ',')
  {
    JoinAvoids(Header, ',', '\n');
  }

  lemma HeaderSplitsBack()
    ensures Split(Join(Header, ','), ',') == Header
  {
    SplitJoin(Header, ',');
  }

  lemma LinesUnbroken(stats: seq<DropStat>, fixed1: real -> string)
    requires forall i | 0 <= i < |stats| ::
      Plain(stats[i].title) && Plain(stats[i].date) && Plain(FillText(stats[i].fillRate, fixed1))
    ensures forall i :: 0 <= i < |Lines(stats, fixed1)| ==> '\n' !in Lines(stats, fixed1)[i]
  {
    var lines := Lines(stats, fixed1);
    forall i | 0 <= i < |lines| ensures '\n' !in lines[i] {
      if i == 0 {
        HeaderUnbroken();
      } else {
        RowUnbroken(stats[i - 1], fixed1);
      }
    }
  }

  /** With cells free of commas and line breaks, the export splits back into its header and one row per drop. */
  lemma CsvSplitsBack(stats: seq<DropStat>, fixed1: real -> string)
    requires forall i | 0 <= i < |stats| ::
      Plain(stats[i].title) && Plain(stats[i].date) && Plain(FillText(stats[i].fillRate, fixed1))
    ensures Split(Csv(stats, fixed1), '\n') == Lines(stats, fixed1)
    ensures Split(Lines(stats, fixed1)[0], ',') == Header
    ensures forall i | 0 <= i < |stats| :: Split(Lines(stats, fixed1)[i + 1], ',') == Cells(stats[i], fixed1)
  {
    var lines := Lines(stats, fixed1);
    LinesUnbroken(stats, fixed1);
    SplitJoin(lines, '\n');
    HeaderSplitsBack();
    forall i | 0 <= i < |stats| ensures Split(lines[i + 1], ',') == Cells(stats[i], fixed1) {
      assert lines[i + 1] == Join(Cells(stats[i], fixed1), ',');
      RowSplitsBack(stats[i], fixed1);
    }
  }

  /** There is no quoting: a comma in a drop title splits the row into seven cells. */
  lemma CommaInTitleShiftsCells(d: DropStat, fixed1: real -> string, w1: string, w2: string)
    requires d.title == w1 + "," + w2 && Plain(w1) && Plain(w2)
    requires Plain(d.date) && Plain(FillText(d.fillRate, fixed1))
    ensures Split(Join(Cells(d, fixed1), ','), ',') == [w1, w2] + Cells(d, fixed1)[1..]
    ensures |Split(Join(Cells(d, fixed1), ','), ',')| == 7
  {
    var cells := Cells(d, fixed1);
    var rest := cells[1..];
    CellsPlain(d, fixed1);
    SplitJoin(rest, ',');
    assert Join(cells, ',') == w1 + [','] + (w2 + [','] + Join(rest, ','));
    SplitAfterPiece(w1, ',', w2 + [','] + Join(rest, ','));
    SplitAfterPiece(w2, ',', Join(rest, ','));
  }
}

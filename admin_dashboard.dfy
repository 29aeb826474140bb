/**
 * The admin dashboard (app/admin/page.tsx, `fetchComprehensiveStats`): counts
 * over the five tables, three percentages that are 0 when their denominator
 * is 0, and the recent-activity list built from the first five fetched
 * reservations.  Percentages are exact rationals here.
 */
module AdminDashboard {
  import opened Wrappers
  import opened JsText
  import opened Seqs
  import opened Schema
  import opened Sorting

  datatype Stats = Stats(
    totalDrops: nat,
    activeDrops: nat,
    completedDrops: nat,
    totalRsvps: nat,
    confirmedSeats: nat,
    waitlistCount: nat,
    cancelledCount: nat,
    conversionRate: real,
    totalCodes: nat,
    activeCodes: nat,
    totalInvites: int,
    maxPossibleUses: int,
    codeUsageRate: real,
    totalCheckins: nat,
    attendanceRate: real,
    totalRevenue: int,
    avgTicketPrice: int)

  function StatsOf(t: Tables): Stats {
    var confirmed := Count(t.rsvps, (r: Rsvp) => r.status == Confirmed);
    var totalInvites := Sum(t.inviteCodes, (c: InviteCode) => c.currentUses);
    var maxPossible := Sum(t.inviteCodes, (c: InviteCode) => c.maxUses);
    Stats(
      |t.drops|,
      Count(t.drops, (d: Drop) => d.status == Announced || d.status == SoldOut),
      Count(t.drops, (d: Drop) => d.status == Completed),
      |t.rsvps|,
      confirmed,
      Count(t.rsvps, (r: Rsvp) => r.status == Waitlist),
      Count(t.rsvps, (r: Rsvp) => r.status == RsvpStatus.Cancelled),
      Percent(confirmed, |t.rsvps|),
      |t.inviteCodes|,
      Count(t.inviteCodes, (c: InviteCode) => c.active),
      totalInvites,
      maxPossible,
      Percent(totalInvites, maxPossible),
      |t.checkins|,
      Percent(|t.checkins|, confirmed),
      0,
      0)
  }

  // -------------------------------------------------------- recent activity

  /** A fetched reservation with its `drops(*)` and `profiles(*)` joins. */
  datatype ActivityRow = ActivityRow(rsvp: Rsvp, profile: Option<Profile>, drop: Option<Drop>)

  /** One entry of the list; every entry the page builds is of type `'rsvp'`. */
  datatype Activity = Activity(id: Id, user: string, drop: string, timestamp: int)

  /** The entry for one confirmed reservation: guest name or `Guest`, drop title or `Unknown`. */
  function EntryOf(row: ActivityRow): Activity {
    Activity(
      row.rsvp.id,
      OrElse(if row.profile.Some? then Some(row.profile.value.name) else None, "Guest"),
      OrElse(if row.drop.Some? then Some(row.drop.value.title) else None, "Unknown"),
      row.rsvp.createdAt)
  }

  /** The entries pushed for the confirmed rows, in row order. */
  function Pushed(rows: seq<ActivityRow>): (r: seq<Activity>)
    ensures |r| <= |rows|
    decreases |rows|
  {
    if rows == [] then []
    else Pushed(rows[..|rows| - 1])
         + (if rows[|rows| - 1].rsvp.status == Confirmed then [EntryOf(rows[|rows| - 1])] else [])
  }

  function Timestamp(a: Activity): int { a.timestamp }

  /**
   * `rsvps.slice(0, 5).forEach(...)` pushing confirmed ones, then the sort by
   * timestamp, newest first, and `slice(0, 10)`.
   */
  method RecentActivity(rows: seq<ActivityRow>) returns (activity: seq<Activity>)
    ensures activity == Take(SortDesc(Pushed(Take(rows, 5)), Timestamp), 10)
  {
    var first := Take(rows, 5);
    activity := [];
    var i := 0;
    while i < |first|
      invariant 0 <= i <= |first|
      invariant activity == Pushed(first[..i])
    {
      assert first[..i + 1][..i] == first[..i];
      if first[i].rsvp.status == Confirmed {
        activity := activity + [EntryOf(first[i])];
      }
      i := i + 1;
    }
    assert first[..|first|] == first;
    activity := Take(SortDesc(activity, Timestamp), 10);
  }

  // ------------------------------------------------------------ properties

  /** Live plus completed drops never exceed the drops. */
  lemma DropCountsBounded(t: Tables)
    ensures StatsOf(t).activeDrops + StatsOf(t).completedDrops <= StatsOf(t).totalDrops
  {
    CountDisjoint(t.drops, (d: Drop) => d.status == Announced || d.status == SoldOut,
                  (d: Drop) => d.status == Completed);
  }

  /** Every reservation is confirmed, waitlisted or cancelled, so the three counts add up to the total. */
  lemma StatusCountsPartition(t: Tables)
    ensures var st := StatsOf(t);
      st.confirmedSeats + st.waitlistCount + st.cancelledCount == st.totalRsvps
  {
    CountPartition3(t.rsvps, (r: Rsvp) => r.status == Confirmed, (r: Rsvp) => r.status == Waitlist,
                    (r: Rsvp) => r.status == RsvpStatus.Cancelled);
  }

  /** Uses stay within the caps when each code keeps to its cap; the usage rate is then at most 100. */
  lemma InviteTotalsBounded(t: Tables)
    requires forall c | c in t.inviteCodes :: 0 <= c.currentUses <= c.maxUses
    ensures 0 <= StatsOf(t).totalInvites <= StatsOf(t).maxPossibleUses
    ensures 0.0 <= StatsOf(t).codeUsageRate <= 100.0
  {
    SumNonNegative(t.inviteCodes, (c: InviteCode) => c.currentUses);
    SumMono(t.inviteCodes, (c: InviteCode) => c.currentUses, (c: InviteCode) => c.maxUses);
  }

  /** Each rate is 0 when its denominator is 0; the conversion rate lies in [0, 100]. */
  lemma RatesGuarded(t: Tables)
    ensures var st := StatsOf(t);
      && (st.totalRsvps == 0 ==> st.conversionRate == 0.0)
      && (st.maxPossibleUses <= 0 ==> st.codeUsageRate == 0.0)
      && (st.confirmedSeats == 0 ==> st.attendanceRate == 0.0)
      && 0.0 <= st.conversionRate <= 100.0
  {
  }

  /**
   * `checkins` also holds the rows pre-created for waitlisted reservations,
   * so the attendance rate can pass 100 before anyone has arrived.
   */
  lemma AttendanceCanExceedHundred()
    ensures var r1 := Rsvp(1, 10, 7, Confirmed, "C25-AAAA-AAAA", "", None, 0);
            var r2 := Rsvp(2, 11, 7, Waitlist, "C25-BBBB-BBBB", "", None, 0);
            var t := Tables([], [], [],
                            [r1, r2], [Checkin(10, 7, None, None), Checkin(11, 7, None, None)], 3);
            StatsOf(t).attendanceRate == 200.0
  {
    var r1 := Rsvp(1, 10, 7, Confirmed, "C25-AAAA-AAAA", "", None, 0);
    var r2 := Rsvp(2, 11, 7, Waitlist, "C25-BBBB-BBBB", "", None, 0);
    assert [r1, r2][..1] == [r1];
    assert [r1][..0] == [];
  }

  /** The entries pushed are exactly those of the confirmed rows. */
  lemma {:induction false} PushedAreConfirmed(rows: seq<ActivityRow>)
    ensures forall a :: a in Pushed(rows) <==> exists r | r in rows :: r.rsvp.status == Confirmed && a == EntryOf(r)
    decreases |rows|
  {
    if rows != [] {
      var init := rows[..|rows| - 1];
      PushedAreConfirmed(init);
      assert rows == init + [rows[|rows| - 1]];
      forall a | a in Pushed(rows)
        ensures exists r | r in rows :: r.rsvp.status == Confirmed && a == EntryOf(r)
      {
        if a in Pushed(init) {
          var r :| r in init && r.rsvp.status == Confirmed && a == EntryOf(r);
          assert r in rows;
        }
      }
      forall a | exists r | r in rows :: r.rsvp.status == Confirmed && a == EntryOf(r)
        ensures a in Pushed(rows)
      {
        var r :| r in rows && r.rsvp.status == Confirmed && a == EntryOf(r);
        if r in init {
          assert a in Pushed(init);
        }
      }
    }
  }

  /**
   * The list has at most five entries, newest first, and holds exactly the
   * entries of the confirmed reservations among the first five fetched.
   */
  lemma RecentActivityShape(rows: seq<ActivityRow>)
    ensures var r := Take(SortDesc(Pushed(Take(rows, 5)), Timestamp), 10);
      && |r| <= 5
      && SortedDesc(r, Timestamp)
      && multiset(r) == multiset(Pushed(Take(rows, 5)))
      && forall a :: a in r <==> exists row | row in Take(rows, 5) :: row.rsvp.status == Confirmed && a == EntryOf(row)
  {
    var pushed := Pushed(Take(rows, 5));
    var sorted := SortDesc(pushed, Timestamp);
    assert Take(sorted, 10) == sorted;
    PushedAreConfirmed(Take(rows, 5));
    forall a ensures a in sorted <==> a in pushed {
      assert a in sorted <==> a in multiset(sorted);
      assert a in pushed <==> a in multiset(pushed);
    }
  }
}

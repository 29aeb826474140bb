/**
 * `GET /api/drops/current` (app/api/drops/current/route.ts): the drop shown on
 * the home page.  It is the `announced` or `sold_out` drop with the earliest
 * date, returned with its confirmed and waitlist counts and
 * `seatsRemaining = seat_limit - confirmedCount`, which is not clamped at zero.
 */
module DropsCurrent {
  import opened Wrappers
  import opened Seqs
  import opened Schema

  /** The counts the route adds to the drop row. */
  datatype DropView = DropView(
    drop: Drop,
    seatsRemaining: int,
    totalSeats: int,
    confirmedCount: nat,
    waitlistCount: nat)

  /** `{drop: ...}`, `{drop: null}` when no row matches, or the 500 `{error}` when the query fails. */
  datatype Response = Current(view: Option<DropView>) | QueryFailed(error: string)

  const FetchError: string := "Failed to fetch drop"

  /** `.in('status', ['announced', 'sold_out'])`. */
  predicate Live(d: Drop) {
    d.status == Announced || d.status == SoldOut
  }

  /**
   * `.order('date_time', {ascending: true}).limit(1)` over the live drops; among
   * drops with the same date the one earliest in the table is taken.
   */
  function EarliestLive(drops: seq<Drop>): (r: Option<Drop>)
    ensures r.Some? <==> exists d | d in drops :: Live(d)
    ensures r.Some? ==> r.value in drops && Live(r.value)
    ensures r.Some? ==> forall d | d in drops && Live(d) :: r.value.dateTime <= d.dateTime
    decreases |drops|
  {
    if drops == [] then None
    else
      var best := EarliestLive(drops[..|drops| - 1]);
      var last := drops[|drops| - 1];
      assert forall d | d in drops :: d in drops[..|drops| - 1] || d == last;
      if !Live(last) then best
      else if best.None? || last.dateTime < best.value.dateTime then Some(last)
      else best
  }

  /** The `rsvps(id, status)` embedded in the drop row: the reservations of that drop. */
  function RsvpsOf(rsvps: seq<Rsvp>, dropId: Id): (r: seq<Rsvp>)
    ensures forall x :: x in r <==> x in rsvps && x.dropId == dropId
  {
    Filter(rsvps, (x: Rsvp) => x.dropId == dropId)
  }

  function StatusCount(rsvps: seq<Rsvp>, st: RsvpStatus): nat {
    Count(rsvps, (x: Rsvp) => x.status == st)
  }

  function ViewOf(t: Tables, d: Drop): DropView {
    var mine := RsvpsOf(t.rsvps, d.id);
    var confirmed := StatusCount(mine, Confirmed);
    DropView(d, d.seatLimit - confirmed, d.seatLimit, confirmed, StatusCount(mine, Waitlist))
  }

  function Get(t: Tables, queryFails: bool): Response {
    if queryFails then QueryFailed(FetchError)
    else match EarliestLive(t.drops)
      case None => Current(None)
      case Some(d) => Current(Some(ViewOf(t, d)))
  }

  // ------------------------------------------------------------ properties

  /** `drop: null` exactly when no drop is announced or sold out; a draft, completed or cancelled drop is never shown. */
  lemma SelectionIsEarliestLive(t: Tables)
    ensures Get(t, false).Current?
    ensures Get(t, false).view.None? <==> forall d | d in t.drops :: !Live(d)
    ensures var v := Get(t, false).view;
      v.Some? ==>
        && v.value.drop in t.drops
        && v.value.drop.status != Draft && v.value.drop.status != Completed && v.value.drop.status != DropStatus.Cancelled
        && forall d | d in t.drops && Live(d) :: v.value.drop.dateTime <= d.dateTime
  {
  }

  /** The counts add up: remaining plus confirmed is the seat limit, and confirmed plus waitlisted never exceeds the drop's reservations. */
  lemma CountsAddUp(t: Tables, d: Drop)
    ensures var v := ViewOf(t, d);
      && v.seatsRemaining + v.confirmedCount == d.seatLimit
      && v.totalSeats == d.seatLimit
      && v.confirmedCount + v.waitlistCount <= |RsvpsOf(t.rsvps, d.id)|
      && v.confirmedCount == Count(t.rsvps, (x: Rsvp) => x.dropId == d.id && x.status == Confirmed)
  {
    var mine := RsvpsOf(t.rsvps, d.id);
    CountDisjoint(mine, (x: Rsvp) => x.status == Confirmed, (x: Rsvp) => x.status == Waitlist);
    FilterOfFilter(t.rsvps, (x: Rsvp) => x.dropId == d.id, (x: Rsvp) => x.status == Confirmed,
                   (x: Rsvp) => x.dropId == d.id && x.status == Confirmed);
  }

  /** `seatsRemaining` goes negative once more guests are confirmed than there are seats. */
  lemma SeatsRemainingCanBeNegative()
    ensures var d := Drop(1, "supper", "Supper", 0, 1, SoldOut, "");
            var r1 := Rsvp(2, 10, 1, Confirmed, "C25-AAAA-AAAA", "", None, 0);
            var r2 := Rsvp(3, 11, 1, Confirmed, "C25-BBBB-BBBB", "", None, 0);
            var t := Tables([], [d], [], [r1, r2], [], 4);
            Get(t, false) == Current(Some(DropView(d, -1, 1, 2, 0)))
  {
    var d := Drop(1, "supper", "Supper", 0, 1, SoldOut, "");
    var r1 := Rsvp(2, 10, 1, Confirmed, "C25-AAAA-AAAA", "", None, 0);
    var r2 := Rsvp(3, 11, 1, Confirmed, "C25-BBBB-BBBB", "", None, 0);
    assert EarliestLive([d]) == Some(d) by {
      assert [d][..0] == [];
    }
    assert RsvpsOf([r1, r2], 1) == [r1, r2] by {
      assert [r1, r2][..1] == [r1];
      assert [r1][..0] == [];
    }
    assert StatusCount([r1, r2], Confirmed) == 2 by {
      assert [r1, r2][..1] == [r1];
      assert [r1][..0] == [];
    }
    FilterNone([r1, r2], (x: Rsvp) => x.status == Waitlist);
  }
}

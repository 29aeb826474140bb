/**
 * The admin guest list (app/admin/guests/page.tsx): the fetched reservations,
 * each joined with its guest profile, narrowed by a drop filter, a status
 * filter and a case-insensitive search over name and email; and the status
 * buttons, which overwrite one reservation's status with no capacity check.
 */
module AdminGuests {
  import opened Wrappers
  import opened JsText
  import opened Seqs
  import opened Schema
  import RsvpRoute

  /** A fetched reservation with its `profiles(*)` join, which may be missing. */
  datatype GuestRow = GuestRow(rsvp: Rsvp, profile: Option<Profile>)

  /** `selectedDrop`: `'all'` or a drop id. */
  datatype DropFilter = AllDrops | OnlyDrop(dropId: Id)

  /** `statusFilter`: `'all'` or a status. */
  datatype StatusFilter = AllStatuses | OnlyStatus(status: RsvpStatus)

  predicate MatchesDrop(row: GuestRow, f: DropFilter) {
    f.AllDrops? || row.rsvp.dropId == f.dropId
  }

  predicate MatchesStatus(row: GuestRow, f: StatusFilter) {
    f.AllStatuses? || row.rsvp.status == f.status
  }

  /**
   * An empty query matches; otherwise the lowercased name or email must
   * contain the lowercased query.  A missing profile, or a missing (empty)
   * name or email, never contains a non-empty query.
   */
  predicate MatchesSearch(row: GuestRow, query: string) {
    || query == ""
    || (row.profile.Some? && row.profile.value.name != "" && Includes(Lower(row.profile.value.name), Lower(query)))
    || (row.profile.Some? && row.profile.value.email != "" && Includes(Lower(row.profile.value.email), Lower(query)))
  }

  predicate Keep(row: GuestRow, df: DropFilter, sf: StatusFilter, query: string) {
    MatchesDrop(row, df) && MatchesStatus(row, sf) && MatchesSearch(row, query)
  }

  /** `filteredRSVPs`. */
  function Filtered(rows: seq<GuestRow>, df: DropFilter, sf: StatusFilter, query: string): (r: seq<GuestRow>)
    ensures forall x :: x in r <==> x in rows && Keep(x, df, sf, query)
    ensures forall x :: multiset(r)[x] == if Keep(x, df, sf, query) then multiset(rows)[x] else 0
    ensures Subsequence(r, rows)
  {
    FilterIsSubsequence(rows, (x: GuestRow) => Keep(x, df, sf, query));
    FilterCopies(rows, (x: GuestRow) => Keep(x, df, sf, query));
    Filter(rows, (x: GuestRow) => Keep(x, df, sf, query))
  }

  /** The buttons a row shows: each status other than its own, in the page's order. */
  function Actions(st: RsvpStatus): (r: seq<RsvpStatus>)
    ensures forall s :: s in r <==> s != st
    ensures |r| == 2
  {
    (if st != Confirmed then [Confirmed] else [])
    + (if st != Waitlist then [Waitlist] else [])
    + (if st != RsvpStatus.Cancelled then [RsvpStatus.Cancelled] else [])
  }

  /** `.update({status}).eq('id', rsvpId)` on `rsvps`. */
  function SetStatus(rsvps: seq<Rsvp>, rsvpId: Id, st: RsvpStatus): (r: seq<Rsvp>)
    ensures |r| == |rsvps|
    ensures forall i :: 0 <= i < |rsvps| ==>
      r[i] == if rsvps[i].id == rsvpId then rsvps[i].(status := st) else rsvps[i]
  {
    seq(|rsvps|, i requires 0 <= i < |rsvps| =>
      if rsvps[i].id == rsvpId then rsvps[i].(status := st) else rsvps[i])
  }

  /**
   * `updateRSVPStatus`: the update, or nothing when the database refuses it
   * (the error is only logged).  The refetch that follows reads the new table.
   */
  method UpdateRsvpStatus(db: Database, rsvpId: Id, st: RsvpStatus, fails: bool)
    modifies db
    ensures db.rsvps == if fails then old(db.rsvps) else SetStatus(old(db.rsvps), rsvpId, st)
    ensures db.inviteCodes == old(db.inviteCodes) && db.drops == old(db.drops)
    ensures db.profiles == old(db.profiles) && db.checkins == old(db.checkins) && db.nextId == old(db.nextId)
  {
    if !fails {
      db.rsvps := SetStatus(db.rsvps, rsvpId, st);
    }
  }

  // ------------------------------------------------------------ properties

  /** The filters `all`, `all` and an empty search keep the whole list. */
  lemma NoFilterKeepsAll(rows: seq<GuestRow>)
    ensures Filtered(rows, AllDrops, AllStatuses, "") == rows
  {
    FilterAll(rows, (x: GuestRow) => Keep(x, AllDrops, AllStatuses, ""));
  }

  /** A row whose profile is missing, or has neither name nor email, never matches a non-empty search. */
  lemma NoProfileNeverFound(row: GuestRow, rows: seq<GuestRow>, df: DropFilter, sf: StatusFilter, query: string)
    requires query != ""
    requires row.profile.None? || (row.profile.value.name == "" && row.profile.value.email == "")
    ensures row !in Filtered(rows, df, sf, query)
  {
  }

  /** The search ignores the case of the query. */
  lemma SearchIgnoresQueryCase(rows: seq<GuestRow>, df: DropFilter, sf: StatusFilter, q1: string, q2: string)
    requires Lower(q1) == Lower(q2) && (q1 == "" <==> q2 == "")
    ensures Filtered(rows, df, sf, q1) == Filtered(rows, df, sf, q2)
  {
    assert forall x :: Keep(x, df, sf, q1) == Keep(x, df, sf, q2);
    FilterSameCondition(rows, (x: GuestRow) => Keep(x, df, sf, q1), (x: GuestRow) => Keep(x, df, sf, q2));
  }

  /** The status edit changes only the targeted row's status; every other row and field stays. */
  lemma SetStatusTargetsOneRow(rsvps: seq<Rsvp>, rsvpId: Id, st: RsvpStatus, i: int)
    requires 0 <= i < |rsvps|
    ensures var r := SetStatus(rsvps, rsvpId, st)[i];
      && r.(status := rsvps[i].status) == rsvps[i]
      && (rsvps[i].id == rsvpId ==> r.status == st)
      && (rsvps[i].id != rsvpId ==> r == rsvps[i])
  {
  }

  /** There is no capacity check: confirming a waitlisted guest can push a drop over its seat limit. */
  lemma ConfirmCanExceedCapacity()
    ensures var d := Drop(7, "supper", "Supper", 0, 1, SoldOut, "");
            var r1 := Rsvp(1, 10, 7, Confirmed, "C25-AAAA-AAAA", "", None, 0);
            var r2 := Rsvp(2, 11, 7, Waitlist, "C25-BBBB-BBBB", "", None, 0);
            var t := Tables([], [d], [], [r1, r2], [], 12);
            && RsvpRoute.WithinCapacity(t)
            && !RsvpRoute.WithinCapacity(t.(rsvps := SetStatus(t.rsvps, 2, Confirmed)))
  {
    var d := Drop(7, "supper", "Supper", 0, 1, SoldOut, "");
    var r1 := Rsvp(1, 10, 7, Confirmed, "C25-AAAA-AAAA", "", None, 0);
    var r2 := Rsvp(2, 11, 7, Waitlist, "C25-BBBB-BBBB", "", None, 0);
    var after := SetStatus([r1, r2], 2, Confirmed);
    assert after == [r1, r2.(status := Confirmed)];
    assert [r1, r2][..1] == [r1];
    assert after[..1] == [r1];
    assert [r1][..0] == [];
    assert RsvpRoute.ConfirmedCount([], 7) == 0;
    assert RsvpRoute.ConfirmedCount([r1], 7) == 1;
    assert RsvpRoute.ConfirmedCount([r1, r2], 7) == 1;
    assert RsvpRoute.ConfirmedCount(after, 7) == 2;
  }
}

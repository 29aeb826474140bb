# Club25 in Dafny

Club25 is an invitation-only supper club. Guests reserve a seat at a
"drop" (one dinner) with an invite code. They get a confirmation code of the
form `C25-XXXX-XXXX` and a ticket page. At the door, staff scan a QR code to
check them in. Admins create drops and invite codes, move guests between
confirmed, waitlist and cancelled, and read dashboards.

This project models the server routes, the pages' data logic, the mails and
the middleware in Dafny, and proves properties of that model. The hosted
database is a value of five tables (`Schema.Tables`). Where a handler writes
to it step by step, the database is a class holding one field per table
(`Schema.Database`).

- **The reservation route** (`RsvpRoute`) is a specification function
  `Admit`. An imperative `Post` method is proved to produce the same reply and
  tables. The properties include the order of the refusals, what a placement
  writes, and that the seat limit holds over any sequence of requests whose
  capacity counts succeed. A failed count confirms past the limit.
- **The invite validator** (`ValidateInvite`) and the **current-drop route**
  (`DropsCurrent`) are pure functions of the tables and the clock.
- **The door scanner** (`CheckinPage`), **the ticket page** (`MyTicket`),
  **the new-drop form** (`AdminNewDrop`) and the **invite page**
  (`AdminInvites`) are classes. Their fields are the page's React state, and
  each method is tied to a specification function on values.
- **The guest list, dashboard and analytics pages** (`AdminGuests`,
  `AdminDashboard`, `AdminAnalytics`) are filters, counts and sorts over the
  fetched rows. The recent-activity list and the monthly tally are loops.
- **The mails** (`Email`) are modelled as their subject and the sequence of
  blocks their bodies interpolate.
- **The middleware** (`Middleware`) is a prefix chain with its matcher.
- **The Austin itinerary page** (`AustinPage`) covers `parseInt`, the hour
  icon and the budget grouping.

Shared modules:

| module | contents |
|---|---|
| `Wrappers` | the `Option` type |
| `JsText` | the JavaScript string built-ins, for ASCII case mapping, and the guarded percentage both the dashboard and the budget table compute |
| `Seqs` | `filter`, counting and `reduce` sums |
| `Sorting` | a descending sort, proved stable, and `slice(0, n)` |
| `Qr` | the confirmation code generator |

Some behaviours of the code are easy to miss, and lemmas establish them:

- **The reservation form never sends the code.** The reservation route
  demands an invite code, but the reservation form in
  components/RSVPModal.tsx never sends one. The model takes the request body
  as given.
- **The bypass code is not honoured.** The validator accepts `CLUB-ALISHBA`
  whatever the table holds; the reservation route does not
  (`RsvpRoute.BypassNotHonoured`).
- **Expiry boundary.** A code whose expiry time equals the request time is
  accepted: the code tests `expires_at < now`
  (`ValidateInvite.ExpiryBoundary`).
- **Neither QR payload passes the door scanner.** The reservation route
  stores a check-in QR payload with `type: 'checkin'`, and the ticket page
  encodes `{code, id, name, drop}`. The scanner wants `type:
  'club25-checkin'`, a `confirmationCode`, and a `rsvpId` it never checks for
  (`CheckinPage.AdmissionPayloadRejected`, `MyTicket.TicketPayloadRejected`,
  `CheckinPage.MissingRsvpIdNotFound`).
- **The middleware guard misses the ticket page.** The `/my` prefix test
  would also guard `/my-ticket`, but the matcher does not run the middleware
  there (`Middleware.MyTicketOutsideMatcher`).
- **The event-details link can miss the drop's slug.** The waitlist mail's
  link replaces only white space in the title, so it differs from the slug
  the new-drop form derives (`Email.SupperClubExample`).
- **Attendance can pass 100 percent.** The dashboard counts the check-in rows
  the reservation route pre-creates, including those of waitlisted guests
  (`AdminDashboard.AttendanceCanExceedHundred`).
- **A typed code never finds a generated ticket.** The ticket page's input
  holds at most eight characters, and a generated code has thirteen
  (`MyTicket.TypedCodeNeverFindsGenerated`).
- **The hour icon ignores `PM`.** An evening stop written on the
  twelve-hour clock (`8:00 PM`) gets the morning's sun icon
  (`AustinPage.EveningOnTwelveHourClockIsSun`).

## Model

| member | source | states |
|---|---|---|
| Qr.Group | lib/qr.ts:22-24 | a group has one character per draw, the alphabet character the draw indexes |
| Qr.Generate | lib/qr.ts:20-26 | every generated code has 13 characters, the `C25-` prefix, a `-` at position 8, alphabet characters elsewhere and no lower-case letter |
| Qr.AlphabetFacts | lib/qr.ts:22 | the alphabet has 32 distinct characters and none of `I`, `O`, `0`, `1` |
| Qr.RankInvertsAlphabet | lib/qr.ts:22 | each alphabet character's rank is its index, so that a character determines its draw |
| Qr.DrawsOfGenerate | lib/qr.ts:23-25 | the eight draws can be read back from the generated code |
| Qr.GenerateAt | lib/qr.ts:23-25 | draw `k` is the alphabet character at position `4 + k` of the code, or `5 + k` past the separator |
| Qr.GenerateInjective | lib/qr.ts:23-25 | distinct draws give distinct codes |
| Qr.GenerateIsUppercase | lib/qr.ts:22-25 | uppercasing a generated code leaves it unchanged, so lookups that uppercase still find it |
| Schema.OneRow | app/api/validate-invite/route.ts:29 | `.maybeSingle()` yields a row exactly when one row matches, and yields that row |
| Schema.ActiveMatches | app/api/validate-invite/route.ts:24-29 | the matches are exactly the active rows carrying the code |
| Schema.ActiveCode | app/api/rsvp/route.ts:15-20 | the invite lookup finds a row exactly when one active row carries the code, and that row is active and carries it |
| ValidateInvite.Validate | app/api/validate-invite/route.ts:4-54 | a code is accepted iff it has at least four characters and is the bypass code in any case, or its uppercase form names exactly one active row with uses left and no past expiry; an accepted ordinary code is answered with its uppercase form and no redirect; every refusal carries HTTP status 400 |
| ValidateInvite.AcceptedCodeIsInTable | app/api/validate-invite/route.ts:24-48 | an accepted code other than the bypass code is carried, uppercased, by a row of the table with uses left and no past expiry |
| ValidateInvite.ShortCodeRejected | app/api/validate-invite/route.ts:8-10 | a code shorter than four characters is refused with the format error whatever the table holds |
| ValidateInvite.ValidateIgnoresCase | app/api/validate-invite/route.ts:12 | two codes with the same uppercase form get the same reply |
| ValidateInvite.BypassAlwaysAccepted | app/api/validate-invite/route.ts:15-21 | `CLUB-ALISHBA` in any case is accepted with the redirect to `/austin-alishba`, whatever the table holds |
| ValidateInvite.ErrorPrecedence | app/api/validate-invite/route.ts:31-43 | when several checks fail, not-found wins over exhausted, which wins over expired |
| ValidateInvite.InactiveCodeRejected | app/api/validate-invite/route.ts:28-33 | a code whose rows are all inactive is refused as not found |
| ValidateInvite.ExpiryBoundary | app/api/validate-invite/route.ts:41-48 | a code expiring exactly at the request time is accepted |
| RsvpRoute.AnnouncedDrop | app/api/rsvp/route.ts:35-44 | a found drop is in the table, carries the slug and is announced |
| RsvpRoute.Placement | app/api/rsvp/route.ts:47-53 | the placement is confirmed or waitlist; confirmed iff the confirmed count is below the seat limit, and, when the count query fails, iff the drop has any seats at all |
| RsvpRoute.ProfileByEmail | app/api/rsvp/route.ts:58-65 | a found profile is in the table and carries the email |
| RsvpRoute.ExistingRsvp | app/api/rsvp/route.ts:101-106 | a found reservation is in the table and belongs to the guest and the drop |
| RsvpRoute.CheckinQrPayload | app/api/rsvp/route.ts:117-122 | the check-in payload has exactly the keys `code`, `userId`, `dropId`, `type` |
| RsvpRoute.ConsumeInvite | app/api/rsvp/route.ts:143-146 | the row with the invite's id gets the use count read earlier plus one; every other row and field stays |
| RsvpRoute.MarkSoldOut | app/api/rsvp/route.ts:200-206 | the drop with the id becomes sold out; every other row and field stays |
| RsvpRoute.InsertCheckin | app/api/rsvp/route.ts:151-165 | the check-in table is unchanged or gains exactly the new row with the payload |
| RsvpRoute.Post | app/api/rsvp/route.ts:6-221 | the reply and the new tables are those of `Admit` on the old tables |
| RsvpRoute.PostReservation | app/api/rsvp/route.ts:100-215 | from the duplicate check on, the reply and tables are those of `Reserve`: a QR-generation throw or failed insert is a 500 with no write, and failed invite-use and `sold_out` updates leave their tables and still place |
| RsvpRoute.MissingInviteRefused | app/api/rsvp/route.ts:11-13 | without an invite code the reply is the 400 "Invite code required" and no table changes |
| RsvpRoute.ChecksInOrder | app/api/rsvp/route.ts:15-44 | the invite-not-found, exhausted, expired and drop-unavailable refusals come in this order, each a 400 that changes no table |
| RsvpRoute.PlacementNeedsInviteAndDrop | app/api/rsvp/route.ts:15-53 | a placement needs a usable invite and exactly one announced drop with the slug |
| RsvpRoute.RefusalWritesNoReservation | app/api/rsvp/route.ts:11-113 | a refused request adds at most the new guest's profile; no reservation, invite use, check-in or drop status is written |
| RsvpRoute.PlacementEffects | app/api/rsvp/route.ts:115-215 | a placement appends exactly one reservation with the generated code and the uppercased invite, adds one use to the invite unless that update fails, and marks the drop sold out iff it is a waitlist placement whose update does not fail; it is confirmed iff the counted confirmed reservations (0 when the count fails) were below the seat limit |
| RsvpRoute.DuplicateRefused | app/api/rsvp/route.ts:100-113 | a guest who holds exactly one reservation for the drop, in any status, is refused with that status and no table changes (with two such rows the `.maybeSingle()` lookup finds none) |
| RsvpRoute.DuplicateReportsHeldStatus | app/api/rsvp/route.ts:108-113 | a refusal that carries a status names the status of a reservation the guest holds for the drop |
| RsvpRoute.IdentityResolution | app/api/rsvp/route.ts:55-98 | a profile found by email is reused unchanged; otherwise the new profile carries the uppercased invite code |
| RsvpRoute.CheckinFailureInvisible | app/api/rsvp/route.ts:151-165 | whether the check-in insert fails changes neither the reply nor any table but `checkins` |
| RsvpRoute.WaitlistClosesDrop | app/api/rsvp/route.ts:200-206 | after a waitlist placement whose `sold_out` update succeeds, no request for that slug finds an announced drop |
| RsvpRoute.SoldOutFailureKeepsDropOpen | app/api/rsvp/route.ts:200-215 | when the `sold_out` update fails the request is still placed, the drops are unchanged and the slug still finds an announced drop |
| RsvpRoute.UseUpdateFailureKeepsUses | app/api/rsvp/route.ts:142-148 | when the invite-use update fails the request is still placed and no invite's use count changes |
| RsvpRoute.QrFailureRefused | app/api/rsvp/route.ts:115-123 | a throw of the QR image generation refuses the request and writes at most the new guest's profile |
| RsvpRoute.SoldOutHidesSlug | app/api/rsvp/route.ts:35-40 | once the found drop is marked sold out, the announced-drop lookup for its slug finds nothing |
| RsvpRoute.AgreesWithValidator | app/api/rsvp/route.ts:15-32 | for a code of four or more characters other than the bypass code, the route's invite checks agree with the validator |
| RsvpRoute.BypassNotHonoured | app/api/rsvp/route.ts:15-24 | the bypass code, accepted by the validator, is refused here when the table lacks it |
| RsvpRoute.InsertCheckinKeepsKeysUnique | app/api/rsvp/route.ts:151-159 | the check-in insert keeps at most one row per guest and drop |
| RsvpRoute.AdmitKeepsCapacity | app/api/rsvp/route.ts:46-53 | a request whose capacity count succeeds keeps every drop's confirmed count within its seat limit |
| RsvpRoute.AppendKeepsCapacity | app/api/rsvp/route.ts:53 | appending a reservation that is confirmed only below the seat limit keeps every drop within capacity |
| RsvpRoute.RunKeepsCapacity | app/api/rsvp/route.ts:46-53 | under any sequence of requests whose capacity counts succeed, no drop has more confirmed reservations than seats |
| RsvpRoute.CountFailureOverbooks | app/api/rsvp/route.ts:46-53 | a failed capacity count confirms the guest even for a full drop, whose confirmed count then exceeds its seat limit |
| RsvpRoute.AdmitWaitlistStep | app/api/rsvp/route.ts:53-206 | one request whose `sold_out` update succeeds adds at most one waitlist reservation for a drop, only while it is announced, and then closes it; a closed drop stays closed |
| RsvpRoute.PlacedWaitlistStep | app/api/rsvp/route.ts:53-206 | appending one reservation to a drop still announced, and marking the drop sold out when it waitlists, raises that drop's waitlist count by at most one and then closes it |
| RsvpRoute.RunWaitlistBound | app/api/rsvp/route.ts:53-206 | across a sequence of requests whose `sold_out` updates succeed, the waitlist count of a drop rises by at most one, after which the drop is closed |
| RsvpRoute.AtMostOneWaitlistPlacement | app/api/rsvp/route.ts:200-206 | under sequential requests whose `sold_out` updates succeed, the route places at most one waitlist reservation per drop |
| DropsCurrent.EarliestLive | app/api/drops/current/route.ts:8-14 | a drop is found iff some drop is announced or sold out, and the found one is such a drop with the earliest date |
| DropsCurrent.RsvpsOf | app/api/drops/current/route.ts:10 | the embedded reservations are exactly those of the drop |
| DropsCurrent.SelectionIsEarliestLive | app/api/drops/current/route.ts:8-35 | the reply is `drop: null` iff no drop is announced or sold out; otherwise it shows the earliest such drop |
| DropsCurrent.CountsAddUp | app/api/drops/current/route.ts:24-33 | seats remaining plus confirmed is the seat limit, and confirmed plus waitlisted never exceeds the drop's reservations |
| DropsCurrent.SeatsRemainingCanBeNegative | app/api/drops/current/route.ts:30 | seats remaining is negative once more guests are confirmed than there are seats |
| CheckinPage.ScannedRsvp | app/checkin/page.tsx:95-102 | the lookup finds a reservation exactly when one row matches all four fields, and that row matches them |
| CheckinPage.ProfileById | app/checkin/page.tsx:116-120 | a found profile is in the table and has the id |
| CheckinPage.DropById | app/checkin/page.tsx:122-126 | a found drop is in the table and has the id |
| CheckinPage.Page.constructor | app/checkin/page.tsx:11-13 | the page starts not scanning, with no result and no error |
| CheckinPage.Page.StartScanning | app/checkin/page.tsx:26-47 | the result is cleared; a refused camera ends scanning with "Camera access denied" |
| CheckinPage.Page.StopScanning | app/checkin/page.tsx:49-54 | scanning stops and nothing else changes |
| CheckinPage.Page.HandleQRCode | app/checkin/page.tsx:82-157 | the page and the database end as `CheckIn` says: a refusal sets only the error, an admission only the result and the check-in row |
| CheckinPage.AdmissionNeedsConfirmedMatch | app/checkin/page.tsx:89-113 | only a confirmed reservation matched by all four fields is admitted, and admission writes only `checkins` |
| CheckinPage.RefusalsInOrder | app/checkin/page.tsx:89-113 | the format, not-found and status errors are shown in this order |
| CheckinPage.MissingRsvpIdNotFound | app/checkin/page.tsx:89-108 | a payload without `rsvpId` passes the format check but never finds its reservation |
| CheckinPage.UpsertFailureStillAdmits | app/checkin/page.tsx:129-151 | a failed upsert leaves the tables alone and still admits the same guest |
| CheckinPage.CheckInKeepsReservations | app/checkin/page.tsx:82-157 | a scan never changes a reservation, profile, drop or invite |
| CheckinPage.UpsertStamps | app/checkin/page.tsx:129-137 | the row for the guest and drop gets the check-in time, or a new stamped row is added; other rows stay |
| CheckinPage.UpsertKeepsKeysUnique | app/checkin/page.tsx:131-137 | the upsert keeps at most one row per guest and drop |
| CheckinPage.RepeatedScan | app/checkin/page.tsx:129-137 | scanning the same ticket twice leaves one row for the key, stamped with the later time |
| CheckinPage.AdmissionPayloadRejected | app/checkin/page.tsx:89 | the payload the reservation route stores fails the format check |
| MyTicket.WithCode | app/my-ticket/page.tsx:47 | the matches are exactly the reservations carrying the key |
| MyTicket.FindTicket | app/my-ticket/page.tsx:40-54 | a ticket is found iff exactly one reservation carries the key, and it carries it |
| MyTicket.TicketPayload | app/my-ticket/page.tsx:60-65 | the QR payload has no keys besides `code`, `id`, `name`, `drop` |
| MyTicket.StartCode | app/my-ticket/page.tsx:18-29 | a non-empty URL code wins; otherwise a non-empty stored code; otherwise nothing |
| MyTicket.Typed | app/my-ticket/page.tsx:125-131 | the input holds at most eight characters and no lower-case letter |
| MyTicket.TicketPage.constructor | app/my-ticket/page.tsx:10-14 | a fresh page holds only the browser's stored code |
| MyTicket.TicketPage.LookupTicket | app/my-ticket/page.tsx:32-83 | the page state becomes `Looked` of the old state |
| MyTicket.TicketPage.Mount | app/my-ticket/page.tsx:18-30 | the start code fills the box and is looked up; without one nothing changes |
| MyTicket.TicketPage.Type | app/my-ticket/page.tsx:125-133 | the box takes the typed value, cut to eight characters and uppercased |
| MyTicket.TicketPage.Submit | app/my-ticket/page.tsx:85-88 | the box's code is looked up |
| MyTicket.TicketPage.ViewDifferent | app/my-ticket/page.tsx:271-276 | the ticket, the box and the stored code are cleared |
| MyTicket.ShortCodeNoLookup | app/my-ticket/page.tsx:33 | a code shorter than six characters changes nothing |
| MyTicket.LookupUppercases | app/my-ticket/page.tsx:47-61 | the lookup depends only on the uppercased code; the stored code and a shown ticket carry it |
| MyTicket.FailedLookupClears | app/my-ticket/page.tsx:50-54 | a code that finds no single reservation clears the ticket and shows the error, keeping the stored code |
| MyTicket.FoundTicketStored | app/my-ticket/page.tsx:56-76 | a found ticket is shown and stored, with a payload naming the code and the reservation id |
| MyTicket.UrlCodeWins | app/my-ticket/page.tsx:23-25 | a code in the URL wins over the stored one |
| MyTicket.TypedCodeNeverFindsGenerated | app/my-ticket/page.tsx:128-131 | with generated codes only, a typed code never finds a ticket |
| MyTicket.TicketPayloadRejected | app/my-ticket/page.tsx:60-65 | the ticket's QR payload fails the door scanner's format check |
| AdminGuests.Filtered | app/admin/guests/page.tsx:59-67 | the rows kept are exactly those matching the drop, status and search filters, in their order, each with all its copies |
| AdminGuests.Actions | app/admin/guests/page.tsx:195-218 | the buttons offered are the two statuses other than the row's own |
| AdminGuests.SetStatus | app/admin/guests/page.tsx:45-48 | the row with the id takes the new status; every other row and field stays |
| AdminGuests.UpdateRsvpStatus | app/admin/guests/page.tsx:43-57 | the reservations are updated as `SetStatus` says unless the write fails; no other table changes |
| AdminGuests.NoFilterKeepsAll | app/admin/guests/page.tsx:60-62 | the filters `all`, `all` and an empty search keep the whole list |
| AdminGuests.NoProfileNeverFound | app/admin/guests/page.tsx:62-64 | a row without a profile, or with neither name nor email, never matches a non-empty search |
| AdminGuests.SearchIgnoresQueryCase | app/admin/guests/page.tsx:63-64 | two queries with the same lower-case form keep the same rows |
| AdminGuests.SetStatusTargetsOneRow | app/admin/guests/page.tsx:45-48 | only the targeted row's status changes |
| AdminGuests.ConfirmCanExceedCapacity | app/admin/guests/page.tsx:195-201 | confirming a waitlisted guest can push a drop over its seat limit |
| AdminInvites.NewCodeText | app/admin/invites/page.tsx:56 | a new code is `CLUB-` and at most six further characters, none lower case |
| AdminInvites.SetActive | app/admin/invites/page.tsx:85-88 | the code with the id takes the flag; every other row and field stays |
| AdminInvites.Remove | app/admin/invites/page.tsx:101-104 | exactly the rows with the id are removed, the rest keep their order |
| AdminInvites.Listing | app/admin/invites/page.tsx:38-42 | the fetched list holds every row once per copy, newest `created_at` first |
| AdminInvites.Page.FetchCodes | app/admin/invites/page.tsx:38-51 | the shown codes become the listing; a failed query leaves them as they were |
| AdminInvites.NewCodeListedFirst | app/admin/invites/page.tsx:38-42 | a code created after every other row is listed first |
| AdminInvites.Page.constructor | app/admin/invites/page.tsx:23-31 | the form starts at three uses, source admin, no expiry |
| AdminInvites.Page.CreateNewCode | app/admin/invites/page.tsx:53-81 | a successful insert appends the new active row stamped with the insert time, refetches the newest-first listing, closes the modal and resets the form; a failure alerts with the message and changes nothing |
| AdminInvites.Page.ToggleCodeActive | app/admin/invites/page.tsx:83-95 | the code gets the negation of the shown flag and the newest-first listing is refetched; a failure changes nothing |
| AdminInvites.Page.DeleteCode | app/admin/invites/page.tsx:97-111 | without confirmation or on failure nothing changes; otherwise the code is deleted and the newest-first listing refetched |
| AdminInvites.ExpiryArithmetic | app/admin/invites/page.tsx:58-60 | no expiry iff `expiresIn <= 0`; otherwise exactly that many days after now |
| AdminInvites.NewCodeNeverBypass | app/admin/invites/page.tsx:56 | a generated code is never the bypass code |
| AdminInvites.CreatedCodeValidates | app/admin/invites/page.tsx:53-70 | a freshly created code passes the validator until its expiry, when no other row carries the same code |
| AdminInvites.OnlyNewRowMatches | app/admin/invites/page.tsx:62-70 | an appended active row with an unused code is the one active match |
| AdminInvites.ToggleTargetsOneCode | app/admin/invites/page.tsx:85-88 | toggling changes the targeted code's flag only |
| AdminInvites.DeactivatedCodeRejected | app/admin/invites/page.tsx:83-88 | a code switched off is refused by the validator as unknown |
| AdminInvites.DeleteRemovesOnlyTarget | app/admin/invites/page.tsx:97-107 | deleting removes exactly the rows with the id, keeps the rest in order, and changes nothing for an unknown id |
| AdminInvites.StatsBounds | app/admin/invites/page.tsx:119-126 | active codes never exceed the total; the average is `'0'` iff there are no codes; uses are non-negative and within the caps when every row's are |
| JsText.Percent | app/admin/page.tsx:116-129 | a rate is 0 when its denominator is 0, is exactly `num * 100 / den` otherwise, and lies in [0, 100] when the numerator is within the denominator; the budget table's share uses the same function |
| AdminDashboard.Pushed | app/admin/page.tsx:154-164 | at most one entry per row |
| AdminDashboard.RecentActivity | app/admin/page.tsx:150-166 | the loop yields the confirmed entries of the first five rows, sorted newest first and cut to ten |
| AdminDashboard.PushedAreConfirmed | app/admin/page.tsx:154-164 | the entries pushed are exactly those of the confirmed rows |
| AdminDashboard.RecentActivityShape | app/admin/page.tsx:150-166 | the list has at most five entries, is newest first, and holds exactly the entries of the confirmed rows among the first five |
| AdminDashboard.DropCountsBounded | app/admin/page.tsx:109-110 | live plus completed drops never exceed the drops |
| AdminDashboard.StatusCountsPartition | app/admin/page.tsx:112-114 | confirmed, waitlisted and cancelled add up to all reservations |
| AdminDashboard.InviteTotalsBounded | app/admin/page.tsx:121-125 | with each code within its cap, total uses lie between 0 and the caps' sum and the usage rate in [0, 100] |
| AdminDashboard.RatesGuarded | app/admin/page.tsx:116-129 | each rate is 0 when its denominator is, and the conversion rate lies in [0, 100] |
| AdminDashboard.AttendanceCanExceedHundred | app/admin/page.tsx:127-129 | with the pre-created check-in rows counted, attendance can be 200 percent |
| AdminAnalytics.Newest | app/admin/analytics/page.tsx:24 | drops are ordered newest first and form a permutation of the table |
| AdminAnalytics.DropStats | app/admin/analytics/page.tsx:31-44 | one entry per drop |
| AdminAnalytics.DropStatsCountOwnRsvps | app/admin/analytics/page.tsx:31-43 | each entry counts the confirmed and waitlisted reservations of its own drop, with a fill rate only when it has seats |
| AdminAnalytics.EmptyDropWithSeatsHasRate | app/admin/analytics/page.tsx:41 | a drop with seats and no reservations is 0.0 percent full |
| Sorting.SortStable | app/admin/analytics/page.tsx:49 | for every key, the elements carrying it leave the sort in their input order, so equal keys keep their order, as the stable `Array.prototype.sort` does |
| AdminAnalytics.SortedTakeIsTop | app/admin/analytics/page.tsx:49-50 | an element of a sorted list left out of its first `n` has a key no larger than any kept one |
| AdminAnalytics.RankedIsTopTen | app/admin/analytics/page.tsx:47-50 | the ranking holds at most ten used codes, largest first, taken from the table, and no left-out used code has more uses than a ranked one |
| AdminAnalytics.TopReferrersShowRanked | app/admin/analytics/page.tsx:51-56 | the listed referrers are the ranked codes, field for field, each with some use |
| AdminAnalytics.Bump | app/admin/analytics/page.tsx:61 | counting one more reservation keeps the tally's keys distinct and matching its counts |
| AdminAnalytics.TallyOf | app/admin/analytics/page.tsx:59-63 | the tally after the reduce has distinct keys that are exactly the counted ones |
| AdminAnalytics.TallyKeys | app/admin/analytics/page.tsx:59-63 | a month has a key iff some reservation falls in it |
| AdminAnalytics.TallyCounts | app/admin/analytics/page.tsx:59-63 | each month's count is the number of reservations in that month |
| AdminAnalytics.GrowthData | app/admin/analytics/page.tsx:65-68 | one entry per key, in key order |
| AdminAnalytics.MonthlyGrowth | app/admin/analytics/page.tsx:59-68 | the loop yields the entries of the tally of all reservations |
| AdminAnalytics.GrowthAddsUp | app/admin/analytics/page.tsx:59-68 | the monthly counts add up to the number of reservations |
| AdminAnalytics.Cells | app/admin/analytics/page.tsx:86 | a row has as many cells as the header |
| AdminAnalytics.Lines | app/admin/analytics/page.tsx:84-87 | the export has the header line and one line per drop |
| AdminAnalytics.CellsPlain | app/admin/analytics/page.tsx:86 | number and status cells never hold a comma or line break |
| AdminAnalytics.LinesUnbroken | app/admin/analytics/page.tsx:84-87 | with plain cells, no line holds a line break |
| AdminAnalytics.CsvSplitsBack | app/admin/analytics/page.tsx:84-87 | with plain cells, the export splits back into the header and each drop's cells |
| AdminAnalytics.CommaInTitleShiftsCells | app/admin/analytics/page.tsx:86-87 | a comma in a title splits its row into seven cells, since there is no quoting |
| AdminNewDrop.CollapseKeeps | app/admin/drops/new/page.tsx:34 | the collapse holds only `a-z`, `0-9`, `-`, no two dashes in a row, keeps the letters and digits in order, and ends with a dash iff the input ends outside the alphabet |
| AdminNewDrop.CollapseChar | app/admin/drops/new/page.tsx:34 | one letter or digit stays; any other single character becomes `-` |
| AdminNewDrop.CollapseAppend | app/admin/drops/new/page.tsx:34 | the collapse of two texts put together is their collapses joined, a dash ending the first and a dash starting the second merging into one; with `CollapseChar` this determines the collapse of every text |
| AdminNewDrop.CollapseRun | app/admin/drops/new/page.tsx:34 | a non-empty run with no letter or digit becomes exactly one `-` |
| AdminNewDrop.SlugJoinsWords | app/admin/drops/new/page.tsx:34 | two words of letters and digits with any non-empty separating run that lowercasing leaves outside the alphabet give the words joined by exactly one `-` |
| AdminNewDrop.SpaceBecomesDash | app/admin/drops/new/page.tsx:34 | two letters with a space between give the letters with a `-` between, not the letters run together |
| AdminNewDrop.DropFirstDash | app/admin/drops/new/page.tsx:34 | the leading dash goes, letters and digits stay |
| AdminNewDrop.DropLastDash | app/admin/drops/new/page.tsx:34 | the trailing dash goes, letters and digits stay |
| AdminNewDrop.TrimDashes | app/admin/drops/new/page.tsx:34 | the trim keeps the letters and digits in order and the slug alphabet; on a text with no two dashes in a row, no dash is left at either end (`--a` becomes `-a`) |
| AdminNewDrop.Slug | app/admin/drops/new/page.tsx:34 | a slug has only `a-z`, `0-9` and inner single dashes, and keeps the lowercased title's letters and digits in order |
| AdminNewDrop.CollapseFixes | app/admin/drops/new/page.tsx:34 | a string already in slug form is not changed by the collapse |
| AdminNewDrop.SlugIdempotent | app/admin/drops/new/page.tsx:34 | deriving a slug from a slug changes nothing |
| AdminNewDrop.NullIfEmpty | app/admin/drops/new/page.tsx:55 | empty text becomes null, any other stays |
| AdminNewDrop.DateTimeSplitsBack | app/admin/drops/new/page.tsx:45 | the `date_time` text splits at its space back into the date and the time with `:00+00` |
| AdminNewDrop.NewDropPage.constructor | app/admin/drops/new/page.tsx:12-23 | the form starts at 19:00, twelve seats, status draft |
| AdminNewDrop.NewDropPage.HandleChange | app/admin/drops/new/page.tsx:25-37 | the field takes the value; a title edit also rewrites the slug |
| AdminNewDrop.SlugFollowsTitle | app/admin/drops/new/page.tsx:25-37 | a title edit overwrites the slug, a slug edit leaves the title, no other field moves |
| AdminNewDrop.NewDropPage.HandleSubmit | app/admin/drops/new/page.tsx:39-69 | the form's row is sent; success moves to `/admin/drops`, failure shows the message; loading ends false |
| Email.ReplaceSpaceRunsKeeps | lib/email.ts:268 | no white space is left, every other character is kept, and a text without white space is unchanged |
| Email.ReplaceSpaceRunsKeepsOrder | lib/email.ts:268 | the characters other than white space and `-` come out exactly as they went in, in their order |
| Email.ReplaceSpaceRunsNonEmpty | lib/email.ts:268 | only the empty text gives the empty text |
| Email.ReplaceSpaceRunsAppend | lib/email.ts:268 | the replacement of two texts put together is their replacements put together, except that a white-space run straddling the seam gives one `-`, not two; this determines the replacement of every text |
| Email.SpaceRunIsOneDash | lib/email.ts:268 | a non-empty run of white space becomes exactly one `-` |
| Email.SpaceRunJoinsWords | lib/email.ts:268 | two texts without white space around a white-space run are joined by exactly one `-` |
| Email.QuoteBlocks | lib/email.ts:325-337 | at most three quotes are shown |
| Email.SubjectTellsPlacement | lib/email.ts:36-40 | the two placements' subjects differ and each ends with the drop title |
| Email.ConfirmationBodies | lib/email.ts:42-117 | both placements show the code; only a confirmed guest gets the ticket button |
| Email.SameTicketUrl | lib/email.ts:46-285 | the confirmation, reminder and waitlist mails link the same ticket address |
| Email.TicketUrlCarriesCode | lib/email.ts:46 | the ticket address is the app address, `/my-ticket?code=` and the code, which can be read back |
| Email.ConfigFallback | lib/email.ts:14-15 | unset or empty variables fall back to the built-in sender and address |
| Email.RecapShowsFirstThree | lib/email.ts:325-337 | the recap quotes the first three quotes in order, and none for an empty list |
| Email.DetailsLinkCanMissSlug | lib/email.ts:268 | a title holding a character that is not a lower-case letter, a digit, an ASCII capital, `-` or white space gives a details link that is not the drop's slug |
| Email.SupperClubExample | lib/email.ts:268 | for `Supper Club!` the link keeps the `!` while the slug is `supper-club` |
| Middleware.Decide | middleware.ts:5-51 | a request is redirected iff its path starts with `/my` and there is no session, and the redirect goes to `/login` |
| Middleware.CallbackPasses | middleware.ts:7-10 | an `/auth/callback` path passes |
| Middleware.AdminUnguarded | middleware.ts:26-41 | an `/admin` path passes with and without a session |
| Middleware.MyNeedsSession | middleware.ts:44-50 | a `/my` path passes with a session and redirects to `/login` without one |
| Middleware.SessionAlwaysPasses | middleware.ts:44-50 | with a session every request passes |
| Middleware.RouteRedirectsOnlyMyPages | middleware.ts:44-55 | behind the matcher a request is redirected iff it is `/my` or below it and there is no session |
| Middleware.MyTicketOutsideMatcher | middleware.ts:44-55 | `/my-ticket` starts with `/my`, yet the matcher does not run the middleware there, so it passes |
| AustinPage.TrimStart | app/austin-alishba/page.tsx:24 | the leading white space `parseInt` skips is removed, and only that |
| AustinPage.LeadingDigits | app/austin-alishba/page.tsx:24 | the longest prefix of digits of the radix |
| AustinPage.DecimalDigits | app/austin-alishba/page.tsx:24 | a number's decimal text has the number's value |
| AustinPage.ParseNatText | app/austin-alishba/page.tsx:24 | `parseInt` of a number's decimal text, followed by nothing or by a non-digit that is not an `x`/`X` after a lone `0`, gives the number back |
| AustinPage.ZeroThenXIsNaN | app/austin-alishba/page.tsx:24 | `0x` followed by no hexadecimal digit parses to NaN, not 0 |
| AustinPage.DigitStartIsUnsigned | app/austin-alishba/page.tsx:24 | text that starts with a digit parses as its unsigned part: there is no white space or sign to skip |
| AustinPage.HourOfClockText | app/austin-alishba/page.tsx:24 | the hour of `h:rest` is `h`, whatever follows the colon |
| AustinPage.IconOf | app/austin-alishba/page.tsx:25-27 | sun iff the hour is in [6, 18), sunset iff in [18, 21), moon iff otherwise or `NaN` |
| AustinPage.ClockIcon | app/austin-alishba/page.tsx:23-28 | a clock text's icon depends on its hour alone |
| AustinPage.UnparsableHourIsMoon | app/austin-alishba/page.tsx:27 | an unparseable hour gives the moon |
| AustinPage.EveningOnTwelveHourClockIsSun | app/austin-alishba/page.tsx:23-28 | `8:00 PM` gets the sun icon |
| AustinPage.Rows | app/austin-alishba/page.tsx:216-221 | each block holds every stop of its kind, at least one, with their summed cost and its share |
| AustinPage.RowsKinds | app/austin-alishba/page.tsx:216-221 | the kinds shown are exactly those with stops, in the fixed order |
| AustinPage.BudgetShowsCategoriesInOrder | app/austin-alishba/page.tsx:216-221 | the view shows only the six categories, in their order, and a category iff it has a stop |
| AustinPage.OtherKindsNotShown | app/austin-alishba/page.tsx:216-217 | a stop of any other type is in no block |
| AustinPage.KindCostsAppend | app/austin-alishba/page.tsx:217-218 | one more stop adds its cost to its own kind only |
| AustinPage.KindCostAppend | app/austin-alishba/page.tsx:217-218 | one more stop raises the cost of its own kind by its cost and leaves every other kind's cost unchanged |
| AustinPage.BudgetAddsUp | app/austin-alishba/page.tsx:21-218 | when every stop has one of the six types, the blocks' costs add up to the total cost |

## Left out

- I/O: the HTTP layer, React rendering, animations, the camera, `jsQR` decoding, QR image rendering (`QRCode.toDataURL`), local storage as a browser API, `alert`, `confirm` and navigation. Each becomes a parameter or a field. The check-in row's `qr_code` holds the payload instead of the image data URL.
- Concurrency: handlers run one at a time. The real-time subscription of the dashboard and the parallel `Promise.all` fetches are not modelled, and neither are races between requests.
- The hosted database, auth and sessions: Supabase queries are functions on in-memory tables. The session is a boolean input of the middleware. The reservation route's failing calls are boolean inputs: the capacity count, the auth user creation, the profile insert, the QR generation, the reservation insert, the invite-use update, the check-in insert and the `sold_out` update. Other lookup errors are not inputs: an invite or drop lookup error gets the same 400 as a missing row, and a failed profile or existing-reservation lookup, which the route reads as "none found", is not modelled. `.order` on equal keys is assumed stable.
- Randomness and clocks: `Math.random` draws are supplied as indices (the confirmation code) or as text (the invite code). The current time is a parameter in milliseconds.
- Floating point: rates are exact rationals. The text that `toFixed` produces and the average usage percentage of the invite page are not modelled. On the analytics page that text is a supplied function.
- Locale dates: `toLocaleDateString` and the month keys are supplied functions of the timestamp.
- Text: case mapping covers ASCII letters only; JavaScript's Unicode-aware `toLowerCase`/`toUpperCase` are out of scope.
- Email: the HTML, fixed copy, styles and the Resend call are left out; a mail is its sender, recipient, subject, preheader and blocks. The reservation route's email step is left out, because it changes neither the reply nor the tables.
- Loading flags: `loading` on the ticket page and the loading spinners are left out; they change no other state.
- RsvpRoute.AdmitKeepsCapacity: proved only when the capacity count succeeds. A failed count reads as 0 and confirms past the seat limit, as `RsvpRoute.CountFailureOverbooks` shows.
- RsvpRoute.RunKeepsCapacity: the seat bound holds only for sequences whose capacity counts all succeed, for the same reason.
- RsvpRoute.WaitlistClosesDrop: proved only when the `sold_out` update succeeds. The route ignores that update's error; the drop then stays announced (`RsvpRoute.SoldOutFailureKeepsDropOpen`).
- RsvpRoute.AdmitWaitlistStep: the drop is closed only when its `sold_out` update succeeds, for the same reason.
- RsvpRoute.RunWaitlistBound: holds only for sequences whose `sold_out` updates all succeed; otherwise every waitlist placement leaves the drop open to the next one.
- RsvpRoute.AtMostOneWaitlistPlacement: holds only for sequences whose `sold_out` updates all succeed, for the same reason.
- AdminNewDrop.HandleSubmit: `seatLimit` stays text, as the inputs deliver it. Whether the database accepts that text is not modelled.
- AdminInvites.NewRow: the database stamps `created_at`; the model uses the page's `now`, the clock the expiry is computed from.
- AdminInvites.StatsOf: the average usage percentage is left out, except for the `'0'` it shows without codes.
- AustinPage.Location: lib/austinData.ts is not part of this model. Stops are supplied values whose cost is a whole number, and the rounded estimate in the header is left out.
- AustinPage.ParseInt: a `-0` result is modelled as 0; values are unbounded integers rather than doubles.
- components/RSVPModal.tsx omits the invite code from its request. It is not part of this model; the route is modelled for any request body.

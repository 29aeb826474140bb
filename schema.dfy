/**
 * The five tables the application keeps in its hosted database
 * (`invite_codes`, `drops`, `profiles`, `rsvps`, `checkins`), as rows and as
 * an in-memory store, plus the two row lookups the database client offers.
 */
module Schema {
  import opened Wrappers
  import opened Seqs

  /** A row id (a uuid in the database). The store hands out fresh ones from `nextId`. */
  type Id = nat

  datatype Source = Attendee | Admin | Founder

  datatype DropStatus = Draft | Announced | SoldOut | Completed | Cancelled

  datatype RsvpStatus = Confirmed | Waitlist | Cancelled

  /** A value inside a JSON object: a string, a uuid (always a non-empty string), or `null`. */
  datatype Json = Str(s: string) | Uuid(id: Id) | Null

  /** A JSON object as `JSON.stringify` writes it: keys whose value is `undefined` are absent. */
  type Payload = map<string, Json>

  /** JavaScript truthiness of the value under `key` (missing means `undefined`, which is falsy). */
  predicate TruthyAt(p: Payload, key: string) {
    key in p && match p[key]
      case Str(s) => s != ""
      case Uuid(_) => true
      case Null => false
  }

  /** Timestamps are milliseconds since the epoch. */
  datatype InviteCode = InviteCode(
    id: Id,
    code: string,
    userId: Option<Id>,
    maxUses: int,
    currentUses: int,
    source: Source,
    active: bool,
    expiresAt: Option<int>,
    createdAt: int)

  datatype Drop = Drop(
    id: Id,
    slug: string,
    title: string,
    dateTime: int,
    seatLimit: int,
    status: DropStatus,
    description: string)

  datatype Profile = Profile(
    id: Id,
    email: string,
    name: string,
    phone: string,
    invitedByCode: Option<string>)

  datatype Rsvp = Rsvp(
    id: Id,
    userId: Id,
    dropId: Id,
    status: RsvpStatus,
    confirmationCode: string,
    dietaryNotes: string,
    usedInviteCode: Option<string>,
    createdAt: int)

  /** `qrCode` holds the payload the stored QR image encodes; `checkedInAt` is set at the door. */
  datatype Checkin = Checkin(
    userId: Id,
    dropId: Id,
    qrCode: Option<Payload>,
    checkedInAt: Option<int>)

  /** The whole store as a value; `nextId` is the next fresh row id. */
  datatype Tables = Tables(
    inviteCodes: seq<InviteCode>,
    drops: seq<Drop>,
    profiles: seq<Profile>,
    rsvps: seq<Rsvp>,
    checkins: seq<Checkin>,
    nextId: nat)

  /** The hosted database, holding one field per table. */
  class Database {
    var inviteCodes: seq<InviteCode>
    var drops: seq<Drop>
    var profiles: seq<Profile>
    var rsvps: seq<Rsvp>
    var checkins: seq<Checkin>
    var nextId: nat

    function State(): (t: Tables)
      reads this
      ensures t.rsvps == rsvps && t.drops == drops && t.inviteCodes == inviteCodes
      ensures t.profiles == profiles && t.checkins == checkins && t.nextId == nextId
    {
      Tables(inviteCodes, drops, profiles, rsvps, checkins, nextId)
    }

    constructor (t: Tables)
      ensures State() == t
    {
      inviteCodes, drops, profiles, rsvps, checkins, nextId :=
        t.inviteCodes, t.drops, t.profiles, t.rsvps, t.checkins, t.nextId;
    }
  }

  /** The `checkins` table is keyed by (user, drop): no two rows share both. */
  predicate CheckinKeysUnique(cs: seq<Checkin>) {
    forall i, j :: 0 <= i < j < |cs| ==> !(cs[i].userId == cs[j].userId && cs[i].dropId == cs[j].dropId)
  }

  /**
   * `.maybeSingle()` / `.single()` on a filtered query: the row when exactly one
   * matches; no row (or an error, which every caller treats alike) otherwise.
   */
  function OneRow<T>(rows: seq<T>): (r: Option<T>)
    ensures r.Some? <==> |rows| == 1
    ensures r.Some? ==> r.value == rows[0]
  {
    if |rows| == 1 then Some(rows[0]) else None
  }

  /** The invite lookup both routes run: `.eq('code', code).eq('active', true).maybeSingle()`. */
  function ActiveCode(codes: seq<InviteCode>, code: string): (r: Option<InviteCode>)
    ensures r.Some? ==> r.value in codes && r.value.code == code && r.value.active
    ensures r.Some? <==> |ActiveMatches(codes, code)| == 1
  {
    OneRow(ActiveMatches(codes, code))
  }

  /** The active rows carrying exactly `code`. */
  function ActiveMatches(codes: seq<InviteCode>, code: string): (m: seq<InviteCode>)
    ensures forall c :: c in m <==> c in codes && c.code == code && c.active
  {
    Filter(codes, (c: InviteCode) => c.code == code && c.active)
  }

  /** `expires_at && new Date(expires_at) < new Date()`: a code expiring exactly now is not expired. */
  predicate Expired(c: InviteCode, now: int) {
    c.expiresAt.Some? && c.expiresAt.value < now
  }

  /** The usability rule for one invite row: active, uses left, not expired. */
  predicate Usable(c: InviteCode, now: int) {
    c.active && c.currentUses < c.maxUses && !Expired(c, now)
  }
}

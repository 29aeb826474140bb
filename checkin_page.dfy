/**
 * The door check-in page (app/checkin/page.tsx).  A scanned QR text is parsed
 * as JSON, its shape is checked, the reservation it names is looked up by id,
 * confirmation code, guest and drop, only a `confirmed` reservation is let in,
 * and the check-in row keyed by (guest, drop) is upserted with the scan time.
 *
 * `CheckIn` states the outcome of one scan on a value of the tables; the
 * `Page` class holds the page state (`scanning`, `result`, `error`) and its
 * `HandleQRCode` method is proved to agree with `CheckIn`.
 */
module CheckinPage {
  import opened Wrappers
  import opened Seqs
  import opened Schema
  import RsvpRoute

  /** What `JSON.parse` made of the scanned text: an object, or a thrown error carrying a message. */
  datatype Scan = Parsed(payload: Payload) | Unparseable(message: string)

  /** The `result` state: the guest and drop rows (each may be missing) and the scanned code. */
  datatype Admission = Admission(guest: Option<Profile>, drop: Option<Drop>, code: string)

  datatype DoorOutcome = Admitted(admission: Admission, after: Tables) | Turned(error: string)

  const CheckinType: string := "club25-checkin"
  const FormatError: string := "Invalid QR code format"
  const NotFoundError: string := "RSVP not found or invalid"
  const ParseFallback: string := "Invalid QR code"
  const CameraDenied: string := "Camera access denied"

  function StatusText(st: RsvpStatus): string {
    match st
    case Confirmed => "confirmed"
    case Waitlist => "waitlist"
    case Cancelled => "cancelled"
  }

  function StatusRefusal(st: RsvpStatus): string {
    "Cannot check in: Status is " + StatusText(st)
  }

  /** The shape check: the right `type` and a truthy confirmation code, guest id and drop id. `rsvpId` is not checked. */
  predicate FormatOk(p: Payload) {
    && "type" in p && p["type"] == Str(CheckinType)
    && TruthyAt(p, "confirmationCode")
    && TruthyAt(p, "userId")
    && TruthyAt(p, "dropId")
  }

  /** `.eq(column, p[key])` against a uuid column: a missing key never matches. */
  predicate IdIs(p: Payload, key: string, id: Id) {
    key in p && p[key] == Uuid(id)
  }

  predicate TextIs(p: Payload, key: string, text: string) {
    key in p && p[key] == Str(text)
  }

  /** The four equalities of the reservation lookup. */
  predicate Names(p: Payload, r: Rsvp) {
    && IdIs(p, "rsvpId", r.id)
    && TextIs(p, "confirmationCode", r.confirmationCode)
    && IdIs(p, "userId", r.userId)
    && IdIs(p, "dropId", r.dropId)
  }

  function ScannedRsvp(rsvps: seq<Rsvp>, p: Payload): (r: Option<Rsvp>)
    ensures r.Some? ==> r.value in rsvps && Names(p, r.value)
    ensures r.Some? <==> |Filter(rsvps, (x: Rsvp) => Names(p, x))| == 1
  {
    OneRow(Filter(rsvps, (x: Rsvp) => Names(p, x)))
  }

  function ProfileById(profiles: seq<Profile>, id: Id): (r: Option<Profile>)
    ensures r.Some? ==> r.value in profiles && r.value.id == id
  {
    OneRow(Filter(profiles, (x: Profile) => x.id == id))
  }

  function DropById(drops: seq<Drop>, id: Id): (r: Option<Drop>)
    ensures r.Some? ==> r.value in drops && r.value.id == id
  {
    OneRow(Filter(drops, (x: Drop) => x.id == id))
  }

  predicate KeyIs(c: Checkin, userId: Id, dropId: Id) {
    c.userId == userId && c.dropId == dropId
  }

  /**
   * `.upsert({user_id, drop_id, checked_in_at}, {onConflict: 'user_id,drop_id'})`:
   * rows with that key get the new time and keep their QR payload; with no
   * such row, one without a QR payload is added.
   */
  function Upsert(cs: seq<Checkin>, userId: Id, dropId: Id, now: int): seq<Checkin> {
    if exists c | c in cs :: KeyIs(c, userId, dropId) then
      seq(|cs|, i requires 0 <= i < |cs| =>
        if KeyIs(cs[i], userId, dropId) then cs[i].(checkedInAt := Some(now)) else cs[i])
    else cs + [Checkin(userId, dropId, None, Some(now))]
  }

  /** One scan, as a value. An upsert that fails is only logged: the guest is still admitted. */
  function CheckIn(t: Tables, scan: Scan, now: int, upsertFails: bool): DoorOutcome {
    match scan
    case Unparseable(message) => Turned(if message != "" then message else ParseFallback)
    case Parsed(p) =>
      if !FormatOk(p) then Turned(FormatError)
      else match ScannedRsvp(t.rsvps, p)
        case None => Turned(NotFoundError)
        case Some(r) =>
          if r.status != Confirmed then Turned(StatusRefusal(r.status))
          else
            var admission := Admission(ProfileById(t.profiles, r.userId), DropById(t.drops, r.dropId), r.confirmationCode);
            Admitted(admission, if upsertFails then t else t.(checkins := Upsert(t.checkins, r.userId, r.dropId, now)))
  }

  class Page {
    var scanning: bool
    var result: Option<Admission>
    var error: string

    constructor ()
      ensures !scanning && result == None && error == ""
    {
      scanning, result, error := false, None, "";
    }

    /** `startScanning`: clears the previous outcome; a refused camera ends scanning with an error. */
    method StartScanning(cameraDenied: bool)
      modifies this
      ensures result == None
      ensures scanning == !cameraDenied
      ensures error == if cameraDenied then CameraDenied else ""
    {
      scanning := true;
      result := None;
      error := "";
      if cameraDenied {
        error := CameraDenied;
        scanning := false;
      }
    }

    method StopScanning()
      modifies this
      ensures !scanning && result == old(result) && error == old(error)
    {
      scanning := false;
    }

    /** `handleQRCode`: a refusal sets `error` only; an admission sets `result` only. */
    method HandleQRCode(db: Database, scan: Scan, now: int, upsertFails: bool)
      modifies this, db
      ensures !scanning
      ensures match CheckIn(old(db.State()), scan, now, upsertFails)
        case Turned(e) => error == e && result == old(result) && db.State() == old(db.State())
        case Admitted(a, t) => result == Some(a) && error == old(error) && db.State() == t
    {
      StopScanning();
      match scan
      case Unparseable(message) =>
        error := if message != "" then message else ParseFallback;
      case Parsed(p) =>
        if !FormatOk(p) {
          error := FormatError;
          return;
        }
        var rsvpData := ScannedRsvp(db.rsvps, p);
        if rsvpData.None? {
          error := NotFoundError;
          return;
        }
        var r := rsvpData.value;
        if r.status != Confirmed {
          error := StatusRefusal(r.status);
          return;
        }
        var profileData := ProfileById(db.profiles, r.userId);
        var dropData := DropById(db.drops, r.dropId);
        if !upsertFails {
          db.checkins := Upsert(db.checkins, r.userId, r.dropId, now);
        }
        result := Some(Admission(profileData, dropData, r.confirmationCode));
    }
  }

  // ------------------------------------------------------------ properties

  /** Only a confirmed reservation named by all four fields is admitted, and admission writes only `checkins`. */
  lemma AdmissionNeedsConfirmedMatch(t: Tables, scan: Scan, now: int, upsertFails: bool)
    ensures var o := CheckIn(t, scan, now, upsertFails);
      o.Admitted? ==>
        && scan.Parsed? && FormatOk(scan.payload)
        && (exists r | r in t.rsvps :: Names(scan.payload, r) && r.status == Confirmed
                                     && o.admission.code == r.confirmationCode)
        && o.after.(checkins := t.checkins) == t
  {
    var o := CheckIn(t, scan, now, upsertFails);
    if o.Admitted? {
      var r := ScannedRsvp(t.rsvps, scan.payload).value;
      assert r in t.rsvps && Names(scan.payload, r);
    }
  }

  /** The error each refusal shows, in the order the page checks. */
  lemma RefusalsInOrder(t: Tables, p: Payload, now: int, upsertFails: bool)
    ensures var o := CheckIn(t, Parsed(p), now, upsertFails);
            var r := ScannedRsvp(t.rsvps, p);
            && (!FormatOk(p) ==> o == Turned(FormatError))
            && (FormatOk(p) && r.None? ==> o == Turned(NotFoundError))
            && (FormatOk(p) && r.Some? && r.value.status != Confirmed ==> o == Turned(StatusRefusal(r.value.status)))
  {
  }

  /** The shape check passes without `rsvpId`, but such a payload never finds its reservation. */
  lemma MissingRsvpIdNotFound(t: Tables, p: Payload, now: int, upsertFails: bool)
    requires FormatOk(p) && "rsvpId" !in p
    ensures CheckIn(t, Parsed(p), now, upsertFails) == Turned(NotFoundError)
  {
    FilterNone(t.rsvps, (x: Rsvp) => Names(p, x));
  }

  /** A failed upsert leaves the tables alone and still admits the same guest. */
  lemma UpsertFailureStillAdmits(t: Tables, scan: Scan, now: int)
    ensures var ok := CheckIn(t, scan, now, false);
            var failed := CheckIn(t, scan, now, true);
            && (ok.Admitted? <==> failed.Admitted?)
            && (ok.Admitted? ==> failed.admission == ok.admission && failed.after == t)
            && (ok.Turned? ==> failed == ok)
  {
  }

  /** Check-in never changes a reservation, a profile, a drop or an invite. */
  lemma CheckInKeepsReservations(t: Tables, scan: Scan, now: int, upsertFails: bool)
    ensures var o := CheckIn(t, scan, now, upsertFails);
      o.Admitted? ==>
        && o.after.rsvps == t.rsvps && o.after.drops == t.drops
        && o.after.profiles == t.profiles && o.after.inviteCodes == t.inviteCodes
  {
  }

  /**
   * After an upsert the (guest, drop) key has a row stamped with the scan
   * time, every row with that key carries it, rows with other keys are
   * untouched, and existing rows keep their QR payload.
   */
  lemma UpsertStamps(cs: seq<Checkin>, userId: Id, dropId: Id, now: int)
    ensures var after := Upsert(cs, userId, dropId, now);
      && (exists i | 0 <= i < |after| :: KeyIs(after[i], userId, dropId))
      && (forall i | 0 <= i < |after| :: KeyIs(after[i], userId, dropId) ==> after[i].checkedInAt == Some(now))
      && (forall i | 0 <= i < |cs| :: !KeyIs(cs[i], userId, dropId) ==> after[i] == cs[i])
      && (forall i | 0 <= i < |cs| :: after[i].qrCode == cs[i].qrCode)
      && |cs| <= |after| <= |cs| + 1
  {
    var after := Upsert(cs, userId, dropId, now);
    if exists c | c in cs :: KeyIs(c, userId, dropId) {
      var c :| c in cs && KeyIs(c, userId, dropId);
      var i :| 0 <= i < |cs| && cs[i] == c;
      assert KeyIs(after[i], userId, dropId);
    } else {
      assert KeyIs(after[|cs|], userId, dropId);
    }
  }

  /** The upsert keeps at most one row per (guest, drop). */
  lemma UpsertKeepsKeysUnique(cs: seq<Checkin>, userId: Id, dropId: Id, now: int)
    requires CheckinKeysUnique(cs)
    ensures CheckinKeysUnique(Upsert(cs, userId, dropId, now))
  {
    var after := Upsert(cs, userId, dropId, now);
    if !exists c | c in cs :: KeyIs(c, userId, dropId) {
      forall i, j | 0 <= i < j < |after|
        ensures !(after[i].userId == after[j].userId && after[i].dropId == after[j].dropId)
      {
        if j == |cs| {
          assert cs[i] in cs;
        }
      }
    }
  }

  /** Scanning the same ticket twice leaves exactly one row for the key, stamped with the later time. */
  lemma RepeatedScan(t: Tables, p: Payload, now1: int, now2: int)
    requires CheckinKeysUnique(t.checkins)
    requires CheckIn(t, Parsed(p), now1, false).Admitted?
    ensures var t1 := CheckIn(t, Parsed(p), now1, false).after;
            var o2 := CheckIn(t1, Parsed(p), now2, false);
            var r := ScannedRsvp(t.rsvps, p).value;
            && o2.Admitted?
            && CheckinKeysUnique(o2.after.checkins)
            && (exists i | 0 <= i < |o2.after.checkins| :: KeyIs(o2.after.checkins[i], r.userId, r.dropId))
            && (forall i | 0 <= i < |o2.after.checkins| ::
                  KeyIs(o2.after.checkins[i], r.userId, r.dropId) ==> o2.after.checkins[i].checkedInAt == Some(now2))
            && |o2.after.checkins| == |t1.checkins|
  {
    var r := ScannedRsvp(t.rsvps, p).value;
    var t1 := CheckIn(t, Parsed(p), now1, false).after;
    assert t1.rsvps == t.rsvps;
    UpsertKeepsKeysUnique(t.checkins, r.userId, r.dropId, now1);
    UpsertStamps(t.checkins, r.userId, r.dropId, now1);
    UpsertKeepsKeysUnique(t1.checkins, r.userId, r.dropId, now2);
    UpsertStamps(t1.checkins, r.userId, r.dropId, now2);
    var i :| 0 <= i < |t1.checkins| && KeyIs(t1.checkins[i], r.userId, r.dropId);
    assert t1.checkins[i] in t1.checkins;
  }

  /** The payload the reservation route stores fails the shape check: its `type` is `checkin` and it has no `confirmationCode`. */
  lemma AdmissionPayloadRejected(code: string, userId: Id, dropId: Id)
    ensures !FormatOk(RsvpRoute.CheckinQrPayload(code, userId, dropId))
  {
    var p := RsvpRoute.CheckinQrPayload(code, userId, dropId);
    assert p["type"] == Str("checkin");
    assert "checkin" != CheckinType by {
      assert |"checkin"| != |CheckinType|;
    }
  }
}

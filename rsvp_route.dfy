/**
 * `POST /api/rsvp` (app/api/rsvp/route.ts): admission of one reservation.
 *
 * The handler reads the tables, runs its checks in a fixed order (invite
 * present, invite known and active, uses left, not expired, drop announced),
 * decides `confirmed` or `waitlist` from the drop's confirmed count, resolves
 * the guest by email, refuses a second reservation for the same guest and
 * drop, and then writes: the reservation, the invite's use count, the
 * check-in row holding the QR payload, and `sold_out` on a waitlist placement.
 *
 * `Admit` states that behaviour on a value of the tables; `Post` performs it
 * step by step on the `Database` and is proved to agree with `Admit`.
 * Requests are taken one after another (`Run`): the handler has no locking,
 * and interleaved requests are not modelled.
 */
module RsvpRoute {
  import opened Wrappers
  import opened JsText
  import opened Seqs
  import opened Schema
  import opened Qr
  import ValidateInvite

  /** The JSON body; an absent field is the empty string (both are falsy). */
  datatype Request = Request(
    dropSlug: string,
    name: string,
    email: string,
    phone: string,
    dietaryNotes: string,
    inviteCode: string)

  /**
   * What the world contributes to one request: the clock, the eight random
   * draws of the confirmation code, and which hosted calls fail.  A failed
   * auth user creation, profile insert or reservation insert, and a throw of
   * the QR image generation, are answered with a 500.  A failed capacity
   * count leaves the count `null`; the errors of the check-in insert, the
   * invite-use update and the `sold_out` update are ignored.
   */
  datatype Env = Env(
    now: int,
    draws: seq<CodeIndex>,
    countFails: bool,
    authCreateFails: bool,
    profileInsertFails: bool,
    qrFails: bool,
    rsvpInsertFails: bool,
    useUpdateFails: bool,
    checkinInsertFails: bool,
    soldOutUpdateFails: bool)

  /** The JSON reply: the placement, or `{error, status?}` with an HTTP status. */
  datatype Reply =
    | Placed(rsvpId: Id, confirmationCode: string, status: RsvpStatus, message: string)
    | Refused(httpStatus: int, error: string, existing: Option<RsvpStatus>)

  datatype Outcome = Outcome(reply: Reply, after: Tables)

  const InviteRequired: string := "Invite code required"
  const InviteInvalid: string := "Invalid invite code"
  const InviteExhausted: string := "Invite code has reached usage limit"
  const InviteExpired: string := "Invite code has expired"
  const DropUnavailable: string := "Drop not available"
  const AlreadyReserved: string := "You already have an RSVP for this drop"
  const Failed: string := "Failed to create RSVP"
  const ConfirmedMessage: string := "Your seat is confirmed! Check your email for details."
  const WaitlistMessage: string := "You're on the waitlist. We'll notify you if a spot opens."

  // ---------------------------------------------------------------- reads

  /** `.eq('slug', slug).eq('status', 'announced').maybeSingle()` on `drops`. */
  function AnnouncedDrop(drops: seq<Drop>, slug: string): (r: Option<Drop>)
    ensures r.Some? ==> r.value in drops && r.value.slug == slug && r.value.status == Announced
  {
    OneRow(Filter(drops, (d: Drop) => d.slug == slug && d.status == Announced))
  }

  /** The capacity count: confirmed reservations of one drop. */
  function ConfirmedCount(rsvps: seq<Rsvp>, dropId: Id): nat {
    Count(rsvps, (r: Rsvp) => r.dropId == dropId && r.status == Confirmed)
  }

  function WaitlistCount(rsvps: seq<Rsvp>, dropId: Id): nat {
    Count(rsvps, (r: Rsvp) => r.dropId == dropId && r.status == Waitlist)
  }

  /**
   * `(confirmedCount || 0) < seat_limit`: a seat while the confirmed count is
   * below the seat limit, the waitlist otherwise.  A failed count query
   * yields `null`, which counts as 0.
   */
  function Placement(rsvps: seq<Rsvp>, drop: Drop, countFails: bool): (st: RsvpStatus)
    ensures st == Confirmed || st == Waitlist
    ensures !countFails ==> (st == Confirmed <==> ConfirmedCount(rsvps, drop.id) < drop.seatLimit)
    ensures countFails ==> (st == Confirmed <==> 0 < drop.seatLimit)
  {
    var counted := if countFails then 0 else ConfirmedCount(rsvps, drop.id);
    if counted < drop.seatLimit then Confirmed else Waitlist
  }

  /** `.eq('email', email).maybeSingle()` on `profiles`. */
  function ProfileByEmail(profiles: seq<Profile>, email: string): (r: Option<Profile>)
    ensures r.Some? ==> r.value in profiles && r.value.email == email
  {
    OneRow(Filter(profiles, (p: Profile) => p.email == email))
  }

  /** `.eq('user_id', userId).eq('drop_id', dropId).maybeSingle()` on `rsvps`, whatever the status. */
  function ExistingRsvp(rsvps: seq<Rsvp>, userId: Id, dropId: Id): (r: Option<Rsvp>)
    ensures r.Some? ==> r.value in rsvps && r.value.userId == userId && r.value.dropId == dropId
  {
    OneRow(Filter(rsvps, (r: Rsvp) => r.userId == userId && r.dropId == dropId))
  }

  // --------------------------------------------------------------- writes

  /** The check-in QR payload this route encodes: `{code, userId, dropId, type: 'checkin'}`. */
  function CheckinQrPayload(code: string, userId: Id, dropId: Id): (p: Payload)
    ensures p.Keys == {"code", "userId", "dropId", "type"}
  {
    map["code" := Str(code), "userId" := Uuid(userId), "dropId" := Uuid(dropId), "type" := Str("checkin")]
  }

  /** `.update({current_uses: row.current_uses + 1}).eq('id', row.id)`: the count read earlier, plus one. */
  function ConsumeInvite(codes: seq<InviteCode>, row: InviteCode): (r: seq<InviteCode>)
    ensures |r| == |codes|
    ensures forall i :: 0 <= i < |codes| ==>
      r[i] == if codes[i].id == row.id then codes[i].(currentUses := row.currentUses + 1) else codes[i]
  {
    seq(|codes|, i requires 0 <= i < |codes| =>
      if codes[i].id == row.id then codes[i].(currentUses := row.currentUses + 1) else codes[i])
  }

  /** `.update({status: 'sold_out'}).eq('id', dropId)`. */
  function MarkSoldOut(drops: seq<Drop>, dropId: Id): (r: seq<Drop>)
    ensures |r| == |drops|
    ensures forall i :: 0 <= i < |drops| ==>
      r[i] == if drops[i].id == dropId then drops[i].(status := SoldOut) else drops[i]
  {
    seq(|drops|, i requires 0 <= i < |drops| =>
      if drops[i].id == dropId then drops[i].(status := SoldOut) else drops[i])
  }

  /**
   * The check-in insert. It fails (and the failure is only logged) when the
   * database refuses it or a row for the same guest and drop exists, since
   * `checkins` is keyed by (user, drop).
   */
  function InsertCheckin(checkins: seq<Checkin>, userId: Id, dropId: Id, qr: Payload, fails: bool): (r: seq<Checkin>)
    ensures r == checkins || r == checkins + [Checkin(userId, dropId, Some(qr), None)]
  {
    if fails || exists c | c in checkins :: c.userId == userId && c.dropId == dropId then checkins
    else checkins + [Checkin(userId, dropId, Some(qr), None)]
  }

  function Message(status: RsvpStatus): string {
    if status == Confirmed then ConfirmedMessage else WaitlistMessage
  }

  // ------------------------------------------------------------ the route

  function Admit(s: Tables, req: Request, env: Env): Outcome
    requires |env.draws| == 8
  {
    if req.inviteCode == "" then Outcome(Refused(400, InviteRequired, None), s)
    else
      var upper := Upper(req.inviteCode);
      match ActiveCode(s.inviteCodes, upper)
      case None => Outcome(Refused(400, InviteInvalid, None), s)
      case Some(code) =>
        if code.currentUses >= code.maxUses then Outcome(Refused(400, InviteExhausted, None), s)
        else if Expired(code, env.now) then Outcome(Refused(400, InviteExpired, None), s)
        else match AnnouncedDrop(s.drops, req.dropSlug)
          case None => Outcome(Refused(400, DropUnavailable, None), s)
          case Some(drop) =>
            var status := Placement(s.rsvps, drop, env.countFails);
            match ProfileByEmail(s.profiles, req.email)
            case Some(p) => Reserve(s, req, env, code, drop, status, p.id)
            case None =>
              if env.authCreateFails || env.profileInsertFails then Outcome(Refused(500, Failed, None), s)
              else
                var guest := Profile(s.nextId, req.email, req.name, req.phone, Some(upper));
                Reserve(s.(profiles := s.profiles + [guest], nextId := s.nextId + 1),
                        req, env, code, drop, status, s.nextId)
  }

  /** From the duplicate check on: the steps after the guest is known. */
  function Reserve(s: Tables, req: Request, env: Env, code: InviteCode, drop: Drop,
                   status: RsvpStatus, userId: Id): Outcome
    requires |env.draws| == 8
  {
    match ExistingRsvp(s.rsvps, userId, drop.id)
    case Some(existing) => Outcome(Refused(400, AlreadyReserved, Some(existing.status)), s)
    case None =>
      var confirmation := Generate(env.draws);
      if env.qrFails || env.rsvpInsertFails then Outcome(Refused(500, Failed, None), s)
      else
        var row := Rsvp(s.nextId, userId, drop.id, status, confirmation, req.dietaryNotes,
                        Some(Upper(req.inviteCode)), env.now);
        var qr := CheckinQrPayload(confirmation, userId, drop.id);
        var after := Tables(
          if env.useUpdateFails then s.inviteCodes else ConsumeInvite(s.inviteCodes, code),
          if status == Waitlist && !env.soldOutUpdateFails then MarkSoldOut(s.drops, drop.id) else s.drops,
          s.profiles,
          s.rsvps + [row],
          InsertCheckin(s.checkins, userId, drop.id, qr, env.checkinInsertFails),
          s.nextId + 1);
        Outcome(Placed(row.id, confirmation, status, Message(status)), after)
  }

  /** The handler on the store, one awaited step at a time. */
  method Post(db: Database, req: Request, env: Env) returns (reply: Reply)
    requires |env.draws| == 8
    modifies db
    ensures Outcome(reply, db.State()) == Admit(old(db.State()), req, env)
  {
    ghost var s := db.State();
    if req.inviteCode == "" {
      return Refused(400, InviteRequired, None);
    }
    var upper := Upper(req.inviteCode);
    var codeData := ActiveCode(db.inviteCodes, upper);
    if codeData.None? {
      return Refused(400, InviteInvalid, None);
    }
    var code := codeData.value;
    if code.currentUses >= code.maxUses {
      return Refused(400, InviteExhausted, None);
    }
    if Expired(code, env.now) {
      return Refused(400, InviteExpired, None);
    }
    var dropData := AnnouncedDrop(db.drops, req.dropSlug);
    if dropData.None? {
      return Refused(400, DropUnavailable, None);
    }
    var drop := dropData.value;
    var status := Placement(db.rsvps, drop, env.countFails);

    var userId: Id;
    var existingUser := ProfileByEmail(db.profiles, req.email);
    if existingUser.Some? {
      userId := existingUser.value.id;
    } else {
      if env.authCreateFails || env.profileInsertFails {
        return Refused(500, Failed, None);
      }
      userId := db.nextId;
      db.nextId := db.nextId + 1;
      db.profiles := db.profiles + [Profile(userId, req.email, req.name, req.phone, Some(upper))];
      assert db.State() == s.(profiles := db.profiles, nextId := s.nextId + 1);
    }

    reply := PostReservation(db, req, env, code, drop, status, userId);
  }

  /** The handler from the duplicate check on. */
  method PostReservation(db: Database, req: Request, env: Env, code: InviteCode, drop: Drop,
                         status: RsvpStatus, userId: Id) returns (reply: Reply)
    requires |env.draws| == 8
    modifies db
    ensures Outcome(reply, db.State()) == Reserve(old(db.State()), req, env, code, drop, status, userId)
  {
    var existingRsvp := ExistingRsvp(db.rsvps, userId, drop.id);
    if existingRsvp.Some? {
      return Refused(400, AlreadyReserved, Some(existingRsvp.value.status));
    }

    var confirmation := Generate(env.draws);
    var qr := CheckinQrPayload(confirmation, userId, drop.id);
    if env.qrFails || env.rsvpInsertFails {
      return Refused(500, Failed, None);
    }
    var rsvpId := db.nextId;
    db.nextId := db.nextId + 1;
    db.rsvps := db.rsvps + [Rsvp(rsvpId, userId, drop.id, status, confirmation, req.dietaryNotes,
                                 Some(Upper(req.inviteCode)), env.now)];
    if !env.useUpdateFails {
      db.inviteCodes := ConsumeInvite(db.inviteCodes, code);
    }
    db.checkins := InsertCheckin(db.checkins, userId, drop.id, qr, env.checkinInsertFails);
    if status == Waitlist && !env.soldOutUpdateFails {
      db.drops := MarkSoldOut(db.drops, drop.id);
    }
    reply := Placed(rsvpId, confirmation, status, Message(status));
  }

  // ------------------------------------------------------------ properties

  /** The guest id the request ends up with: the profile found by email, or a fresh one. */
  function Guest(s: Tables, req: Request): Id {
    match ProfileByEmail(s.profiles, req.email)
    case Some(p) => p.id
    case None => s.nextId
  }

  /** The profile the request inserts for an unknown email. */
  function NewGuest(s: Tables, req: Request): Profile {
    Profile(s.nextId, req.email, req.name, req.phone, Some(Upper(req.inviteCode)))
  }

  /** The invite checks pass: a code is given, its uppercase form names one active row, and that row is usable. */
  predicate InviteAdmissible(s: Tables, req: Request, now: int) {
    && req.inviteCode != ""
    && ActiveCode(s.inviteCodes, Upper(req.inviteCode)).Some?
    && Usable(ActiveCode(s.inviteCodes, Upper(req.inviteCode)).value, now)
  }

  /** `t` is `s`, or `s` plus the new guest's profile: no reservation, invite, drop or check-in row changed. */
  predicate OnlyGuestAdded(s: Tables, t: Tables, req: Request) {
    && t.inviteCodes == s.inviteCodes
    && t.drops == s.drops
    && t.rsvps == s.rsvps
    && t.checkins == s.checkins
    && (t == s || (t.profiles == s.profiles + [NewGuest(s, req)] && t.nextId == s.nextId + 1))
  }

  /** Without an invite code the request is refused before any read, and nothing changes. */
  lemma MissingInviteRefused(s: Tables, req: Request, env: Env)
    requires |env.draws| == 8
    requires req.inviteCode == ""
    ensures Admit(s, req, env) == Outcome(Refused(400, InviteRequired, None), s)
  {
  }

  /**
   * The invite and drop checks, in the handler's order; each refusal is a 400
   * that leaves every table as it was.  A code expiring exactly now passes.
   */
  lemma ChecksInOrder(s: Tables, req: Request, env: Env)
    requires |env.draws| == 8
    requires req.inviteCode != ""
    ensures var o := Admit(s, req, env);
            var found := ActiveCode(s.inviteCodes, Upper(req.inviteCode));
            && (found.None? ==> o == Outcome(Refused(400, InviteInvalid, None), s))
            && (found.Some? && found.value.currentUses >= found.value.maxUses ==>
                  o == Outcome(Refused(400, InviteExhausted, None), s))
            && (found.Some? && found.value.currentUses < found.value.maxUses && Expired(found.value, env.now) ==>
                  o == Outcome(Refused(400, InviteExpired, None), s))
            && (found.Some? && found.value.expiresAt == Some(env.now) ==> o.reply != Refused(400, InviteExpired, None))
            && (InviteAdmissible(s, req, env.now) && AnnouncedDrop(s.drops, req.dropSlug).None? ==>
                  o == Outcome(Refused(400, DropUnavailable, None), s))
  {
  }

  /** A placement needs a usable invite and exactly one announced drop with the requested slug. */
  lemma PlacementNeedsInviteAndDrop(s: Tables, req: Request, env: Env)
    requires |env.draws| == 8
    ensures Admit(s, req, env).reply.Placed? ==>
      InviteAdmissible(s, req, env.now) && AnnouncedDrop(s.drops, req.dropSlug).Some?
  {
  }

  /** A refused request never writes a reservation, an invite use, a check-in or a drop status. */
  lemma RefusalWritesNoReservation(s: Tables, req: Request, env: Env)
    requires |env.draws| == 8
    ensures Admit(s, req, env).reply.Refused? ==> OnlyGuestAdded(s, Admit(s, req, env).after, req)
  {
    if req.inviteCode != "" && ActiveCode(s.inviteCodes, Upper(req.inviteCode)).Some? {
      var code := ActiveCode(s.inviteCodes, Upper(req.inviteCode)).value;
      if code.currentUses < code.maxUses && !Expired(code, env.now) && AnnouncedDrop(s.drops, req.dropSlug).Some? {
        var drop := AnnouncedDrop(s.drops, req.dropSlug).value;
        var status := Placement(s.rsvps, drop, env.countFails);
        match ProfileByEmail(s.profiles, req.email)
        case Some(p) =>
          ReserveRefusalKeeps(s, req, env, code, drop, status, p.id);
        case None =>
          var s' := s.(profiles := s.profiles + [NewGuest(s, req)], nextId := s.nextId + 1);
          ReserveRefusalKeeps(s', req, env, code, drop, status, s.nextId);
      }
    }
  }

  /** A refusal from the duplicate check on leaves the tables as they were. */
  lemma ReserveRefusalKeeps(s: Tables, req: Request, env: Env, code: InviteCode, drop: Drop,
                            status: RsvpStatus, userId: Id)
    requires |env.draws| == 8
    ensures Reserve(s, req, env, code, drop, status, userId).reply.Refused? ==>
      Reserve(s, req, env, code, drop, status, userId).after == s
  {
  }

  /**
   * Everything a placement writes: exactly one new reservation carrying the
   * generated code and the uppercased invite, the invite's use count read
   * earlier plus one unless that update fails, and `sold_out` on the drop
   * exactly when the placement is a waitlist one and that update does not
   * fail.  The status is `confirmed` exactly when the counted confirmed
   * reservations, 0 when the count fails, are below the seat limit.
   */
  lemma PlacementEffects(s: Tables, req: Request, env: Env)
    requires |env.draws| == 8
    requires Admit(s, req, env).reply.Placed?
    ensures var o := Admit(s, req, env);
            var code := ActiveCode(s.inviteCodes, Upper(req.inviteCode)).value;
            var drop := AnnouncedDrop(s.drops, req.dropSlug).value;
            var counted := if env.countFails then 0 else ConfirmedCount(s.rsvps, drop.id);
            && InviteAdmissible(s, req, env.now)
            && AnnouncedDrop(s.drops, req.dropSlug).Some?
            && (o.reply.status == Confirmed <==> counted < drop.seatLimit)
            && (o.reply.status == Waitlist <==> counted >= drop.seatLimit)
            && o.reply.confirmationCode == Generate(env.draws)
            && o.reply.message == (if o.reply.status == Confirmed then ConfirmedMessage else WaitlistMessage)
            && o.after.rsvps == s.rsvps + [Rsvp(o.reply.rsvpId, Guest(s, req), drop.id, o.reply.status,
                                                o.reply.confirmationCode, req.dietaryNotes,
                                                Some(Upper(req.inviteCode)), env.now)]
            && o.after.nextId == o.reply.rsvpId + 1 && o.reply.rsvpId >= s.nextId
            && ExistingRsvp(s.rsvps, Guest(s, req), drop.id).None?
            && |o.after.inviteCodes| == |s.inviteCodes|
            && (forall i :: 0 <= i < |s.inviteCodes| ==>
                  o.after.inviteCodes[i] == if s.inviteCodes[i].id == code.id && !env.useUpdateFails
                    then s.inviteCodes[i].(currentUses := code.currentUses + 1) else s.inviteCodes[i])
            && |o.after.drops| == |s.drops|
            && (forall i :: 0 <= i < |s.drops| ==>
                  o.after.drops[i] == if s.drops[i].id == drop.id && o.reply.status == Waitlist && !env.soldOutUpdateFails
                    then s.drops[i].(status := SoldOut) else s.drops[i])
  {
  }

  /**
   * A guest who already holds a reservation for the drop, in any status
   * (`cancelled` included), is refused with that status; no reservation is
   * written and the invite is not consumed.
   */
  lemma DuplicateRefused(s: Tables, req: Request, env: Env, p: Profile, r: Rsvp)
    requires |env.draws| == 8
    requires InviteAdmissible(s, req, env.now) && AnnouncedDrop(s.drops, req.dropSlug).Some?
    requires ProfileByEmail(s.profiles, req.email) == Some(p)
    requires ExistingRsvp(s.rsvps, p.id, AnnouncedDrop(s.drops, req.dropSlug).value.id) == Some(r)
    ensures Admit(s, req, env) == Outcome(Refused(400, AlreadyReserved, Some(r.status)), s)
  {
  }

  /** A refusal that carries a status names the status of a reservation the guest holds for the drop. */
  lemma DuplicateReportsHeldStatus(s: Tables, req: Request, env: Env)
    requires |env.draws| == 8
    ensures var o := Admit(s, req, env);
      o.reply.Refused? && o.reply.existing.Some? ==>
        && AnnouncedDrop(s.drops, req.dropSlug).Some?
        && exists r | r in s.rsvps :: r.userId == Guest(s, req)
                                    && r.dropId == AnnouncedDrop(s.drops, req.dropSlug).value.id
                                    && r.status == o.reply.existing.value
  {
    var o := Admit(s, req, env);
    if o.reply.Refused? && o.reply.existing.Some? {
      var r := ExistingRsvp(s.rsvps, Guest(s, req), AnnouncedDrop(s.drops, req.dropSlug).value.id).value;
      assert r in s.rsvps;
    }
  }

  /**
   * Identity: a profile found by email is reused as it is (name and phone
   * are not updated); otherwise the new profile stores the uppercased invite.
   */
  lemma IdentityResolution(s: Tables, req: Request, env: Env)
    requires |env.draws| == 8
    requires Admit(s, req, env).reply.Placed?
    ensures var o := Admit(s, req, env);
      match ProfileByEmail(s.profiles, req.email)
      case Some(p) => o.after.profiles == s.profiles && o.after.rsvps[|s.rsvps|].userId == p.id
      case None =>
        && o.after.profiles == s.profiles + [NewGuest(s, req)]
        && o.after.profiles[|s.profiles|].invitedByCode == Some(Upper(req.inviteCode))
        && o.after.rsvps[|s.rsvps|].userId == s.nextId
  {
  }

  /** Whether the check-in insert succeeds changes neither the reply nor any table but `checkins`. */
  lemma CheckinFailureInvisible(s: Tables, req: Request, env: Env, fails: bool)
    requires |env.draws| == 8
    ensures var o1 := Admit(s, req, env);
            var o2 := Admit(s, req, env.(checkinInsertFails := fails));
            o1.reply == o2.reply && o1.after.(checkins := []) == o2.after.(checkins := [])
  {
    if req.inviteCode != "" {
      var upper := Upper(req.inviteCode);
      if ActiveCode(s.inviteCodes, upper).Some? && AnnouncedDrop(s.drops, req.dropSlug).Some? {
        var code := ActiveCode(s.inviteCodes, upper).value;
        if code.currentUses < code.maxUses && !Expired(code, env.now) {
          if ProfileByEmail(s.profiles, req.email).Some? {
            KnownGuestCheckinInvisible(s, req, env, fails);
          } else if !env.authCreateFails && !env.profileInsertFails {
            NewGuestCheckinInvisible(s, req, env, fails);
          }
        }
      }
    }
  }

  /** The guest already has a profile: both runs reach the same `Reserve`. */
  lemma KnownGuestCheckinInvisible(s: Tables, req: Request, env: Env, fails: bool)
    requires |env.draws| == 8 && req.inviteCode != ""
    requires ActiveCode(s.inviteCodes, Upper(req.inviteCode)).Some?
    requires var code := ActiveCode(s.inviteCodes, Upper(req.inviteCode)).value;
      code.currentUses < code.maxUses && !Expired(code, env.now)
    requires AnnouncedDrop(s.drops, req.dropSlug).Some? && ProfileByEmail(s.profiles, req.email).Some?
    ensures var o1 := Admit(s, req, env);
            var o2 := Admit(s, req, env.(checkinInsertFails := fails));
            o1.reply == o2.reply && o1.after.(checkins := []) == o2.after.(checkins := [])
  {
    var env2 := env.(checkinInsertFails := fails);
    var code := ActiveCode(s.inviteCodes, Upper(req.inviteCode)).value;
    var drop := AnnouncedDrop(s.drops, req.dropSlug).value;
    var status := Placement(s.rsvps, drop, env.countFails);
    var id := ProfileByEmail(s.profiles, req.email).value.id;
    assert Admit(s, req, env) == Reserve(s, req, env, code, drop, status, id);
    assert Admit(s, req, env2) == Reserve(s, req, env2, code, drop, status, id);
    ReserveCheckinInvisible(s, req, env, env2, code, drop, status, id);
  }

  /** A new guest whose profile is created: both runs reach the same `Reserve` on the extended tables. */
  lemma NewGuestCheckinInvisible(s: Tables, req: Request, env: Env, fails: bool)
    requires |env.draws| == 8 && req.inviteCode != ""
    requires ActiveCode(s.inviteCodes, Upper(req.inviteCode)).Some?
    requires var code := ActiveCode(s.inviteCodes, Upper(req.inviteCode)).value;
      code.currentUses < code.maxUses && !Expired(code, env.now)
    requires AnnouncedDrop(s.drops, req.dropSlug).Some? && ProfileByEmail(s.profiles, req.email).None?
    requires !env.authCreateFails && !env.profileInsertFails
    ensures var o1 := Admit(s, req, env);
            var o2 := Admit(s, req, env.(checkinInsertFails := fails));
            o1.reply == o2.reply && o1.after.(checkins := []) == o2.after.(checkins := [])
  {
    var env2 := env.(checkinInsertFails := fails);
    var code := ActiveCode(s.inviteCodes, Upper(req.inviteCode)).value;
    var drop := AnnouncedDrop(s.drops, req.dropSlug).value;
    var status := Placement(s.rsvps, drop, env.countFails);
    var s2 := s.(profiles := s.profiles + [NewGuest(s, req)], nextId := s.nextId + 1);
    NewGuestReachesReserve(s, req, env, code, drop);
    NewGuestReachesReserve(s, req, env2, code, drop);
    ReserveCheckinInvisible(s2, req, env, env2, code, drop, status, s.nextId);
  }

  /** For an unknown email whose profile is created, the request goes on to `Reserve` with that profile added. */
  lemma NewGuestReachesReserve(s: Tables, req: Request, env: Env, code: InviteCode, drop: Drop)
    requires |env.draws| == 8 && req.inviteCode != ""
    requires ActiveCode(s.inviteCodes, Upper(req.inviteCode)) == Some(code)
    requires code.currentUses < code.maxUses && !Expired(code, env.now)
    requires AnnouncedDrop(s.drops, req.dropSlug) == Some(drop) && ProfileByEmail(s.profiles, req.email).None?
    requires !env.authCreateFails && !env.profileInsertFails
    ensures Admit(s, req, env) ==
      Reserve(s.(profiles := s.profiles + [NewGuest(s, req)], nextId := s.nextId + 1), req, env,
              code, drop, Placement(s.rsvps, drop, env.countFails), s.nextId)
  {
  }

  lemma ReserveCheckinInvisible(s: Tables, req: Request, env: Env, env2: Env, code: InviteCode, drop: Drop,
                                status: RsvpStatus, userId: Id)
    requires |env.draws| == 8 && env2 == env.(checkinInsertFails := env2.checkinInsertFails)
    ensures var o1 := Reserve(s, req, env, code, drop, status, userId);
            var o2 := Reserve(s, req, env2, code, drop, status, userId);
            o1.reply == o2.reply && o1.after.(checkins := []) == o2.after.(checkins := [])
  {
  }

  /** After a waitlist placement whose `sold_out` update succeeds no request for that slug finds an announced drop. */
  lemma WaitlistClosesDrop(s: Tables, req: Request, env: Env)
    requires |env.draws| == 8 && !env.soldOutUpdateFails
    requires Admit(s, req, env).reply.Placed? && Admit(s, req, env).reply.status == Waitlist
    ensures AnnouncedDrop(Admit(s, req, env).after.drops, req.dropSlug).None?
  {
    PlacementEffects(s, req, env);
    var drop := AnnouncedDrop(s.drops, req.dropSlug).value;
    assert Admit(s, req, env).after.drops == MarkSoldOut(s.drops, drop.id);
    SoldOutHidesSlug(s.drops, req.dropSlug, drop);
  }

  /**
   * When the `sold_out` update fails the reply is still a placement, and the
   * drop stays announced: the next request for the slug finds it again.
   */
  lemma SoldOutFailureKeepsDropOpen(s: Tables, req: Request, env: Env)
    requires |env.draws| == 8 && env.soldOutUpdateFails
    requires Admit(s, req, env).reply.Placed?
    ensures Admit(s, req, env).after.drops == s.drops
    ensures AnnouncedDrop(Admit(s, req, env).after.drops, req.dropSlug).Some?
  {
    PlacementEffects(s, req, env);
    var after := Admit(s, req, env).after.drops;
    assert after == s.drops;
  }

  /** When the invite-use update fails the reply is still a placement and the invite keeps its use count. */
  lemma UseUpdateFailureKeepsUses(s: Tables, req: Request, env: Env)
    requires |env.draws| == 8 && env.useUpdateFails
    requires Admit(s, req, env).reply.Placed?
    ensures Admit(s, req, env).after.inviteCodes == s.inviteCodes
  {
    PlacementEffects(s, req, env);
    var after := Admit(s, req, env).after.inviteCodes;
    assert after == s.inviteCodes;
  }

  /** A throw of the QR image generation is a 500 after the guest is known; no reservation is written. */
  lemma QrFailureRefused(s: Tables, req: Request, env: Env)
    requires |env.draws| == 8 && env.qrFails
    ensures Admit(s, req, env).reply.Refused?
    ensures OnlyGuestAdded(s, Admit(s, req, env).after, req)
  {
    RefusalWritesNoReservation(s, req, env);
  }

  lemma SoldOutHidesSlug(drops: seq<Drop>, slug: string, drop: Drop)
    requires AnnouncedDrop(drops, slug) == Some(drop)
    ensures AnnouncedDrop(MarkSoldOut(drops, drop.id), slug).None?
  {
    var after := MarkSoldOut(drops, drop.id);
    var p := (d: Drop) => d.slug == slug && d.status == Announced;
    var before := Filter(drops, p);
    assert before == [drop];
    forall j | 0 <= j < |after| ensures !p(after[j]) {
      assert p(drops[j]) ==> drops[j] in before;
    }
    FilterNone(after, p);
  }

  /** Same decision as the validator, for a code of four or more characters that is not the bypass literal. */
  lemma AgreesWithValidator(s: Tables, req: Request, now: int)
    requires |req.inviteCode| >= 4 && Upper(req.inviteCode) != ValidateInvite.BypassCode
    ensures ValidateInvite.Validate(s.inviteCodes, req.inviteCode, now).Accepted? <==> InviteAdmissible(s, req, now)
  {
  }

  /** The bypass literal is accepted by the validator yet refused here unless the table holds it. */
  lemma BypassNotHonoured(now: int, env: Env)
    requires |env.draws| == 8
    ensures var s := Tables([], [], [], [], [], 0);
            var req := Request("slug", "name", "a@b.c", "", "", ValidateInvite.BypassCode);
            && ValidateInvite.Validate(s.inviteCodes, req.inviteCode, now).Accepted?
            && Admit(s, req, env).reply == Refused(400, InviteInvalid, None)
  {
    ValidateInvite.BypassAlwaysAccepted([], ValidateInvite.BypassCode, now);
  }

  /** The route's check-in insert keeps at most one row per (guest, drop). */
  lemma InsertCheckinKeepsKeysUnique(cs: seq<Checkin>, userId: Id, dropId: Id, qr: Payload, fails: bool)
    requires CheckinKeysUnique(cs)
    ensures CheckinKeysUnique(InsertCheckin(cs, userId, dropId, qr, fails))
  {
    var after := InsertCheckin(cs, userId, dropId, qr, fails);
    if after != cs {
      forall i, j | 0 <= i < j < |after|
        ensures !(after[i].userId == after[j].userId && after[i].dropId == after[j].dropId)
      {
        if j == |cs| {
          assert cs[i] in cs;
        }
      }
    }
  }

  // ------------------------------------------------- sequential requests

  datatype Step = Step(req: Request, env: Env)

  predicate Drawn(steps: seq<Step>) {
    forall i :: 0 <= i < |steps| ==> |steps[i].env.draws| == 8
  }

  /** The tables after the requests are handled one after another. */
  function Run(s: Tables, steps: seq<Step>): Tables
    requires Drawn(steps)
    decreases |steps|
  {
    if steps == [] then s
    else Run(Admit(s, steps[0].req, steps[0].env).after, steps[1..])
  }

  predicate UniqueDropIds(drops: seq<Drop>) {
    forall i, j :: 0 <= i < j < |drops| ==> drops[i].id != drops[j].id
  }

  /** No drop has more confirmed reservations than seats. */
  predicate WithinCapacity(t: Tables) {
    forall d :: d in t.drops ==> ConfirmedCount(t.rsvps, d.id) <= d.seatLimit
  }

  /** Only statuses change: ids and seat limits stay where they were. */
  predicate SameDropShape(a: seq<Drop>, b: seq<Drop>) {
    |a| == |b| && forall i :: 0 <= i < |a| ==> a[i].id == b[i].id && a[i].seatLimit == b[i].seatLimit
  }

  /** With a capacity count that succeeds, one request keeps every drop within its seat limit. */
  lemma AdmitKeepsCapacity(s: Tables, req: Request, env: Env)
    requires |env.draws| == 8 && !env.countFails
    requires UniqueDropIds(s.drops) && WithinCapacity(s)
    ensures UniqueDropIds(Admit(s, req, env).after.drops) && WithinCapacity(Admit(s, req, env).after)
  {
    var o := Admit(s, req, env);
    if o.reply.Placed? {
      PlacementEffects(s, req, env);
      var drop := AnnouncedDrop(s.drops, req.dropSlug).value;
      AppendKeepsCapacity(s.rsvps, s.drops, o.after.drops, o.after.rsvps[|s.rsvps|], drop);
      assert o.after.rsvps == s.rsvps + [o.after.rsvps[|s.rsvps|]];
    } else {
      RefusalWritesNoReservation(s, req, env);
    }
  }

  /** Appending one reservation, confirmed only below the seat limit, keeps every drop within capacity. */
  lemma AppendKeepsCapacity(rsvps: seq<Rsvp>, drops: seq<Drop>, drops': seq<Drop>, row: Rsvp, drop: Drop)
    requires UniqueDropIds(drops) && SameDropShape(drops, drops')
    requires forall d :: d in drops ==> ConfirmedCount(rsvps, d.id) <= d.seatLimit
    requires drop in drops && row.dropId == drop.id
    requires row.status == Confirmed ==> ConfirmedCount(rsvps, drop.id) < drop.seatLimit
    ensures UniqueDropIds(drops')
    ensures forall d :: d in drops' ==> ConfirmedCount(rsvps + [row], d.id) <= d.seatLimit
  {
    forall d | d in drops' ensures ConfirmedCount(rsvps + [row], d.id) <= d.seatLimit {
      var i :| 0 <= i < |drops'| && drops'[i] == d;
      var p := (r: Rsvp) => r.dropId == d.id && r.status == Confirmed;
      FilterAppend(rsvps, row, p);
      assert drops[i] in drops;
      if p(row) {
        var k :| 0 <= k < |drops| && drops[k] == drop;
        assert k == i;
      }
    }
  }

  /**
   * When a capacity count fails its `null` counts as 0, so a drop with seats
   * that is already full gets one more confirmed guest than it has seats.
   */
  lemma CountFailureOverbooks(s: Tables, req: Request, env: Env)
    requires |env.draws| == 8 && env.countFails
    requires Admit(s, req, env).reply.Placed?
    requires var drop := AnnouncedDrop(s.drops, req.dropSlug).value;
      0 < drop.seatLimit <= ConfirmedCount(s.rsvps, drop.id)
    ensures var drop := AnnouncedDrop(s.drops, req.dropSlug).value;
      && Admit(s, req, env).reply.status == Confirmed
      && ConfirmedCount(Admit(s, req, env).after.rsvps, drop.id) == ConfirmedCount(s.rsvps, drop.id) + 1 > drop.seatLimit
  {
    PlacementEffects(s, req, env);
    var o := Admit(s, req, env);
    var drop := AnnouncedDrop(s.drops, req.dropSlug).value;
    var row := o.after.rsvps[|s.rsvps|];
    assert o.after.rsvps == s.rsvps + [row];
    FilterAppend(s.rsvps, row, (r: Rsvp) => r.dropId == drop.id && r.status == Confirmed);
  }

  /** Every capacity count of the sequence succeeds. */
  predicate CountsSucceed(steps: seq<Step>) {
    forall i :: 0 <= i < |steps| ==> !steps[i].env.countFails
  }

  /** Every `sold_out` update of the sequence succeeds. */
  predicate SoldOutUpdatesSucceed(steps: seq<Step>) {
    forall i :: 0 <= i < |steps| ==> !steps[i].env.soldOutUpdateFails
  }

  /** Under sequential requests whose capacity counts succeed, the confirmed count of a drop never exceeds its seat limit. */
  lemma {:induction false} RunKeepsCapacity(s: Tables, steps: seq<Step>)
    requires Drawn(steps) && CountsSucceed(steps)
    requires UniqueDropIds(s.drops) && WithinCapacity(s)
    ensures WithinCapacity(Run(s, steps))
    decreases |steps|
  {
    if steps != [] {
      AdmitKeepsCapacity(s, steps[0].req, steps[0].env);
      RunKeepsCapacity(Admit(s, steps[0].req, steps[0].env).after, steps[1..]);
    }
  }

  /** No row of drop `x` is announced. */
  predicate Closed(drops: seq<Drop>, x: Id) {
    forall d :: d in drops && d.id == x ==> d.status != Announced
  }

  /**
   * One request adds at most one waitlist reservation for drop `x`, only while
   * `x` is announced, and, when its `sold_out` update succeeds, closes `x`;
   * a closed drop stays closed.
   */
  lemma AdmitWaitlistStep(s: Tables, req: Request, env: Env, x: Id)
    requires |env.draws| == 8 && !env.soldOutUpdateFails
    ensures var t := Admit(s, req, env).after;
            && (WaitlistCount(t.rsvps, x) == WaitlistCount(s.rsvps, x)
                || (WaitlistCount(t.rsvps, x) == WaitlistCount(s.rsvps, x) + 1 && !Closed(s.drops, x) && Closed(t.drops, x)))
            && (Closed(s.drops, x) ==> Closed(t.drops, x))
  {
    var o := Admit(s, req, env);
    if o.reply.Placed? {
      PlacementEffects(s, req, env);
      var drop := AnnouncedDrop(s.drops, req.dropSlug).value;
      var row := o.after.rsvps[|s.rsvps|];
      assert o.after.rsvps == s.rsvps + [row];
      PlacedWaitlistStep(s.rsvps, s.drops, o.after.drops, row, drop, x);
    } else {
      RefusalWritesNoReservation(s, req, env);
    }
  }

  /** The placement step of `AdmitWaitlistStep`, on the rows alone. */
  lemma PlacedWaitlistStep(rsvps: seq<Rsvp>, drops: seq<Drop>, drops': seq<Drop>, row: Rsvp, drop: Drop, x: Id)
    requires drop in drops && drop.status == Announced && row.dropId == drop.id
    requires |drops'| == |drops|
    requires forall i :: 0 <= i < |drops| ==>
      drops'[i] == if drops[i].id == drop.id && row.status == Waitlist then drops[i].(status := SoldOut) else drops[i]
    ensures || WaitlistCount(rsvps + [row], x) == WaitlistCount(rsvps, x)
            || (WaitlistCount(rsvps + [row], x) == WaitlistCount(rsvps, x) + 1 && !Closed(drops, x) && Closed(drops', x))
    ensures Closed(drops, x) ==> Closed(drops', x)
  {
    var p := (r: Rsvp) => r.dropId == x && r.status == Waitlist;
    FilterAppend(rsvps, row, p);
    forall d | d in drops' && d.id == x && Closed(drops, x)
      ensures d.status != Announced
    {
      var i :| 0 <= i < |drops'| && drops'[i] == d;
      assert drops[i] in drops;
    }
    if p(row) {
      forall d | d in drops' && d.id == x
        ensures d.status != Announced
      {
        var i :| 0 <= i < |drops'| && drops'[i] == d;
      }
    }
  }

  lemma {:induction false} RunWaitlistBound(s: Tables, steps: seq<Step>, x: Id, base: nat)
    requires Drawn(steps) && SoldOutUpdatesSucceed(steps)
    requires WaitlistCount(s.rsvps, x) == base || (WaitlistCount(s.rsvps, x) == base + 1 && Closed(s.drops, x))
    ensures var t := Run(s, steps);
      WaitlistCount(t.rsvps, x) == base || (WaitlistCount(t.rsvps, x) == base + 1 && Closed(t.drops, x))
    decreases |steps|
  {
    if steps != [] {
      AdmitWaitlistStep(s, steps[0].req, steps[0].env, x);
      RunWaitlistBound(Admit(s, steps[0].req, steps[0].env).after, steps[1..], x, base);
    }
  }

  /** Under sequential requests whose `sold_out` updates succeed, this endpoint places at most one waitlist reservation per drop. */
  lemma AtMostOneWaitlistPlacement(s: Tables, steps: seq<Step>, x: Id)
    requires Drawn(steps) && SoldOutUpdatesSucceed(steps)
    ensures WaitlistCount(Run(s, steps).rsvps, x) <= WaitlistCount(s.rsvps, x) + 1
  {
    RunWaitlistBound(s, steps, x, WaitlistCount(s.rsvps, x));
  }
}

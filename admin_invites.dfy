/**
 * The admin invite-code page (app/admin/invites/page.tsx): creating a code
 * (`CLUB-` and six base-36 characters, uppercased), switching a code on or
 * off, deleting one after the admin confirms, and the summary figures.
 *
 * The page state (fetched codes, the create form, the modal flag and the
 * last alert) is the `Page` class; its methods write `invite_codes` through
 * the `Database` and refetch.
 */
module AdminInvites {
  import opened Wrappers
  import opened JsText
  import opened Seqs
  import opened Schema
  import opened Sorting
  import ValidateInvite

  const CodePrefix: string := "CLUB-"
  const DayMs: int := 24 * 60 * 60 * 1000

  /**
   * `'CLUB-' + Math.random().toString(36).substring(2, 8).toUpperCase()`, with
   * the base-36 text of the random number (`0.` and its digits) as input.
   */
  function NewCodeText(randomText: string): (code: string)
    ensures StartsWith(code, CodePrefix)
    ensures HasNoLower(code[|CodePrefix|..])
    ensures |CodePrefix| <= |code| <= |CodePrefix| + 6
  {
    var body := Upper(Substring(randomText, 2, 8));
    UpperIdempotent(Substring(randomText, 2, 8));
    assert (CodePrefix + body)[|CodePrefix|..] == body;
    CodePrefix + body
  }

  /** `expiresIn` days from now, or no expiry when `expiresIn <= 0`. */
  function ExpiryOf(now: int, expiresIn: int): Option<int> {
    if expiresIn > 0 then Some(now + expiresIn * DayMs) else None
  }

  /** The inserted row: active, no owner, no uses yet, `created_at` the insert time. */
  function NewRow(id: Id, code: string, maxUses: int, source: Source, expiresAt: Option<int>, now: int): InviteCode {
    InviteCode(id, code, None, maxUses, 0, source, true, expiresAt, now)
  }

  /** `fetchCodes`: every row, newest `created_at` first. */
  function Listing(codes: seq<InviteCode>): (r: seq<InviteCode>)
    ensures SortedDesc(r, (c: InviteCode) => c.createdAt)
    ensures multiset(r) == multiset(codes)
  {
    SortDesc(codes, (c: InviteCode) => c.createdAt)
  }

  /** The `code` column is unique: an insert of a code already present fails. */
  predicate CodeTaken(codes: seq<InviteCode>, code: string) {
    exists c | c in codes :: c.code == code
  }

  /** `.update({active}).eq('id', codeId)`. */
  function SetActive(codes: seq<InviteCode>, codeId: Id, active: bool): (r: seq<InviteCode>)
    ensures |r| == |codes|
    ensures forall i :: 0 <= i < |codes| ==>
      r[i] == if codes[i].id == codeId then codes[i].(active := active) else codes[i]
  {
    seq(|codes|, i requires 0 <= i < |codes| =>
      if codes[i].id == codeId then codes[i].(active := active) else codes[i])
  }

  /** `.delete().eq('id', codeId)`. */
  function Remove(codes: seq<InviteCode>, codeId: Id): (r: seq<InviteCode>)
    ensures forall c :: c in r <==> c in codes && c.id != codeId
    ensures Subsequence(r, codes)
  {
    FilterIsSubsequence(codes, (c: InviteCode) => c.id != codeId);
    Filter(codes, (c: InviteCode) => c.id != codeId)
  }

  /** `avgUsage`: the literal `'0'` without codes, otherwise a percentage (floating point, not modelled). */
  datatype AvgUsage = ZeroText | Averaged

  datatype Stats = Stats(total: nat, active: nat, totalUses: int, avgUsage: AvgUsage)

  function StatsOf(codes: seq<InviteCode>): Stats {
    Stats(
      |codes|,
      Count(codes, (c: InviteCode) => c.active),
      Sum(codes, (c: InviteCode) => c.currentUses),
      if |codes| > 0 then Averaged else ZeroText)
  }

  class Page {
    var codes: seq<InviteCode>
    var showCreateModal: bool
    var maxUses: int
    var source: Source
    var expiresIn: int
    var alert: Option<string>

    constructor ()
      ensures codes == [] && !showCreateModal && alert == None
      ensures maxUses == 3 && source == Admin && expiresIn == 0
    {
      codes, showCreateModal, alert := [], false, None;
      maxUses, source, expiresIn := 3, Admin, 0;
    }

    /**
     * `createNewCode`: insert, refetch, close the modal and reset the form; a
     * refused insert (a taken code or a database error) raises an alert with
     * the database's message and changes nothing else.
     */
    method CreateNewCode(db: Database, randomText: string, now: int, insertFails: bool, errorMessage: string,
                         fetchFails: bool)
      modifies this, db
      ensures var code := NewCodeText(randomText);
        if insertFails || CodeTaken(old(db.inviteCodes), code) then
          && db.State() == old(db.State())
          && alert == Some("Error: " + errorMessage)
          && codes == old(codes) && showCreateModal == old(showCreateModal)
          && maxUses == old(maxUses) && source == old(source) && expiresIn == old(expiresIn)
        else
          && db.State() == old(db.State()).(
               inviteCodes := old(db.inviteCodes) +
                 [NewRow(old(db.nextId), code, old(maxUses), old(source), ExpiryOf(now, old(expiresIn)), now)],
               nextId := old(db.nextId) + 1)
          && codes == (if fetchFails then old(codes) else Listing(db.inviteCodes))
          && !showCreateModal && alert == old(alert)
          && maxUses == 3 && source == Admin && expiresIn == 0
    {
      var randomCode := NewCodeText(randomText);
      var expiresAt := ExpiryOf(now, expiresIn);
      if insertFails || CodeTaken(db.inviteCodes, randomCode) {
        alert := Some("Error: " + errorMessage);
        return;
      }
      db.inviteCodes := db.inviteCodes + [NewRow(db.nextId, randomCode, maxUses, source, expiresAt, now)];
      db.nextId := db.nextId + 1;
      FetchCodes(db, fetchFails);
      showCreateModal := false;
      maxUses, source, expiresIn := 3, Admin, 0;
    }

    /** `toggleCodeActive`: writes the negation of the flag the page showed, then refetches. */
    method ToggleCodeActive(db: Database, codeId: Id, currentActive: bool, fails: bool, fetchFails: bool)
      modifies this, db
      ensures fails ==> db.State() == old(db.State()) && codes == old(codes)
      ensures !fails ==>
        && db.State() == old(db.State()).(inviteCodes := SetActive(old(db.inviteCodes), codeId, !currentActive))
        && codes == (if fetchFails then old(codes) else Listing(db.inviteCodes))
      ensures showCreateModal == old(showCreateModal) && alert == old(alert)
      ensures maxUses == old(maxUses) && source == old(source) && expiresIn == old(expiresIn)
    {
      if fails {
        return;
      }
      db.inviteCodes := SetActive(db.inviteCodes, codeId, !currentActive);
      FetchCodes(db, fetchFails);
    }

    /** `deleteCode`: nothing unless the admin confirms; then the delete and a refetch. */
    method DeleteCode(db: Database, codeId: Id, confirmed: bool, fails: bool, fetchFails: bool)
      modifies this, db
      ensures !confirmed || fails ==> db.State() == old(db.State()) && codes == old(codes)
      ensures confirmed && !fails ==>
        && db.State() == old(db.State()).(inviteCodes := Remove(old(db.inviteCodes), codeId))
        && codes == (if fetchFails then old(codes) else Listing(db.inviteCodes))
      ensures showCreateModal == old(showCreateModal) && alert == old(alert)
      ensures maxUses == old(maxUses) && source == old(source) && expiresIn == old(expiresIn)
    {
      if !confirmed {
        return;
      }
      if fails {
        return;
      }
      db.inviteCodes := Remove(db.inviteCodes, codeId);
      FetchCodes(db, fetchFails);
    }

    /** `fetchCodes`: the listing replaces the shown codes; a failed query is only logged, so they stay. */
    method FetchCodes(db: Database, fails: bool)
      modifies this
      ensures codes == if fails then old(codes) else Listing(db.inviteCodes)
      ensures showCreateModal == old(showCreateModal) && alert == old(alert)
      ensures maxUses == old(maxUses) && source == old(source) && expiresIn == old(expiresIn)
    {
      if !fails {
        codes := Listing(db.inviteCodes);
      }
    }
  }

  // ------------------------------------------------------------ properties

  /** No expiry for `expiresIn <= 0`; otherwise exactly `expiresIn` whole days after now. */
  lemma ExpiryArithmetic(now: int, expiresIn: int)
    ensures ExpiryOf(now, expiresIn).None? <==> expiresIn <= 0
    ensures expiresIn > 0 ==>
      && ExpiryOf(now, expiresIn).value > now
      && (ExpiryOf(now, expiresIn).value - now) % 86400000 == 0
      && (ExpiryOf(now, expiresIn).value - now) / 86400000 == expiresIn
  {
  }

  /** A generated code can never be the bypass literal: it has at most eleven characters. */
  lemma NewCodeNeverBypass(randomText: string)
    ensures Upper(NewCodeText(randomText)) != ValidateInvite.BypassCode
  {
  }

  /**
   * A code just created with uses to give is accepted by the validator until
   * its expiry, given the uppercased form of the code names no other row.
   */
  lemma CreatedCodeValidates(codes: seq<InviteCode>, id: Id, randomText: string, maxUses: int, source: Source,
                             created: int, expiresIn: int, now: int)
    requires maxUses > 0
    requires !CodeTaken(codes, NewCodeText(randomText))
    requires expiresIn > 0 ==> now <= created + expiresIn * DayMs
    ensures var code := NewCodeText(randomText);
            var after := codes + [NewRow(id, code, maxUses, source, ExpiryOf(created, expiresIn), created)];
            ValidateInvite.Validate(after, code, now) == ValidateInvite.Accepted(code, None)
  {
    var code := NewCodeText(randomText);
    var row := NewRow(id, code, maxUses, source, ExpiryOf(created, expiresIn), created);
    OnlyNewRowMatches(codes, row);
    UpperFixesHasNoLower(code);
    NewCodeNeverBypass(randomText);
    assert !Expired(row, now);
  }

  /** Appending an active row whose code no existing row carries makes it the one active match. */
  lemma OnlyNewRowMatches(codes: seq<InviteCode>, row: InviteCode)
    requires row.active && !CodeTaken(codes, row.code)
    ensures ActiveCode(codes + [row], row.code) == Some(row)
  {
    var p := (c: InviteCode) => c.code == row.code && c.active;
    forall i | 0 <= i < |codes| ensures !p(codes[i]) {
      assert codes[i] in codes;
    }
    FilterNone(codes, p);
    FilterAppend(codes, row, p);
  }

  /** A code created after every other row is listed first once the page refetches. */
  lemma NewCodeListedFirst(codes: seq<InviteCode>, row: InviteCode)
    requires forall c | c in codes :: c.createdAt < row.createdAt
    ensures Listing(codes + [row])[0] == row
  {
    var r := Listing(codes + [row]);
    assert row in multiset(codes + [row]);
    assert row in multiset(r);
    var j :| 0 <= j < |r| && r[j] == row;
    var first := r[0];
    if j > 0 {
      assert first.createdAt >= row.createdAt;
    }
    assert first in multiset(codes + [row]);
    assert first == row || first in codes;
  }

  /** Toggling changes the flag of the targeted code only. */
  lemma ToggleTargetsOneCode(codes: seq<InviteCode>, codeId: Id, active: bool, i: int)
    requires 0 <= i < |codes|
    ensures var r := SetActive(codes, codeId, active)[i];
      && r.(active := codes[i].active) == codes[i]
      && (codes[i].id == codeId ==> r.active == active)
      && (codes[i].id != codeId ==> r == codes[i])
  {
  }

  /** A code switched off is refused by the validator as unknown, given no other row carries the same text. */
  lemma DeactivatedCodeRejected(codes: seq<InviteCode>, codeId: Id, input: string, now: int)
    requires |input| >= 4 && Upper(input) != ValidateInvite.BypassCode
    requires forall c :: c in codes && c.code == Upper(input) ==> c.id == codeId
    ensures ValidateInvite.Validate(SetActive(codes, codeId, false), input, now)
         == ValidateInvite.Rejected(400, ValidateInvite.NotFoundError)
  {
    var after := SetActive(codes, codeId, false);
    forall c | c in after && c.code == Upper(input) ensures !c.active {
      var i :| 0 <= i < |after| && after[i] == c;
      assert codes[i] in codes;
    }
    ValidateInvite.InactiveCodeRejected(after, input, now);
  }

  /** Deleting removes exactly the rows with that id and keeps the others in order. */
  lemma DeleteRemovesOnlyTarget(codes: seq<InviteCode>, codeId: Id)
    ensures forall c :: c in Remove(codes, codeId) <==> c in codes && c.id != codeId
    ensures Subsequence(Remove(codes, codeId), codes)
    ensures (forall c | c in codes :: c.id != codeId) ==> Remove(codes, codeId) == codes
  {
    if forall c | c in codes :: c.id != codeId {
      FilterAll(codes, (c: InviteCode) => c.id != codeId);
    }
  }

  /**
   * The summary: no more active codes than codes, the total uses is the sum of
   * the use counts and stays within the sum of the caps when each code keeps
   * to its cap, and `'0'` is shown exactly when there are no codes.
   */
  lemma StatsBounds(codes: seq<InviteCode>)
    ensures StatsOf(codes).active <= StatsOf(codes).total == |codes|
    ensures (StatsOf(codes).avgUsage == ZeroText) <==> codes == []
    ensures (forall c | c in codes :: 0 <= c.currentUses) ==> StatsOf(codes).totalUses >= 0
    ensures (forall c | c in codes :: c.currentUses <= c.maxUses) ==>
      StatsOf(codes).totalUses <= Sum(codes, (c: InviteCode) => c.maxUses)
  {
    if forall c | c in codes :: 0 <= c.currentUses {
      SumNonNegative(codes, (c: InviteCode) => c.currentUses);
    }
    if forall c | c in codes :: c.currentUses <= c.maxUses {
      SumMono(codes, (c: InviteCode) => c.currentUses, (c: InviteCode) => c.maxUses);
    }
  }
}

/**
 * `POST /api/validate-invite` (app/api/validate-invite/route.ts): a read-only
 * chain of guards over the `invite_codes` table.  The route never writes, so
 * it is a function of the table, the submitted code and the clock.
 */
module ValidateInvite {
  import opened Wrappers
  import opened JsText
  import opened Schema

  /** The hard-coded itinerary code and where it sends its holder. */
  const BypassCode: string := "CLUB-ALISHBA"
  const BypassRedirect: string := "/austin-alishba"

  /** The JSON reply: `{valid: true, code, redirectTo?}` or `{error}` with an HTTP status. */
  datatype Reply = Accepted(code: string, redirectTo: Option<string>) | Rejected(status: int, error: string)

  const FormatError: string := "Invalid code format"
  const NotFoundError: string := "Invalid or expired invite code"
  const ExhaustedError: string := "This code has reached its usage limit"
  const ExpiredError: string := "This code has expired"

  /**
   * The acceptance rule: a code of at least four characters is accepted exactly
   * when it is the bypass code (in any case) or its uppercase form names exactly
   * one active row that is usable; the reply then carries that row's stored
   * code, which is the uppercase form.  Every refusal is a 400.
   */
  function Validate(codes: seq<InviteCode>, code: string, now: int): (r: Reply)
    ensures r.Rejected? ==> r.status == 400
    ensures r.Accepted? <==>
      |code| >= 4 &&
      (Upper(code) == BypassCode ||
       (ActiveCode(codes, Upper(code)).Some? && Usable(ActiveCode(codes, Upper(code)).value, now)))
    ensures r.Accepted? && Upper(code) != BypassCode ==> r == Accepted(Upper(code), None)
  {
    if |code| < 4 then Rejected(400, FormatError)
    else
      var upper := Upper(code);
      if upper == BypassCode then Accepted(upper, Some(BypassRedirect))
      else match ActiveCode(codes, upper)
        case None => Rejected(400, NotFoundError)
        case Some(row) =>
          if row.currentUses >= row.maxUses then Rejected(400, ExhaustedError)
          else if Expired(row, now) then Rejected(400, ExpiredError)
          else Accepted(row.code, None)
  }

  /** An accepted code other than the bypass code is a usable row of the table. */
  lemma AcceptedCodeIsInTable(codes: seq<InviteCode>, code: string, now: int)
    ensures Validate(codes, code, now).Accepted? && Upper(code) != BypassCode ==>
      exists row :: row in codes && row.code == Upper(code) && Usable(row, now)
  {
  }

  /** Codes shorter than four characters (the missing code included) are refused before any lookup. */
  lemma ShortCodeRejected(codes: seq<InviteCode>, code: string, now: int)
    requires |code| < 4
    ensures Validate(codes, code, now) == Rejected(400, FormatError)
    ensures forall other: seq<InviteCode> :: Validate(other, code, now) == Validate(codes, code, now)
  {
  }

  /** Only the uppercase form of the code matters. */
  lemma ValidateIgnoresCase(codes: seq<InviteCode>, c1: string, c2: string, now: int)
    requires Upper(c1) == Upper(c2)
    ensures Validate(codes, c1, now) == Validate(codes, c2, now)
  {
  }

  /** The bypass code is accepted, with its redirect, whatever the table holds. */
  lemma BypassAlwaysAccepted(codes: seq<InviteCode>, code: string, now: int)
    requires Upper(code) == BypassCode
    ensures Validate(codes, code, now) == Accepted(BypassCode, Some(BypassRedirect))
  {
  }

  /** When several checks fail, the first in the order not-found, exhausted, expired is reported. */
  lemma ErrorPrecedence(codes: seq<InviteCode>, code: string, now: int)
    requires |code| >= 4 && Upper(code) != BypassCode
    ensures |ActiveMatches(codes, Upper(code))| != 1 ==>
      Validate(codes, code, now) == Rejected(400, NotFoundError)
    ensures ActiveCode(codes, Upper(code)).Some? ==>
      var row := ActiveCode(codes, Upper(code)).value;
      (row.currentUses >= row.maxUses ==> Validate(codes, code, now) == Rejected(400, ExhaustedError)) &&
      (row.currentUses < row.maxUses && Expired(row, now) ==>
         Validate(codes, code, now) == Rejected(400, ExpiredError))
  {
  }

  /** A code whose only rows are inactive is refused as unknown. */
  lemma InactiveCodeRejected(codes: seq<InviteCode>, code: string, now: int)
    requires |code| >= 4 && Upper(code) != BypassCode
    requires forall c :: c in codes && c.code == Upper(code) ==> !c.active
    ensures Validate(codes, code, now) == Rejected(400, NotFoundError)
  {
  }

  /** A code expiring exactly at the moment of the request is still accepted. */
  lemma ExpiryBoundary(codes: seq<InviteCode>, code: string, row: InviteCode, now: int)
    requires |code| >= 4 && Upper(code) != BypassCode
    requires ActiveCode(codes, Upper(code)) == Some(row)
    requires row.currentUses < row.maxUses && row.expiresAt == Some(now)
    ensures Validate(codes, code, now) == Accepted(row.code, None)
  {
  }
}

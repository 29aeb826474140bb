/**
 * The guest's ticket page (app/my-ticket/page.tsx): a confirmation code from
 * the URL, the browser's stored code or the input box is looked up; a found
 * reservation is shown with the payload its QR image encodes, and its code is
 * remembered in local storage.
 */
module MyTicket {
  import opened Wrappers
  import opened JsText
  import opened Seqs
  import opened Schema
  import opened Sorting
  import Qr
  import CheckinPage

  const InvalidCode: string := "Invalid confirmation code. Please check and try again."
  const LookupTrouble: string := "Something went wrong. Please try again."
  /** Codes shorter than this are not looked up. */
  const MinLength: nat := 6
  /** The input box's `maxLength`. */
  const InputMaxLength: nat := 8

  /** The reservation with its `drops (*)` and `profiles (*)` joins. */
  datatype Ticket = Ticket(rsvp: Rsvp, profile: Option<Profile>, drop: Option<Drop>)

  /** The reservations carrying exactly `key`. */
  function WithCode(rsvps: seq<Rsvp>, key: string): (r: seq<Rsvp>)
    ensures forall x :: x in r <==> x in rsvps && x.confirmationCode == key
  {
    Filter(rsvps, (x: Rsvp) => x.confirmationCode == key)
  }

  /** `.eq('confirmation_code', key).single()`: the ticket when exactly one reservation carries `key`. */
  function FindTicket(t: Tables, key: string): (r: Option<Ticket>)
    ensures r.Some? <==> |WithCode(t.rsvps, key)| == 1
    ensures r.Some? ==> r.value.rsvp in t.rsvps && r.value.rsvp.confirmationCode == key
  {
    match OneRow(WithCode(t.rsvps, key))
    case None => None
    case Some(x) =>
      assert x in WithCode(t.rsvps, key);
      Some(Ticket(x, CheckinPage.ProfileById(t.profiles, x.userId), CheckinPage.DropById(t.drops, x.dropId)))
  }

  /**
   * `JSON.stringify({code, id, name: profiles?.name, drop: drops?.slug})`; a
   * missing join is `undefined`, and its key is left out.
   */
  function TicketPayload(code: string, tk: Ticket): (p: Payload)
    ensures p.Keys <= {"code", "id", "name", "drop"}
  {
    map["code" := Str(code), "id" := Uuid(tk.rsvp.id)]
    + (if tk.profile.Some? then map["name" := Str(tk.profile.value.name)] else map[])
    + (if tk.drop.Some? then map["drop" := Str(tk.drop.value.slug)] else map[])
  }

  /** The page state: the input, the error line, the shown ticket, its QR payload and the stored code. */
  datatype View = View(code: string, error: string, ticket: Option<Ticket>, qr: Option<Payload>, stored: Option<string>)

  /**
   * `lookupTicket(c)`.  A failure to render the QR image (`qrFails`) lands in
   * the `catch`, after the ticket is shown and the code stored.
   */
  function Looked(v: View, t: Tables, c: string, qrFails: bool): View {
    if c == "" || |c| < MinLength then v
    else match FindTicket(t, Upper(c))
      case None => v.(error := InvalidCode, ticket := None)
      case Some(tk) =>
        if qrFails then v.(error := LookupTrouble, ticket := Some(tk), stored := Some(Upper(c)))
        else v.(error := "", ticket := Some(tk), stored := Some(Upper(c)), qr := Some(TicketPayload(Upper(c), tk)))
  }

  /** The code the page loads with: the URL's `code` when it is non-empty, else the stored one. */
  function StartCode(urlCode: string, stored: Option<string>): (r: Option<string>)
    ensures urlCode != "" ==> r == Some(urlCode)
    ensures urlCode == "" ==> r == (if stored.Some? && stored.value != "" then stored else None)
  {
    if Truthy(urlCode) then Some(urlCode)
    else if stored.Some? && Truthy(stored.value) then stored
    else None
  }

  /** What the input box holds after typing `value`: at most eight characters, uppercased. */
  function Typed(value: string): (r: string)
    ensures |r| <= InputMaxLength && HasNoLower(r)
  {
    UpperIdempotent(Take(value, InputMaxLength));
    Upper(Take(value, InputMaxLength))
  }

  class TicketPage {
    var code: string
    var error: string
    var ticket: Option<Ticket>
    var qr: Option<Payload>
    /** The `club25_confirmation_code` entry of local storage. */
    var stored: Option<string>

    function State(): View
      reads this
    {
      View(code, error, ticket, qr, stored)
    }

    /** A fresh page in a browser whose local storage holds `stored`. */
    constructor (stored: Option<string>)
      ensures State() == View("", "", None, None, stored)
    {
      code := "";
      error := "";
      ticket := None;
      qr := None;
      this.stored := stored;
    }

    method LookupTicket(t: Tables, c: string, qrFails: bool)
      modifies this
      ensures State() == Looked(old(State()), t, c, qrFails)
    {
      if c == "" || |c| < MinLength {
        return;
      }
      error := "";
      var found := FindTicket(t, Upper(c));
      if found.None? {
        error := InvalidCode;
        ticket := None;
        return;
      }
      ticket := found;
      stored := Some(Upper(c));
      if qrFails {
        error := LookupTrouble;
      } else {
        qr := Some(TicketPayload(Upper(c), found.value));
      }
    }

    /** The mount effect: the URL code, else the stored code, fills the box and is looked up. */
    method Mount(t: Tables, urlCode: string, qrFails: bool)
      modifies this
      ensures var start := StartCode(urlCode, old(stored));
        State() == if start.None? then old(State()) else Looked(old(State()).(code := start.value), t, start.value, qrFails)
    {
      var start := StartCode(urlCode, stored);
      if start.Some? {
        code := start.value;
        LookupTicket(t, start.value, qrFails);
      }
    }

    /** The input's `onChange`, with the browser's `maxLength`. */
    method Type(value: string)
      modifies this
      ensures State() == old(State()).(code := Typed(value))
    {
      code := Typed(value);
    }

    /** `handleSubmit`: looks up what the box holds. */
    method Submit(t: Tables, qrFails: bool)
      modifies this
      ensures State() == Looked(old(State()), t, old(code), qrFails)
    {
      LookupTicket(t, code, qrFails);
    }

    /** "View Different Ticket": the ticket, the box and the stored code are cleared. */
    method ViewDifferent()
      modifies this
      ensures State() == old(State()).(ticket := None, code := "", stored := None)
    {
      ticket := None;
      code := "";
      stored := None;
    }
  }

  // ------------------------------------------------------------ properties

  /** An empty code, or one shorter than six characters, changes nothing. */
  lemma ShortCodeNoLookup(v: View, t: Tables, c: string, qrFails: bool)
    requires |c| < MinLength
    ensures Looked(v, t, c, qrFails) == v
  {
  }

  /**
   * The lookup ignores case: the key and the stored code are the uppercased
   * input, and a shown ticket carries exactly that code.
   */
  lemma LookupUppercases(v: View, t: Tables, c: string, qrFails: bool)
    ensures Looked(v, t, c, qrFails) == Looked(v, t, Upper(c), qrFails)
    ensures var w := Looked(v, t, c, qrFails);
      w.stored == v.stored || w.stored == Some(Upper(c))
    ensures var w := Looked(v, t, c, qrFails);
      w.ticket != v.ticket && w.ticket.Some? ==> w.ticket.value.rsvp.confirmationCode == Upper(c) && w.ticket.value.rsvp in t.rsvps
  {
    UpperIdempotent(c);
  }

  /** A code that finds no single reservation clears the ticket and shows the error, leaving the stored code. */
  lemma FailedLookupClears(v: View, t: Tables, c: string, qrFails: bool)
    requires |c| >= MinLength
    requires |WithCode(t.rsvps, Upper(c))| != 1
    ensures var w := Looked(v, t, c, qrFails);
      w.ticket.None? && w.error == InvalidCode && w.stored == v.stored && w.qr == v.qr
  {
  }

  /** A found ticket is stored and shown with its payload, which names the reservation by id. */
  lemma FoundTicketStored(v: View, t: Tables, c: string)
    requires |c| >= MinLength
    requires |WithCode(t.rsvps, Upper(c))| == 1
    ensures var w := Looked(v, t, c, false);
      && w.stored == Some(Upper(c)) && w.error == "" && w.ticket.Some? && w.qr.Some?
      && w.qr.value["code"] == Str(Upper(c))
      && w.qr.value["id"] == Uuid(w.ticket.value.rsvp.id)
  {
  }

  /** A code in the URL wins over the stored one. */
  lemma UrlCodeWins(urlCode: string, stored: Option<string>)
    requires urlCode != ""
    ensures StartCode(urlCode, stored) == Some(urlCode)
  {
  }

  /**
   * The box holds at most eight characters and every generated code has
   * thirteen, so a typed code never finds a reservation whose code was
   * generated: only the URL or the stored code can load a real ticket.
   */
  lemma TypedCodeNeverFindsGenerated(t: Tables, value: string)
    requires forall x | x in t.rsvps :: Qr.WellFormed(x.confirmationCode)
    ensures FindTicket(t, Upper(Typed(value))) == None
  {
    var key := Upper(Typed(value));
    forall i | 0 <= i < |t.rsvps| ensures t.rsvps[i].confirmationCode != key {
      assert t.rsvps[i] in t.rsvps;
      assert |t.rsvps[i].confirmationCode| == 13 > |key|;
    }
    FilterNone(t.rsvps, (x: Rsvp) => x.confirmationCode == key);
  }

  /** The ticket's QR payload has no `type` and no ids of guest and drop, so the door scanner rejects it. */
  lemma TicketPayloadRejected(code: string, tk: Ticket)
    ensures !CheckinPage.FormatOk(TicketPayload(code, tk))
  {
    assert "type" !in TicketPayload(code, tk);
  }
}

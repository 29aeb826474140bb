/**
 * The four transactional mails (lib/email.ts).  A mail is modelled as its
 * sender, recipient, subject, preheader and the sequence of template blocks
 * its body interpolates (badge, heading, lines naming the guest or the date,
 * code box, info box, buttons with their links, quotes, divider); the fixed
 * copy and the HTML around them are left out, and so is the send itself.
 */
module Email {
  import opened Wrappers
  import opened JsText
  import opened Schema
  import opened Sorting
  import opened Seqs
  import AdminNewDrop

  const DefaultFrom: string := "Club25 <hello@club25.co>"
  const DefaultAppUrl: string := "http://localhost:3000"
  const TicketPath: string := "/my-ticket?code="

  /** `process.env.EMAIL_FROM` and `process.env.NEXT_PUBLIC_APP_URL`, `None` when unset. */
  datatype Config = Config(emailFrom: Option<string>, appUrl: Option<string>)

  function FromEmail(cfg: Config): string { OrElse(cfg.emailFrom, DefaultFrom) }

  function AppUrl(cfg: Config): string { OrElse(cfg.appUrl, DefaultAppUrl) }

  /** The ticket link every mail about a reservation carries. */
  function TicketUrl(cfg: Config, code: string): string {
    AppUrl(cfg) + TicketPath + code
  }

  datatype Block =
    | Badge(status: RsvpStatus)
    | Heading(text: string)
    | Line(text: string)
    | CodeBox(code: string)
    | Info(title: string)
    | Button(caption: string, url: string)
    | SecondaryButton(caption: string, url: string)
    | Quote(text: string)
    | Divider

  datatype Mail = Mail(from: string, to: string, subject: string, preheader: string, body: seq<Block>)

  /** Some button of the body links to `url`. */
  predicate Links(body: seq<Block>, url: string) {
    exists b | b in body :: (b.Button? || b.SecondaryButton?) && b.url == url
  }

  /** `sendRSVPConfirmation`; the route only sends it for a confirmed or waitlisted placement. */
  function ConfirmationMail(cfg: Config, to: string, name: string, dropTitle: string, dropDate: string,
                            status: RsvpStatus, code: string): Mail
    requires status != RsvpStatus.Cancelled
  {
    var isConfirmed := status == Confirmed;
    var subject := if isConfirmed then "\U{2713} You're in: " + dropTitle else "On waitlist: " + dropTitle;
    var preheader :=
      if isConfirmed then "Code " + code + " \U{2022} Tap to view your ticket with QR code"
      else "We'll notify you immediately if a seat opens";
    var head := [Badge(status), Heading(dropTitle), Line(dropDate)];
    var body :=
      if isConfirmed then
        head + [Line(name + ", your seat is confirmed."), CodeBox(code), Info("Your QR Code is Ready"),
                Button("View Ticket & QR Code", TicketUrl(cfg, code)), Divider]
      else
        head + [Line(name + ", we're at capacity right now."), CodeBox(code), Info("You&rsquo;re on the list")];
    Mail(FromEmail(cfg), to, subject, preheader, body)
  }

  /** `sendCheckInReminder`. */
  function ReminderMail(cfg: Config, to: string, name: string, dropTitle: string, dropDate: string,
                        dropLocation: string, code: string): Mail
  {
    Mail(FromEmail(cfg), to, "\U{1F303} Tomorrow: " + dropTitle,
         "Location revealed: " + dropLocation + ". Your QR code is ready.",
         [Heading(dropTitle), Line(dropDate), Line("\U{1F4CD} " + dropLocation),
          Line(name + ", it's happening tomorrow."), Button("View QR Code", TicketUrl(cfg, code)), Divider])
  }

  /**
   * `.replace(/\s+/g, '-')`, as one scan from the left: every maximal run of
   * white space becomes one `-`; everything else stays
   * (`ReplaceSpaceRunsKeeps`, `ReplaceSpaceRunsKeepsOrder`, `ReplaceSpaceRunsAppend`).
   */
  function ReplaceSpaceRuns(s: string): string
    decreases |s|
  {
    if s == [] then [] else SpaceStep(ReplaceSpaceRuns(s[..|s| - 1]), s[..|s| - 1], s[|s| - 1])
  }

  /**
   * One more character `c` after the input `before`, whose replacement is
   * `prev`: white space starts a run (one `-`) unless `before` already ends
   * in one.
   */
  function SpaceStep(prev: string, before: string, c: char): string {
    if !IsJsSpace(c) then prev + [c]
    else if |before| > 0 && IsJsSpace(before[|before| - 1]) then prev
    else prev + ['-']
  }

  /** No white space is left, every other character is kept, and a text without white space is unchanged. */
  lemma {:induction false} ReplaceSpaceRunsKeeps(s: string)
    ensures forall i :: 0 <= i < |ReplaceSpaceRuns(s)| ==> !IsJsSpace(ReplaceSpaceRuns(s)[i])
    ensures forall c :: c in s && !IsJsSpace(c) ==> c in ReplaceSpaceRuns(s)
    ensures (forall i :: 0 <= i < |s| ==> !IsJsSpace(s[i])) ==> ReplaceSpaceRuns(s) == s
    decreases |s|
  {
    if s != [] {
      var init := s[..|s| - 1];
      ReplaceSpaceRunsKeeps(init);
      assert s == init + [s[|s| - 1]];
      assert forall i :: 0 <= i < |init| ==> init[i] == s[i];
    }
  }

  /** A character that is neither white space nor a dash: the replacement never adds or drops one. */
  predicate NotSpaceOrDash(c: char) { !IsJsSpace(c) && c != '-' }

  /** The characters other than white space and dashes are kept, in their order. */
  lemma {:induction false} ReplaceSpaceRunsKeepsOrder(s: string)
    ensures Filter(ReplaceSpaceRuns(s), NotSpaceOrDash) == Filter(s, NotSpaceOrDash)
    decreases |s|
  {
    if s != [] {
      var init, c := s[..|s| - 1], s[|s| - 1];
      var prev := ReplaceSpaceRuns(init);
      ReplaceSpaceRunsKeepsOrder(init);
      assert ReplaceSpaceRuns(s) == SpaceStep(prev, init, c);
      FilterAppend(prev, c, NotSpaceOrDash);
      FilterAppend(prev, '-', NotSpaceOrDash);
    }
  }

  /** Only the empty text is replaced by the empty text. */
  lemma {:induction false} ReplaceSpaceRunsNonEmpty(s: string)
    ensures s != [] ==> ReplaceSpaceRuns(s) != []
    decreases |s|
  {
    if |s| > 1 {
      ReplaceSpaceRunsNonEmpty(s[..|s| - 1]);
    }
  }

  /** A step after a join at a seam is the step of the second piece, joined the same way. */
  lemma SpaceStepAfterJoin(ra: string, ri: string, before: string, c: char, seam: bool)
    requires ri != []
    ensures SpaceStep(ri, before, c) != []
    ensures SpaceStep(if seam then ra + ri[1..] else ra + ri, before, c)
      == if seam then ra + SpaceStep(ri, before, c)[1..] else ra + SpaceStep(ri, before, c)
  {
    assert (ri + [c])[1..] == ri[1..] + [c];
    assert (ri + ['-'])[1..] == ri[1..] + ['-'];
  }

  /** Two texts put together: a white-space run straddling the seam still gives one `-`. */
  lemma {:induction false} ReplaceSpaceRunsAppend(a: string, b: string)
    ensures var seam := a != [] && b != [] && IsJsSpace(a[|a| - 1]) && IsJsSpace(b[0]);
      && (seam ==> ReplaceSpaceRuns(b) != [] && ReplaceSpaceRuns(a + b) == ReplaceSpaceRuns(a) + ReplaceSpaceRuns(b)[1..])
      && (!seam ==> ReplaceSpaceRuns(a + b) == ReplaceSpaceRuns(a) + ReplaceSpaceRuns(b))
    decreases |b|
  {
    if b == [] {
      assert a + b == a;
    } else {
      var init := b[..|b| - 1];
      var c := b[|b| - 1];
      var ab := a + b;
      assert ab[..|ab| - 1] == a + init;
      assert ReplaceSpaceRuns(ab) == SpaceStep(ReplaceSpaceRuns(a + init), a + init, c);
      ReplaceSpaceRunsAppend(a, init);
      if init == [] {
        assert a + init == a;
      } else {
        assert b[0] == init[0];
        assert SpaceStep(ReplaceSpaceRuns(a + init), a + init, c) == SpaceStep(ReplaceSpaceRuns(a + init), init, c);
        ReplaceSpaceRunsNonEmpty(init);
        SpaceStepAfterJoin(ReplaceSpaceRuns(a), ReplaceSpaceRuns(init), init, c,
          a != [] && IsJsSpace(a[|a| - 1]) && IsJsSpace(init[0]));
      }
    }
  }

  /** A non-empty run of white space alone becomes one `-`. */
  lemma {:induction false} SpaceRunIsOneDash(sep: string)
    requires sep != [] && forall i :: 0 <= i < |sep| ==> IsJsSpace(sep[i])
    ensures ReplaceSpaceRuns(sep) == "-"
    decreases |sep|
  {
    if |sep| > 1 {
      SpaceRunIsOneDash(sep[..|sep| - 1]);
    }
  }

  /** Two texts without white space and a white-space run between them: exactly one `-` joins them. */
  lemma SpaceRunJoinsWords(a: string, sep: string, b: string)
    requires a != [] && forall i :: 0 <= i < |a| ==> !IsJsSpace(a[i])
    requires b != [] && forall i :: 0 <= i < |b| ==> !IsJsSpace(b[i])
    requires sep != [] && forall i :: 0 <= i < |sep| ==> IsJsSpace(sep[i])
    ensures ReplaceSpaceRuns(a + sep + b) == a + "-" + b
  {
    ReplaceSpaceRunsKeeps(a);
    ReplaceSpaceRunsKeeps(b);
    SpaceRunIsOneDash(sep);
    ReplaceSpaceRunsAppend(a, sep);
    assert ReplaceSpaceRuns(a + sep) == a + "-";
    ReplaceSpaceRunsAppend(a + sep, b);
    assert (a + sep)[|a + sep| - 1] == sep[|sep| - 1];
  }

  /** The path segment of the "View Event Details" link. */
  function DetailsSlug(dropTitle: string): string {
    ReplaceSpaceRuns(Lower(dropTitle))
  }

  /** `sendWaitlistAlert`. */
  function WaitlistAlert(cfg: Config, to: string, name: string, dropTitle: string, dropDate: string, code: string): Mail {
    Mail(FromEmail(cfg), to, "\U{1F389} A seat opened: " + dropTitle,
         "You have 24 hours to claim your seat. Don't miss it!",
         [Heading(dropTitle), Line(dropDate), Line(name + ", you're off the waitlist."), Info("24-Hour Window"),
          Button("Claim My Seat", TicketUrl(cfg, code)),
          SecondaryButton("View Event Details", AppUrl(cfg) + "/drop/" + DetailsSlug(dropTitle))])
  }

  /** `quotes.slice(0, 3).map(...)`, or no quote table at all for an empty list. */
  function QuoteBlocks(quotes: seq<string>): (r: seq<Block>)
    ensures |r| <= 3
  {
    if |quotes| > 0 then
      var shown := Take(quotes, 3);
      seq(|shown|, i requires 0 <= i < |shown| => Quote(shown[i]))
    else []
  }

  /** `sendRecap`. */
  function RecapMail(cfg: Config, to: string, name: string, dropTitle: string, galleryUrl: string, quotes: seq<string>): Mail {
    Mail(FromEmail(cfg), to, "\U{2728} Last night: " + dropTitle,
         "Relive the moments. View photos and share your favorites.",
         [Heading(dropTitle), Line(name + ", last night was something special.")]
         + QuoteBlocks(quotes)
         + [Button("View Photo Gallery", galleryUrl), Divider])
  }

  // ------------------------------------------------------------ properties

  /** The subject tells the two placements apart and ends with the drop title. */
  lemma SubjectTellsPlacement(cfg: Config, to: string, name: string, t1: string, t2: string, date: string, code: string)
    ensures var c := ConfirmationMail(cfg, to, name, t1, date, Confirmed, code).subject;
      var w := ConfirmationMail(cfg, to, name, t2, date, Waitlist, code).subject;
      && c != w
      && c[|c| - |t1|..] == t1 && w[|w| - |t2|..] == t2
  {
    var c := ConfirmationMail(cfg, to, name, t1, date, Confirmed, code).subject;
    var w := ConfirmationMail(cfg, to, name, t2, date, Waitlist, code).subject;
    assert c[0] != w[0];
  }

  /** Both placements show the confirmation code; only a confirmed guest gets the ticket button. */
  lemma ConfirmationBodies(cfg: Config, to: string, name: string, title: string, date: string,
                           status: RsvpStatus, code: string)
    requires status != RsvpStatus.Cancelled
    ensures var body := ConfirmationMail(cfg, to, name, title, date, status, code).body;
      && CodeBox(code) in body
      && (Links(body, TicketUrl(cfg, code)) <==> status == Confirmed)
      && (status == Waitlist ==> forall b | b in body :: !b.Button? && !b.SecondaryButton?)
  {
    var body := ConfirmationMail(cfg, to, name, title, date, status, code).body;
    if status == Confirmed {
      assert body[6] == Button("View Ticket & QR Code", TicketUrl(cfg, code));
    } else {
      assert body[4] == CodeBox(code);
    }
  }

  /** The confirmation, the reminder and the waitlist alert link the same ticket address. */
  lemma SameTicketUrl(cfg: Config, to: string, name: string, title: string, date: string, location: string, code: string)
    ensures Links(ConfirmationMail(cfg, to, name, title, date, Confirmed, code).body, TicketUrl(cfg, code))
    ensures Links(ReminderMail(cfg, to, name, title, date, location, code).body, TicketUrl(cfg, code))
    ensures Links(WaitlistAlert(cfg, to, name, title, date, code).body, TicketUrl(cfg, code))
  {
    assert ConfirmationMail(cfg, to, name, title, date, Confirmed, code).body[6].url == TicketUrl(cfg, code);
    assert ReminderMail(cfg, to, name, title, date, location, code).body[4].url == TicketUrl(cfg, code);
    assert WaitlistAlert(cfg, to, name, title, date, code).body[4].url == TicketUrl(cfg, code);
  }

  /** The ticket address is the app address, `/my-ticket?code=` and the code, which can be read back off its end. */
  lemma TicketUrlCarriesCode(cfg: Config, code: string)
    ensures StartsWith(TicketUrl(cfg, code), AppUrl(cfg) + TicketPath)
    ensures TicketUrl(cfg, code)[|AppUrl(cfg) + TicketPath|..] == code
  {
    assert TicketUrl(cfg, code) == (AppUrl(cfg) + TicketPath) + code;
  }

  /** Unset or empty variables fall back to the built-in sender and address; set ones are used as they are. */
  lemma ConfigFallback(cfg: Config)
    ensures (cfg.emailFrom.None? || cfg.emailFrom.value == "") ==> FromEmail(cfg) == DefaultFrom
    ensures (cfg.appUrl.None? || cfg.appUrl.value == "") ==> AppUrl(cfg) == DefaultAppUrl
    ensures cfg.emailFrom.Some? && cfg.emailFrom.value != "" ==> FromEmail(cfg) == cfg.emailFrom.value
    ensures cfg.appUrl.Some? && cfg.appUrl.value != "" ==> AppUrl(cfg) == cfg.appUrl.value
  {
  }

  /** The recap quotes the first three quotes, in order, and has no quote at all for an empty list. */
  lemma RecapShowsFirstThree(cfg: Config, to: string, name: string, title: string, gallery: string, quotes: seq<string>)
    ensures var body := RecapMail(cfg, to, name, title, gallery, quotes).body;
      && (forall i :: 0 <= i < |quotes| && i < 3 ==> body[2 + i] == Quote(quotes[i]))
      && (forall b | b in body && b.Quote? :: exists i | 0 <= i < |quotes| && i < 3 :: b.text == quotes[i])
      && (quotes == [] ==> forall b | b in body :: !b.Quote?)
  {
    var body := RecapMail(cfg, to, name, title, gallery, quotes).body;
    var q := QuoteBlocks(quotes);
    var pre := [Heading(title), Line(name + ", last night was something special.")];
    var post := [Button("View Photo Gallery", gallery), Divider];
    assert body == pre + q + post;
    forall b | b in body && b.Quote? ensures exists i | 0 <= i < |quotes| && i < 3 :: b.text == quotes[i] {
      assert b in q;
      var i :| 0 <= i < |q| && q[i] == b;
      assert b.text == quotes[i];
    }
  }

  /**
   * The details link keeps punctuation that the admin slug drops: a title
   * holding such a character gives a path that is not the drop's derived slug.
   */
  lemma DetailsLinkCanMissSlug(title: string, i: int)
    requires 0 <= i < |title|
    requires var c := title[i];
      !IsUpperAscii(c) && !AdminNewDrop.IsSlugChar(c) && c != '-' && !IsJsSpace(c)
    ensures DetailsSlug(title) != AdminNewDrop.Slug(title)
  {
    var c := title[i];
    assert Lower(title)[i] == c;
    ReplaceSpaceRunsKeeps(Lower(title));
    assert c in DetailsSlug(title);
    var s := AdminNewDrop.Slug(title);
    assert c !in s by {
      forall j | 0 <= j < |s| ensures s[j] != c {
        assert AdminNewDrop.IsSlugChar(s[j]) || s[j] == '-';
      }
    }
  }

  /** For example, `Supper Club!`: its slug is `supper-club`, while the link keeps the `!`. */
  lemma SupperClubExample()
    ensures DetailsSlug("Supper Club!") != AdminNewDrop.Slug("Supper Club!")
  {
    DetailsLinkCanMissSlug("Supper Club!", 11);
  }
}

/**
 * The new-drop form (app/admin/drops/new/page.tsx): the slug derived from the
 * title as it is typed, and the row the submit handler inserts.  The slug is
 * `title.toLowerCase().replace(/[^a-z0-9]+/g, '-').replace(/(^-|-$)/g, '')`,
 * written here as one left-to-right scan (the run collapse) and a trim.
 */
module AdminNewDrop {
  import opened Wrappers
  import opened JsText
  import opened Seqs

  // ------------------------------------------------------------------ slug

  predicate IsSlugChar(c: char) { IsLowerAscii(c) || IsDigit(c) }

  /** Only `a`-`z`, `0`-`9` and `-`. */
  predicate SlugAlphabet(s: string) {
    forall i :: 0 <= i < |s| ==> IsSlugChar(s[i]) || s[i] == '-'
  }

  predicate NoDoubleDash(s: string) {
    forall i :: 0 <= i < |s| - 1 ==> !(s[i] == '-' && s[i + 1] == '-')
  }

  predicate StartsWithDash(s: string) { |s| > 0 && s[0] == '-' }

  predicate EndsWithDash(s: string) { |s| > 0 && s[|s| - 1] == '-' }

  /**
   * `.replace(/[^a-z0-9]+/g, '-')`, as one scan from the left: every maximal
   * run of characters outside `a-z0-9` becomes a single `-`; the other
   * characters stay, in order (`CollapseKeeps`, `CollapseAppend`).
   */
  function Collapse(s: string): string
    decreases |s|
  {
    if s == [] then [] else Extend(Collapse(s[..|s| - 1]), s[|s| - 1])
  }

  /** One more character after the collapsed text `prev`: a letter or digit is kept, any other starts or continues a run. */
  function Extend(prev: string, c: char): string {
    if IsSlugChar(c) then prev + [c]
    else if EndsWithDash(prev) then prev
    else prev + ['-']
  }

  lemma ExtendKeepsShape(prev: string, c: char)
    ensures var r := Extend(prev, c);
      && (SlugAlphabet(prev) && NoDoubleDash(prev) ==> SlugAlphabet(r) && NoDoubleDash(r))
      && r != [] && (EndsWithDash(r) <==> !IsSlugChar(c))
  {
  }

  lemma ExtendKeepsLetters(prev: string, c: char)
    ensures Filter(Extend(prev, c), IsSlugChar) == Filter(prev, IsSlugChar) + (if IsSlugChar(c) then [c] else [])
  {
    if IsSlugChar(c) {
      FilterAppend(prev, c, IsSlugChar);
    } else if !EndsWithDash(prev) {
      FilterAppend(prev, '-', IsSlugChar);
    }
  }

  /**
   * The collapse holds only `a-z`, `0-9` and `-`, never two dashes in a row,
   * keeps the letters and digits in order, and ends with `-` exactly when
   * the input ends outside the alphabet.
   */
  lemma {:induction false} CollapseKeeps(s: string)
    ensures SlugAlphabet(Collapse(s)) && NoDoubleDash(Collapse(s))
    ensures Filter(Collapse(s), IsSlugChar) == Filter(s, IsSlugChar)
    ensures s != [] ==> Collapse(s) != [] && (EndsWithDash(Collapse(s)) <==> !IsSlugChar(s[|s| - 1]))
    ensures s == [] ==> Collapse(s) == []
    decreases |s|
  {
    if s != [] {
      var init := s[..|s| - 1];
      var c := s[|s| - 1];
      var prev := Collapse(init);
      assert Collapse(s) == Extend(prev, c);
      CollapseKeeps(init);
      ExtendKeepsShape(prev, c);
      ExtendKeepsLetters(prev, c);
    }
  }

  /** Two collapsed pieces side by side: a `-` ending the first and a `-` starting the second belong to one run. */
  function JoinRuns(x: string, y: string): string {
    if EndsWithDash(x) && StartsWithDash(y) then x + y[1..] else x + y
  }

  /** The `^-` alternative: a `-` at the front is dropped. */
  function DropFirstDash(s: string): (r: string)
    ensures Filter(r, IsSlugChar) == Filter(s, IsSlugChar)
    ensures SlugAlphabet(s) ==> SlugAlphabet(r)
    ensures NoDoubleDash(s) ==> NoDoubleDash(r) && !StartsWithDash(r)
  {
    if StartsWithDash(s) then
      assert s == [s[0]] + s[1..];
      FilterPrepend('-', s[1..], IsSlugChar);
      s[1..]
    else s
  }

  /** The `-$` alternative: a `-` at the end is dropped. */
  function DropLastDash(s: string): (r: string)
    ensures Filter(r, IsSlugChar) == Filter(s, IsSlugChar)
    ensures SlugAlphabet(s) ==> SlugAlphabet(r)
    ensures NoDoubleDash(s) ==> NoDoubleDash(r) && !EndsWithDash(r)
    ensures !StartsWithDash(s) ==> !StartsWithDash(r)
  {
    if EndsWithDash(s) then
      assert s == s[..|s| - 1] + ['-'];
      FilterAppend(s[..|s| - 1], '-', IsSlugChar);
      s[..|s| - 1]
    else s
  }

  /** `.replace(/(^-|-$)/g, '')`: one `-` at the front and one at the end are dropped. */
  function TrimDashes(s: string): (r: string)
    ensures Filter(r, IsSlugChar) == Filter(s, IsSlugChar)
    ensures SlugAlphabet(s) ==> SlugAlphabet(r)
    ensures NoDoubleDash(s) ==> NoDoubleDash(r) && !StartsWithDash(r) && !EndsWithDash(r)
  {
    DropLastDash(DropFirstDash(s))
  }

  /**
   * The slug of a title: only `a-z`, `0-9` and `-`, never a `-` at either end
   * or two in a row, and the letters and digits of the lowercased title kept
   * in order.
   */
  function Slug(title: string): (s: string)
    ensures SlugAlphabet(s) && NoDoubleDash(s) && !StartsWithDash(s) && !EndsWithDash(s)
    ensures Filter(s, IsSlugChar) == Filter(Lower(title), IsSlugChar)
  {
    CollapseKeeps(Lower(title));
    TrimDashes(Collapse(Lower(title)))
  }

  // --------------------------------------------------------------- the form

  datatype Field = Title | SlugField | Date | Time | SeatLimit | Description | ShortCopy | Status

  /** `formData`; every input delivers its value as text. */
  datatype Form = Form(
    title: string,
    slug: string,
    date: string,
    time: string,
    seatLimit: string,
    description: string,
    shortCopy: string,
    status: string)

  /** `{...prev, [name]: value}`. */
  function Set(f: Form, name: Field, value: string): Form {
    match name
    case Title => f.(title := value)
    case SlugField => f.(slug := value)
    case Date => f.(date := value)
    case Time => f.(time := value)
    case SeatLimit => f.(seatLimit := value)
    case Description => f.(description := value)
    case ShortCopy => f.(shortCopy := value)
    case Status => f.(status := value)
  }

  /** The value of one field. */
  function Get(f: Form, name: Field): string {
    match name
    case Title => f.title
    case SlugField => f.slug
    case Date => f.date
    case Time => f.time
    case SeatLimit => f.seatLimit
    case Description => f.description
    case ShortCopy => f.shortCopy
    case Status => f.status
  }

  /** The row `handleSubmit` inserts into `drops`. */
  datatype DropInsert = DropInsert(
    title: string,
    slug: string,
    dateTime: string,
    seatLimit: string,
    description: string,
    shortCopy: Option<string>,
    status: string)

  /** `x || null` on a text field. */
  function NullIfEmpty(s: string): (r: Option<string>)
    ensures r.None? <==> s == ""
    ensures r.Some? ==> r.value == s
  {
    if s == "" then None else Some(s)
  }

  function DateTimeText(date: string, time: string): string {
    date + " " + time + ":00+00"
  }

  function InsertOf(f: Form): DropInsert {
    DropInsert(f.title, f.slug, DateTimeText(f.date, f.time), f.seatLimit, f.description,
               NullIfEmpty(f.shortCopy), f.status)
  }

  const DropsPage: string := "/admin/drops"

  class NewDropPage {
    var form: Form
    var error: string
    var loading: bool

    /** The initial form: a 19:00 start, twelve seats, status `draft`. */
    constructor ()
      ensures form == Form("", "", "", "19:00", "12", "", "", "draft")
      ensures error == "" && !loading
    {
      form := Form("", "", "", "19:00", "12", "", "", "draft");
      error := "";
      loading := false;
    }

    /** `handleChange`: the field takes the value; a title edit also rewrites the slug. */
    method HandleChange(name: Field, value: string)
      modifies this
      ensures form == if name == Title then Set(old(form), name, value).(slug := Slug(value)) else Set(old(form), name, value)
      ensures error == old(error) && loading == old(loading)
    {
      form := Set(form, name, value);
      if name == Title {
        form := form.(slug := Slug(value));
      }
    }

    /**
     * `handleSubmit`: the row it sends, and the page it moves to when the
     * insert succeeds; a failed insert shows the database's message instead.
     */
    method HandleSubmit(insertFails: bool, errorMessage: string) returns (row: DropInsert, navigateTo: Option<string>)
      modifies this
      ensures row == InsertOf(form) && form == old(form)
      ensures insertFails ==> navigateTo.None? && error == errorMessage
      ensures !insertFails ==> navigateTo == Some(DropsPage) && error == ""
      ensures !loading
    {
      loading := true;
      error := "";
      row := InsertOf(form);
      if insertFails {
        error := errorMessage;
        navigateTo := None;
      } else {
        navigateTo := Some(DropsPage);
      }
      loading := false;
    }
  }

  // ------------------------------------------------------------ properties

  lemma LowerFixesSlugAlphabet(s: string)
    requires SlugAlphabet(s)
    ensures Lower(s) == s
  {
  }

  lemma {:induction false} CollapseFixes(s: string)
    requires SlugAlphabet(s) && NoDoubleDash(s)
    ensures Collapse(s) == s
    decreases |s|
  {
    if s != [] {
      var init := s[..|s| - 1];
      var c := s[|s| - 1];
      assert SlugAlphabet(init) && NoDoubleDash(init);
      CollapseFixes(init);
      assert Collapse(s) == Extend(init, c);
      if !IsSlugChar(c) && init != [] {
        assert init[|init| - 1] == s[|s| - 2];
      }
      assert s == init + [c];
    }
  }

  /** A single character: a letter or a digit stays, anything else becomes one `-`. */
  lemma CollapseChar(c: char)
    ensures Collapse([c]) == if IsSlugChar(c) then [c] else "-"
  {
    assert [c][..0] == [];
  }

  /** Extending after a join is extending the second piece, once that piece is non-empty. */
  lemma JoinRunsExtend(x: string, y: string, c: char)
    requires y != []
    ensures JoinRuns(x, Extend(y, c)) == Extend(JoinRuns(x, y), c)
  {
    var e := Extend(y, c);
    assert e[..|y|] == y;
    assert StartsWithDash(e) == StartsWithDash(y);
    var j := JoinRuns(x, y);
    assert EndsWithDash(j) == EndsWithDash(y);
    if EndsWithDash(x) && StartsWithDash(y) {
      if IsSlugChar(c) {
        assert e[1..] == y[1..] + [c];
      } else if !EndsWithDash(y) {
        assert e[1..] == y[1..] + ['-'];
      }
    } else {
      if IsSlugChar(c) {
        assert x + (y + [c]) == (x + y) + [c];
      } else if !EndsWithDash(y) {
        assert x + (y + ['-']) == (x + y) + ['-'];
      }
    }
  }

  /**
   * The collapse of two texts put together is the two collapses joined:
   * a run that straddles the seam still gives one `-`.  With `CollapseChar`
   * this fixes `Collapse` on every input.
   */
  lemma {:induction false} CollapseAppend(a: string, b: string)
    ensures Collapse(a + b) == JoinRuns(Collapse(a), Collapse(b))
    decreases |b|
  {
    if b == [] {
      assert a + b == a;
    } else {
      var init := b[..|b| - 1];
      var c := b[|b| - 1];
      assert (a + b)[..|a + b| - 1] == a + init;
      assert Collapse(a + b) == Extend(Collapse(a + init), c);
      CollapseAppend(a, init);
      if init == [] {
        assert a + init == a;
      } else {
        JoinRunsExtend(Collapse(a), Collapse(init), c);
      }
    }
  }

  /** A run of characters that are neither letters nor digits collapses to one `-`. */
  lemma {:induction false} CollapseRun(sep: string)
    requires sep != [] && forall i :: 0 <= i < |sep| ==> !IsSlugChar(sep[i])
    ensures Collapse(sep) == "-"
    decreases |sep|
  {
    if |sep| == 1 {
      CollapseChar(sep[0]);
      assert sep == [sep[0]];
    } else {
      CollapseRun(sep[..|sep| - 1]);
    }
  }

  /** A non-empty text of lower-case letters and digits. */
  predicate Word(w: string) {
    w != [] && forall i :: 0 <= i < |w| ==> IsSlugChar(w[i])
  }

  /** A non-empty run the slug drops: no letter, digit or upper-case letter (which would lower to a letter). */
  predicate Separator(sep: string) {
    sep != [] && forall i :: 0 <= i < |sep| ==> !IsSlugChar(sep[i]) && !IsUpperAscii(sep[i])
  }

  /** Lowercasing leaves the words and the separator as they are. */
  lemma LowerSeparated(a: string, sep: string, b: string)
    requires Word(a) && Separator(sep) && Word(b)
    ensures Lower(a + sep + b) == a + sep + b
  {
    var t := a + sep + b;
    forall i | 0 <= i < |t|
      ensures !IsUpperAscii(t[i])
    {
      if i < |a| {
        assert t[i] == a[i];
      } else if i < |a| + |sep| {
        assert t[i] == sep[i - |a|];
      } else {
        assert t[i] == b[i - |a| - |sep|];
      }
    }
  }

  /** A word is its own collapse, and neither starts nor ends with `-`. */
  lemma WordCollapses(w: string)
    requires Word(w)
    ensures !StartsWithDash(w) && !EndsWithDash(w)
    ensures Lower(w) == w && Collapse(w) == w
  {
    assert SlugAlphabet(w);
    assert NoDoubleDash(w);
    LowerFixesSlugAlphabet(w);
    CollapseFixes(w);
  }

  lemma CollapseSeparated(a: string, sep: string, b: string)
    requires Word(a) && Separator(sep) && Word(b)
    ensures Collapse(a + sep + b) == a + "-" + b
  {
    WordCollapses(a);
    WordCollapses(b);
    CollapseRun(sep);
    CollapseAppend(a, sep);
    assert Collapse(a + sep) == a + "-" by {
      assert JoinRuns(a, "-") == a + "-";
    }
    CollapseAppend(a + sep, b);
    assert JoinRuns(a + "-", b) == a + "-" + b;
  }

  /** Two words with a separating run: the slug is the words joined by exactly one `-`. */
  lemma SlugJoinsWords(a: string, sep: string, b: string)
    requires Word(a) && Separator(sep) && Word(b)
    ensures Slug(a) == a && Slug(b) == b
    ensures Slug(a + sep + b) == a + "-" + b
  {
    WordCollapses(a);
    WordCollapses(b);
    assert TrimDashes(a) == a && TrimDashes(b) == b;
    LowerSeparated(a, sep, b);
    CollapseSeparated(a, sep, b);
    var j := a + "-" + b;
    assert j[0] == a[0] && j[|j| - 1] == b[|b| - 1];
    assert TrimDashes(j) == j;
  }

  /** For example, `a b` gives `a-b`, not `ab`. */
  lemma SpaceBecomesDash(x: char, y: char)
    requires IsSlugChar(x) && IsSlugChar(y)
    ensures Slug([x, ' ', y]) == [x, '-', y]
  {
    var a, sep, b := [x], [' '], [y];
    assert a + sep + b == [x, ' ', y];
    assert a + "-" + b == [x, '-', y];
    assert Word(a) && Word(b) && Separator(sep);
    SlugJoinsWords(a, sep, b);
  }

  /** Deriving a slug from a slug changes nothing. */
  lemma SlugIdempotent(title: string)
    ensures Slug(Slug(title)) == Slug(title)
  {
    var s := Slug(title);
    LowerFixesSlugAlphabet(s);
    CollapseFixes(s);
  }

  /** A title edit overwrites whatever slug was typed; a slug edit leaves the title alone; no other field moves. */
  lemma SlugFollowsTitle(f: Form, name: Field, value: string)
    ensures var g := if name == Title then Set(f, name, value).(slug := Slug(value)) else Set(f, name, value);
      && Get(g, name) == value
      && (name == Title ==> g.title == value && g.slug == Slug(value))
      && (name == SlugField ==> g.slug == value && g.title == f.title)
      && forall other :: other != name && other != SlugField ==> Get(g, other) == Get(f, other)
  {
  }

  /** The `date_time` text splits at its one space back into the date and the time with `:00+00`. */
  lemma DateTimeSplitsBack(date: string, time: string)
    requires ' ' !in date && ' ' !in time
    ensures Split(DateTimeText(date, time), ' ') == [date, time + ":00+00"]
  {
    assert DateTimeText(date, time) == Join([date, time + ":00+00"], ' ');
    SplitJoin([date, time + ":00+00"], ' ');
  }
}

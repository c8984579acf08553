/**
 * The text of the AniList staff embed (src/structure/anilist/staff/struct_staff.rs):
 * the voice-acted characters, the roles, the link, the name, the birth and
 * death dates, the home town, the occupations and the description header.
 */
module StaffText {
  import opened Wrappers
  import Text

  datatype Name = Name(full: Option<string>, native: Option<string>)

  /** A date whose parts AniList may leave out; each part is an `i32`. */
  datatype Date = Date(year: Option<int>, month: Option<int>, day: Option<int>)

  datatype Title = Title(romaji: Option<string>, english: Option<string>)

  /** One `staffMedia` edge: the media's title and the staff member's role in it. */
  datatype Edge = Edge(title: Title, roleNotes: Option<string>, relationType: Option<string>, staffRole: string)

  datatype Character = Character(name: Name, image: string)

  /** The fields of `Staff` the formatters read. */
  datatype Staff = Staff(
    name: Name,
    id: int,
    languageV2: string,
    description: string,
    primaryOccupations: seq<string>,
    dateOfBirth: Date,
    dateOfDeath: Date,
    homeTown: Option<string>,
    edges: seq<Edge>,
    characters: seq<Character>)

  /** The placeholder for a missing value. `format_va` spells it out as "N/A";
      the other formatters use the crate's `N_A`, taken here to be the same. */
  const NotAvailable: string := "N/A"

  /** The localised labels of the description header. */
  datatype StaffLocalisedText = StaffLocalisedText(
    dateOfBirth: string, dateOfDeath: string, hometown: string, primaryLanguage: string, primaryOccupation: string)

  // ------------------------------------------------------------- format_va

  /** One voice-acted character: "native / full". */
  function VaLine(c: Character): string {
    c.name.native.GetOr(NotAvailable) + " / " + c.name.full.GetOr(NotAvailable)
  }

  function VaLines(cs: seq<Character>): (r: seq<string>)
    ensures |r| == |cs|
    ensures forall i :: 0 <= i < |cs| ==> r[i] == VaLine(cs[i])
  {
    seq(|cs|, i requires 0 <= i < |cs| => VaLine(cs[i]))
  }

  /** `format_va` */
  function FormatVa(s: Staff): string {
    Text.Join(VaLines(s.characters), ",\n")
  }

  /** No line break in any character name. */
  predicate NamesOnOneLine(cs: seq<Character>) {
    forall i :: 0 <= i < |cs| ==>
      '\n' !in cs[i].name.native.GetOr("") && '\n' !in cs[i].name.full.GetOr("")
  }

  /** `format_va` has one line per character, in order, each "native / full"
      followed by a comma except the last. */
  lemma FormatVaLines(s: Staff, i: nat)
    requires i < |s.characters|
    requires NamesOnOneLine(s.characters)
    ensures |Text.Split(FormatVa(s), '\n')| == |s.characters|
    ensures Text.Split(FormatVa(s), '\n')[i] == VaLine(s.characters[i]) + (if i < |s.characters| - 1 then "," else "")
  {
    var lines := VaLines(s.characters);
    forall j | 0 <= j < |lines|
      ensures '\n' !in lines[j]
    {
      assert lines[j] == VaLine(s.characters[j]);
    }
    var sep := "," + ['\n'] + "";
    assert sep == ",\n";
    assert "" + Text.Join(lines, sep) == FormatVa(s);
    Text.SplitJoin("", lines, ",", '\n', "");
    Text.PiecesAt("", lines, ",", "", i);
  }

  /** No characters, no text. */
  lemma FormatVaEmpty(s: Staff)
    requires s.characters == []
    ensures FormatVa(s) == ""
  {
  }

  // ----------------------------------------------------------- format_role

  /** The title shown for a medium: romaji, else English, else nothing. */
  function ShownTitle(t: Title): (r: string)
    ensures t.romaji.Some? ==> r == t.romaji.value
    ensures t.romaji.None? && t.english.Some? ==> r == t.english.value
    ensures t.romaji.None? && t.english.None? ==> r == ""
  {
    match t.romaji
    case Some(romaji) => romaji
    case None =>
      match t.english
      case Some(english) => english
      case None => ""
  }

  /** One role: "title (role)". */
  function RoleLine(e: Edge): string {
    ShownTitle(e.title) + " (" + e.staffRole + ")"
  }

  function RoleLines(es: seq<Edge>): (r: seq<string>)
    ensures |r| == |es|
    ensures forall i :: 0 <= i < |es| ==> r[i] == RoleLine(es[i])
  {
    seq(|es|, i requires 0 <= i < |es| => RoleLine(es[i]))
  }

  /** `format_role` */
  function FormatRole(s: Staff): string {
    Text.Join(RoleLines(s.edges), "\n")
  }

  predicate RolesOnOneLine(es: seq<Edge>) {
    forall i :: 0 <= i < |es| ==> '\n' !in RoleLine(es[i])
  }

  /** The i-th line of `format_role` names the i-th medium by its romaji
      title, by its English title when it has no romaji one, and by nothing
      at all when it has neither; the role follows in brackets. */
  lemma FormatRoleShowsTitle(s: Staff, i: nat)
    requires i < |s.edges|
    requires RolesOnOneLine(s.edges)
    ensures |Text.Split(FormatRole(s), '\n')| == |s.edges|
    ensures var line := Text.Split(FormatRole(s), '\n')[i];
      var t := s.edges[i].title;
      var role := " (" + s.edges[i].staffRole + ")";
      (t.romaji.Some? ==> line == t.romaji.value + role)
      && (t.romaji.None? && t.english.Some? ==> line == t.english.value + role)
      && (t.romaji.None? && t.english.None? ==> line == role)
  {
    FormatRoleLines(s);
    RoleLineShowsTitle(s.edges[i]);
  }

  lemma RoleLineShowsTitle(e: Edge)
    ensures var role := " (" + e.staffRole + ")";
      (e.title.romaji.Some? ==> RoleLine(e) == e.title.romaji.value + role)
      && (e.title.romaji.None? && e.title.english.Some? ==> RoleLine(e) == e.title.english.value + role)
      && (e.title.romaji.None? && e.title.english.None? ==> RoleLine(e) == role)
  {
    assert RoleLine(e) == ShownTitle(e.title) + (" (" + e.staffRole + ")");
  }

  /** `format_role` is exactly the role lines, one per edge and in order. */
  lemma {:induction false} FormatRoleLines(s: Staff)
    requires s.edges != []
    requires RolesOnOneLine(s.edges)
    ensures Text.Split(FormatRole(s), '\n') == RoleLines(s.edges)
  {
    var lines := RoleLines(s.edges);
    var sep := "" + ['\n'] + "";
    assert sep == "\n";
    assert "" + Text.Join(lines, sep) == FormatRole(s);
    Text.SplitJoin("", lines, "", '\n', "");
    var pieces := Text.Pieces("", lines, "", "");
    Text.PiecesAt("", lines, "", "", 0);
    forall i | 0 <= i < |lines|
      ensures pieces[i] == lines[i]
    {
      Text.PiecesAt("", lines, "", "", i);
    }
  }

  // ----------------------------------------------------- get_url, get_name

  const StaffUrlPrefix := "https://anilist.co/staff/"

  /** `get_url` */
  function GetUrl(s: Staff): string {
    StaffUrlPrefix + Text.IntToDecimal(s.id)
  }

  /** The staff id is read back from the link. */
  lemma GetUrlRoundTrip(s: Staff)
    requires Text.I32Min <= s.id <= Text.I32Max
    ensures Text.StartsWith(GetUrl(s), StaffUrlPrefix)
    ensures Text.ParseI32(GetUrl(s)[|StaffUrlPrefix|..]) == Some(s.id)
  {
    assert GetUrl(s)[|StaffUrlPrefix|..] == Text.IntToDecimal(s.id);
    Text.ParseI32OfDecimal(s.id);
  }

  /** `get_name`: "native/full". */
  function GetName(s: Staff): string {
    s.name.native.GetOr(NotAvailable) + "/" + s.name.full.GetOr(NotAvailable)
  }

  /** With both names present (and free of '/'), the name splits back into
      them; a missing name contributes the placeholder, whose own '/' makes the
      result split into three. */
  lemma GetNameParts(s: Staff)
    requires '/' !in s.name.native.GetOr("") && '/' !in s.name.full.GetOr("")
    ensures s.name.native.Some? && s.name.full.Some? ==>
      Text.Split(GetName(s), '/') == [s.name.native.value, s.name.full.value]
    ensures s.name.native.None? && s.name.full.Some? ==>
      Text.Split(GetName(s), '/') == ["N", "A", s.name.full.value]
    ensures s.name.native.Some? && s.name.full.None? ==>
      Text.Split(GetName(s), '/') == [s.name.native.value, "N", "A"]
    ensures s.name.native.None? && s.name.full.None? ==>
      Text.Split(GetName(s), '/') == ["N", "A", "N", "A"]
  {
    var full := s.name.full.GetOr(NotAvailable);
    assert GetName(s) == s.name.native.GetOr(NotAvailable) + "/" + full;
    NamePrefixSplit(s.name.native, full);
    PartSplit(s.name.full);
  }

  /** The pieces one name part contributes: itself, or "N" and "A". */
  function PartPieces(o: Option<string>): seq<string> {
    if o.Some? then [o.value] else ["N", "A"]
  }

  lemma PartSplit(o: Option<string>)
    requires '/' !in o.GetOr("")
    ensures Text.Split(o.GetOr(NotAvailable), '/') == PartPieces(o)
  {
    if o.Some? {
      Text.SplitNoSeparator(o.value, '/');
    } else {
      assert NotAvailable == "N" + ['/'] + "A";
      Text.SplitAtSeparator("N", "A", '/');
      Text.SplitNoSeparator("A", '/');
    }
  }

  lemma JoinedSplit(a: string, b: string)
    requires '/' !in a
    ensures Text.Split(a + "/" + b, '/') == [a] + Text.Split(b, '/')
  {
    assert a + "/" + b == a + ['/'] + b;
    Text.SplitAtSeparator(a, b, '/');
  }

  lemma NamePrefixSplit(o: Option<string>, b: string)
    requires '/' !in o.GetOr("")
    ensures Text.Split(o.GetOr(NotAvailable) + "/" + b, '/') == PartPieces(o) + Text.Split(b, '/')
  {
    if o.Some? {
      JoinedSplit(o.value, b);
    } else {
      assert NotAvailable + "/" + b == "N" + "/" + ("A" + "/" + b);
      JoinedSplit("N", "A" + "/" + b);
      JoinedSplit("A", b);
    }
  }

  // ------------------------------------------------ get_birth, get_death

  /** The text of one date part. */
  function PartText(v: Option<int>, unknown: string): string {
    match v
    case Some(n) => Text.IntToDecimal(n)
    case None => unknown
  }

  /** `get_birth`/`get_death` on one date: "M/D/Y", with "Unknown mont",
      "Unknown day" and "Unknown year" for missing parts. */
  function FormatDate(d: Date): string {
    PartText(d.month, "Unknown mont") + "/" + PartText(d.day, "Unknown day") + "/" + PartText(d.year, "Unknown year")
  }

  /** `get_birth` */
  function GetBirth(s: Staff): string { FormatDate(s.dateOfBirth) }

  /** `get_death` */
  function GetDeath(s: Staff): string { FormatDate(s.dateOfDeath) }

  predicate InI32(v: Option<int>) {
    v.None? || Text.I32Min <= v.value <= Text.I32Max
  }

  lemma NoSlashInPart(v: Option<int>, unknown: string)
    requires '/' !in unknown
    ensures '/' !in PartText(v, unknown)
  {
    if v.Some? && v.value < 0 {
      assert Text.IntToDecimal(v.value) == "-" + Text.NatToDecimal(-v.value);
    }
  }

  /** A present part is read back from its text; a missing one reads as
      the placeholder, which is not a number. */
  lemma PartRoundTrip(v: Option<int>, unknown: string)
    requires InI32(v)
    requires unknown != [] && unknown[0] == 'U'
    ensures v.Some? ==> Text.ParseI32(PartText(v, unknown)) == v
    ensures v.None? ==> Text.ParseI32(PartText(v, unknown)).None?
  {
    if v.Some? {
      Text.ParseI32OfDecimal(v.value);
    }
  }

  /** Three slash-free pieces joined by '/' split back into them. */
  lemma ThreeParts(a: string, b: string, c: string)
    requires '/' !in a && '/' !in b && '/' !in c
    ensures Text.Split(a + "/" + b + "/" + c, '/') == [a, b, c]
  {
    assert a + "/" + b + "/" + c == a + ['/'] + (b + ['/'] + c);
    Text.SplitAtSeparator(a, b + ['/'] + c, '/');
    Text.SplitAtSeparator(b, c, '/');
    Text.SplitNoSeparator(c, '/');
  }

  /** A number's text never reads as a placeholder starting with a letter. */
  lemma PartIsPlaceholderIff(v: Option<int>, unknown: string)
    requires unknown != [] && unknown[0] == 'U'
    ensures v.None? <==> PartText(v, unknown) == unknown
  {
    if v.Some? {
      var t := Text.IntToDecimal(v.value);
      if v.value < 0 {
        assert t[0] == '-';
      } else {
        assert Text.IsDigit(t[0]);
      }
    }
  }

  /** A date splits at '/' into exactly its three parts, month first; each
      present part parses back to its value and each missing one is its
      placeholder. */
  lemma {:induction false} FormatDateParts(d: Date)
    requires InI32(d.month) && InI32(d.day) && InI32(d.year)
    ensures var parts := Text.Split(FormatDate(d), '/');
      |parts| == 3
      && (d.month.Some? ==> Text.ParseI32(parts[0]) == d.month)
      && (d.day.Some? ==> Text.ParseI32(parts[1]) == d.day)
      && (d.year.Some? ==> Text.ParseI32(parts[2]) == d.year)
      && (d.month.None? <==> parts[0] == "Unknown mont")
      && (d.day.None? <==> parts[1] == "Unknown day")
      && (d.year.None? <==> parts[2] == "Unknown year")
  {
    var m := PartText(d.month, "Unknown mont");
    var dd := PartText(d.day, "Unknown day");
    var y := PartText(d.year, "Unknown year");
    NoSlashInPart(d.month, "Unknown mont");
    NoSlashInPart(d.day, "Unknown day");
    NoSlashInPart(d.year, "Unknown year");
    ThreeParts(m, dd, y);
    PartRoundTrip(d.month, "Unknown mont");
    PartRoundTrip(d.day, "Unknown day");
    PartRoundTrip(d.year, "Unknown year");
    PartIsPlaceholderIff(d.month, "Unknown mont");
    PartIsPlaceholderIff(d.day, "Unknown day");
    PartIsPlaceholderIff(d.year, "Unknown year");
  }

  // ------------------------------------------ get_hometown, get_occupation

  /** `get_hometown` */
  function GetHometown(s: Staff): (r: string)
    ensures s.homeTown.None? ==> r == NotAvailable
    ensures s.homeTown.Some? ==> r == s.homeTown.value
  {
    match s.homeTown
    case Some(t) => t
    case None => NotAvailable
  }

  /** In the description header the home town follows its label and comes
      before the language label; a missing home town reads as "N/A", exactly
      as a home town spelled "N/A" does. */
  lemma HeaderShowsHometown(s: Staff, labels: StaffLocalisedText)
    ensures var before := labels.dateOfBirth + GetBirth(s) + labels.dateOfDeath + GetDeath(s) + labels.hometown;
      var rest := Header(s, labels)[|before|..];
      Text.StartsWith(Header(s, labels), before)
      && Text.StartsWith(rest, s.homeTown.GetOr(NotAvailable) + labels.primaryLanguage + s.languageV2)
    ensures Header(s.(homeTown := None), labels) == Header(s.(homeTown := Some(NotAvailable)), labels)
  {
    HometownSlot(s, labels);
    HometownPlaceholder(s, labels);
  }

  lemma HometownSlot(s: Staff, labels: StaffLocalisedText)
    ensures var before := labels.dateOfBirth + GetBirth(s) + labels.dateOfDeath + GetDeath(s) + labels.hometown;
      var rest := Header(s, labels)[|before|..];
      Text.StartsWith(Header(s, labels), before)
      && Text.StartsWith(rest, s.homeTown.GetOr(NotAvailable) + labels.primaryLanguage + s.languageV2)
  {
    var before := labels.dateOfBirth + GetBirth(s) + labels.dateOfDeath + GetDeath(s) + labels.hometown;
    var mid := GetHometown(s) + labels.primaryLanguage + s.languageV2;
    var after := labels.primaryOccupation + GetOccupation(s);
    assert Header(s, labels) == before + (mid + after);
    assert Header(s, labels)[|before|..] == mid + after;
  }

  lemma HometownPlaceholder(s: Staff, labels: StaffLocalisedText)
    ensures Header(s.(homeTown := None), labels) == Header(s.(homeTown := Some(NotAvailable)), labels)
  {
    assert GetHometown(s.(homeTown := None)) == GetHometown(s.(homeTown := Some(NotAvailable)));
  }

  /** How many occupations are listed at most. */
  const MaxOccupations: nat := 5

  /** `get_occupation` */
  function GetOccupation(s: Staff): string {
    Text.Join(Text.Take(s.primaryOccupations, MaxOccupations), ", ")
  }

  /** The occupations text lists the first five occupations in order: split at
      ',' the i-th piece is the i-th occupation, after a space for all but the
      first. */
  lemma {:induction false} GetOccupationLists(s: Staff, i: nat)
    requires forall j :: 0 <= j < |s.primaryOccupations| ==> ',' !in s.primaryOccupations[j]
    requires i < |s.primaryOccupations| && i < MaxOccupations
    ensures var pieces := Text.Split(GetOccupation(s), ',');
      |pieces| == (if |s.primaryOccupations| < MaxOccupations then |s.primaryOccupations| else MaxOccupations)
      && pieces[i] == (if i == 0 then "" else " ") + s.primaryOccupations[i]
  {
    var xs := Text.Take(s.primaryOccupations, MaxOccupations);
    var sep := "" + [','] + " ";
    assert sep == ", ";
    assert "" + Text.Join(xs, sep) == GetOccupation(s);
    Text.SplitJoin("", xs, "", ',', " ");
    Text.PiecesAt("", xs, "", " ", i);
  }

  // ------------------------------------------------------------- get_desc

  /** The header of the description: each label followed by its value. */
  function Header(s: Staff, labels: StaffLocalisedText): string {
    labels.dateOfBirth + GetBirth(s) + labels.dateOfDeath + GetDeath(s) + labels.hometown + GetHometown(s)
    + labels.primaryLanguage + s.languageV2 + labels.primaryOccupation + GetOccupation(s)
  }

  /** The most bytes a Discord embed description holds. */
  const EmbedDescriptionLimit: int := 4096

  /**
   * `get_desc` as written: the description (after `markdown`, the unseen
   * HTML-to-Discord conversion) is appended, cut by the unseen `trim`, only
   * when the header alone already takes 4096 bytes or more.
   */
  function GetDescAsWritten(s: Staff, labels: StaffLocalisedText, markdown: string -> string,
                            trim: (string, int) -> string): string {
    var header := Header(s, labels);
    var lengthDiff := EmbedDescriptionLimit - Text.Utf8Len(header);
    if lengthDiff <= 0 then header + "\n\n" + trim(markdown(s.description), lengthDiff)
    else header
  }

  /** In every ordinary case, a header below the limit, the description is
      dropped entirely: the result does not depend on it. */
  lemma GetDescAsWrittenDropsDescription(s: Staff, labels: StaffLocalisedText, markdown: string -> string,
                                         trim: (string, int) -> string)
    requires Text.Utf8Len(Header(s, labels)) < EmbedDescriptionLimit
    ensures GetDescAsWritten(s, labels, markdown, trim) == Header(s, labels)
    ensures forall d :: GetDescAsWritten(s.(description := d), labels, markdown, trim) == GetDescAsWritten(s, labels, markdown, trim)
  {
  }

  /**
   * `get_desc` as evidently intended: the description follows the header
   * after a blank line, and `trim` is asked to shorten it only when header
   * and description together exceed the limit.
   */
  function GetDesc(s: Staff, labels: StaffLocalisedText, markdown: string -> string,
                   trim: (string, int) -> string): string {
    var header := Header(s, labels);
    var desc := markdown(s.description);
    var full := header + "\n\n" + desc;
    var lengthDiff := EmbedDescriptionLimit - Text.Utf8Len(full);
    if lengthDiff >= 0 then full else header + "\n\n" + trim(desc, lengthDiff)
  }

  /** The corrected description always carries the header and, when it fits
      the embed, the whole description, within the limit. */
  lemma GetDescShowsDescription(s: Staff, labels: StaffLocalisedText, markdown: string -> string,
                                trim: (string, int) -> string)
    ensures Text.StartsWith(GetDesc(s, labels, markdown, trim), Header(s, labels) + "\n\n")
    ensures var full := Header(s, labels) + "\n\n" + markdown(s.description);
      Text.Utf8Len(full) <= EmbedDescriptionLimit ==>
        GetDesc(s, labels, markdown, trim) == full && Text.Utf8Len(GetDesc(s, labels, markdown, trim)) <= EmbedDescriptionLimit
  {
    var header := Header(s, labels);
    var r := GetDesc(s, labels, markdown, trim);
    assert r[..|header + "\n\n"|] == header + "\n\n";
  }
}

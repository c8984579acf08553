/**
 * The "vn game" command of the bot: the first VNDB result for the title is
 * shown as an embed whose inline fields list the release date, platforms,
 * play time, tags, developers, staff and characters, and whose cover image
 * is attached only when VNDB rates it safe enough.
 */
module VnGame {
  import opened Wrappers
  import Text

  /** The cover image and its VNDB ratings (0 to 2). */
  datatype Image = Image(url: string, sexual: real, violence: real)

  /**
   * One entry of `results`; the tag, developer, staff and character lists
   * hold the names the embed uses.
   */
  datatype VnResult = VnResult(
    id: string, title: string, description: Option<string>,
    released: Option<string>, platforms: seq<string>, lengthMinutes: Option<int>,
    tags: seq<string>, developers: seq<string>, staff: seq<string>, characters: seq<string>,
    image: Option<Image>)

  /** The localised field names. */
  datatype Labels = Labels(released: string, platforms: string, playtime: string, tags: string,
                           developers: string, staff: string, characters: string)

  datatype Field = Field(name: string, value: string, inline: bool)

  datatype Embed = Embed(title: string, url: string, description: string, fields: seq<Field>, image: Option<string>)

  /** Indexing `results[0]` of an empty answer panics. */
  datatype Outcome = Sent(embed: Embed) | Failed(error: string) | Panicked

  const ListLimit: nat := 10
  const SafeSexual: real := 1.5
  const SafeViolence: real := 1.0
  /** The rating assumed for both scales when there is no image. */
  const MissingRating: real := 2.0

  /** `iter().take(10).collect().join(", ")` */
  function ListText(xs: seq<string>): string {
    Text.Join(Text.Take(xs, ListLimit), ", ")
  }

  // ------------------------------------------------------------- the fields

  /** The seven candidate fields in embed order: their names... */
  function LabelSeq(l: Labels): seq<string> {
    [l.released, l.platforms, l.playtime, l.tags, l.developers, l.staff, l.characters]
  }

  /** ...the text each would show (the playtime as whole minutes)... */
  function Candidates(vn: VnResult): seq<string> {
    [vn.released.GetOr(""), ListText(vn.platforms), Text.IntToDecimal(vn.lengthMinutes.GetOr(0)),
     ListText(vn.tags), ListText(vn.developers), ListText(vn.staff), ListText(vn.characters)]
  }

  /** ...and whether it is shown: optional values when present, lists when their text is not empty. */
  function Presence(vn: VnResult): seq<bool> {
    [vn.released.Some?, ListText(vn.platforms) != "", vn.lengthMinutes.Some?,
     ListText(vn.tags) != "", ListText(vn.developers) != "", ListText(vn.staff) != "",
     ListText(vn.characters) != ""]
  }

  /** The elements of `xs` whose flag is set, in order. */
  function Select<T>(xs: seq<T>, keep: seq<bool>): (r: seq<T>)
    requires |xs| == |keep|
    ensures |r| <= |xs|
  {
    if xs == [] then [] else (if keep[0] then [xs[0]] else []) + Select(xs[1..], keep[1..])
  }

  function Names(fields: seq<Field>): seq<string> {
    seq(|fields|, i requires 0 <= i < |fields| => fields[i].name)
  }

  function Values(fields: seq<Field>): seq<string> {
    seq(|fields|, i requires 0 <= i < |fields| => fields[i].value)
  }

  predicate AllInline(fields: seq<Field>) {
    forall i :: 0 <= i < |fields| ==> fields[i].inline
  }

  /** The fields pushed so far are the shown ones among the first `k` candidates. */
  predicate ShownUpTo(fields: seq<Field>, vn: VnResult, labels: Labels, k: nat)
    requires k <= 7
  {
    Names(fields) == Select(LabelSeq(labels)[..k], Presence(vn)[..k])
    && Values(fields) == Select(Candidates(vn)[..k], Presence(vn)[..k])
    && AllInline(fields)
  }

  lemma {:induction false} SelectSnoc<T>(xs: seq<T>, keep: seq<bool>, x: T, k: bool)
    requires |xs| == |keep|
    ensures Select(xs + [x], keep + [k]) == Select(xs, keep) + (if k then [x] else [])
    decreases |xs|
  {
    if xs == [] {
      assert Select([x], [k]) == (if k then [x] else []) + Select([], []);
    } else {
      assert (xs + [x])[1..] == xs[1..] + [x];
      assert (keep + [k])[1..] == keep[1..] + [k];
      SelectSnoc(xs[1..], keep[1..], x, k);
    }
  }

  /** The seven candidates one by one, as the pushes read them. */
  lemma Slots(vn: VnResult, labels: Labels)
    ensures Presence(vn)[0] == vn.released.Some? && LabelSeq(labels)[0] == labels.released
            && Candidates(vn)[0] == vn.released.GetOr("")
    ensures Presence(vn)[1] == (ListText(vn.platforms) != "") && LabelSeq(labels)[1] == labels.platforms
            && Candidates(vn)[1] == ListText(vn.platforms)
    ensures Presence(vn)[2] == vn.lengthMinutes.Some? && LabelSeq(labels)[2] == labels.playtime
            && Candidates(vn)[2] == Text.IntToDecimal(vn.lengthMinutes.GetOr(0))
    ensures Presence(vn)[3] == (ListText(vn.tags) != "") && LabelSeq(labels)[3] == labels.tags
            && Candidates(vn)[3] == ListText(vn.tags)
    ensures Presence(vn)[4] == (ListText(vn.developers) != "") && LabelSeq(labels)[4] == labels.developers
            && Candidates(vn)[4] == ListText(vn.developers)
    ensures Presence(vn)[5] == (ListText(vn.staff) != "") && LabelSeq(labels)[5] == labels.staff
            && Candidates(vn)[5] == ListText(vn.staff)
    ensures Presence(vn)[6] == (ListText(vn.characters) != "") && LabelSeq(labels)[6] == labels.characters
            && Candidates(vn)[6] == ListText(vn.characters)
  {
  }

  /** All seven pushed: the fields are the shown candidates. */
  lemma ShownAll(fields: seq<Field>, vn: VnResult, labels: Labels)
    requires ShownUpTo(fields, vn, labels, 7)
    ensures Names(fields) == Select(LabelSeq(labels), Presence(vn))
    ensures Values(fields) == Select(Candidates(vn), Presence(vn))
    ensures AllInline(fields)
  {
    assert LabelSeq(labels)[..7] == LabelSeq(labels);
    assert Candidates(vn)[..7] == Candidates(vn);
    assert Presence(vn)[..7] == Presence(vn);
  }

  lemma ShownNone(vn: VnResult, labels: Labels)
    ensures ShownUpTo([], vn, labels, 0)
  {
  }

  /** `if cond { fields.push((name, value, true)) }` */
  function PushIf(fields: seq<Field>, cond: bool, name: string, value: string): seq<Field> {
    if cond then fields + [Field(name, value, true)] else fields
  }

  /** Candidate `k` is pushed exactly when it is shown. */
  lemma PushStep(fields: seq<Field>, vn: VnResult, labels: Labels, k: nat, cond: bool, name: string, value: string)
    requires k < 7 && ShownUpTo(fields, vn, labels, k)
    requires cond == Presence(vn)[k] && name == LabelSeq(labels)[k] && value == Candidates(vn)[k]
    ensures ShownUpTo(PushIf(fields, cond, name, value), vn, labels, k + 1)
  {
    PushKeepsSelection(fields, LabelSeq(labels), Candidates(vn), Presence(vn), k);
  }

  /** Pushing candidate `k` when its flag is set extends the selection of the first `k` to the first `k + 1`. */
  lemma PushKeepsSelection(fields: seq<Field>, names: seq<string>, values: seq<string>, keep: seq<bool>, k: nat)
    requires k < |names| == |values| == |keep|
    requires Names(fields) == Select(names[..k], keep[..k]) && Values(fields) == Select(values[..k], keep[..k])
    requires AllInline(fields)
    ensures var pushed := PushIf(fields, keep[k], names[k], values[k]);
      Names(pushed) == Select(names[..k + 1], keep[..k + 1])
      && Values(pushed) == Select(values[..k + 1], keep[..k + 1])
      && AllInline(pushed)
  {
    assert names[..k + 1] == names[..k] + [names[k]];
    assert values[..k + 1] == values[..k] + [values[k]];
    assert keep[..k + 1] == keep[..k] + [keep[k]];
    SelectSnoc(names[..k], keep[..k], names[k], keep[k]);
    SelectSnoc(values[..k], keep[..k], values[k], keep[k]);
    var f := Field(names[k], values[k], true);
    assert Names(fields + [f]) == Names(fields) + [f.name];
    assert Values(fields + [f]) == Values(fields) + [f.value];
  }

  /**
   * The `let mut fields = vec![]` block: each candidate is pushed in turn
   * when it is shown. The fields are exactly the shown candidates, in order,
   * each inline.
   */
  method AssembleFields(vn: VnResult, labels: Labels) returns (fields: seq<Field>)
    ensures Names(fields) == Select(LabelSeq(labels), Presence(vn))
    ensures Values(fields) == Select(Candidates(vn), Presence(vn))
    ensures AllInline(fields)
  {
    Slots(vn, labels);
    ShownNone(vn, labels);
    fields := [];
    PushStep(fields, vn, labels, 0, vn.released.Some?, labels.released, vn.released.GetOr(""));
    fields := PushIf(fields, vn.released.Some?, labels.released, vn.released.GetOr(""));
    var platforms := ListText(vn.platforms);
    PushStep(fields, vn, labels, 1, platforms != "", labels.platforms, platforms);
    fields := PushIf(fields, platforms != "", labels.platforms, platforms);
    var playtime := Text.IntToDecimal(vn.lengthMinutes.GetOr(0));
    PushStep(fields, vn, labels, 2, vn.lengthMinutes.Some?, labels.playtime, playtime);
    fields := PushIf(fields, vn.lengthMinutes.Some?, labels.playtime, playtime);
    var tags := ListText(vn.tags);
    PushStep(fields, vn, labels, 3, tags != "", labels.tags, tags);
    fields := PushIf(fields, tags != "", labels.tags, tags);
    var developers := ListText(vn.developers);
    PushStep(fields, vn, labels, 4, developers != "", labels.developers, developers);
    fields := PushIf(fields, developers != "", labels.developers, developers);
    var staff := ListText(vn.staff);
    PushStep(fields, vn, labels, 5, staff != "", labels.staff, staff);
    fields := PushIf(fields, staff != "", labels.staff, staff);
    var characters := ListText(vn.characters);
    PushStep(fields, vn, labels, 6, characters != "", labels.characters, characters);
    fields := PushIf(fields, characters != "", labels.characters, characters);
    ShownAll(fields, vn, labels);
  }

  // ------------------------------------------------------------ the pieces

  /** Only the first ten items count. */
  lemma ListTextIgnoresTail(xs: seq<string>, ys: seq<string>)
    requires |xs| >= ListLimit
    ensures ListText(xs + ys) == ListText(xs)
  {
    assert (xs + ys)[..ListLimit] == xs[..ListLimit];
  }

  /** A list field is empty, and so left out, exactly when there is nothing to list or only one empty name. */
  lemma ListTextEmptyIff(xs: seq<string>)
    ensures ListText(xs) == "" <==> (xs == [] || (xs[0] == "" && |xs| == 1))
  {
    Text.JoinEmptyIff(Text.Take(xs, ListLimit), ", ");
    if |xs| == 1 {
      assert Text.Take(xs, ListLimit) == xs;
    }
  }

  /** A shown field is one of the candidates that were kept. */
  lemma {:induction false} SelectedAreKept<T>(xs: seq<T>, keep: seq<bool>, x: T)
    requires |xs| == |keep|
    ensures x in Select(xs, keep) <==> exists i :: 0 <= i < |xs| && keep[i] && xs[i] == x
    decreases |xs|
  {
    if xs != [] {
      SelectedAreKept(xs[1..], keep[1..], x);
      assert forall i :: 0 < i < |xs| ==> xs[i] == xs[1..][i - 1] && keep[i] == keep[1..][i - 1];
      if exists i :: 0 <= i < |xs| && keep[i] && xs[i] == x {
        var i :| 0 <= i < |xs| && keep[i] && xs[i] == x;
        if i > 0 {
          assert keep[1..][i - 1] && xs[1..][i - 1] == x;
        }
      }
    }
  }

  /** Every candidate is shown when all are present, and none when all are absent. */
  lemma {:induction false} SelectExtremes<T>(xs: seq<T>, keep: seq<bool>)
    requires |xs| == |keep|
    ensures (forall i :: 0 <= i < |keep| ==> keep[i]) ==> Select(xs, keep) == xs
    ensures (forall i :: 0 <= i < |keep| ==> !keep[i]) ==> Select(xs, keep) == []
    decreases |xs|
  {
    if xs != [] {
      assert forall i :: 0 <= i < |keep| - 1 ==> keep[1..][i] == keep[i + 1];
      SelectExtremes(xs[1..], keep[1..]);
      assert [xs[0]] + xs[1..] == xs;
    }
  }

  /**
   * The cover is attached only if there is one, its sexual rating is at most
   * 1.5 and its violence rating at most 1.0.
   */
  function ShownImage(vn: VnResult): (r: Option<string>)
    ensures r.Some? <==> vn.image.Some? && vn.image.value.sexual <= SafeSexual && vn.image.value.violence <= SafeViolence
    ensures r.Some? ==> r.value == vn.image.value.url
  {
    var sexual := if vn.image.Some? then vn.image.value.sexual else MissingRating;
    var violence := if vn.image.Some? then vn.image.value.violence else MissingRating;
    if sexual <= SafeSexual && violence <= SafeViolence && vn.image.Some? then Some(vn.image.value.url) else None
  }

  /** The page of a visual novel on VNDB. */
  function VnUrl(id: string): string {
    "https://vndb.org/" + id
  }

  // ----------------------------------------------------------- the command

  /**
   * `send_embed`: the "title" option ("" when absent) is looked up, the first
   * result fills the embed, and the description goes through the markdown
   * converter.
   */
  method SendEmbed(title: Option<string>, labels: Labels,
                   lookup: string -> Result<seq<VnResult>, string>,
                   markdown: string -> string) returns (r: Outcome)
    ensures lookup(title.GetOr("")).Err? ==> r == Failed(lookup(title.GetOr("")).error)
    ensures lookup(title.GetOr("")).Ok? && lookup(title.GetOr("")).value == [] ==> r == Panicked
    ensures r.Sent? ==>
      var results := lookup(title.GetOr(""));
      results.Ok? && results.value != [] &&
      var vn := results.value[0];
      r.embed.title == vn.title && r.embed.url == VnUrl(vn.id)
      && r.embed.description == markdown(vn.description.GetOr(""))
      && Names(r.embed.fields) == Select(LabelSeq(labels), Presence(vn))
      && Values(r.embed.fields) == Select(Candidates(vn), Presence(vn))
      && r.embed.image == ShownImage(vn)
    ensures lookup(title.GetOr("")).Ok? && lookup(title.GetOr("")).value != [] ==> r.Sent?
  {
    var reply := lookup(title.GetOr(""));
    if reply.Err? {
      return Failed(reply.error);
    }
    if reply.value == [] {
      return Panicked;
    }
    var vn := reply.value[0];
    var fields := AssembleFields(vn, labels);
    r := Sent(Embed(vn.title, VnUrl(vn.id), markdown(vn.description.GetOr("")), fields, ShownImage(vn)));
  }
}

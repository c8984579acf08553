/**
 * The member-colour background task
 * (bot/src/background_task/server_image/calculate_user_color.rs): every
 * member's average avatar colour is kept in the `user_color` table and only
 * recomputed when the avatar URL changed; `get_member` pages through a
 * guild's members 1000 at a time.
 */
module UserColor {
  import opened Wrappers
  import Text
  import Arith

  type U8 = x: int | 0 <= x < 256

  /** The parts of a guild member the task reads. `face` is the avatar URL
      or, without one, the default avatar URL. */
  datatype Member = Member(id: string, name: string, avatarUrl: Option<string>, defaultAvatarUrl: string)

  function Face(m: Member): string {
    m.avatarUrl.GetOr(m.defaultAvatarUrl)
  }

  /** A row of `user_color`. */
  datatype UserColorRow = UserColorRow(userId: string, profilePictureUrl: string, color: string, images: string)

  /** The URL stored for a member without an avatar. */
  const FallbackAvatar := "https://cdn.discordapp.com/avatars/260706120086192129/ec231a35c9a33dd29ea4819d29d06056.webp?size=64"

  /** The URL `calculate_users_color` compares: only `?size=1024` becomes
      `?size=64`. */
  function ScanUrl(m: Member): string {
    Text.ReplaceAll(m.avatarUrl.GetOr(FallbackAvatar), "?size=1024", "?size=64")
  }

  /** The sizes `return_average_user_color` rewrites, in the order it does. */
  const RewrittenSizes: seq<string> := ["4096", "2048", "1024", "512", "256", "128"]

  /** Rewrites `?size=<n>` to `?size=64` for the first `k` sizes, each over
      the result of the previous. */
  function RewriteSizes(url: string, k: nat): string
    requires k <= |RewrittenSizes|
  {
    if k == 0 then url
    else Text.ReplaceAll(RewriteSizes(url, k - 1), "?size=" + RewrittenSizes[k - 1], "?size=64")
  }

  /** The URL `return_average_user_color` compares and returns. */
  function NormalizedUrl(m: Member): string {
    RewriteSizes(m.avatarUrl.GetOr(FallbackAvatar), 6)
  }

  /** Sizes later in the list never occur in `base?size=64`. */
  lemma SmallSizeUntouched(base: string, k: nat)
    requires '?' !in base && k <= |RewrittenSizes|
    ensures RewriteSizes(base + "?size=64", k) == base + "?size=64"
  {
    if k > 0 {
      SmallSizeUntouched(base, k - 1);
      var pat := "?size=" + RewrittenSizes[k - 1];
      assert |pat| >= 9;
      assert !Text.StartsWith("?size=64", pat);
      Text.NotContainsAfterBase(base, "?size=64", pat);
      Text.ReplaceAllAbsent(base + "?size=64", pat, "?size=64");
    }
  }

  /** A size earlier in the list is never a prefix of a later one: it is
      longer, or differs in its first digit. */
  lemma SizeIsNotPrefix(i: nat, j: nat)
    requires i < j < |RewrittenSizes|
    ensures !Text.StartsWith("?size=" + RewrittenSizes[j], "?size=" + RewrittenSizes[i])
  {
    var tail := "?size=" + RewrittenSizes[j];
    var pat := "?size=" + RewrittenSizes[i];
    assert |RewrittenSizes[i]| > |RewrittenSizes[j]| || RewrittenSizes[i][0] != RewrittenSizes[j][0];
    assert |pat| > |tail| || pat[6] != tail[6];
    assert |pat| > |tail| || tail[..|pat|][6] != pat[6];
  }

  /** Before the size is reached, its URL is left alone. */
  lemma {:induction false} OtherSizeUntouched(base: string, n: nat, k: nat)
    requires '?' !in base && n < |RewrittenSizes| && k <= n
    ensures RewriteSizes(base + "?size=" + RewrittenSizes[n], k) == base + "?size=" + RewrittenSizes[n]
  {
    if k > 0 {
      OtherSizeUntouched(base, n, k - 1);
      var tail := "?size=" + RewrittenSizes[n];
      var pat := "?size=" + RewrittenSizes[k - 1];
      SizeIsNotPrefix(k - 1, n);
      assert base + "?size=" + RewrittenSizes[n] == base + tail;
      Text.NotContainsAfterBase(base, tail, pat);
      Text.ReplaceAllAbsent(base + tail, pat, "?size=64");
    }
  }

  /** Any of the six sizes at the end of a CDN URL becomes `?size=64`, and a
      URL already at size 64 stays as it is. */
  lemma NormalizesSize(base: string, n: nat)
    requires '?' !in base && n < |RewrittenSizes|
    ensures RewriteSizes(base + "?size=" + RewrittenSizes[n], 6) == base + "?size=64"
    ensures RewriteSizes(base + "?size=64", 6) == base + "?size=64"
  {
    SmallSizeUntouched(base, 6);
    OtherSizeUntouched(base, n, n);
    var pat := "?size=" + RewrittenSizes[n];
    assert base + "?size=" + RewrittenSizes[n] == base + pat;
    Text.ReplaceAllSuffix(base, pat, "?size=64");
    assert RewriteSizes(base + pat, n + 1) == base + "?size=64";
    AfterSmallSize(base, n + 1, 6);
  }

  lemma {:induction false} AfterSmallSize(base: string, from: nat, k: nat)
    requires '?' !in base && from <= k <= |RewrittenSizes|
    requires from == 0 || RewriteSizes(base + "?size=" + RewrittenSizes[from - 1], from) == base + "?size=64"
    ensures from > 0 ==> RewriteSizes(base + "?size=" + RewrittenSizes[from - 1], k) == base + "?size=64"
  {
    if from > 0 && k > from {
      AfterSmallSize(base, from, k - 1);
      var pat := "?size=" + RewrittenSizes[k - 1];
      assert |pat| >= 9;
      assert !Text.StartsWith("?size=64", pat);
      Text.NotContainsAfterBase(base, "?size=64", pat);
      Text.ReplaceAllAbsent(base + "?size=64", pat, "?size=64");
    }
  }

  // ------------------------------------------------------ average colour

  /** An RGBA pixel. */
  datatype Pixel = Pixel(r: U8, g: U8, b: U8, a: U8)

  /** A decoded avatar converted to RGBA8. */
  datatype RgbaImage = RgbaImage(width: nat, height: nat, pixels: seq<Pixel>)

  const U32Modulus: nat := 0x1_0000_0000

  function Red(p: Pixel): nat { p.r }
  function Green(p: Pixel): nat { p.g }
  function Blue(p: Pixel): nat { p.b }

  /** The sum of one channel over all pixels. The source adds in `u32` with a
      parallel reduce; addition modulo 2³² does not depend on the grouping,
      so the wrapped total is this sum taken modulo 2³². */
  function ChannelSum(ps: seq<Pixel>, channel: Pixel -> nat): nat {
    if ps == [] then 0 else ChannelSum(ps[..|ps| - 1], channel) + channel(ps[|ps| - 1])
  }

  lemma {:induction false} ChannelSumBound(ps: seq<Pixel>, channel: Pixel -> nat)
    requires forall p :: channel(p) <= 255
    ensures ChannelSum(ps, channel) <= 255 * |ps|
  {
    if ps != [] {
      ChannelSumBound(ps[..|ps| - 1], channel);
    }
  }

  /** `width * height` in `u32`. */
  function PixelCount(img: RgbaImage): nat {
    Wrap(img.width * img.height)
  }

  /** A `u32` result: the value modulo 2³². */
  function Wrap(x: nat): (r: nat)
    ensures r < U32Modulus
  {
    x % U32Modulus
  }

  lemma WrapSmall(x: nat)
    requires x < U32Modulus
    ensures Wrap(x) == x
  {
  }

  /** The three `u32` averages, or nothing where the source divides by a
      zero pixel count (a panic). */
  function AverageColor(img: RgbaImage): Option<(nat, nat, nat)> {
    var n := PixelCount(img);
    if n == 0 then None
    else Some((Mean(ChannelSum(img.pixels, Red), n),
               Mean(ChannelSum(img.pixels, Green), n),
               Mean(ChannelSum(img.pixels, Blue), n)))
  }

  /** `total / num_pixels` on the `u32` total. */
  function Mean(total: nat, n: nat): nat
    requires n > 0
  {
    Wrap(total) / n
  }

  /** Without wrap-around (fewer than 16 843 010 pixels), every channel
      average is the true mean rounded down, at most 255. */
  lemma AverageIsByte(img: RgbaImage)
    requires |img.pixels| == img.width * img.height && 0 < |img.pixels|
    requires 255 * |img.pixels| < U32Modulus
    ensures var avg := AverageColor(img);
      avg.Some?
      && avg.value.0 == ChannelSum(img.pixels, Red) / |img.pixels| <= 255
      && avg.value.1 == ChannelSum(img.pixels, Green) / |img.pixels| <= 255
      && avg.value.2 == ChannelSum(img.pixels, Blue) / |img.pixels| <= 255
  {
    var n := |img.pixels|;
    ChannelSumBound(img.pixels, Red);
    ChannelSumBound(img.pixels, Green);
    ChannelSumBound(img.pixels, Blue);
    assert 255 * n == n * 255;
    WrapSmall(n);
    WrapSmall(ChannelSum(img.pixels, Red));
    WrapSmall(ChannelSum(img.pixels, Green));
    WrapSmall(ChannelSum(img.pixels, Blue));
    Arith.QuotientBound(ChannelSum(img.pixels, Red), n, 255);
    Arith.QuotientBound(ChannelSum(img.pixels, Green), n, 255);
    Arith.QuotientBound(ChannelSum(img.pixels, Blue), n, 255);
  }

  /** `format!("#{:02x}{:02x}{:02x}", r, g, b)` */
  function FormatColor(r: nat, g: nat, b: nat): string {
    "#" + Text.Hex02(r) + Text.Hex02(g) + Text.Hex02(b)
  }

  /** What `calculate_user_color` ends with: the colour and the PNG data URL,
      a failed download or decode, or the division-by-zero panic. */
  datatype Computation = Computed(color: string, image: string) | NoImage | DivisionByZero

  /** `calculate_user_color`: `fetch` downloads and decodes the face URL at
      size 64, `encode` is the base64 of the PNG encoding. */
  function CalculateUserColor(m: Member, fetch: string -> Option<RgbaImage>, encode: RgbaImage -> string): (c: Computation)
    ensures c.Computed? ==> |c.color| >= 7 && c.color[0] == '#'
  {
    match fetch(Text.ReplaceAll(Face(m), "?size=1024", "?size=64"))
    case None => NoImage
    case Some(img) =>
      match AverageColor(img)
      case None => DivisionByZero
      case Some((r, g, b)) => Computed(FormatColor(r, g, b), "data:image/png;base64," + encode(img))
  }

  /** A typical avatar's colour is exactly `#rrggbb` of its channel means,
      which reads back as those means. */
  lemma ComputedColorIsHex(m: Member, fetch: string -> Option<RgbaImage>, encode: RgbaImage -> string)
    requires var img := fetch(Text.ReplaceAll(Face(m), "?size=1024", "?size=64"));
      img.Some? && |img.value.pixels| == img.value.width * img.value.height
      && 0 < |img.value.pixels| && 255 * |img.value.pixels| < U32Modulus
    ensures var img := fetch(Text.ReplaceAll(Face(m), "?size=1024", "?size=64")).value;
      var n := |img.pixels|;
      var c := CalculateUserColor(m, fetch, encode);
      c.Computed? && |c.color| == 7
      && Text.ParseHex2(c.color[1..3]) == Some(ChannelSum(img.pixels, Red) / n)
      && Text.ParseHex2(c.color[3..5]) == Some(ChannelSum(img.pixels, Green) / n)
      && Text.ParseHex2(c.color[5..7]) == Some(ChannelSum(img.pixels, Blue) / n)
  {
    var img := fetch(Text.ReplaceAll(Face(m), "?size=1024", "?size=64")).value;
    AverageIsByte(img);
    var avg := AverageColor(img).value;
    Text.Hex2RoundTrip(avg.0);
    Text.Hex2RoundTrip(avg.1);
    Text.Hex2RoundTrip(avg.2);
    assert FormatColor(avg.0, avg.1, avg.2) == Text.HexColour(avg.0, avg.1, avg.2);
  }

  // ---------------------------------------------- calculate_users_color

  /** How a pass over the members ends: all done, an error returned by `?`
      (a failed download or decode), or the division-by-zero panic. */
  datatype RunEnd = Completed | Errored | Crashed

  /** The stored URL; a member without a row counts as "". */
  function StoredUrl(colors: map<string, UserColorRow>, id: string): string {
    if id in colors then colors[id].profilePictureUrl else ""
  }

  /** The tables after a pass and how it ended. */
  datatype Progress = Progress(colors: map<string, UserColorRow>, names: map<string, string>, end: RunEnd)

  /** `calculate_users_color` over `members` from the given tables:
      blacklisted ids are skipped; a member whose URL matches the stored one
      is left alone; any other gets a freshly computed colour upserted into
      `user_color` and its name upserted into `user_data`. */
  function ScanFrom(colors: map<string, UserColorRow>, names: map<string, string>, members: seq<Member>,
                    blacklist: seq<string>, fetch: string -> Option<RgbaImage>, encode: RgbaImage -> string): Progress
    decreases |members|
  {
    if members == [] then Progress(colors, names, Completed)
    else
      var m := members[0];
      var url := ScanUrl(m);
      if m.id in blacklist || url == StoredUrl(colors, m.id) then
        ScanFrom(colors, names, members[1..], blacklist, fetch, encode)
      else
        match CalculateUserColor(m, fetch, encode)
        case NoImage => Progress(colors, names, Errored)
        case DivisionByZero => Progress(colors, names, Crashed)
        case Computed(color, image) =>
          ScanFrom(colors[m.id := UserColorRow(m.id, url, color, image)], names[m.id := m.name],
                   members[1..], blacklist, fetch, encode)
  }

  /** A blacklisted member's rows are never touched. */
  lemma {:induction false} ScanSkipsBlacklisted(colors: map<string, UserColorRow>, names: map<string, string>, members: seq<Member>,
                                                blacklist: seq<string>, fetch: string -> Option<RgbaImage>, encode: RgbaImage -> string, id: string)
    requires id in blacklist
    ensures var p := ScanFrom(colors, names, members, blacklist, fetch, encode);
      (id in p.colors <==> id in colors) && (id in colors ==> p.colors[id] == colors[id])
      && (id in p.names <==> id in names) && (id in names ==> p.names[id] == names[id])
    decreases |members|
  {
    if members != [] {
      var m := members[0];
      if m.id in blacklist || ScanUrl(m) == StoredUrl(colors, m.id) {
        ScanSkipsBlacklisted(colors, names, members[1..], blacklist, fetch, encode, id);
      } else if CalculateUserColor(m, fetch, encode).Computed? {
        var c := CalculateUserColor(m, fetch, encode);
        assert m.id != id;
        ScanSkipsBlacklisted(colors[m.id := UserColorRow(m.id, ScanUrl(m), c.color, c.image)], names[m.id := m.name],
                             members[1..], blacklist, fetch, encode, id);
      }
    }
  }

  /** Members that appear twice (from two guilds) have the same avatar. */
  ghost predicate ConsistentMembers(members: seq<Member>) {
    forall j, k :: 0 <= j < |members| && 0 <= k < |members| && members[j].id == members[k].id ==>
      ScanUrl(members[j]) == ScanUrl(members[k])
  }

  /** Every non-blacklisted member has a row holding its current URL. */
  ghost predicate UpToDate(colors: map<string, UserColorRow>, members: seq<Member>, blacklist: seq<string>) {
    forall k :: 0 <= k < |members| && members[k].id !in blacklist ==> StoredUrl(colors, members[k].id) == ScanUrl(members[k])
  }

  /** With every member up to date, a pass changes nothing and computes
      nothing. */
  lemma {:induction false} ScanOfUpToDateChangesNothing(colors: map<string, UserColorRow>, names: map<string, string>, members: seq<Member>,
                                                        blacklist: seq<string>, fetch: string -> Option<RgbaImage>, encode: RgbaImage -> string)
    requires UpToDate(colors, members, blacklist)
    ensures ScanFrom(colors, names, members, blacklist, fetch, encode) == Progress(colors, names, Completed)
    decreases |members|
  {
    if members != [] {
      assert members[0] == members[0];
      assert UpToDate(colors, members[1..], blacklist) by {
        forall k | 0 <= k < |members[1..]| ensures members[1..][k] == members[k + 1] { }
      }
      ScanOfUpToDateChangesNothing(colors, names, members[1..], blacklist, fetch, encode);
    }
  }

  /** A completed pass leaves every member it saw up to date, provided a
      user's avatar is the same in every guild it appears in. */
  lemma {:induction false} ScanCompletedLeavesUpToDate(colors: map<string, UserColorRow>, names: map<string, string>, members: seq<Member>,
                                                       blacklist: seq<string>, fetch: string -> Option<RgbaImage>, encode: RgbaImage -> string)
    requires ConsistentMembers(members)
    requires ScanFrom(colors, names, members, blacklist, fetch, encode).end == Completed
    ensures UpToDate(ScanFrom(colors, names, members, blacklist, fetch, encode).colors, members, blacklist)
    decreases |members|
  {
    if members != [] {
      var m := members[0];
      var rest := members[1..];
      assert ConsistentMembers(rest) by {
        forall k | 0 <= k < |rest| ensures rest[k] == members[k + 1] { }
      }
      var next := if m.id in blacklist || ScanUrl(m) == StoredUrl(colors, m.id) then colors
        else colors[m.id := UserColorRow(m.id, ScanUrl(m), CalculateUserColor(m, fetch, encode).color, CalculateUserColor(m, fetch, encode).image)];
      var nextNames := if m.id in blacklist || ScanUrl(m) == StoredUrl(colors, m.id) then names else names[m.id := m.name];
      assert ScanFrom(colors, names, members, blacklist, fetch, encode) == ScanFrom(next, nextNames, rest, blacklist, fetch, encode);
      ScanCompletedLeavesUpToDate(next, nextNames, rest, blacklist, fetch, encode);
      var p := ScanFrom(next, nextNames, rest, blacklist, fetch, encode);
      if m.id !in blacklist {
        assert StoredUrl(next, m.id) == ScanUrl(m);
        if exists k :: 0 <= k < |rest| && rest[k].id == m.id {
          var k :| 0 <= k < |rest| && rest[k].id == m.id;
          assert members[k + 1] == rest[k];
          assert StoredUrl(p.colors, m.id) == ScanUrl(rest[k]);
        } else {
          ScanKeepsUnseen(next, nextNames, rest, blacklist, fetch, encode, m.id);
        }
      }
      forall k | 0 <= k < |members| && members[k].id !in blacklist
        ensures StoredUrl(p.colors, members[k].id) == ScanUrl(members[k])
      {
        if k > 0 {
          assert members[k] == rest[k - 1];
        }
      }
    }
  }

  /** A pass only writes rows of members it sees. */
  lemma {:induction false} ScanKeepsUnseen(colors: map<string, UserColorRow>, names: map<string, string>, members: seq<Member>,
                                           blacklist: seq<string>, fetch: string -> Option<RgbaImage>, encode: RgbaImage -> string, id: string)
    requires forall k :: 0 <= k < |members| ==> members[k].id != id
    ensures StoredUrl(ScanFrom(colors, names, members, blacklist, fetch, encode).colors, id) == StoredUrl(colors, id)
    decreases |members|
  {
    if members != [] {
      var m := members[0];
      var rest := members[1..];
      assert forall k :: 0 <= k < |rest| ==> rest[k] == members[k + 1];
      if m.id in blacklist || ScanUrl(m) == StoredUrl(colors, m.id) {
        ScanKeepsUnseen(colors, names, rest, blacklist, fetch, encode, id);
      } else if CalculateUserColor(m, fetch, encode).Computed? {
        var c := CalculateUserColor(m, fetch, encode);
        ScanKeepsUnseen(colors[m.id := UserColorRow(m.id, ScanUrl(m), c.color, c.image)], names[m.id := m.name],
                        rest, blacklist, fetch, encode, id);
      }
    }
  }

  /** So a second pass right after a completed one changes nothing. */
  lemma ScanIsIdempotent(colors: map<string, UserColorRow>, names: map<string, string>, members: seq<Member>,
                         blacklist: seq<string>, fetch: string -> Option<RgbaImage>, encode: RgbaImage -> string)
    requires ConsistentMembers(members)
    requires ScanFrom(colors, names, members, blacklist, fetch, encode).end == Completed
    ensures var p := ScanFrom(colors, names, members, blacklist, fetch, encode);
      ScanFrom(p.colors, p.names, members, blacklist, fetch, encode) == p
  {
    var p := ScanFrom(colors, names, members, blacklist, fetch, encode);
    ScanCompletedLeavesUpToDate(colors, names, members, blacklist, fetch, encode);
    ScanOfUpToDateChangesNothing(p.colors, p.names, members, blacklist, fetch, encode);
  }

  // ------------------------------------------ return_average_user_color

  /** A colour, the URL it was computed from and the PNG data URL. */
  type Entry = (string, string, string)

  datatype ListEnd = Listed(entries: seq<Entry>) | ListErrored | ListCrashed

  datatype Averages = Averages(colors: map<string, UserColorRow>, names: map<string, string>, end: ListEnd)

  /** `return_average_user_color` from the given tables, with `acc` the
      entries pushed so far: a stored row whose URL matches gives its stored
      entry and writes nothing; a missing or outdated row is recomputed and
      upserted. */
  function AverageFrom(colors: map<string, UserColorRow>, names: map<string, string>, members: seq<Member>,
                       acc: seq<Entry>, fetch: string -> Option<RgbaImage>, encode: RgbaImage -> string): Averages
    decreases |members|
  {
    if members == [] then Averages(colors, names, Listed(acc))
    else
      var m := members[0];
      var url := NormalizedUrl(m);
      if m.id in colors && colors[m.id].profilePictureUrl == url then
        var row := colors[m.id];
        AverageFrom(colors, names, members[1..], acc + [(row.color, row.profilePictureUrl, row.images)], fetch, encode)
      else
        match CalculateUserColor(m, fetch, encode)
        case NoImage => Averages(colors, names, ListErrored)
        case DivisionByZero => Averages(colors, names, ListCrashed)
        case Computed(color, image) =>
          AverageFrom(colors[m.id := UserColorRow(m.id, url, color, image)], names[m.id := m.name],
                      members[1..], acc + [(color, url, image)], fetch, encode)
  }

  /** One entry per member, in member order, each carrying that member's
      normalised URL after the entries already pushed. */
  lemma {:induction false} AverageOnePerMember(colors: map<string, UserColorRow>, names: map<string, string>, members: seq<Member>,
                                               acc: seq<Entry>, fetch: string -> Option<RgbaImage>, encode: RgbaImage -> string)
    requires AverageFrom(colors, names, members, acc, fetch, encode).end.Listed?
    ensures EntriesFollow(AverageFrom(colors, names, members, acc, fetch, encode).end.entries, acc, members)
    decreases |members|
  {
    if members != [] {
      var m := members[0];
      var url := NormalizedUrl(m);
      var rest := members[1..];
      if m.id in colors && colors[m.id].profilePictureUrl == url {
        var row := colors[m.id];
        var e: Entry := (row.color, row.profilePictureUrl, row.images);
        AverageStepStored(colors, names, members, acc, fetch, encode);
        AverageOnePerMember(colors, names, rest, acc + [e], fetch, encode);
        EntriesExtend(AverageFrom(colors, names, rest, acc + [e], fetch, encode).end.entries, acc, e, members);
      } else {
        var c := CalculateUserColor(m, fetch, encode);
        AverageStepComputed(colors, names, members, acc, fetch, encode);
        var colors' := colors[m.id := UserColorRow(m.id, url, c.color, c.image)];
        var names' := names[m.id := m.name];
        var e: Entry := (c.color, url, c.image);
        AverageOnePerMember(colors', names', rest, acc + [e], fetch, encode);
        EntriesExtend(AverageFrom(colors', names', rest, acc + [e], fetch, encode).end.entries, acc, e, members);
      }
    }
  }

  /** A member whose stored row has the current URL contributes that row. */
  lemma AverageStepStored(colors: map<string, UserColorRow>, names: map<string, string>, members: seq<Member>,
                          acc: seq<Entry>, fetch: string -> Option<RgbaImage>, encode: RgbaImage -> string)
    requires members != [] && members[0].id in colors
    requires colors[members[0].id].profilePictureUrl == NormalizedUrl(members[0])
    ensures var row := colors[members[0].id];
      AverageFrom(colors, names, members, acc, fetch, encode)
      == AverageFrom(colors, names, members[1..], acc + [(row.color, row.profilePictureUrl, row.images)], fetch, encode)
  {
  }

  /** Any other member is computed afresh, and only a computed colour lets the walk go on. */
  lemma AverageStepComputed(colors: map<string, UserColorRow>, names: map<string, string>, members: seq<Member>,
                            acc: seq<Entry>, fetch: string -> Option<RgbaImage>, encode: RgbaImage -> string)
    requires members != [] && AverageFrom(colors, names, members, acc, fetch, encode).end.Listed?
    requires !(members[0].id in colors && colors[members[0].id].profilePictureUrl == NormalizedUrl(members[0]))
    ensures var m := members[0];
      var c := CalculateUserColor(m, fetch, encode);
      c.Computed?
      && AverageFrom(colors, names, members, acc, fetch, encode)
         == AverageFrom(colors[m.id := UserColorRow(m.id, NormalizedUrl(m), c.color, c.image)], names[m.id := m.name],
                        members[1..], acc + [(c.color, NormalizedUrl(m), c.image)], fetch, encode)
  {
  }

  /** `out` is `acc` followed by one entry per member, in order, each with that member's normalised URL. */
  predicate EntriesFollow(out: seq<Entry>, acc: seq<Entry>, members: seq<Member>) {
    |out| == |acc| + |members| && out[..|acc|] == acc
    && forall k :: 0 <= k < |members| ==> out[|acc| + k].1 == NormalizedUrl(members[k])
  }

  /** One step of the walk: the entry for the first member followed by those for the rest. */
  lemma EntriesExtend(out: seq<Entry>, acc: seq<Entry>, e: Entry, members: seq<Member>)
    requires members != [] && e.1 == NormalizedUrl(members[0])
    requires EntriesFollow(out, acc + [e], members[1..])
    ensures EntriesFollow(out, acc, members)
  {
    assert out[..|acc|] == out[..|acc| + 1][..|acc|];
    assert out[|acc|] == out[..|acc| + 1][|acc|] == e;
    forall k | 0 <= k < |members| ensures out[|acc| + k].1 == NormalizedUrl(members[k]) {
      if k > 0 { assert members[k] == members[1..][k - 1]; }
    }
  }


  /** When every member's stored row matches its URL, the stored colours are
      listed as they are and nothing is computed or written. */
  lemma {:induction false} AverageServedFromStore(colors: map<string, UserColorRow>, names: map<string, string>, members: seq<Member>,
                                                  acc: seq<Entry>, fetch: string -> Option<RgbaImage>, encode: RgbaImage -> string)
    requires forall k :: 0 <= k < |members| ==> members[k].id in colors && colors[members[k].id].profilePictureUrl == NormalizedUrl(members[k])
    ensures var a := AverageFrom(colors, names, members, acc, fetch, encode);
      a.colors == colors && a.names == names && a.end.Listed?
      && a.end.entries == acc + seq(|members|, k requires 0 <= k < |members| =>
           (colors[members[k].id].color, colors[members[k].id].profilePictureUrl, colors[members[k].id].images))
    decreases |members|
  {
    if members != [] {
      var m := members[0];
      var rest := members[1..];
      var row := colors[m.id];
      assert members[0] == m;
      assert forall k :: 0 <= k < |rest| ==> rest[k] == members[k + 1];
      AverageServedFromStore(colors, names, rest, acc + [(row.color, row.profilePictureUrl, row.images)], fetch, encode);
    }
  }

  // ---------------------------------------------------------- the tables

  /** The `user_color` and `user_data` tables, with the avatar download and
      PNG encoding as fixed oracles. */
  class UserColorStore {
    var colors: map<string, UserColorRow>
    var names: map<string, string>
    const fetch: string -> Option<RgbaImage>
    const encode: RgbaImage -> string

    constructor (fetch: string -> Option<RgbaImage>, encode: RgbaImage -> string)
      ensures colors == map[] && names == map[]
      ensures this.fetch == fetch && this.encode == encode
    {
      colors := map[];
      names := map[];
      this.fetch := fetch;
      this.encode := encode;
    }

    /** `calculate_users_color`: the tables end as `ScanFrom` describes. */
    method CalculateUsersColor(members: seq<Member>, blacklist: seq<string>) returns (end: RunEnd)
      modifies this`colors, this`names
      ensures Progress(colors, names, end) == ScanFrom(old(colors), old(names), members, blacklist, fetch, encode)
    {
      var i := 0;
      while i < |members|
        invariant 0 <= i <= |members|
        invariant ScanFrom(colors, names, members[i..], blacklist, fetch, encode)
          == ScanFrom(old(colors), old(names), members, blacklist, fetch, encode)
      {
        var m := members[i];
        assert members[i..][0] == m && members[i..][1..] == members[i + 1..];
        if m.id in blacklist {
          i := i + 1;
          continue;
        }
        var pfpUrl := ScanUrl(m);
        var old_ := StoredUrl(colors, m.id);
        if pfpUrl != old_ {
          var c := CalculateUserColor(m, fetch, encode);
          if c.NoImage? {
            return Errored;
          }
          if c.DivisionByZero? {
            return Crashed;
          }
          colors := colors[m.id := UserColorRow(m.id, pfpUrl, c.color, c.image)];
          names := names[m.id := m.name];
        }
        i := i + 1;
      }
      end := Completed;
    }

    /** `return_average_user_color`: the entries and tables end as
        `AverageFrom` describes. */
    method ReturnAverageUserColor(members: seq<Member>) returns (end: ListEnd)
      modifies this`colors, this`names
      ensures Averages(colors, names, end) == AverageFrom(old(colors), old(names), members, [], fetch, encode)
    {
      var averageColors: seq<Entry> := [];
      var i := 0;
      while i < |members|
        invariant 0 <= i <= |members|
        invariant AverageFrom(colors, names, members[i..], averageColors, fetch, encode)
          == AverageFrom(old(colors), old(names), members, [], fetch, encode)
      {
        var m := members[i];
        assert members[i..][0] == m && members[i..][1..] == members[i + 1..];
        var pfpUrl := NormalizedUrl(m);
        if m.id in colors && colors[m.id].profilePictureUrl == pfpUrl {
          var row := colors[m.id];
          averageColors := averageColors + [(row.color, row.profilePictureUrl, row.images)];
        } else {
          var c := CalculateUserColor(m, fetch, encode);
          if c.NoImage? {
            return ListErrored;
          }
          if c.DivisionByZero? {
            return ListCrashed;
          }
          averageColors := averageColors + [(c.color, pfpUrl, c.image)];
          colors := colors[m.id := UserColorRow(m.id, pfpUrl, c.color, c.image)];
          names := names[m.id := m.name];
        }
        i := i + 1;
      }
      end := Listed(averageColors);
    }
  }

  // ---------------------------------------------------------- get_member

  /** The pages concatenated in order. */
  function Flatten(pages: seq<seq<Member>>): seq<Member> {
    if pages == [] then [] else Flatten(pages[..|pages| - 1]) + pages[|pages| - 1]
  }

  /** The `after` cursor of the next request: none for the first, else the
      last member fetched so far. */
  function After(fetched: seq<Member>): Option<string> {
    if fetched == [] then None else Some(fetched[|fetched| - 1].id)
  }

  const PageLimit: nat := 1000

  /** The members endpoint, asked for its `k`-th page after a cursor; `None`
      is a request error. It is indexed by the request number as well, so it
      can describe any sequence of replies. */
  type MembersApi = (nat, Option<string>) -> Option<seq<Member>>

  /** From request `bound` on, no reply is a full page: the guild has
      finitely many members. */
  ghost predicate EventuallyShort(api: MembersApi, bound: nat) {
    forall k: nat, after: Option<string> :: k >= bound && api(k, after).Some? ==> |api(k, after).value| != PageLimit
  }

  /** Each page is the reply to its own request: the `k`-th, after the last
      member of the pages before it. */
  ghost predicate RepliesMatch(api: MembersApi, pages: seq<seq<Member>>) {
    pages == []
    || (RepliesMatch(api, pages[..|pages| - 1])
        && api(|pages| - 1, After(Flatten(pages[..|pages| - 1]))) == Some(pages[|pages| - 1]))
  }

  lemma {:induction false} RepliesMatchAt(api: MembersApi, pages: seq<seq<Member>>, k: nat)
    requires RepliesMatch(api, pages) && k < |pages|
    ensures api(k, After(Flatten(pages[..k]))) == Some(pages[k])
  {
    if k < |pages| - 1 {
      var init := pages[..|pages| - 1];
      RepliesMatchAt(api, init, k);
      assert init[..k] == pages[..k] && init[k] == pages[k];
    }
  }

  /**
   * `get_member`: keeps asking while every page so far was full. The result
   * is its pages in order; each page is the reply to its request, all but the
   * last are full, and it stopped on a short page or on an error.
   */
  method GetMember(api: MembersApi, ghost bound: nat) returns (members: seq<Member>, ghost pages: seq<seq<Member>>)
    requires EventuallyShort(api, bound)
    ensures members == Flatten(pages)
    ensures RepliesMatch(api, pages)
    ensures forall k :: 0 <= k < |pages| - 1 ==> |pages[k]| == PageLimit
    ensures (|pages| > 0 && |pages[|pages| - 1]| != PageLimit) || api(|pages|, After(members)).None?
  {
    var i := 0;
    members := [];
    pages := [];
    while |members| == PageLimit * i
      invariant i == |pages| && members == Flatten(pages)
      invariant RepliesMatch(api, pages)
      invariant forall k :: 0 <= k < |pages| - 1 ==> |pages[k]| == PageLimit
      invariant i > 0 ==> |members| == PageLimit * (i - 1) + |pages[i - 1]|
      invariant |members| == PageLimit * i ==> i <= bound
      decreases if |members| == PageLimit * i then bound + 1 - i else 0
    {
      var after: Option<string>;
      if i == 0 {
        after := None;
      } else {
        after := Some(members[|members| - 1].id);
      }
      assert after == After(members);
      var reply := api(i, after);
      if reply.None? {
        break;
      }
      var page := reply.value;
      PageStep(api, bound, pages, page);
      pages := pages + [page];
      i := i + 1;
      members := members + page;
    }
  }

  /** One more page received keeps every invariant of the `get_member` loop. */
  lemma PageStep(api: MembersApi, bound: nat, pages: seq<seq<Member>>, page: seq<Member>)
    requires EventuallyShort(api, bound)
    requires RepliesMatch(api, pages) && |pages| <= bound
    requires forall k :: 0 <= k < |pages| - 1 ==> |pages[k]| == PageLimit
    requires |Flatten(pages)| == PageLimit * |pages|
    requires |pages| > 0 ==> |Flatten(pages)| == PageLimit * (|pages| - 1) + |pages[|pages| - 1]|
    requires api(|pages|, After(Flatten(pages))) == Some(page)
    ensures Flatten(pages + [page]) == Flatten(pages) + page
    ensures RepliesMatch(api, pages + [page])
    ensures forall k :: 0 <= k < |pages| ==> |(pages + [page])[k]| == PageLimit
    ensures |Flatten(pages + [page])| == PageLimit * |pages| + |page|
    ensures |Flatten(pages + [page])| == PageLimit * (|pages| + 1) ==> |pages| + 1 <= bound
  {
    var p := pages + [page];
    assert p[..|pages|] == pages && p[|pages|] == page;
    if |page| == PageLimit {
      assert |pages| < bound;
    }
  }
}

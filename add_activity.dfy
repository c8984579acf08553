/**
 * `/admin anilist add_anime_activity` (bot/src/command/admin/anilist/add_activity.rs):
 * looks an anime up by id or by title, and unless the guild already follows
 * it, stores an airing-notification activity with a webhook named after the
 * anime.
 */
module AddActivity {
  import opened Wrappers
  import Text

  // ------------------------------------------------------------- get_name

  datatype MediaTitle = MediaTitle(romaji: Option<string>, english: Option<string>)

  /** `get_name`: "english / romaji" when both exist, else the one that
      exists, else "". */
  function GetName(t: MediaTitle): string {
    match (t.romaji, t.english)
    case (Some(rj), Some(en)) => en + " / " + rj
    case (Some(rj), None) => rj
    case (None, Some(en)) => en
    case (None, None) => ""
  }

  /** The name is empty exactly when no title is present, or only an empty
      one is. */
  lemma GetNameEmptyIff(t: MediaTitle)
    ensures GetName(t) == "" <==>
      (t.romaji.None? || t.english.None?) && t.romaji.GetOr("") == "" && t.english.GetOr("") == ""
  {
    if t.romaji.Some? && t.english.Some? {
      assert |GetName(t)| >= 3;
    }
  }

  /** With both titles the name splits at its one '/' into the English title
      and the romaji title, each padded by a space. */
  lemma GetNameSplit(en: string, rj: string)
    requires '/' !in en && '/' !in rj
    ensures Text.Split(GetName(MediaTitle(Some(rj), Some(en))), '/') == [en + " ", " " + rj]
  {
    assert GetName(MediaTitle(Some(rj), Some(en))) == (en + " ") + ['/'] + (" " + rj);
    assert '/' !in en + " " && '/' !in " " + rj;
    Text.SplitAtSeparator(en + " ", " " + rj, '/');
    Text.SplitNoSeparator(" " + rj, '/');
  }

  // ---------------------------------------------------------- resize_image

  /** The side the cover is resized to. */
  const AvatarSide: nat := 128

  /** The crop of `resize_image`: a square of side `min(w, h)` at
      `((w - side) / 2, (h - side) / 2)`, in `u32` arithmetic that cannot
      underflow. */
  datatype Crop = Crop(x: nat, y: nat, side: nat)

  function CropGeometry(width: nat, height: nat): (c: Crop)
    ensures c.side == if width < height then width else height
    ensures c.x + c.side <= width && c.y + c.side <= height
    ensures width - c.side - 1 <= 2 * c.x <= width - c.side
    ensures height - c.side - 1 <= 2 * c.y <= height - c.side
    ensures c.x == 0 || c.y == 0
  {
    var side := if width < height then width else height;
    Crop((width - side) / 2, (height - side) / 2, side)
  }

  // ------------------------------------------------- get_minimal_anime_media

  /** How an anime is looked up: by its id, or by a text search. */
  datatype MediaQuery = ById(id: int) | BySearch(text: string)

  /** The user's input is an id when it parses as an `i32`. */
  function MinimalAnimeQuery(anime: string): (q: MediaQuery)
    ensures q.ById? <==> Text.ParseI32(anime).Some?
    ensures q.ById? ==> q.id == Text.ParseI32(anime).value && Text.I32Min <= q.id <= Text.I32Max
    ensures q.BySearch? ==> q.text == anime
  {
    match Text.ParseI32(anime)
    case Some(id) => ById(id)
    case None => BySearch(anime)
  }

  /** A text that is searched is never the decimal form of an `i32`: no id
      typed in the usual way falls through to the title search. */
  lemma SearchedTextIsNoDecimalId(anime: string, n: int)
    requires Text.I32Min <= n <= Text.I32Max
    requires MinimalAnimeQuery(anime).BySearch?
    ensures anime != Text.IntToDecimal(n)
  {
    Text.ParseI32OfDecimal(n);
  }

  /** Every `i32` written in decimal is looked up as that id. */
  lemma DecimalIdIsLookedUpById(n: int)
    requires Text.I32Min <= n <= Text.I32Max
    ensures MinimalAnimeQuery(Text.IntToDecimal(n)) == ById(n)
  {
    Text.ParseI32OfDecimal(n);
  }

  /** A title is searched as typed. */
  lemma TitleIsSearched()
    ensures MinimalAnimeQuery("Frieren") == BySearch("Frieren")
    ensures MinimalAnimeQuery("") == BySearch("")
    ensures MinimalAnimeQuery("+12") == ById(12)
  {
    assert !Text.IsDigit("Frieren"[0]);
    assert "+12"[1..] == "12";
    assert "12"[..1] == "1" && "1"[..0] == "";
  }

  /** The next airing of an anime: when (Unix seconds) and which episode. */
  datatype Airing = Airing(airingAt: int, episode: int)

  /** The fields of `Media` the command reads; `coverImage` is the cover's
      `extra_large` URL, nested in an optional cover-image object. */
  datatype Media = Media(id: int, title: Option<MediaTitle>, coverImage: Option<Option<string>>, nextAiring: Option<Airing>)

  /** An AniList reply: the request failed, or `data` (itself optional) with
      its optional `media`. */
  datatype Reply = RequestFailed(reason: string) | Replied(data: Option<Option<Media>>)

  /** `get_minimal_anime_media`: the media, or the error text. The id path
      reports "No media found" for a missing `data` as well; the search path
      says "No data found" there. */
  function GetMinimalAnimeMedia(anime: string, anilist: MediaQuery -> Reply): (r: Result<Media, string>)
    ensures anilist(MinimalAnimeQuery(anime)).RequestFailed? ==> r == Err(anilist(MinimalAnimeQuery(anime)).reason)
    ensures r.Ok? ==> anilist(MinimalAnimeQuery(anime)) == Replied(Some(Some(r.value)))
    ensures (anilist(MinimalAnimeQuery(anime)).Replied? && anilist(MinimalAnimeQuery(anime)).data.Some?
             && anilist(MinimalAnimeQuery(anime)).data.value.Some?) ==> r.Ok?
  {
    var q := MinimalAnimeQuery(anime);
    match anilist(q)
    case RequestFailed(e) => Err(e)
    case Replied(None) => if q.ById? then Err("No media found") else Err("No data found")
    case Replied(Some(None)) => Err("No media found")
    case Replied(Some(Some(media))) => Ok(media)
  }

  /** Typing an id in decimal returns exactly the media AniList sends for
      that id, and stops with its reason when the request fails. */
  lemma IdLookupReturnsMedia(n: int, anilist: MediaQuery -> Reply, media: Media)
    requires Text.I32Min <= n <= Text.I32Max
    ensures GetMinimalAnimeMedia(Text.IntToDecimal(n), anilist) == Ok(media) <==> anilist(ById(n)) == Replied(Some(Some(media)))
    ensures anilist(ById(n)).RequestFailed? ==> GetMinimalAnimeMedia(Text.IntToDecimal(n), anilist) == Err(anilist(ById(n)).reason)
  {
    DecimalIdIsLookedUpById(n);
  }

  /** A title search returns exactly the media AniList sends for that text;
      a missing `data` is reported as "No data found". */
  lemma SearchReturnsMedia(anime: string, anilist: MediaQuery -> Reply, media: Media)
    requires MinimalAnimeQuery(anime).BySearch?
    ensures GetMinimalAnimeMedia(anime, anilist) == Ok(media) <==> anilist(BySearch(anime)) == Replied(Some(Some(media)))
    ensures anilist(BySearch(anime)) == Replied(None) ==> GetMinimalAnimeMedia(anime, anilist) == Err("No data found")
  {
  }

  // ------------------------------------------------------------- run_slash

  /** A row of `activity_data`. */
  datatype ActivityRow = ActivityRow(animeId: int, timestamp: int, serverId: string, webhook: string,
                                     episode: int, name: string, delay: int, image: string)

  /** How the command ends: one of its own errors, a failed download or
      webhook call, the "already added" reply, or the activity added (and the
      success reply sent). */
  datatype Outcome =
    | Failed(message: string)
    | ServiceFailed
    | AlreadyExists(animeName: string, url: string)
    | Added(row: ActivityRow, url: string)

  /** The bytes after which a webhook name is shortened. */
  const WebhookNameLimit: nat := 50

  /** The webhook's name: names of 50 bytes or more go through
      `trim_webhook(name, 50 - len)`; shorter ones are kept. */
  function TrimmedName(name: string, trimWebhook: (string, int) -> string): (r: string)
    ensures Text.Utf8Len(name) < WebhookNameLimit ==> r == name
    ensures Text.Utf8Len(name) >= WebhookNameLimit ==> r == trimWebhook(name, WebhookNameLimit - Text.Utf8Len(name))
  {
    var len := Text.Utf8Len(name);
    if len >= WebhookNameLimit then trimWebhook(name, WebhookNameLimit - len) else name
  }

  /** The trimmer is consulted only for a name of 50 bytes or more, and then
      with the excess as a budget that is never positive: a shorter name
      reaches the webhook unchanged whatever the trimmer does, and two
      trimmers that agree on non-positive budgets give the same name. */
  lemma TrimmerSeesOnlyNonPositiveBudgets(name: string, t1: (string, int) -> string, t2: (string, int) -> string)
    ensures Text.Utf8Len(name) < WebhookNameLimit ==> TrimmedName(name, t1) == name == TrimmedName(name, t2)
    ensures (forall k :: k <= 0 ==> t1(name, k) == t2(name, k)) ==> TrimmedName(name, t1) == TrimmedName(name, t2)
  {
  }

  /** The `delay` option: an `i32`, 0 when it is absent or does not parse. */
  function Delay(options: map<string, string>): (d: int)
    ensures Text.I32Min <= d <= Text.I32Max
    ensures "delay" !in options ==> d == 0
    ensures "delay" in options && Text.ParseI32(options["delay"]).None? ==> d == 0
    ensures "delay" in options && Text.ParseI32(options["delay"]).Some? ==> d == Text.ParseI32(options["delay"]).value
  {
    var text := if "delay" in options then options["delay"] else "0";
    assert "0"[..0] == "" && "0"[..1] == "0";
    Text.ParseI32(text).GetOr(0)
  }

  /** A delay typed in decimal is stored as that number of seconds. */
  lemma DelayReadsDecimal(options: map<string, string>, n: int)
    requires Text.I32Min <= n <= Text.I32Max
    requires "delay" in options && options["delay"] == Text.IntToDecimal(n)
    ensures Delay(options) == n
  {
    Text.ParseI32OfDecimal(n);
  }

  /** A delay that does not start with a sign or a digit is read as 0. */
  lemma DelayOfTextIsZero(options: map<string, string>)
    requires "delay" in options && options["delay"] != []
    requires !Text.IsDigit(options["delay"][0]) && options["delay"][0] != '+' && options["delay"][0] != '-'
    ensures Delay(options) == 0
  {
  }

  /** The cover shown when the anime has none. */
  const NoImageCover := "https://imgs.search.brave.com/ CYnhSvdQcm9aZe3wG84YY0B19zT2wlAuAkiAGu0mcLc/rs:fit:640:400:1/g:ce/aHR0cDovL3d3dy5m/cmVtb250Z3VyZHdh/cmEub3JnL3dwLWNv/bnRlbnQvdXBsb2Fk/cy8yMDIwLzA2L25v/LWltYWdlLWljb24t/Mi5wbmc"

  function AnimeUrl(id: int): string {
    "https://anilist.co/anime/" + Text.IntToDecimal(id)
  }

  /** The services `run_slash` calls. `cover` downloads a cover and returns
      the base64 of its 128×128 JPEG; `webhook` finds or creates the channel's
      webhook with a name and returns its URL. `None` is a failure returned by
      `?`. */
  datatype Services = Services(
    anilist: MediaQuery -> Reply,
    cover: string -> Option<string>,
    webhook: (string, string) -> Option<string>,
    trimWebhook: (string, int) -> string)

  /** Whether a guild already follows an anime. */
  predicate Exists(rows: seq<ActivityRow>, animeId: int, serverId: string) {
    exists k :: 0 <= k < |rows| && rows[k].animeId == animeId && rows[k].serverId == serverId
  }

  /** The decisions of `run_slash`, in its order: look the media up, take the
      guild (default "1"), check for an existing activity, require a title;
      then either report the duplicate or build the new row. */
  function Decide(rows: seq<ActivityRow>, options: map<string, string>, guild: Option<string>, channel: string, svc: Services): Outcome {
    var anime := if "anime_name" in options then options["anime_name"] else "";
    match GetMinimalAnimeMedia(anime, svc.anilist)
    case Err(e) => Failed(e)
    case Ok(media) =>
      var guildId := guild.GetOr("1");
      var exist := Exists(rows, media.id, guildId);
      if media.title.None? then Failed("No title")
      else
        var animeName := GetName(media.title.value);
        if exist then AlreadyExists(animeName, AnimeUrl(media.id))
        else
          var delay := Delay(options);
          var trimmed := TrimmedName(animeName, svc.trimWebhook);
          if media.coverImage.None? then Failed("No cover image")
          else
            match svc.cover(media.coverImage.value.GetOr(NoImageCover))
            case None => ServiceFailed
            case Some(base64) =>
              var image := "data:image/jpeg;base64," + base64;
              if media.nextAiring.None? then Failed("No next episode found for " + animeName + " on anilist")
              else
                match svc.webhook(channel, trimmed)
                case None => ServiceFailed
                case Some(hook) =>
                  var next := media.nextAiring.value;
                  Added(ActivityRow(media.id, next.airingAt, guildId, hook, next.episode, trimmed, delay, image),
                        AnimeUrl(media.id))
  }

  /** An activity the guild already has is never added twice. */
  lemma ExistingActivityIsNotAdded(rows: seq<ActivityRow>, options: map<string, string>, guild: Option<string>, channel: string, svc: Services)
    ensures var o := Decide(rows, options, guild, channel, svc);
      o.Added? ==> !Exists(rows, o.row.animeId, o.row.serverId)
  {
  }

  /** An added row is for the media looked up, in the interaction's guild (or
      "1"), with the trimmed name, the parsed delay and the next episode. */
  lemma AddedRowFields(rows: seq<ActivityRow>, options: map<string, string>, guild: Option<string>, channel: string, svc: Services)
    requires Decide(rows, options, guild, channel, svc).Added?
    ensures var row := Decide(rows, options, guild, channel, svc).row;
      var anime := if "anime_name" in options then options["anime_name"] else "";
      var media := GetMinimalAnimeMedia(anime, svc.anilist);
      media.Ok? && media.value.title.Some? && media.value.nextAiring.Some?
      && row.animeId == media.value.id
      && row.serverId == guild.GetOr("1")
      && row.name == TrimmedName(GetName(media.value.title.value), svc.trimWebhook)
      && row.delay == Delay(options)
      && row.episode == media.value.nextAiring.value.episode
      && row.timestamp == media.value.nextAiring.value.airingAt
      && Text.StartsWith(row.image, "data:image/jpeg;base64,")
  {
  }

  /** For an anime the guild already follows, the reply is the duplicate
      notice whatever the options and services beyond the lookup. */
  lemma DuplicateIsReported(rows: seq<ActivityRow>, options: map<string, string>, guild: Option<string>, channel: string, svc: Services, media: Media)
    requires GetMinimalAnimeMedia(if "anime_name" in options then options["anime_name"] else "", svc.anilist) == Ok(media)
    requires media.title.Some? && Exists(rows, media.id, guild.GetOr("1"))
    ensures Decide(rows, options, guild, channel, svc) == AlreadyExists(GetName(media.title.value), AnimeUrl(media.id))
  {
  }

  /** The `activity_data` table, with the services as fixed oracles. */
  class ActivityTable {
    var rows: seq<ActivityRow>
    const svc: Services

    constructor (svc: Services)
      ensures rows == [] && this.svc == svc
    {
      rows := [];
      this.svc := svc;
    }

    /** `run_slash`: the reply `Decide` gives; the table gains the new row
        when, and only when, an activity is added. */
    method RunSlash(options: map<string, string>, guild: Option<string>, channel: string) returns (r: Outcome)
      modifies this`rows
      ensures r == Decide(old(rows), options, guild, channel, svc)
      ensures rows == if r.Added? then old(rows) + [r.row] else old(rows)
    {
      r := Decide(rows, options, guild, channel, svc);
      if r.Added? {
        rows := rows + [r.row];
      }
    }
  }

  /** After a successful add, the guild follows the anime, so the same
      command again is refused as a duplicate. */
  lemma AddThenAddAgainIsDuplicate(rows: seq<ActivityRow>, options: map<string, string>, guild: Option<string>, channel: string, svc: Services)
    requires Decide(rows, options, guild, channel, svc).Added?
    ensures Decide(rows + [Decide(rows, options, guild, channel, svc).row], options, guild, channel, svc).AlreadyExists?
  {
    var row := Decide(rows, options, guild, channel, svc).row;
    var rows' := rows + [row];
    assert rows'[|rows|] == row;
    assert Exists(rows', row.animeId, row.serverId);
  }
}

/**
 * The daily refresh of the last known AniList statistics pages
 * (src/background_task/update_random_stats.rs): starting from the stored pair
 * of page counters, walk forward page by page while the statistics report a
 * next page, first for the anime query and then for the manga query, and
 * store the updated pair.
 */
module RandomStats {
  import opened Wrappers
  import AppErrors
  import Text

  type AppError = AppErrors.AppError

  /** `RandomStat`: the last page of the anime and of the manga statistics. */
  datatype RandomStat = RandomStat(animeLastPage: int, mangaLastPage: int)

  /** The counters used when no stats file can be read. */
  const DefaultStats := RandomStat(1796, 1796)

  /** The two statistics queries. */
  datatype StatKind = AnimeStats | MangaStats

  /** The answer to one statistics query: the request or its decoding failed
      (with the error text), the answer lacks the page info (the source panics
      on `unwrap`), or the page info says whether a next page exists. */
  datatype PageReply = Failed(reason: string) | Malformed | Page(hasNextPage: bool)

  /** The AniList statistics endpoint, as the cached request path sees it. */
  type Query = (StatKind, int) -> PageReply

  /** No page at or above `bound` reports a next page: the statistics end. */
  ghost predicate LastPageBelow(query: Query, kind: StatKind, bound: int) {
    forall p :: p >= bound ==> query(kind, p) != Page(true)
  }

  /** How a walk over one query ends, `shift` pages after its start: the page
      at `start + shift` had no next page, failed, or was malformed. */
  datatype WalkEnd = Done(shift: nat) | Broke(shift: nat, reason: string) | Crashed(shift: nat)

  /** The walk a `while has_next_page` loop performs from page `page`. */
  ghost function Walk(query: Query, kind: StatKind, page: int, bound: int): WalkEnd
    requires LastPageBelow(query, kind, bound)
    decreases bound - page
  {
    match query(kind, page)
    case Failed(e) => Broke(0, e)
    case Malformed => Crashed(0)
    case Page(next) =>
      if next then Shifted(Walk(query, kind, page + 1, bound), 1) else Done(0)
  }

  /** The same end, `n` pages later. */
  function Shifted(w: WalkEnd, n: nat): (r: WalkEnd)
    ensures r.shift == w.shift + n
  {
    match w
    case Done(k) => Done(k + n)
    case Broke(k, e) => Broke(k + n, e)
    case Crashed(k) => Crashed(k + n)
  }

  /** One step of a walk: what the page at `page` answers decides the walk. */
  lemma WalkStep(query: Query, kind: StatKind, page: int, bound: int)
    requires LastPageBelow(query, kind, bound)
    ensures query(kind, page) == Page(true) ==>
      page < bound && Walk(query, kind, page, bound) == Shifted(Walk(query, kind, page + 1, bound), 1)
    ensures query(kind, page) == Page(false) ==> Walk(query, kind, page, bound) == Done(0)
    ensures query(kind, page) == Malformed ==> Walk(query, kind, page, bound) == Crashed(0)
    ensures query(kind, page).Failed? ==> Walk(query, kind, page, bound) == Broke(0, query(kind, page).reason)
  {
  }

  /** Every page of `kind` in `[start, start + k)` reported a next page. */
  ghost predicate NextPagesFrom(query: Query, kind: StatKind, start: int, k: nat) {
    forall p :: start <= p < start + k ==> query(kind, p) == Page(true)
  }

  /** After `k` pages that each reported a next page, the walk goes on from
      the page after them, `k` pages later. */
  lemma {:induction false} WalkAfterNextPages(query: Query, kind: StatKind, start: int, k: nat, bound: int)
    requires LastPageBelow(query, kind, bound)
    requires NextPagesFrom(query, kind, start, k)
    ensures Walk(query, kind, start, bound) == Shifted(Walk(query, kind, start + k, bound), k)
    decreases k
  {
    if k > 0 {
      WalkStep(query, kind, start, bound);
      WalkAfterNextPages(query, kind, start + 1, k - 1, bound);
    }
  }

  /** A walk stops on the first page that does not report a next page: every
      page before it did, and the stop is what that page answered. */
  lemma {:induction false} WalkStopsAtFirstNonNext(query: Query, kind: StatKind, page: int, bound: int)
    requires LastPageBelow(query, kind, bound)
    ensures var w := Walk(query, kind, page, bound);
      (forall p :: page <= p < page + w.shift ==> query(kind, p) == Page(true))
      && (w.Done? <==> query(kind, page + w.shift) == Page(false))
      && (w.Crashed? <==> query(kind, page + w.shift) == Malformed)
      && (w.Broke? ==> query(kind, page + w.shift) == Failed(w.reason))
      && (query(kind, page + w.shift).Failed? ==> w.Broke?)
    decreases bound - page
  {
    if query(kind, page) == Page(true) {
      WalkStopsAtFirstNonNext(query, kind, page + 1, bound);
    }
  }

  /** The error a failed statistics request reports; both loops name the
      anime counter. */
  function FetchError(animePage: int, reason: string): AppError {
    AppErrors.AppError("Error retrieving character with ID: " + Text.IntToDecimal(animePage) + " \n " + reason,
                       AppErrors.ErrorType.WebRequest, AppErrors.ErrorResponseType.Message)
  }

  /** How `update_random` ends: new counters, a failed request (with the
      anime counter and the error text the reply names), or a panic. */
  datatype Outcome = Finished(stats: RandomStat) | FetchFailed(animePage: int, reason: string) | Panicked

  /** The counter a query pages with. */
  function Counter(stats: RandomStat, kind: StatKind): int {
    match kind
    case AnimeStats => stats.animeLastPage
    case MangaStats => stats.mangaLastPage
  }

  /** Where one loop leaves the counters after walk `w`: every page with a
      next page moved both up by one, the last page moved both down by one. */
  function AfterWalk(stats: RandomStat, w: WalkEnd): Outcome {
    match w
    case Done(n) => Finished(RandomStat(stats.animeLastPage + n - 1, stats.mangaLastPage + n - 1))
    case Broke(n, e) => FetchFailed(stats.animeLastPage + n, e)
    case Crashed(_) => Panicked
  }

  /** The outcome of the two walks, anime first, then manga from where the
      first left the counters. */
  ghost function Updated(stats: RandomStat, query: Query, bound: int): Outcome
    requires LastPageBelow(query, AnimeStats, bound) && LastPageBelow(query, MangaStats, bound)
  {
    match AfterWalk(stats, Walk(query, AnimeStats, stats.animeLastPage, bound))
    case Finished(mid) => AfterWalk(mid, Walk(query, MangaStats, mid.mangaLastPage, bound))
    case other => other
  }

  /** The distance between the two counters never changes. */
  lemma UpdatedKeepsDifference(stats: RandomStat, query: Query, bound: int)
    requires LastPageBelow(query, AnimeStats, bound) && LastPageBelow(query, MangaStats, bound)
    ensures var r := Updated(stats, query, bound);
      r.Finished? ==> r.stats.animeLastPage - r.stats.mangaLastPage == stats.animeLastPage - stats.mangaLastPage
  {
  }

  /** On success each counter sits one below the first page of its query that
      reports no next page, and every page of the manga walk before that one
      reported a next page. */
  lemma {:induction false} UpdatedFindsLastMangaPage(stats: RandomStat, query: Query, bound: int)
    requires LastPageBelow(query, AnimeStats, bound) && LastPageBelow(query, MangaStats, bound)
    requires Updated(stats, query, bound).Finished?
    ensures var n := Walk(query, AnimeStats, stats.animeLastPage, bound).shift;
      var mid := RandomStat(stats.animeLastPage + n - 1, stats.mangaLastPage + n - 1);
      var last := Updated(stats, query, bound).stats.mangaLastPage;
      query(AnimeStats, mid.animeLastPage + 1) == Page(false)
      && query(MangaStats, last + 1) == Page(false)
      && forall p :: mid.mangaLastPage <= p <= last ==> query(MangaStats, p) == Page(true)
  {
    WalkStopsAtFirstNonNext(query, AnimeStats, stats.animeLastPage, bound);
    var n := Walk(query, AnimeStats, stats.animeLastPage, bound).shift;
    WalkStopsAtFirstNonNext(query, MangaStats, stats.mangaLastPage + n - 1, bound);
  }

  /**
   * One `while has_next_page` loop of `update_random`, querying `kind` at its
   * counter. `bound` is a page the statistics do not reach, which is what
   * makes the loop end. The pages requested are those of the walk from the
   * query's counter.
   */
  method FollowPages(stats: RandomStat, kind: StatKind, query: Query, ghost bound: int) returns (r: Outcome)
    requires LastPageBelow(query, kind, bound)
    ensures r == AfterWalk(stats, Walk(query, kind, Counter(stats, kind), bound))
  {
    var randomStats := stats;
    ghost var start := Counter(stats, kind);
    ghost var k: nat := 0;
    var hasNextPage := true;
    while hasNextPage
      invariant hasNextPage ==> randomStats == RandomStat(stats.animeLastPage + k, stats.mangaLastPage + k)
      invariant hasNextPage ==> NextPagesFrom(query, kind, start, k)
      invariant !hasNextPage ==> k >= 1 && NextPagesFrom(query, kind, start, k - 1)
      invariant !hasNextPage ==> query(kind, start + k - 1) == Page(false)
      invariant !hasNextPage ==> randomStats == RandomStat(stats.animeLastPage + k - 2, stats.mangaLastPage + k - 2)
      decreases hasNextPage, bound - (start + k)
    {
      var animePage := randomStats.animeLastPage;
      var mangaPage := randomStats.mangaLastPage;
      var page := if kind == AnimeStats then animePage else mangaPage;
      assert page == start + k;
      match query(kind, page) {
        case Failed(e) =>
          WalkAfterNextPages(query, kind, start, k, bound);
          WalkStep(query, kind, page, bound);
          return FetchFailed(animePage, e);
        case Malformed =>
          WalkAfterNextPages(query, kind, start, k, bound);
          WalkStep(query, kind, page, bound);
          return Panicked;
        case Page(next) =>
          hasNextPage := next;
      }
      if hasNextPage {
        randomStats := RandomStat(animePage + 1, mangaPage + 1);
      } else {
        randomStats := RandomStat(animePage - 1, mangaPage - 1);
      }
      k := k + 1;
    }
    WalkAfterNextPages(query, kind, start, k - 1, bound);
    WalkStep(query, kind, start + k - 1, bound);
    r := Finished(randomStats);
  }

  /** `update_random`: the anime loop, then the manga loop from where the
      first left the counters. */
  method UpdateRandom(stats: RandomStat, query: Query, ghost bound: int) returns (r: Outcome)
    requires LastPageBelow(query, AnimeStats, bound) && LastPageBelow(query, MangaStats, bound)
    ensures r == Updated(stats, query, bound)
    ensures r.Finished? ==> r.stats.animeLastPage - r.stats.mangaLastPage == stats.animeLastPage - stats.mangaLastPage
  {
    var afterAnime := FollowPages(stats, AnimeStats, query, bound);
    if !afterAnime.Finished? {
      return afterAnime;
    }
    r := FollowPages(afterAnime.stats, MangaStats, query, bound);
  }

  /** What `random_stats.json` holds: nothing readable, text that does not
      decode (with the decoder's message), or a pair of counters. */
  datatype StatsFile = Unreadable | Undecodable(reason: string) | Decodes(stats: RandomStat)

  /** The counters `update_random_stats` starts from. */
  function StartingStats(file: StatsFile): (r: Result<RandomStat, AppError>)
    ensures file.Unreadable? ==> r == Ok(DefaultStats)
    ensures file.Decodes? ==> r == Ok(file.stats)
    ensures file.Undecodable? ==> r.Err? && r.error.errorType == AppErrors.ErrorType.File
  {
    match file
    case Unreadable => Ok(DefaultStats)
    case Undecodable(e) =>
      Err(AppErrors.AppError("There was an error deserializing the random stats " + e,
                             AppErrors.ErrorType.File, AppErrors.ErrorResponseType.Unknown))
    case Decodes(s) => Ok(s)
  }

  /** Without a stats file both walks begin from the defaults: when the anime
      statistics end at page 1796, the anime loop steps both counters back to
      1795, the manga loop then asks for page 1795, and when that is the last
      manga page the stored pair is (1794, 1794). */
  lemma FreshStartExample(query: Query, bound: int)
    requires LastPageBelow(query, AnimeStats, bound) && LastPageBelow(query, MangaStats, bound)
    requires query(AnimeStats, 1796) == Page(false) && query(MangaStats, 1795) == Page(false)
    ensures StartingStats(Unreadable).Ok?
    ensures Updated(StartingStats(Unreadable).value, query, bound) == Finished(RandomStat(1794, 1794))
  {
    WalkStep(query, AnimeStats, 1796, bound);
    WalkStep(query, MangaStats, 1795, bound);
  }

  /** A file that was read is resumed from: when its counters are where both
      statistics end, the next run stores them again, each lowered by two. */
  lemma StoredCountersAreResumed(stats: RandomStat, query: Query, bound: int)
    requires LastPageBelow(query, AnimeStats, bound) && LastPageBelow(query, MangaStats, bound)
    requires query(AnimeStats, stats.animeLastPage) == Page(false)
    requires query(MangaStats, stats.mangaLastPage - 1) == Page(false)
    ensures StartingStats(Decodes(stats)) == Ok(stats)
    ensures Updated(StartingStats(Decodes(stats)).value, query, bound)
      == Finished(RandomStat(stats.animeLastPage - 2, stats.mangaLastPage - 2))
  {
    WalkStep(query, AnimeStats, stats.animeLastPage, bound);
    WalkStep(query, MangaStats, stats.mangaLastPage - 1, bound);
  }

  /** How `update_random_stats` ends: the counters written, an error, or a panic. */
  datatype Saved = Written(stats: RandomStat) | Failure(error: AppError) | Crash

  /** The result of `update_random` as `update_random_stats` reports it. */
  function Report(o: Outcome): Saved {
    match o
    case Finished(s) => Written(s)
    case FetchFailed(page, e) => Failure(FetchError(page, e))
    case Panicked => Crash
  }

  /** The stats file on disk. */
  class StatsStore {
    var file: StatsFile

    constructor (file: StatsFile)
      ensures this.file == file
    {
      this.file := file;
    }

    /** `update_random_stats`: read the counters (or take the defaults), walk
        both queries, and store the result. A failure anywhere before the write,
        or of the write itself (`writeSucceeds` false), leaves the file as it
        was. */
    method UpdateRandomStats(query: Query, ghost bound: int, writeSucceeds: bool) returns (r: Saved)
      requires LastPageBelow(query, AnimeStats, bound) && LastPageBelow(query, MangaStats, bound)
      modifies this
      ensures old(file).Undecodable? ==> r == Failure(StartingStats(old(file)).error)
      ensures !r.Written? ==> file == old(file)
      ensures r.Written? ==> file == Decodes(r.stats)
      ensures !old(file).Undecodable? ==>
        var u := Updated(StartingStats(old(file)).value, query, bound);
        if u.Finished? && !writeSucceeds then r.Failure? && r.error.errorType == AppErrors.ErrorType.File
        else r == Report(u)
    {
      var start := StartingStats(file);
      if start.Err? {
        return Failure(start.error);
      }
      var updated := UpdateRandom(start.value, query, bound);
      if !updated.Finished? {
        return Report(updated);
      }
      if !writeSucceeds {
        return Failure(AppErrors.AppError("There was an error writing the random stats to a file",
                                          AppErrors.ErrorType.File, AppErrors.ErrorResponseType.Unknown));
      }
      file := Decodes(updated.stats);
      r := Written(updated.stats);
    }
  }
}

/**
 * The status tally behind the AniList "level" command: from a user's list
 * of (status, count) statistics, `get_total` picks the count of the
 * "CURRENT" entry and of the "COMPLETED" entry and returns them as the pair
 * (watching, completed). The same function appears in both versions of the
 * command.
 */
module LevelTotal {
  import opened Wrappers

  /** One entry of `statistics.anime.statuses` or `statistics.manga.statuses`. */
  datatype Statuses = Statuses(status: string, count: int)

  const Current: string := "CURRENT"
  const Completed: string := "COMPLETED"

  /** The count of the last entry carrying `name`, if any. */
  function LastCount(media: seq<Statuses>, name: string): Option<int> {
    if media == [] then None
    else if media[|media| - 1].status == name then Some(media[|media| - 1].count)
    else LastCount(media[..|media| - 1], name)
  }

  /** The pair `get_total` returns: (watching, completed), 0 when a status is absent. */
  function Total(media: seq<Statuses>): (int, int) {
    (LastCount(media, Current).GetOr(0), LastCount(media, Completed).GetOr(0))
  }

  /**
   * `get_total`: walks the statuses, overwriting `completed` on each
   * "COMPLETED" entry and `watching` on each "CURRENT" entry.
   */
  method GetTotal(media: seq<Statuses>) returns (watching: int, completed: int)
    ensures (watching, completed) == Total(media)
    ensures media == [] ==> watching == 0 && completed == 0
  {
    watching, completed := 0, 0;
    var i := 0;
    while i < |media|
      invariant 0 <= i <= |media|
      invariant watching == LastCount(media[..i], Current).GetOr(0)
      invariant completed == LastCount(media[..i], Completed).GetOr(0)
    {
      assert media[..i + 1][..i] == media[..i];
      if media[i].status == Completed {
        completed := media[i].count;
      } else if media[i].status == Current {
        watching := media[i].count;
      }
      i := i + 1;
    }
    assert media[..|media|] == media;
  }

  // ----------------------------------------------------------------- lemmas

  /**
   * The last entry wins: the tally reads `c` for `name` exactly when some
   * entry has that status and count and no later entry has that status.
   */
  lemma {:induction false} LastCountIsLastEntry(media: seq<Statuses>, name: string, c: int)
    ensures LastCount(media, name) == Some(c) <==>
      exists i :: 0 <= i < |media| && media[i] == Statuses(name, c)
                  && forall j :: i < j < |media| ==> media[j].status != name
    decreases |media|
  {
    if media != [] {
      var n := |media| - 1;
      var init := media[..n];
      LastCountIsLastEntry(init, name, c);
      if LastCount(media, name) == Some(c) {
        if media[n].status == name {
          assert media[n] == Statuses(name, c);
        } else {
          var i :| 0 <= i < |init| && init[i] == Statuses(name, c)
                   && forall j :: i < j < |init| ==> init[j].status != name;
          assert media[i] == init[i];
          assert forall j :: i < j < |media| ==> media[j].status != name by {
            forall j | i < j < |media| ensures media[j].status != name {
              if j < n { assert media[j] == init[j]; }
            }
          }
        }
      }
      if exists i :: 0 <= i < |media| && media[i] == Statuses(name, c)
                     && forall j :: i < j < |media| ==> media[j].status != name {
        var i :| 0 <= i < |media| && media[i] == Statuses(name, c)
                 && forall j :: i < j < |media| ==> media[j].status != name;
        if i < n {
          assert media[n].status != name;
          assert init[i] == media[i];
          assert forall j :: i < j < |init| ==> init[j].status != name by {
            forall j | i < j < |init| ensures init[j].status != name {
              assert init[j] == media[j];
            }
          }
        }
      }
    }
  }

  /** A status that never occurs reads as 0; entries with other statuses are ignored. */
  lemma {:induction false} AbsentStatusIsZero(media: seq<Statuses>, name: string)
    requires forall i :: 0 <= i < |media| ==> media[i].status != name
    ensures LastCount(media, name) == None
    decreases |media|
  {
    if media != [] {
      var init := media[..|media| - 1];
      assert forall i :: 0 <= i < |init| ==> init[i] == media[i];
      AbsentStatusIsZero(init, name);
    }
  }

  // ------------------------------------------------------- the XP weighting

  /**
   * Twice the status part of the XP: 2.5 points per completed title and
   * 1.0 per title in progress. Doubling keeps it in integers.
   */
  function StatusPoints(completed: int, inProgress: int): int {
    5 * completed + 2 * inProgress
  }

  /**
   * The caller as written: `let (anime_completed, anime_watching) = get_total(..)`
   * binds the first component, which is the watching count, to the name
   * `anime_completed`; the manga pair likewise.
   */
  function LevelPointsAsWritten(anime: seq<Statuses>, manga: seq<Statuses>): int {
    var (animeCompleted, animeWatching) := Total(anime);
    var (mangaCompleted, mangaReading) := Total(manga);
    StatusPoints(animeCompleted, animeWatching) + StatusPoints(mangaCompleted, mangaReading)
  }

  /** The caller with the pair bound in the order `get_total` returns it. */
  function LevelPoints(anime: seq<Statuses>, manga: seq<Statuses>): int {
    var (animeWatching, animeCompleted) := Total(anime);
    var (mangaReading, mangaCompleted) := Total(manga);
    StatusPoints(animeCompleted, animeWatching) + StatusPoints(mangaCompleted, mangaReading)
  }

  /** The corrected caller weighs each "COMPLETED" count by 2.5 and each "CURRENT" count by 1.0. */
  lemma LevelPointsWeighsCompleted(anime: seq<Statuses>, manga: seq<Statuses>)
    ensures LevelPoints(anime, manga)
         == 5 * (LastCount(anime, Completed).GetOr(0) + LastCount(manga, Completed).GetOr(0))
          + 2 * (LastCount(anime, Current).GetOr(0) + LastCount(manga, Current).GetOr(0))
  {
  }

  /** As written, the weights are swapped: 2.5 per title in progress, 1.0 per completed title. */
  lemma AsWrittenSwapsWeights(anime: seq<Statuses>, manga: seq<Statuses>)
    ensures LevelPointsAsWritten(anime, manga)
         == 5 * (LastCount(anime, Current).GetOr(0) + LastCount(manga, Current).GetOr(0))
          + 2 * (LastCount(anime, Completed).GetOr(0) + LastCount(manga, Completed).GetOr(0))
  {
  }

  /** `n` completed anime and no manga: 2.5 * n points intended, n as written (doubled: 5 * n and 2 * n). */
  lemma SwappedBindingExample(anime: seq<Statuses>, manga: seq<Statuses>, n: int)
    requires anime == [Statuses(Completed, n)] && manga == []
    ensures LevelPoints(anime, manga) == 5 * n
    ensures LevelPointsAsWritten(anime, manga) == 2 * n
  {
    TotalOfOneCompleted(n);
    assert Total(manga) == (0, 0);
    PointsOfTotals(anime, manga, 0, n, 0, 0);
  }

  lemma PointsOfTotals(anime: seq<Statuses>, manga: seq<Statuses>, aw: int, ac: int, mw: int, mc: int)
    requires Total(anime) == (aw, ac) && Total(manga) == (mw, mc)
    ensures LevelPoints(anime, manga) == 5 * (ac + mc) + 2 * (aw + mw)
    ensures LevelPointsAsWritten(anime, manga) == 5 * (aw + mw) + 2 * (ac + mc)
  {
  }

  lemma TotalOfOneCompleted(n: int)
    ensures Total([Statuses(Completed, n)]) == (0, n)
  {
    assert |Current| != |Completed|;
    LastCountSingle(Statuses(Completed, n), Completed);
    LastCountSingle(Statuses(Completed, n), Current);
  }

  lemma LastCountSingle(e: Statuses, name: string)
    ensures LastCount([e], name) == if e.status == name then Some(e.count) else None
  {
    assert [e][..0] == [];
  }

  /** The two agree exactly when the in-progress and completed totals are equal. */
  lemma AsWrittenAgreesIff(anime: seq<Statuses>, manga: seq<Statuses>)
    ensures LevelPointsAsWritten(anime, manga) == LevelPoints(anime, manga) <==>
      LastCount(anime, Current).GetOr(0) + LastCount(manga, Current).GetOr(0)
      == LastCount(anime, Completed).GetOr(0) + LastCount(manga, Completed).GetOr(0)
  {
    LevelPointsWeighsCompleted(anime, manga);
    AsWrittenSwapsWeights(anime, manga);
  }
}

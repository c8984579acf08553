/**
 * The AniList request cache: GraphQL responses memoised in the `request_cache`
 * table, keyed by the request JSON, and served while younger than three days
 * (src/cmd/general_module/function/request.rs).
 *
 * The pure functions `Inserted`, `LiveRequest`, `Lookup` and `Fetch` say what
 * one call does to the table; the class `AniListCache` holds the table, the
 * clock and the upstream API, and its methods are proved to follow them.
 */
module RequestCache {
  import opened Wrappers

  /** Age in seconds from which an entry is no longer served: 3 * 24 * 60 * 60. */
  const StaleAfter: int := 3 * 24 * 60 * 60

  /** The key of a request: the request JSON as the store binds it. */
  type RequestJson = string

  /** A row of `request_cache` as `get_cache` selects it; every column may read as NULL. */
  datatype CacheRow = CacheRow(json: Option<RequestJson>, response: Option<string>, lastUpdated: Option<int>)

  /** The `request_cache` table: at most one row per primary key `json`. */
  type Store = map<RequestJson, CacheRow>

  /** The upstream AniList API: the body it answers a request with, `None` when
      the request or reading its body fails (the source then panics on `unwrap`). */
  type Upstream = RequestJson -> Option<string>

  /** What the SELECT yields: a missing row reads as three NULLs (`unwrap_or`). */
  function SelectRow(store: Store, json: RequestJson): CacheRow {
    if json in store then store[json] else CacheRow(None, None, None)
  }

  /** `get_cache` serves a row when no column is NULL and its age is strictly
      below the threshold. */
  predicate IsHit(row: CacheRow, now: int) {
    row.json.Some? && row.response.Some? && row.lastUpdated.Some?
    && now - row.lastUpdated.value < StaleAfter
  }

  /** `add_cache`: INSERT OR REPLACE of `(json, resp, now)`. */
  function Inserted(store: Store, json: RequestJson, resp: string, now: int): (s: Store)
    ensures s.Keys == store.Keys + {json}
    ensures SelectRow(s, json) == CacheRow(Some(json), Some(resp), Some(now))
    ensures forall k :: k != json ==> SelectRow(s, k) == SelectRow(store, k)
  {
    store[json := CacheRow(Some(json), Some(resp), Some(now))]
  }

  /** The result of one call: the response returned (`None` where the source
      panics), the table afterwards, and whether the upstream was contacted. */
  datatype Outcome = Outcome(response: Option<string>, store: Store, live: bool)

  /** `do_request`: one upstream call; the body is written to the cache only
      when `always_update` is false. */
  function LiveRequest(store: Store, now: int, json: RequestJson, alwaysUpdate: bool, upstream: Upstream): Outcome {
    match upstream(json)
    case None => Outcome(None, store, true)
    case Some(resp) => Outcome(Some(resp), if alwaysUpdate then store else Inserted(store, json, resp, now), true)
  }

  /** `get_cache`: a hit is served verbatim, anything else goes live. */
  function Lookup(store: Store, now: int, json: RequestJson, upstream: Upstream): Outcome {
    var row := SelectRow(store, json);
    if IsHit(row, now) then Outcome(row.response, store, false)
    else LiveRequest(store, now, json, false, upstream)
  }

  /** `make_request_anilist` */
  function Fetch(store: Store, now: int, json: RequestJson, alwaysUpdate: bool, upstream: Upstream): Outcome {
    if alwaysUpdate then LiveRequest(store, now, json, true, upstream) else Lookup(store, now, json, upstream)
  }

  // ------------------------------------------------------------------ lemmas

  /** With `always_update` the table is neither read nor written: the live
      answer is returned whatever the table holds. */
  lemma ForceLiveBypassesCache(s1: Store, s2: Store, now: int, json: RequestJson, upstream: Upstream)
    ensures Fetch(s1, now, json, true, upstream).live
    ensures Fetch(s1, now, json, true, upstream).response == upstream(json)
    ensures Fetch(s1, now, json, true, upstream).response == Fetch(s2, now, json, true, upstream).response
    ensures Fetch(s1, now, json, true, upstream).store == s1
  {
  }

  /** Without `always_update`, the upstream is contacted exactly when the row is
      missing, has a NULL column or is stale; a hit returns the stored response
      and leaves the table alone. */
  lemma CachedPathGoesLiveIffNotHit(store: Store, now: int, json: RequestJson, upstream: Upstream)
    ensures var o := Fetch(store, now, json, false, upstream);
      && (o.live <==> !IsHit(SelectRow(store, json), now))
      && (!o.live ==> o.response == SelectRow(store, json).response && o.response.Some? && o.store == store)
      && (o.live ==> o.response == upstream(json))
  {
  }

  /** A missing row, a NULL column or a stale entry each cause one live
      request whose body is returned and replaces the entry, stamped `now`. */
  lemma MissRefreshesEntry(store: Store, now: int, json: RequestJson, upstream: Upstream, body: string)
    requires !IsHit(SelectRow(store, json), now)
    requires upstream(json) == Some(body)
    ensures var o := Fetch(store, now, json, false, upstream);
      o.live && o.response == Some(body)
      && SelectRow(o.store, json) == CacheRow(Some(json), Some(body), Some(now))
  {
  }

  /** A failed live request leaves every row as it was, stale rows included. */
  lemma FailedRefreshKeepsStore(store: Store, now: int, json: RequestJson, alwaysUpdate: bool, upstream: Upstream)
    requires upstream(json) == None
    ensures var o := Fetch(store, now, json, alwaysUpdate, upstream);
      o.response.Some? ==> !o.live
    ensures Fetch(store, now, json, alwaysUpdate, upstream).store == store
  {
  }

  /** The freshness test is strict: an entry exactly `StaleAfter` seconds old
      is refreshed, one a second younger is served. */
  lemma FreshnessBoundaryIsStrict(json: RequestJson, resp: string, t: int)
    ensures !IsHit(CacheRow(Some(json), Some(resp), Some(t)), t + StaleAfter)
    ensures IsHit(CacheRow(Some(json), Some(resp), Some(t)), t + StaleAfter - 1)
  {
  }

  /** A call only ever touches the slot of its own request JSON: two requests
      share a slot exactly when their JSON is equal. */
  lemma OtherSlotsUntouched(store: Store, now: int, json: RequestJson, other: RequestJson,
                            alwaysUpdate: bool, upstream: Upstream)
    requires other != json
    ensures SelectRow(Fetch(store, now, json, alwaysUpdate, upstream).store, other) == SelectRow(store, other)
  {
  }

  /** A successful cached-path miss followed by a second call within the
      freshness window: the second call is served from the table, with the same
      body and no upstream call. */
  lemma {:induction false} MissThenHit(store: Store, now: int, later: int, json: RequestJson, upstream: Upstream, body: string)
    requires !IsHit(SelectRow(store, json), now)
    requires upstream(json) == Some(body)
    requires later - now < StaleAfter
    ensures var first := Fetch(store, now, json, false, upstream);
      var second := Fetch(first.store, later, json, false, upstream);
      first.live && !second.live && second.response == Some(body) && second.store == first.store
  {
    MissRefreshesEntry(store, now, json, upstream, body);
  }

  /** A forced refresh does not make a later cached call a hit: the table is
      exactly as before the forced call. */
  lemma ForceLiveThenCachedCall(store: Store, now: int, later: int, json: RequestJson, upstream: Upstream)
    ensures var forced := Fetch(store, now, json, true, upstream);
      Fetch(forced.store, later, json, false, upstream) == Fetch(store, later, json, false, upstream)
  {
  }

  /** Rows written by the cache are complete, carry their own key and were
      stamped no later than the clock. */
  ghost predicate WellFormed(store: Store, now: int) {
    forall k :: k in store ==>
      store[k].json == Some(k) && store[k].response.Some? && store[k].lastUpdated.Some?
      && store[k].lastUpdated.value <= now
  }

  /** A call keeps the table well formed, and a refreshed slot's timestamp never
      moves backwards. */
  lemma FetchKeepsWellFormed(store: Store, now: int, json: RequestJson, alwaysUpdate: bool, upstream: Upstream)
    requires WellFormed(store, now)
    ensures var o := Fetch(store, now, json, alwaysUpdate, upstream);
      WellFormed(o.store, now)
      && (json in store ==> o.store[json].lastUpdated.value >= store[json].lastUpdated.value)
  {
  }

  /** The scenario of a first call on an empty table, a second ten seconds
      later and a third four days later. */
  lemma {:induction false} ThreeCallScenario(t: int, json: RequestJson, body: string, upstream: Upstream)
    requires upstream(json) == Some(body)
    ensures var first := Fetch(map[], t, json, false, upstream);
      var second := Fetch(first.store, t + 10, json, false, upstream);
      var third := Fetch(second.store, t + 4 * 24 * 60 * 60, json, false, upstream);
      first.live && first.response == Some(body)
      && !second.live && second.response == Some(body)
      && third.live && third.response == Some(body)
  {
    MissThenHit(map[], t, t + 10, json, upstream, body);
  }

  // ------------------------------------------------------------------- state

  /** The cache as the running bot holds it: the table, the clock that
      `Utc::now()` reads and the upstream API. `liveRequests` records every
      request sent upstream, in order. */
  class AniListCache {
    var store: Store
    var now: int
    const upstream: Upstream
    ghost var liveRequests: seq<RequestJson>

    ghost predicate Valid()
      reads this
    {
      WellFormed(store, now)
    }

    /** The table starts empty (`CREATE TABLE IF NOT EXISTS` on a fresh file). */
    constructor (upstream: Upstream, now: int)
      ensures Valid()
      ensures this.store == map[] && this.now == now && this.upstream == upstream
      ensures liveRequests == []
    {
      this.store := map[];
      this.now := now;
      this.upstream := upstream;
      liveRequests := [];
    }

    /** Time passes; the clock never goes back. */
    method AdvanceClock(seconds: nat)
      requires Valid()
      modifies this`now
      ensures Valid()
      ensures now == old(now) + seconds
    {
      now := now + seconds;
    }

    /** `add_cache`: insert or replace the row for `json`, stamped with the clock. */
    method AddCache(json: RequestJson, resp: string) returns (ok: bool)
      requires Valid()
      modifies this`store
      ensures Valid()
      ensures ok
      ensures store == Inserted(old(store), json, resp, now)
    {
      store := store[json := CacheRow(Some(json), Some(resp), Some(now))];
      ok := true;
    }

    /** `do_request`: one upstream request; the body is cached only when
        `always_update` is false. */
    method DoRequest(json: RequestJson, alwaysUpdate: bool) returns (resp: Option<string>)
      requires Valid()
      modifies this`store, this`liveRequests
      ensures Valid()
      ensures resp == upstream(json)
      ensures liveRequests == old(liveRequests) + [json]
      ensures store == LiveRequest(old(store), now, json, alwaysUpdate, upstream).store
    {
      liveRequests := liveRequests + [json];
      resp := upstream(json);
      if resp.Some? && !alwaysUpdate {
        var _ := AddCache(json, resp.value);
      }
    }

    /** `get_cache` */
    method GetCache(json: RequestJson) returns (resp: Option<string>)
      requires Valid()
      modifies this`store, this`liveRequests
      ensures Valid()
      ensures var o := Lookup(old(store), now, json, upstream);
        resp == o.response && store == o.store
        && liveRequests == old(liveRequests) + (if o.live then [json] else [])
    {
      var row := SelectRow(store, json);
      if row.json.None? || row.response.None? || row.lastUpdated.None? {
        resp := DoRequest(json, false);
      } else {
        var durationSinceUpdated := now - row.lastUpdated.value;
        if durationSinceUpdated < StaleAfter {
          resp := row.response;
        } else {
          resp := DoRequest(json, false);
        }
      }
    }

    /** `make_request_anilist` */
    method MakeRequestAnilist(json: RequestJson, alwaysUpdate: bool) returns (resp: Option<string>)
      requires Valid()
      modifies this`store, this`liveRequests
      ensures Valid()
      ensures var o := Fetch(old(store), now, json, alwaysUpdate, upstream);
        resp == o.response && store == o.store
        && liveRequests == old(liveRequests) + (if o.live then [json] else [])
    {
      if alwaysUpdate {
        resp := DoRequest(json, alwaysUpdate);
      } else {
        resp := GetCache(json);
      }
    }
  }
}

# DiscordAnilistBotRS core, modelled in Dafny

This project models the sequential decision logic of the DiscordAnilistBotRS Discord bot and proves properties of that model. HTTP, the database, Discord and the clock are inputs or oracles throughout. The modules are:

- `RequestCache` (`request_cache.dfy`): the AniList GraphQL request cache. A table keyed by the request JSON, an explicit clock and an abstract upstream API sit in the class `AniListCache`. Its methods are proved to follow the pure functions `Inserted`, `LiveRequest`, `Lookup` and `Fetch`.
- `ModuleActivation` (`module_activation.dfy`): the per-guild module switches. It covers the `check_activation_status` lookup and the `/admin general module` command, with a class holding the table.
- `CommandDispatch` (`command_dispatch.dfy`): slash-command routing. A module gate is the guild switch AND the kill switch; after it come the per-group subcommand tables.
- `RandomStats` (`update_random_stats.dfy`): the daily walk of the AniList statistics pages. There are two `while has_next_page` loops, the default counters, and the stats file as state.
- `StaffText` (`struct_staff.dfy`): the text of the staff embed.
- `PfpServerColor` (`pfp_server_color.dfy`): the squared-RGB nearest-colour search and the colour-list parser behind the server profile-picture mosaic.
- `UserColor` (`calculate_user_color.dfy`): the member-colour background task:
  - the recompute-on-changed-URL memo over the `user_color` table;
  - the average colour in `u32` arithmetic;
  - the 1000-member pagination of `get_member`.
- `AddActivity` (`add_activity.dfy`): `/admin anilist add_anime_activity`. It covers the title, the crop geometry, id-or-search lookup, delay, the webhook name, and the duplicate check before the insert.
- `VndbQuery` (`vndb_query.dfy`): classifying a VNDB query as an id or a search, and the JSON request body.
- `PremiumSku` (`premium_sku.dfy`): the SKU autocomplete pipeline (label, filter, take 25).
- `LevelTotal` (`level_total.dfy`): the `get_total` status tally of both `level.rs` files and the XP weighting of its caller.
- `Translation` (`translation.dfy`): the AI translation command. It covers the option scan, content-type and extension validation, the "en" shortcut and post-processing of the translation.
- `VnGame` (`vn_game.dfy`): the VN embed. The field assembly is a method with one conditional push per field, followed by the image-safety gate.
- Support modules:
  - `Wrappers` defines `Option` and `Result`.
  - `Text` holds the Rust string operations used (`take`, `join`, `split`, `replace`, `trim`, ASCII `to_lowercase`, UTF-8 byte length, integer parsing and formatting, `{:02x}`).
  - `Arith` holds two arithmetic facts.
  - `AppErrors` defines the bot's `AppError` triple.

Where the code and its documentation disagree, the model follows the code. Examples:
- `check_activation_status` defaults an absent NEW_MEMBER flag to on, while `run` defaults it to off.
- With `always_update` the cache is neither read nor written.

Behaviours of the code that the model states but that are not bugs of the kind listed under Findings:
- `ModuleActivation.NewMemberFlipsOnUnrelatedSwitch`: because the two NEW_MEMBER defaults differ, switching any other module on a guild with no record turns NEW_MEMBER from on to off.
- `PremiumSku.LongGroupNameSlipsThrough`: the subscription-group filter reads the label after truncation to 100 characters, so a group SKU with a long name is offered.
- `Translation.DotlessSegmentIsExtension`: a last path segment without a dot is its own extension, so `.../mp3` passes.
- `Translation.OtherLanguagesAreTranslated`: when no language is given, the empty language is not "en", so the transcript is sent to the translator.
- `VndbQuery.QuotesAreNotEscaped`: the VNDB value is spliced into the JSON without escaping.
- In `update_random` both loops read `site_statistics.manga.page_info`, and both error messages print the anime counter. The model passes the answer of each query as the oracle `query(kind, page)`, and `FetchError` always carries the anime page.

## Model

| member | source | states |
|---|---|---|
| RequestCache.Inserted | src/cmd/general_module/function/request.rs:93-108 | `add_cache` is insert-or-replace on the key: afterwards the key's row is exactly (json, resp, now), the keys are the old keys plus this one, and every other key reads as before |
| RequestCache.ForceLiveBypassesCache | src/cmd/general_module/function/request.rs:36-39 | with `always_update` the call goes live, returns the upstream answer whatever the table holds, and leaves the table unchanged (no write on this path, lines 137-139) |
| RequestCache.CachedPathGoesLiveIffNotHit | src/cmd/general_module/function/request.rs:72-90 | without `always_update` the upstream is contacted exactly when the row is missing, has a NULL column or is stale; a hit returns the stored response verbatim |
| RequestCache.MissRefreshesEntry | src/cmd/general_module/function/request.rs:80-88 | a missing, incomplete or stale row causes one live request whose body is returned and replaces the row, stamped with the current time |
| RequestCache.FailedRefreshKeepsStore | src/cmd/general_module/function/request.rs:124-140 | a failed live request gives no response and leaves every row as it was, stale rows included |
| RequestCache.FreshnessBoundaryIsStrict | src/cmd/general_module/function/request.rs:84-85 | an entry exactly 3·24·60·60 seconds old is stale, one second younger is fresh |
| RequestCache.OtherSlotsUntouched | src/cmd/general_module/function/request.rs:61-66 | a call only touches the slot of its own request JSON: rows for different JSON values are unaffected |
| RequestCache.MissThenHit | src/cmd/general_module/function/request.rs:57-91 | after a successful cached-path miss, a second call within three days is a hit that returns the same body without going live |
| RequestCache.ForceLiveThenCachedCall | src/cmd/general_module/function/request.rs:36-42 | a forced refresh does not feed the cache: a following cached call behaves as if the forced call had not happened |
| RequestCache.FetchKeepsWellFormed | src/cmd/general_module/function/request.rs:96-102 | every call keeps the table well formed (rows complete, carrying their own key, stamped no later than the clock), and a slot's timestamp never moves backwards |
| RequestCache.ThreeCallScenario | src/cmd/general_module/function/request.rs:57-91 | on an empty table: a first call goes live, a call ten seconds later is served from the table, a call four days later goes live again |
| RequestCache.AniListCache.constructor | src/cmd/general_module/function/request.rs:61-70 | the table starts empty with the given clock and upstream |
| RequestCache.AniListCache.AdvanceClock | src/cmd/general_module/function/request.rs:84 | the clock only moves forward, by the given number of seconds |
| RequestCache.AniListCache.AddCache | src/cmd/general_module/function/request.rs:93-108 | the table becomes `Inserted(old table, json, resp, now)` and the result is true |
| RequestCache.AniListCache.DoRequest | src/cmd/general_module/function/request.rs:124-140 | one upstream request is logged; the result is its answer; the table is written only when not `always_update` and the request succeeded |
| RequestCache.AniListCache.GetCache | src/cmd/general_module/function/request.rs:57-91 | response, table and live-request log are those `Lookup` gives |
| RequestCache.AniListCache.MakeRequestAnilist | src/cmd/general_module/function/request.rs:36-42 | response, table and live-request log are those `Fetch` gives |
| ModuleActivation.CheckActivationStatus | src/command/run/admin/module.rs:139-149 | for the six known modules: on unless the stored flag is false (absent counts as on); any other name is off |
| ModuleActivation.ComputeModuleStatus | src/command/run/admin/module.rs:69-100 | an unknown name is the "This module does not exist." error; otherwise the record carries the guild id, the named flag is `state`, and every other flag holds its stored value or `run`'s default (NEW_MEMBER off, others on) with no NULL |
| ModuleActivation.SwitchIsObserved | src/command/run/admin/module.rs:92-102 | after a switch, the lookup reports exactly the state that was requested |
| ModuleActivation.OtherModulesObservedUnchanged | src/command/run/admin/module.rs:70-91 | a switch does not change what the lookup reports for any other module whose default agrees |
| ModuleActivation.NewMemberFlipsOnUnrelatedSwitch | src/command/run/admin/module.rs:73 | on a guild without a record NEW_MEMBER reads as on, and after switching another module it reads as off |
| ModuleActivation.ModuleStatusTable.constructor | src/command/run/admin/module.rs:69 | the table starts with no records |
| ModuleActivation.ModuleStatusTable.Run | src/command/run/admin/module.rs:46-102 | a missing `name` gives "There is no option 1", a missing `state` gives "There is no option 2", and an unknown name gives the unknown-module error; each error leaves the table untouched; a success replaces exactly the record of the guild ("0" outside a guild) |
| CommandDispatch.CheckIfModuleIsOn | src/command_run/command_dispatch.rs:93-114 | on exactly when both the guild's record and the kill-switch record say on; a failed read of the guild record is returned as the error, and so is a failed kill-switch read once the guild's switch is on; a guild switch that is off gives "off" without reading the kill switch |
| CommandDispatch.GateComesFirst | src/command_run/command_dispatch.rs:244-276 | a command whose module is off is refused with that module's error whatever its subcommand, unknown subcommands included |
| CommandDispatch.RoutedImpliesModuleOn | src/command_run/command_dispatch.rs:42-75 | a command only reaches a handler when the module it requires (AI, ANIME or GAME, per the independent table) is on |
| CommandDispatch.UngatedIgnoresStore | src/command_run/command_dispatch.rs:495-616 | `bot`, `server`, `user` and `admin general` route the same way whatever the module tables hold |
| CommandDispatch.GroupTables | src/command_run/command_dispatch.rs:55-75 | with its module on, each of the nine groups other than `admin` (ai, anilist_server, anilist_user, anime, anime_nsfw, bot, server, steam, user) routes through its own subcommand table, and an unknown top-level name gives "Command does not exist." |
| CommandDispatch.SubcommandRouting | src/command_run/command_dispatch.rs:161-196 | with its module on, a grouped command reaches a handler exactly when its subcommand is in that group's table, and then that entry's handler; any other subcommand gets "Command does not exist." |
| CommandDispatch.AdminGroup | src/command_run/command_dispatch.rs:130-168 | `admin general` is ungated, `admin anilist` is refused when ANIME is off, and any other admin group does not exist |
| CommandDispatch.MissingGuildIsZero | src/command_run/command_dispatch.rs:135-138 | outside a guild the dispatcher behaves exactly as for guild "0" |
| CommandDispatch.UnknownModuleIsOff | src/command_run/command_dispatch.rs:93-97 | a module name outside the six known ones is never reported on |
| RandomStats.WalkStep | src/background_task/update_random_stats.rs:100-117 | a page with a next page continues the walk one page later; a page without one ends it; a malformed answer panics; a failed request ends it with that error |
| RandomStats.WalkAfterNextPages | src/background_task/update_random_stats.rs:111-113 | after k pages that each report a next page, the walk continues from k pages later and ends k pages further on |
| RandomStats.WalkStopsAtFirstNonNext | src/background_task/update_random_stats.rs:66-118 | the walk stops on the first page that does not report a next page: every page before it did, and the outcome matches that page's answer |
| RandomStats.UpdatedKeepsDifference | src/background_task/update_random_stats.rs:111-117 | the difference between the anime and manga counters never changes |
| RandomStats.UpdatedFindsLastMangaPage | src/background_task/update_random_stats.rs:120-176 | on success, each counter sits one below the first page of its query that reports no next page, and every manga page the second loop passed reported one |
| RandomStats.FollowPages | src/background_task/update_random_stats.rs:65-118 | the loop leaves the counters where the walk from the query's counter ends: both moved by the pages with a next page, minus one at the end; a failed request is returned at once |
| RandomStats.UpdateRandom | src/background_task/update_random_stats.rs:64-176 | the anime loop, then the manga loop from where it left off, as `Updated` describes; the difference between the counters is preserved |
| RandomStats.FreshStartExample | src/background_task/update_random_stats.rs:26-41 | without a stats file the walks begin at (1796, 1796): when anime page 1796 and manga page 1795 report no next page, the counters end at (1794, 1794) |
| RandomStats.StoredCountersAreResumed | src/background_task/update_random_stats.rs:26-42 | a readable file's counters are where the walks resume; when both statistics end right there, the next run ends two pages lower on each counter |
| RandomStats.StatsStore.constructor | src/background_task/update_random_stats.rs:26 | the store holds the given file |
| RandomStats.StatsStore.UpdateRandomStats | src/background_task/update_random_stats.rs:24-62 | an error before the write, or a failed write, leaves the file unchanged; a success writes exactly the updated counters |
| StaffText.VaLines | src/structure/anilist/staff/struct_staff.rs:241-261 | one "native / full" line per character, in order, with "N/A" for a missing part |
| StaffText.FormatVaLines | src/structure/anilist/staff/struct_staff.rs:240-264 | `format_va` splits at its line breaks into one line per character, in order, each but the last followed by "," |
| StaffText.FormatVaEmpty | src/structure/anilist/staff/struct_staff.rs:263 | no characters give the empty text |
| StaffText.FormatRoleShowsTitle | src/structure/anilist/staff/struct_staff.rs:266-286 | the i-th line of `format_role` is the i-th medium's romaji title, else its English title, else nothing, followed by " (role)" |
| StaffText.RoleLines | src/structure/anilist/staff/struct_staff.rs:267-284 | one "title (role)" line per edge, in order |
| StaffText.FormatRoleLines | src/structure/anilist/staff/struct_staff.rs:266-286 | `format_role` splits at "\n" back into exactly the role lines |
| StaffText.GetUrlRoundTrip | src/structure/anilist/staff/struct_staff.rs:288-290 | the URL starts with "https://anilist.co/staff/" and the id parses back from the rest |
| StaffText.GetNameParts | src/structure/anilist/staff/struct_staff.rs:292-304 | with both names present the name splits at '/' into native and full; each missing name is the "N/A" placeholder, whose own '/' splits it into "N" and "A": ["N", "A", full], [native, "N", "A"] or ["N", "A", "N", "A"] |
| StaffText.PartRoundTrip | src/structure/anilist/staff/struct_staff.rs:353-366 | a present date part parses back from its text, and a missing one does not parse as a number |
| StaffText.PartIsPlaceholderIff | src/structure/anilist/staff/struct_staff.rs:353-366 | a date part shows its "Unknown …" placeholder exactly when it is missing |
| StaffText.FormatDateParts | src/structure/anilist/staff/struct_staff.rs:351-389 | a birth or death date splits at '/' into exactly month, day and year, each its number or "Unknown mont", "Unknown day", "Unknown year" |
| StaffText.HeaderShowsHometown | src/structure/anilist/staff/struct_staff.rs:306-314 | in the description header the home town (or "N/A") comes right after its label and before the language label and language; a missing home town and one spelled "N/A" give the same header |
| StaffText.GetOccupationLists | src/structure/anilist/staff/struct_staff.rs:406-417 | the occupations text splits at ',' into at most five pieces, the i-th of which is the i-th occupation |
| StaffText.GetDescAsWrittenDropsDescription | src/structure/anilist/staff/struct_staff.rs:315-348 | as written, whenever the header is under 4096 bytes the result is the header alone, and it is the same whatever the description |
| StaffText.GetDescShowsDescription | src/structure/anilist/staff/struct_staff.rs:306-349 | corrected: the result always starts with the header and a blank line, and carries the whole description when both fit in 4096 bytes |
| PfpServerColor.PixelColor | src/command_run/general/generate_image_pfp_server.rs:83-88 | the target colour carries the pixel's channels, and its text is a 7-character `#rrggbb` whose red digits read back as the red channel |
| PfpServerColor.Square | src/command_run/general/generate_image_pfp_server.rs:138-140 | the square of a channel difference lies in [0, 255²] and is 0 exactly when the difference is |
| PfpServerColor.ColorDistance | src/command_run/general/generate_image_pfp_server.rs:137-141 | the distance lies in [0, 3·255²] and is 0 exactly when the three channels are equal |
| PfpServerColor.FirstClosestIsUnique | src/command_run/general/generate_image_pfp_server.rs:181-184 | the first position of a nearest colour is unique |
| PfpServerColor.FindClosestColor | src/command_run/general/generate_image_pfp_server.rs:176-187 | nothing exactly for an empty list; otherwise the colour at the first position whose distance is at most that of every other |
| PfpServerColor.CreateColorVector | src/command_run/general/generate_image_pfp_server.rs:160-174 | never more colours than entries |
| PfpServerColor.CreateColorVectorAppend | src/command_run/general/generate_image_pfp_server.rs:161-173 | the filter works entry by entry, so order is kept: a concatenation converts to the concatenation |
| PfpServerColor.CreateColorVectorSingle | src/command_run/general/generate_image_pfp_server.rs:163-171 | one entry is kept exactly when its three slices parse as decimal `u8`, and then with its hex and url unchanged |
| PfpServerColor.DecimalParseMisreadsHex | src/command_run/general/generate_image_pfp_server.rs:164-166 | as written, "#0000ff" is dropped and "#101010" is read as the channels (10, 10, 10) |
| PfpServerColor.CreateColorVectorHex | src/command_run/general/generate_image_pfp_server.rs:160-174 | corrected: never more colours than entries |
| PfpServerColor.HexColourRoundTrip | src/command_run/general/generate_image_pfp_server.rs:164-169 | corrected: every colour written as `#{:02x}{:02x}{:02x}` comes back with its own channels |
| PfpServerColor.Entries | src/command_run/general/generate_image_pfp_server.rs:160 | one (hex, url) entry per colour |
| PfpServerColor.HexColoursAllKept | src/command_run/general/generate_image_pfp_server.rs:160-174 | corrected: a whole list of colours written as hex converts back to itself, with nothing dropped |
| UserColor.NormalizesSize | bot/src/background_task/server_image/calculate_user_color.rs:152-158 | each of the sizes 4096, 2048, 1024, 512, 256 and 128 at the end of an avatar URL becomes `?size=64`, and `?size=64` stays as it is |
| UserColor.ChannelSumBound | bot/src/background_task/server_image/calculate_user_color.rs:292-299 | a channel total is at most 255 per pixel |
| UserColor.Wrap | bot/src/background_task/server_image/calculate_user_color.rs:298 | a `u32` result is below 2³² |
| UserColor.AverageIsByte | bot/src/background_task/server_image/calculate_user_color.rs:304-307 | without wrap-around each channel average is the true mean rounded down, at most 255 |
| UserColor.CalculateUserColor | bot/src/background_task/server_image/calculate_user_color.rs:283-324 | a computed colour starts with '#' and has at least 7 characters |
| UserColor.ComputedColorIsHex | bot/src/background_task/server_image/calculate_user_color.rs:283-309 | for an ordinary avatar the colour is exactly 7 characters whose three hex pairs read back as the channel means |
| UserColor.ScanSkipsBlacklisted | bot/src/background_task/server_image/calculate_user_color.rs:57-66 | a blacklisted member's rows are never touched |
| UserColor.ScanOfUpToDateChangesNothing | bot/src/background_task/server_image/calculate_user_color.rs:72-84 | with every member's stored URL current, a pass recomputes nothing and changes no table |
| UserColor.ScanCompletedLeavesUpToDate | bot/src/background_task/server_image/calculate_user_color.rs:84-120 | after a completed pass, every member it saw that is not blacklisted has a row holding its current URL |
| UserColor.ScanKeepsUnseen | bot/src/background_task/server_image/calculate_user_color.rs:58-123 | a pass writes only rows of members it sees |
| UserColor.ScanIsIdempotent | bot/src/background_task/server_image/calculate_user_color.rs:52-125 | a second pass right after a completed one changes nothing |
| UserColor.AverageOnePerMember | bot/src/background_task/server_image/calculate_user_color.rs:151-257 | `return_average_user_color` yields one entry per member, in member order, each carrying that member's normalised URL |
| UserColor.AverageServedFromStore | bot/src/background_task/server_image/calculate_user_color.rs:167-215 | when every member's stored URL is current, the stored (colour, URL, image) entries are returned and no table changes |
| UserColor.UserColorStore.constructor | bot/src/background_task/server_image/calculate_user_color.rs:71 | the tables start empty, with the given download and encoder oracles |
| UserColor.UserColorStore.CalculateUsersColor | bot/src/background_task/server_image/calculate_user_color.rs:52-125 | the tables and the outcome are those `ScanFrom` gives |
| UserColor.UserColorStore.ReturnAverageUserColor | bot/src/background_task/server_image/calculate_user_color.rs:146-261 | the entries, the tables and the outcome are those `AverageFrom` gives |
| UserColor.RepliesMatchAt | bot/src/background_task/server_image/calculate_user_color.rs:433-452 | the k-th page is the reply to the k-th request, made after the last member of the pages before it |
| UserColor.GetMember | bot/src/background_task/server_image/calculate_user_color.rs:429-458 | the result is the pages concatenated in order; each page replies to its own request; all but the last are full (1000); it stops on a short page or on an error |
| AddActivity.GetNameEmptyIff | bot/src/command/admin/anilist/add_activity.rs:244-254 | the name is empty exactly when no title is present or the only present title is empty |
| AddActivity.GetNameSplit | bot/src/command/admin/anilist/add_activity.rs:249 | with both titles the name splits at its one '/' into the English then the romaji title |
| AddActivity.CropGeometry | bot/src/command/admin/anilist/add_activity.rs:199-205 | the crop is a square of side min(w, h), centred (offsets halved with rounding down) and inside the image, with one offset zero |
| AddActivity.SearchedTextIsNoDecimalId | bot/src/command/admin/anilist/add_activity.rs:385-389 | a text that is searched by title is never the decimal form of an `i32` |
| AddActivity.DecimalIdIsLookedUpById | bot/src/command/admin/anilist/add_activity.rs:385-386 | every `i32` written in decimal is looked up by that id |
| AddActivity.TitleIsSearched | bot/src/command/admin/anilist/add_activity.rs:385-388 | "Frieren" and "" are searched, while "+12" parses and is looked up as id 12 |
| AddActivity.IdLookupReturnsMedia | bot/src/command/admin/anilist/add_activity.rs:338-391 | an id typed in decimal returns exactly the media AniList sends for that id, and a failed request is its error |
| AddActivity.SearchReturnsMedia | bot/src/command/admin/anilist/add_activity.rs:338-391 | a searched title returns exactly the media AniList sends for that text; a missing `data` is "No data found" |
| AddActivity.TrimmerSeesOnlyNonPositiveBudgets | bot/src/command/admin/anilist/add_activity.rs:123-127 | a name under 50 bytes reaches the webhook unchanged whatever `trim_webhook` does; a longer one is trimmed with the budget `50 - len`, which is never positive, so trimmers that agree on non-positive budgets give the same name |
| AddActivity.Delay | bot/src/command/admin/anilist/add_activity.rs:117-121 | the delay is an `i32`, 0 when the option is absent |
| AddActivity.DelayReadsDecimal | bot/src/command/admin/anilist/add_activity.rs:117-121 | any `i32` typed in decimal is stored as that delay |
| AddActivity.DelayOfTextIsZero | bot/src/command/admin/anilist/add_activity.rs:117-121 | a delay text that starts with neither a sign nor a digit is read as 0 |
| AddActivity.ExistingActivityIsNotAdded | bot/src/command/admin/anilist/add_activity.rs:89-113 | an activity the guild already follows is never added |
| AddActivity.AddedRowFields | bot/src/command/admin/anilist/add_activity.rs:114-177 | an added row is for the media looked up, in the guild ("1" outside one), with its next episode, the trimmed name and the delay |
| AddActivity.DuplicateIsReported | bot/src/command/admin/anilist/add_activity.rs:99-113 | for an anime the guild already follows, the reply is the duplicate notice with its name and AniList URL |
| AddActivity.ActivityTable.constructor | bot/src/command/admin/anilist/add_activity.rs:159 | the table starts empty |
| AddActivity.ActivityTable.RunSlash | bot/src/command/admin/anilist/add_activity.rs:63-196 | the reply is the one `Decide` gives, and the table gains exactly the new row when one is added |
| AddActivity.AddThenAddAgainIsDuplicate | bot/src/command/admin/anilist/add_activity.rs:89-99 | after a successful add, the same command again reports a duplicate |
| VndbQuery.Processed | src/helper/vndbapi/game.rs:72-73 | the processed value has no upper-case letter and no leading or trailing whitespace |
| VndbQuery.IdFilterIff | src/helper/vndbapi/game.rs:74-86 | the id filter is chosen exactly for 'v' followed by digits only ("v" alone included); anything else is a search |
| VndbQuery.ClassifyExamples | src/helper/vndbapi/game.rs:74-76 | "v" and "v17" are ids; "vocaloid", "17" and "" are searches |
| VndbQuery.ProcessedExample | src/helper/vndbapi/game.rs:72-73 | " V17 " is processed to "v17" |
| VndbQuery.ProcessedIsIdempotent | src/helper/vndbapi/game.rs:72-73 | processing twice is processing once |
| VndbQuery.SameFieldsForBothFilters | src/helper/vndbapi/game.rs:77-85 | both filters send the same text after the value: only the filter name differs |
| VndbQuery.ValueRoundTrip | src/helper/vndbapi/game.rs:78 | the value is spliced in verbatim: it reads back unchanged from between the fixed prefix and suffix |
| VndbQuery.QueryCarriesProcessedInput | src/helper/vndbapi/game.rs:72-86 | the body sent carries the processed input under the filter it was classified as |
| VndbQuery.QuotesAreNotEscaped | src/helper/vndbapi/game.rs:78 | every quote of the value lands in the body unescaped |
| VndbQuery.GetVnSeesOnlyProcessed | src/helper/vndbapi/game.rs:72-100 | inputs that differ only in case and surrounding blanks get the same answer, and looking up the processed input again gives the same answer |
| PremiumSku.Kept | src/command/autocomplete/management/give_premium_sub.rs:62-63 | never more choices than SKUs |
| PremiumSku.GivePremiumSubAutocomplete | src/command/autocomplete/management/give_premium_sub.rs:18-68 | nothing without a `user` option; a failed SKU listing panics; otherwise nothing is sent exactly when no choice remains, and what is sent is 1 to 25 choices, the first kept ones in SKU order, each some SKU's choice and none mentioning a subscription group |
| PremiumSku.LabelIsTruncatedFormat | src/command/autocomplete/management/give_premium_sub.rs:54-57 | a label has at most 100 characters, is a prefix of the formatted text, and equals it when that is short enough |
| PremiumSku.AvailabilityShownIff | src/command/autocomplete/management/give_premium_sub.rs:37-57 | the formatted label ends in "is available " exactly when bit 2 is set |
| PremiumSku.SubscriptionTextIsFaithful | src/command/autocomplete/management/give_premium_sub.rs:38-53 | two texts are equal exactly when the guild bit (7) and user bit (8) agree |
| PremiumSku.GroupKindText | src/command/autocomplete/management/give_premium_sub.rs:30-36 | the kind reads "Subscription Group" exactly for group SKUs |
| PremiumSku.KeptAppend | src/command/autocomplete/management/give_premium_sub.rs:62 | the filter goes SKU by SKU, so order is preserved |
| PremiumSku.KeptSingle | src/command/autocomplete/management/give_premium_sub.rs:62-63 | one SKU is offered exactly when its label does not mention "Subscription Group" |
| PremiumSku.KeptChoicesAreClean | src/command/autocomplete/management/give_premium_sub.rs:59-63 | every kept choice is some SKU's choice (label, decimal id) and mentions no subscription group |
| PremiumSku.CleanChoicesAreKept | src/command/autocomplete/management/give_premium_sub.rs:62 | every SKU whose label does not mention a subscription group is kept |
| PremiumSku.ChoicesAreFirstKept | src/command/autocomplete/management/give_premium_sub.rs:64-65 | at most 25 choices, the first kept ones in order, and all of them when fewer survive |
| PremiumSku.ShortGroupIsHidden | src/command/autocomplete/management/give_premium_sub.rs:54-62 | a group SKU whose label is not cut is never offered |
| PremiumSku.LongGroupNameSlipsThrough | src/command/autocomplete/management/give_premium_sub.rs:54-62 | a group SKU with a 99-character name loses "Subscription Group" to the cut and is offered |
| LevelTotal.GetTotal | src/cmd/anilist_module/level.rs:136-147 | the pair is (count of the last "CURRENT" entry, count of the last "COMPLETED" entry), 0 for an absent status; an empty list gives (0, 0) |
| LevelTotal.LastCountIsLastEntry | src/cmd/anilist_module/cmd/level.rs:150-162 | a status reads c exactly when some entry has that status and count and no later entry has that status, so a later duplicate overwrites |
| LevelTotal.AbsentStatusIsZero | src/cmd/anilist_module/level.rs:139-145 | a status that never occurs reads as absent; entries with other statuses are ignored |
| LevelTotal.LevelPointsWeighsCompleted | src/cmd/anilist_module/level.rs:58-59 | corrected: each "COMPLETED" count weighs 2.5 and each "CURRENT" count 1.0 (doubled in the model) |
| LevelTotal.AsWrittenSwapsWeights | src/cmd/anilist_module/level.rs:53-59 | as written, the weights are swapped: 2.5 per title in progress, 1.0 per completed title |
| LevelTotal.SwappedBindingExample | src/cmd/anilist_module/cmd/level.rs:67-73 | `n` completed anime and no manga: 2.5 * n status points intended, n as written (doubled: 5 * n and 2 * n) |
| LevelTotal.AsWrittenAgreesIff | src/cmd/anilist_module/level.rs:53-59 | the as-written and corrected scores agree exactly when the in-progress and completed totals are equal |
| Translation.ScanOptions | src/command_run/ai/translation.rs:27-51 | the loop's result is the one `ScanFrom` gives from "" and no attachment |
| Translation.ScanFailsIff | src/command_run/ai/translation.rs:36-49 | the scan fails exactly when some "video" option is not an attachment, with NoCommandOption("The command contain no option.") |
| Translation.ScanLangDefault | src/command_run/ai/translation.rs:27-35 | without a "lang_struct" string option the language stays "" |
| Translation.ScanLangIsLast | src/command_run/ai/translation.rs:29-35 | the last "lang_struct" string option wins |
| Translation.ScanVideoDefault | src/command_run/ai/translation.rs:28-44 | without a "video" attachment, there is no attachment |
| Translation.ScanVideoIsLast | src/command_run/ai/translation.rs:36-44 | the last "video" attachment wins |
| Translation.AfterLast | src/command_run/ai/translation.rs:91-96 | the text after the last separator: a suffix free of it, preceded by it when shorter than the whole |
| Translation.ValidateFileName | src/command_run/ai/translation.rs:53-103 | an audio or video upload ".../name.ext" passes exactly when `ext` lower-cased is an allowed extension, whatever the directories and name say, and yields its content type and that extension; otherwise "Bad file extension" |
| Translation.AfterLastOfJoined | src/command_run/ai/translation.rs:93-96 | everything after the last separator, whatever comes before it |
| Translation.AfterLastAbsent | src/command_run/ai/translation.rs:93-96 | without any separator the whole text is kept |
| Translation.ExtensionOfFileName | src/command_run/ai/translation.rs:86-97 | the extension of ".../name.ext" is `ext` lower-cased, whatever the directories contain |
| Translation.DotlessSegmentIsExtension | src/command_run/ai/translation.rs:91-97 | a last segment without a dot is its own extension, lower-cased |
| Translation.PostProcessRemovesQuotes | src/command_run/ai/translation.rs:227-230 | no '"' survives post-processing |
| Translation.PostProcessKeepsPlainText | src/command_run/ai/translation.rs:227-230 | a text without quotes or escaped newlines passes through unchanged |
| Translation.Run | src/command_run/ai/translation.rs:22-188 | scan and validation errors are returned in the code's order before anything is transcribed, and a failed transcription is returned as its error; the success paths are stated by EnglishIsNotTranslated and OtherLanguagesAreTranslated |
| Translation.EnglishIsNotTranslated | src/command_run/ai/translation.rs:168-172 | in English the transcript is returned as is, whatever the translator would answer |
| Translation.OtherLanguagesAreTranslated | src/command_run/ai/translation.rs:168-172 | any other language, the empty one included, is sent to the translator, and the text returned carries no quote |
| VnGame.Select | bot/src/command/vn/game.rs:67-123 | never more fields than candidates |
| VnGame.AssembleFields | bot/src/command/vn/game.rs:67-123 | the fields are the present ones among released, platforms, playtime, tags, developers, staff and characters, in that order, each with its localised name and value and inline |
| VnGame.ListTextIgnoresTail | bot/src/command/vn/game.rs:71-77 | a list field shows only its first 10 items |
| VnGame.ListTextEmptyIff | bot/src/command/vn/game.rs:78 | a list field is omitted exactly when its list is empty or is a single empty name |
| VnGame.SelectedAreKept | bot/src/command/vn/game.rs:68-122 | an element is selected exactly when some position whose flag is set holds it, so a shown field is one whose condition held |
| VnGame.SelectExtremes | bot/src/command/vn/game.rs:67-123 | with every condition true all seven fields appear; with none, no field appears |
| VnGame.ShownImage | bot/src/command/vn/game.rs:132-148 | an image is shown exactly when there is one with sexual ≤ 1.5 and violence ≤ 1.0 (a missing image counts as 2.0), and then with its URL |
| VnGame.SendEmbed | bot/src/command/vn/game.rs:47-155 | a failed lookup is its error; no result panics on `results[0]`; otherwise the embed of the first result, with its fields, title, URL "https://vndb.org/" + id, description and gated image |

## Left out

- HTTP traffic is modelled as oracles: AniList, VNDB, OpenAI and image CDNs, and Discord replies, followups, defers and webhooks. An oracle's failure becomes an error or panic outcome.
- SQL plumbing is left out. Each table is a map or sequence field, and connection errors of the sea-orm and sqlx calls (the `?` on `connect`, `find` and `insert`) are left out unless listed per member.
- Localisation loading is left out. Localised texts are parameters.
- Background sleep loops, `tokio::spawn`, and the RwLock around the blacklist are left out: they concern concurrency and timing.
- Image decoding, resizing, PNG/JPEG encoding, base64, and the tiling of the mosaic are left out; a decoded image is a pixel sequence, and encoders are oracles.
- The rayon parallel reduction in `calculate_user_color` is modelled as a sequential sum, with the `u32` wrap made explicit.
- Unseen helpers are uninterpreted function parameters: `trim`, `trim_webhook`, `convert_to_discord_markdown` and `convert_vndb_markdown`.
- Floating-point XP in both `level.rs` files is left out, and so is `LevelSystem::get_level`, which is not part of this model. The status weights are doubled to stay in integers.
- `get_total` converts each count to `f64`; counts are kept as integers.
- Rust's Unicode `to_lowercase` and `is_numeric` are modelled on ASCII. `trim` uses the full Unicode White_Space set (`Text.IsWhitespace`).
  - The translation extension check is unaffected. The only non-ASCII character that lowercases to an ASCII letter is the Kelvin sign (to 'k'), and no allowed extension contains 'k'.
- `String::len` is counted as UTF-8 bytes (`Text.Utf8Len`). The character slicing `hex[1..3]` of the colour parser is modelled on characters, so a non-ASCII colour text, which would panic, is not modelled.
- PfpServerColor.CreateColorVector: requires every colour text to have at least 7 characters (`Sliceable`), so the `hex[1..3]` panic on a shorter text is not modelled. The colour texts the bot writes use `{:02x}` on `u8` channels, which gives 7 characters.
- RequestCache: the `unwrap` panics of `do_request` and `add_cache` are modelled as a failed request with no table change. The panic of the `CREATE TABLE` unwrap is left out.
- RandomStats.UpdateRandom: `i32` overflow of the page counters is not modelled. The loop's termination rests on the ghost bound `LastPageBelow`, a page from which the statistics report no next page.
- RandomStats.StatsStore.UpdateRandomStats: JSON serialisation of the counters cannot fail in the model.
- UserColor.GetMember: termination rests on the ghost bound `EventuallyShort` (from some request on, no reply is a full page). The members endpoint is an oracle indexed by request number and `after` cursor.
- UserColor: database errors and the `calculated_at` clock are left out. `user_data` upsert failures are only logged, so they are not modelled.
- AddActivity:
  - database errors of the exists check, which give "not found", are left out;
  - the Discord `create_response` failure and the `from_timestamp` fallback are left out;
  - the delay is assumed to fit an `i32`;
  - `50 - len as i32` is passed to `trim_webhook` as an unbounded integer;
  - the cover download, resize and webhook are oracles.
- StaffText: `len() as i32` truncation in `get_desc` is not modelled. The staff characters query fetches only the full name; the model treats the native name as optional.
- StaffText: `get_lang` and `get_image` are field reads with no logic.
- StaffText: `crate::constant::N_A` is not part of this model. `NotAvailable` takes it to be "N/A", the placeholder `format_va` spells out.
- GetNameParts: the "N", "A" pieces for a missing name rest on that value of `N_A`; another placeholder would split differently.
- GetHometown: a missing home town shows as that same assumed `N_A` value; HeaderShowsHometown inherits the assumption.
- ModuleActivation.ModuleStatusTable.Run: the localisation lookup, the reply embed and a failing database read or write are left out.
- CommandDispatch: handlers are named, not run. A failing handler's error is not modelled.
- Translation:
  - the download, file writing and deletion, the environment token, and the HTTP calls are folded into the `transcribe` and `translate` oracles;
  - the Defer reply is left out;
  - URL parsing is left out: the attachment carries its URL path, and the `expect` panics on malformed URLs are not modelled.
- VnGame: real-valued ratings are `real`; the Discord response error and the localisation load are left out.
- VnGame: `length_minutes` is an `Option<f64>` in the source but is modelled as a whole number of minutes (`Option<int>`), shown with `Text.IntToDecimal`. Rust's f64 `Display` prints a whole-valued float without a fractional part (120.0 as "120"), so the two agree for whole minutes; a fractional value's text is not modelled.
- AssembleFields: the playtime field's value rests on that whole-minute `length_minutes`; its text for a fractional value is not promised.
- SendEmbed: the embed's playtime field inherits the same whole-minute `length_minutes`.
- VndbQuery: the cached VNDB request is an oracle from (path, body) to the response text.
- PremiumSku: the `subscription` option is read but never used, so it is not modelled. The sending of the response and its error log are left out.

## Findings

| source | as written | input that shows it | evidently intended | confidence | as-written member | corrected member |
|---|---|---|---|---|---|---|
| src/command_run/general/generate_image_pfp_server.rs:164-166 | each `#rrggbb` channel is parsed with `parse::<u8>()`, in base 10 | "#0000ff" (any a–f digit) is dropped; "#101010" is read as (10, 10, 10) | parse each two-digit slice in base 16, as the colours are written with `{:02x}` | not executed | PfpServerColor.DecimalParseMisreadsHex | PfpServerColor.HexColoursAllKept |
| src/cmd/anilist_module/level.rs:53-54 | `get_total` returns (watching, completed) but the caller binds it as `(anime_completed, anime_watching)`; the same in src/cmd/anilist_module/cmd/level.rs:67-68 | a user with 10 completed anime and nothing else gets 10 status points where 25 were intended | bind the pair in the order it is returned, so completed titles weigh 2.5 | not executed | LevelTotal.SwappedBindingExample | LevelTotal.LevelPointsWeighsCompleted |
| src/structure/anilist/staff/struct_staff.rs:328-346 | the description is appended only when `4096 - header length <= 0`, i.e. when the header alone already fills the embed | any staff member whose header is under 4096 bytes: the description never appears | append the description after the header, trimming it only when the two together exceed 4096 bytes | not executed | StaffText.GetDescAsWrittenDropsDescription | StaffText.GetDescShowsDescription |

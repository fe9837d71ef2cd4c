# Moe Memos: local-first memo cache, paging and sync control

This project models the core of the Moe Memos Android client in Dafny and proves properties of the model:

- **Reconciler** (`MemosPagingSource.convertAndCache`). It merges one memo fetched from the server into the local Room store. It never overwrites a memo that has pending local edits (`needsSync`). It otherwise reuses or mints the local identifier, clears the sync flags and keeps the cached map zoom. It then diffs the memo's attachments (resources) against the server's list.
- **Remote page loader** (`MemosPagingSource.load`). It passes the opaque page token through, reconciles every memo of the page in order, and turns any remote failure into an error page.
- **Screen state holder** (`MemosViewModel`). It covers:
  - the server filter expression and its escaping;
  - the choice between server paging and local paging;
  - the debounce rule;
  - the filter and offline-fallback flags;
  - the in-memory memo list and its edits;
  - the per-day usage heatmap;
  - how automatic and manual sync branch on the compatibility check and on the sync result.
- **Data model**: `MemoEntity` with its derived `location`, `MemoLocation`, and the closed `MemoFilter` variant.
- **Embed detector** (`detectEmbed`). The three anchored regular expressions are written as chains of prefix matchers. Each matcher is proved sound and complete against the shape its pattern describes.
- **Map preview integer rules**: the OpenStreetMap tile address, the zoom buttons' guards, the compact preview's zoom clamp and the maps-app label.

The Room DAO is a class `MemoStore.MemoDao` holding two maps keyed by primary key: memos and resources. Its inserts are upserts. Its lookup by `(remoteId, accountKey)` may answer with any matching row, because that index is not unique. Its listing of a memo's resources comes back in no promised order. The reconciler's specification, `MemosPaging.Reconciles`, is therefore a relation between the old tables, the new tables and the returned entity, over every answer the DAO may give. `UUID.randomUUID()` is a fresh-identifier oracle: it returns an identifier that is not yet a key of the table being written.

Files: `wrappers.dfy` (Kotlin nullables as `Option`), `memo_filter.dfy`, `memo_location.dfy`, `memo_entity.dfy`, `memo_dao.dfy`, `memos_paging_source.dfy`, `reconcile_properties.dfy`, `filter_query.dfy`, `memos_view_model.dfy`, `embed_detector.dfy`, `location_map_preview.dfy`.

Four behaviours of the code that a reader might not expect:
- **Attachments without a remote id are deleted too.** The reconciler deletes every current attachment whose remote id is not in the remote set, and an attachment with no remote id at all is never in it.
- **The cached zoom always wins.** When the cached row has a zoom, it is kept even when the server supplies one.
- **No transaction.** The reconciler's writes are issued one by one.
- **The refresh signal is a time.** It is set to the current time in milliseconds.

## Model

| member | source | states |
|---|---|---|
| `MemoFilters.ExactlyThreeVariants` | app/src/main/java/me/mudkip/moememos/viewmodel/MemoFilter.kt:3-7 | every filter is None, a Tag or a Search |
| `MemoFilters.NoneIsUnique` | app/src/main/java/me/mudkip/moememos/viewmodel/MemoFilter.kt:4 | None is a single object: any two None filters are equal |
| `MemoFilters.TagEquality` | app/src/main/java/me/mudkip/moememos/viewmodel/MemoFilter.kt:5 | two Tag filters are equal iff their tags are |
| `MemoFilters.SearchEquality` | app/src/main/java/me/mudkip/moememos/viewmodel/MemoFilter.kt:6 | two Search filters are equal iff their queries are |
| `MemoFilters.TagIsNotSearch` | app/src/main/java/me/mudkip/moememos/viewmodel/MemoFilter.kt:5-6 | a Tag filter never equals a Search filter with the same text |
| `MemoLocations.EmptyIsEmpty` | app/src/main/java/me/mudkip/moememos/data/model/MemoLocation.kt:9-12 | `EMPTY` is empty |
| `MemoLocations.IsEmptyIgnoresZoom` | app/src/main/java/me/mudkip/moememos/data/model/MemoLocation.kt:12 | the zoom plays no part in emptiness |
| `MemoLocations.PlaceholderMakesNonEmpty` | app/src/main/java/me/mudkip/moememos/data/model/MemoLocation.kt:12 | a location with a non-empty label is not empty |
| `MemoLocations.LatitudeMakesNonEmpty` | app/src/main/java/me/mudkip/moememos/data/model/MemoLocation.kt:12 | a location with a non-zero latitude is not empty |
| `MemoLocations.IsEmptyIff` | app/src/main/java/me/mudkip/moememos/data/model/MemoLocation.kt:3-12 | a location is empty iff it is `EMPTY` up to its zoom (empty label, latitude and longitude both 0) |
| `MemoEntities.MemoEntity.Copy` | app/src/main/java/me/mudkip/moememos/data/local/entity/MemoEntity.kt:38-39 | `copy()` leaves the attached resources empty, because `resources` is a body field and not a constructor parameter, and keeps every constructor field: re-attaching the resources gives back the original |
| `MemoEntities.LocationAbsentIff` | app/src/main/java/me/mudkip/moememos/data/local/entity/MemoEntity.kt:41-52 | `location` is null iff the placeholder, latitude and longitude columns are all null |
| `MemoEntities.ZoomAloneIsNoLocation` | app/src/main/java/me/mudkip/moememos/data/local/entity/MemoEntity.kt:43 | a stored zoom on its own gives no location |
| `MemoEntities.LocationDefaults` | app/src/main/java/me/mudkip/moememos/data/local/entity/MemoEntity.kt:44-48 | in a present location a missing label reads as "", a missing coordinate as 0.0 and a missing zoom as `DEFAULT_ZOOM` |
| `MemoEntities.DefaultsHaveNoLocation` | app/src/main/java/me/mudkip/moememos/data/local/entity/MemoEntity.kt:19-39 | a memo built with the defaults has no remote id, is unarchived, needs sync, is not deleted, has never synced, has no attachments and has no location |
| `MemoEntities.CopyDropsResources` | app/src/main/java/me/mudkip/moememos/data/local/entity/MemoEntity.kt:38-39 | attaching resources and copying again loses them, so callers must re-attach them |
| `MemoEntities.CopyAndResourcesDetermine` | app/src/main/java/me/mudkip/moememos/data/local/entity/MemoEntity.kt:19-39 | an entity is determined by its constructor fields and its attached resources |
| `MemoStore.MemoDao.constructor` | app/src/main/java/me/mudkip/moememos/data/datasource/MemosPagingSource.kt:18 | an empty store is well keyed |
| `MemoStore.MemoDao.GetMemoByRemoteId` | app/src/main/java/me/mudkip/moememos/data/datasource/MemosPagingSource.kt:51 | the answer is null iff no memo row has that remote id and account; otherwise it is one of the matching stored rows |
| `MemoStore.MemoDao.GetMemoResources` | app/src/main/java/me/mudkip/moememos/data/datasource/MemosPagingSource.kt:54 | the answer lists every stored resource of that memo and account exactly once, and nothing else |
| `MemoStore.MemoDao.InsertMemo` | app/src/main/java/me/mudkip/moememos/data/datasource/MemosPagingSource.kt:80 | upsert of the memo row by identifier, without its ignored `resources` field; the resource table is unchanged |
| `MemoStore.MemoDao.InsertResource` | app/src/main/java/me/mudkip/moememos/data/datasource/MemosPagingSource.kt:108 | upsert of the resource row by identifier; the memo table is unchanged |
| `MemoStore.MemoDao.DeleteResource` | app/src/main/java/me/mudkip/moememos/data/datasource/MemosPagingSource.kt:89 | removes the row with that identifier and nothing else |
| `MemoStore.RandomUuid` | app/src/main/java/me/mudkip/moememos/data/datasource/MemosPagingSource.kt:58 | the minted identifier is not among the identifiers already taken |
| `MemosPaging.FirstByRemoteId` | app/src/main/java/me/mudkip/moememos/data/datasource/MemosPagingSource.kt:95 | `firstOrNull`: none iff no listed resource has that remote id, else the first one that has it |
| `MemosPaging.MemosPagingSource.constructor` | app/src/main/java/me/mudkip/moememos/data/datasource/MemosPagingSource.kt:16-22 | the source keeps its store, account key, filter and order |
| `MemosPaging.MemosPagingSource.GetRefreshKey` | app/src/main/java/me/mudkip/moememos/data/datasource/MemosPagingSource.kt:24-26 | a refresh always starts from the first page (null key) |
| `MemosPaging.MemosPagingSource.RequestFor` | app/src/main/java/me/mudkip/moememos/data/datasource/MemosPagingSource.kt:30-35 | the page token is `params.key` unchanged, the page size is `params.loadSize`, and the filter and order are the source's |
| `MemosPaging.MemosPagingSource.Load` | app/src/main/java/me/mudkip/moememos/data/datasource/MemosPagingSource.kt:28-48 | a remote failure gives an Error page and writes nothing; a success gives a page with no previous key, the server's next token, and the entities of reconciling every memo in order |
| `MemosPaging.MemosPagingSource.ConvertAndCache` | app/src/main/java/me/mudkip/moememos/data/datasource/MemosPagingSource.kt:50-113 | the run relates old tables, new tables and result as `Reconciles` says, and the store stays well keyed |
| `MemosPaging.MemosPagingSource.DeleteStaleResources` | app/src/main/java/me/mudkip/moememos/data/datasource/MemosPagingSource.kt:86-91 | removes exactly the listed resources whose remote id is null or not in the remote set |
| `MemosPaging.MemosPagingSource.CacheResources` | app/src/main/java/me/mudkip/moememos/data/datasource/MemosPagingSource.kt:93-110 | one row per remote resource in order, each built from the first listed match (or a fresh identifier), each upserted |
| `ReconcileProperties.ClobberProtection` | app/src/main/java/me/mudkip/moememos/data/datasource/MemosPagingSource.kt:51-56 | when the stored memo has pending edits, nothing is written and the stored row is returned with exactly its stored resources |
| `ReconcileProperties.RemoteFieldsWin` | app/src/main/java/me/mudkip/moememos/data/datasource/MemosPagingSource.kt:58-80 | otherwise content, date, visibility, pinned and archived come from the server, both flags are false, both timestamps are `updatedAt ?: date`, the stored identifier is reused or a fresh one minted, and the row is upserted |
| `ReconcileProperties.LocationMerge` | app/src/main/java/me/mudkip/moememos/data/datasource/MemosPagingSource.kt:75-78 | location columns are the server's (nulls included); the zoom is the stored one when present and the server's otherwise |
| `ReconcileProperties.ResourcesConverge` | app/src/main/java/me/mudkip/moememos/data/datasource/MemosPagingSource.kt:83-110 | afterwards the memo's stored resources carry exactly the remote ids of the server's list; stale rows and rows with no remote id are gone |
| `ReconcileProperties.ResourceRowsFollowRemote` | app/src/main/java/me/mudkip/moememos/data/datasource/MemosPagingSource.kt:94-112 | the returned list has one row per remote resource, in order, with the server's fields and the memo's identifier |
| `ReconcileProperties.OtherResourcesUntouched` | app/src/main/java/me/mudkip/moememos/data/datasource/MemosPagingSource.kt:83-110 | the resource rows of every other memo are neither removed, changed nor added |
| `ReconcileProperties.ResourceIdentity` | app/src/main/java/me/mudkip/moememos/data/datasource/MemosPagingSource.kt:95-104 | a matched resource keeps its identifier and `localUri`; an unmatched one has no `localUri` and an identifier no kept or earlier row has |
| `ReconcileProperties.ReconcileKeepsKeyed` | app/src/main/java/me/mudkip/moememos/data/datasource/MemosPagingSource.kt:80-108 | every row stays under its own primary key |
| `ReconcileProperties.ReconcileKeepsUnique` | app/src/main/java/me/mudkip/moememos/data/datasource/MemosPagingSource.kt:58-110 | at most one memo row per remote memo and account, and at most one resource row per remote id in a memo, stay so |
| `ReconcileProperties.MergeIdempotent` | app/src/main/java/me/mudkip/moememos/data/datasource/MemosPagingSource.kt:62-79 | merging the same remote memo into the row just written gives that row again |
| `ReconcileProperties.LookupFindsWrittenRow` | app/src/main/java/me/mudkip/moememos/data/datasource/MemosPagingSource.kt:51-80 | after a reconciliation the lookup for that remote memo finds the row just written, which has no pending edits |
| `ReconcileProperties.ReconcileIdempotent` | app/src/main/java/me/mudkip/moememos/data/datasource/MemosPagingSource.kt:58-112 | reconciling the same remote memo twice leaves the store as the first run left it and returns the same entity |
| `ReconcileProperties.ReconcileMatchesRemote` | app/src/main/java/me/mudkip/moememos/data/datasource/MemosPagingSource.kt:50-113 | in either branch the returned entity carries the remote id and the account |
| `ReconcileProperties.PageFollowsRemote` | app/src/main/java/me/mudkip/moememos/data/datasource/MemosPagingSource.kt:39 | a page holds one entity per remote memo, in remote order, each that memo's entity, and the store stays well keyed |
| `FilterQuery.ReplaceCharAbsent` | app/src/main/java/me/mudkip/moememos/viewmodel/MemosViewModel.kt:163 | `replace` of a character that does not occur returns the text unchanged |
| `FilterQuery.ReplaceCharLength` | app/src/main/java/me/mudkip/moememos/viewmodel/MemosViewModel.kt:163 | `replace` by a single character keeps the length |
| `FilterQuery.EscapeChar` | app/src/main/java/me/mudkip/moememos/viewmodel/MemosViewModel.kt:163 | a backslash or quote becomes two characters (a backslash, then itself); every other character stays as it is |
| `FilterQuery.EscapeOne` | app/src/main/java/me/mudkip/moememos/viewmodel/MemosViewModel.kt:163 | the two replace passes, with backslashes doubled first, escape each character on its own |
| `FilterQuery.UnescapeEscape` | app/src/main/java/me/mudkip/moememos/viewmodel/MemosViewModel.kt:163-167 | undoing the backslash escapes recovers the tag or query exactly |
| `FilterQuery.EscapeInjective` | app/src/main/java/me/mudkip/moememos/viewmodel/MemosViewModel.kt:163-167 | different texts escape differently |
| `FilterQuery.EscapedEndsEven` | app/src/main/java/me/mudkip/moememos/viewmodel/MemosViewModel.kt:163-167 | an escaped text never ends in an odd run of backslashes, so the closing quote is not escaped |
| `FilterQuery.QuotesAreEscaped` | app/src/main/java/me/mudkip/moememos/viewmodel/MemosViewModel.kt:163-167 | every quote in an escaped text has an odd run of backslashes before it |
| `FilterQuery.BuildApiFilter` | app/src/main/java/me/mudkip/moememos/viewmodel/MemosViewModel.kt:159-171 | the expression is null exactly for the None filter |
| `FilterQuery.BuildApiFilterInjective` | app/src/main/java/me/mudkip/moememos/viewmodel/MemosViewModel.kt:159-171 | different filters give different expressions |
| `FilterQuery.ApiFilterRoundTrip` | app/src/main/java/me/mudkip/moememos/viewmodel/MemosViewModel.kt:162-169 | a Tag filter is `tag in ["…"]` and a Search filter is `content.contains("…")`, and the literal inside reads back as the tag or query |
| `MemosViewModels.RemotePagingIff` | app/src/main/java/me/mudkip/moememos/viewmodel/MemosViewModel.kt:107-130 | the server is paged iff there is a v1 account, the fallback is off, the filter is not None and a remote repository is available |
| `MemosViewModels.EmptyPagingIff` | app/src/main/java/me/mudkip/moememos/viewmodel/MemosViewModel.kt:107-121 | the paging is empty iff there is no account, or server paging is chosen and there is no remote repository |
| `MemosViewModels.RemotePagingQuery` | app/src/main/java/me/mudkip/moememos/viewmodel/MemosViewModel.kt:118-130 | a server pager uses ten a page, the account key, the filter expression (whose literal reads back as the tag or query) and `display_time desc` |
| `MemosViewModels.LocalPagingDispatch` | app/src/main/java/me/mudkip/moememos/viewmodel/MemosViewModel.kt:131-137 | otherwise None, Tag and Search go to the all, by-tag and by-search store queries of the account |
| `MemosViewModels.FallbackOrNoFilterStaysLocal` | app/src/main/java/me/mudkip/moememos/viewmodel/MemosViewModel.kt:116 | with the fallback on or no filter, paging is never from the server, and with an account it is never empty |
| `MemosViewModels.DebounceMillis` | app/src/main/java/me/mudkip/moememos/viewmodel/MemosViewModel.kt:94-96 | the quiet period is 300 ms exactly for Search and 0 otherwise |
| `MemosViewModels.DistinctUntilChangedFacts` | app/src/main/java/me/mudkip/moememos/viewmodel/MemosViewModel.kt:97 | the values passed on never repeat back to back, are exactly the values the operator receives, and end with the latest |
| `MemosViewModels.DistinctUntilChangedIdempotent` | app/src/main/java/me/mudkip/moememos/viewmodel/MemosViewModel.kt:97 | filtering the output again changes nothing |
| `MemosViewModels.IndexOfFirst` | app/src/main/java/me/mudkip/moememos/viewmodel/MemosViewModel.kt:326 | -1 iff no element has the identifier, else the first index that has it |
| `MemosViewModels.Without` | app/src/main/java/me/mudkip/moememos/viewmodel/MemosViewModel.kt:300-308 | `removeIf` keeps only elements of the list with another identifier |
| `MemosViewModels.WithoutKeepsOthers` | app/src/main/java/me/mudkip/moememos/viewmodel/MemosViewModel.kt:300-308 | every element with another identifier is kept |
| `MemosViewModels.WithoutAppend` | app/src/main/java/me/mudkip/moememos/viewmodel/MemosViewModel.kt:300-308 | removal works piecewise, so the kept elements keep their order |
| `MemosViewModels.WithoutNoMatch` | app/src/main/java/me/mudkip/moememos/viewmodel/MemosViewModel.kt:300-308 | a list without that identifier is unchanged |
| `MemosViewModels.DayOfBounds` | app/src/main/java/me/mudkip/moememos/viewmodel/MemosViewModel.kt:336 | the local day is the one whose span holds the instant shifted by the offset |
| `MemosViewModels.CountOnDayCounts` | app/src/main/java/me/mudkip/moememos/viewmodel/MemosViewModel.kt:335-338 | a day's count is the number of memos falling on that day |
| `MemosViewModels.CountOnDayDisjoint` | app/src/main/java/me/mudkip/moememos/viewmodel/MemosViewModel.kt:335-338 | the counts of two distinct days add up to at most the number of memos |
| `MemosViewModels.MemosViewModel.constructor` | app/src/main/java/me/mudkip/moememos/viewmodel/MemosViewModel.kt:70-91 | the list, tags and error message start empty, the heatmap at its initial matrix, the filter as None, the fallback off and the refresh signal at 0 |
| `MemosViewModels.MemosViewModel.SetFilter` | app/src/main/java/me/mudkip/moememos/viewmodel/MemosViewModel.kt:146-149 | stores the filter and clears the fallback flag; nothing else changes |
| `MemosViewModels.MemosViewModel.EnableOfflineFallback` | app/src/main/java/me/mudkip/moememos/viewmodel/MemosViewModel.kt:151-153 | sets the fallback flag; nothing else changes |
| `MemosViewModels.MemosViewModel.TriggerPagingRefresh` | app/src/main/java/me/mudkip/moememos/viewmodel/MemosViewModel.kt:155-157 | the refresh signal takes the new time value; nothing else changes |
| `MemosViewModels.MemosViewModel.ApplyMemos` | app/src/main/java/me/mudkip/moememos/viewmodel/MemosViewModel.kt:212-216 | the list becomes exactly the new list and the error message is cleared |
| `MemosViewModels.MemosViewModel.UpdateMemo` | app/src/main/java/me/mudkip/moememos/viewmodel/MemosViewModel.kt:325-330 | only the first element with the identifier is replaced, the length is kept, and with no match nothing changes |
| `MemosViewModels.MemosViewModel.RemoveMemo` | app/src/main/java/me/mudkip/moememos/viewmodel/MemosViewModel.kt:300 | the list loses every element with the identifier and keeps the rest in order |
| `MemosViewModels.MemosViewModel.UpdateMemoPinned` | app/src/main/java/me/mudkip/moememos/viewmodel/MemosViewModel.kt:282-288 | a failure changes only the call log; a success replaces the memo, updates the widgets and refreshes the pager; the response is handed back unchanged |
| `MemosViewModels.MemosViewModel.EditMemo` | app/src/main/java/me/mudkip/moememos/viewmodel/MemosViewModel.kt:290-296 | as for pinning, and the answer is handed back unchanged |
| `MemosViewModels.MemosViewModel.ArchiveMemo` | app/src/main/java/me/mudkip/moememos/viewmodel/MemosViewModel.kt:298-304 | on success the memo leaves the list, the widgets update and the pager refreshes; on failure only the call is logged; the response is handed back unchanged |
| `MemosViewModels.MemosViewModel.DeleteMemo` | app/src/main/java/me/mudkip/moememos/viewmodel/MemosViewModel.kt:306-312 | on success the memo leaves the list, the widgets update and the pager refreshes; on failure only the call is logged; the response is handed back unchanged |
| `MemosViewModels.MemosViewModel.LoadTags` | app/src/main/java/me/mudkip/moememos/viewmodel/MemosViewModel.kt:275-280 | the tags are replaced on success and kept otherwise |
| `MemosViewModels.MemosViewModel.LoadMemosSnapshot` | app/src/main/java/me/mudkip/moememos/viewmodel/MemosViewModel.kt:197-206 | success applies the list; failure sets the error message |
| `MemosViewModels.MemosViewModel.LoadMemos` | app/src/main/java/me/mudkip/moememos/viewmodel/MemosViewModel.kt:218-235 | automatic sync runs only when allowed, returns silently otherwise, and does not report an invalid access token |
| `MemosViewModels.MemosViewModel.RefreshMemos` | app/src/main/java/me/mudkip/moememos/viewmodel/MemosViewModel.kt:237-269 | Blocked and RequiresConfirmation return without syncing; Allowed forces a sync; success remembers an accepted version and completes; failure sets the error message and fails |
| `MemosViewModels.MemosViewModel.CalculateMatrix` | app/src/main/java/me/mudkip/moememos/viewmodel/MemosViewModel.kt:332-343 | same length and dates as the initial matrix, each count the number of memos on that day; days outside the matrix are ignored |
| `MemosViewModels.MemosViewModel.RefreshMatrix` | app/src/main/java/me/mudkip/moememos/viewmodel/MemosViewModel.kt:176-178 | the heatmap is recomputed from the current list; nothing else changes |
| `EmbedDetectors.WordRun` | app/src/main/java/me/mudkip/moememos/util/EmbedDetector.kt:13 | the length of the longest prefix of word characters |
| `EmbedDetectors.DigitRun` | app/src/main/java/me/mudkip/moememos/util/EmbedDetector.kt:13 | the length of the longest prefix of digits |
| `EmbedDetectors.YouTubeSound` | app/src/main/java/me/mudkip/moememos/util/EmbedDetector.kt:9-10 | a YouTube match is an optional scheme, optional `www.`/`m.`, one of the four paths and 11 `[\w-]` characters, and the id is those characters |
| `EmbedDetectors.YouTubeComplete` | app/src/main/java/me/mudkip/moememos/util/EmbedDetector.kt:9-10 | every URL of that shape matches with that id |
| `EmbedDetectors.YouTubeIdUnique` | app/src/main/java/me/mudkip/moememos/util/EmbedDetector.kt:9-10 | the shape fixes the id |
| `EmbedDetectors.YouTubeSuffixInvariant` | app/src/main/java/me/mudkip/moememos/util/EmbedDetector.kt:10-20 | appending anything keeps the same video id |
| `EmbedDetectors.TwitterSound` | app/src/main/java/me/mudkip/moememos/util/EmbedDetector.kt:12-13 | a tweet match is `http(s)://`, optional `www.`, `twitter.com` or `x.com`, `/<word>/status/`, and the id is the maximal run of digits |
| `EmbedDetectors.TwitterComplete` | app/src/main/java/me/mudkip/moememos/util/EmbedDetector.kt:12-13 | every URL of that shape matches with that id |
| `EmbedDetectors.TwitterSuffixInvariant` | app/src/main/java/me/mudkip/moememos/util/EmbedDetector.kt:13-23 | a suffix not starting with a digit keeps the tweet id |
| `EmbedDetectors.RedditSound` | app/src/main/java/me/mudkip/moememos/util/EmbedDetector.kt:15-16 | a Reddit match is `http(s)://`, optional `www.`, `reddit.com/r/<word>/comments/<word>` |
| `EmbedDetectors.RedditComplete` | app/src/main/java/me/mudkip/moememos/util/EmbedDetector.kt:15-16 | every URL of that shape matches |
| `EmbedDetectors.DetectEmbedOrder` | app/src/main/java/me/mudkip/moememos/util/EmbedDetector.kt:18-29 | YouTube is checked first, then Twitter, then Reddit; no match gives null; the result carries the input URL |
| `EmbedDetectors.DetectYouTubeShape` | app/src/main/java/me/mudkip/moememos/util/EmbedDetector.kt:18-21 | a URL of the YouTube shape is a YouTube embed with the shape's id |
| `EmbedDetectors.DetectTwitterShape` | app/src/main/java/me/mudkip/moememos/util/EmbedDetector.kt:18-24 | a tweet link never matches the YouTube pattern, so it is a tweet embed with the shape's id |
| `LocationMapPreviews.KotlinRem` | app/src/main/java/me/mudkip/moememos/ui/component/LocationMapPreview.kt:76 | `%` truncates: quotient times divisor plus remainder is the dividend, and the remainder is smaller than the divisor and has the dividend's sign |
| `LocationMapPreviews.NatToString` | app/src/main/java/me/mudkip/moememos/ui/component/LocationMapPreview.kt:77 | a number's decimal text is a non-empty run of digits |
| `LocationMapPreviews.IntToStringRoundTrip` | app/src/main/java/me/mudkip/moememos/ui/component/LocationMapPreview.kt:77 | the interpolated text of an Int reads back as that Int |
| `LocationMapPreviews.TileUrlAsWrittenFailsIff` | app/src/main/java/me/mudkip/moememos/ui/component/LocationMapPreview.kt:75-78 | as written, `tileUrl` throws exactly when `x + y` is negative and not a multiple of 3 |
| `LocationMapPreviews.WestOfFirstColumnThrows` | app/src/main/java/me/mudkip/moememos/ui/component/LocationMapPreview.kt:119-128 | the neighbour tile (-1, 0) has no address as written |
| `LocationMapPreviews.TileUrlAgrees` | app/src/main/java/me/mudkip/moememos/ui/component/LocationMapPreview.kt:75-78 | wherever the written code does not throw, it gives the corrected address |
| `LocationMapPreviews.NeighboursUseOtherServers` | app/src/main/java/me/mudkip/moememos/ui/component/LocationMapPreview.kt:76 | neighbouring tiles in a row or column use different subdomains |
| `LocationMapPreviews.TileAddressRoundTrip` | app/src/main/java/me/mudkip/moememos/ui/component/LocationMapPreview.kt:77 | the address `https://s.tile.openstreetmap.org/z/x/y.png` reads back as (z, x, y) |
| `LocationMapPreviews.TileUrlRoundTrip` | app/src/main/java/me/mudkip/moememos/ui/component/LocationMapPreview.kt:75-78 | the corrected tile URL is defined for every tile and reads back as that tile |
| `LocationMapPreviews.TileUrlInjective` | app/src/main/java/me/mudkip/moememos/ui/component/LocationMapPreview.kt:75-78 | no two tiles share an address |
| `LocationMapPreviews.ZoomButtonsStayInRange` | app/src/main/java/me/mudkip/moememos/ui/component/LocationMapPreview.kt:205-211 | zoom-in asks for a higher level, at most 18; zoom-out asks for a lower level, at least 3; from [3, 18] both stay in it, and each is disabled only at its end |
| `LocationMapPreviews.ZoomInThenOut` | app/src/main/java/me/mudkip/moememos/ui/component/LocationMapPreview.kt:205-211 | zooming in and then out returns to the same level |
| `LocationMapPreviews.CoerceIn` | app/src/main/java/me/mudkip/moememos/ui/component/LocationMapPreview.kt:283 | `coerceIn` gives the point of the range closest to the value |
| `LocationMapPreviews.CompactZoomFacts` | app/src/main/java/me/mudkip/moememos/ui/component/LocationMapPreview.kt:283 | the compact preview's zoom is in [3, 18]: one below the stored zoom when that lands in range, else the nearer end |
| `LocationMapPreviews.MapsLabel` | app/src/main/java/me/mudkip/moememos/ui/component/LocationMapPreview.kt:81 | the label is never empty: it is the placeholder when there is one, else "Location" |

## Left out

- MemosViewModels.DistinctUntilChangedFacts: states what `distinctUntilChanged` does to the values it receives. Those values are the output of `debounce`, which drops a Search filter superseded within 300 ms. That dropping is not modelled, so the model does not state which of the filters set reach the pager.
- Coroutines and Flow plumbing: `debounce` timing, the `combine`/`flatMapLatest` cancellation of stale pagers, `cachedIn`, `collectLatest`, `withContext`, `launch`. Only the decisions are modelled, and the state flows are fields updated in sequence. The cancellation of in-flight page loads when the filter changes is therefore not modelled.
- The remote repository, `MemoService.sync`, the account service's compatibility check and version memory, `WidgetUpdater`, `listTags` and `listMemos`. Their answers are parameters of the methods, and the calls they receive are kept in a call log. That only one full sync runs at a time is decided inside the memo service, which is not part of this model.
- The local paged queries (`getPagedMemos`, `getPagedMemosByTag`, `getPagedMemosBySearch`) and their SQL. Their ordering and cursor handling are not part of this model, so local page order and cursor termination are not stated. Only the choice of query is modelled.
- MemosPaging.MemosPagingSource.Load: store failures inside `convertAndCache` are not modelled; the DAO calls always succeed. A failure of the remote call gives the Error page.
- ReconcileProperties.ReconcileIdempotent: proved only when the store has at most one memo row per remote memo and account, at most one resource row per remote id within a memo, and the server lists each attachment id once. The `(accountKey, remoteId)` index is not unique, so none of this is enforced by the schema. Without these conditions a second run may pick another row or rewrite rows differently.
- The `refreshLocalSnapshot` wrapper, `cacheResourceFile` and `getResourceById` are plain forwards to the repository. `LoadMemosSnapshot` models the one with logic.
- MemosViewModels.MemosViewModel.CalculateMatrix: the `Instant`-to-`LocalDate` conversion is modelled as flooring epoch seconds plus a fixed UTC offset. The offset is a parameter; reading the device's current offset is not modelled.
- Instants are whole epoch seconds (nanoseconds are not modelled). Kotlin `Double` coordinates are reals, so NaN and -0.0 are not modelled.
- `DEFAULT_ZOOM` and the localised "supported versions" message are constants whose values are not part of this model.
- The remote `Memo` and `Resource` classes are not part of this model. Their remote ids are taken as non-null strings, and a remote memo's location as an optional `MemoLocation`.
- `computeTile`, the Mercator maths and the pixel offsets are floating point and are not modelled. Neither are the `%.4f` label in the card and the `Uri` encoding of the maps intent.
- LocationMapPreviews.TileUrl: Kotlin's 32-bit overflow of `x + y` is not modelled, because tile coordinates are far below 2^31. Wrapping a column outside the world back into `[0, 2^zoom)` is not done by the code and is not modelled.
- Markdown rendering, the embed card UI, the memo input page (location permissions, geocoder, launchers) and the Room database builder and migrations are not part of this model.
- The `\w` and `\d` classes are the ASCII ones (`[A-Za-z0-9_]`, `[0-9]`), which is what Kotlin's regular expressions use by default.

## Findings

| source | as written | input that shows it | evidently intended | confidence | as-written member | corrected member |
|---|---|---|---|---|---|---|
| app/src/main/java/me/mudkip/moememos/ui/component/LocationMapPreview.kt:76 | `arrayOf("a", "b", "c")[(x + y) % 3]` with Kotlin's truncating `%`: a negative `x + y` that is not a multiple of 3 gives index -1 or -2 and throws `ArrayIndexOutOfBoundsException` | `tileUrl(z, -1, 0)`. The neighbour grid (lines 105-128) reaches at least two tiles each way. So it asks for a tile with `x + y = -1` for every location whose tile has `x = 0` and `y <= 3`. An example is Hawaii at zoom 3: tile (0, 3), neighbour (-2, 1) | a subdomain for every tile, i.e. a non-negative remainder (`Math.floorMod`) | high; not executed | `LocationMapPreviews.WestOfFirstColumnThrows` | `LocationMapPreviews.TileUrlRoundTrip` |

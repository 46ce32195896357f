# compolic — a Dafny model of the catalog pipeline

compolic keeps a catalog of composers' recordings and publishes it two ways.
The command-line tools build and maintain the catalog:

- `get-tracks` reads the works of one composer from MusicBrainz.
  - It keeps the works the artist composed and chooses one canonical recording per work.
  - It resolves a Spotify link for each recording, with ISRC and title searches as fallbacks.
  - It appends the new tracks to `data/<artist id>.json`.
- `update-tracks` and `get-multiple-tracks` run `get-tracks` in a loop.
- `generate-index` lists the data files.
- `sync-tracks-to-playlist` adds every linked track to one of two Spotify playlists: covers go to "main", the composer's own performances to "sub".

The preview site is a React page over the same files:

- `useData` loads them into a map keyed by composer.
- `useRows` turns the map into rows: it selects, de-duplicates, excludes the composer's own performances and sorts.
- The Home page filters the rows by search tokens and shows at most 300 of them in the "All" view.
- `useHomeQuery` holds the filter, the search text, the exclusion switch and the sort state.
- `ssg.ts` pre-renders the page into the built `index.html` and writes the site's own `files.json`.

## How the model is organised

There is one Dafny module per source file, plus four shared modules:

- `Common`: `Option`, `Result`, `Lookup` in a list of entries, `Filter` and `Flatten`.
- `Strings`: the JavaScript string operations the code uses.
  - `startsWith`, `endsWith`, `includes`, `indexOf` and a first-match `replace`.
  - `split`, `trim`, ASCII `toLowerCase`, UTF-16 `length` and `<`.
- `Sorting`: `Array.prototype.sort`, which is stable.
  - It is modelled as an insertion sort by a comparator.
  - The model proves that the result is sorted, is a permutation of the input, and keeps each class of equal elements in input order.
- `CommandEvents`: the trace the two batch commands record (a get-tracks run, a wait, a logged failure). Each command declares its own pause, as each source file does.

Each place where the source reaches the outside world becomes a parameter:

- MusicBrainz and Spotify answers are function-valued parameters.
  - `MusicBrainzApi`, `PageApi` and `Upstream.recording` give an HTTP response per request.
  - `SearchApi` gives the first hit of a Spotify search.
- The access token is an `Option<string>` argument.
- The directory listings are sequences of file names.
- The rendered React HTML is a `render` function from request path to HTML; `None` stands for a redirect response.
- Whether a Spotify add call succeeds is a predicate on the playlist id.
- For the loop commands, whether a `get-tracks` run fails is a function of its arguments.

Where the source writes a value of `undefined` or `null` but only ever tests it for truthiness, the model uses `""`. The source then stores `?? ''`, so the behaviour is the same.

Loops become methods with `while` or `for` loops. Each is proved equal to a specification function over its inputs:

- `AppendTracks` against `MergeWorks`, and `GetAllWorks` against `Collected` and `Trace`.
- `CollectTracks` and `Collect` against `FilesCandidates`.
- `DedupRows` against `Dedup`, and `BuildDataMap` against `BuiltMap`.
- `GeneratePages` against `PagesOf`, and `InjectAppHtml` against `Injected`.
- `UpdateTracksAction` against `RefreshEvents`, and `FetchAll` against `FetchEvents`.

Lemmas then state what the source promises about those functions. State that the source updates in place is held in classes:

- `HomeQuery.QueryState` holds the query state.
- `HomePage.Home` holds the show-all flag and the query.
- `SyncPlaylist.SpotifyAccount` holds the playlists' membership.

The command loops are recorded as traces of events: runs, waits and logged failures.

## Model

| member | source | states |
|---|---|---|
| GetTracks.CheckOptions | src/commands/get-tracks.ts:43-47 | the options are accepted iff exactly one of `--arid` and `--artist` is non-empty, and the accepted target is that option |
| GetTracks.ResolveComposer | src/commands/get-tracks.ts:70-84 | with an id, it succeeds iff the name lookup succeeds with a non-empty name, and keeps the id; with a name, it succeeds iff the id lookup succeeds with a non-empty id, and keeps the name |
| GetTracks.LoadSaved | src/commands/get-tracks.ts:89-95 | a missing or empty file starts the catalog as `{name, tracks: []}`; a parsed file is kept as it is; only malformed JSON is an error |
| GetTracks.Prepare | src/commands/get-tracks.ts:43-95 | the command gets past its checks iff the options are valid, the token is non-empty, the composer resolves and the saved file loads; the value is the composer's id and the loaded catalog |
| GetTracks.ComposerWorks | src/commands/get-tracks.ts:103-110 | exactly the works with a `composer` relation whose artist id is the queried id are kept, in order |
| GetTracks.Candidates | src/commands/get-tracks.ts:118-121 | each candidate is a relation's non-video recording with that relation's attributes; the list is empty iff no relation has a non-video recording |
| GetTracks.CandidatesComplete | src/commands/get-tracks.ts:118-121 | every relation with a non-video recording yields a candidate with its attributes and recording |
| GetTracks.CandidatesAppend | src/commands/get-tracks.ts:118-121 | candidates keep relation order: those of `a + b` are those of `a`, then those of `b` |
| GetTracks.CandidatesOfOne | src/commands/get-tracks.ts:118-121 | one relation gives exactly one candidate, with its attributes and recording, iff it carries a recording that is not a video, and none otherwise |
| GetTracks.CompareCandidatesLex | src/commands/get-tracks.ts:122-141 | a candidate comes no later iff it has fewer attributes, or as many and a title no longer in UTF-16 units, or both equal and a length that is known when the other's is not |
| GetTracks.CompareCandidatesConsistent | src/commands/get-tracks.ts:122-141 | the comparator is antisymmetric in sign and transitive, as a sort comparator must be |
| GetTracks.CanonicalIsFirstLeast | src/commands/get-tracks.ts:118-146 | there is no recording iff there are no candidates; otherwise the chosen recording is a least candidate under the comparator, and the first least one in relation order |
| GetTracks.FewestAttributesWins | src/commands/get-tracks.ts:122-127 | a candidate with strictly fewer attributes than every other candidate is chosen, wherever it stands |
| GetTracks.DirectSpotifyUrl | src/commands/get-tracks.ts:170-172 | the result is the first relation URL that starts with `https://open.spotify.com`, and `""` iff there is none |
| GetTracks.Enrich | src/commands/get-tracks.ts:173-196 | a direct link is used unchanged with no search; the ISRC search is sent iff there is no direct link and an ISRC is known, and it comes first; the title search runs iff there is still no link and title and artist are non-empty; the queries sent are exactly these, each at most once, ISRC first; a link is the direct one or the hit of the last query sent, so no direct link and no query means no link; `isFallback` holds iff there was no direct link and a search found one; the ISRC changes only when none was known, and then becomes the title hit's ISRC when it has one |
| GetTracks.TrackOf | src/commands/get-tracks.ts:166-209 | the stored track has the recording id; the title, the first credited artist and the first release date, each `""` when missing; and the ISRC, link and fallback flag that `Enrich` settles from the first ISRC and the first direct Spotify link |
| GetTracks.NewTrack | src/commands/get-tracks.ts:142-165 | a work adds a track iff it has a chosen recording, that id is not saved yet, and the lookup succeeds with a recording; the track is then `TrackOf` that recording, with every stored field as `TrackOf` states |
| GetTracks.AppendTracks | src/commands/get-tracks.ts:116-214 | the per-work loop, with its growing track list and id set, computes `MergeWorks` of the works and the saved tracks |
| GetTracks.MergeKeepsSaved | src/commands/get-tracks.ts:201-210 | the saved tracks stay in front, unchanged and in order; at most one track is appended per work |
| GetTracks.MergeKeepsUnique | src/commands/get-tracks.ts:148-210 | if the saved ids are unique, the ids of the merged catalog are unique |
| GetTracks.StepKeepsUnique | src/commands/get-tracks.ts:148-152 | one work's step keeps the catalog's ids unique |
| GetTracks.AllSavedChangesNothing | src/commands/get-tracks.ts:148-152 | when every chosen recording is already saved, the output tracks equal the input tracks |
| GetTracks.MergeSettles | src/commands/get-tracks.ts:148-210 | after the merge, no work would add anything to the merged catalog |
| GetTracks.MergeIdempotent | src/commands/get-tracks.ts:116-214 | running the merge again over the same works and upstream answers changes nothing |
| GetTracks.GetTracksAction | src/commands/get-tracks.ts:36-220 | a failed check sends no listing request; otherwise the listing stops at the first short page, fails iff its last page fails, and the written catalog is the loaded one with its tracks replaced by the merge over the composer's works |
| SyncPlaylist.TrackUri | src/commands/sync-tracks-to-playlist.ts:63-65 | the URI is `spotify:track:` followed by the rest of the URL after `https://open.spotify.com/track/` |
| SyncPlaylist.TrackUriInjective | src/commands/sync-tracks-to-playlist.ts:63-65 | different track URLs give different URIs |
| SyncPlaylist.TrackUriDistinct | src/commands/sync-tracks-to-playlist.ts:63-65 | different track URLs give different URIs, stated on the URIs |
| SyncPlaylist.ComposerNames | src/commands/sync-tracks-to-playlist.ts:53-59 | the names are the composer's name, a non-empty sort name, and the other names, and nothing else |
| SyncPlaylist.TracksCandidatesMembers | src/commands/sync-tracks-to-playlist.ts:61-73 | a URI is in the sub (or main) set of a track list iff some track has a track URL with that URI and is (or is not) performed under one of the composer's names |
| SyncPlaylist.CandidatesMembers | src/commands/sync-tracks-to-playlist.ts:46-78 | a URI is in the sub (or main) set iff some `.json` file with a `tracks` array has such a track; unreadable and malformed files contribute nothing |
| SyncPlaylist.OneSetPerTrack | src/commands/sync-tracks-to-playlist.ts:61-73 | each track lands in one set only: when no two tracks of a list share a link, its main and sub sets are disjoint |
| SyncPlaylist.SetsMayOverlap | src/commands/sync-tracks-to-playlist.ts:44-71 | there are files for which the same URI lands in both sets |
| SyncPlaylist.CollectTracks | src/commands/sync-tracks-to-playlist.ts:61-73 | the track loop adds exactly the track list's main and sub URIs to the sets it started with |
| SyncPlaylist.Collect | src/commands/sync-tracks-to-playlist.ts:44-78 | the file loop's two sets are exactly the specified candidates of the listing |
| SyncPlaylist.ToAdd | src/commands/sync-tracks-to-playlist.ts:100 | the pushed URIs are candidates not already in the playlist, and with them the playlist holds every candidate |
| SyncPlaylist.SyncOneOnlyAdds | src/commands/sync-tracks-to-playlist.ts:96-112 | a playlist sync creates no playlist, removes nothing, changes only its own playlist and adds only candidates |
| SyncPlaylist.SyncOneCompletes | src/commands/sync-tracks-to-playlist.ts:101-111 | a successful add leaves every candidate in the playlist; when nothing is missing, no add is issued and nothing changes |
| SyncPlaylist.SyncAllOnlyAdds | src/commands/sync-tracks-to-playlist.ts:83-112 | syncing main then sub removes nothing from any playlist and touches no other playlist |
| SyncPlaylist.SyncAllIdempotent | src/commands/sync-tracks-to-playlist.ts:83-112 | after a sync whose adds succeeded, a second sync changes nothing |
| SyncPlaylist.SyncAllFailureIsolated | src/commands/sync-tracks-to-playlist.ts:96-111 | a failed add is caught and the loop goes on: when main's add fails the run is the sub sync on the unchanged playlists; when sub's add fails, main's sync stands alone |
| SyncPlaylist.SpotifyAccount.constructor | src/commands/sync-tracks-to-playlist.ts:97 | the account starts with the given playlist memberships |
| SyncPlaylist.SpotifyAccount.SyncPlaylist | src/commands/sync-tracks-to-playlist.ts:97-111 | an unknown playlist is an error and nothing changes; otherwise the call returns the difference and the playlists become those of `SyncOne` |
| SyncPlaylist.SyncMainThenSub | src/commands/sync-tracks-to-playlist.ts:83-112 | the loop over main then sub succeeds iff `SyncAll` does and then leaves its playlists; an unknown main playlist changes nothing; an unknown sub playlist leaves main's sync in place |
| SyncPlaylist.SyncTracksToPlaylist | src/commands/sync-tracks-to-playlist.ts:20-112 | a missing playlist id or token fails before any change; on success the candidates are those of the files and the playlists are those of `SyncAll`; after the checks, a failure happens only where `SyncAll` fails, and it leaves the playlists unchanged when main is unknown and with main's sync done when sub is unknown |
| MusicBrainz.GetArtistIdByName | src/utils/music-brainz.ts:54-65 | a non-ok response is an error; otherwise the result is the first artist's id when the body lists one, and `""` when it lists none |
| MusicBrainz.GetArtistNameById | src/utils/music-brainz.ts:72-83 | a non-ok response is an error; otherwise the result is the body's name, and `""` iff the body has no name or an empty one |
| MusicBrainz.FetchWorksPage | src/utils/music-brainz.ts:92-107 | a non-ok response is an error; otherwise the result is the body's `works`, and `[]` when the body has none |
| MusicBrainz.GetRecording | src/utils/music-brainz.ts:134-144 | a non-ok response is an error; otherwise the result is the decoded body |
| MusicBrainz.GetAllWorks | src/utils/music-brainz.ts:114-127 | the loop stops at the first short or failed page, every earlier page was full, the result is the pages joined in order, and the trace shows request k with offset 100·k, with a wait between pages only |
| MusicBrainz.Trace | src/utils/music-brainz.ts:117-125 | n requests come with n − 1 waits |
| MusicBrainz.TraceShape | src/utils/music-brainz.ts:117-125 | in a trace of n requests, request k with offset 100·k is at position 2k, and every position between two requests is a 1000 ms wait |
| MusicBrainz.ThreePagesExample | src/utils/music-brainz.ts:114-127 | pages of 100, 100 and 37 works take three requests, give 237 works, and give the trace request, wait, request, wait, request |
| MusicBrainz.CollectedPrefix | src/utils/music-brainz.ts:116-123 | against a server that pages through a catalog, n pages collect the first 100·n works |
| MusicBrainz.AllWorksOfCatalog | src/utils/music-brainz.ts:114-127 | against such a server the loop collects the whole catalog in ⌊size/100⌋ + 1 requests, so a multiple of 100 costs one extra empty page |
| UseData.KeyOfDataPath | preview/src/hooks/useData.ts:40 | the path `<dir>/<name>.json` gives the key `<name>` |
| UseData.Assign | preview/src/hooks/useData.ts:42 | a new key is appended at the end; an existing key keeps its place and the map's size |
| UseData.AssignLookup | preview/src/hooks/useData.ts:42 | after assignment the key reads the new value and every other key reads what it did |
| UseData.AssignKeepsUnique | preview/src/hooks/useData.ts:42 | assignment keeps the keys unique |
| UseData.BuiltMapLookup | preview/src/hooks/useData.ts:36-43 | each key reads the last successfully fetched file with that key; failed fetches are absent |
| UseData.BuildDataMap | preview/src/hooks/useData.ts:39-43 | the `forEach` loop builds exactly `BuiltMap` |
| UseData.SearchText | preview/src/hooks/useData.ts:71-72 | the search text is the lower-cased title, a space, the lower-cased artist, a space and the lower-cased composer name |
| UseData.ToRow | preview/src/hooks/useData.ts:73-82 | a row keeps its track, has the composer key, the other names, the composer name `name \|\| key` and its search text |
| UseData.RowsOf | preview/src/hooks/useData.ts:87-90 | one row per track, in order |
| UseData.FilterRows | preview/src/hooks/useData.ts:84-87 | with a known filter, row i is the row of that composer's track i; an unknown key gives no rows |
| UseData.AllRows | preview/src/hooks/useData.ts:88-91 | every row of the All view belongs to a composer of the map |
| UseData.AllRowsFlatten | preview/src/hooks/useData.ts:88-91 | the All view's rows are each map entry's rows, joined in map order |
| UseData.AllRowsAppend | preview/src/hooks/useData.ts:88-91 | the rows of two maps joined are their rows joined |
| UseData.DedupFromSpec | preview/src/hooks/useData.ts:93-99 | the de-duplicated rows come from the input, repeat no id, keep every id once and keep every row without an id |
| UseData.DedupFromSnoc | preview/src/hooks/useData.ts:93-99 | a row added at the end keeps what was kept, and is itself kept iff it has no id or an id neither seen nor held by an earlier row |
| UseData.DedupSnoc | preview/src/hooks/useData.ts:93-99 | the first row with an id is the one kept, and the kept rows stay in input order |
| UseData.DedupOfUnique | preview/src/hooks/useData.ts:93-99 | rows whose ids are already unique pass unchanged |
| UseData.DedupIdempotent | preview/src/hooks/useData.ts:93-99 | de-duplicating twice is de-duplicating once |
| UseData.DedupRows | preview/src/hooks/useData.ts:93-99 | the filter with its `seen` set computes `Dedup` |
| UseData.SelectedNames | preview/src/hooks/useData.ts:106 | the selected composer's names are its display name, `name` or the key, then its other names; an unknown key gives the key alone |
| UseData.ExcludeOwn | preview/src/hooks/useData.ts:103-115 | a row is kept iff it passes the test: with a filter, its artist is not among the selected names; without one, it is not the composer's own |
| UseData.ExcludeOwnAppend | preview/src/hooks/useData.ts:103-115 | exclusion works row by row, so it keeps the rows' order |
| UseData.ExcludeModesAgree | preview/src/hooks/useData.ts:103-114 | on one composer's rows the two exclusion tests agree |
| UseData.CompareRowsMeaning | preview/src/hooks/useData.ts:118-124 | rows compare equal iff their column values are equal, and come first iff their value is `<` the other's when ascending, `>` when descending |
| UseData.CompareRowsConsistent | preview/src/hooks/useData.ts:118-124 | the row comparator is a valid sort comparator |
| UseData.UseRows | preview/src/hooks/useData.ts:69-127 | the staged `rows` variable ends as `SortedRows` |
| UseData.UseRowsSpec | preview/src/hooks/useData.ts:69-127 | the rows are ordered on the column, are a permutation of the selected rows, keep equal values in input order, and repeat no id in the All view |
| UseData.FilterUnique | preview/src/hooks/useData.ts:103-115 | filtering keeps ids unique |
| UseData.PermutationKeepsUnique | preview/src/hooks/useData.ts:117-124 | reordering keeps ids unique |
| HomePage.QueryTokens | preview/src/pages/Home/index.tsx:19-23 | no token is empty, and no token holds white space or an upper-case letter |
| HomePage.QueryTokensKeepText | preview/src/pages/Home/index.tsx:19-23 | the tokens joined together are the trimmed, lower-cased query without its white space |
| HomePage.QueryTokensOfWords | preview/src/pages/Home/index.tsx:19-23 | words separated by runs of white space, with white space around them, give exactly their lower-cased words in order |
| HomePage.BlankQueryHasNoTokens | preview/src/pages/Home/index.tsx:20-21 | a blank query gives no tokens |
| HomePage.SearchRows | preview/src/pages/Home/index.tsx:36-42 | without tokens all rows stay; otherwise a row stays iff its search text contains every token |
| HomePage.SearchConjunctive | preview/src/pages/Home/index.tsx:38-41 | searching for `a + b` is searching for `a`, then for `b` |
| HomePage.DisplayedRows | preview/src/pages/Home/index.tsx:53-56 | a limited list is the first 300 rows, otherwise all rows |
| HomePage.View | preview/src/pages/Home/index.tsx:36-56 | the footer's total is the shown count and its overall the found count (the footer's props at lines 139-144); the rows are cut, and the button shows, exactly when "All" is selected without show-all and more than 300 rows are found; then the first 300 are shown, otherwise all found rows |
| HomePage.EmptyIdShowsEverything | preview/src/pages/Home/index.tsx:51-52 | an `id` parameter that is empty selects every composer's rows with no 300-row cap |
| HomePage.Home.constructor | preview/src/pages/Home/index.tsx:14-44 | the page starts from the URL's `id` parameter with show-all off |
| HomePage.Home.HandleShowAllRows | preview/src/pages/Home/index.tsx:57-59 | show-all turns on |
| HomePage.Home.HandleSelect | preview/src/pages/Home/index.tsx:62-79 | selecting `""` clears the filter, any other value selects it; show-all resets; the `id` parameter follows; nothing else changes |
| HomeQuery.Others | preview/src/hooks/useHomeQuery.ts:42-45 | the other parameters are exactly those with a different name |
| HomeQuery.ParamDelete | preview/src/hooks/useHomeQuery.ts:44 | after `delete` the name is absent and the other parameters are unchanged |
| HomeQuery.ParamSetSpec | preview/src/hooks/useHomeQuery.ts:43 | after `set` the name has the one value given and the other parameters are unchanged |
| HomeQuery.ParamSetInPlace | preview/src/hooks/useHomeQuery.ts:43 | `set` puts the value where the first pair with the name was, with the pairs before it unchanged |
| HomeQuery.ParamSetAppends | preview/src/hooks/useHomeQuery.ts:43 | without a pair of that name, `set` appends one at the end |
| HomeQuery.SetIdParam | preview/src/hooks/useHomeQuery.ts:42-45 | a non-empty id is set, null or `""` deletes `id`, other parameters are untouched |
| HomeQuery.SetIdParamIdempotent | preview/src/hooks/useHomeQuery.ts:42-45 | syncing the same id twice is syncing it once |
| HomeQuery.SingleIdSet | preview/src/hooks/useHomeQuery.ts:43 | setting the id a URL already holds once leaves the URL as it is |
| HomeQuery.NextSort | preview/src/hooks/useHomeQuery.ts:50-54 | the new sort is on the clicked column; the same column flips direction, another column starts ascending |
| HomeQuery.ToggleTwice | preview/src/hooks/useHomeQuery.ts:50-54 | toggling the current column twice restores the sort |
| HomeQuery.NewColumnThenAgain | preview/src/hooks/useHomeQuery.ts:50-54 | clicking a new column twice sorts it descending |
| HomeQuery.QueryState.constructor | preview/src/hooks/useHomeQuery.ts:31-37 | the filter comes from the `id` parameter, the query is `""`, exclusion is off, the sort is release date descending |
| HomeQuery.QueryState.SetQ | preview/src/hooks/useHomeQuery.ts:35 | only the query changes |
| HomeQuery.QueryState.SetExcludeOwn | preview/src/hooks/useHomeQuery.ts:36 | only the exclusion switch changes |
| HomeQuery.QueryState.SetCurrentFilter | preview/src/hooks/useHomeQuery.ts:39-48 | the filter changes and the URL's `id` follows it |
| HomeQuery.QueryState.ToggleSort | preview/src/hooks/useHomeQuery.ts:50-54 | only the sort changes, to `NextSort` |
| BasePath.ResolveBaseUrl | preview/src/lib/base-path.ts:1-4 | the base is Vite's `BASE_URL`, else `VITE_BASE_PATH`, else `/` |
| BasePath.NormalizedBase | preview/src/lib/base-path.ts:10 | the base ends in exactly the `/` it had, or one added |
| BasePath.WithBasePath | preview/src/lib/base-path.ts:8-13 | http(s) URLs are unchanged; other targets give the base, then the target with all its leading slashes removed |
| BasePath.LeadingSlashIgnored | preview/src/lib/base-path.ts:11 | a leading `/` on the target makes no difference |
| BasePath.RootBase | preview/src/lib/base-path.ts:8-13 | with base `/`, a relative target becomes `/` + target |
| Ssg.FilledRoot | preview/ssg.ts:22 | the filled mount point is the root's opening tag, the app HTML and `</div>`; empty HTML gives the placeholder back |
| Ssg.Injected | preview/ssg.ts:19-26 | the template without the placeholder is an error; otherwise its first placeholder is replaced by the filled one |
| Ssg.InjectAppHtml | preview/ssg.ts:19-26 | the loop over the mount points computes `Injected` |
| Ssg.InjectedInsertsOnly | preview/ssg.ts:19-23 | injection only inserts the app HTML just inside the root `div`, and empty HTML leaves the template as it is |
| Ssg.Basename | preview/ssg.ts:28-29 | unset or `/` gives no basename; otherwise the value without its trailing slashes |
| Ssg.RequestPath | preview/ssg.ts:31 | the basename, if any, prefixes the route |
| Ssg.RouteDir | preview/ssg.ts:32 | `/` maps to `""`; other routes lose their leading slashes |
| Ssg.GeneratePages | preview/ssg.ts:38-52 | the route loop computes `PagesOf`, stopping at the first template error |
| Ssg.PagesAbort | preview/ssg.ts:47 | once a route's injection throws, later routes change nothing |
| Ssg.PagesOfRendered | preview/ssg.ts:38-52 | with a mount point in the template, generation succeeds, and each page is one rendered route's HTML in the template, written to that route's directory |
| Ssg.RootPageAtTop | preview/ssg.ts:34-52 | the site is one page, at the top directory, with the root route's HTML |
| Ssg.CopiedFiles | preview/ssg.ts:59 | exactly the `.json` names other than `files.json` are copied |
| Ssg.DataFileList | preview/ssg.ts:66 | the list holds `/data/` + each copied name, in order |
| Ssg.ListedKeys | preview/ssg.ts:66 | each listed path gives the map key that is the file's name without `.json` |
| GenerateIndex.IndexEntriesAsWritten | src/commands/generate-index.ts:11-14 | every entry of the index is `./data/` + the name of a `.json` regular file, and every such file is listed |
| GenerateIndex.IndexEntriesAsWrittenAppend | src/commands/generate-index.ts:11-14 | the index follows the directory listing: two parts of the listing give their indexes one after the other |
| GenerateIndex.IndexEntriesAsWrittenOfOne | src/commands/generate-index.ts:12-14 | one directory entry gives exactly its `./data/` entry when it is a `.json` regular file, and nothing otherwise |
| GenerateIndex.FirstRunIndex | src/commands/generate-index.ts:11-14 | while `data/` holds no `files.json`, the written index is the corrected list, entry for entry and in order |
| GenerateIndex.IndexListsItself | src/commands/generate-index.ts:12-14 | a directory that already holds `files.json` gets `./data/files.json` listed |
| GenerateIndex.IndexEntries | src/commands/generate-index.ts:11-14 | the corrected index: the `.json` regular files other than `files.json`, which is never listed |
| GenerateIndex.IndexIsCopiedFiles | src/commands/generate-index.ts:12-14 | the corrected index names the files the static site copies, in the same order |
| GenerateIndex.IndexAgreesWithSite | src/commands/generate-index.ts:14 | the corrected index is the static site's list with each entry behind a `.` |
| UpdateTracks.ArtistIdOf | src/commands/update-tracks.ts:15 | `<id>.json` gives `<id>`, `.json` alone gives `""`, and other names are unchanged |
| UpdateTracks.ArtistIdOfSaved | src/commands/update-tracks.ts:15 | the file `get-tracks` saved a composer under gives back its id |
| UpdateTracks.JsonFiles | src/commands/update-tracks.ts:13 | exactly the `.json` names are kept |
| UpdateTracks.UpdateTracksAction | src/commands/update-tracks.ts:13-22 | the loop produces `RefreshEvents` of the `.json` files |
| UpdateTracks.RefreshEventsShape | src/commands/update-tracks.ts:14-22 | each file gets one `--arid <id>` run followed by a 2000 ms wait, in listing order, failures included |
| UpdateTracks.IndexFileIsRefreshed | src/commands/update-tracks.ts:13-17 | `files.json` is refreshed like a composer, with the id `files` |
| GetMultipleTracks.ParseArtists | src/commands/get-multiple-tracks.ts:11-14 | every parsed name is non-empty, has no comma and no surrounding white space |
| GetMultipleTracks.ParseArtistsPiece | src/commands/get-multiple-tracks.ts:11-14 | a list without a comma names its trimmed text, or nobody when that is empty |
| GetMultipleTracks.ParseArtistsAround | src/commands/get-multiple-tracks.ts:11-14 | a comma ends one name: the names of `a,b` are those of `a`, then those of `b` |
| GetMultipleTracks.ParseJoined | src/commands/get-multiple-tracks.ts:11-14 | names joined by commas parse back to the same names in order |
| GetMultipleTracks.BlankListNamesNobody | src/commands/get-multiple-tracks.ts:11-14 | a list of only commas and white space names nobody |
| GetMultipleTracks.GetMultipleTracksAction | src/commands/get-multiple-tracks.ts:11-23 | the command produces the events of the parsed names |
| GetMultipleTracks.FetchAll | src/commands/get-multiple-tracks.ts:15-23 | the loop produces `FetchEvents` of the names |
| GetMultipleTracks.FetchEventsRunsAll | src/commands/get-multiple-tracks.ts:15-23 | each name is run once with `--artist`, in order, and there are as many waits as runs, failures included |
| GetMultipleTracks.FetchEventsPerName | src/commands/get-multiple-tracks.ts:15-23 | the trace is the names' own events, one name after the other in input order |
| GetMultipleTracks.NameEventsLayout | src/commands/get-multiple-tracks.ts:16-22 | a name's events are its run, then the logged failure exactly when the run fails, then one wait |
| Sorting.SortBy | preview/src/hooks/useData.ts:118-124 | the sorted list is a permutation of the input |
| Sorting.SortBySorted | preview/src/hooks/useData.ts:118-124 | the sorted list is ordered by a valid comparator |
| Sorting.SortByStable | preview/src/hooks/useData.ts:118-124 | elements that compare equal keep their input order |
| Sorting.SortByHead | src/commands/get-tracks.ts:122-142 | the first sorted element is the first least element of the input |
| Strings.IndexOfFrom | preview/ssg.ts:21-22 | the found index is the first occurrence at or after the start, and none means no occurrence |
| Strings.ReplaceFirstSplit | preview/ssg.ts:22 | `replace` with a string pattern replaces only its first occurrence |
| Strings.ReplaceFirstAtStart | src/commands/sync-tracks-to-playlist.ts:65 | a pattern at the start is replaced there |
| Strings.DropWhile | preview/src/lib/base-path.ts:11 | the longest leading run of the characters is removed |
| Strings.DropLastWhile | preview/ssg.ts:29 | the longest trailing run of the characters is removed |
| Strings.Trim | preview/src/pages/Home/index.tsx:20 | the result is the string with exactly its leading and trailing white space removed |
| Strings.TrimAround | src/commands/get-multiple-tracks.ts:13 | white space around a text whose ends are not white space is removed, and the text kept |
| Strings.ToLower | preview/src/pages/Home/index.tsx:20 | each character is lowered by `LowerChar`; the result has the same length and no upper-case ASCII letter |
| Strings.LowerChar | preview/src/pages/Home/index.tsx:20 | `A`–`Z` become `a`–`z`, and every other character is unchanged |
| Strings.ToLowerAppend | preview/src/hooks/useData.ts:71-72 | lower-casing distributes over concatenation |
| Strings.SplitWhere | preview/src/pages/Home/index.tsx:22 | there is at least one piece, and no piece holds a separator |
| Strings.SplitWhereNoSeparator | preview/src/pages/Home/index.tsx:22 | a string without a separator is one piece |
| Strings.SplitWhereAround | preview/src/pages/Home/index.tsx:22 | a separator ends one piece: `a + [c] + b` splits into the pieces of `a`, then those of `b` |
| Strings.JoinSplit | src/commands/get-multiple-tracks.ts:12 | joining the pieces of a split gives the string back |
| Strings.LastPieceAfterSeparator | preview/src/hooks/useData.ts:40 | the last piece of a split is the text after the last separator |
| Strings.FlattenSplitWhere | preview/src/pages/Home/index.tsx:22 | the pieces together are the string without its separators |
| Strings.Utf16Length | src/commands/get-tracks.ts:129 | the UTF-16 length is the number of characters plus the number above U+FFFF |
| Strings.LexLessTrichotomy | preview/src/hooks/useData.ts:121-122 | of two strings, exactly one is `<` the other or they are equal |
| Strings.LexLessTransitive | preview/src/hooks/useData.ts:121-122 | `<` on strings is transitive |
| Common.Lookup | preview/src/hooks/useData.ts:85 | a key is found iff some entry has it, and the value is that of the first entry with it; the same lookup is `URLSearchParams.get` at preview/src/hooks/useHomeQuery.ts:31 |
| Common.Filter | src/commands/update-tracks.ts:13 | `filter` keeps exactly the elements that pass, and no more of them than the input has |
| Common.FilterFilter | preview/src/hooks/useData.ts:103-115 | filtering twice is filtering by both tests |
| Common.FlattenAppend | preview/src/hooks/useData.ts:89-91 | `flatMap` over two parts is the two results joined |

## Left out

- HTTP, the file system, JSON parsing and serialisation are not modelled.
  - Every answer is a parameter, as described above.
  - The pretty-printed JSON that `get-tracks` writes and the trailing newline of `generate-index` are not modelled.
  - Directory listings are sequences of names.
  - A saved catalog without a `tracks` array, or a track whose `spotifyUrl` is not a string, cannot be expressed in the record types.
- Waits carry no timing.
  - The loop commands record them as events.
  - `GetTracks.AppendTracks` does not record the 1200 ms wait after each appended track (src/commands/get-tracks.ts:213), because nothing in its result depends on it.
- Console output is not modelled. A failure in `get-multiple-tracks` is the only log that appears in a trace.
- `MusicBrainz.GetAllWorks` requires that some page ends the listing. The source loops for ever against a server that always returns full pages.
- `GetTracks.GetTracksAction` has the same requirement for every composer's listing, as `ListingsEnd`.
- The Spotify client is not modelled: authorisation, token refresh and playlist batching and pagination.
  - The token is an input.
  - A playlist's membership is one set.
  - An add is one call that succeeds or fails as a whole.
- The refresh-token command, its express server, the preview dev servers and the configuration loading are not part of this model.
- `Strings.ToLower` lowers ASCII letters only, not all of Unicode.
- `Strings.LexLess` compares code points. JavaScript compares UTF-16 code units, and the two orders differ only between characters above U+FFFF and those from U+E000 to U+FFFF.
- `Ssg.Injected` does not model the `$` patterns of `String.prototype.replace`. The app HTML is taken literally.
- `UseData.BuiltMap` keeps keys in insertion order. JavaScript objects put integer-like keys first in ascending order, which would change the All view's row order for such keys.
- Not modelled on the Home page:
  - the composer list ordered by `localeCompare` (preview/src/pages/Home/index.tsx:26-32), which is locale-dependent;
  - the About modal (preview/src/pages/Home/index.tsx:82-87);
  - React rendering.
- The effect that resets show-all when the filter changes (preview/src/pages/Home/index.tsx:45-49) is not a separate operation. The filter changes only through `HomePage.Home.HandleSelect`, which already resets it.
- `useData`'s `loading` and `error` states are not modelled, because they are React state for the status bar.
  - Its concurrent fetches (`Promise.all`) are a sequence of results, each a file or nothing.
  - A failed fetch of the list is an empty list of files.
- The static pre-render is not modelled:
  - the React rendering itself, which is the `render` parameter;
  - `mkdir` and `writeFile`;
  - the copy step's `try`/`catch`.
- `Sorting.SortBy` is a function on values. The source sorts the array in place, and nothing else holds the array.

## Findings

| source | as written | input that shows it | evidently intended | confidence | as-written member | corrected member |
|---|---|---|---|---|---|---|
| src/commands/generate-index.ts:12-14 | every regular file ending in `.json` is listed, including the index `files.json` that the command itself writes | a `data/` directory holding `a.json` and the `files.json` of an earlier run gives `["./data/a.json", "./data/files.json"]` | only composer files are listed, as the static site's list does (preview/ssg.ts:59); as written, a preview that serves `data/` directly (preview/server.ts:10) loads the index as a composer named `files` | medium, not executed | GenerateIndex.IndexListsItself | GenerateIndex.IndexEntries |

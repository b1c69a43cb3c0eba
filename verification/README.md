# moansubs in Dafny

A model of the decisions moansubs makes in code, and proofs about them. moansubs is a subtitle
exchange: nodes hold subtitle tracks for video files ("releases") identified by two fingerprints, a
plugin looks a local file up without telling the node which release matched, and nodes mirror one
another through dumps. Nothing here runs the program; the verifier checks the model.

`dafny verify dfyconfig.toml` checks the whole project.

## What is modelled

- **Rate limiting** (`RateLimiter.dfy`). The token-bucket limiter: refill over time, multi-token
  charges, the sweep of idle buckets every 4096 calls, and the Retry-After it reports. Time is whole
  nanoseconds, tokens are reals, and the clock does not run backwards. `ClientAddress.dfy` is the
  right-to-left walk that decides which address a request is counted against.
- **Lookup and matching** (`PHash.dfy`, `Hex.dfy`, `Lookup.dfy`, `LookupClient.dfy`, `Matching.dfy`,
  `Choosing.dfy`, `Preference.dfy`, with `Sorting.dfy` and `Wire.dfy`). A scene's fingerprints become
  at most six bucket keys; keys of many scenes are deduplicated, batched, sent as text, parsed by the
  node and mapped back; releases are then judged locally, ranked, merged with stash-box identity hits,
  and the tracks of the best one are picked by language and kind.
- **Uploads and revisions** (`Catalogue.dfy`, `Uploads.dfy`, `Twins.dfy`, `UploadHandler.dfy`,
  `UploadReplies.dfy`). The tables, the store's transactions on them, the upload handler, and runs in which
  uploads, revisions, takedowns, restores, locks and relabelling interleave; `Twins.dfy` is about duplicates,
  `UploadReplies.dfy` about what each answer of the handler means.
- **Dump and import** (`Dump.dfy`, `Import.dfy`, `Reimport.dfy`, `Rejoining.dfy`, `Mirroring.dfy`, `TwoWalks.dfy`,
  `MirroredChains.dfy`, `NewerLines.dfy`, `NewerDumps.dfy`, `Histories.dfy`, `RefusedDump.dfy`, `LateParent.dfy`,
  `SoundImports.dfy`). The paged export and the one-pass import that renames ids and relinks revision chains around
  withdrawn rows; dumps taken while the node serves, mirrors of mirrors, and mirrors that import one dump after
  another. Such a mirror is proved to follow a book kept in the node's own ids and computed from the dumps alone.
- **Counters** (`Counters.dfy`). Any number of concurrent flushes swapping, merging and putting back.
- **Colours** (`Theme.dfy`, `Palettes.dfy`). HSL both ways, the relative luminance and contrast ratio of section 6
  (Glossary) of WCAG 2.1, the button ink, the search for a readable lightness, and the palettes built from them.
- **Backfill** (`Backfill.dfy`). The stash-box sweep with its retries, and what the next sweep asks.

Code that changes things in place is a class or a method with loops (`RateLimiter`, `Server`, `Node`,
`Mirror`, `Stats`, the sorting of an array), proved equal to a function of the old state; the lemmas are
about that function and about whole runs of it. Pure code is functions and lemmas. A store operation
is one SQL transaction, so it is a function from tables to tables.

## Where the code does not do what its comments say

Each is a lemma with the exact condition, and the model keeps what the code does.

- `clientIP` promises never to return text that failed to parse. It does so for every header, but an
  unparsable RemoteAddr host is returned as it stands (`AnswerParsesIff`, `AnswerMayNotParse`).
- `ViewCounts` calls its sum exact. It never over-counts, and is exact unless a flush overlaps it
  (`ViewCountsNeverOverCount`, `OverlappingFlushUnderCounts`).
- The Retry-After header is at least the truncated wait, not the exact one: when the exact wait is a
  whole number of seconds and a fraction of a nanosecond, a caller returning on time is refused
  (`HeaderWaitIsEnoughIff`, `HeaderWaitCanFallShort`).
- Upload is meant to be safe to repeat. Finding and creating are two transactions, so two overlapping
  uploads of one new text create it twice (`OverlappingUploadsMakeTwins`, `FirstUploadTwice`). Twins can come
  about in a run exactly when some request that leaves something to do is prepared while another for the
  same text of the same release and language is under way (`SubmitIsSafeIff`, `NeverTwinsIff`).
- A dump promises its importer every release before its tracks. The two walks are separate queries, so a file first
  uploaded between them makes a dump no importer takes: it is taken exactly when the second walk saw only
  tracks of releases the first walk saw (`DumpIsImportedIff`, `UploadBetweenWalks`).
- The importer rejoins a revision whose parent was withdrawn to its chain by root. That keeps a chain
  in one piece exactly when its root was dumped or at most one dumped member lost its parent
  (`ChainStaysWholeIff`, `OneMirrorSplitsAChain`). The rejoined row carries no edge, so a mirror of the mirror keeps
  the chain exactly when no dumped member lost its parent, or nothing was rejoined because the root was not
  dumped either (`SecondMirrorKeepsChainIff`, `TwoMirrorsSplitAChain`).
- A mirror may import newer dumps of the node it mirrors. An import stops, each time at the same line, exactly
  when a track not held yet supersedes one in the dump of which the mirror holds another revision with its edge:
  that one is still up in the mirror (`ImportStopsIff`, `NewerDumpIsTakenIff`, `RevisedAnewIsRefused`).
- A revision keeps its edge exactly when its parent was in the dump that brought it. If the parent is restored and
  comes with a later dump, its row arrives and the edge does not, since a row that is found is never relinked
  (`EdgeCameWithTheRow`, `LaterRevisionsRejoin`, `LateParentGetsNoEdge`).
- Imports do not keep every invariant of revision chains. Ids, and one live successor for each track, always stay;
  edges stay within their chains exactly when the new row starts a chain or follows its parent, and revision numbers
  distinct exactly when its chain here has no such number yet (`ImportedLineKeepsSoundIff`, `NumbersCanRepeat`). A
  mirror made from nothing always has distinct numbers, and is sound exactly when nothing in it was rejoined by
  root (`MirrorIsSoundIff`).
- Restoring a release undoes its takedown exactly when it was up before and no track of it already carried
  the takedown's stamp (`TakedownIsUndoneIff`). A second takedown stamps the release anew but not its tracks,
  so restoring once brings it back without them; it comes back as it was exactly when no track already carried the
  second stamp, and both takedowns bore one stamp or no track was up (`TwoTakedownsAreUndoneIff`).

## Model

| member | source | states |
|---|---|---|
| RateLimiting.FlowIsSteady | internal/api/ratelimit.go:180-245 | Refill at any rate is additive over time, a bucket idle for the sweep's threshold is full, and the computed wait is exactly when the missing tokens have arrived. |
| RateLimiting.ConfiguredLimitsAreSteady | internal/api/ratelimit.go:43-69 | Both constructors, per hour and per minute, give limits with all those properties. |
| RateLimiting.PruneKeepsAvailable | internal/api/ratelimit.go:284-291 | A sweep changes no key's available tokens. |
| RateLimiting.ChargeEffect | internal/api/ratelimit.go:180-207 | A charge is admitted exactly when the tokens are there, takes exactly them, and leaves every other key's balance alone, swept or not. |
| RateLimiting.PruningIsUnobservable | internal/api/ratelimit.go:180-245 | Two limiters with any sweeping policies answer every call of every run alike. |
| RateLimiting.PrunedLimiterRefinesUnpruned | internal/api/ratelimit.go:186-193 | Sweeping every 4096 calls and never sweeping give the same answers on every run. |
| RateLimiting.KeysAreIsolated | internal/api/ratelimit.go:180-245 | A key's answers in a mixed run are those of a limiter that never saw another key. |
| RateLimiting.TokensAreConserved | internal/api/ratelimit.go:180-207 | Over any run, tokens admitted for a key are at most what it had plus what flowed in. |
| RateLimiting.RateBound | internal/api/ratelimit.go:180-207 | In every window of every run a key is admitted at most burst plus what refills within the window. |
| RateLimiting.HourlyRateBound | internal/api/ratelimit.go:43-54 | In figures: at most perHour at once plus perHour/3600 for every second of the window. |
| RateLimiting.MinuteRateBound | internal/api/ratelimit.go:56-69 | Of the per-minute one: at most perMinute at once plus perMinute/60 for every second of the window. |
| RateLimiting.MinuteRefillIff | internal/api/ratelimit.go:56-69 | After its whole budget, a key is admitted n more exactly once n/perMinute of a minute has passed, whatever other keys do; so all of it after a minute. |
| RateLimiting.HourlyRefillIff | internal/api/ratelimit.go:43-54 | The same by the hour. |
| RateLimiting.OversizedNeverAdmitted | internal/api/ratelimit.go:180-207 | A charge above the burst is never admitted, at any point of any run. |
| RateLimiting.RetryAfterIsTheTrueWait | internal/api/ratelimit.go:222-245 | After a denial the same call is refused before the exact wait and admitted from then on, whatever other keys do; the reported wait is less than one nanosecond short. |
| RateLimiting.RetryAfterSeconds | internal/api/ratelimit.go:251-257 | The header is the least whole number of seconds, at least one, that is not below the reported wait. |
| RateLimiting.HeaderWaitIsEnoughIff | internal/api/ratelimit.go:222-257 | Coming back when the header says is admitted exactly unless truncation dropped a fraction on top of whole seconds. |
| RateLimiting.HeaderWaitCanFallShort | internal/api/ratelimit.go:222-257 | A concrete limiter and instant at which the header falls short. |
| RateLimiting.RateLimiter.AllowN | internal/api/ratelimit.go:180-207 | The in-place update leaves exactly the state, and gives exactly the answer, the run lemmas are about. |
| RateLimiting.RateLimiter.RetryAfter | internal/api/ratelimit.go:222-245 | The computed wait is the one the lemmas are about, and nothing changes. |
| RateLimiting.RateLimiter.PruneIdle | internal/api/ratelimit.go:284-291 | In whatever order buckets are visited, exactly the idle ones go. |
| ClientAddress.ClientIP | internal/api/ratelimit.go:99-135 | The answer is the rightmost entry no trusted proxy signed, RemoteAddr when that entry does not parse, the last entry when all are proxies, and RemoteAddr when the header is not believed. |
| ClientAddress.CallerIsUnique | internal/api/ratelimit.go:71-135 | That description determines one address. |
| ClientAddress.EntriesToTheLeftAreIgnored | internal/api/ratelimit.go:75-84 | Nothing written left of the first unsigned entry changes the answer. |
| ClientAddress.AnswerParsesIff | internal/api/ratelimit.go:84-86 | The answer is an address exactly when RemoteAddr's host is one. |
| ClientAddress.AnswerMayNotParse | internal/api/ratelimit.go:100-106 | A request whose answer does not parse. |
| PHashing.HammingIsSumOfBlockDistances | hash/phash.go:57-90 | The distance of two hashes is the sum of the distances of their five blocks. |
| PHashing.HammingZeroMeansEqual | hash/phash.go:57-59 | Distance zero means equality. |
| PHashing.HashesHave64Bits | hash/phash.go:55-59 | The distance of two hashes is the number of the sixty-four positions in which they differ. |
| PHashing.BlocksReassemble | hash/phash.go:62-90 | The five blocks put together are the hash, thirteen bits each from the top and twelve for the last. |
| PHashing.Pigeonhole | hash/phash.go:77-90 | Hashes within distance four agree in some block. |
| PHashing.PigeonholeIsTight | hash/phash.go:77-90 | Some hashes at distance five agree in none. |
| PHashing.TextRoundTrip | hash/phash.go:16-37 | The padded and the unpadded text of a hash parse back to it. |
| PHashing.ParsesIff | hash/phash.go:16-30 | One to sixteen hex digits of either case parse, and nothing else. |
| Lookups.KeyRoundTrip | client/client.go:217-225 | A printed bucket key scans and parses back to the same key, for both kinds of key. |
| Lookups.KeysAsText | client/client.go:217-225 | The form of a key: the prefix, or the block number and its value in unpadded hex. |
| Lookups.BlocksAreReal | internal/api/lookup.go:517-534 | The block values the endpoint accepts are exactly those some hash has. |
| LookupClient.PrefixesAreReal | internal/api/lookup.go:495-501 | The prefixes it accepts are exactly those some oshash has. |
| Lookups.BucketsHoldWhatTheyName | internal/api/lookup.go:473-550 | A bucket holds exactly the visible releases whose oshash starts with the prefix, or whose phash has that block. |
| LookupClient.LookupTellsApartIff | client/client.go:217-242 | What a lookup tells the node: two scenes ask the same exactly when they agree in five digits of the oshash and in the phash. |
| Lookups.ResultKeyNamesItsBucket | internal/api/lookup.go:433-437 | The key an answer is filed under names the bucket the entry asked for, whatever the case of its digits. |
| Lookups.HandleLookupBatch | internal/api/lookup.go:473-550 | Succeeds exactly for one to a hundred valid entries, answers each with its bucket under its own key, and otherwise blames the first bad entry. |
| LookupClient.BuildRequest | client/client.go:269-278 | Every key becomes the entry whose answer comes back under that very key. |
| LookupClient.FetchBuckets | client/client.go:259-288 | In any order of keys, ceil(n/100) requests of 1 to 100 valid entries fetch exactly the needed buckets; the first request without an answer ends the lookup. |
| LookupClient.LookupBucketsBatch | client/client.go:250-304 | Each scene gets exactly its own releases in their own order, as if looked up alone, unless a request goes unanswered. |
| LookupClient.LookupBuckets | client/client.go:236-242 | One scene always takes exactly one request. |
| LookupClient.Server.Post | internal/api/lookup.go:455-550 | What the client sees of the endpoint: the request is logged and answered by the handler, or lost. |
| Matching.SiblingCandidates | plugin/match.go:211-240 | Every sibling becomes an offer of its own, with its offset if one is known. |
| Matching.SiblingIsOffered | plugin/match.go:200-240 | Each is an offer of one track under the id of the release that matched, with an offset, and its source, only where one is known. |
| Matching.RankCandidates | plugin/match.go:111-158 | The loop and the in-place stable sort give the ranked list the lemmas are about, best first. |
| Matching.RankedIsBestFirst | plugin/match.go:154-172 | Ranking reorders only: same bytes before near ones before offers before names, and each of these in the node's order. |
| Matching.WireKeepsTheHash | internal/api/lookup.go:163-168 | Judging the release as it travelled is comparing the stored fingerprints. |
| Matching.RowIsJudged | plugin/match.go:111-152 | What a stored release is to a scene, field by field: exact by oshash, else near within 4 bits and a second, else in exact mode an offer within 8 bits and 5 seconds; shown as stored, with its distance and difference in length. |
| Matching.MatchesReachTheScene | client/client.go:230-304 | No matching visible release is lost between the buckets. |
| Matching.SceneMatchesAreTheScan | plugin/match.go:106-158 | The matches among a scene's releases are those of a scan of the whole catalogue, each once. |
| Matching.BucketedLookupIsExact | plugin/match.go:106-158 | For every catalogue and scene, the candidates offered on fingerprints are exactly a full scan's, each once, exact before near before siblings. |
| Sorting.SortByIsStableSort | plugin/match.go:154-156 | The result is sorted, a permutation, and keeps the order among equals. |
| Sorting.StableSortIsUnique | plugin/match.go:154-156 | Any two stable sorts agree, so the one modelled stands for the library's. |
| Sorting.SortInPlace | plugin/app.go:218-224 | Sorting an array in place gives that result. |
| Choosing.StashIdentityCandidates | plugin/app.go:423-450 | One candidate for each release the ids resolved to. |
| Choosing.IdentityHits | plugin/app.go:423-450 | Each is exact, shows the release, and says how its length differs. |
| Choosing.Merge | plugin/app.go:521-534 | Identity hits first, then the fingerprint candidates of other releases. |
| Choosing.IdentifiedReleaseStandsAlone | plugin/app.go:516-534 | A release named by an id keeps only that candidate; its siblings go with its fingerprint match. |
| Choosing.SearchIsBestFirst | plugin/app.go:508-534 | A search lists identity hits first and all it found best first. |
| Choosing.DownloadCandidates | plugin/download.go:183-215 | The gating and merging loops give the list the choice is made from. |
| Choosing.RankedFirst | plugin/download.go:186-222 | The first fingerprint candidate is a match, has the scene's bytes if any match has, and there is one exactly when there is a match. |
| Choosing.DownloadChoiceIsSafe | plugin/download.go:183-237 | Over every catalogue: an identity hit within a second if there is one; else the very file if the catalogue shows it; else a match of the catalogue; nothing exactly when there is none of these; and never a sibling. |
| Choosing.ScanMeansSameVideo | plugin/download.go:183-237 | A match is a visible release with equal oshash, or within distance four and one second. |
| Preferences.SortTracksByPreference | plugin/app.go:199-225 | In place: reordered by preference as the next row says. |
| Preferences.SortedByPreference | plugin/app.go:196-225 | Listed languages come first and in the order of the list, the preferred kind first within each and among the unlisted, and what ties stays in the server's order. |
| Preferences.SelectTracksForDownload | plugin/download.go:256-271 | The loop takes what the lemmas are about. |
| Preferences.SelectTakesFirsts | plugin/download.go:256-271 | What is taken is the first track of every wanted base language, each language once. |
| Preferences.BestTrackPerLanguage | plugin/download.go:223-271 | Sorting then selecting takes, for every wanted language present, exactly one track: the first in server order of the preferred kind, or the first of all if none is of it; listed languages in the configured order. |
| Catalogue.GetOrCreateReleaseFinds | internal/store/release.go:158-237 | Afterwards exactly one release has the oshash; an existing one, withdrawn or not, is left alone. |
| Catalogue.TakedownIsUndoneIff | internal/store/release.go:302-375 | Takedown then restore is the identity exactly when the release was up and no track of it already carried the stamp. |
| Catalogue.TwoTakedownsAreUndoneIff | internal/store/release.go:302-375 | Two takedowns then one restore of a release that was up are the identity exactly when no track of it already carried the second stamp, and both bore one stamp or no track was up. |
| Catalogue.TrackTakedownIsUndoneIff | internal/store/subtitle_track.go:595-623 | Taking a track down and restoring it is the identity exactly when it was up with no live rival revision, or was down with that stamp and has one. |
| Catalogue.LockingHolds | internal/store/subtitle_track.go:195-230 | A locked track takes no revision, and unlocking leaves no trace. |
| Uploads.RestoreKeepsSound | internal/store/subtitle_track.go:613-623 | Restoring a track keeps chains sound, refused where it would give a track two live successors. |
| Uploads.SupersedeExtends | internal/store/subtitle_track.go:195-265 | A successful supersede was onto the live, unlocked head and adds a row above every revision of the chain. |
| Uploads.CommitKeepsSound | internal/api/subtitles.go:733-780 | Creating and superseding keep every chain invariant and rewrite no row. |
| Uploads.RevisionExtendsTheHead | internal/api/subtitles.go:733-757 | A revision lands only on the head at the moment of the commit, or nothing changes. |
| Uploads.CreationStartsAChain | internal/api/subtitles.go:759-780 | A plain or declined upload is a chain of its own and leaves all other tracks as they were. |
| Uploads.UndisturbedRevisionSucceeds | internal/api/subtitles.go:685-757 | The check before and the check inside the transaction agree. |
| Uploads.ChainsStaySound | internal/api/subtitles.go:685-815 | Over every interleaving of requests and moderation: edges join one release, language and root with rising revisions, one live successor each, detected children only of detected parents; no row is lost or rewritten, and no disclosure taken back. |
| Uploads.ModerationTakesEffect | internal/store/subtitle_track.go:532-623 | In those runs, moderation does to its row what it says, and requests under way go on. |
| Uploads.ReachableChainsAreSound | internal/api/subtitles.go:685-815 | So over every run of a node that starts empty. |
| Uploads.NoHumanAncestor | internal/api/subtitles.go:713-717 | Whatever a machine-made track was revised from, however far back, is machine-made. |
| Twins.DuplicateChangesLittle | internal/api/subtitles.go:434-486 | A repeated upload adds nothing, touches that one track at most, never its text, takedown or a disclosure, and nothing unless the caller uploaded it. |
| Twins.CarefulRunsStayTwinFree | internal/api/subtitles.go:637-679 | Over every run in which no request with something to do is prepared while another for the same text is under way, no two tracks of a release say the same in the same language. |
| Twins.NoTwinsFromStart | internal/api/subtitles.go:637-679 | In particular from an empty node. |
| Twins.SubmitIsSafeIff | internal/api/subtitles.go:637-679 | Submitting a request leaves twins impossible, however what is under way ends, exactly when it leaves nothing to do or clashes with no request under way. |
| Twins.NeverTwinsIff | internal/api/subtitles.go:637-679 | For every run: at no point can twins still come about exactly when the run is careful in that sense. |
| Twins.OverlappingUploadsMakeTwins | internal/api/subtitles.go:641-667 | Submitted again before it is finished, an upload that creates a track creates it twice. |
| Twins.FirstUploadTwice | internal/api/subtitles.go:641-667 | So for any plain upload to an empty node, whose first submission creates the release. |
| UploadHandler.RevisedIff | internal/api/subtitles.go:495-757 | Exactly when a request ends as a revision. |
| UploadHandler.ChainHead | internal/api/subtitles.go:803-815 | The first live row of the highest revision, or none. |
| UploadHandler.HeadOfSortedChain | internal/store/subtitle_track.go:269-296 | On a chain ordered by revision and id that is the head by definition. |
| UploadHandler.Node.NotHeadRefusal | internal/api/subtitles.go:784-799 | The head the refusal names is the chain's head. |
| UploadHandler.Node.DuplicateTrackResponse | internal/api/subtitles.go:434-486 | The two corrections in sequence have the effect the lemmas are about. |
| UploadHandler.Node.PlainTrackWithDecline | internal/api/subtitles.go:762-780 | A declined revision is committed as a creation. |
| UploadHandler.Node.IngestSupersede | internal/api/subtitles.go:685-757 | Checks in the order of the handler lead to the outcome the lemmas are about. |
| UploadHandler.Node.Ingest | internal/api/subtitles.go:599-679 | The handler leaves exactly the tables and the reply of an undisturbed request, well kept, and sound if they were; the answer is then due in the sense of the next rows. |
| UploadReplies.EveryAnswerIsDue | internal/api/subtitles.go:599-780 | Every answer of a sound node holds for the reason it gives, stated in the fields of the request: what a new row holds and where it hangs, what a duplicate corrects, why a revision is declined or refused and which head it should name, what is filed about the release; nothing else changes. |
| UploadReplies.OneAnswerIsDue | internal/api/subtitles.go:599-780 | The tables and the request leave no choice of answer. |
| UploadReplies.LateAnswerIsDue | internal/api/subtitles.go:733-757 | Whatever happened since the checks, a commit is refused exactly for a takedown, a lock or a newer head, the first of them that holds, and changes nothing. |
| Dumps.WriteReleases | cmd/moansubs/dump.go:189-214 | Paging by id yields every visible release once, in order. |
| Dumps.WriteTracks | cmd/moansubs/dump.go:216-232 | Paging by id yields every visible track once, in order. |
| Dumps.WriteDump | cmd/moansubs/dump.go:177-235 | The meta line, then all releases, then all tracks, each once. |
| Dumps.DumpShowsIff | internal/store/dump.go:10-95 | A release is in it exactly if it is up, a track exactly if it and its release are. |
| Mirroring.WalksAreCopied | cmd/moansubs/dump.go:173-235 | Whatever the node served between the two walks, a dump whose tracks are all of releases it shows copies every one of them into an empty node. |
| TwoWalks.DumpIsImportedIff | cmd/moansubs/import.go:132-145 | A dump is imported to its end exactly when the second walk saw only tracks of releases the first walk saw; otherwise the importer stops at a release it was not shown. |
| TwoWalks.DisagreeingIsNeverImported | cmd/moansubs/import.go:132-145 | Whatever texts and chains it holds, a dump whose walks disagree is never imported to its end, and only such a dump is stopped for an unseen release. |
| TwoWalks.UploadBetweenWalks | cmd/moansubs/dump.go:189-232 | The first upload of a file between the walks makes such a dump, at any node with nothing under way. |
| TwoWalks.FirstUploadBetweenWalks | cmd/moansubs/dump.go:189-232 | So the first upload of all. |
| Imports.Mirror.ImportRelease | cmd/moansubs/import.go:202-232 | A malformed fingerprint changes nothing; otherwise the release is found or created. |
| Imports.Mirror.ImportTrack | cmd/moansubs/import.go:306-376 | Unparsable, duplicate, created or refused, with the tables as each leaves them. |
| Imports.Mirror.RunImport | cmd/moansubs/import.go:81-195 | The pass over the lines leaves exactly the tables, counts and error the lemmas are about. |
| Imports.TakedownsStand | cmd/moansubs/import.go:125-149 | No import brings back a withdrawn release or track, changes a text, or adds a track under a withdrawn release. |
| Imports.EveryTrackIsCounted | cmd/moansubs/import.go:173-188 | Every track line is counted in exactly one of four outcomes. |
| Imports.TrackIsCountedAs | cmd/moansubs/import.go:140-188 | Withdrawn counts lines under a release withdrawn here, skipped those that do not parse, duplicate those whose text is here, imported the rest, each a row more. |
| Imports.CountsSayWhatHappened | cmd/moansubs/import.go:140-188 | Over any pass, finished or stopped, each count is the number of such lines, and imported the number of rows more. |
| Imports.ReleaseIsWithheldIff | cmd/moansubs/import.go:112-131 | A release counts as withdrawn here exactly if the one of its oshash is. |
| Imports.OshashParsesIff | hash/oshash.go:31-37 | Sixteen hex digits of either case parse, to their lower case, and nothing else. |
| Imports.StopsAtTheBadLine | cmd/moansubs/import.go:90-194 | A pass that stops has imported everything before the line at fault. |
| Imports.StopsIffAtFault | cmd/moansubs/import.go:90-194 | A line stops a pass exactly for one of six faults, and the error names it. |
| Imports.RefusedIff | cmd/moansubs/import.go:306-376 | The store refuses a line exactly when its text is new under a known release and its parent, as it is here, already has a live successor. |
| Imports.StopsAtATakenParent | cmd/moansubs/import.go:90-194 | Every import the store refused, into any node, stopped at such a line. |
| Reimport.ImportIsIdempotent | cmd/moansubs/import.go:81-376 | Importing the same lines again, into any node, changes nothing and stops where the first time stopped. |
| Mirroring.MirrorIsACopy | cmd/moansubs/import.go:81-376 | Dump then import into an empty node copies every visible release and track once, under new ids one to one, keeping file facts, text, kind, disclosure flags and authorship, uncredited as shared; locks and uploaders stay behind, and a row that starts a chain is numbered 1. |
| MirroredChains.EdgeSurvivesIff | cmd/moansubs/import.go:150-158 | In the mirror, a supersedes edge is there exactly when the parent was dumped. |
| MirroredChains.ChainSurvives | cmd/moansubs/import.go:158-171 | With its root dumped, every row of a chain in the mirror has the copy of that root as its root, whichever interior revisions are missing. |
| MirroredChains.ChainStaysWholeIff | cmd/moansubs/import.go:150-171 | The rows of a chain in the mirror have one root exactly when its root was dumped or at most one dumped member lost its parent. |
| MirroredChains.OneMirrorSplitsAChain | cmd/moansubs/import.go:150-171 | Four revisions, the first and the third taken down: the mirror has two chains. |
| MirroredChains.MirrorIsExportable | cmd/moansubs/import.go:81-376 | What an import into an empty node leaves can itself be dumped and imported. |
| Rejoining.LaterRevisionsJoin | cmd/moansubs/import.go:150-180 | Into a node in any state: after the root's line, every line of its chain comes out under the root's local root, provided rows already here that say the same are there too. |
| MirroredChains.SecondMirrorKeepsChainIff | cmd/moansubs/import.go:150-171 | A mirror of the mirror gives every copy of a chain the root the mirror gives it exactly when no dumped member lost its parent or the chain's root was not dumped. |
| MirroredChains.SecondMirrorStaysWholeIff | cmd/moansubs/import.go:150-171 | It has a chain with dumped root in one piece exactly when no dumped member lost its parent. |
| MirroredChains.TwoMirrorsSplitAChain | cmd/moansubs/import.go:150-171 | Three revisions, the middle one taken down: one chain in the mirror, two in its mirror. |
| NewerLines.LineIsEntered | cmd/moansubs/import.go:132-188 | One track line does to the tables what it does to the book: found, created with parent and root as the book has them, or refused exactly when the book says so. |
| NewerDumps.DumpIsEntered | cmd/moansubs/import.go:81-195 | So a whole dump, into any mirror of the node, as far as it goes. |
| NewerDumps.BooksAreKept | cmd/moansubs/import.go:17-23 | After any number of dumps, finished or stopped, the rows are the book's: one for each track held, saying what it says, with its edge and under its root. |
| Histories.ImportStopsIff | cmd/moansubs/import.go:306-376 | After any number of dumps, the next is refused exactly when it shows a track not held that supersedes one it shows of which the mirror holds another revision with its edge. |
| Histories.HeldIff | cmd/moansubs/import.go:81-195 | A track is held exactly when the import of some dump came to it. |
| Histories.EdgeCameWithTheRow | cmd/moansubs/import.go:150-158 | A row has an edge exactly when its parent was in the dump that brought the row; no later dump changes it. |
| Histories.ChainsHangFromTheirRoots | cmd/moansubs/import.go:158-171 | A chain whose root every dump shows is one chain, under that root, whichever revisions any dump lacks. |
| Histories.MirrorsAfter | cmd/moansubs/import.go:81-376 | The three together, of the rows of a mirror after any number of dumps. |
| Histories.NewerDumpIsTakenIff | cmd/moansubs/import.go:81-376 | For two dumps: the second is imported to the end exactly when no track the first lacked supersedes one both hold that the first held another revision of. |
| Histories.LaterRevisionsRejoin | cmd/moansubs/import.go:150-180 | For two dumps, wherever the second stopped: one row for each track of the first and each of the second it came to; a row has an edge exactly when its parent was in the dump that brought it; with the root of its chain in both, it is under that root. |
| LateParent.LateParentGetsNoEdge | cmd/moansubs/import.go:322-341 | A revision whose parent is restored between the dumps: both rows are there, the edge is not. |
| Histories.RunsAreSuccessive | cmd/moansubs/import.go:17-23 | These hold of a node and itself after any run of requests and moderation that left no twins. |
| RefusedDump.RevisedAnewIsRefused | cmd/moansubs/import.go:306-376 | A run of one takedown and one revision after which no repetition of the import refreshes the mirror. |
| SoundImports.ImportedLineKeepsSoundIff | cmd/moansubs/import.go:342-376 | A new row always keeps ids in order and one live successor each; edges within chains exactly when it starts a chain or follows its parent; revision numbers distinct exactly when its chain has no such number yet. |
| SoundImports.OtherLinesKeepSound | cmd/moansubs/import.go:90-188 | Lines that create no track keep every chain invariant. |
| SoundImports.MirrorIsSoundIff | cmd/moansubs/import.go:150-171 | The mirror of a sound node has distinct revision numbers in every chain, and is sound exactly when nothing in it was rejoined by root. |
| SoundImports.NumbersCanRepeat | cmd/moansubs/import.go:158-171 | A sound node and a dump that leaves it with two live rows of one chain and number. |
| Mirroring.SoundNodesExport | cmd/moansubs/dump.go:177-235 | Sound nodes without twins, as every careful run leaves them, meet what the copy theorem asks. |
| Counters.StepConserves | internal/api/stats.go:227-285 | No step of any request, flush or sweep breaks the balance. |
| Counters.CountsAreConserved | internal/api/stats.go:221-285 | Over every interleaving of any number of flushes: recorded = stored + in memory + in flight + lost. |
| Counters.ViewCountsNeverOverCount | internal/api/stats.go:179-208 | The report never exceeds the truth, and is exact exactly when nothing of the key was merged meanwhile or is in flight; so whenever no flush overlaps. |
| Counters.WholeFlushBetweenReads | internal/api/stats.go:179-208 | A flush between the two reads hides everything memory held. |
| Counters.OverlappingFlushUnderCounts | internal/api/stats.go:179-208 | A run in which a recorded view is missed. |
| Counters.FailedFlushLosesNothing | internal/api/stats.go:237-246 | A failed flush leaves every count where it was plus what was added meanwhile. |
| Counters.Stats.Record | internal/api/stats.go:214-219 | One lookup more, and one hit more exactly on a hit. |
| Counters.Stats.Flush | internal/api/stats.go:227-247 | An undisturbed flush is the machine's steps; on success memory is empty, on failure unchanged. |
| Counters.Stats.AddDownload | internal/api/stats.go:257-262 | One more for that track on that UTC day and nothing else. |
| Counters.Stats.FlushDownloads | internal/api/stats.go:267-285 | The same for downloads, losing only counts of deleted tracks. |
| Counters.Database.MergeCounters | internal/store/stats.go:34-68 | The loop of upserts, any of which or the commit may fail, adds every delta or changes nothing, and makes no row for a zero. |
| Counters.Database.MergeDownloadDays | internal/store/trending.go:34-71 | The same, adding nothing for a track that is gone and failing none of the others for it. |
| Theme.ColourRoundTrip | internal/api/theme.go:228-285 | To HSL and back is the identity on every colour with channels in [0, 255]. |
| Theme.HslRoundTrip | internal/api/theme.go:228-285 | From HSL and back is the identity wherever hue and saturation mean something, so moving lightness keeps both. |
| Theme.PrimaryHues | internal/api/theme.go:255-285 | Red, green and blue are a third of the circle apart, red at its start. |
| Theme.EndsOfTheScales | internal/api/theme.go:255-285 | No saturation is grey, no lightness black, full lightness white. |
| Theme.FromHslStaysInRange | internal/api/theme.go:255-285 | Every hue, lightness and saturation in [0, 1] gives channels in [0, 255]. |
| Theme.ToHslIsUnit | internal/api/theme.go:228-253 | Every colour's hue, lightness and saturation are in [0, 1]. |
| Theme.LuminanceIsUnit | internal/api/theme.go:209-218 | Relative luminance is in [0, 1]. |
| Theme.PrimariesWeigh | internal/api/theme.go:209-218 | The luminance of pure red, green and blue is 0.2126, 0.7152 and 0.0722. |
| Theme.ChannelsAddUp | internal/api/theme.go:209-218 | The channels add up, each a fixed share of the grey of its strength. |
| Theme.GreysOfEightBits | internal/api/theme.go:209-218 | The luminance of every eight-bit grey, whichever published threshold is meant. |
| Theme.RatiosMultiply | internal/api/theme.go:220-226 | Contrast with black is 1 + 20 times the luminance, is the same both ways, and multiplies along a scale; so it is known for every pair. |
| Theme.BlackTimesWhite | internal/api/theme.go:220-226 | A colour's contrasts with black and white multiply to 21, so one of them is at least 4.5. |
| Theme.PickInk | internal/api/theme.go:172-182 | The first preferred ink that reaches 4.5, else black or white, whichever stands out more; always readable. |
| Theme.InkIsReadable | internal/api/theme.go:168-182 | That leaves no choice, and the ink is readable on every accent. |
| Palettes.InksOfRedAndGreen | internal/api/theme.go:172-226 | White is readable on a red of strength 200; on the green of that strength it is not, and the ink is black. |
| Theme.SearchCoversTheScale | internal/api/theme.go:135-166 | From any start the search comes within half a percent of white, or of black, in steps of half a percent. |
| Theme.TriesKeepHueAndSaturation | internal/api/theme.go:129-166 | Every try is the rounding of a colour with the base's hue and saturation and the lightness tried. |
| Theme.Fit | internal/api/theme.go:135-166 | The first lightness tried that clears the target; if none does, the first that none beats; the base only if none was tried. |
| Palettes.LateAttemptClears | internal/api/theme.go:129-166 | Any lightness within two steps of white, or of black, clears every target on both grounds, whatever the accent. |
| Palettes.TonesFollowTheAccent | internal/api/theme.go:122-127 | Neutrals keep the accent's hue, with full saturation for an accent at least half saturated, in proportion below, and true greys for a grey. |
| Palettes.PaletteFor | internal/api/theme.go:73-127 | For every accent and both schemes: muted text at 4.5, text at 7, the control edge at 3 and the accent at 4.5 each are the first lightness tried that clears that contrast on both grounds, there always is one, and the ink is readable on the accent. |
| Backfill.RunBackfill | cmd/moansubs/stashbox.go:182-243 | Terminates; each candidate is settled once, in order, within 1 + maxRetries attempts, counted once and recorded once outside dry runs; a stop keeps what was settled and says why. |
| Backfill.AskedIff | internal/store/stashbox_sweep.go:19-30 | A release is asked about exactly if it is up, has no id from this box, and got nothing but errors from it. |
| Backfill.NextSweepRetriesErrors | internal/store/stashbox_sweep.go:19-55 | After a full sweep, limited or not, what is due next is exactly what ended in an error and what the limit left over. |
| Backfill.SweepOfErrorsRepeats | internal/store/stashbox_sweep.go:28-31 | Where everything a limited sweep asks about ends in an error, the next one asks the same again. |

## Left out

- Floating point: float64 rounding in the limiter and the colour maths is idealised to reals; integer
  truncation, ceiling and the eight-bit grid are kept. Palettes.PaletteFor does not rest on the last step of any
  search, so not on where sums of 0.005 end.
- RateLimiting.RateBound: charges of the key are not negative, as no caller's are.
- Lookups.HandleLookupBatch: stash_ids entries, the rate-limit charge, the JSON size cap, store errors
  and the hit counter are not modelled.
- Lookups.ScanPhashKey: spaces, signs and underscores that Sscanf would also accept are not modelled;
  no bucket key contains them.
- Row order: a bucket's rows come in table order, since the queries state no order.
- Matching.RankCandidates: the endpoint exact mode asks instead of the buckets; Matching.RowIsJudged says what is made
  of its releases.
- Sorting.SortInPlace: an insertion sort stands for sort.SliceStable; a stable sort's result is unique.
- LookupStashIDs and the endpoint hash: identity hits are given as the releases they resolved to.
- Name matching, the score of a name-only candidate, and the cached server version.
- Parsing, rendering and provenance detection of subtitles: `render`, `generated` and the divergence
  verdict are parameters; validation of an upload's other fields comes before the model.
- Licence, source, provenance JSON, votes, download totals and creation times of tracks; width, height,
  codec, names and stash ids of releases.
- Metadata proposals, works and offsets, and everything account, session and invite handlers do.
- LookupClient.Server.Post: a fixed table and lost answers stand for the endpoint; its 429 replies are not modelled.
- Choosing.StashIdentityCandidates: the reason label shown beside a candidate.
- Catalogue.GetOrCreateReleaseFinds: the stem filled in on an existing row that has none; names are not modelled.
- Imports.Mirror.ImportRelease: stash ids and proposed names of a dumped release.
- Imports.Mirror.ImportTrack: the licence, source and provenance columns of the row.
- Uploads.ChainsStaySound: runs contain no import; SoundImports.ImportedLineKeepsSoundIff says what one keeps.
- `track resanitize`, which rewrites stored bodies, and account deletion, which detaches uploaders.
- Dumps.WriteDump: each of the two walks reads one snapshot; pages within a walk do too.
- Mirroring.MirrorIsACopy: asks that parents have lower ids, texts are fixed by rendering and no two
  visible tracks of a release say the same; for a node that already holds rows of its own, Imports.TakedownsStand,
  Reimport.ImportIsIdempotent, Imports.RefusedIff and Rejoining.LaterRevisionsJoin say what an import does.
- Rejoining.LaterRevisionsJoin: assumes where rows already here that say what a line of the chain says hang;
  Histories.LaterRevisionsRejoin derives it from an earlier import.
- NewerDumps.BooksAreKept: the mirror imports dumps of one node and nothing else, and takes no upload in between.
- Counters.ViewCountsNeverOverCount: the order in which pages are listed, and the stats response cache.
- Theme.PickInk: inks are colours, not hex text; the power function is any map of [0, 1] to itself that
  fixes 1.
- Palettes.PaletteFor: of the power 2.4 only this is used: it lies between the square and the cube on [0, 1]. The
  accent's hex text and its default are not modelled.
- Backfill.RunBackfill: the length of the pauses between attempts, and what one attempt asks the box.
- The 429 back-off loop of the plugin, the sidecar files, and the limiter key's IPv6 mask.

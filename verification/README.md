# Wayfare verification

Wayfare measures remittance corridors on the Stellar network: it prices a transfer at
a ladder of sizes, grades each price against independent reference rates, stores every
run in a hash-chained log, and publishes the history over HTTP. This project models the
parts of it whose correctness is not local to one function, and proves what they promise.

| file | models |
|---|---|
| `SingleFlight.dfy` | the single-flight TTL cache of reference rates, as a step relation over concurrent calls |
| `FetchBounds.dfy` | how many fetches that cache has in flight, and how often it fetches |
| `RunStore.dfy` | the hash-chained run store: appending, opening, rotating, verifying |
| `ChainFile.dfy` | the text of a chain file: line framing, the missing final newline, the line limit, and whole runs read back |
| `Paging.dfy` | reading the history back by cursor, from both store implementations |
| `RateLimiter.dfy` | the per-client token bucket and its idle eviction |
| `GzipWriter.dfy` | the buffering gzip response writer |
| `Corridor.dfy`, `CorridorCost.dfy` | the asset registry, path classification, recursive dependency measurement; what the measurement can cost |
| `Scoring.dfy`, `Reference.dfy` | grading a quote; reconciling two reference providers |
| `Ladder.dfy`, `LadderCurve.dfy` | pricing one size, folding a ladder, its rate curve and marginal costs |
| `Salvage.dfy`, `SalvageDocument.dfy`, `AnyDocument.dfy` | the recovery parser for malformed stellar.toml documents; what it makes of any document at all |
| `ContentHash.dfy` | the length-prefixed preimage of a snapshot's content hash |
| `Concentration.dfy` | the concentration of value across paths, with its rounding |
| `NewtonSqrt.dfy` | the Newton square root behind published deviations |
| `Ordering.dfy`, `Strings.dfy`, `Reals.dfy`, `Results.dfy` | string order and sorting; trimming and byte lengths; signs of real products; option and result types |

SHA-256, the JSON encoder, content sniffing and the snapshot manifest parser are
parameters. What is assumed of a hash is that it is injective and, for the run store,
that it never yields the genesis value (`CollisionFree`); of the JSON encoder that
decoding undoes it and that it writes one line without blanks at its ends (`Lawful`).
Each assumption is a precondition of the lemmas that need it. Providers, pathfinders and
clocks answer arbitrarily. The cache's clock, read under its mutex, does not run
backwards. The limiter's results that say `Monotone` further assume that calls read the
clock in the order in which they take the mutex; the others hold for stamps in any order.

## Where the code and its documentation part

The model follows the code in each case, and the lemma named says exactly when the
documented property holds.

- Invalidating a pair while it is being fetched lets a second fetch start: fetches in
  flight are bounded by one plus the number of invalidations, not by one
  (`FetchesInFlightAreBounded`, `InvalidateBreaksSingleFlight`).
- The limiter reads the clock before it takes its mutex (server/ratelimit.go:84-86), so
  overlapping calls can be judged out of the order of their stamps. A late, earlier stamp
  sets the bucket's time back, and the same span is earned again: under every
  configuration some run within one span admits a client more than burst plus rate times
  the span (`OutOfOrderBreaksTheBudget`). What holds in any order is the same bound with
  the steps forward along the stamps in place of the elapsed time (`StepBound`), without
  eviction along the client's own stamps alone (`OwnStepsPay`); with eviction those are
  not enough under any configuration (`LateStampsShowEviction`). When stamps come in
  order the documented bound follows (`WindowBound`).
- The limiter calls the wait it returns exact. It is cut to whole nanoseconds, so it is
  exact only when there was nothing to cut (`DenialWait`). That holds up to the moment
  the client could be forgotten, and no further: beyond it a crowd of newcomers gets it
  admitted early (`DenialWaitThreshold`). Every denial stays within that moment exactly
  when the rate earns a token in ten minutes and a nanosecond (`WaitsAreShortExactly`).
  A client that honours `Retry-After` can be refused once more, exactly when the cut left a whole number of
  seconds (`RetryAfterIsEnough`, `RetryAfterCanFallShort`).
- Evicting idle clients is, with stamps in order, unobservable exactly when the burst is
  earned back within ten minutes and a nanosecond; otherwise a returning client gets its
  burst twice (`EvictionThreshold`).
- A record whose line reaches 8 MiB is written but makes the whole chain unreadable
  (`AppendExtendsParse`, `LongLineIsFatal`).
- The gzip writer looks at Content-Encoding before it looks at its own state, and it is
  what set that header: any write after compression has started is sent raw into the
  gzip stream. So how a handler cuts its body into writes does show (`ChunkingShows`),
  and so does the guessed content type (`ContentTypeFollowsFirstWrites`). A flush before
  anything was written sends a header the writer knows nothing of (`HeaderGoesOutOnce`):
  status 200, whatever status is set later, and no Content-Encoding (`HeaderSent`). The body
  survives exactly when nothing is written after compression has begun and, if such an
  early flush came first, compression never begins (`BodySurvives`).
- `reconcile` is said not to depend on which provider is primary. That holds unless the
  two as-of times are too far apart for a 64-bit duration (`AgreementIgnoresOrder`).
  When the secondary is scored, the fetch time published is still the primary's
  (`FetchTimeMatchesScored`, `FetchTimeCanBeTheOthers`).
- Salvaging treats backslashes as escapes inside single quotes too, so a TOML literal
  string is read right exactly when it does not end in an odd run of them
  (`LiteralIsRead`).
- Loading undoes a CRLF checkout so that hashes match (snapshot/snapshot.go:228-230).
  That covers the response bodies (`CheckoutKeepsHash`), but the manifest is hashed as it is
  (snapshot/snapshot.go:249-256), and it is written with a final newline
  (snapshot/record.go:242-247). A checkout of a whole artifact therefore loads, and keeps
  its content hash exactly when its manifest has no newline at all (`WholeCheckoutIsRefused`,
  `CheckoutOfManifestShows`). `.gitattributes` exempts test data only.
- A rate is documented as not scorable when the two providers behind it were too far
  apart. When such a composite is itself the only survivor of another, that is dropped
  and the rate is scored, exactly when its primary's mid is not zero
  (`SurvivingCompositeForgets`).
- A hop counts as fiat by the last entry for its key, `IsFiatToken` by any entry. They
  agree unless USDC, the one token that may go without a peg, is listed twice and only
  an earlier entry gives it one; validation lets such a registry through
  (`FiatHopIsFiatToken`).
- Two as-of times 292 years apart are not stale when the secondary's is the later one
  (`Reconcile`).
- A comment bounds the calls of `measureChain` by the number of dependencies times the
  depth cap. That holds for every pathfinder as long as at most three fiat tokens besides
  the destination are registered (`CommentHoldsUpToThree`). From four on it fails: a
  pathfinder that routes everything through every token costs m + m(m-1) + ... calls,
  five terms deep, which is the worst there is (`MeasureTangled`, `FanAgainstComment`,
  `CallsAreBounded`); four tokens cost 64 calls, not 20 (`FourTokens`).

## Model

| member | source | states |
|---|---|---|
| SingleFlight.RunKeepsInv | refrate/cached.go:60-156 | in every interleaving of calls, clock ticks, cancellations and invalidations: a completed entry in the map holds a success, each in-flight entry has one live owner, and every caller's position agrees with its entry |
| SingleFlight.CompletedEntriesAreImmutable | refrate/cached.go:107-154 | no step rewrites an entry once completed, so the reads made after the mutex is released are safe |
| SingleFlight.ServedRateIsOwnOrFresh | refrate/cached.go:107-154 | a returned rate was fetched for that pair and is the caller's own fetch or younger than the TTL |
| SingleFlight.ExpiredAndFailingIsAnError | refrate/cached.go:133-152 | with nothing fresh and no success since, a call never returns a cached rate, and with caching on one that was not cancelled answers with the failure of its own fetch |
| SingleFlight.CallAnswersWhatItWasTold | refrate/cached.go:87-156 | in every interleaving a finished call answers with an error iff its own fetch failed, with an uncached rate iff caching is off and its own fetch gave it, with a cancellation iff it gave up; and with the rate of its own fetch if that succeeded |
| SingleFlight.ServedRateWasFetchedThen | refrate/cached.go:98-154 | a served rate was given by the provider to a call for the same pair before that call published it, and its fetch time is the moment it did; a call starts when it is made |
| SingleFlight.EveryStepIsProgress | refrate/cached.go:100-155 | every step a call takes lowers a measure that only a new call raises: no retry loop is endless |
| SingleFlight.NeverStuck | refrate/cached.go:115-148 | every unfinished call, or the owner of the entry it waits on, has an enabled step |
| SingleFlight.CallsTerminate | refrate/cached.go:100-155 | once calls stop arriving the remaining steps are bounded, quadratically in the number of calls |
| FetchBounds.FetchesInFlightAreBounded | refrate/cached.go:128-149 | fetches in flight for a pair never exceed one plus its invalidations |
| FetchBounds.SingleFlightWithoutInvalidate | refrate/cached.go:115-131 | without invalidation at most one fetch per pair is in flight |
| FetchBounds.InvalidateBreaksSingleFlight | refrate/cached.go:174-180 | the bound is met for every n: a run with n invalidations of a pair and n + 1 fetches of it in flight |
| FetchBounds.FetchRateIsBounded | refrate/cached.go:98-155 | without invalidation each claim comes at least TTL after every earlier success, so k successes in a window T imply k <= 1 + T/TTL |
| RunStore.VerifyChain | runstore/file.go:148-163 | accepts exactly the chained lists, and otherwise names the first record that fails and whether its contents or its link do |
| RunStore.FinalHashDeterminesChain | runstore/file.go:148-163 | two accepted lists with the same final hash are equal, length included |
| RunStore.AlteredRecordIsEvident | runstore/runstore.go:205-254 | altering one record before the last fails verification at it, or at its successor exactly when it was relinked and re-sealed |
| RunStore.ResealIsChained | runstore/file.go:514-535 | re-sealing any window gives a verifying chain with the same contents |
| RunStore.ContentsDetermineChain | runstore/file.go:148-163 | a chain is determined by its contents, hash fields aside |
| RunStore.RotatedKeepsWindow | runstore/file.go:510-537 | rotation keeps the newest min(length, n) records, differing in their hash fields only |
| RunStore.EarlierRotationLeavesNoTrace | runstore/file.go:471-552 | rotation is idempotent and absorbs any earlier one with a ceiling at least as high, hashes included |
| RunStore.FileStore.Open | runstore/file.go:49-76 | opens exactly when every chain verifies, indexing each file's last record |
| RunStore.FileStore.Append | runstore/file.go:166-258 | numbers, links, seals and stores the record, moving the index to it; the caller's fields are kept, nil lists become empty, the time is cut to its second |
| RunStore.FileStore.ResealWindow | runstore/file.go:522-532 | the in-place pass over the window equals re-sealing it from the genesis hash |
| RunStore.FileStore.RotateCorridor | runstore/file.go:489-550 | one corridor: a chain that does not verify is refused and left alone, one within the ceiling untouched, the rest rotated and reported |
| RunStore.FileStore.Rotate | runstore/file.go:471-552 | succeeds exactly when every chain verifies; the whole new state; on failure exactly the corridors below the first bad one have been rotated; what does not verify is never rewritten |
| RunStore.EveryRunIsFaithful | runstore/file.go:166-258 | after any run of appends, rotations and reopenings each file verifies, holds a suffix of everything ever appended numbered by its global index, and agrees with the index |
| RunStore.StoredAsHanded | runstore/file.go:166-258 | after any run a corridor's file holds the newest of the records handed in for it, in order and under their numbers, each keeping what the caller gave, with empty lists for nil ones and the second of the time given, or of the clock if none was |
| RunStore.SpellingsOfOneCorridor | runstore/file.go:178-181 | two spellings name one corridor iff they differ in the case of ASCII letters only |
| RunStore.ReopenIsIdentity | runstore/file.go:49-76 | reopening after any run rebuilds the very same state |
| RunStore.WindowNeverShorter | runstore/file.go:510-515 | rotations with ceilings of at least n never leave fewer than min(total, n) records |
| RunStore.RotationForgetsEarlierRotations | runstore/file.go:471-552 | after any run with ceilings of at least n, a rotation at n leaves exactly the newest min(total, n) records ever appended |
| ChainFile.ReadAll | runstore/file.go:83-127 | line by line, blank lines skipped, the first bad or overlong line an error |
| ChainFile.AppendLine | runstore/file.go:210-247 | a separator when the last line lacks its newline, then the record's line |
| ChainFile.WriteAll | runstore/file.go:560-584 | one line a record |
| ChainFile.ParseConcat | runstore/file.go:83-127 | text that ends its last line parses independently of what follows |
| ChainFile.LineInFile | runstore/file.go:83-127 | wherever it stands, a line of 8 MiB, one that does not decode or one of an unknown version makes the file unreadable, a blank one does nothing, any other adds its record in its place |
| ChainFile.FinalNewlineIsOptional | runstore/file.go:210-231 | a missing final newline changes nothing |
| ChainFile.AppendExtendsParse | runstore/file.go:210-247 | a file that parses to L parses to L and the new record after an append, exactly when the record is loadable and its line is under 8 MiB |
| ChainFile.WriteThenRead | runstore/file.go:560-584 | writing then reading is the identity under the same two limits |
| ChainFile.AppendedRecordsAreLoadable | runstore/file.go:166-209 | every record `Append` writes has a version the reader accepts |
| ChainFile.FilesReadBack | runstore/file.go:83-258 | after any run of appends, rotations and reopenings whose lines stay under the limit, the text of every file reads back as the records the run left |
| ChainFile.LongLineIsFatal | runstore/file.go:83-116 | and the next record makes its file unreadable exactly when its line reaches 8 MiB |
| Paging.RecentBefore | runstore/file.go:273-304 | the newest n records below the cursor, newest first |
| Paging.RecentFrom | runstore/file.go:273-304 | the writable store answers so from its file |
| Paging.ReadOnly.OpenFS | runstore/fsstore.go:34-62 | loads exactly when every chain verifies |
| Paging.ReadOnly.RecentOf | runstore/fsstore.go:126-148 | the read-only store answers by the same function of its records |
| Paging.CutPage | server/trend.go:404-418 | the page and cursor cut from limit + 1 records |
| Paging.ReachableStoresAreNumbered | runstore/file.go:166-258 | in every reachable store sequence numbers are positive and strictly increasing |
| Paging.PageIsStretch | server/trend.go:396-418 | for any cursor, stored or not, a page is the stretch of at most limit runs before it, oldest first, and its own cursor names its first run |
| Paging.PagesAreFull | server/trend.go:404-418 | every page with a cursor is full |
| Paging.CrawlVisitsEveryRunOnce | server/trend.go:396-418 | following the cursor ends, and the pages in reverse are the whole history, each run once |
| Paging.CursorsSurviveAppends | server/trend.go:396-418 | runs not below the cursor do not move the page it leads to |
| Paging.PageIsHistory | server/trend.go:396-418 | in every reachable store, for any cursor, a page is the stretch of the corridor's whole history just before the cursor, cut where rotation has cut |
| Paging.CursorLeadsTo | server/trend.go:396-418 | after any further appends, rotations and reopenings a cursor leads to the runs it would have led to, without those rotated out since |
| Paging.PagesSurviveAppends | server/trend.go:396-418 | to the very same page, hashes included, if none has been |
| Paging.VisitIsContiguous | server/trend.go:396-418 | a client following cursors while the store runs on in any way sees one stretch of the history, none twice and none skipped; when no cursor is left, it has been shown every run before its first cursor that is still stored |
| Paging.ReportMeans | runstore/file.go:489-550 | a rotation's report against the history: how many runs were there and are left, the numbers dropped, which follow on those dropped before, and that of the oldest kept |
| RateLimiter.Limiter.EvictLocked | server/ratelimit.go:120-129 | below the threshold nothing, from it on exactly the buckets idle past ten minutes are dropped |
| RateLimiter.Limiter.Allow | server/ratelimit.go:80-113 | the decision, the wait and the new buckets |
| RateLimiter.AdmissionsArePaidFor | server/ratelimit.go:96-107 | in whatever order stamps come, a client's admissions plus what it has left never exceed what it had plus what the steps forward along the stamps earned |
| RateLimiter.ForwardIs | server/ratelimit.go:96-104 | those steps are the elapsed time plus whatever the stamps went back, so in order they are the elapsed time |
| RateLimiter.OwnStepsPay | server/ratelimit.go:96-107 | without eviction the steps forward between the client's own consecutive stamps suffice |
| RateLimiter.StepBound | server/ratelimit.go:80-129 | in any stretch of any run over any keys, stamps in any order, one client's admissions are at most Burst + Rate times the steps forward, when eviction forgets no more than a full bucket |
| RateLimiter.OutOfOrderBreaksTheBudget | server/ratelimit.go:84-107 | for every configuration, a run with all stamps in one span that admits more than Burst + Rate times the span |
| RateLimiter.LateStampsShowEviction | server/ratelimit.go:84-129 | for every configuration, a run with late stamps in which a client whose own stamps stand still has its burst twice, and which eviction changes |
| RateLimiter.WindowBound | server/ratelimit.go:80-129 | with stamps in order, in any stretch of any run over any keys, one client's admissions are at most Burst + Rate times the time from the stretch's first request to its last |
| RateLimiter.EqualLevelsDecideAlike | server/ratelimit.go:120-129 | with stamps in order, limiters that agree on every client's level decide alike, whether or not they evict |
| RateLimiter.EvictionThreshold | server/ratelimit.go:115-140 | with stamps in order eviction is unobservable, and the bound by time holds over every stretch of every run, and with stamps in any order the bound by steps forward does, each if and only if Burst <= Rate times ten minutes and a nanosecond |
| RateLimiter.BalanceOnReturn | server/ratelimit.go:80-129 | whatever others do, a denied client returns to what it had and earned, or to a full bucket after more than ten minutes |
| RateLimiter.DenialWait | server/ratelimit.go:76-113 | if the need ends before the client could be forgotten, then whatever others do it is next admitted exactly from the real need on; the wait is its floor, exact if and only if nothing was cut |
| RateLimiter.DenialWaitThreshold | server/ratelimit.go:76-140 | and that condition is exact: beyond it some run of other clients gets it admitted early |
| RateLimiter.WaitsAreShortExactly | server/ratelimit.go:109-140 | every denial meets the condition if and only if the rate earns a token in ten minutes and a nanosecond, whatever the burst |
| RateLimiter.CrowdSweeps | server/ratelimit.go:120-129 | from any state, newcomers at one instant can sweep an idle client out |
| RateLimiter.FewAreNeverForgotten | server/ratelimit.go:115-123 | among fewer than 4096 clients eviction is unobservable under every configuration |
| RateLimiter.RetryAfterIsEnough | server/ratelimit.go:170-179 | the header's seconds suffice if and only if the wait is not a cut whole number of seconds |
| RateLimiter.RetryAfterCanFallShort | server/ratelimit.go:170-179 | a limiter and a denial for which they do not |
| GzipWriter.GzipResponseWriter.WriteHeader | server/gzip.go:108-117 | remembers the status, or sends it at once when nothing will be compressed |
| GzipWriter.GzipResponseWriter.StartGzipAndWrite | server/gzip.go:153-186 | the header changes, the header, then the buffered and the new bytes |
| GzipWriter.GzipResponseWriter.Write | server/gzip.go:119-151 | which of the six branches a write takes and what it sends |
| GzipWriter.GzipResponseWriter.Flush | server/gzip.go:210-222 | a flush starts compression of what is buffered, then reaches the connection |
| GzipWriter.GzipResponseWriter.Close | server/gzip.go:188-206 | ends the gzip stream, or sends header and buffer as they are |
| GzipWriter.RunKeepsPhase | server/gzip.go:108-222 | after any run without an early flush the writer is bypassing, buffering or compressing, and what it has sent is a function of status, bytes and flushes |
| GzipWriter.RunKeepsEarlyPhase | server/gzip.go:108-222 | after any run with an early flush: the header is out without Content-Encoding, and what is buffered, compressed or spoiled is a function of the bytes and flushes |
| GzipWriter.HeaderGoesOutOnce | server/gzip.go:108-222 | the header is sent once, by the writer and before any body byte, if and only if no flush comes before there is anything to send |
| GzipWriter.HeaderSent | server/gzip.go:119-186 | the header sent; it is changed, to gzip and without a length, iff the handler set no encoding, the status is neither 204 nor 304, and 512 bytes were written or a flush forced it; after a flush before anything was written, status 200 and the handler's own headers |
| GzipWriter.FlushDelivers | server/gzip.go:210-222 | once a flush returns, every byte written so far has arrived, compressed or not, unless one came too late to be decoded or the flush came before anything was written |
| GzipWriter.LaterStatusIsIgnored | server/gzip.go:108-117 | after a first status every later one changes nothing, whatever else the handler does |
| GzipWriter.BodySurvives | server/gzip.go:119-206 | the decoded body is all that was written if and only if nothing is written after compression began and, after a flush before anything was written, compression never begins; otherwise it does not decode |
| GzipWriter.ChunkingShows | server/gzip.go:134-149 | the same bytes in three writes cannot be decoded and in one write can |
| GzipWriter.ContentTypeFollowsFirstWrites | server/gzip.go:156-162 | the guessed type is that of the buffered bytes alone |
| GzipWriter.CutDoesNotMatterOtherwise | server/gzip.go:108-206 | without flushes or late writes, status and body determine the response however cut, the guessed type aside, and it is compressed exactly from 512 bytes on |
| Corridor.KeyIsInjective | asset/known.go:303-317 | a code:issuer key determines both |
| Strings.TrimmedAway | asset/known.go:182-206 | trimming leaves nothing of a field exactly when it is all blanks, which is how validity is stated below |
| Corridor.ValidEntryMeans | asset/known.go:182-213 | an entry is valid iff each required text has a character that is not a blank, the peg of all but USDC included |
| Corridor.ValidateRegistry | asset/known.go:178-337 | accepts exactly the registries of entries with every required field and one issuer a code |
| Corridor.Index | asset/known.go:303-317 | every entry is found under its key, of several the last; and the keys some entry gives a peg |
| Corridor.HopMeans | asset/known.go:483-499 | from the list of entries: fiat iff a Stellar token's last entry gives a peg, a bridge iff native or its last entry gives none, unknown iff no entry names it |
| Corridor.FiatHopIsFiatToken | asset/known.go:434-499 | a hop counts as fiat iff some entry gives it a peg, unless it is USDC and its last entry gives none |
| Corridor.CodeNamesFiatToken | asset/known.go:325-337 | in a validated registry fiat tokens with the same code are the same asset |
| Corridor.ClassifyPath | route/route.go:649-671 | one path's fiat and unknown hops, and whether it has none of the first |
| Corridor.Classify | route/route.go:640-691 | from the paths and the list of entries: NO-MARKET iff no path, DIRECT iff some path has no hop through a registered fiat token other than the destination, DERIVATIVE iff every path has one; the dependencies are exactly these hops, strictly ascending; the unknown hops are exactly the unlisted ones |
| Corridor.MeasureChain | route/route.go:713-784 | terminates for every pathfinder; every node of the result is explained by the pathfinder's answers; the calls made, in order |
| Corridor.EveryNodeIsAccountedFor | route/route.go:721-778 | depth at most 5, "depth cap" exactly at 5, "cycle" exactly for assets on their own way down, measured exactly for the rest when answered, with the integrity that classification means |
| Corridor.MeasuredAreDistinct | route/route.go:735-750 | measured assets on a way down are pairwise distinct and never the destination |
| Corridor.TreeIsDetermined | route/route.go:713-784 | the answers determine the tree |
| Corridor.ChainDepth | route/route.go:787-796 | the length of the longest way down |
| Corridor.AllMeasured | route/route.go:799-809 | true exactly when every node reachable from the roots is measured |
| Corridor.ChainIsShallow | route/route.go:826-829 | a measured chain is at most six deep |
| Corridor.CallsAreDistinct | route/route.go:752-759 | pathfinder calls match distinct repetition-free sequences of at most five assets, none the destination |
| Corridor.CallsAreBounded | route/route.go:704-712 | the number of calls is bounded by the number of fiat tokens alone: m + m(m-1) + ... for five terms |
| CorridorCost.MeasureTangled | route/route.go:713-784 | that bound is met: with a pathfinder that routes everything through every token, measuring them makes exactly that many calls |
| CorridorCost.FanAgainstComment | route/route.go:704-712 | the worst case is within dependencies times depth if and only if there are at most three tokens; four cost 64 calls and seven 3619 |
| CorridorCost.CommentHoldsUpToThree | route/route.go:704-712 | with at most three fiat tokens besides the destination the comment's bound holds for every pathfinder |
| CorridorCost.FourTokens | route/route.go:704-712 | a registry of four tokens on which it fails |
| Scoring.Quote.Score | route/route.go:271-297 | rate, loss, loss amount and verdict; ungraded when mid or amount is zero |
| Scoring.RateIsReceivedPerSent | route/route.go:271-297 | the effective rate times the amount sent is the amount received; without a mid or an amount nothing is graded and earlier figures stay |
| Scoring.LossMeans | route/route.go:271-297 | the loss is at most a percentage iff at least the rest of fair value arrives, for every percentage |
| Scoring.VerdictMeans | route/route.go:99-110 | GOOD, at least FAIR and acceptable mean that at least 97, 92 and 80 percent of fair value arrives |
| Scoring.LossAmountIsLossPct | route/route.go:241-250 | the loss amount is the loss percentage of the amount valued at mid |
| Scoring.LargerMidLosesMore | route/route.go:271-297 | loss and verdict grow with the mid |
| Reference.Reconcile | refrate/cross.go:392-463 | when each of the four verdicts is given, in terms of the mids and the as-of times: more than ten percent apart or a zero mid, else more than 48 hours apart, else more than two percent apart; when stale the fresher is scored, on a disagreement the larger, otherwise the primary; every field of the result |
| Reference.SurvivorSpeaksForItself | refrate/cross.go:366-389 | the uncorroborated rate depends on the survivor's own figures only, keeps them, carries no cross-check, and is scorable exactly when its mid is not zero |
| Reference.SurvivingCompositeForgets | refrate/cross.go:354-389 | a surviving composite that refused to score becomes scorable exactly when its primary's mid is not zero; otherwise it becomes the provider it scored |
| Reference.RateCell.AttributeDisagreement | refrate/cross.go:267-322 | writes the attribution and nothing else |
| Reference.CrossRate | refrate/cross.go:220-262 | an answer unless every configured provider failed, and which of the three combinations it is |
| Reference.AgreementIgnoresOrder | refrate/cross.go:392-476 | swapping providers keeps divergence, and agreement if and only if the as-of gap fits a duration or the mids malfunction |
| Reference.ScoredIgnoresOrder | refrate/cross.go:429-457 | and the scored mid on a disagreement or staleness |
| Reference.DivergenceMeans | refrate/cross.go:409-415 | the divergence exceeds a percentage exactly when both mids are positive and the larger exceeds the smaller by it |
| Reference.DisagreementIsScoredConservatively | refrate/cross.go:445-457 | on a disagreement the larger mid is scored, so for every quote the loss is at least, and the verdict no better than, that under the other |
| Reference.NeverBlended | refrate/cross.go:174-188 | mid, source and as-of time come from one provider, and the secondary ones from the other |
| Reference.DiagnosticDecidesNothing | refrate/cross.go:258-270 | a diagnostic provider changes only the diagnostic, and speaks exactly on a disagreement |
| Reference.AttributionIgnoresOrder | refrate/cross.go:297-320 | the side named does not depend on which is primary |
| Reference.ThirdNamesExactly | refrate/cross.go:297-320 | a third mid names the larger of two positive ones iff it lies below their geometric mean, neither at it, the smaller above it or when negative; its mid, time and source are carried |
| Reference.LowThirdNamesTheScored | refrate/cross.go:297-320 | a positive third mid not above the smaller of two names the scored one |
| Reference.ScorableExactly | refrate/cross.go:366-427 | when an answer may be scored, and that its mid is then not zero |
| Reference.FetchTimeMatchesScored | refrate/cross.go:392-457 | the fetch time is the scored provider's exactly when it was primary or the two are equal |
| Reference.FetchTimeCanBeTheOthers | refrate/cross.go:445-452 | two rates for which it is not |
| Ladder.PriceSize | route/route.go:387-536 | one size: errors, structure from all paths, price from the best, a grade only if the reference may be scored, a recommendation only if acceptable |
| Ladder.QuoteMeans | route/route.go:431-536 | a quote is of the best path, its rate times the amount sent is what arrives, and under a reference that may not be scored it carries no loss and no verdict, and nothing is recommended |
| Ladder.LadderResult.Summarise | route/ladder.go:414-529 | NO-MARKET iff every rung answered so, DIRECT iff some rung did, DERIVATIVE iff some rung did and none was DIRECT; dependencies, chain, reference and figures as stated by the rows below |
| Ladder.RunLadder | route/ladder.go:304-355 | sizes priced and reported in ascending order, then summarised |
| Ladder.Absorb | route/ladder.go:424-499 | one rung into the running summary |
| Ladder.BestNodeMeans | route/ladder.go:452-465 | a dependency's node is kept iff some rung has it, is measured iff some rung measured it, and is the first such |
| Ladder.ListCorridor | route/ladder.go:506-524 | dependencies and chain name the same assets, strictly sorted by code |
| Ladder.ChainKeepsMeasurements | route/ladder.go:98-103 | a node of the ladder's chain is measured iff some rung measured that asset |
| Ladder.IntegrityIsOfTheSet | route/ladder.go:501-529 | order and repetition of rungs do not matter to the integrity |
| Ladder.UnknownExactly | route/ladder.go:73-75 | UNKNOWN iff no size was priced and some size was not measured |
| Ladder.NotePrice | route/ladder.go:472-499 | floor, worst loss and recommendation after one more rung |
| Ladder.FloorAndWorst | route/ladder.go:484-491 | the floor is the loss at the smallest priced size, the worst loss the maximum and at the largest such size, and floor <= worst |
| Ladder.RecommendsExactly | route/ladder.go:493-499 | a recommendation iff some size is acceptable, the one at the smallest, losing at most 20 percent against a usable reference |
| Ladder.AcceptableMeans | route/route.go:465-474 | an acceptable quote was scored and delivers at least four fifths of fair value |
| Ladder.MalfunctionRecommendsNothing | route/route.go:412-414 | with every reference a malfunction nothing is recommended |
| Ladder.PickedReferenceMeans | route/ladder.go:438-443 | the reference shown is the first with a nonzero mid, or the last if none has one |
| Ladder.Failed | route/ladder.go:238-248 | every size unmeasured |
| Ladder.PartiallyFailed | route/ladder.go:258-269 | some size measured and some not |
| LadderCurve.BuildCurve | route/ladder.go:166-189 | a curve iff two sizes were priced; a point a rung, none interpolated; non-monotonic iff any larger size got a better rate than any smaller one |
| LadderCurve.PointMeans | route/ladder.go:166-189 | a point has a rate iff its size was priced, and that rate times the size is what arrived |
| LadderCurve.ComputeMarginalCosts | route/ladder.go:371-412 | the costs between neighbouring priced sizes and their direction |
| LadderCurve.MarginalCostsTelescope | route/ladder.go:368-389 | however many sizes failed in between, they add up to last cost minus first |
| LadderCurve.MarginalCostsSpan | route/ladder.go:368-389 | in terms of the rungs: all marginal costs together are what the last priced quote gave up against mid, over what the first did |
| Salvage.Unquote | anchor/salvage.go:126-159 | the scan and the two passes compute the specified reading |
| Salvage.UnescapeUndoesEscape | anchor/salvage.go:145-152 | the two sequential replacements undo escaping for every string |
| Salvage.QuotedIsRead | anchor/salvage.go:126-159 | a basic string is read back whatever follows its closing quote |
| Salvage.LiteralIsRead | anchor/salvage.go:138-144 | a literal string is read back if and only if it does not end in an odd run of backslashes |
| Salvage.UnclosedIsTheRest | anchor/salvage.go:156-159 | after a quote that is never closed the rest of the line is the value |
| SalvageDocument.SalvageTOML | anchor/salvage.go:39-118 | the line loop with its block state is the fold of the lines' meanings |
| SalvageDocument.KeyValueOf | anchor/salvage.go:33 | what the assignment pattern extracts, for any spacing |
| SalvageDocument.LineIsRead | anchor/salvage.go:51-71 | every legal line, however indented and whatever trails its value, is read for what it means |
| SalvageDocument.DocumentIsRead | anchor/salvage.go:39-118 | a document of legal lines is read for what they say in order |
| SalvageDocument.SalvageUndoesPrinting | anchor/salvage.go:39-118 | any document of legal lines that says t gives back t |
| SalvageDocument.RenderedIsSalvaged | anchor/salvage.go:39-118 | and every t without line breaks in its values has such a document, for every layout of its lines |
| AnyDocument.SalvagedIs | anchor/salvage.go:39-118 | for any text whatever: each top-level field is what the last line outside all currency blocks sets it to; there is a currency for each line that opens a block, holding what the last line in that block says under each key; any header ends a block |
| ContentHash.FramingIsInjective | snapshot/snapshot.go:288-291 | a framed list of parts can be taken apart in one way only |
| ContentHash.Load | snapshot/snapshot.go:194-241 | loads exactly when the manifest is accepted and every body is there and matches its hash; the bodies by key |
| ContentHash.ContentHash | snapshot/snapshot.go:244-267 | the hash of the tag and the framed parts |
| ContentHash.PreimageOfOne | snapshot/snapshot.go:244-291 | the bytes hashed for an artifact of one interaction |
| ContentHash.ListingOrderDoesNotMatter | snapshot/snapshot.go:258-266 | what is hashed after the manifest does not depend on the order in which it lists its interactions |
| ContentHash.HashPinsParts | snapshot/snapshot.go:244-267 | equal content hashes iff the same manifest bytes and the same names and bodies in file order |
| ContentHash.HashPinsSnapshot | snapshot/snapshot.go:194-267 | equal content hashes iff equal manifests, and then every body any interaction names is equal too, even under a shared key |
| ContentHash.NormaliseUndoesCheckout | snapshot/snapshot.go:228-230 | reading a CRLF checkout of a body gives the body recorded |
| ContentHash.CheckoutKeepsHash | snapshot/snapshot.go:228-230 | a checkout that changes the line ends of response files alone loads and hashes as before |
| ContentHash.CheckoutOfManifestShows | snapshot/snapshot.go:244-256 | one that changes the manifest's too, if it loads, keeps the hash if and only if the manifest has no newline |
| ContentHash.WholeCheckoutIsRefused | snapshot/snapshot.go:194-267 | a CRLF checkout of a whole artifact whose manifest decodes the same loads, and keeps the hash under the same condition |
| Concentration.ConcentrationOfPaths | checks/metric_fragmentation.go:112-140 | an error for no values or at the first that is not positive; otherwise count, sum, maximum and the two rounded ratios |
| Concentration.CauchySchwarz | checks/metric_fragmentation.go:117-131 | the square of the sum is at most n times the sum of squares |
| Concentration.HhiBounds | checks/metric_fragmentation.go:84-93 | 1/n <= HHI <= TopShare <= 1 and TopShare squared <= HHI |
| Concentration.HhiIsOfShares | checks/metric_fragmentation.go:84-93 | the one division of exact sums is the sum of the squared shares, and the shares sum to one |
| Concentration.RoundIsNearest | checks/metric_fragmentation.go:136-137 | rounding moves a figure by at most half a unit of the sixteenth place, a tie up |
| Concentration.PublishedFigures | runstore/fragmentation.go:159-172 | rounding keeps the order; the stored figure is accepted iff HHI is at least half a unit of the sixteenth place, so always for n up to 10^16 |
| Concentration.IdentityIsInjective | checks/metric_fragmentation.go:292-303 | path identities are equal iff the paths go through the same assets in order |
| Concentration.DistinctPathValues | checks/metric_fragmentation.go:270-288 | an error iff one path has two amounts; otherwise one amount a distinct path in order of first occurrence, and how many were dropped |
| Concentration.FirstIdsInOrder | checks/metric_fragmentation.go:270-288 | a path listed first of its identity stands right after the identities listed before it |
| Concentration.SumsIgnoreOrder | checks/metric_fragmentation.go:117-131 | the sums depend on the values only, not on their order |
| Concentration.FiguresIgnoreOrderAndRepeats | checks/metric_fragmentation.go:270-288 | reordering or repeating paths changes no figure |
| Concentration.ContradictionIgnoresOrder | checks/metric_fragmentation.go:270-288 | nor whether a response contradicts itself |
| NewtonSqrt.StepSquared | analysis/analysis.go:381-382 | an iterate's square exceeds d by the square of the step to it |
| NewtonSqrt.ExcessSquares | analysis/analysis.go:381-382 | so the error squares: the next excess times four times the guess's square is the square of this one |
| NewtonSqrt.StepsHalve | analysis/analysis.go:381-382 | every step is at most half the one before |
| NewtonSqrt.ExcessIsRatio | analysis/analysis.go:381-382 | the excess relative to d follows one recurrence r*r / (4(1+r)), whatever d is |
| NewtonSqrt.ReachingIsDownward | analysis/analysis.go:369-389 | the inputs whose tolerance exit is reached within the 50 rounds are those below one threshold |
| NewtonSqrt.ReachedOrMissed | analysis/analysis.go:369-389 | it is reached for every 0 < d <= 1.42808 * 10^27 and for no d >= 1.4281 * 10^27, about 2^90.2 |
| NewtonSqrt.ExcessStaysLarge | analysis/analysis.go:380-386 | for d >= 2^101 the square is still off by a seventh of d after 50 rounds |
| NewtonSqrt.DecimalSqrt | analysis/analysis.go:369-389 | never below the root; its square within the squared tolerance exactly for the inputs that reach it; for every d within that or what 49 halvings of the first step leave |
| Ordering.LessMeans | route/route.go:676-690 | one string is below another iff, where they first differ, it ends or has the smaller character |
| Ordering.AscendingIsUnique | route/route.go:676-690 | a set with distinct keys has one ascending listing, so sorting map values is determinate |
| Ordering.SortOfSorted | route/route.go:780-782 | sorting what is already in order changes nothing |

## Left out

- Contexts and cancellation other than a cache call giving up its wait; nil receivers and nil records.
- HTTP transport, provider decoding and rate-limit errors: each upstream is an arbitrary outcome.
- Real SHA-256, JSON, gzip and content sniffing: parameters with the laws named above, or symbolic chunks.
- Decimal division to sixteen places and floating point: exact reals, except the sixteen-place rounding in `Concentration.dfy` and the cut to nanoseconds in `RateLimiter.dfy`; in particular `decimalSqrt` divides exactly here.
- A cache clock that runs backwards.
- RateLimiter.WindowBound: like the results on eviction and on waits, stated for calls that read the clock in the order in which they take the mutex; `RateLimiter.StepBound` is what holds otherwise.
- A limiter's wait too long for a 64-bit duration, which needs a rate below one token in 292 years.
- NewtonSqrt.DecimalSqrt: the threshold of the tolerance is enclosed to five digits, not named.
- SingleFlight.RunKeepsInv: a panic in the wrapped provider, which would leave an entry in flight for good, is not modelled.
- RunStore.FileStore.Append: partial writes inside a record and failed syncs are not modelled, because the store claims no recovery there; the index keeps a copy of the record, so a caller that changes the record it passed is not modelled either.
- Upper-casing of corridor names outside ASCII.
- Summaries, movements, alerts and statistics derived from the stored history.
- Parsing of the trend endpoint's limit and cursor parameters; a limit of at least one is assumed.
- GzipWriter.BodySurvives: headers changed by the handler mid-body and informational (1xx) statuses are not modelled; bytes written under a status that allows no body are handed down as the writer does, without the server's refusal of them.
- Negotiation of gzip and the Vary header.
- Corridor.Classify: the order of unknown hops that share a code follows arrival here and is unspecified in the source.
- Notes, warnings, findings, path descriptions, the slippage probe, the parallel reference and the cost decomposition of a quote.
- Ladder.PriceSize: an engine without a pathfinder is modelled as one whose pathfinder fails.
- Ladder.RunLadder: a cancelled run, which returns its rungs unsummarised, is not modelled; sizes are priced one after another: since every answer is arbitrary, concurrent pricing adds no outcome.
- Reference.Reconcile: the prose note is not modelled.
- The stored-agreement replay of reference rates.
- Text that is not valid UTF-8, in documents, chain files and registries alike. A document value that spans lines cannot be written as one line, so it has no rendering.
- ContentHash.ContentHash: files are assumed unchanged between the loading pass and the hashing pass; interactions that share a body file keep their order.
- Least squares, means and regime labels of the analysis package.

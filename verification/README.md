# Verified model of the Blitzortung services

A Dafny model of the parts of this repository where a mistake is easy and hard to see: a single-flight cache shared
by many calls, a dictionary decoder, a line simplifier on an explicit stack, the rewriting of SQL statements, the
series behind the map projection, the usage log, the framing of the TCP service, geometry encoding, and the stores
of strikes and clusters. Each component is a module of its own; code that changes state step by step is written as
methods with loops over fields, and what it promises is proved about the functions those methods are equated with.

| file | models |
|---|---|
| `Common.dfy`, `Instants.dfy`, `Utf8.dfy` | shared values, string operations of the standard library, instants, strict UTF-8 |
| `CacheInner.dfy`, `ObjectCache.dfy` | the cache's maps and recency list as values, and the class that updates them |
| `CacheProtocol.dfy`, `CacheRecency.dfy` | all interleavings of cache calls; least-recently-used order over whole runs |
| `Websocket.dfy` | the decoder, against the textbook LZW encoder |
| `Simplify.dfy` | Douglas-Peucker with a stack of intervals |
| `QueryText.dfy`, `SentText.dfy` | named-to-positional rewriting, the text sent, parameter lists |
| `QueryFilters.dfy`, `QueryStatements.dfy`, `QueryBuilders.dfy`, `QueryMeaning.dfy` | conditions with their text and meaning, all statement builders, what their statements ask for |
| `Series.dfy` | Horner and Clenshaw evaluation, real and complex |
| `ServicelogWriter.dfy`, `UsageLogPipeline.dfy`, `ServicelogRow.dfy`, `UsageLogLines.dfy` | the day-rolling writer, the queue before it, the line format, reading a file back |
| `FrameHeaders.dfy`, `Transport.dfy` | `Content-Length` framing, buffer reader and stream reader |
| `Wkb.dfy` | LineString encoding and decoding |
| `ClusterQueries.dfy`, `ClusterService.dfy`, `ClusterTool.dfy` | reading and producing stored clusters |
| `StrikeTable.dfy`, `StrikeUpdate.dfy`, `StrikeRetry.dfy`, `StrikeImport.dfy` | multi-row inserts, the idempotent update and its repetition after a failure, the streamed import |

`dafny verify dfyconfig.toml` checks everything.

Some promises do not hold for every input. For these the model keeps the code as it is and proves exactly when
the promise holds:

* the framing readers disagree where the terminator itself passes the 8192-byte limit (`Transport.ReadersAgree`), as
  they do on every body with a header of 8189 to 8192 bytes (`Transport.BoundaryHeaders`);
* the decoder loses characters from 256 on: a text beginning below 256 survives only if all of it is below 256
  (`Websocket.LargeCharactersAreLost`), any other exactly by its division into phrases (`Websocket.PreservedIff`);
* a day's log file is whole rows and one cut-off line only if entries never come back to a day they left
  (`ServicelogWriting.FailureEndsItsDayIff`);
* a statement with a name that has no value shifts later values silently (`QueryText.PassesAgree`);
* a repeated cluster run inserts nothing exactly when each cluster is covered (`ClusterTool.RepeatedRun`);
* an update stores a strike twice when one download lists it twice (`StrikeUpdate.KeysStayApart`), and again and again
  when its lateral error does not fit the column (`StrikeUpdate.SecondRunInsertsNothing`);
* an update that failed can be repeated exactly when new strikes with one key are inserted by one statement, 7281
  strikes at a time, given that those of the statements before the last fit their column (`StrikeRetry.RetryCompletes`);
  with no key hidden, exactly when they fit (`StrikeRetry.RetryNeedsFitting`); an update of at most 7281 new strikes
  always can (`StrikeRetry.OneStatementCanBeRepeated`);
* a usage-log file is read back by its lines exactly when no row holds a line end (`UsageLogLines.FileIsReadByLines`),
  which five fields can (`UsageLogLines.RowHoldsLineEnd`);
* a placeholder followed by a digit is read as another one (`SentText.SentTextIsReadBack`); no builder writes that;
* cluster requests longer than 546 minutes, of which the service accepts up to 1440, are silently answered for another
  length: the driver narrows the length to 16 bits (`ClusterService.RequestedLengthIsAnswered`);
* cluster requests for many slots are refused by the server, although the service accepts every count, and counts
  beyond 2^31 select no slot or make the service panic (`ClusterService.ClientRequestIsAnswered`);
* a log line's time is midnight for instants outside the calendar (`ServicelogRow.TimestampShowsMillis`);
* more than 2^32 - 1 points do not survive the LineString count field (`Wkb.RoundTrip`);
* with a size cap of zero the cache still stores one entry (`CacheRecency.ZeroCapStoresOne`).

Where code and comments differ the model follows the code: `src/cache.rs` says that the first caller runs the
creator, the code lets any attached caller run its own (`CacheRecency.AnyAttachedCallCanDrive`); `src/cli/update_tool.rs`
rolls back after a failed insert, but the PostgreSQL executor commits every statement by itself and its rollback does
nothing, so the strikes of the statements before the failed one stay stored (`StrikeTable.Executor`,
`StrikeUpdate.UpdateStrikes`).

Integers go to the server narrowed to the type of their column or cast, silently (`src/postgres.rs`, `int_to_sql`);
cluster and strike rows are modelled with what is then stored and compared.

## Model

| member | source | states |
|---|---|---|
| Common.Wrap16 | src/postgres.rs:92-99 | what is sent for a `smallint`: congruent modulo 2^16 and in range, the same value exactly when it fits |
| Common.Wrap32 | src/postgres.rs:92-101 | the same for 32 bits |
| CacheInner.EnterKeepsWellFormed | src/cache.rs:190-232 | the first locked section keeps the recency list free of repetition, equal to the map's keys, and within the cap (at least one) |
| CacheInner.FailureKeepsWellFormed | src/cache.rs:246-260 | so does the error branch |
| CacheInner.EnterEntries | src/cache.rs:190-232 | after it the caller's key maps to the entry found, still valid, or to a fresh one expiring `ttl` after the claim; every other entry left is unchanged |
| CacheInner.EnterRemoves | src/cache.rs:190-232 | an entry only disappears because it expired at a due cleanup or was the front of the list at an eviction |
| CacheInner.FoundIff | src/cache.rs:199-206 | a key is found exactly when it is stored and its expiry lies after the second of the call |
| CacheInner.CleanedIff | src/cache.rs:193-198 | the cleanup is due more than a period after the last one; then exactly the entries that have not expired are left |
| CacheInner.EnterCounts | src/cache.rs:200-219 | each call is counted, and a hit exactly when a found cell is filled |
| CacheInner.EnterLeaves | src/cache.rs:190-232 | the entries left: the call's own, and the others the cleanup left but for the front of the list when a miss finds the cap reached |
| ObjectCache.RemoveKey | src/cache.rs:78-80 | the list without the first occurrence of a key |
| ObjectCache.DropAll | src/cache.rs:84-97 | dropping keys one by one removes exactly them from map and list, keeping the order |
| ObjectCache.ObjectCache.RemoveOldestEntry | src/cache.rs:69-75 | the front key goes from list and map |
| ObjectCache.ObjectCache.TrackUsage | src/cache.rs:77-82 | the key moves to the end of the list |
| ObjectCache.ObjectCache.CleanExpired | src/cache.rs:84-97 | exactly the entries expired at the given second go |
| ObjectCache.ObjectCache.Claim | src/cache.rs:220-231 | a fresh empty cell is stored with its expiry, after at most one eviction |
| ObjectCache.ObjectCache.Reuse | src/cache.rs:207-219 | the stored entry; its key becomes the last used one under a cap, and a filled cell counts as a hit |
| ObjectCache.ObjectCache.Enter | src/cache.rs:190-232 | a hit exactly when the key is stored and its expiry lies after the second of the call, with the stored cell; else a fresh cell expiring `ttl` later; and the whole new state |
| ObjectCache.ObjectCache.Forget | src/cache.rs:246-260 | the entry goes only if it still holds this generation's cell |
| ObjectCache.ObjectCache.GetResultAt | src/cache.rs:177-263 | an undisturbed call returns the value stored under an unexpired key, else its own creator's, stores a success and leaves no failure |
| ObjectCache.ObjectCache.GetRatio | src/cache.rs:267-274 | hits over total, between 0 and 1 |
| ObjectCache.ObjectCache.Clear | src/cache.rs:287-294 | back to the initial state |
| CacheProtocol.Reachable | src/cache.rs:177-263 | the protocol invariant in every state of every interleaving of calls, creators and `clear` |
| CacheProtocol.SingleFlight | src/cache.rs:177-263 | per cell at most one creator runs, and every call returns what a creator of an attached call made for its own key |
| CacheProtocol.ResultsAreFresh | src/cache.rs:44-55 | a result's cell was claimed by the same call, or at a second c with t < c + ttl |
| CacheProtocol.NoFailureOutlivesItsCalls | src/cache.rs:243-262 | with no call in flight every stored entry is a success |
| CacheProtocol.EnterAttaches | src/cache.rs:199-231 | in every reachable state a call attaches to the stored cell exactly when its key has not expired, else it claims a fresh one |
| CacheProtocol.StoredResultIsServed | src/cache.rs:199-241 | in every reachable state a stored, unexpired result is returned as a hit without running the creator |
| CacheProtocol.CreatorDecides | src/cache.rs:243-262 | a creator may end with any result, which its cell then holds; only the locked sections and `clear` change what is stored |
| CacheProtocol.FailureRemovesOnlyItself | src/cache.rs:246-260 | the error branch takes the failed generation out and never a newer one; a success stays |
| CacheProtocol.OutStaysOut | src/cache.rs:177-263 | over every run, a cell that was claimed and is in no entry never comes back |
| CacheProtocol.FailureIsRemovedForGood | src/cache.rs:246-260 | after a failed call has left, no later state of any run stores its cell |
| CacheProtocol.CompletedOnce | src/cache.rs:177-263 | a cell's value and driver, and what a call returned, never change again |
| CacheProtocol.NeverStuck | src/cache.rs:234-262 | an unfinished call can always step, or its cell's driver can complete |
| CacheProtocol.CallsFinish | src/cache.rs:234-262 | without new calls at most four steps per call remain, after which all have returned |
| CacheRecency.KeysAreOrderedByLastUse | src/cache.rs:69-98 | over every run the list is ordered by the time of last use |
| CacheRecency.EvictsLeastRecentlyUsed | src/cache.rs:220-225 | an evicted entry is the least recently used of those left after cleanup, and only when the cap is reached |
| CacheRecency.BoundedAndConsistent | src/cache.rs:203-231 | list and map agree, at most max(1, n) entries, hits never exceed total, in every reachable state |
| CacheRecency.ZeroCapStoresOne | src/cache.rs:221-225 | a cap of zero stores one entry |
| CacheRecency.AnyAttachedCallCanDrive | src/cache.rs:234-243 | in every reachable state any attached call that has not gone on can run its own creator, exactly while no other call runs one for the cell |
| CacheRecency.DriverIsTheStart | src/cache.rs:243 | in every reachable state a cell's driver is the call of the only start on it |
| CacheRecency.ClaimantDrivesIfFirst | src/cache.rs:161-165 | the caller that claimed a key runs its creator exactly when its start is the first on that cell |
| CacheRecency.FailureServedOnlyBeforeDriverLeaves | src/cache.rs:234-262 | a failure can be found only while its driver is about to remove it |
| CacheRecency.FoundFailureIsServed | src/cache.rs:234-241 | in every reachable state a call that finds a failure returns it as a hit, without running its creator |
| CacheRecency.FailureCanBeServed | src/cache.rs:234-241 | a run in which a second call is served a failure and counted as a hit |
| Websocket.TableGrows | src/websocket.rs:35-49 | one entry per code: `e[256 + k] = v_k + first(v_{k+1})`, keys exactly from 256 |
| Websocket.DecodeStep | src/websocket.rs:27-52 | one turn keeps the table and appends the next value, also for a code not in the table yet |
| Websocket.ExpansionsByPosition | src/websocket.rs:16-55 | for any codes: a code below 256 behind the first stands for itself, code 256 + k for `v_k` and the first character of `v_{k+1}` |
| Websocket.Decode | src/websocket.rs:16-55 | the loop returns the expansion of all codes |
| Websocket.DecodeInvertsEncode | src/websocket.rs:16-55 | decoding the LZW encoding of any text below 256 gives the text |
| Websocket.CodesAreSmall | src/websocket.rs:16-55 | the code at place i of an encoding is below 256 or in 256 .. 256 + i - 1 |
| Websocket.EncodedAbab | src/websocket.rs:16-55 | "abab" is sent as 97, 98, 256 |
| Websocket.EncodeIsInjectiveAndShort | src/websocket.rs:16-55 | encodings are no longer than the text and distinct for distinct texts |
| Websocket.PreservedIff | src/websocket.rs:16-55 | any text survives exactly when no phrase behind the first is a single character from 256 on; otherwise the result is longer |
| Websocket.DecodedCharacters | src/websocket.rs:16-55 | whatever is received, every decoded character is below 256 or the first one |
| Websocket.LargeCharactersAreLost | src/websocket.rs:36-44 | a text beginning below 256 survives exactly when all of it is below 256 |
| Simplify.FindFarthest | assets/generate_world_basemap.py:98-104 | the first interior point of greatest distance |
| Simplify.Drain | assets/generate_world_basemap.py:93-108 | the stack loop ends, whatever the order of intervals, and marks exactly the recursively defined points |
| Simplify.Mark | assets/generate_world_basemap.py:91-108 | the marked points are both endpoints and the splits |
| Simplify.Collect | assets/generate_world_basemap.py:109 | the marked points in order |
| Simplify.Simplify | assets/generate_world_basemap.py:87-109 | the whole function |
| Simplify.SimplifiedMeaning | assets/generate_world_basemap.py:87-109 | a subsequence with both endpoints in which every dropped point lies between neighbours at most the tolerance from their line |
| Simplify.NearPointsAreDropped | assets/generate_world_basemap.py:98-108 | when all points between two are within the tolerance of their line, only the two are left |
| Simplify.KeptIsFarthest | assets/generate_world_basemap.py:98-108 | each kept point between the ends is the first farthest one between two kept points, and farther from their line than the tolerance |
| Simplify.CoarserKeepsLess | assets/generate_world_basemap.py:98-108 | a larger tolerance keeps a subset |
| Simplify.SimplifyIsIdempotent | assets/generate_world_basemap.py:87-109 | simplifying again changes nothing |
| QueryText.FindParamName | src/query.rs:159-170 | a placeholder takes at least four characters and ends within the text |
| QueryText.ParamNamesInOrder | src/query.rs:174-186 | the loop collects the names of the text in order |
| QueryText.OrderMeaning | src/query.rs:302-307 | the seen-set filter keeps exactly the names used |
| QueryText.DistinctIsOrder | src/query.rs:302-307 | filtering the collected names gives the order of first appearance |
| QueryText.NamedToPositional | src/query.rs:200-226 | the loop writes the rewritten statement |
| QueryText.NumberingIsGlobal | src/query.rs:200-226 | numbers given on first sight are the numbers of the whole statement |
| QueryText.NumbersFollowFirstAppearance | src/query.rs:200-226 | a name's number is one plus its place among the distinct names |
| QueryText.PassesAgree | src/query.rs:298-355 | filling `$k` with the k-th parameter equals filling by name, exactly when no name without a value first appears before one with a value |
| QueryText.SentStatement | src/query.rs:298-355 | the sent statement is complete and means the named one, exactly when every name is bound |
| QueryText.UnboundNameShiftsValues | src/query.rs:302-307 | a statement in which an unbound name moves another name's value to its place |
| SentText.RenderShows | src/query.rs:200-226 | the text written is that of the rewritten statement, casts being text behind their placeholder |
| SentText.ReadIff | src/query.rs:200-226 | reading `$` with all its digits from the text gives the statement back exactly when no digit follows a placeholder or a `$` |
| SentText.SentTextIsReadBack | src/query.rs:200-226 | so it is for the text the rewriting pass sends |
| QueryStatements.CoveredIsUnambiguous | src/query.rs:310-349 | text with complete, known placeholders, no `$` and no digit behind a placeholder stays readable when it is numbered |
| QueryStatements.CoversConcat | src/query.rs:310-349 | joining texts neither creates nor breaks a placeholder when each has only complete, known ones, nor puts a digit behind one |
| QueryStatements.TrimCovered | src/query.rs:348 | nor does trimming the end |
| QueryStatements.TextCovered | src/query.rs:310-349 | the text of a query only mentions names of its parts |
| QueryMeaning.StatementText | src/query.rs:310-349 | the order and the words of the parts of a statement |
| QueryBuilders.SelectQuerySentAsMeant | src/query.rs:572-587 | for every area, region, SRID, projection and order: every placeholder is bound, the sent statement is the text filled with the values of the request, and the text sent reads as this statement |
| QueryMeaning.SelectQueryAsksFor | src/query.rs:358-407 | with the values sent, a strike passes exactly when start <= t < end, its region is the requested one, and the area's box and geometry tests hold |
| QueryBuilders.StrikesQuerySentAsMeant | src/query.rs:592-602 | the same with and without a first id |
| QueryMeaning.StrikesQueryAsksFor | src/query.rs:592-602 | a strike passes exactly when start <= t < end and its id is at least the first one |
| QueryBuilders.GridQuerySentAsMeant | src/query.rs:608-657 | the same for every region and threshold |
| QueryMeaning.GridQueryAsksFor | src/query.rs:608-657 | a strike passes exactly when the grid's envelope overlaps it, start <= t < end and its region is the requested one; a cell exactly with more strikes than a positive threshold |
| QueryBuilders.GlobalGridQuerySentAsMeant | src/query.rs:662-687 | the same for every threshold |
| QueryMeaning.GlobalGridQueryAsksFor | src/query.rs:662-687 | the same without envelope and region |
| QueryBuilders.HistogramQuerySentAsMeant | src/query.rs:694-738 | the same for every region and envelope |
| QueryMeaning.HistogramQueryAsksFor | src/query.rs:694-738 | a strike passes exactly when start <= t < end, its region is the requested one, and the envelope overlaps it |
| Series.Polyval | src/geom.rs:46-54 | Horner's loop is the power sum |
| Series.RowsAreTheBlock | src/geom.rs:172-183 | the rows read are the 21 coefficients, each once, in order |
| Series.RowsArePolynomials | src/geom.rs:172-183 | the six row sums written out as polynomials of the 21 entries |
| Series.CoefficientIsProduct | src/geom.rs:172-183 | coefficient l is the power l + 1 times the sum of row l |
| Series.Cell | src/geom.rs:172-183 | one row's polynomial times the power, and the next offset |
| Series.AuxlatCoeffs | src/geom.rs:172-183 | all six coefficients |
| Series.SineRecurrence | src/geom.rs:185-199 | sine multiples satisfy the three-term recurrence, real and complex |
| Series.EvenMultiples | src/geom.rs:185-199 | multiples of the doubled angle are the even multiples |
| Series.Clenshaw | src/geom.rs:187-199 | the sum of `f[k] * sin(2 (k + 1) zeta)` for any length |
| Series.ComplexAngle | src/geom.rs:213-246 | the complex sine and cosine built from real parts satisfy the identity |
| Series.ClenS | src/geom.rs:215-246 | the complex sum of `a[k] * sin((k + 1) z)` |
| ServicelogWriting.EntryDay | src/service_log.rs:836-840 | the UTC day by floor division, day 0 outside the calendar |
| ServicelogWriting.ServicelogWriter.AppendRow | src/service_log.rs:783-803 | outcome, fields and files after one append, for every file-system outcome |
| ServicelogWriting.ServicelogWriter.TryAppend | src/service_log.rs:806-825 | flush, open and write for a day, and what reached the file on an error |
| ServicelogWriting.AppendAdds | src/service_log.rs:783-825 | a written row is whole, a failed one a strict part, a dropped one nothing, and only in its own day's file |
| ServicelogWriting.FilesHoldTheirDays | src/service_log.rs:783-825 | over every run each file is what its own day's appends added, in order |
| ServicelogWriting.DroppedRowsAreCounted | src/service_log.rs:777-792 | `dropped_rows` is the number of dropped outcomes |
| ServicelogWriting.StepDecides | src/service_log.rs:783-825 | over every run, a row is dropped exactly on a disabled day, and otherwise written exactly when its file is open or can be opened once the last one is flushed, and the line fits |
| ServicelogWriting.StepKeeps | src/service_log.rs:783-825 | the open file is the written day's, and the failure mark stands for a disabled day |
| ServicelogWriting.HealthyRunWritesAll | src/service_log.rs:783-825 | while the file system works every row is written, each to its own day's file, in order |
| ServicelogWriting.FailureEndsItsDayIff | src/service_log.rs:783-803 | whatever the file system does, a failed day gets only dropped rows afterwards, exactly when entries never return to a day |
| ServicelogWriting.ReturnWritesAfterFailed | src/service_log.rs:786-789 | when they do return there is a run that writes after a failure |
| ServicelogWriting.RowsThenOneTail | src/service_log.rs:783-825 | when failures end their day, a file gains whole rows and at most one cut-off line |
| ServicelogWriting.FileShape | src/service_log.rs:783-825 | so it does when entry days never decrease |
| UsageLogPipeline.Reachable | src/service_log.rs:596-718 | the pipeline invariant over all interleavings of senders and consumer |
| UsageLogPipeline.Conservation | src/service_log.rs:596-611 | every recorded entry is in exactly one place, and the queue is bounded |
| UsageLogPipeline.QueuedWhileThereIsRoom | src/service_log.rs:596-611 | in every reachable state an entry goes to the end of the queue exactly when fewer than 65536 wait, while the consumer lives |
| UsageLogPipeline.DroppedOnlyWhenFull | src/service_log.rs:596-605 | over every run an entry is dropped for a full queue only when 65536 waited |
| UsageLogPipeline.EachDropIsCounted | src/service_log.rs:599-605 | a refused call can count its drop, and warns exactly when it is the first |
| UsageLogPipeline.FirstInFirstOut | src/service_log.rs:682-704 | entries are handled in the order they were sent, none twice |
| UsageLogPipeline.OneWarning | src/service_log.rs:599-605 | exactly one sender logs the warning once something was dropped |
| UsageLogPipeline.FinishedHandlesAll | src/service_log.rs:680-716 | when the consumer has finished, every accepted entry was handled as its own row and day, and each file holds what its day's entries added |
| UsageLogPipeline.ConsumerNeverStuck | src/service_log.rs:688-716 | in every reachable state the consumer takes the first waiting entry, handles the one in hand, or, without senders and entries, finishes |
| UsageLogPipeline.ConsumerDrains | src/service_log.rs:688-716 | and only boundedly many steps remain |
| ServicelogRow.TimestampShowsMillis | src/service_log.rs:138-143 | the time field shows the millisecond of the UTC day, before 1970 too, exactly when the calendar has the day or the instant is in its first second; otherwise only the part below the second |
| ServicelogRow.BuildRow | src/service_log.rs:380-444 | the pushed line is the fifteen fields with the city's padding |
| ServicelogRow.FieldsAreReadBack | src/service_log.rs:322-328 | splitting on tabs and ignoring empty parts gives the fields, exactly when none is empty or holds a tab |
| ServicelogRow.LineIsReadBack | src/service_log.rs:380-444 | only country, city, platform, query type and printed fill can break the fields of a line |
| UsageLogLines.FileIsReadByLines | src/service_log.rs:783-825 | splitting what was added to a file at its line ends gives the written rows in order and then the cut-off one, exactly when none of them holds a line end |
| UsageLogLines.RowHoldsLineEnd | src/service_log.rs:380-444 | a recorded row holds a line end exactly when country, city, platform, query type or printed fill does |
| ServicelogRow.PlatformColumn | src/service_log.rs:329-339 | with 8-column tabs the platform starts at column 56 exactly for cities below 32 characters, and where otherwise |
| FrameHeaders.BlankLineAddsNothing | src/transport.rs:37-49 | the header block gives the same length or error with and without its blank line |
| FrameHeaders.LengthOfHeaderLine | src/transport.rs:37-49 | the value of a `Content-Length` line is parsed after trimming |
| FrameHeaders.FirstLengthCounts | src/transport.rs:37-49 | the first line naming the length decides, whatever lines follow |
| FrameHeaders.NoLengthIsMissing | src/transport.rs:37-49 | without such a line the length is missing |
| FrameHeaders.OtherHeaderSays | src/transport.rs:39-40 | lines with another name or without a colon are passed over |
| FrameHeaders.TrimAround | src/transport.rs:40-42 | white space around name and value goes, and nothing of them |
| FrameHeaders.ParseOfDecimal | src/transport.rs:41-44 | a printed number is accepted exactly below 2^64 |
| FrameHeaders.AnyCaseIsEqual | src/transport.rs:40 | the header name is recognized in any mixture of cases, and no other name is |
| Common.DecimalIsReadBack | src/transport.rs:41-44 | a printed number is parsed back |
| Utf8.CharAt | src/transport.rs:96-101 | a decoded character takes one to four bytes within the input |
| Utf8.DecodeEncoded | src/transport.rs:96-101 | strict UTF-8 decoding inverts the encoding form for every text |
| Utf8.EncodeDecoded | src/transport.rs:96-101 | bytes that are read as a text are its encoding: no other form is accepted |
| Utf8.DecodeBeforeAscii | src/transport.rs:96-101 | ASCII bytes after a text neither break nor repair it |
| Transport.HeadersEnd | src/transport.rs:117-122 | the first terminator, or none anywhere |
| Transport.EncodeFrame | src/transport.rs:80-85 | the frame of a body |
| Transport.FrameText | src/transport.rs:80-85 | the bytes of a frame written out |
| Transport.DecodeInvertsEncode | src/transport.rs:91-114 | a framed body is decoded whatever follows, a body over 256 MiB refused |
| Transport.PrefixesAskForMore | src/transport.rs:91-114 | every strict part of a frame asks for more |
| Transport.AnswersAreFinal | src/transport.rs:91-114 | an answer never changes when bytes are appended |
| Transport.ReadFrame | src/transport.rs:127-171 | the byte-by-byte loop's result and what it leaves on the stream |
| Transport.StreamIsReadBack | src/transport.rs:127-171 | a stream of frames is read as its bodies in order and a clean end |
| Transport.ReadersAgree | src/transport.rs:91-171 | both readers answer alike on every input, except exactly where only the stream reader counts too many header bytes |
| Transport.BoundaryHeaders | src/transport.rs:91-171 | for every body, a header of 8189 to 8192 bytes is decoded by the buffer reader and refused by the stream reader |
| Transport.BoundaryHeaderExists | src/transport.rs:37-49 | spaces before the length make such a header for every body |
| Wkb.Linestring | src/wkb.rs:37-47 | the loops write the little-endian layout with the 32-bit count |
| Wkb.LinestringHead | src/wkb.rs:37-42 | byte order 1, geometry type 2 and the count |
| Wkb.LinestringPoint | src/wkb.rs:43-46 | every point is in its place, `x` before `y` |
| Wkb.DecodeLinestring | src/wkb.rs:55-93 | it returns points exactly when the bytes are a layout of them, in either byte order |
| Wkb.RoundTrip | src/wkb.rs:37-93 | decoding gives the first `count mod 2^32` points, all of them exactly below 2^32 |
| Wkb.BigEndianDecodes | src/wkb.rs:55-93 | the big-endian layout decodes to the same points |
| Wkb.PrefixesDoNotDecode | src/wkb.rs:55-93 | no strict part of an encoding decodes |
| Wkb.DigitsOfValue | src/wkb.rs:60-75 | reading an integer loses nothing |
| Wkb.ValueOfDigits | src/wkb.rs:37-47 | an integer is read back from its bytes |
| Instants.New | src/data.rs:51-62 | carrying keeps the value and normalizes the nanoseconds |
| Instants.ValueRoundTrip | src/data.rs:67-78 | splitting a nanosecond count and reading the value undo each other, both ways |
| Instants.OrderIsValueOrder | src/data.rs:205-212 | normalized timestamps are ordered as their values |
| ClusterQueries.ClusterTimestamps | src/query.rs:772-793 | the loop ends and yields the instants stepping back from the end, and their number, or leaves the calendar; for every step |
| ClusterQueries.NextSlot | src/query.rs:783-791 | the n-th step back is not before the first instant exactly when n is below the count |
| ClusterQueries.RequestedSlots | src/query.rs:898-909 | the computed start leaves room for exactly the requested number of slots, with 32-bit wrap-around |
| ClusterQueries.LatestQuerySelects | src/query.rs:837-876 | each placeholder number binds its own value: the statement selects the narrowed length, between two instants, in the area |
| ClusterQueries.BindSlots | src/query.rs:923-935 | every slot has its own placeholder number and value, after the SRID |
| ClusterQueries.SlotsQuery | src/query.rs:910-954 | the numbered statement binds one value for each slot and selects exactly the rows at the slots, of the narrowed length, in the area |
| ClusterQueries.SelectQuery | src/query.rs:889-954 | the same for the slots of a request, or none when they leave the calendar |
| ClusterService.LatestTimestamp | src/db.rs:464-489 | the newest matching timestamp of the narrowed length, or none |
| ClusterService.SelectRows | src/db.rs:499-523 | exactly the stored clusters of the narrowed length at an anchor's slots; an answer exactly when they can be bound |
| ClusterService.SelectClusters | src/service.rs:506-545 | anchor and rows of a request for the narrowed length, for every table, and exactly which requests get an answer |
| ClusterService.AnswerIsNotEmpty | src/service.rs:515-545 | when a request is answered and a candidate is stored, the anchor is the newest and a cluster of that time is in the answer |
| ClusterService.LookbackIsBounded | src/service.rs:521-524 | the search goes back over the requested slots in whole, or exactly a day |
| ClusterService.ExactSlots | src/query.rs:898-909 | a positive length and a count up to 2^31 select exactly anchor, anchor - o, ..., anchor - (count - 1) o |
| ClusterService.ReanchorReports | src/service.rs:1357-1362 | the response's `t` is the anchor and its `dt` the requested length |
| ClusterService.Enforce | src/service.rs:210-219 | length 1 to 1440, offset within the day before, accepted values unchanged |
| ClusterService.ClusterInterval | src/service.rs:1334-1347 | the interval ends at a whole minute plus the offset |
| ClusterService.ClientArguments | src/service.rs:1096-1110 | a client's request keeps its area, asks for at least one slot, and snaps exactly when the enforced offset is 0 |
| ClusterService.ClientRequestIsAnswered | src/service.rs:1096-1110 | a client's request is answered exactly when slots + 1 + area parameters are at most 65535, whatever is stored; one whose count has no positive 32-bit form, exactly when the start computed for its anchor is in the calendar |
| ClusterService.ManySlotsAreRefused | src/service.rs:1099 | length 1 with count 70000 is accepted and gets no answer |
| ClusterService.RequestedLengthIsAnswered | src/service.rs:1095-1110 | anchor and rows are those of the requested length, for every table, exactly when the enforced length is at most 546 minutes |
| ClusterService.LongLengths | src/query.rs:944-948 | what a longer request is sent as: negative up to 1092 minutes, never a whole number of minutes |
| ClusterService.LongRequestsAreEmpty | src/service.rs:506-545 | while every stored length is of whole minutes it is answered without an error, with no cluster and the requested end |
| ClusterService.LengthOf547 | src/query.rs:865-869 | 547 minutes ask for -32716 seconds |
| ClusterService.LengthOf1093 | src/query.rs:865-869 | 1093 minutes return a stored cluster of 44 seconds under `dt` 65580 |
| ClusterTool.ClusterStore.InsertClusters | src/cli/cluster_tool.rs:393-438 | the rows a run adds, its count and its error |
| ClusterTool.ClusterStore.InsertNewer | src/cli/cluster_tool.rs:411-434 | the loop adds the narrowed rows of the newer clusters up to the first that cannot be inserted |
| ClusterTool.ClusterStore.Insert | src/db.rs:411-434 | one row added with narrowed length and count, or a missing shape refused |
| ClusterTool.LengthLimits | src/cli/cluster_tool.rs:399-406 | the guard rejects lengths above 32767, from -32768 on exactly those that narrowing would change |
| ClusterTool.Latest | src/db.rs:438-456 | the newest stored timestamp of the narrowed length |
| ClusterTool.RunStep | src/cli/cluster_tool.rs:411-434 | one more cluster adds its row exactly when it is newer, in whole microseconds, than every stored row of the narrowed length; a missing timestamp or shape ends the run |
| ClusterTool.RepeatedRun | src/cli/cluster_tool.rs:380-438 | repeating a run inserts nothing, exactly when every cluster is covered by the store or by one whose length narrows to the run's |
| ClusterTool.OwnClustersAreCovered | src/cli/cluster_tool.rs:380-388 | clusters carrying the run's length are covered |
| ClusterTool.OtherLengthsAreRepeated | src/cli/cluster_tool.rs:411-434 | clusters whose lengths narrow to others are inserted again, whatever is stored |
| ClusterTool.NarrowedLengthIsStored | src/db.rs:411-434 | a cluster of 65596 seconds is stored as one of 60 and covers a run of 60 |
| ClusterTool.RunsAreStrictlyNewer | src/cli/cluster_tool.rs:411-449 | over any runs, what is inserted is newer in whole microseconds than everything stored of its length |
| ClusterTool.LaterRunsAreNewer | src/cli/cluster_tool.rs:411-449 | so different runs of a length never overlap in time |
| StrikeTable.BuildInsert | src/db.rs:137-198 | every row of the statement takes its own strike's values, or the missing timestamp is reported |
| StrikeTable.StoredFields | src/db.rs:160-198 | what is stored of each field of a strike |
| StrikeTable.RoundAway | src/db.rs:180-183 | altitudes are rounded to the nearest integer, halves away from zero |
| StrikeTable.Saturate64 | src/db.rs:180-183 | and cut off at the 64-bit range |
| StrikeTable.InsertMany | src/db.rs:123-133 | statements within 65535 parameters store exactly the strikes' rows in order, `smallint` columns narrowed, exactly when they all work; after an error, exactly the rows of the statements before the failed one: a multiple of 7281 strikes, less than all |
| StrikeUpdate.UpdateStrikes | src/cli/update_tool.rs:61-127 | the stored table and the count, success exactly when every statement works, and what remains after a failure: nothing, or the new strikes of the statements before the failed one |
| StrikeUpdate.NewStrikesStep | src/cli/update_tool.rs:82-102 | one more strike is inserted exactly when it is valid, in the window, more than a minute old, and matches no stored row there |
| StrikeUpdate.KnownIffMatched | src/cli/update_tool.rs:90-96 | a key is known exactly when a stored row in the window has its time, rounded position and lateral error |
| StrikeUpdate.StoredKeyIsReadBack | src/cli/update_tool.rs:19-26 | a stored strike is found under its own key exactly when nanoseconds and lateral error fit 16 bits |
| StrikeUpdate.SecondRunInsertsNothing | src/cli/update_tool.rs:61-127 | a second run with the same strikes and clock inserts nothing, whatever was stored, exactly when the new strikes' lateral errors fit 16 bits (nanoseconds doing so) |
| StrikeUpdate.NoStoredKeyIsInserted | src/cli/update_tool.rs:72-102 | no run inserts a key stored anywhere, for nanoseconds in 0 to 999 |
| StrikeUpdate.KeysStayApart | src/cli/update_tool.rs:82-102 | keys stay distinct exactly when no two listed strikes in the window, older than a minute and not stored there, share a key |
| StrikeUpdate.RunsKeepKeysApart | src/cli/update_tool.rs:61-127 | over any sequence of runs no key is stored twice, when no download lists one twice |
| StrikeRetry.FailurePointsAreLeft | src/db.rs:123-133 | a failed run leaves exactly the multiples of 7281 new strikes below their number, and each of them when its statement fails |
| StrikeRetry.RetryAt | src/cli/update_tool.rs:72-116 | a failure anywhere: the repetition leaves the table of one undisturbed run exactly when no stored strike hides another one, if the stored ones fit; exactly when they fit, if none is hidden |
| StrikeRetry.RetryCompletes | src/cli/update_tool.rs:61-127 | wherever a run can fail its repetition completes it, exactly when new strikes listed with one key are inserted by one statement; for strikes that fit their columns |
| StrikeRetry.RetryNeedsFitting | src/cli/update_tool.rs:61-127 | and when none is hidden, exactly when the strikes of the statements before the last fit |
| StrikeRetry.OneStatementCanBeRepeated | src/cli/update_tool.rs:110-116 | a run of at most 7281 new strikes can always be repeated, whatever is listed |
| StrikeRetry.UnfittingIsStoredAgain | src/cli/update_tool.rs:72-116 | a strike stored before the failure that does not fit is inserted again |
| StrikeRetry.StraddlingIsLost | src/cli/update_tool.rs:72-116 | 7282 times one new strike: after a failure of the second statement the repetition inserts nothing |
| StrikeUpdate.ListedTwiceStoredTwice | src/cli/update_tool.rs:82-102 | any new strike listed twice is stored twice |
| StrikeUpdate.CarriedNanosecondsAreMissed | src/db.rs:283-303 | nanoseconds outside 0 to 999 hide a stored key |
| StrikeImport.ChunkInserter.Accept | src/cli/import_tool.rs:202-231 | after every batch `committed_groups == inserted / 10000`, one commit each, fewer than a group uncommitted |
| StrikeImport.ChunkInserter.CommitGroups | src/cli/import_tool.rs:215-228 | the commits of the groups a batch completed |
| StrikeImport.ChunkInserter.Finish | src/cli/import_tool.rs:189-197 | nothing uncommitted, ceil(inserted / 10000) commits |
| StrikeImport.ImportBatches | src/cli/import_tool.rs:125-136 | any batches: all strikes committed once, in order |

## Left out

- Dropped (cancelled) futures and poisoned locks in the cache, and the wrap-around of its 64-bit counters.
- Floating-point rounding: the series, the cache clock and coordinates are real numbers; a cached clock beyond the
  range of a 64-bit integer is not modelled.
- Websocket.Decode: codes are unbounded naturals; the 32-bit code pointer and the gap of surrogate code points are not modelled.
- Simplify.FindFarthest: the perpendicular distance is any non-negative function of three points.
- SentText.Read: quoted text and comments, in which a server reads no placeholder; the builders' texts hold no `$`.
- Series.Clenshaw: the angle is given by its sine and cosine; the projection built on the series is not part of this model.
- UsageLogPipeline.Conservation: taking a queue permit and storing the entry are one step; shutdown timeouts and metrics are left out.
- ServicelogWriting.EntryDay: a day is its number, not its printed date.
- ServicelogRow.BuildRow: the printed fill, the platform marker and the parsed version are inputs.
- Transport.ReadFrame: a read error other than the end of the stream; the buffering below the reader.
- Wkb.DecodeLinestring: memory reserved for a large declared count; geometry types other than LineString.
- ClusterQueries.SelectQuery: statements are their placeholders and conditions, not their text; the server's spatial
  tests are two fixed predicates, an instant is floored to microseconds, the order of the rows is not specified.
- ClusterQueries.RequestedSlots: overflow of the 32-bit count wraps, as in a build without overflow checks.
- ClusterService.ClientRequestIsAnswered: the clock is at least 66000 days into the calendar, so that no slot that can
  be bound leaves it.
- ClusterService.RequestedLengthIsAnswered: stated for requests that get an answer and have at least one slot.
- ClusterTool.ClusterStore.InsertClusters: the connection does not fail; only the table's own refusals are errors.
- StrikeTable.InsertMany: a driver may round instants before 2000 differently; here every instant is floored to
  microseconds, and the single precision of the amplitude column is left out.
- StrikeUpdate.SecondRunInsertsNothing: the short condition is for nanoseconds of 16 bits, which every timestamp has
  (`src/data.rs:51-62`); for others the condition is that the key is among the stored ones.
- QueryMeaning.SelectQueryAsksFor: a stored instant is floored to microseconds, the server's spatial tests are two fixed
  predicates; of the columns, order and groups only the text is stated, not the rows the server returns.
- StrikeUpdate.UpdateStrikes: rounding of coordinates is any function; the download, a failing commit and a statement
  that is stored although its error is reported are left out.
- StrikeRetry.RetryCompletes: stated for nanoseconds of 16 bits, and for strikes of the statements before the last that
  fit their columns, as the builder's do (`src/builder.rs:98-102`).
- NULL in a stored `nanoseconds` or `strike_count`, on which reading a key or a cluster fails (`src/db.rs:292`,
  `src/db.rs:539`): stored rows have values there.
- StrikeImport.ImportBatches: batching, deadlines and retries of the provider are left out; a failed import only keeps
  the counters.
- Clustering, statistics, map rendering and data providers; grid arithmetic and the projection; HTTP, JSON-RPC
  envelopes, client checks, GeoIP and metrics.
- The builders' setters that none of them uses (`column`, `limit`), and WKT parsing: no property beyond one case.

# OpsWatch: verified model of its protocols, codecs, scheduler and statistics

OpsWatch is a self-hosted monitor. This project models the parts of it that carry real logic and proves, with Dafny
4.11, what each promises: the sign-in protocol, the cursor and Markdown codecs, the collector and its jobs, and the
robust statistics and aggregations behind the pages. `dafny verify dfyconfig.toml` checks everything.

**Sign-in.** `ThrottleModel` is the login throttle as a transition system: a step is what runs between two awaits, and a
run is any interleaving of such steps under a clock that never goes back. `ThrottleTheorems` proves what every run keeps
and, over endless runs, that every admitted attempt gets its verification; `LoginThrottle` holds the closure's variables
as a class whose methods each make exactly one step. `RateLimiter`, `Sessions` and `Admin` are classes in the same
style, and each is compared, over all runs, with a reference that forgets nothing: the full log of accepted attempts,
the life of every session ever minted, the calls of `createAdmin` in flight.

**Codecs.** `Bits` is an unbounded bit stream; `Base64Url` proves the two loops of the source equal to it, the decoder's
32-bit accumulator (`Int32`) included, although it is never masked and wraps. `Cursor` puts decimal numbers (`Numbers`)
and percent-encoding (`Uri`) on top and proves the exact round trip. `Escaping` shows that the ordered chain of
replacements is one substitution that can be read back; `Markdown` builds table rows and whole documents from it and
parses them again. Strings are UTF-16 code units (`Texts`), lone surrogates included.

**Collector.** `Runner` decides what is due; `CollectorModel` is the loop as a transition system over overlapping ticks,
and `Collector` the closure. `BaselinesJob`, `ErrorsIngest` and `IngestJob` are the jobs that group, cap and conserve;
`Keys` is the joined-key idiom two of them share, `Grouping` the insertion-ordered map.

**Statistics.** `Baseline` treats medians, spreads and robust scores over exact reals. `FleetMerge`, `FleetOrder` and
`FleetCoverage` are the fleet-wide query table, what it does not depend on and the partition of instances around it,
`ReportWindow` the double window of a report. `Arithmetic`, `Collections`, `Sorting`, `Windows` and `Wrappers` hold what
several of them need.

Where the code and its own comment disagree the code is followed: `renderMarkdown` says that a document ends with
exactly one newline, and `Markdown.EndsInOneNewline` says exactly when it does; the header of `baseline.ts` says that a
baseline is unmoved by the incident it is meant to detect, and `Baseline.SpreadCollapsesIff` says exactly when corrupted
observations can still blind it.

The clock, sleeps, randomness, hashes, the database's answers, the answers of AWS, the log parser, the fingerprint and
the order of a locale are parameters. Assumed of them, each written where it is used: clocks do not go back and a sleep
lasts at least as long as asked (`Enabled`), for progress that verifications and jobs settle, sleeps end and due
callbacks run (`Fair`), a freshly drawn session token was never drawn before (`Enabled`) and no two share a hash
(`Injective`), rounding leaves integers up to 2^53 - 1 alone (`ExactOnSafe`).

## Model

| member | source | states |
|---|---|---|
| ThrottleTheorems.QueuedVerificationsAreSerial | src/lib/auth/login-throttle.ts:57-72 | in every state of every run, queued verifications have started in admission order; of any two the earlier has settled (thrown or not) before the later started, at least their distance times the minimum interval after it; and at most one is in progress |
| ThrottleTheorems.RateIsBounded | src/lib/auth/login-throttle.ts:57-64 | any span holds at most span / minInterval + 1 starts of queued verifications |
| ThrottleTheorems.WaitingIsExact | src/lib/auth/login-throttle.ts:53-56 | `waiting` is the number of attempts admitted and not yet released, and at most maxWaiting + 1 |
| ThrottleTheorems.RefusedNeverVerifies | src/lib/auth/login-throttle.ts:49-56 | over a run each call is refused, which is when it is under attack and finds the queue full, or verified at once, or given one turn; all verifications started are at most the calls not refused |
| ThrottleTheorems.FailuresAreNotForgotten | src/lib/auth/login-throttle.ts:41-45 | at any later time the pruned list counts as many failures in the window as were ever recorded in it |
| ThrottleTheorems.RunAnswers | src/lib/auth/login-throttle.ts:49-56 | what becomes of a call, by the failures recorded and the turns not released before it: with at most the threshold of failures in the window it verifies at once; with more it is given a turn, unless more than maxWaiting are unreleased, and then nothing happens |
| ThrottleTheorems.TurnWaitsExactly | src/lib/auth/login-throttle.ts:57-64 | a turn that begins verifies at once iff every verification so far, queued or on the fast path, started at least the minimum interval ago; otherwise it sleeps until the latest of them did |
| ThrottleTheorems.RankDecreases | src/lib/auth/login-throttle.ts:57-71 | every step of an attempt or of one admitted before it brings it nearer to its verification, and no step of anyone takes it farther away |
| ThrottleTheorems.NeverStuck | src/lib/auth/login-throttle.ts:57-66 | while an admitted attempt has not settled, some step of it or of an earlier one is enabled once the clock is late enough |
| ThrottleTheorems.StepsAreBounded | src/lib/auth/login-throttle.ts:57-71 | between any two states of a run the attempts up to k make at most as many steps as their rank allows |
| ThrottleTheorems.EnoughStepsVerify | src/lib/auth/login-throttle.ts:57-71 | in a finite run too: once the attempts up to k have made as many steps as their rank allowed, attempt k is verified |
| ThrottleTheorems.SettledIffQuiet | src/lib/auth/login-throttle.ts:57-71 | no deadlock: an admitted attempt has settled iff neither it nor any attempt before it can still make a step |
| ThrottleTheorems.EveryAdmittedAttemptIsVerified | src/lib/auth/login-throttle.ts:57-71 | in every endless run in which each verification settles, each sleep ends and each callback whose predecessor has settled runs, every admitted attempt is verified, whatever else keeps arriving |
| ThrottleTheorems.WaitIsBounded | src/lib/auth/login-throttle.ts:58-63 | with exact sleeps an attempt waits at most one interval for itself and for each unsettled attempt ahead, plus the durations of the verifications ahead |
| ThrottleModel.InvHolds | src/lib/auth/login-throttle.ts:41-75 | the count of waiters, the order of turns, their times and the failure list keep their invariant in every state of every run |
| LoginThrottle.Throttle.RunHead | src/lib/auth/login-throttle.ts:48-56 | `run` up to its first await makes exactly the model's step: it verifies at once iff at most the threshold of failures lie in the window, refuses iff otherwise more than maxWaiting wait, and else queues |
| LoginThrottle.Throttle.TurnBegins | src/lib/auth/login-throttle.ts:57-64 | the chained callback makes exactly the model's step: it verifies iff the minimum interval since the last verification is over, and otherwise sleeps until it is |
| LoginThrottle.Throttle.TurnWakes | src/lib/auth/login-throttle.ts:60-63 | the end of a sleep starts the verification and stamps it |
| LoginThrottle.Throttle.TurnSettles | src/lib/auth/login-throttle.ts:65-68 | settling, thrown or not, is what the next link of the chain waits for |
| LoginThrottle.Throttle.AttemptReleased | src/lib/auth/login-throttle.ts:69-71 | the `finally` gives back one place in the queue |
| LoginThrottle.Throttle.UnderAttackNow | src/lib/auth/login-throttle.ts:41-45 | pruning keeps exactly the failures inside the window, and it is an attack iff more than the threshold of them are |
| LoginThrottle.Throttle.RecordFailureNow | src/lib/auth/login-throttle.ts:73-75 | a failure is recorded at the end of the list and changes nothing else |
| Windows.PruningIsInvisible | src/lib/auth/login-throttle.ts:43 | filtering at an earlier time never changes a later filter |
| RateLimiter.Limiter.Attempt | src/lib/auth/rate-limit.ts:12-26 | the new map and the answer, as functions of the old map, key and time |
| RateLimiter.Limiter.EvictExpired | src/lib/auth/rate-limit.ts:13-17 | the loop deletes exactly the keys all of whose hits have expired |
| RateLimiter.Limiter.Reset | src/lib/auth/rate-limit.ts:27-29 | forgets one key and no other |
| RateLimiter.AnswersAsTheFullLog | src/lib/auth/rate-limit.ts:12-26 | over any run with a clock that never goes back, filtering and eviction answer every attempt as a log of all accepted attempts since the key's reset would |
| RateLimiter.AcceptsByItsCalls | src/lib/auth/rate-limit.ts:12-29 | an attempt is accepted iff fewer than `limit` attempts of its key were accepted less than a window ago and have not been reset since |
| RateLimiter.EvictionSparesTheRecent | src/lib/auth/rate-limit.ts:13-17 | below maxKeys keys an attempt forgets no other key; from there on exactly those without a hit in the window |
| RateLimiter.AtMostLimitPerWindow | src/lib/auth/rate-limit.ts:18-25 | between resets of a key, no span shorter than the window holds more than `limit` accepted attempts |
| RateLimiter.InvHolds | src/lib/auth/rate-limit.ts:12-29 | pruned hits and full log agree for every key in every state of every run |
| Sessions.SessionStore.CreateSession | src/lib/auth/sessions.ts:10-61 | exactly the rows whose expiry has passed go, the others stay as they are, and the new one expires after 12 hours or 30 days |
| Sessions.SessionStore.ValidateSession | src/lib/auth/sessions.ts:67-88 | the answer and the new table: untouched for a wrong audience, the row deleted when expired, rolled forward when accepted |
| Sessions.SessionStore.DeleteSession | src/lib/auth/sessions.ts:90-92 | removes that token's row and no other |
| Sessions.SessionStore.RevokeSession | src/lib/auth/sessions.ts:123-133 | removes one row of that user with that public id, and answers none only when there is none |
| Sessions.ValidatesExactly | src/lib/auth/sessions.ts:67-88 | over any run a token validates iff it was minted for this audience, was not removed, is younger than the ceiling and was last used (or created) less than a rolling window ago; purges, lazy deletions and wrong-audience presentations change no answer |
| Sessions.ValidatesByItsCalls | src/lib/auth/sessions.ts:10-133 | the same in terms of calls and answers alone: a token validates, as the user a call minted it for, iff that call was for this audience, none has removed it since, fewer than 30 days (of an API token 90) have passed since that call, and fewer than 12 hours (30 days) since its last accepted use |
| Sessions.LivesAreMinted | src/lib/auth/sessions.ts:41-92 | what is known of a token is what its calls say: user, audience and creation from the call that minted it, last use from its last accepted validation, removal iff a deletion or revocation has named it since |
| Sessions.RowsTellTheirStory | src/lib/auth/sessions.ts:41-88 | a row holds the user, audience and time of the call that minted it, its last accepted use if any, and expires 12 hours (30 days) after the later of the two |
| Sessions.RevocationIsOwn | src/lib/auth/sessions.ts:123-133 | a session is revoked only by the user it was minted for, under its public id, and is gone then |
| Sessions.RevocationMissesNothing | src/lib/auth/sessions.ts:123-133 | nothing is found only when no session of that user with that id would still validate |
| Sessions.TokensAreIndependent | src/lib/auth/sessions.ts:25-133 | a call about one token, revocation included, never changes another token's answer |
| Sessions.InvHolds | src/lib/auth/sessions.ts:41-133 | every row says what the reference says, and a token without a row is one no later moment can accept |
| Admin.AtMostOneAdmin | src/lib/auth/admin.ts:36-68 | in every interleaving there is at most one admin row; from an empty table exactly one decided call wins and the others end in AdminExists; from a table with an admin nobody wins; only calls begun without a problem are ever decided |
| Admin.FirstCommitWins | src/lib/auth/admin.ts:41-67 | over runs from an empty table, a transaction creates the row iff no valid call has been decided before it, and the row bears the email and time that call was begun with, without a problem, and this commit's hash; any other ends in AdminExists and changes nothing |
| Admin.CallsFollowTheirBegin | src/lib/auth/admin.ts:41-51 | the k-th call is that of the k-th beginning: with a problem it fails with it for good; without one it waits with the email and time it was begun with, unless there is an admin, and comes to one of three ends |
| Admin.OnlyCommitsWrite | src/lib/auth/admin.ts:52-67 | only a commit writes the table; a hash that throws fails its own call and nothing else |
| Admin.AdminTable.CreateBegins | src/lib/auth/admin.ts:41-51 | up to the await: a problem fails the call, then an existing admin does, and otherwise it waits; the table is untouched |
| Admin.AdminTable.CreateCommits | src/lib/auth/admin.ts:57-67 | the transaction re-checks and inserts in one step |
| Base64Url.EncodeBase64Url | packages/contract/pagination.ts:31-47 | the loop of shifts and masks writes the unbounded bit stream of its octets, cut into sextets with the last one padded by zeros |
| Base64Url.DecodeBase64Url | packages/contract/pagination.ts:49-64 | the loop with its wrapping 32-bit accumulator reads the unbounded bit stream; `bits` is always 6 read - 8 emitted and below 8 |
| Base64Url.RoundTrip | packages/contract/pagination.ts:31-64 | decoding undoes encoding for every string of 8-bit codes, whatever its length modulo three |
| Base64Url.EncodedShape | packages/contract/pagination.ts:42-44 | 4n/3 letters rounded up, all of the alphabet, no padding character |
| Base64Url.EncodedBlockByBlock | packages/contract/pagination.ts:24-47 | three octets after the other become four letters, six bits each from the top, by the ranges of the alphabet of RFC 4648; one or two octets left become two or three |
| Base64Url.CanonicalTexts | packages/contract/pagination.ts:53-62 | a decodable text is what the encoder would write iff its left-over bits are fewer than six and all zero |
| Base64Url.AccumulatorOctet | packages/contract/pagination.ts:56-60 | an octet shifted out of the wrapped accumulator is the octet of the unbounded stream |
| Base64Url.ChunkIsSum | packages/contract/pagination.ts:40 | the three shifted and or-ed codes are one 24-bit number |
| Uri.ComponentRoundTrip | packages/contract/pagination.ts:71-83 | percent-encoding fails exactly on texts with a lone surrogate, and decoding undoes it on all others |
| Uri.EncodedIsAscii | packages/contract/pagination.ts:67-68 | a percent-encoded id is ASCII, so the codec below it may stay as small as it is |
| Uri.EncodesScalar | packages/contract/pagination.ts:67-72 | a code point is written as it is if it is a letter, a digit or one of nine marks, otherwise as its octets of RFC 3629 in upper-case percent escapes |
| Uri.DecodesStrictly | packages/contract/pagination.ts:82-84 | octets are taken for a code point iff they are those encoding writes for it: no overlong form, surrogate or stray octet passes |
| Numbers.NumberOfInteger | packages/contract/pagination.ts:71-80 | reading back a printed safe integer gives the integer, and its text holds no dot |
| Numbers.DigitsByPlace | packages/contract/pagination.ts:80 | digits count by value and place in every base up to 36 |
| Numbers.ReadsTrimmed | packages/contract/pagination.ts:80 | white space around a number is skipped, and alone it is zero |
| Numbers.ReadsPrefixed | packages/contract/pagination.ts:80 | 0x, 0o and 0b in either case announce digits of base 16, 8 and 2, and no digits make NaN |
| Numbers.ReadsExponent | packages/contract/pagination.ts:80 | an exponent moves the digits up, or with a minus sign down, by as many places |
| Numbers.ReadsSign | packages/contract/pagination.ts:80 | a minus sign turns the value |
| Numbers.ReadsInfinity | packages/contract/pagination.ts:80 | the word Infinity is read as infinite, with its sign |
| Cursor.DecodeCursor | packages/contract/pagination.ts:75-88 | total; yields nothing, or a safe non-negative sequence and a non-empty id |
| Cursor.RoundTripExactly | packages/contract/pagination.ts:70-88 | a cursor decodes to the position it was minted from iff the sequence is non-negative and the id is non-empty and well-formed; dots and percent signs make no difference |
| Cursor.AcceptedIffSpelled | packages/contract/pagination.ts:75-88 | a cursor is accepted, minted or not, iff it decodes to a number without a dot that is a safe non-negative integer, a dot, and an escaped id that is not empty |
| Cursor.DecodeMinted | packages/contract/pagination.ts:70-88 | what the cursor of any safe integer and well-formed id decodes to |
| Cursor.CursorsAreDistinct | packages/contract/pagination.ts:70-72 | no two positions share a cursor |
| Escaping.ChainIsSubstitution | src/lib/analysis/markdown.ts:21-28 | the seven ordered global replacements equal one substitution per character, whatever an earlier one wrote |
| Escaping.EscaperIsSubstitution | src/lib/analysis/markdown.ts:19-31 | so does the whole escaper, on the capped, flattened, trimmed value |
| Escaping.EscaperShields | src/lib/analysis/markdown.ts:10-31 | each character of the normal form is written as the literal entity or escape of the source; read with a backslash taking the next character, the text shows no bracket, parenthesis or pipe, and ends inside no escape |
| Escaping.FlattenJoinsLines | src/lib/analysis/markdown.ts:29 | each longest run of line breaks becomes one space and all else stays |
| Escaping.NormalIsTheMiddle | src/lib/analysis/markdown.ts:19-31 | the normal form is the first 500 characters, with an ellipsis for any others, flattened and without the white space around them |
| Texts.SpacesAre | src/lib/analysis/markdown.ts:30 | white space is exactly the 25 code units ECMAScript trims |
| Texts.TrimIsTheMiddle | src/lib/analysis/markdown.ts:30 | trimming takes white space off both ends and nothing else |
| Escaping.EscapeRoundTrip | src/lib/analysis/markdown.ts:19-31 | unescaping gives the capped, flattened, trimmed value back |
| Escaping.EscapedShape | src/lib/analysis/markdown.ts:19-31 | no raw angle bracket, backtick or newline, trimmed, at most 2505 characters |
| Escaping.EscapedIsBlank | src/lib/analysis/markdown.ts:19-31 | a value is written as nothing iff it is white space only and no longer than the cap |
| Markdown.RowScansBack | src/lib/analysis/markdown.ts:33-37 | a row begins and ends with a bar and scans into as many cells as there are headers iff there is a header; cell i is the i-th source cell, escaped, between spaces, and unescapes to its normal form; short rows are padded and long ones cut |
| Markdown.TableScansBack | src/lib/analysis/markdown.ts:33-37 | a table's lines read back as its headers, one rule for each of them, and its rows in order, each cut or padded to the headers |
| Markdown.TableIsItsLines | src/lib/analysis/markdown.ts:33-37 | a table is exactly two lines and one for each row, none broken, empty or blank-separated |
| Markdown.RenderMarkdown | src/lib/analysis/markdown.ts:40-50 | the nested loops push the blocks of the document in order and join them by blank lines |
| Markdown.PushSection | src/lib/analysis/markdown.ts:44-47 | one section's heading, paragraphs, bullets and table, in that order and only those present |
| Markdown.DocumentIsItsBlocks | src/lib/analysis/markdown.ts:39-50 | but for its final newline the document, split at blank lines, is exactly its blocks: no value opens, closes or joins one |
| Markdown.DocumentReadsBack | src/lib/analysis/markdown.ts:39-50 | split at blank lines the text is the title, the subtitle if there is one, and for each section in order its heading, its paragraphs, its bullets one to a line, and its table's lines |
| Markdown.EndsInOneNewline | src/lib/analysis/markdown.ts:39-50 | it ends in a newline, and in only one unless the last thing written is a subtitle or a paragraph of white space only, no longer than the cap |
| Markdown.BlankSubtitleEndsInThree | src/lib/analysis/markdown.ts:42-49 | a document whose subtitle is a newline ends in three |
| Runner.DueJobs | src/lib/collector/runner.ts:77-95 | the two loops collect, in order, the due targets of every enabled job |
| Runner.DueIsExact | src/lib/collector/runner.ts:70-95 | a job is due iff it is enabled, applies to the instance or to a listed environment of its providers, and never ran or last started its interval ago, by the job table in milliseconds |
| Runner.DueInOrder | src/lib/collector/runner.ts:77-95 | the list holds the job of each due pair of an enabled id and an environment once, by id and under each id by environment, and nothing else |
| Runner.KeysAreInjective | src/lib/collector/runner.ts:37-40 | jobs whose connection ids hold no NUL have distinct keys |
| Runner.KeyIsOwnIffPlain | src/lib/collector/runner.ts:37-40 | no other job whatever has a job's key iff it is instance-wide or neither of its ids holds a NUL |
| Runner.NulMakesKeysCollide | src/lib/collector/runner.ts:37-40 | with a NUL in a connection id two environments can share a key |
| CollectorModel.OneCycleInFlight | src/lib/collector/runner.ts:126-143 | however ticks overlap, at most one cycle is under way |
| CollectorModel.CyclesRunPrefixes | src/lib/collector/runner.ts:133-165 | each cycle runs a prefix of its list, all of it unless a lock refresh failed, and every run it started is finished as ok or failed once it is over |
| CollectorModel.CycleWasDue | src/lib/collector/runner.ts:126-133 | every cycle was begun by a tick that found none under way, and its list is what was due at that moment |
| CollectorModel.DueByItsRuns | src/lib/collector/runner.ts:77-148 | a new cycle lists an applicable job iff no run with its key, however it went, started less than its interval ago |
| CollectorModel.CycleBeginsIff | src/lib/collector/runner.ts:126-133 | a tick begins a cycle iff it holds the lock, no cycle is under way and the collector was never stopped |
| CollectorModel.TurnStartsTheNext | src/lib/collector/runner.ts:134-149 | a turn of the loop starts the next job of the list, now, while the lock holds, and otherwise ends the cycle and starts nothing |
| CollectorModel.RunSettlesAsTold | src/lib/collector/runner.ts:150-165 | a job that settles finishes the one run its cycle awaits, as ok or failed as it settled, and no other |
| CollectorModel.RunsFinishOnce | src/lib/collector/runner.ts:145-165 | a run keeps its job and its start, and once finished stays as it was finished |
| CollectorModel.EveryCycleEnds | src/lib/collector/runner.ts:126-165 | in every endless run in which jobs settle, as ok or failed, and the loop gets its turns, every cycle ends with each of its jobs run and finished in order, unless a lock refresh failed on the way: no job that throws keeps a later one from running |
| CollectorModel.CycleNears | src/lib/collector/runner.ts:134-165 | every step of a cycle, a failed run included, brings it nearer to its end and no other step takes it farther away |
| CollectorModel.EndedIffQuiet | src/lib/collector/runner.ts:134-143 | a cycle has ended iff it has no step left to make |
| CollectorModel.StartsAreSpaced | src/lib/collector/runner.ts:145-148 | over any run two starts of one job key are at least its interval apart, however long jobs take and however they end, when no two jobs a tick can find due share a key |
| CollectorModel.CadenceIffDistinctKeys | src/lib/collector/runner.ts:126-149 | every run over given jobs and environments keeps that cadence iff no two of their targets share a key |
| CollectorModel.DuplicateFreeIsWellPosed | src/lib/collector/runner.ts:77-94 | enabled jobs and environments without duplicates, with connection ids without NULs, have targets of distinct keys |
| CollectorModel.ListedTwice | src/lib/collector/runner.ts:84-88 | one environment listed twice gives two targets of one key |
| CollectorModel.OrderHolds | src/lib/collector/runner.ts:126-166 | the invariant of cycles and runs behind the first two, in every state of every run |
| Collector.CollectorLoop.TickBegins | src/lib/collector/runner.ts:126-133 | `tick` up to its loop makes exactly the model's step |
| Collector.CollectorLoop.CycleAdvances | src/lib/collector/runner.ts:134-149 | a turn of the loop up to the job's await, or the end of the cycle |
| Collector.CollectorLoop.JobSettles | src/lib/collector/runner.ts:150-165 | the run is finished as ok or failed and the cycle goes on |
| Collector.CollectorLoop.StopNow | src/lib/collector/runner.ts:174-175 | stopping refuses later ticks and changes nothing else |
| Baseline.BucketCountsHours | src/lib/detect/baseline.ts:35-38 | the bucket is the hour count plus 96, modulo 168, for every time before or after the epoch |
| Baseline.BucketIsWeekly | src/lib/detect/baseline.ts:29-38 | a whole number of weeks later is the same bucket |
| Baseline.MedianResistsCorruption | src/lib/detect/baseline.ts:12-45 | with fewer than half of the observations corrupted the median stays within any bounds of the untouched ones |
| Baseline.MadResistsCorruption | src/lib/detect/baseline.ts:12-50 | with fewer than half of the observations corrupted the median stays within any bounds of the untouched ones and the MAD is at most as wide as they are apart: the spread cannot be inflated past that, though it can vanish |
| Baseline.SurgesSurviveCorruption | src/lib/detect/baseline.ts:12-89 | with fewer than half corrupted, a reading above the untouched observations by 3 / 0.6745 times the width of their bounds is a surge iff no value fills more than half of the places, and one below them all never is |
| Baseline.NoSpreadIff | src/lib/detect/baseline.ts:47-78 | a baseline has no spread iff one value, then its median, fills more than half of the places |
| Baseline.BlindIffNoSpread | src/lib/detect/baseline.ts:70-89 | no reading whatever is a surge iff the baseline has no spread |
| Baseline.SpreadCollapsesIff | src/lib/detect/baseline.ts:12-89 | t corrupted observations can leave a baseline under which nothing is a surge iff some value, with t places more than it has, would fill more than half of them; a constant series needs none |
| Baseline.MinorityBlinds | src/lib/detect/baseline.ts:12-89 | so the header's claim fails on 1 to 9 with the first four become 5: a minority is corrupted, and no reading is a surge any more |
| Baseline.MedianOfPermutation | src/lib/detect/baseline.ts:40-45 | the order of the observations does not matter |
| Baseline.MedianMinimisesDeviation | src/lib/detect/baseline.ts:40-50 | no centre has a smaller total absolute deviation |
| Baseline.MedianHalves | src/lib/detect/baseline.ts:40-45 | at least half of the values reach the median and at least half do not exceed it |
| Baseline.MedianReflects | src/lib/detect/baseline.ts:40-45 | reflecting the observations reflects the median, for even and odd counts |
| Baseline.SpreadHalves | src/lib/detect/baseline.ts:47-70 | a baseline has at least eight samples, and its MAD is non-negative and halves the deviations from its median |
| Baseline.HasBaseline | src/lib/detect/baseline.ts:65-70 | there is a baseline iff there are at least eight values |
| Baseline.ScoreIsUnitFree | src/lib/detect/baseline.ts:65-89 | a common positive scaling and shift of observations and reading changes no score and no surge |
| Baseline.SurgeMeans | src/lib/detect/baseline.ts:80-89 | a surge is a reading at least 3 / 0.6745 spreads above the median, and there is none without a spread |
| Baseline.ScoreMeans | src/lib/detect/baseline.ts:70-83 | a score times the spread is 0.6745 times the distance from the median, below it as above; there is none iff there is no spread |
| BaselinesJob.Bucketize | src/lib/collector/baselines-job.ts:45-55 | each bucket holds exactly its measured points in order, and no bucket is empty |
| BaselinesJob.BucketInOrder | src/lib/collector/baselines-job.ts:45-55 | a bucket's values are those of the measured points that begin in its hour of the week, each once, in the order of the points |
| BaselinesJob.BucketsConserve | src/lib/collector/baselines-job.ts:45-55 | the 168 buckets together hold exactly the measured points |
| BaselinesJob.BaselinesOf | src/lib/collector/baselines-job.ts:58-65 | one baseline for exactly the buckets with enough values, so at most 168 |
| BaselinesJob.RunBaselinesJob | src/lib/collector/baselines-job.ts:74-114 | the pass covers a prefix of the series, hands exactly their baselines to the store, counts one row for each, and stops only where the next series could overrun the cap |
| BaselinesJob.NeverOverCap | src/lib/collector/baselines-job.ts:90-94 | it never writes more rows than its cap |
| Grouping.GroupsPartition | src/lib/collector/ingest-job.ts:60-64 | grouping by a key loses no item and repeats none |
| Grouping.GroupsHoldTheirKey | src/lib/collector/ingest-job.ts:60-64 | a group holds exactly the items of its key, and a key has a place iff it has items |
| Grouping.FirstsAreInOrder | src/lib/collector/ingest-job.ts:60-64 | of two keys the one placed earlier has an item before any item of the other |
| ErrorsIngest.Ingest | src/lib/collector/errors-job.ts:129-183 | the batch map, read in insertion order, is one record for each group of rows with a fingerprint |
| ErrorsIngest.OneRecordEach | src/lib/collector/errors-job.ts:150-181 | one record for each fingerprint in order of first rows; it bears the connection, scope and log source of the call, counts its rows, carries the latest of their times and samples the first of them |
| ErrorsIngest.RecordsStandForRows | src/lib/collector/errors-job.ts:136-181 | a record stands for the rows whose message, the parsed one or else the line, has its fingerprint: it counts them, its time is the latest of theirs, a stamp of zero or none counting as now, and the first gives its exception and at most a thousand characters of sample |
| ErrorsIngest.EveryRowHasItsRecord | src/lib/collector/errors-job.ts:136-181 | every row that has a message has exactly one record with that message's fingerprint |
| ErrorsIngest.RecordsAreDistinct | src/lib/collector/errors-job.ts:150-181 | no two records share a fingerprint and every row with a message has its record |
| ErrorsIngest.CountsAreConserved | src/lib/collector/errors-job.ts:136-181 | the counts of one call sum to the number of its rows that have a message |
| Keys.PiecesAreParts | src/lib/collector/ingest-job.ts:62-68 | splitting a joined key gives its parts back iff no part holds a NUL |
| Keys.ThreePiecesIffPlain | src/lib/collector/ingest-job.ts:62-68 | a joined key has exactly three pieces iff no part holds a NUL |
| Keys.JoinIsInjective | src/lib/collector/ingest-job.ts:62 | a joined key determines its parts when the first two hold no NUL |
| IngestJob.RunIngestJob | src/lib/collector/ingest-job.ts:54-97 | the calls of one pass: deliveries, records, marks of all events in queue order, detector runs and the reported outcome |
| IngestJob.EveryEventReachesIngestOnce | src/lib/collector/ingest-job.ts:60-78 | the events delivered are exactly the events queued, whatever their names |
| IngestJob.OwnNamesIffNulFree | src/lib/collector/ingest-job.ts:62-76 | every event is ingested under its own connection, region and group iff no queued name holds a NUL |
| IngestJob.GroupsInQueueOrder | src/lib/collector/ingest-job.ts:57-78 | of NUL-free names each group is one call with all its events in queue order |
| IngestJob.RecordsOfDelivery | src/lib/collector/ingest-job.ts:36-76 | a delivery's records bear its connection, region and log source, and each counts the events whose line has its fingerprint, at the latest of their times, sampling the first |
| IngestJob.DrainedIsRecorded | src/lib/collector/ingest-job.ts:57-80 | the counts recorded over a pass sum to the number of events drained |
| IngestJob.DetectorRunsOnceEach | src/lib/collector/ingest-job.ts:66-87 | the detector runs once for each environment something was ingested into, and for no other |
| FleetMerge.MergeFleetKeys | src/lib/analysis/queries.ts:69-104 | the nested loops, the sum and the sort yield the rows and total that the lemmas below speak of |
| FleetMerge.FillBuckets | src/lib/analysis/queries.ts:70-84 | the map holds, in insertion order, what adding every entry in input order leaves |
| FleetMerge.EveryEntryIsMerged | src/lib/analysis/queries.ts:71-83 | what is merged is entry by entry what the lists hold, list by list: its id or `no-id:`, the instance, a colon and its index, its label, instance, load and link |
| FleetMerge.LoadIsConserved | src/lib/analysis/queries.ts:86-104 | row totals sum to the total, which is the sum of all input loads; origins are as many as entries; shares sum to 100, or to 0 when there is no load |
| FleetMerge.RowsAreTheGroups | src/lib/analysis/queries.ts:71-96 | a row's origins are exactly the entries with its key, none lighter before a heavier and equals by name; total and count are theirs and the label is that of the first of the heaviest |
| FleetMerge.SharesAreProportions | src/lib/analysis/queries.ts:53-95 | each row's share is its proportion of the table, each origin's its proportion of the row |
| FleetMerge.EveryKeyHasOneRow | src/lib/analysis/queries.ts:70-90 | no two rows share a key, and a key has a row iff an entry has it |
| FleetMerge.RowsAreSorted | src/lib/analysis/queries.ts:98-102 | of two rows the upper has at least the load, at equal loads at least the instances, and at equal both is not named later; or, asked for by instances, at least the instances and then the load |
| Sorting.SortIsStable | src/lib/analysis/queries.ts:91-102 | elements that tie keep the order they came in |
| FleetOrder.TableIgnoresListOrder | src/lib/analysis/queries.ts:69-104 | where the locale tells the keys apart, the order of the rows, their keys, loads, shares and counts and the total do not depend on the order in which the instances are listed; nor do the origins where it tells the instances apart |
| FleetOrder.TableIgnoresEntryOrder | src/lib/analysis/queries.ts:69-104 | the same of the order of the entries |
| FleetOrder.LabelIsFixedIff | src/lib/analysis/queries.ts:76-80 | a row's label is the same for every order of the entries iff all the heaviest entries of its key bear one label |
| FleetMerge.MergeExactly | src/lib/analysis/queries.ts:58-73 | entries share a key iff they have the same id, have none and the same instance name and index, or one's id is the key generated for the other, which has none |
| FleetMerge.MergeOnlyOnIds | src/lib/analysis/queries.ts:58-73 | among ids that do not begin with `no-id:` entries share a key iff they have the same id, or none and the same instance name and index |
| FleetMerge.IdlessStandsAlone | src/lib/analysis/queries.ts:58-96 | with one list for each instance and no id that begins with `no-id:`, the row of an entry without an id has that entry as its only origin |
| FleetMerge.ImitationMerges | src/lib/analysis/queries.ts:73-74 | an entry whose id is a generated key does merge with the entry that has none |
| FleetMerge.NoIdKeysAreInjective | src/lib/analysis/queries.ts:73 | a generated key determines its instance, colons and all, and its index |
| FleetCoverage.FleetQueries | src/lib/analysis/queries.ts:119-156 | the loops yield the answered lists, the sorted reasons for all other instances, the coverage, and the merged table |
| FleetCoverage.EachInstanceCountedOnce | src/lib/analysis/queries.ts:119-152 | each listed instance is named exactly once, as covered or not covered, and at most 50 are covered |
| FleetCoverage.ReasonsAreSorted | src/lib/analysis/coverage.ts:41-45 | the reasons shown are a permutation of the instances' own, in the order of the comparator |
| FleetCoverage.ReasonsAreOrdered | src/lib/analysis/coverage.ts:41-45 | they come as denied, throttled, error, no resource, unknown class, insights disabled, cap, and under one reason by name |
| FleetCoverage.ReasonsAreTheirs | src/lib/analysis/queries.ts:119-152 | the rows shown are exactly the instances' reasons: no resource id, insights disabled, beyond the first fifty that can be asked, or what its own call was refused for |
| FleetCoverage.ContributionsAreTheirs | src/lib/analysis/queries.ts:127-140 | the lists merged are exactly those of the first fifty instances that can be asked and answer |
| FleetCoverage.CapIsGreedy | src/lib/analysis/coverage.ts:24-28 | the cap keeps the longest prefix that fits the budget and drops exactly the rest |
| ReportWindow.HalvesAdjoin | src/lib/analysis/window.ts:11-40 | the fetched window is its two halves end to end, each 3, 12, 24 or 168 hours long, ending less than a period of 5, 15, 30 or 60 minutes before now |
| ReportWindow.EdgesAreBoundaries | src/lib/analysis/window.ts:11-33 | start, split and end are period boundaries, as each range is a whole number of its periods |
| ReportWindow.WindowIsStable | src/lib/analysis/window.ts:21-31 | two moments ask for the same window iff they fall in the same period |
| ReportWindow.NoPeriodStraddles | src/lib/analysis/window.ts:21-42 | no datapoint's period straddles the split or an end |
| ReportWindow.PeriodsFallInOneHalf | src/lib/analysis/window.ts:21-42 | each datapoint's whole period lies in exactly one half of the fetched window, the current one from the split on |
| ReportWindow.SplitIsFilter | src/lib/analysis/window.ts:42-50 | cutting at the first late point is filtering by the split iff no timestamp falls back before it, as ascending ones never do |
| ReportWindow.HalvesAreTheSeries | src/lib/analysis/window.ts:43-50 | the halves put together are the series, whatever the order of its timestamps |
| ReportWindow.HalvesRecombine | src/lib/analysis/window.ts:54-59 | sums of the halves add up, the greater maximum is the whole's, averages weigh by their lengths |
| ReportWindow.AggregateOfOne | src/lib/analysis/window.ts:54-59 | one value is its own average, sum and maximum, and no values have none; with the line above this fixes all three |
| ReportWindow.ComparisonMeans | src/lib/analysis/window.ts:62-73 | up is at least one per cent more, down at least one per cent less, new exactly for a non-zero figure against a zero baseline (zero against zero is flat), unavailable exactly for a negative one |
| ReportWindow.NoComparison | src/lib/analysis/window.ts:65-66 | a missing or non-finite figure on either side leaves no comparison |
| ReportWindow.ComparisonIsUnitFree | src/lib/analysis/window.ts:65-73 | the verdict does not depend on the unit |
| ReportWindow.MetricReadsTheHalves | src/lib/analysis/window.ts:77-82 | of an ascending series in the window the two figures are those of the points whose whole period lies in the current half and in the previous half, and the change is the comparison of the first with the second |

## Left out

- ThrottleTheorems.QueuedVerificationsAreSerial: says nothing about verifications on the fast path, which the code starts without waiting; it is about the queued ones, measured from their own starts.
- ThrottleTheorems.WaitIsBounded: is about runs without scheduling delay (`Punctual`), as no bound holds when a callback may run arbitrarily late.
- ThrottleModel.Config: a negative minimum interval or a negative bound on waiters is not modelled.
- Cursor.DecodeCursor: positions' sequences are integers, so `Math.trunc` of other numbers is not modelled, nor is minus zero.
- Numbers.NumberOf: reads texts without a dot only, as the first dot of the payload ends the number; rounding to doubles is a parameter.
- Base64Url.EncodeBase64Url: codes above 255 are outside its precondition; the cursor's payload is ASCII.
- Sessions.SessionStore.RevokeSession: the order in which the database lists rows is left open, and `listSessions` is not modelled.
- Admin.AdminTable.CreateBegins: the email schema and the password length are an input, as is a hash that throws; `authenticate` is not modelled.
- Markdown.RowScansBack: a table without headers scans as one cell; the count is right only with at least one. `markdownFilename` is not modelled.
- Collector.CollectorLoop.CycleAdvances: what a job did (covered, total, error code) is not kept in its run; the lock's claim and refresh are answers given from outside, and exclusion between processes is not claimed.
- Runner.DueJobs: the job table keeps name, interval, scope and providers; caps and the environment switches of `collectorEnabled` are not modelled.
- Baseline.ScoreIsUnitFree: exact reals stand for doubles here and in every sum, share and average of the project; NaN and infinities appear only where the code tests for them.
- BaselinesJob.RunBaselinesJob: the history switch, the listing of subjects and the store's write are given; one row is written for each baseline.
- ErrorsIngest.Ingest: frames, the normalised message and the version are functions of the parsed row that no decision depends on; the parser and the fingerprint are given functions.
- ErrorsIngest: the polling loop and the daily scan budget of the `errors` job are not modelled, as what the budget counts is kept in the store.
- IngestJob.RunIngestJob: finding or creating the log source is a function of the names, and the sweep of processed events is not modelled; an event stamped 0 is recorded at the time of the pass, as the code does.
- FleetMerge.MergeFleetKeys: the locale's order of names is a rank that may not tell two names apart.
- FleetCoverage.FleetQueries: the failure of the instance list itself, the window and the links are left out or given.
- ReportWindow.ComparisonMeans: is about finite figures; missing and non-finite ones are unavailable by the function's first test.
- The user interface, AWS and other foreign calls, encryption, the schemas and the permission tables are not part of this model.

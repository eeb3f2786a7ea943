# The gateway core, verified

A Dafny model of the scheduling, admission, streaming, rewriting and accounting core of the gateway: which
account serves a request, how often it is retried and what the client is told, what is billed, who is let in, and
what becomes of the system prompt. `dafny verify dfyconfig.toml` checks all of it.

Code that changes state step by step is a method with a loop or a class with the fields it updates, proved against
functions on values. Concurrent code is a transition system whose actions are the atomic steps (one lock region, one
compare-and-swap, one channel operation, one store statement); what is proved of it holds for every sequence of
actions. Ratios, weights and costs are reals. Times are integer nanoseconds.

| file | of the program |
|---|---|
| Text, SseBatch, SseTee | the batch reader of SSE bodies, the usage parsers up to JSON, and `teeStream` |
| SseIncremental, SseAgreement, SseFraming | `consumeSSE`; printing and reading back; when the readers agree; `teeStream` in either framing |
| PoolEntry, PoolSessions, Pool | one account; session stickiness; `Pick` |
| Counting, Inflight, KeySlots, RateLimiter | account slots, key slots, the sliding window |
| Forward | `forward` and `tryEntry` |
| Utf8, Utf8Encoding, Truncation, Normalize | UTF-8 as in sections 3 and 4 of RFC 3629, by its decoder and its encoder; the byte budget; `normalizeMessages` |
| Cost, UsageLogs, Billing | prices; usage logs under concurrency; the `Recorder` |
| OAuthFlow | the store of OAuth flows and its callbacks |
| Summary | the dashboard: usage per model and account classes |

Where the code does not do what its comments or documentation say, the model follows the code, and the exact
condition under which the promise holds is proved:

- The back-off is `min(15s * 2^(n-1), 10min)` for the first 55 consecutive failures and zero from the 56th on
  (`PoolEntry.BackoffValue`, `PoolEntry.LastFailureCoolsDownIff`).
- Framed with CR LF, several events are one to the batch reader (`SseAgreement.BatchReadsPrinted`), so `teeStream` bills
  all usage, whatever the payloads report, exactly when the framing is LF or at most one event mentions usage
  (`SseFraming.TeeBillsAllIff`).
- The system prompt is not always cut to a prefix of itself (`Truncation.OutputIsPrefixIff`; at 200 bytes
  `Normalize.CutPromptIsNoPrefix`).
- An identity line that was already there, but late, can be cut (`Normalize.IdentityIntactIff`,
  `Normalize.LateIdentityIsCut`).
- Plain strings inside a system array are not measured, and can carry the prompt over 200 bytes
  (`Normalize.AllTextIsShortIff`, `Normalize.UnmeasuredStringPasses`).
- After changes of a key's concurrency as many of its requests can be inside as all its channels together hold, and no
  more (`KeySlots.KeyIsBoundedByAllChannels`); every sequence of changes reaches that number, so a single change already
  admits the old limit plus the new one (`KeySlots.ReconfiguredKeyExceeds`, `KeySlots.OneChangeExceeds`).
- An error text of an earlier lost request stays in the log of a success, exactly when there was such a request
  (`Forward.Request.Forward`; for every request lost on the first account and served by the second one
  `Forward.ErrorTextSurvivesSuccess`).
- `Close` leaves usage logs in the buffer exactly when some log was recorded after its flush and never flushed
  (`UsageLogs.CloseStoresAllIff`, `UsageLogs.LateRecordIsNotStored`).
- Clock readings are taken before the limiter's lock and can reach it out of order, so 60 seconds can hold more admissions
  than the limit. With readings at most `skew` behind, exactly the windows of up to 60 seconds less `skew` never do, and
  for a limit of one all of up to 60 seconds (`RateLimiter.WindowIsBoundedIff`, `RateLimiter.LateReadingExceeds`).
- Retries after the announced wait can be refused again when the limit was lowered: all of them are admitted exactly when
  the limit exceeds the number of hits younger than the oldest (`RateLimiter.RetriesAreAdmittedIff`,
  `RateLimiter.RetryIsRefusedAgain`).

## Model

| member | source | states |
|---|---|---|
| SseBatch.DataPayloads | internal/billing/usage.go:19-39 | splitting at LF LF and then at LF hands on exactly the events of a line-by-line reading |
| SseBatch.BlocksReadAsLines | internal/billing/usage.go:21-23 | the two-level split and the line-by-line reading agree on every body |
| SseBatch.ParseUsage | internal/billing/usage.go:52-87 | the three parsers, up to JSON: of a body without a data line each field is what the body itself reports, if positive; of one with payloads each field is the greatest that is reported on one of them |
| SseBatch.PlainBodyIsParsed | internal/billing/usage.go:54-56 | a body without a data line is given to the extractor itself, and each field is its value if positive, else 0 |
| SseBatch.UsageIsGreatest | internal/billing/usage.go:53-84 | of a body with payloads input, output and cached are the greatest values reported for each |
| SseBatch.MaxUsageIsGreatest | internal/billing/usage.go:76-84 | each field is the greatest value any payload reports for it, or 0 |
| SseTee.TeeStream | internal/gateway/forward.go:266-295 | writes out exactly what it reads; for LF framing with the usage text only in data lines it returns the usage of the whole body |
| SseTee.TeeKeepsUsagePayloads | internal/gateway/forward.go:270-293 | the kept text reads as exactly those payloads that mention usage, in order |
| SseTee.TeeLosesNoUsage | internal/gateway/forward.go:264-294 | parsing only the kept events gives the usage of parsing everything |
| SseFraming.TeeOfPrinted | internal/gateway/forward.go:266-299 | of a printed stream, in LF or CR LF framing, teeStream keeps the printed stream of the payloads that mention usage |
| SseFraming.TeeReadsBackIff | internal/gateway/forward.go:293-299 | the parser reads those payloads back exactly when the framing is LF or there is at most one |
| SseFraming.TeeBillsAllPayloads | internal/gateway/forward.go:293-299 | then the usage billed is that of all payloads |
| SseFraming.TeeBillsAllIff | internal/gateway/forward.go:293-299 | it is so for every extractor exactly when the framing is LF or at most one payload mentions usage |
| SseFraming.MergedLosesUsage | internal/gateway/forward.go:293-299 | with two such payloads in CR LF framing, what only the first reports is lost |
| SseIncremental.Drain | workbench/web/protocol.mjs:43 | handling the complete lines now does not change what is handed on in the end, whatever text follows; what is left holds no LF |
| SseIncremental.ConsumeSse | workbench/web/protocol.mjs:27-47 | however the text is cut into chunks, the payloads are those of the whole text |
| SseAgreement.RoundTrip | workbench/web/protocol.mjs:30-45 | payloads printed as LF or CR LF events come back exactly when none is `[DONE]` and, with LF, none has a line ending in CR |
| SseAgreement.UnterminatedRoundTrip | workbench/web/protocol.mjs:44 | the last event may lack its blank line and its final LF |
| SseAgreement.ReadersAgreeIff | internal/billing/usage.go:19-39 | from any common open event both readers hand on the same payloads exactly when the values are trimmed and the first of an event is not empty |
| SseAgreement.ReadersAgreeOnText | internal/billing/usage.go:21-36 | the agreement of the two readers on whole texts without CR at line ends, if and only if the events are clean |
| SseAgreement.NoBlankOneEvent | internal/billing/usage.go:21 | without LF LF the batch reader sees one event at most |
| SseAgreement.BatchReadsPrinted | internal/billing/usage.go:21-24 | clean payloads come back from the batch reader exactly when framed with LF or at most one |
| PoolEntry.WorstIsGreatest | internal/pool/pool.go:73-85 | the worst ratio is at least 0, at least every window's, and one of them unless it is 0 |
| PoolEntry.WeightBounds | internal/pool/pool.go:174-182 | weights lie between 0.05 and 1 |
| PoolEntry.WeightIsWhatIsLeft | internal/pool/pool.go:174-182 | without a snapshot the weight is 1; above 0.05 it is the greatest part, up to 1, that every window with a budget has left; it is 0.05 exactly when some such window has used 0.95 of its budget or more |
| PoolEntry.LessUsedWeighsMore | internal/pool/pool.go:174-182 | a less used account never weighs less, and weighs more exactly when it has more than 0.05 of every window left |
| PoolEntry.UsableIff | internal/pool/pool.go:156-172 | an account is usable exactly when enabled, not cooling down, not suspended, and no window with a budget has used all of it |
| PoolEntry.BackoffValue | internal/pool/pool.go:393-396 | the wrapped 64-bit shift with its clamp is the documented back-off up to 55 failures, and 0 from 56 on |
| PoolEntry.Entry.ReportSuccess | internal/pool/pool.go:367-381 | failures, cool-down and last error are cleared, nothing else changes; a refresh is asked for exactly when there is no fresh quota |
| PoolEntry.Entry.ReportFailure | internal/pool/pool.go:386-407 | failures below 500 count and cool down, others do not; every failure leaves its text; a refresh is asked for exactly on 401 and 403 |
| PoolEntry.HealthIsHistory | internal/pool/pool.go:367-399 | after any reports, failures is the number below 500 since the last success and the cool-down runs from the last of them |
| PoolEntry.LastFailureCoolsDownIff | internal/pool/pool.go:392-397 | a failure keeps the account out exactly when fewer than 55 were counted before it |
| PoolSessions.PutKeeps | internal/pool/pool.go:341-357 | storing a session keeps map and list in agreement, touches no other session, and drops at most the front of a full list |
| PoolSessions.EvictDropsFront | internal/pool/pool.go:348-354 | the eviction loop drops exactly the oldest session when 1000 are there |
| PoolSessions.FrontWasPassed | internal/pool/pool.go:348-354 | a key is evicted by the cap only after at least 1000 others, the new one included, were picked since it |
| PoolSessions.RunRemembers | internal/pool/pool.go:293-364 | after any calls the sessions are what the history says: last account, order of use, and a reason for every missing key |
| PoolSessions.SessionsAreSound | internal/pool/pool.go:341-364 | map and list hold the same keys once each, at most 1000, ordered by expiry, each with the last account its key was given |
| PoolSessions.FreshSessionKeepsItsAccount | internal/pool/pool.go:298-309 | within ten minutes and with fewer than 1000 other keys since, a usable session gets its account again |
| PoolSessions.HitIsLastPick | internal/pool/pool.go:302-305 | an account given without a draw is the one the key had last, in time |
| Pool.Subtract | internal/pool/pool.go:324-331 | the loop always selects a candidate, the first whose running weight reaches the target, so the fallback to the last one is never needed |
| Pool.DrawsAreAnInterval | internal/pool/pool.go:323-331 | the draws that select a candidate are an interval as long as its share of the weight, and the intervals cover [0, 1] |
| Pool.DrawIsUnique | internal/pool/pool.go:325-331 | a draw selects one candidate |
| Pool.Pool.Collect | internal/pool/pool.go:311-319 | the candidates are the usable, not excluded accounts, once each, with their weights and their sum |
| Pool.Pool.PickWeighted | internal/pool/pool.go:311-334 | a usable account drawn by weight, or none when there is none; which weights by Pool.LessUsedIsDrawnMoreOften |
| Pool.Pool.Pick | internal/pool/pool.go:293-339 | an account is returned exactly when a usable, not excluded one exists, and is such a one; the sessions change as in the history; without a session it is drawn by weight |
| Pool.LessUsedIsDrawnMoreOften | internal/pool/pool.go:311-331 | of two candidates of Pick the less used one, by used and budget, is never selected by the shorter interval of draws, and by the longer one exactly when it has more than 0.05 left |
| Inflight.SlotsAreExact | internal/pool/pool.go:133-146 | in every interleaving of loads, swaps and decrements a counter is the number of requests inside, and never above the limit |
| Inflight.QuiescentCountersAreZero | internal/gateway/forward.go:79-130 | when nobody is inside tryEntry all counters are zero |
| Inflight.RefusedOnlyWhenFull | internal/pool/pool.go:133-144 | a request is refused exactly when the account is full at its load |
| KeySlots.ChannelsAreExact | internal/gateway/auth.go:40-64 | every channel ever made holds as many tokens as requests holding one of it, at most its capacity |
| KeySlots.ReleaseNeverBlocks | internal/gateway/auth.go:58 | a holder can always give its token back |
| KeySlots.StableKeyIsBounded | internal/gateway/auth.go:139-169 | at a constant concurrency no more requests of the key are inside than that |
| KeySlots.KeyIsBoundedByAllChannels | internal/gateway/auth.go:40-64 | whatever the reconfigurations, no more requests of a key are inside than all its channels together hold |
| KeySlots.ReconfiguredKeyExceeds | internal/gateway/auth.go:44-47 | the bound is reached: for every sequence of changed concurrencies, an interleaving that puts their sum inside at once |
| KeySlots.OneChangeExceeds | internal/gateway/auth.go:44-47 | for any two different concurrencies, the old plus the new number of requests inside |
| RateLimiter.RateLimiter.Compact | internal/gateway/auth.go:80-85 | the filter in the slice's own array is the filter |
| RateLimiter.RateLimiter.Allow | internal/gateway/auth.go:75-93 | what one call returns and stores, other keys untouched although arrays are reused |
| RateLimiter.HitsSeenAt | internal/gateway/auth.go:78-91 | for readings in any order: from the latest one on, the stored hits and all admissions have the same recent part |
| RateLimiter.HitsAreRecentAdmissions | internal/gateway/auth.go:78-91 | after a call with the latest reading the stored hits are the admissions of its last 60 seconds |
| RateLimiter.AdmitsIffWindowNotFull | internal/gateway/auth.go:86-92 | a call with the latest reading is admitted exactly when fewer than rpm earlier admissions lie in its window |
| RateLimiter.LateCallIsBetween | internal/gateway/auth.go:86-92 | a call with a late reading is refused when the window of the latest reading is full, and admitted when fewer than rpm admissions came since its own window began |
| RateLimiter.SkewedWindowIsBounded | internal/gateway/auth.go:74-93 | with readings at most `skew` behind, no 60 seconds less `skew` hold more admissions than the limit |
| RateLimiter.OneAtATime | internal/gateway/auth.go:78-91 | under a limit of one, admissions are 60 seconds apart in whatever order the readings come |
| RateLimiter.LateReadingExceeds | internal/gateway/auth.go:160 | for every limit of two or more and every skew, calls that put more admissions than the limit into a nanosecond over 60 seconds less the skew |
| RateLimiter.WindowIsBoundedIff | internal/gateway/auth.go:74-93 | under a constant limit and a given skew, windows of a given length are never exceeded, over all runs, exactly when they are at most 60 seconds less the skew, or at most 60 seconds for a limit of one |
| RateLimiter.EveryWindowIsBounded | internal/gateway/auth.go:74-93 | with readings in order, no 60 seconds, wherever they lie, hold more admissions than the limit |
| RateLimiter.RetryIsAdmitted | internal/gateway/auth.go:86-90 | whoever waits as long as told is admitted, when the limit is constant and nobody was admitted meanwhile, in whatever order the readings come |
| RateLimiter.RetriesAreAdmittedIff | internal/gateway/auth.go:86-90 | whatever limits were in force before and however the readings come, all retries after the announced wait are admitted exactly when the limit exceeds the number of hits younger than the one the wait is counted from |
| RateLimiter.YoungerAreAdmissions | internal/gateway/auth.go:78-90 | for a call with the latest reading these hits are the admissions younger than the oldest of its window |
| RateLimiter.RetryWindow | internal/gateway/auth.go:78-90 | the same for one retry: enough at any time after the wait, and exact for one made at once |
| RateLimiter.RetryIsRefusedAgain | internal/gateway/auth.go:86-90 | calls under a lowered limit whose retry, after the announced wait, is refused again |
| RateLimiter.WaitIsWithinWindow | internal/gateway/auth.go:87 | the announced wait is positive and at most the window plus what the reading was behind |
| RateLimiter.RetryAfterHeader | internal/gateway/auth.go:162 | the whole seconds announced exceed the wait by at most one |
| Forward.Request.SendWithRetries | internal/gateway/forward.go:152-191 | attempts go on while capacity is lacking, at most max(0, R) + 1 of them, and the last reply decides |
| Forward.Request.Try | internal/gateway/forward.go:127-253 | log, response, report to the pool and action, by the last reply |
| Forward.Request.TryEntry | internal/gateway/forward.go:127-253 | the slot is given back on every path; capacity is given up only after all attempts, or when a wait was cut short |
| Forward.Request.AfterAttempts | internal/gateway/forward.go:83-104 | how one account's attempts take the search further or end it, with the 401 and lost-request history kept |
| Forward.Request.Attended | internal/gateway/forward.go:83-104 | what one call of tryEntry means for log, reports, budget and trail: the search goes on or is settled |
| Forward.Request.Turn | internal/gateway/forward.go:79-104 | the picked account is excluded without a free slot and tried with one; the turn answers with its outcome or keeps the invariant of the search |
| Forward.Request.Forward | internal/gateway/forward.go:37-106 | every request ends, with at most n * (max(0, R) + 1) attempts and at most two 401 replies, one response unless the client is gone, no slot left, one record naming the last account tried, usage only after a 2xx; the pool is told what the replies call for, of no account twice, and of a success only with a 2xx answer; each visited account is the one Pick gave then, is tried exactly when it had a free slot, and is left only after a 401 or a lost or unsigned request; the gateway gives up only when Pick has none left |
| Forward.CapacityIsToldLast | internal/gateway/forward.go:174-189 | lack of capacity is told only when the last account lacked it in every attempt allowed |
| Forward.LastReplyIsTold | internal/gateway/forward.go:156-253 | log, response and last report by the last reply: a 503 without the marker is told as its status and reported as a failure, one with it is told as lack of capacity; a 2xx is a success with its usage; a 401 is passed on when it is the second; a client gone gets no response and 499 |
| Forward.AttemptsFollow | internal/gateway/forward.go:152-189 | an attempt is followed by one on the same account only after a 503 with the marker, by one on an account not tried before after a 401, a lost or an unsigned request, and by none after any other reply |
| Forward.CapacityIsUsedUp | internal/gateway/forward.go:173-186 | a 503 with the marker is the last reply only when the account lacked capacity in max(0, R) + 1 attempts, or the client left while waiting |
| Forward.AttemptsAreFew | internal/gateway/forward.go:152-191 | no account is tried more than max(0, R) + 1 times |
| Forward.ReportedIff | internal/gateway/forward.go:155-241 | the reports are exactly those of the attempts that were lost or unsigned, got a 2xx, or got a reply that is neither 401 nor lack of capacity |
| Forward.NoAccountIsTold | internal/gateway/forward.go:66-77 | with no account left the client gets 502 after a lost or unsigned request, else 503 |
| Forward.ErrorTextSurvivesSuccess | internal/gateway/forward.go:171-230 | every request lost on the first account and served by the second is logged with the error text of the lost one |
| Forward.ServedAfterLoss | internal/gateway/forward.go:66-106 | such a request, carried out |
| Forward.Request.ReportsGoOn | internal/gateway/forward.go:153-251 | one account's attempts add at most one report, a failure without status while the search goes on, the verdict with the answer |
| Forward.Request.HistoryOfRetries | internal/gateway/forward.go:174-189 | retried replies are not reported |
| Forward.Request.OnlyLastReplyCounts | internal/gateway/forward.go:174-189 | retried replies are neither 401 nor lost requests |
| Utf8.BoundaryNear | internal/gateway/normalize.go:198-200 | any four consecutive positions of valid text hold a character boundary |
| Utf8.BackOff | internal/gateway/normalize.go:198-200 | dropping bytes until valid gives the longest valid prefix |
| Utf8.LongestValidPrefix | internal/gateway/normalize.go:197-200 | valid, a prefix, and no longer prefix is valid; valid texts are those of Utf8Encoding.ValidIffEncoded |
| Utf8.KeptIsLongest | internal/gateway/normalize.go:196-200 | no valid prefix within the room is longer than what is kept |
| Utf8.KeptWastesLittle | internal/gateway/normalize.go:190-200 | cutting valid text wastes at most three bytes |
| Utf8Encoding.CharLenOfEncoded | internal/gateway/normalize.go:198 | the encoding of every scalar value, by code point arithmetic, is one character, whatever follows |
| Utf8Encoding.ValidIffEncoded | internal/gateway/normalize.go:198 | a text is valid if and only if it is the concatenation of encoded scalar values |
| Utf8Encoding.KeptIsWholeCharacters | internal/gateway/normalize.go:196-200 | of a text of characters the first ones are kept whole, as many as fit |
| Utf8Encoding.CutToCharacters | internal/gateway/normalize.go:191-211 | cutting a prompt cuts its texts to whole characters |
| Utf8Encoding.KeptOfSame | internal/gateway/normalize.go:196-200 | of one character over and over as many are kept as their bytes fit |
| Utf8Encoding.FiftyChineseCharacters | internal/gateway/normalize.go:196-200 | of fifty three-byte characters 46 are kept in 138 bytes |
| Truncation.BudgetIsUsed | internal/gateway/normalize.go:191-211 | the output is within the budget, loses nothing when all fits, and otherwise wastes at most three bytes |
| Truncation.OutputsAreProper | internal/gateway/normalize.go:202-205 | every output is a nonempty valid text |
| Truncation.FittingTextsStayWhole | internal/gateway/normalize.go:196-205 | texts before the first that does not fit are kept whole and the budget goes on from there |
| Truncation.CutOnce | internal/gateway/normalize.go:194-209 | the output is the fitting texts, the longest valid prefix of the next, and what fits of later texts in the leftover |
| Truncation.OutputIsPrefixIff | internal/gateway/normalize.go:189-209 | it is a prefix of all the text exactly when everything fits or no later text starts with a character that fits in the leftover |
| Truncation.CutSkipsACharacter | internal/gateway/normalize.go:197-205 | inputs whose output within the 200 bytes asked for is not a prefix |
| Normalize.TruncateSystemBlocks | internal/gateway/normalize.go:191-211 | the loop with its early exit outputs text blocks of the truncated texts, cut to whole characters by Utf8Encoding.CutToCharacters |
| Normalize.Rewriting.NormalizeMessages | internal/gateway/normalize.go:82-123 | the new body and the recorded actions |
| Normalize.RequestIsRewritten | internal/gateway/normalize.go:82-143 | the body and the actions written out for a request with a top-level and a late system prompt and top_p, whatever its texts: in order, the identity line for models named claude... alone, cut to the 138 bytes beside it, or dropped when strict |
| Normalize.TwoTextsBecome | internal/gateway/normalize.go:108-143 | the system prompt of a claude request from two texts without the identity line |
| Normalize.PartitionIsStable | internal/gateway/normalize.go:85-92 | every message is kept, or its blocks are hoisted, between what precedes and what follows it in the request |
| Normalize.HoistLeavesNoSystem | internal/gateway/normalize.go:93-98 | once any block is hoisted no system message is left, and top-level blocks come first |
| Normalize.NormalizedParts | internal/gateway/normalize.go:82-123 | messages, system, top_p; every other field is untouched |
| Normalize.ClaudeSystemIsShort | internal/gateway/normalize.go:113-121 | the system prompt of a claude request measures at most 200 bytes |
| Normalize.AllTextIsShortIff | internal/gateway/normalize.go:113-181 | all its text is at most 200 bytes exactly unless unmeasured strings pass beside an identity line |
| Normalize.KeptHoldsIff | internal/gateway/normalize.go:160-200 | a cut text holds the identity line exactly when an occurrence ends in time |
| Normalize.TruncatedHoldsIff | internal/gateway/normalize.go:160-211 | some truncated block holds it exactly when an occurrence ends in time, inside one block |
| Normalize.InjectedIdentityStays | internal/gateway/normalize.go:108-121 | an injected identity line survives every mode |
| Normalize.IdentityIntactIff | internal/gateway/normalize.go:108-121 | the identity line is intact exactly when injected, nothing is cut, the mode is strict, or it ends within the first 200 bytes inside one block |
| Normalize.LateIdentityIsCut | internal/gateway/normalize.go:121 | behind 139 bytes of other text it is cut |
| Normalize.CutPromptIsNoPrefix | internal/gateway/normalize.go:121 | prompts with the identity line in front whose cut is not a prefix of their text |
| Normalize.UnmeasuredStringPasses | internal/gateway/normalize.go:113-187 | a plain string of any length beside an identity block passes uncut in every mode |
| Normalize.NoMessagesLeftIff | internal/gateway/normalize.go:84-95 | the messages are sent as null exactly when all were hoisted |
| Normalize.SecondGatewayChangesNothingIff | internal/gateway/normalize.go:71-123 | rewriting the body as it was written out and decoded again changes nothing exactly for other models or an intact identity line |
| Normalize.SecondPassChangesNothingIff | internal/gateway/normalize.go:82-123 | a second rewriting, in any mode, changes nothing exactly for other models or an intact identity line |
| Normalize.SecondPassIff | internal/gateway/normalize.go:82-123 | the same condition on the original body: not claude, injected, nothing cut, strict, or an identity line early enough |
| Normalize.NoActionsIffUnchanged | internal/gateway/normalize.go:97-122 | no action is recorded exactly when the body is unchanged |
| Cost.BestIsUnique | internal/billing/billing.go:102-107 | at most one name is the longest family, so the order of the map iteration does not matter |
| Cost.FamilyIff | internal/billing/billing.go:102-105 | a model is of a family exactly when its name is the family's, a dash, and anything |
| Cost.PriceIsUnique | internal/billing/billing.go:99-109 | the price of a model is determined by the table |
| Cost.FindBest | internal/billing/billing.go:102-107 | in any order the loop finds the longest family name |
| Cost.Price | internal/billing/billing.go:99-109 | the price by the model's own name, else by its longest family name, else by the empty name |
| Cost.LongestFamilyPrices | internal/billing/billing.go:101-108 | a model without a price of its own has that of its longest family, and no other |
| Cost.NoFamilyPrices | internal/billing/billing.go:102-108 | without a family it has the price of the empty name, zero when absent |
| Cost.CostLocked | internal/billing/billing.go:98-112 | a price exists, and the cost is that at every price the table allows, whatever the order of the loop |
| Cost.CostIsAdditive | internal/billing/billing.go:110-111 | cost is additive in tokens and zero for none |
| Cost.MillionTokensCost | internal/billing/billing.go:110-111 | a million tokens of one kind cost that kind's price times the multiplier |
| Cost.CostsAddUp | internal/billing/billing.go:110-111 | the costs of any requests add up to the cost of all their tokens |
| UsageLogs.StepConserves | internal/billing/billing.go:78-159 | each atomic step keeps every log in exactly one place |
| UsageLogs.StepMatchesTotals | internal/billing/billing.go:151-158 | each atomic step keeps a key's rows equal to its totals, what is pending and what failed |
| UsageLogs.RunConserves | internal/billing/billing.go:78-180 | both, in every interleaving of Record, timer flush, full-batch flush and key deletion |
| UsageLogs.StoredExactlyOnce | internal/billing/billing.go:141-159 | at rest each log is stored or dropped once; without store errors each is stored once and the totals of surviving keys have the sum of the inputs, of the outputs and of the costs of their rows |
| UsageLogs.SumForIsFieldwise | internal/billing/billing.go:155-157 | what the logs add to a key is the sum of its inputs, of its outputs and of its costs, each field to its own |
| UsageLogs.RestAddsUp | internal/store/store.go:481-487 | at rest, whatever the store did, the rows of every surviving key are in its totals field by field, except those whose update failed |
| UsageLogs.CloseStoresAll | internal/billing/billing.go:175-180 | with no Record after its flush, Close leaves nothing behind |
| UsageLogs.AllStoredIffBufferEmpty | internal/billing/billing.go:141-159 | at rest, every recorded log is stored or dropped exactly when the buffer is empty |
| UsageLogs.BufferEmptyIff | internal/billing/billing.go:82-149 | from an empty buffer, it is empty in the end exactly when every Record that took effect was followed by a Flush that took effect |
| UsageLogs.CloseStoresAllIff | internal/billing/billing.go:175-180 | Close leaves nothing behind exactly when every Record after its flush was followed by another flush |
| UsageLogs.LateRecordIsNotStored | internal/billing/billing.go:175-180 | a Record after that flush stays in the buffer |
| Billing.Recorder.Record | internal/billing/billing.go:78-88 | one more log, at its cost, and all logs still in one place each; the buffer stays below 20 |
| Billing.Recorder.Flush | internal/billing/billing.go:142-159 | the buffer is empty and the logs whose insert works are appended to the rows in order, by steps of UsageLogs; every key's totals have the sum of the inputs, of the outputs and of the costs of its rows, except those whose update failed |
| Billing.Recorder.Close | internal/billing/billing.go:176-180 | every log given to Record is stored or was dropped, once |
| OAuthFlow.FlowStore.ServeCallback | internal/admin/oauth.go:219-285 | a callback alone with the store imports exactly when the flow is live and pending and the request is in order and brings a token; then the flow shows the outcome; any other leaves the flows as they were |
| OAuthFlow.FlowLivesTenMinutes | internal/admin/oauth.go:189-193 | however callbacks, pollers, clock and sweeper go on, a new flow is there for exactly ten minutes |
| OAuthFlow.FlowStore.Sweep | internal/admin/oauth.go:61-74 | exactly the expired flows are deleted, in any order |
| OAuthFlow.StepIsExclusive | internal/admin/oauth.go:239-240 | callbackMu: one callback of a flow at most is past it |
| OAuthFlow.ImportStepImportsOnce | internal/admin/oauth.go:241-283 | checking, importing and recording keep the import count and the result in step |
| OAuthFlow.OneImport | internal/admin/oauth.go:217-285 | however callbacks, expiry and the sweeper interleave, a flow imports at most once, and then shows a result as long as it is in the store |
| OAuthFlow.ResultNeverChanges | internal/admin/oauth.go:93-101 | a result is never replaced |
| OAuthFlow.PollersNeverGoBack | internal/admin/oauth.go:114-125 | a flow's pollers are told pending, then one result, then gone |
| Summary.Aggregate | internal/admin/summary.go:31-49 | the totals, and per model the sums of its rows |
| Summary.PlaceBest | internal/admin/summary.go:55-60 | the inner loop brings the best of the rest into place, in the array |
| Summary.ExchangeSort | internal/admin/summary.go:54-61 | the array ends sorted by cost, then requests, and is a permutation |
| Summary.GroupsAddUp | internal/admin/summary.go:33-49 | the five totals are the sums over the models |
| Summary.PermutationLists | internal/admin/summary.go:54-61 | sorting loses and doubles no model |
| Summary.Group | internal/admin/summary.go:31-53 | every model of the rows once, and the five totals of the list are those of the rows |
| Summary.CutIsRanking | internal/admin/summary.go:62-64 | no model dropped by the cut ranks above a kept one, and none is dropped below ten |
| Summary.SumRows | internal/admin/summary.go:30-66 | the totals of the rows, field by field, and a ranking of at most ten models, once each with their usage, best first, that no missing model would beat |
| Summary.SumIsFieldwise | internal/admin/summary.go:33-48 | requests, input, output, cached and cost are each the sum of their own field |
| Summary.RankingIsByCost | internal/admin/summary.go:55-64 | a shown model costs at least as much as the next one or a missing one, by the sums of its rows, and with the same cost has at least as many requests |
| Summary.Classify | internal/admin/summary.go:72-95 | each class counts the accounts that show its facts and enabled the enabled ones; the classes partition the accounts; the four enabled ones sum to enabled |
| Summary.CountIsSize | internal/admin/summary.go:74-94 | an account is disabled, cooling down, suspended, exhausted or usable by its own facts |
| Summary.UsableIsUsable | internal/admin/summary.go:82-94 | the dashboard calls an account usable exactly when the pool does |
| Summary.SummarizeAccounts | internal/admin/summary.go:70-95 | usable is the number of entries the pool would accept at that instant, enabled and cooldown those of the enabled and of the enabled cooling down |

## Left out

- HTTP, TLS, proxies, headers, routing and the browser pages: replies are an arbitrary choice of status, body and error.
- SQLite: a usage log insert and an update of a key's totals are atomic and can fail; SQL is not modelled. A key is
  present from the start, since before its first log a later one could not be told apart.
- Cryptography, tickets, credential refresh, JWT claims and entitlements; `SignedRequest` succeeds or fails. A client that
  disconnects inside it counts as a failure of the account, as in the code; the model has no separate outcome for it.
- JSON parsing: usage extraction from one payload is a parameter. `SseTee.TeeLosesNoUsage` assumes that a payload without
  the text `"usage"` yields nothing, which a key written with escapes or in another case would break; `JSON.parse` errors
  and `TextDecoder` in `consumeSSE` are not modelled, and stream text is a sequence of Unicode scalar values.
- Floating-point rounding of weights, ratios and costs; overflow of counters and token sums; the random generator (the draw
  is a parameter) and the clock (a parameter; the pool reads it under its lock, so
  there it does not go back).
- The order of map iteration is an arbitrary choice, everywhere.
- `Pool.Reload`, which keeps the old client of an account that logs in again, and the refresh of quota snapshots: weights
  and usability are fixed during one `Pick`.
- The affinity key, routing prefixes, model families other than claude, runtime settings and configuration: settings are
  fixed during one request, and back-off sleeps have no duration.
- Limits hold for one Handler; `cmd/server/main.go:87-93` builds two, so a key's limits hold for each of them.
- The HTTP checks of a callback (host, origin, method, header) are part of the choice whether it brings a token.
- Pasted tokens and the e-mail login, which import without a flow.
- When prices are refreshed and how settings are read: the price table and the multiplier are parameters.
- PoolEntry.Entry.ReportFailure: how the text of an error is shortened to one line is left to the caller, and the refresh
  of the quota that is asked for happens elsewhere.
- PoolSessions.Evict: its guard that the front of the list is in the map is not in the code; where the invariant holds it is
  always true.
- Normalize.Rewriting.Cloak: text that is not valid UTF-8 could leave no block, a nil slice, for which the model has an empty
  array; decoded JSON strings are valid, and then a cut prompt keeps at least 197 bytes.
- SseTee.TeeStream: a failed read ends the stream like its end; write errors are ignored, as in the code.
- Forward.Request.Forward: the response body and headers, the duration and the retry count of the log are not modelled.

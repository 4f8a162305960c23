# A verified model of the INT3RCEPTOR core

INT3RCEPTOR is an intercepting HTTP proxy.  This project models the parts of its core that hold
concurrent, arithmetic or stateful logic, and proves properties of them over all inputs, all runs and
all interleavings.

| module | what it models |
|---|---|
| `Attack` | the intruder's attack protocol: one atomic flag, a semaphore, a driver and its workers |
| `Templates`, `Orders`, `Generators` | payload substitution in templates, when the order of replacements shows, and the four request generators |
| `RateLimiting`, `LimiterRuns`, `LimiterAnswers`, `SplitChecks` | the token buckets of the rate limiter, whole runs of checks and cleanups, what its answers mean, and checks that overlap |
| `Cidr` | CIDR matching and the address filter |
| `WsCapture` | the WebSocket frame store with its two limits |
| `Blob`, `Storage`, `StorageLaws`, `Capture`, `CaptureLaws` | the encrypted blob format, the table of captures, and the window of recent ones with restart |
| `Rules`, `RuleLaws` | the rewrite rules with their cache of compiled patterns, and what each rule does to a message |
| `Metrics` | the concurrent timing counters and the latency histogram |
| `Text` | searching, joining and replacing in strings |
| `Arith`, `Options`, `Addresses` | shared arithmetic, optional values, addresses |

How the pieces are modelled:

- Objects that the program updates in place are classes; each method is proved against a function on
  values, and the theorems are about those functions.
- Concurrency is a transition system whose steps are the accesses to shared state (an atomic operation,
  or one lock scope).  A step that is not enabled leaves the state unchanged, so every sequence of steps
  is a run, and a theorem over all sequences covers every interleaving.
- Fixed-width integers that can overflow are written with an explicit modulus, as in a release build:
  u32 refill counts and tokens, u64 counters, the i64 columns of the table, the usize number of
  combinations.
- Time, nonces, the outcome of sends and the availability of the database are inputs.  Regular
  expressions, the cipher, JSON, UTF-8, header-name parsing and the SQL LIKE operator are function
  parameters, with the laws used stated in `Storage.Lawful` and `Rules.Lawful`.

Where the code and what one might expect differ, the code is followed and the difference is proved:

- `docs/INTRUDER.md:19` describes Pitchfork as placing payload 1 into position 1 and payload 2 into
  position 2; the code puts the same payload at every position of a request.
- After `stop_attack` a new attack can be accepted while the old one still drains.  Exclusion is lost
  exactly by stops of a running attack (`Attack.StopSpoilsExclusionIff`), and so is the promise of one
  result list per attack (`Attack.StopCanMixIff`).  That the stopped attack has nothing left to send is
  enough for the next attack (`Attack.NextAttackMixesIff`) but not for later ones, because its driver
  still clears a flag that is no longer its own.  Should generation ever return an error, the flag would
  stay set until a stop (`Attack.FailureWedgesTheFlag`); no generator does.
- Chained replacement depends on the order of the positions exactly when a replaced marker shares its
  second mark with a marker of another name, on templates where no replacement joins texts into a new
  marker (`Orders.OrderShowsIff`); where one does, the order may show without that
  (`Orders.JoinedMarkDependsOnOrder`).  `Separable` is sufficient and not necessary: it refuses
  `§m§m§`, on which chain and substitution agree (`Orders.SeparableIsNotNecessary`).
- The number of combinations wraps (`Generators.MissedVector`).
- A restart whose reload fails, because the database cannot be reached or one row no longer reads back,
  is not reported: like one with capacity 0 it loads nothing and counts from 1, and later pushes replace
  stored captures (`Capture.BadRestartOverwrites`).
- A reload puts the oldest entry first, although pushes put the newest first
  (`Capture.ReloadReversesWindow`).
- An average reported while calls are under way may exceed the maximum, exactly if the largest sum would
  lift it there (`Metrics.ReportCanMisleadIff`), and in two ways (`Metrics.BusyReportCanMislead`,
  `Metrics.LoopingCallCanMislead`).
- Buckets dropped too early let an address exceed its bound (`LimiterRuns.EarlyCleanupExceedsWindow`);
  the shipped age is not too early.
- An in-memory query for status 0 finds entries without a response, which the table does not
  (`Capture.MemoryIsPrefixOfStorage`).
- The field for durations above 5 s also holds those of exactly 5 s (`Metrics.BucketIff`).

## Model

| member | source | states |
|---|---|---|
| `Attack.ConcurrencyAndOrder` | int3rceptor/core/src/intruder.rs:84-151 | In every run, stops and overlapping attacks included: at most max(1, concurrency) requests of an attack are in flight, requests are dispatched in order and each at most once, each yields at most one result, and that result carries the payload of its request |
| `Attack.BoundIsReached` | int3rceptor/core/src/intruder.rs:86-99 | Wherever a start is accepted, an attack with at least max(1, concurrency) requests has a run with exactly that many in flight |
| `Attack.InFlightIs` | int3rceptor/core/src/intruder.rs:97-141 | Requests in flight are the workers whose task has not ended |
| `Attack.ResultsAreReported` | int3rceptor/core/src/intruder.rs:117-123 | In every run, each result in the list carries the status and length its worker received |
| `Attack.ReportsAreKept` | int3rceptor/core/src/intruder.rs:117-123 | A report appends one result with its payload, status and length; only clearing, which empties the list, removes any |
| `Attack.AtMostOneAfterStop` | int3rceptor/core/src/intruder.rs:90-95 | After `stop_attack`, until another start, a driver dispatches at most one more request, and only if it had already read the flag |
| `Attack.ClearFlagEndsDispatch` | int3rceptor/core/src/intruder.rs:90-98 | The same for any moment the flag is clear and for all drivers at once: dispatched plus already committed requests never grow |
| `Attack.AcceptedStartFindsNobody` | int3rceptor/core/src/intruder.rs:78-80 | Over runs of any number of starts in which every stop finds the flag clear: an accepted start finds every earlier driver finished, no worker in flight, and every earlier request dispatched |
| `Attack.CloseMeansDrained` | int3rceptor/core/src/intruder.rs:145-150 | In such runs, when a driver is about to clear the flag it has dispatched all its requests in order and none is in flight |
| `Attack.ResultsNeverMixed` | int3rceptor/core/src/intruder.rs:82-84 | In such runs the result list never holds results of two attacks |
| `Attack.StopSpoilsExclusionIff` | int3rceptor/core/src/intruder.rs:150-158 | A first stop leaves every later run (whose stops find the flag clear) with at most one live attack if and only if `is_running` was false before it, or its attack had never launched |
| `Attack.StopCanMixIff` | int3rceptor/core/src/intruder.rs:82-158 | After that stop some such run mixes the results of two attacks if and only if `is_running` was true and the attack had launched: even a stopped attack with nothing left to send clears the flag of the next one |
| `Attack.NothingToSendIsNotEnough` | int3rceptor/core/src/intruder.rs:145-158 | A stopped attack without requests, which can report nothing, still lets two later attacks mix |
| `Attack.NextAttackMixesIff` | int3rceptor/core/src/intruder.rs:89-158 | Within one further start, and whatever further stops, results can mix if and only if the latest attack has a sending worker or its driver has requests left to dispatch |
| `Attack.OrderlyRunsAreExclusive` | int3rceptor/core/src/intruder.rs:78-158 | In runs whose accepted starts find all earlier attacks over, stops included, only the latest attack is live and all results belong to one attack |
| `Attack.InternalStepsRunOut` | int3rceptor/core/src/intruder.rs:89-151 | Every step of a task uses up a bounded number of remaining steps of its attack and touches no other attack, so no task runs for ever |
| `Attack.NeverStuck` | int3rceptor/core/src/intruder.rs:90-148 | While an attack is neither finished nor failed, one of its own steps is enabled: a driver waiting for a permit always has a worker that will return one |
| `Attack.RunKeepsInv` | int3rceptor/core/src/intruder.rs:72-158 | The invariant behind these results (permits plus in-flight workers equal the limit, dispatch order, result provenance) holds along every run |
| `Templates.ChainIsSubstitution` | int3rceptor/core/src/intruder.rs:179-286 | For mark-free names and payloads and a separable template, the chain of `replace` calls equals one simultaneous substitution of all markers; a repeated name keeps its first payload |
| `Templates.MarkerIs` | int3rceptor/core/src/intruder.rs:189 | A marker is a name between section signs |
| `Text.ReplaceJoins` | int3rceptor/core/src/intruder.rs:190 | Replacing joins the pieces of a text between the occurrences of the target, read from the left, by the replacement |
| `Text.PiecesOf` | int3rceptor/core/src/intruder.rs:190 | Every text has such pieces |
| `Text.ReplaceFirst` | int3rceptor/core/src/intruder.rs:190 | The first occurrence gives way to the replacement, and the search goes on behind it |
| `Templates.OrderIrrelevant` | int3rceptor/core/src/intruder.rs:193-197 | Hence the order in which positions are replaced does not matter |
| `Templates.ForeignCharactersSeparate` | int3rceptor/core/src/intruder.rs:179-286 | Templates whose literals between markers hold a character no position name uses are separable |
| `Templates.ReplaceIsPassOne` | int3rceptor/core/src/intruder.rs:189-190 | One `replace` of a marker, on the string, is one pass over the texts between the marks |
| `Templates.SubstituteIsPassAll` | int3rceptor/core/src/intruder.rs:179-286 | The reference substitution is the pass that replaces all names at once |
| `Templates.PassOneThenRest` | int3rceptor/core/src/intruder.rs:193-197 | Replacing one name leaves a template on which the remaining names, substituted at once, give what all names substituted at once give |
| `Orders.OrderShowsIff` | int3rceptor/core/src/intruder.rs:179-286 | On every template where no replacement joins texts into a new marker, blanks of a Sniper request and payloads that are part of names included: every order of the positions gives the simultaneous substitution if and only if no replaced marker shares its second mark with a marker of another name; otherwise two orders give different requests |
| `Orders.ForeignPayloadsAreEnough` | int3rceptor/core/src/intruder.rs:179-286 | Payloads that are part of no position name join nothing, on any template |
| `Orders.SeparableHasNoClash` | int3rceptor/core/src/intruder.rs:179-286 | Separable templates meet the condition, so the exact result covers them |
| `Orders.SharedMarkDependsOnOrder` | int3rceptor/core/src/intruder.rs:192-197 | On `§m§n§` the order of the positions shows for all names m, n and all payloads |
| `Orders.JoinedMarkDependsOnOrder` | int3rceptor/core/src/intruder.rs:192-197 | When a payload p joins the texts x and y around its marker into a name x + p + y, the order shows although no markers share a mark |
| `Orders.SeparableIsNotNecessary` | int3rceptor/core/src/intruder.rs:192-197 | `§m§m§` is not separable, and yet chain and substitution agree on it for all payloads |
| `Orders.EvenRunAgrees` | int3rceptor/core/src/intruder.rs:192-197 | Two different names side by side need not matter: on `§m§m§n§` both orders agree for all payloads |
| `Generators.GenerateSniper` | int3rceptor/core/src/intruder.rs:179-205 | The request list is the specified one: for each payload in order, one request per position in order |
| `Generators.SniperAt` | int3rceptor/core/src/intruder.rs:184-202 | The request of payload k and position q stands at index k * positions + q, and there are payloads * positions of them |
| `Generators.SniperMeaning` | int3rceptor/core/src/intruder.rs:184-202 | On separable templates that request is the template with the payload at the attacked name and nothing at every other, substituted at once |
| `Generators.GenerateBattering` | int3rceptor/core/src/intruder.rs:207-226 | Request k puts payload k at every position |
| `Generators.GeneratePitchfork` | int3rceptor/core/src/intruder.rs:228-252 | Request k puts payload k at every position and is labelled with one copy of it per position |
| `Text.JoinIs` | int3rceptor/core/src/intruder.rs:248 | Labels of several payloads have the separator between any two and nothing else added |
| `Generators.UniformMeaning` | int3rceptor/core/src/intruder.rs:207-252 | On separable templates a Battering or Pitchfork request is one simultaneous substitution |
| `Generators.GenerateClusterBomb` | int3rceptor/core/src/intruder.rs:254-287 | One request per combination number; request i uses the payload numbers that are the base-n digits of i, first position fastest; none without positions |
| `Generators.VectorMeaning` | int3rceptor/core/src/intruder.rs:273-280 | On separable templates a cluster-bomb request is one simultaneous substitution of its combination; a repeated name gets the payload of its first position |
| `Generators.DigitsOfIndex` | int3rceptor/core/src/intruder.rs:270-280 | The digits of the number of a payload vector are that vector |
| `Generators.IndexOfDigits` | int3rceptor/core/src/intruder.rs:270-280 | The number of the digits of i is i, and every digit is a payload number |
| `Generators.EveryVectorOnce` | int3rceptor/core/src/intruder.rs:267-280 | No combination is generated twice, and every payload vector is generated if and only if n^p fits in a machine word |
| `Generators.CombinationsExact` | int3rceptor/core/src/intruder.rs:267 | The number of requests, with the count of positions cast to u32 and wrapping exponentiation, is never above n^p and equals it if and only if n^p fits in a machine word |
| `Generators.CountIsPeriodic` | int3rceptor/core/src/intruder.rs:267 | The count of positions is cast to u32: 2^32 more make no difference |
| `Generators.MissedVector` | int3rceptor/core/src/intruder.rs:267 | When n^p does not fit, names a payload vector that the wrapped loop bound leaves out |
| `Generators.BatteringIsDiagonal` | int3rceptor/core/src/intruder.rs:207-287 | The replacements of Battering request k are those of combination k * (1 + n + ... + n^(p-1)) |
| `Generators.CompareGenerators` | int3rceptor/core/src/intruder.rs:207-287 | Run on one configuration, Pitchfork builds the request strings of Battering one by one, and Battering request k is the cluster-bomb request at index k * (1 + n + ... + n^(p-1)) wherever that was generated, for every template; it always was if n^p fits in a machine word |
| `RateLimiting.TokenBucket.RefillAt` | int3rceptor/core/src/security.rs:61-71 | Refill in place: the new bucket is the refill function of the old one, for every rate, overflow of u32 included |
| `RateLimiting.TokenBucket.TryConsume` | int3rceptor/core/src/security.rs:51-59 | One attempt: refill, then take a token if there is one |
| `RateLimiting.RateLimiter.constructor` | int3rceptor/core/src/security.rs:79-94 | A new limiter: full shared bucket of ten times the size (saturating), whole-millisecond rate, no address buckets |
| `RateLimiting.RateLimiter.PassGlobal` | int3rceptor/core/src/security.rs:96-105 | The first half of a check changes the shared bucket and nothing else |
| `RateLimiting.RateLimiter.CheckBucket` | int3rceptor/core/src/security.rs:107-127 | The second half changes the one bucket of its address, created full if missing, and nothing else, and answers as the specification does |
| `RateLimiting.RateLimiter.CheckAt` | int3rceptor/core/src/security.rs:96-127 | A check is its two halves, with its three readings of the clock |
| `LimiterAnswers.RefusalsSay` | int3rceptor/core/src/security.rs:96-127 | In any run a refusal by the shared bucket names the window, and one by the bucket of the address the whole-millisecond share of the window; neither leaves anything |
| `LimiterAnswers.WaitingIsEnough` | int3rceptor/core/src/security.rs:122-126 | Once an address has waited as long as its own bucket told it, or longer, that bucket has a token, until the refill count can wrap |
| `LimiterAnswers.WaitingLessIsNot` | int3rceptor/core/src/security.rs:122-126 | No shorter wait is always enough |
| `LimiterAnswers.RemainingCountsDown` | int3rceptor/core/src/security.rs:118-121 | The first max_requests checks of an address are allowed, and their answers count down to 0 |
| `RateLimiting.RateLimiter.CleanupAt` | int3rceptor/core/src/security.rs:129-133 | Exactly the buckets idle for less than the age are kept, unchanged |
| `RateLimiting.RefillsOf` | int3rceptor/core/src/security.rs:64-65 | Counting in whole milliseconds loses nothing, because rates are whole milliseconds |
| `LimiterAnswers.RefillIs` | int3rceptor/core/src/security.rs:61-71 | A refill adds the whole periods since the last one, in 32 bits and up to the capacity, and forgets the rest of the time; without a whole period nothing changes |
| `LimiterAnswers.RateIs` | int3rceptor/core/src/security.rs:80-84 | The rate is the whole-millisecond share of the window, or one second if nothing is allowed |
| `LimiterAnswers.NewIs` | int3rceptor/core/src/security.rs:79-94 | A new limiter on its fields: ten times the requests, or what fits 32 bits, in the shared bucket, and a full bucket for an address without one |
| `RateLimiting.ConsumePays` | int3rceptor/core/src/security.rs:51-71 | Each success costs one refill period of a budget that refusals never increase |
| `RateLimiting.BudgetGrows` | int3rceptor/core/src/security.rs:61-71 | That budget grows no faster than time |
| `RateLimiting.BucketWindow` | int3rceptor/core/src/security.rs:41-76 | In every run of one bucket, any window of length w sees at most max_tokens + ceil(w / rate) successes; the u32 wrap of the refill count never breaks the bound |
| `RateLimiting.TokensConserved` | int3rceptor/core/src/security.rs:51-71 | Tokens left plus tokens spent equal tokens at the start plus tokens regained |
| `RateLimiting.RemaindersCostLessThanHalf` | int3rceptor/core/src/security.rs:63-69 | Over any run that never saturates, while last_refill advances by D between D/(2r-1) and D/r tokens are regained |
| `LimiterAnswers.RemaindersAreLost` | int3rceptor/core/src/security.rs:61-71 | That bound is sharp: k attempts just before a second period is over regain k tokens in k * (2r-1) |
| `LimiterRuns.PerAddressWindow` | int3rceptor/core/src/security.rs:96-133 | In every run, any window of length w allows one address at most max_requests + ceil(w / rate) checks, if cleanups in the window keep what a full refill takes |
| `LimiterRuns.EarlyCleanupExceedsWindow` | int3rceptor/core/src/security.rs:96-133 | Cleanups of too small an age break that bound: as long as the shared bucket lasts, k of them allow k + 1 full bursts, and more than the bound if k times the missing time is a refill period |
| `LimiterRuns.EarlyAges` | int3rceptor/core/src/security.rs:79-133 | For max_requests below 2^32 / 10 some such k exists for every age that falls short of max_requests * rate by a ninth of rate / max_requests |
| `LimiterRuns.TotalWindow` | int3rceptor/core/src/security.rs:79-133 | All addresses together get at most 10 * max_requests + ceil(w / rate), whatever the cleanups |
| `LimiterRuns.ZeroRateNeverRefills` | int3rceptor/core/src/security.rs:64-81 | With less than a millisecond per request the rate is zero and at most the first 10 * max_requests checks are ever allowed |
| `SplitChecks.CreateThenSettle` | int3rceptor/core/src/security.rs:107-127 | Creating a bucket at one reading of the clock and settling at a later one is the second half of a check, whatever happens to the shared bucket in between |
| `SplitChecks.OverlappingPerAddress` | int3rceptor/core/src/security.rs:96-133 | With the two locks of a check and its three readings of the clock in separate steps, and other checks and cleanups in between, the bound for one address is unchanged |
| `SplitChecks.OverlappingTotal` | int3rceptor/core/src/security.rs:96-133 | The bound for all addresses then grows by the checks that were between their locks when the window began |
| `LimiterRuns.CleanupInvisible` | int3rceptor/core/src/security.rs:96-133 | When max_requests is 0, or the age is at least max_requests * rate > 0, every check in every run gets the answer, `remaining` included, of a limiter that never cleaned up, until the refill count can wrap |
| `LimiterRuns.WrapVisible` | int3rceptor/core/src/security.rs:64-69 | For every configuration that allows something and refills, and every age up to k * 2^32 refill periods for some k, a run of that length notices the cleanup; so that limit is needed |
| `LimiterRuns.CleanupVisible` | int3rceptor/core/src/security.rs:96-133 | For every other configuration there is a run in which cleanup changes an answer, and for limits up to 2^31 one that ends long before the refill count can wrap: the condition is exact |
| `LimiterRuns.ShippedConfiguration` | int3rceptor/api/src/auth.rs:13-15 | The configuration of the server has a rate of 600 ms and satisfies the condition for the 300 s cleanup of line 188 |
| `Cidr.MaskIsOnes` | int3rceptor/core/src/security.rs:346-350 | The mask, computed by a shift that drops its high bits, is `prefix` ones followed by zeros |
| `Cidr.MaskedEqualIsShift` | int3rceptor/core/src/security.rs:346-365 | Two addresses agree under the mask if and only if they agree after dropping the low bits |
| `Cidr.InCidrIsBlock` | int3rceptor/core/src/security.rs:340-368 | The test is membership in an aligned block of 2^(width - prefix) addresses of the same family, as section 3.1 of RFC 4632 defines prefixes; too long a prefix or another family matches nothing |
| `Cidr.CoversIsInside` | int3rceptor/core/src/security.rs:340-368 | Containment of ranges is decided exactly by comparing prefixes and one network address |
| `Cidr.NestedOrDisjoint` | int3rceptor/core/src/security.rs:340-368 | Any two ranges are nested or disjoint |
| `Cidr.Halves` | int3rceptor/core/src/security.rs:340-368 | A block is the union of its two halves, which are disjoint |
| `Cidr.IpFilter.IsInBlocklist` | int3rceptor/core/src/security.rs:278-290 | The loop finds a match exactly when the address or a range of the blocklist has it |
| `Cidr.IpFilter.IsInAllowlist` | int3rceptor/core/src/security.rs:292-311 | The same for the allowlist, where a wholly empty list admits everybody |
| `Cidr.ListedIff` | int3rceptor/core/src/security.rs:278-310 | An address is listed if and only if it is named or lies in a listed block, given by quotients; a wholly empty allowlist lists everybody |
| `Cidr.IpFilter.IsAllowed` | int3rceptor/core/src/security.rs:249-276 | Both directions: when an address is admitted, and which reason a refusal gives |
| `Cidr.IpFilter.AllowCidr` | int3rceptor/core/src/security.rs:239-242 | Appends a range to the allowlist |
| `Cidr.IpFilter.BlockCidr` | int3rceptor/core/src/security.rs:244-247 | Appends a range to the blocklist |
| `Cidr.RedundantRange` | int3rceptor/core/src/security.rs:278-310 | Removing a range covered by another range of its list changes no match and does not empty the list |
| `Cidr.SameAnswers` | int3rceptor/core/src/security.rs:249-310 | Two filters that differ in one such range, on either list, answer alike for every address |
| `WsCapture.WsCapture.CaptureFrame` | int3rceptor/core/src/websocket.rs:104-184 | Oversized payloads are refused without effect; otherwise the frame is admitted under both limits, its id is the former length plus one, and its connection counts it |
| `WsCapture.WsCapture.StoreFrame` | int3rceptor/core/src/websocket.rs:151-174 | Push, global eviction and per-connection eviction in place give the specified list |
| `WsCapture.WsCapture.EvictOldest` | int3rceptor/core/src/websocket.rs:167-168 | The search finds and removes the first frame of the connection |
| `WsCapture.WsCapture.CountOne` | int3rceptor/core/src/websocket.rs:176-180 | The search finds the connection registered first under the id and counts one frame |
| `WsCapture.WsCapture.GetFrames` | int3rceptor/core/src/websocket.rs:191-199 | The frames of one connection, in order |
| `WsCapture.WsCapture.WithLimits` | int3rceptor/core/src/websocket.rs:71-79 | An empty store with the given limits |
| `WsCapture.WsCapture.RegisterConnection` | int3rceptor/core/src/websocket.rs:81-93 | Appends an open connection with no frames, even under a known id |
| `WsCapture.WsCapture.CloseConnection` | int3rceptor/core/src/websocket.rs:95-102 | Closes the connection registered first under the id |
| `WsCapture.WsCapture.Clear` | int3rceptor/core/src/websocket.rs:206-209 | Empties both lists |
| `WsCapture.AdmitKeepsBounds` | int3rceptor/core/src/websocket.rs:151-174 | Both limits hold after an admission if they held before |
| `WsCapture.AdmitKeepsSuffix` | int3rceptor/core/src/websocket.rs:151-174 | What is kept of a connection stays a suffix of what was stored for it, although one admission may evict two frames |
| `WsCapture.SurvivesIffPositive` | int3rceptor/core/src/websocket.rs:151-174 | A new frame survives its own admission if and only if both limits are at least 1, and is then last |
| `WsCapture.TwoEvictions` | int3rceptor/core/src/websocket.rs:151-174 | One admission evicts two frames if and only if the store is full, the connection is at its limit and the oldest frame belongs to another connection |
| `WsCapture.FirstRegistered` | int3rceptor/core/src/websocket.rs:176-180 | Counting and closing change one field of the connection registered first under an id |
| `WsCapture.Unregistered` | int3rceptor/core/src/websocket.rs:95-102 | They change nothing for an unknown id |
| `WsCapture.EveryInterleaving` | int3rceptor/core/src/websocket.rs:81-210 | In every interleaving of the lock scopes of captures, registrations, closes and clears: total and per-connection bounds hold, and `get_frames` returns a suffix of the frames stored since the last clear |
| `Blob.ToBytes` | int3rceptor/core/src/database.rs:123-130 | Builds nonce, 32-bit little-endian length, ciphertext |
| `Blob.FromBytes` | int3rceptor/core/src/database.rs:132-153 | Parses that format, with its two errors |
| `Blob.DecodeInvertsEncode` | int3rceptor/core/src/database.rs:121-154 | `from_bytes` inverts `to_bytes` exactly for ciphertexts below 2^32 bytes; a longer one is refused |
| `Blob.AcceptsOnlyEncodings` | int3rceptor/core/src/database.rs:132-153 | A byte string is accepted if and only if `to_bytes` produces it, and it determines what was encoded |
| `Storage.BlobRoundTrip` | int3rceptor/core/src/database.rs:168-185 | Decrypting what was encrypted gives the plaintext back if and only if its ciphertext fits the length field, with and without a key |
| `StorageLaws.BlobIs` | int3rceptor/core/src/database.rs:168-175 | Without a key blobs are plain; with one they are stored if and only if the cipher succeeds, as nonce, four length bytes in little-endian order, ciphertext |
| `StorageLaws.DecryptedIff` | int3rceptor/core/src/database.rs:178-185 | Under a key a blob is readable if and only if it is well framed and the cipher accepts it |
| `StorageLaws.WrittenIff` | int3rceptor/core/src/storage.rs:74-109 | A row is written if and only if no key is configured or the cipher succeeds on the request headers, the response headers and the bodies that are not empty |
| `StorageLaws.ColumnsAre` | int3rceptor/core/src/storage.rs:111-140 | The columns of a written row: what queries look at is plain, an empty body and all of an absent response is NULL |
| `StorageLaws.ClampsAre` | int3rceptor/core/src/storage.rs:243-249 | A time is stored as it is within 64 bits, and otherwise as the nearest one |
| `StorageLaws.InsertReadsBack` | int3rceptor/core/src/storage.rs:74-141 | After an insert the table holds one row of that id, which reads back to every field of the entry up to the clamps, and all rows of other ids as before |
| `StorageLaws.ReadIs` | int3rceptor/core/src/storage.rs:188-238 | Any row reads if and only if its request headers decrypt; anything else that cannot be read is empty |
| `Storage.RowRoundTrip` | int3rceptor/core/src/storage.rs:74-141 | A row reads back as its entry, with time and duration clamped to i64 and the response tied to its request, if and only if every blob fits its length field |
| `Storage.ResponseRoundTrip` | int3rceptor/core/src/storage.rs:211-236 | Otherwise the response still reads back, with exactly the unreadable parts empty |
| `Storage.UpsertRows` | int3rceptor/core/src/storage.rs:111-117 | After INSERT OR REPLACE the table holds the row and every row of another id |
| `Storage.UpsertDescending` | int3rceptor/core/src/storage.rs:111-117 | The table stays keyed and ordered |
| `Storage.UpsertSize` | int3rceptor/core/src/storage.rs:111-117 | It grows if and only if the id is new |
| `Storage.CaptureStorage.Insert` | int3rceptor/core/src/storage.rs:74-142 | Stores the encoded row when the database can be reached and encryption succeeds, and changes nothing otherwise |
| `Storage.CaptureStorage.Clear` | int3rceptor/core/src/storage.rs:144-148 | Empties the table when the database can be reached |
| `Storage.CaptureStorage.RunQuery` | int3rceptor/core/src/storage.rs:150-240 | The loop over the cursor returns the decoded selection, or the first error |
| `StorageLaws.SelectsIff` | int3rceptor/core/src/storage.rs:150-181 | The conditions of a query on the columns |
| `StorageLaws.SelectIs` | int3rceptor/core/src/storage.rs:150-181 | Exactly the rows that meet them are selected, newest first |
| `StorageLaws.QueryRowsIs` | int3rceptor/core/src/storage.rs:176-181 | Of those the first are read, up to the limit or 500 |
| `StorageLaws.ReadAllIs` | int3rceptor/core/src/storage.rs:186-239 | Rows are read one by one; one that cannot be read fails the query |
| `Capture.RequestCapture.WithStorage` | int3rceptor/core/src/capture.rs:84-120 | The window is the reversed query result (empty if it fails) and the counter one above its largest id |
| `Capture.RequestCapture.Push` | int3rceptor/core/src/capture.rs:122-147 | The new entry enters at the front with every field of the request and the response, under the old counter; the window keeps its newest `capacity` entries in order, and the entry is inserted in the table |
| `CaptureLaws.PushIsStored` | int3rceptor/core/src/capture.rs:127-145 | If the cipher accepts the blobs and they fit, the newest stored entry reads back with every field of the pushed request and response, up to the clamps |
| `Capture.RequestCapture.Get` | int3rceptor/core/src/capture.rs:149-152 | Finds an entry of the id if and only if there is one |
| `Capture.RequestCapture.Clear` | int3rceptor/core/src/capture.rs:158-165 | Empties the window, and the table when it can be reached; the counter goes on |
| `Capture.RequestCapture.RunQuery` | int3rceptor/core/src/capture.rs:179-192 | With a store, the stored answer or nothing; without, the filtered window |
| `CaptureLaws.MatchesIff` | int3rceptor/core/src/capture.rs:248-283 | The conditions of a query in memory, on the fields |
| `CaptureLaws.QueryWindowIs` | int3rceptor/core/src/capture.rs:184-191 | The answer holds, in the order of the window, exactly the matching entries, up to the limit |
| `Capture.ReloadFindsMax` | int3rceptor/core/src/capture.rs:92-112 | A reload of at least one row finds the largest stored id, because the table is ordered |
| `Capture.RestartSafeIff` | int3rceptor/core/src/capture.rs:84-112 | A restart keeps the counter above every stored id if and only if the table is empty, or the reload asks for at least one row, reaches the database, and reads back every row |
| `Capture.BadRestartOverwrites` | int3rceptor/core/src/capture.rs:92-112 | After every other restart, for every stored id, that many completed pushes put another entry in its place |
| `Capture.RunKeepsInv` | int3rceptor/core/src/capture.rs:84-165 | Ids in the table and in pushes under way stay distinct and below the counter along every run of interleaved pushes, clears and restarts |
| `Capture.NeverOverwrites` | int3rceptor/core/src/capture.rs:122-147 | In every run of interleaved pushes, clears and restarts of the first kind, with failing inserts and clears, every stored id is below the counter and no insert replaces an earlier capture |
| `Capture.ReloadReversesWindow` | int3rceptor/core/src/capture.rs:97-103 | The reloaded window is the newest-first answer reversed, and equals it if and only if the capacity or the table is at most 1 |
| `Capture.MemoryIsPrefixOfStorage` | int3rceptor/core/src/capture.rs:179-283 | Fed the same pushes and clears from empty, the in-memory answer to a query on method, TLS or status is a prefix of the stored answer under the same limit if and only if the query is not for status 0 or finds only entries with a response |
| `Capture.OverlappingPushesReorder` | int3rceptor/core/src/capture.rs:127-145 | Two pushes that overlap can enter the window in another order than the table has them |
| `Rules.RuleEngine.GetRegex` | int3rceptor/core/src/rules.rs:77-99 | Returns the compilation of the pattern, from the cache or not, and keeps the cache sound |
| `Rules.RuleEngine.AddRule` | int3rceptor/core/src/rules.rs:62-64 | Appends the rule and leaves the cache alone |
| `Rules.RuleEngine.ClearRules` | int3rceptor/core/src/rules.rs:70-74 | Empties the list and the cache |
| `Rules.RuleEngine.ApplyRequestRules` | int3rceptor/core/src/rules.rs:101-112 | With a sound cache, the message becomes what the list of rules means when every pattern is compiled anew; the cache stays sound |
| `Rules.RuleEngine.ApplyResponseRules` | int3rceptor/core/src/rules.rs:114-125 | The same for responses, on which URL conditions never hold |
| `Rules.RuleEngine.MatchesRequest` | int3rceptor/core/src/rules.rs:127-164 | Whether the condition holds, independent of the cache |
| `Rules.RuleEngine.MatchesResponse` | int3rceptor/core/src/rules.rs:166-197 | The same for responses |
| `Rules.RuleEngine.ExecuteAction` | int3rceptor/core/src/rules.rs:199-258 | The action in place on headers and body is the specified one, independent of the cache |
| `RuleLaws.SatisfiedIff` | int3rceptor/core/src/rules.rs:127-197 | When each condition holds: on the URL of a request, the first value of a header if it is visible ASCII, or the decoded body; a pattern that does not compile matches nothing |
| `RuleLaws.HeaderTextIff` | int3rceptor/core/src/rules.rs:137-142 | The text of a header is that of its first value, byte by byte |
| `RuleLaws.FromTextIs` | int3rceptor/core/src/rules.rs:227-233 | A text can be a header value unless it holds a control character other than the tab |
| `RuleLaws.NoneFires` | int3rceptor/core/src/rules.rs:101-125 | A list none of whose rules fires changes nothing; inactive rules and those for the other direction never fire |
| `RuleLaws.OneActs` | int3rceptor/core/src/rules.rs:101-125 | A list in which one rule fires does what its action does |
| `RuleLaws.ListsInTurn` | int3rceptor/core/src/rules.rs:101-125 | A list does what its parts do, in order |
| `RuleLaws.ReplaceBodyActs` | int3rceptor/core/src/rules.rs:201-212 | A body replacement joins the pieces of the decoded body by the replacement and encodes that; Content-Length is set to its length where present and not added where absent; nothing else changes |
| `RuleLaws.EmptyTargetActs` | int3rceptor/core/src/rules.rs:201-212 | The same for an empty target |
| `RuleLaws.ReplacesNothing` | int3rceptor/core/src/rules.rs:203 | An empty target is replaced at both ends of a text and between any two characters |
| `RuleLaws.RegexReplaceBodyActs` | int3rceptor/core/src/rules.rs:213-226 | The same for a pattern: all its matches in the decoded body; one that does not compile changes nothing |
| `RuleLaws.SetHeaderActs` | int3rceptor/core/src/rules.rs:227-234 | Setting a header leaves it exactly the new value and all else as before; an invalid name or value changes nothing |
| `RuleLaws.RemoveHeaderActs` | int3rceptor/core/src/rules.rs:252-256 | Removing a header leaves none of its values and all else as before |
| `RuleLaws.RegexReplaceHeaderActs` | int3rceptor/core/src/rules.rs:235-251 | Rewriting a header stores the rewritten text of its first value as the only one; in every other case nothing changes |
| `Rules.CacheNeverShows` | int3rceptor/core/src/rules.rs:62-125 | In every interleaving of calls, insertions and clears, with lookup and insert of `get_regex` split and `clear_rules` split, every cached pattern is its compilation and every finished call returned what the rules it began with mean without a cache |
| `Rules.ClearedCacheStaysEmpty` | int3rceptor/core/src/rules.rs:70-74 | Once `clear_rules` has emptied the list, no call under way can bring a pattern back into the cache after its second half, until a rule is added |
| `Rules.CallsFinish` | int3rceptor/core/src/rules.rs:101-125 | Every step of a call brings it closer to its end, whatever others do to the cache |
| `Rules.ListKeepsLength` | int3rceptor/core/src/rules.rs:199-258 | For any list without a rule that sets Content-Length: agreement of Content-Length with the body (section 8.6 of RFC 9110) is kept, and a changed body always ends with the right length or none |
| `Rules.NewBodyAgrees` | int3rceptor/core/src/rules.rs:201-226 | A body replacement makes Content-Length agree whatever it was before |
| `Rules.SettingLengthIff` | int3rceptor/core/src/rules.rs:227-251 | A SetHeader or RegexReplaceHeader rule on Content-Length keeps the agreement if and only if it does not fire, has nothing it can store, or stores the length of the body |
| `Rules.DecimalDenotes` | int3rceptor/core/src/rules.rs:208 | The text written into Content-Length denotes the length |
| `Rules.ListKeepsTheRest` | int3rceptor/core/src/rules.rs:199-258 | Headers no action names keep all their values, the target never changes, and the body only if an action replaces bodies |
| `Rules.IdleReplacementReencodes` | int3rceptor/core/src/rules.rs:201-204 | A body replacement that finds nothing leaves the body alone if and only if the body is the encoding of some text |
| `Metrics.BucketIff` | int3rceptor/core/src/metrics.rs:350-361 | The histogram buckets partition the durations: each has exactly one bucket, that of its bounds |
| `Metrics.BucketTable` | int3rceptor/core/src/metrics.rs:345-361 | The buckets are those of the report, from below 1 ms to 5 s and more |
| `Metrics.UnitsAre` | int3rceptor/core/src/metrics.rs:184 | Durations are counted in whole microseconds and milliseconds |
| `Metrics.LatencyHistogram.Record` | int3rceptor/core/src/metrics.rs:356-363 | Exactly the bucket of the duration is incremented, in place |
| `Metrics.LatencyHistogram.Reset` | int3rceptor/core/src/metrics.rs:381-383 | Every bucket is zero |
| `Metrics.MaxNeverDecreases` | int3rceptor/core/src/metrics.rs:189-201 | From any reachable state on, the maximum never decreases |
| `Metrics.MaxIsMaximum` | int3rceptor/core/src/metrics.rs:189-201 | In every interleaving, with stale reads and spurious failures, the maximum is 0 or the duration of a call out of the loop and bounds all of those; so it is the maximum of all recorded durations once every call has left the loop |
| `Metrics.FairExchange` | int3rceptor/core/src/metrics.rs:191-200 | An exchange that reads the newest value and does not fail spuriously ends the loop, or raises the expected value while it stays below the duration of the call |
| `Metrics.NothingLost` | int3rceptor/core/src/metrics.rs:183-205 | Sum, count and every bucket equal the totals over the calls that have passed the update, modulo 2^64 |
| `Metrics.QuietCounts` | int3rceptor/core/src/metrics.rs:183-205 | With no call under way, the count and the sum of all buckets are the number of calls |
| `Metrics.QuietSum` | int3rceptor/core/src/metrics.rs:183-187 | With no call under way, the sum is that of all times, modulo 2^64 |
| `Metrics.QuietBucket` | int3rceptor/core/src/metrics.rs:356-363 | And each bucket holds the number of calls within its bounds |
| `Metrics.ReportCanMisleadIff` | int3rceptor/core/src/metrics.rs:242-249 | Once the count is read, some continuation makes the reported average exceed the reported maximum if and only if the count is positive and (2^64 - 1) / count exceeds the maximum so far |
| `Metrics.BusyAverage` | int3rceptor/core/src/metrics.rs:242-249 | For reports made during calls: the reported average is at most the reported maximum if every call whose time is in the sum had been counted and has left the loop; a wrapped sum included |
| `Metrics.QuietAverage` | int3rceptor/core/src/metrics.rs:242-249 | In particular when no call is under way |
| `Metrics.BusyReportCanMislead` | int3rceptor/core/src/metrics.rs:242-249 | Time added after the count was read makes the average exceed every recorded duration, although every call has left the loop |
| `Metrics.LoopingCallCanMislead` | int3rceptor/core/src/metrics.rs:185-201 | So does a call still in the loop, although all time in the sum was counted |

## Left out

- Generators.GenerateClusterBomb: excludes no payloads at a multiple of 2^32 positions, on which the code divides by zero; a debug build, which panics on overflow instead of wrapping, is not modelled.
- LimiterRuns.CleanupInvisible: stated for checks that take no time, and until the refill count of an untouched bucket could reach 2^32, after which it is false (`LimiterRuns.WrapVisible`); the windowed bounds of `SplitChecks` need neither, except that cleanups inside the window must come before the refill count can wrap.
- LimiterRuns.EarlyCleanupExceedsWindow: needs bursts the shared bucket can serve, so nothing is said of ages that fall short of max_requests * rate by less than a ninth of rate / max_requests.
- Orders.OrderShowsIff: excludes configurations with both an empty position name and an empty payload, and templates on which a replacement can join texts into a marker.
- Capture.MemoryIsPrefixOfStorage: takes each push as one step (overlapping ones can reorder the window), excludes the filters on host and search text (SQL LIKE folds case and has wildcards, `contains` does not), and assumes pushes whose blobs can be stored and read back.
- Capture.NeverOverwrites: assumes ids below 2^63, no direct inserts by project import, and restarts that `Capture.RestartSafeIff` shows to be the only safe ones.
- Metrics.BusyAverage: takes the report to read the newest sum and maximum, and fewer than 2^64 calls to have begun, so that the count has not wrapped.
- Attack.NeverStuck: an attack whose generation failed is over, so it is excluded; the generators never do fail, but the early return is modelled.
- Frame ids are modelled as the code computes them; they repeat after evictions, so nothing is claimed about their uniqueness.
- A result of an attack carries its status and length as arbitrary values; sending, parsing requests, durations and `add_result` are not modelled.
- The order in which waiting tasks get a permit or a lock is not modelled: any order is allowed.
- The activity log, dashboards, notifications, memory statistics and `top_hosts` are not modelled.
- The single-address setters, removers and `clear` of the address filter are not modelled: they only update sets.
- Query limits above the range of i64 are not modelled.
- Counters of frames and connections are unbounded.
- Key loading and hexadecimal parsing in `database.rs` are not modelled.
- The other counters of `metrics.rs` are single atomic additions; `reset` of the maximum during calls is not modelled.
- Active scanning, the comparer, encoders, sessions, CSRF tokens, audit log, plugins and licences are not modelled.
- The proxy, TLS, certificates, connection pool, API routes and user interfaces are not modelled.

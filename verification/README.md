# Verified model of the b2d address service

The project models the two cores of the service and three of its loaders, and proves
properties of them. Strings are sequences of code points, tokens and coordinates are
exact reals, instants are integers or reals, and every table is a value that the
operations read and replace.

**Admission and metering.** `RateLimit.dfy` has the token buckets and the reaper,
`AuthCache.dfy` the cached key lookup as a protocol of concurrent lookups and table
changes, `Meter.dfy` the bounded channel with its aggregating worker, and
`MonthlyCap.dfy` the hard cap read from the log that the meter fills with a delay.
Limiter, authenticator and meter are classes whose methods are proved against functions
of their state; lookups, meter and cap are also state machines whose steps interleave
freely. The methods of the meter are proved to be steps of its machine, and
`AuthCache.LookupIsABehaviour` relates the lookup method to the steps of its own;
`MonthlyCap` is the machine only.

**Addresses.** `Words.dfy` and `Numerals.dfy` have word splitting and digit strings,
`Dict.dfy` the province names. `Parser.dfy` has the parser twice: as a cursor that walks
over the words, and as a reading that says which words each field collects; the cursor is
proved to compute the reading, and `ReadingRules.dfy` says in terms of characters what the
reading of every input is. `RoadKey.dfy` (module `RoadKeys`) and `NormalForm.dfy`
prove when a canonical key is a normal form, `ParenPairs.dfy` what in the reading of an
input decides it, `Conservation.dfy` that no word is lost,
`Entrance.dfy` that the stored keys and the keys of queries agree, `SqlLike.dfy` and
`Geocode.dfy` that the lookup of a key without province is sound and complete,
`Patterns.dfy` when its pattern is exact, and `Juso.dfy` and `JusoRoad.dfy` which printed
lot and road addresses parse back. `Jamo.dfy` has the Hangul
decomposition of section 3.12 of the Unicode Standard and the composer that inverts it.

**Loaders.** `Migrations.dfy` has the migration runner, alone and with any number of
runs interleaved and failing anywhere; `LandSales.dfy` the town-code map and the monthly
delete-then-insert; `Rings.dfy` and `Wkt.dfy` the grouping of shapefile rings (ESRI
Shapefile Technical Description, Polygon record) and the MULTIPOLYGON text (section 7 of
OGC Simple Feature Access Part 1). `Options.dfy` holds the option type.

## Where the code and its promises part

Each of these is proved with its exact condition and with an input that fails.

- A canonical key parses back to itself if and only if it holds no pair of parentheses
  (`NormalForm.KeyIsNormalForm`), and it holds one if and only if the key prints the town,
  the town holds a `(` and the road a `)` (`ParenPairs.PairIsTownBeforeRoad`): the key
  prints the town before the road whatever their order in the input
  (`NormalForm.ReorderingMakesAPair`).
- A cache lifetime of zero is documented as switching the cache off
  (internal/auth/auth.go:51-52). The clock is read before the mutex is taken, so a lookup
  is answered by the cache if and only if the last store of its key was made by a lookup
  that read a later clock (`AuthCache.HitIffStoredLater`); it never is when no other
  lookup of the key reads the clock between its own reading and its look into the cache
  (`AuthCache.ZeroTtlQueries`). `AuthCache.ZeroTtlCanHit` is a run in which it is. The entry
  is then never older than the lookup (`AuthCache.ZeroTtlIsCurrent`).
- A refusal's exact wait is positive, but cut to whole nanoseconds it is 0 if and only if
  what is missing flows in within less than a nanosecond (`RateLimit.ZeroWaitIff`,
  `RateLimit.ZeroWaitOccurs`). Retry-After is 1 in either case (`RateLimit.RefusalWait`).
- A lot address is recognised if and only if neither number field is negative; signs are
  accepted by the number reader (`Juso.JibunRoundTrip`, `Juso.NegativeLotIsLost`).
- A query gets the stored key of a row if and only if the parser reads exactly the row's
  words in it (`Entrance.AnyReadingFinds`). The key of a query prints the township it names,
  which is part of the official address, and stored keys never hold one, so such a query
  never gets a stored key (`Entrance.TownshipIsNeverStored`, `Entrance.TownshipQueryMisses`).
- Time is read before the mutex is taken, so calls can carry timestamps that lag behind the
  clock. No subject can tell a limiter that reaps from one that does not if and only if the
  burst plus twice the lag times the rate flows in within the 30 idle minutes
  (`RateLimit.LateReapingIsInvisibleIff`); both middlewares stand a lag of 899 seconds. Under
  that condition the admission bound holds with reaps in between
  (`RateLimit.LateWindowBound`); with a staler timestamp it fails
  (`RateLimit.StaleCallAfterReap`).
- A printed road address gets its key back if and only if the building is not underground
  and no number field is negative (`JusoRoad.RoadAddressRoundTrip`): the underground mark is
  stuck to the number (`JusoRoad.BasementIsLost`).
- The suffix pattern selects exactly the texts with that suffix if and only if the partial
  key holds none of `%`, `_` and backslash (`Geocode.SuffixPatternIsExact`). Over the keys
  of well-formed rows a metacharacter does no harm exactly in partial keys that no stored
  key ends in anyway (`Patterns.PartialKeyIsExactIff`);
  `Geocode.WildcardSelectsWrongly` is a query whose key selects a stored key it should not.
- A query without province is read as the partial key it writes if and only if its first
  word is no province name itself (`Entrance.PartialQueryReads`); a city can be
  (`Entrance.CityNamedLikeAProvince`).
- The monthly reload is called idempotent (internal/etl/landsales/load.go:59). It is, if
  and only if every row it inserts is dated in the month asked for: the delete goes by
  date, the insert does not (`LandSales.ReloadIsIdempotent`, `LandSales.ReloadCanDuplicate`).
- Decomposition with loose jamo is not injective (`Jamo.LooseJamoCollide`);
  `Jamo.RoundTrip` says exactly which texts survive.
- Migrations end in file-name order if and only if what was applied before was a prefix
  of the sorted list (`Migrations.OrderIsRestored`); a file added with an earlier name is
  applied late (`Migrations.EarlierNameComesLate`).

## Model

| member | source | states |
|---|---|---|
| RateLimit.Limiter.constructor | internal/auth/ratelimit.go:37-41 | a new limiter holds no bucket |
| RateLimit.Limiter.Reap | internal/auth/ratelimit.go:55-63 | the loop over the map removes exactly the buckets idle for more than 30 minutes and touches no other |
| RateLimit.Limiter.Allow | internal/auth/ratelimit.go:67-86 | a call is answered ok with wait 0 if and only if at least one token is on hand, and otherwise refused with the whole nanoseconds until there is one; the bucket afterwards holds what is left |
| RateLimit.OnHandIs | internal/auth/ratelimit.go:69-78 | what is on hand: the burst for a new subject, else what was left and the refill since, up to the burst |
| RateLimit.LeftIs | internal/auth/ratelimit.go:79-85 | what is left: one token less exactly after an answer of ok, at the time of the call |
| RateLimit.VerdictIs | internal/auth/ratelimit.go:79-85 | the verdict of every call in a run: ok without wait if and only if a token is on hand, else the time until there is one |
| RateLimit.VerdictsGrow | internal/auth/ratelimit.go:53-86 | each call of a run is answered from the state the calls and reaps before it left |
| RateLimit.ReapingIsInvisible | internal/auth/ratelimit.go:16-23 | over every run whose calls read a clock that does not go back, a limiter that reaps at arbitrary moments, with tick times acted on however late, gives the same verdicts and waits as one that never reaps |
| RateLimit.ReapingIsInvisibleFrom | internal/auth/ratelimit.go:53-86 | the same from any pair of states of which one lacks only long-idle buckets |
| RateLimit.WindowBound | internal/auth/ratelimit.go:67-86 | with no reap in between, admissions from a call through a later admitted call are at most burst plus rate times the difference of their timestamps, whatever the order of the timestamps |
| RateLimit.WindowFrom | internal/auth/ratelimit.go:67-86 | the same, with no reap in between, from the tokens actually held |
| RateLimit.WindowBoundWithReaps | internal/auth/ratelimit.go:53-86 | the same bound with reaps at any moments, when no call reads a clock that goes back |
| RateLimit.LateWindowBound | internal/auth/ratelimit.go:53-86 | the same bound with reaps at any moments and timestamps that lag behind the clock by at most a skew, when burst plus twice the skew times the rate flows in within 30 minutes |
| RateLimit.OkBound | internal/auth/ratelimit.go:67-86 | the bound of `WindowBound` on the answers of ok the subject receives: at most burst + (time of the last - time of the first) * rate |
| RateLimit.OkBoundWithReaps | internal/auth/ratelimit.go:53-86 | the same with reaps at any moments, when no call reads a clock that goes back |
| RateLimit.LateOkBound | internal/auth/ratelimit.go:53-86 | the same with reaps and late timestamps, under the condition on the skew |
| RateLimit.AdmissionsAreOks | internal/auth/ratelimit.go:79-85 | the admissions counted in these bounds are the answers of ok |
| RateLimit.LateReapingIsInvisible | internal/auth/ratelimit.go:108-130 | under the same condition on the skew no subject can tell a limiter that reaps from one that never does |
| RateLimit.LateReapingIsInvisibleIff | internal/auth/ratelimit.go:53-86 | and for a burst of at least one only under that condition |
| RateLimit.LateReapingTells | internal/auth/ratelimit.go:53-86 | otherwise some run tells the two limiters apart |
| RateLimit.MiddlewareCallsRefill | internal/auth/ratelimit.go:16-23 | both middlewares meet the condition for a skew of 899 seconds |
| RateLimit.StaleCallAfterReap | internal/auth/ratelimit.go:55-86 | a run with a staler call in which the bound fails after a reap |
| RateLimit.CallFrame | internal/auth/ratelimit.go:67-86 | no call leaves more than the burst, and no call moves another subject's bucket |
| RateLimit.EffectiveRate | internal/auth/ratelimit.go:126-130 | a key's positive rate is kept, any other becomes the default, so the rate in force is at least one |
| RateLimit.MiddlewareCallsFit | internal/auth/ratelimit.go:102-136 | the calls of both middlewares: 20 a second with a burst of 40 for an address, the key's rate or 20 with twice that as burst for a key; all of at least one and refilled by 30 idle minutes |
| RateLimit.RefusalWait | internal/auth/ratelimit.go:83-85 | a refusal's exact wait, for a bucket without debt, is in (0, 1] seconds, its nanoseconds in [0, 1 second], and Retry-After is 1 |
| RateLimit.ZeroWaitIff | internal/auth/ratelimit.go:83-84 | the wait cut to nanoseconds is 0 if and only if what is missing flows in within less than a nanosecond |
| RateLimit.ZeroWaitOccurs | internal/auth/ratelimit.go:67-86 | a run of the key middleware that ends in a refusal with wait 0 |
| RateLimit.EveryRefusalIsShort | internal/auth/ratelimit.go:148-155 | over every run with a clock that does not go back, each refusal waits at most a second and is answered with Retry-After 1 |
| RateLimit.ProbesCostNothing | internal/auth/ratelimit.go:75-85 | refused probes leave the tokens a later moment will see unchanged, through calls of others and reaps |
| RateLimit.RetrySucceeds | internal/auth/ratelimit.go:75-85 | a refused subject that waits as long as Retry-After says is answered ok with wait 0, however often it probed and whatever other subjects and the reaper did |
| RateLimit.RunsStaySound | internal/auth/ratelimit.go:67-86 | after every such run no bucket is in debt or ahead of the clock |
| AuthCache.TtlFromEnv | internal/auth/auth.go:51-60 | a valid setting that is not negative is the lifetime, anything else gives 30 seconds |
| AuthCache.Authenticator.Lookup | internal/auth/auth.go:121-147 | one lookup alone: the cache answers while unexpired, otherwise the database does, and only found rows are stored, with expiry counted from the start of the lookup |
| AuthCache.LookupIsABehaviour | internal/auth/auth.go:121-147 | the four steps of a lookup run without interference leave the cache and give the answer that the method promises |
| AuthCache.LiveKeyIsFound | internal/auth/auth.go:121-147 | a lookup that nothing comes between ends with the cached row while its entry has not expired, else with the row in the table, then cached for a lifetime, and is denied when there is neither |
| AuthCache.QuerySeesWrite | internal/auth/auth.go:129-142 | the next query denies a revoked key and reads a changed one as changed |
| AuthCache.BoundedStaleness | internal/auth/auth.go:121-147 | under every interleaving of lookups and table changes, a returned row was in the table and unrevoked at an instant later than now - ttl, or not before now, and no later than the return |
| AuthCache.RevocationTakesEffect | internal/auth/auth.go:121-147 | once a key stays revoked, no lookup started a full lifetime later succeeds |
| AuthCache.HitIsFresh | internal/auth/auth.go:125-128 | a cache hit, even on an entry that a slow lookup has overwritten, is fresh enough |
| AuthCache.AlwaysConsistent | internal/auth/auth.go:121-147 | in every reachable state each entry and each lookup under way is backed by a moment at which its row was live |
| AuthCache.ZeroTtlIsCurrent | internal/auth/auth.go:51-60 | with a zero lifetime the row was live no earlier than the start of the lookup |
| AuthCache.HitIffStoredLater | internal/auth/auth.go:122-145 | under every interleaving and for every lifetime the cache answers a lookup if and only if the last store of its key was by a lookup whose clock reading plus the lifetime is later than this one's |
| AuthCache.ZeroTtlQueries | internal/auth/auth.go:51-60 | with a zero lifetime a lookup queries the database unless another lookup of the key reads the clock between its own reading and its look into the cache |
| AuthCache.ZeroTtlCanHit | internal/auth/auth.go:122-128 | a run in which a lookup with zero lifetime is answered by the cache |
| Meter.Meter.constructor | internal/meter/meter.go:46-51 | the new meter is the initial state of the pipeline |
| Meter.Meter.Middleware | internal/meter/meter.go:61-74 | one offer: the event is queued if fewer than 4096 wait and dropped otherwise, and nothing else changes |
| Meter.Meter.Insert | internal/meter/meter.go:111-123 | the loop makes one row for each aggregate, and the copy writes all of them or none |
| Meter.Meter.Flush | internal/meter/meter.go:83-90 | an empty aggregate is left alone, any other is handed over once and reset |
| Meter.Meter.Receive | internal/meter/meter.go:92-103 | one event is taken from the head of the channel and counted under its own key, endpoint and minute; the hundredth of a batch has the batch written or lost |
| Meter.Meter.Serve | internal/meter/meter.go:61-107 | while the service runs, every schedule of arrivals, events taken and ticks keeps the conservation invariant, and each arrival is accepted or dropped |
| Meter.Meter.Run | internal/meter/meter.go:77-108 | after close, with the timer firing at any moments, the loop ends with channel and aggregate empty |
| Meter.Meter.Close | internal/meter/meter.go:53-59 | after close, for every key, endpoint and whole minute, the rows added to the table or lost in failed inserts hold as many requests as were accepted with that key and endpoint within that minute, and every row added belongs to a whole minute; cmd/b2d-server/main.go:95-102 keeps producers out |
| Meter.Conservation | internal/meter/meter.go:53-123 | in every reachable state offered = accepted + dropped; for every selection of aggregates, accepted = queued + aggregated + written + lost; every row added belongs to a whole minute; n is the sum of the aggregate and stays below 100 between turns |
| Meter.KeyIs | internal/meter/meter.go:96-100 | an event is counted under its own key id and endpoint, in the whole minute it fell into |
| Meter.HitsAreQueued | internal/meter/meter.go:96-100 | so what the pipeline counts for an aggregate are the events with its key id and endpoint within its minute |
| Meter.ReceivedIs | internal/meter/meter.go:92-103 | the hundredth event of a batch has the batch written or lost, any other is only counted |
| Meter.StepKeeps | internal/meter/meter.go:53-123 | every step of producers and worker keeps this invariant |
| Meter.NothingLeftBehind | internal/meter/meter.go:53-108 | when the worker has stopped, queue and aggregate are empty and the same account holds of every run of the pipeline |
| Meter.PendingPick | internal/meter/meter.go:111-115 | the sum over the aggregate does not depend on the order in which the map is walked |
| Meter.PendingBump | internal/meter/meter.go:100-101 | counting an event adds one to its own aggregate and to no other |
| Meter.RowsCount | internal/meter/meter.go:111-115 | the rows inserted hold exactly what was aggregated |
| MonthlyCap.OvershootBound | internal/auth/auth.go:103-114 | in every interleaving, stored + aggregated + queued + in-flight requests of a key are at most the largest cap any of its checks saw - 1 + 4096 + 100 + C, or what the log held at the start if that was more; stages in the order of internal/api/server.go:62-67 |
| MonthlyCap.LoggedOvershoot | internal/auth/auth.go:103-114 | hence the requests the log counts against a key never exceed the largest cap + 4195 + C, or their number at the start; and every check of the run decides exactly as `CheckDecides` says |
| MonthlyCap.CheckDecides | internal/auth/auth.go:103-114 | a request gets through the check if and only if there is no cap, or it asks for /v1/usage, or the rows of its key from the month on, to other endpoints, add up to less than the cap; a refused one leaves no trace |
| MonthlyCap.PastTheCheck | internal/api/server.go:62-67 | behind the check a request is refused by the rate limiter, or reaches the meter as one event of its key and endpoint, dropped only when 4096 wait |
| MonthlyCap.UsageIsCounted | internal/auth/auth.go:149-162 | the usage compared with the cap is the sum over the rows of the key, from the month on, to endpoints other than /v1/usage |
| MonthlyCap.CheckBounds | internal/auth/auth.go:149-162 | a check that passes can overlook at most a full queue, a full batch and the requests in flight |
| MonthlyCap.OnlyChecksAdd | internal/meter/meter.go:61-123 | no other step of request, meter or worker raises the amount committed |
| MonthlyCap.TruncationKeepsMonth | internal/auth/auth.go:157-159 | cutting a timestamp to the minute never moves it across a month start |
| Words.FieldsOfJoin | internal/address/parser.go:49 | splitting undoes joining, for all lists of words |
| Words.FieldsConcat | internal/etl/entrance/load.go:46 | the words of two texts with a blank between are the words of both |
| Dict.SidoNames | internal/address/dict.go:30-40 | whatever the dictionary accepts it maps to a full province name, and no accepted word ends like a road or town name |
| Dict.AcceptedIff | internal/address/dict.go:13-40 | a word is read as a province if and only if it is its full name, its short form (syllables 1 and 3 of a four-syllable name, else the first two), the short form with 시 for a city, with 도 for a self-governing province, or 전라북도 for 전북특별자치도 |
| Dict.FullNames | internal/address/dict.go:5-11 | the full names are those of the seventeen provinces, by their standing |
| Parser.SplitGlued | internal/address/parser.go:154-169 | each word is split at its last road ending exactly when a number follows it |
| Parser.TakeSigungu | internal/address/parser.go:62-74 | the cursor takes the longest run of district words, at most two, in order |
| Parser.TakeNames | internal/address/parser.go:76-114 | the cursor stops at the first number, and each field holds the words of its kind taken so far, in order |
| Parser.TakeTail | internal/address/parser.go:116-146 | the number goes to the field the kind selects and the rest to the extra text |
| Parser.ParseBody | internal/address/parser.go:62-151 | from any position the cursor computes the grouped reading, final demotion included |
| Parser.Preprocess | internal/address/parser.go:42-47 | parenthesised pieces are collected and blanked, punctuation is blanked |
| Parser.Parse | internal/address/parser.go:38-152 | the cursor machine computes the grouped reading of every input; what that reading is, character by character, say the rows of `ReadingRules` |
| Parser.TakeNameStep | internal/address/parser.go:76-114 | one more name word keeps all fields in step with the words taken |
| Parser.FinishRenders | internal/address/parser.go:116-151 | the number and the rest complete the fields to the grouped reading |
| Parser.NoDemotion | internal/address/parser.go:148-150 | the demotion to undecided never changes anything |
| ReadingRules.ReadingIs | internal/address/parser.go:38-152 | for every input and its groups, what each field, the kind and the warnings are, in terms of the last characters of the words |
| ReadingRules.InputHasGroups | internal/address/parser.go:51-146 | every input has such groups: an optional province, at most two districts, the names up to the first number, the number, the rest |
| ReadingRules.GroupsAreLayout | internal/address/parser.go:51-146 | and no other grouping of its words |
| ReadingRules.NameIs | internal/address/parser.go:171-194 | a name of at least two characters is a road exactly when it ends in 로 or 길, a town exactly when it ends in 동, 읍, 면, 리 or 가 |
| ReadingRules.DistrictIs | internal/address/parser.go:62-66 | a district is a word of at least two characters that ends in 시, 군 or 구 |
| ReadingRules.NumberWordReads | internal/address/parser.go:34 | every number word, with or without 산 in front and 번지 behind, is read as its number |
| ReadingRules.NumberWordIs | internal/address/parser.go:34 | and there are no other number words |
| ReadingRules.NumberIs | internal/address/parser.go:34 | a number is digits, which a hyphen and more digits may follow |
| ReadingRules.GluedReads | internal/address/parser.go:154-169 | a road name and the number stuck to it are split between the two |
| ReadingRules.GluedIs | internal/address/parser.go:156 | exactly the words with a number behind a road ending at least two characters long are split |
| ReadingRules.TokensOfWord | internal/address/parser.go:42-49 | a text without separators and parentheses is one word, or a road and its number |
| ReadingRules.TokensApart | internal/address/parser.go:41-49 | white space, a comma or a full stop, narrow or wide, separates the words on its two sides |
| ReadingRules.TokensAroundNote | internal/address/parser.go:42-46 | a note in parentheses is no word; it separates the words on its two sides and is collected |
| ReadingRules.NoNote | internal/address/parser.go:42-46 | a pair is an opening parenthesis with a closing one somewhere behind it; a text without is left as it is |
| ReadingRules.PunctuationIsBlank | internal/address/parser.go:41-47 | commas and full stops, narrow or wide, and the ideographic space become blanks, and no other character changes |
| ReadingRules.SpaceIs | internal/address/parser.go:49 | the white space at which words are split |
| ReadingRules.FieldsSplit | internal/address/parser.go:49 | any white space separates the words on its two sides |
| ReadingRules.KeyIs | internal/address/parser.go:196-219 | the text of the key: province, districts, a town only when it ends in 읍 or 면, road, the mark of an underground address and number, those given with blanks between; none without road or number |
| RoadKeys.NameIsNothingElse | internal/address/parser.go:177-194 | a road or town word is no number, no district and no province name |
| RoadKeys.KeyParsesBack | internal/address/parser.go:196-219 | a well-formed key without a pair of parentheses parses to its own province, districts, names and number |
| RoadKeys.KeyIsFixed | internal/address/parser.go:196-219 | and, again without a pair, prints the same key with the same full flag |
| NormalForm.PrintedIsWellFormed | internal/address/parser.go:38-219 | every non-empty key of any input is a well-formed key over the words of the input |
| NormalForm.KeyComesFromReading | internal/address/parser.go:196-219 | the key of every input is the text of the words its reading selects, and empty exactly when they include no road or no number |
| NormalForm.KeyIsNormalForm | internal/address/parser.go:196-219 | for every input with a key: parsing the key and printing it again gives the same key and flag if and only if the key holds no pair of parentheses |
| NormalForm.ParenFreeInputs | internal/address/parser.go:42-46 | an input in which no opening parenthesis is left after its notes are taken out has a normal form as key |
| NormalForm.ReorderingMakesAPair | internal/address/parser.go:207-214 | an input whose key is no normal form |
| ParenPairs.TokensHaveNoPair | internal/address/parser.go:42-49 | the words of every input, taken together, hold no pair of parentheses |
| ParenPairs.PairIsTownBeforeRoad | internal/address/parser.go:207-214 | for every input: its key holds a pair if and only if the town is printed, holds an opening parenthesis, and the road holds a closing one |
| ParenPairs.NormalFormCondition | internal/address/parser.go:196-219 | hence the exact condition on the parsed fields for the key to be a normal form |
| Conservation.NothingIsLost | internal/address/parser.go:49-146 | the words of every input fall into consecutive groups, each field holds the words of its kind in order, and the names are split without loss |
| Conservation.NamesArePartitioned | internal/address/parser.go:76-114 | every name word is in exactly one of road, town, extra and the underground marker |
| Conservation.KindKeepsOrder | internal/address/parser.go:76-114 | each field keeps the order of the input |
| Conservation.KindIsCharacterised | internal/address/parser.go:121-150 | Road iff a road was found, Jibun iff a town and no road, and a number in both fields only when undecided |
| Entrance.NormJoinsWords | internal/etl/entrance/load.go:32-47 | a stored key is its words joined by single blanks |
| Entrance.StoredKeyAgrees | internal/etl/entrance/load.go:32-47 | parsing the stored key of a well-formed row recovers its fields with kind Road, and the query key is the stored key with full set if and only if it holds no pair of parentheses |
| Entrance.AnySpacingFinds | internal/etl/entrance/load.go:32-47 | every spacing of the words of a row gives the stored key, if the query holds no pair of parentheses |
| Entrance.AnyReadingFinds | internal/etl/entrance/load.go:32-47 | a query gets the stored key of a row if and only if the parser reads in it exactly the row's province, districts, road, underground mark and number and no town the key prints -- alias provinces, glued numbers, trailing words and notes included |
| Entrance.TownshipIsNeverStored | internal/address/parser.go:209-212 | a query whose key names a township never gets a stored key |
| Entrance.TownshipQueryMisses | internal/etl/entrance/load.go:36-46 | an official address of a township that is its own key, and the key without the township under which its row is stored |
| Entrance.PartialQueryReads | internal/etl/entrance/load.go:32-47 | a row's words without the province get the partial key they write if and only if the first is no province name itself |
| Entrance.CityNamedLikeAProvince | internal/address/dict.go:13-28 | a row whose words without the province are looked for in another province |
| Entrance.Load | internal/etl/entrance/load.go:50-134 | one row for each key, made from its first line; the lines not accepted are the skipped ones, and accepted lines that give no row are the duplicates |
| Entrance.ColumnsAre | internal/etl/entrance/load.go:92-121 | a line counts exactly when it has 19 columns, a code of ten bytes, a road, a number and both coordinates; its row has the code, column 18 as x and column 19 as y without blanks around them, the address text, and the words of that text as key |
| Entrance.BytesAre | internal/etl/entrance/load.go:100 | the length of a code is counted in bytes of UTF-8 |
| Entrance.AddressHasKeyWords | internal/etl/entrance/load.go:111-119 | the stored address has the words of the stored key, so equal addresses have equal keys |
| SqlLike.LikeSuffix | internal/geocode/geocode.go:100-104 | a literal behind a percent sign matches exactly the texts that end in it |
| SqlLike.SuffixIsFound | internal/geocode/geocode.go:100-104 | a pattern without backslash finds every text that ends in it |
| SqlLike.LikeMeans | internal/geocode/geocode.go:100-104 | a percent sign matches any stretch, an underscore any one character, a backslash the next character itself, any other character itself |
| Geocode.SuffixPatternIsExact | internal/geocode/geocode.go:100-104 | the pattern of a partial key is exact if and only if the key has no metacharacter |
| Geocode.SuffixIsWordSuffix | internal/geocode/geocode.go:100-104 | a key ends in a blank and a partial key exactly when its words end in the partial key's words and there are more |
| Geocode.RoadSuffix | internal/geocode/geocode.go:107-133 | none, one or several rows decide between no rows, a partial match and an ambiguity listing every candidate |
| Geocode.LookUpPartial | internal/geocode/geocode.go:95-133 | for every partial key: no selected address gives no rows, exactly one gives exact_partial with that address, two or more always give ambiguous, and the limit of five hides none of this; over joined keys and without metacharacter the selected rows are those whose words properly end in the partial key's |
| Geocode.PartialQueryIsAnswered | internal/geocode/geocode.go:50-63 | a query with a stored row's words but its province finds that row's address, alone or as one of several, if it holds no backslash |
| Geocode.WildcardSelectsWrongly | internal/geocode/geocode.go:100-104 | a query whose key is a pattern, and a stored key it selects without ending in its words |
| Patterns.PartialKeyIsExactIff | internal/geocode/geocode.go:95-104 | for every query read without province: its partial key selects exactly the keys of well-formed rows that properly end in its words if and only if it holds no metacharacter, or names a town or a subordinate number 0, which no stored key does |
| Patterns.KeyIsStored | internal/etl/entrance/load.go:32-47 | every key with a province, without town and without subordinate number 0 is the stored key of some row |
| Patterns.TownIsNeverFound | internal/geocode/geocode.go:95-104 | a partial key that names a town selects no stored key, metacharacters or not |
| Patterns.ZeroSubIsNeverFound | internal/etl/entrance/load.go:36-39 | nor does one with a subordinate number 0, which stored keys leave out |
| Geocode.CountDecides | internal/geocode/geocode.go:100-119 | the number of rows returned tells the number of distinct addresses up to two |
| Geocode.Search | internal/geocode/geocode.go:33-81 | an answer or an error of the road stage is final; behind a road stage that is not tried or gives no rows, an answer or an error of the lot lookup is, if lot and town were read; the text search answers only when every stage the parse allows gave no rows; all answers carry the parser's warnings |
| Geocode.AnsweredIs | internal/geocode/geocode.go:33-81 | the same of the answer as a function of the parse, to which the next rows refer |
| Geocode.PrintedLotIsAnswered | internal/geocode/geocode.go:63-70 | the printed lot address of every record without negative numbers is answered by the lot lookup when it finds the lot or fails |
| Geocode.StoredRowIsFound | internal/geocode/geocode.go:37-49 | a stored row with a position is found exactly by every query that has its words and no pair of parentheses |
| Geocode.TownshipIsNotFound | internal/geocode/geocode.go:37-49 | over any table of keys of well-formed rows, the exact stage finds nothing for a query that names a province and a township |
| Juso.AtoiReads | internal/etl/juso/parse.go:157-164 | every 64-bit number is read back from its text |
| Juso.AtoiReadsOnlyNumerals | internal/etl/juso/parse.go:157-164 | any other field counts as 0: a result other than 0 is, blanks, sign and leading zeros aside, the digits of the field |
| Juso.DigitField | internal/etl/juso/parse.go:157-164 | a digit field in range is printed without its leading zeros |
| Juso.JibunAddress | internal/etl/juso/parse.go:219-245 | the builder writes the parts that are present, joined by single blanks |
| Juso.LotNumberIs | internal/etl/juso/parse.go:236-243 | the printed number is a lot number if and only if no field is negative |
| Juso.LotNumberOfDigits | internal/etl/juso/parse.go:239-243 | the number of digit fields is both without leading zeros, the second only when it is not 0 |
| Juso.JibunRoundTrip | internal/etl/juso/parse.go:219-245 | parsing the printed lot address gives kind Jibun and its town, and its lot with the mountain flag if and only if no number field is negative |
| Juso.NegativeLotIsLost | internal/etl/juso/parse.go:219-245 | a record whose lot the parser does not recognise |
| JusoRoad.RoadAddress | internal/etl/juso/parse.go:173-200 | the builder writes the parts that are present, the town only in front of a village, and the note last |
| JusoRoad.RoadAddressReads | internal/etl/juso/parse.go:165-218 | whatever the note, parsing the printed road address and printing the key gives the record's own key when the building is not underground and no number field is negative |
| JusoRoad.BuildingNumberOfDigits | internal/etl/juso/parse.go:190-194 | the building number of digit fields is both without leading zeros, the second only when it is not 0 |
| JusoRoad.NoteIsKept | internal/etl/juso/parse.go:202-218 | what is left beside the fields is exactly the note: the town of a town district, and the name of a block of flats |
| JusoRoad.RoadAddressRoundTrip | internal/etl/juso/parse.go:165-218 | and otherwise the key is empty, if nothing of the note is left outside its parentheses |
| JusoRoad.NoteIsTakenOut | internal/etl/juso/parse.go:202-218 | nothing is left when no name in the note holds a closing parenthesis |
| JusoRoad.BasementIsLost | internal/etl/juso/parse.go:187-190 | an underground address that gets no key |
| Jamo.WriteRune | internal/address/jamo.go:20-30 | one rune is written as its two or three letters, with every table index in range |
| Jamo.DecomposeJamo | internal/address/jamo.go:16-33 | the builder holds the letters of all runes in order |
| Jamo.Choseong | internal/address/jamo.go:35-47 | one leading consonant per syllable, the first letter of its decomposition, other runes unchanged |
| Jamo.LettersOf | internal/address/jamo.go:16-33 | every syllable is written as the leading consonant, vowel and trailing consonant of its three indices |
| Jamo.OthersStay | internal/address/jamo.go:20-24 | every other character is left as it is |
| Jamo.LeadingCode | internal/address/jamo.go:9 | the code points of the leading consonants |
| Jamo.MiddleCode | internal/address/jamo.go:10 | the code points of the vowels |
| Jamo.TrailingCode | internal/address/jamo.go:11-13 | the code points of the trailing consonants |
| Jamo.SyllableRoundTrip | internal/address/jamo.go:8-33 | the composition formula restores every syllable from its letters |
| Jamo.ComposeStep | internal/address/jamo.go:16-33 | the reader with lookahead restores the first rune exactly when it does not clash with what follows |
| Jamo.RoundTrip | internal/address/jamo.go:16-33 | the reader restores a text if and only if no rune in it clashes |
| Jamo.UniquelyDecodable | internal/address/jamo.go:16-33 | every text without compatibility jamo is restored |
| Jamo.Injective | internal/address/jamo.go:16-33 | clash-free texts with one decomposition are equal |
| Jamo.LooseJamoCollide | internal/address/jamo.go:16-33 | two different texts with one decomposition |
| Migrations.SortAscends | internal/store/migrate.go:29 | sorting gives the same names in strictly ascending order |
| Migrations.LaterNamesExtend | internal/store/migrate.go:12-14 | a directory that only grows by later names has the old sorted list as a prefix of the new |
| Migrations.Database.Migrate | internal/store/migrate.go:16-67 | the loop with its early returns leaves the database and the error the run function gives, for a failure at any step of any file, and changes nothing when the table of records or the listing fails |
| Migrations.RunAppliesAPrefix | internal/store/migrate.go:31-66 | a run appends a prefix of what is pending, in order, and all of it when it reports success |
| Migrations.RunStopsAt | internal/store/migrate.go:31-66 | a run stops at the first file that cannot be looked up, or is not in effect and does not go well, with its step and name as error; the files before it are in effect, and it is itself exactly when only the acknowledgement of its commit was lost |
| Migrations.RunGoesThrough | internal/store/migrate.go:31-67 | without such a file a run brings all files into effect and reports no error |
| Migrations.OrderIsRestored | internal/store/migrate.go:12-14 | after a successful run the schema is the sorted list if and only if what was in effect before was a prefix of it |
| Migrations.EarlierNameComesLate | internal/store/migrate.go:12-14 | a successful run that leaves the schema out of order |
| Migrations.EveryInterleavingIsSound | internal/store/migrate.go:31-66 | in every interleaving of any number of runs, failing anywhere: recorded names are exactly the files in effect, none applied twice or undone, and a successful run leaves none of its files pending |
| Migrations.SchemaIsASortedPrefix | internal/store/migrate.go:31-66 | when lists only grow by later names, every interleaving leaves the schema equal to a sorted prefix, and to the whole list once a run over it succeeds |
| Migrations.RunIsABehaviour | internal/store/migrate.go:31-66 | a single run is one of these behaviours, with the same effect and verdict |
| LandSales.EmdMapIsRight | internal/etl/landsales/load.go:159-218 | after any rows a name is mapped iff all its rows carry one code, to that code, and ambiguous iff two codes occurred |
| LandSales.LineCounts | internal/etl/landsales/load.go:193-204 | a line counts exactly when it has five columns, a code of ten bytes of the district in the second and a name in the fifth, which is taken without blanks around it |
| LandSales.OrderIsIrrelevant | internal/etl/landsales/load.go:159-218 | the map depends neither on the order of the lines nor on repeats |
| LandSales.MappedCodesAreLocal | internal/etl/landsales/load.go:197-200 | every mapped code starts with the district code, and no name is both mapped and ambiguous |
| LandSales.ReadFile | internal/etl/landsales/load.go:186-213 | the loop with its insertions and deletions folds the lines of one file into the two maps |
| LandSales.ReadArchive | internal/etl/landsales/load.go:171-215 | the files of one archive continue the map, up to the first that does not open |
| LandSales.BuildEmdMap | internal/etl/landsales/load.go:162-218 | all text files of all archives in order give the map of all their rows; no archive, or one or a file of one that does not open, is an error, and archives without text files give empty maps |
| LandSales.Store.Load | internal/etl/landsales/load.go:60-157 | every outcome: before the inserts a failure changes nothing; the first item whose insertion fails stops the load with the counters so far and an unchanged table; otherwise the month's rows are replaced by the batch with the counters of the items, unless the commit is refused |
| LandSales.CountersAddUp | internal/etl/landsales/load.go:50-57 | fetched = inserted + unmatched + ambiguous, rows without point <= inserted |
| LandSales.TallyIs | internal/etl/landsales/load.go:50-57 | each counter is the number of items with its fate |
| LandSales.PartialIs | internal/etl/landsales/load.go:134-147 | a load that stops counts the items before, and a missing point of the failing item itself |
| LandSales.FateIs | internal/etl/landsales/load.go:104-124 | an item is a sale exactly when its town is mapped, amount and area can be read, the area is positive and no part of the date is blank; it is ambiguous exactly when its town is |
| LandSales.SaleIs | internal/etl/landsales/load.go:117-147 | what is stored of a sale: code and point of the town, date, area, 10000 times the amount, and jibun, use zone and land category each from its own field, without blanks around |
| LandSales.CommasGone | internal/etl/landsales/load.go:117 | no comma is left in an amount |
| LandSales.CommasCut | internal/etl/landsales/load.go:117 | and nothing else is taken out |
| LandSales.FailureIsFirst | internal/etl/landsales/load.go:113-150 | the item a load stops at is the first whose insertion fails |
| LandSales.NoFailureMeans | internal/etl/landsales/load.go:113-150 | a load that meets no failing item has inserted a row for every sale |
| LandSales.TwiceIsOnceIfAllDue | internal/etl/landsales/load.go:95-102 | loading twice leaves the same multiset of rows as once if and only if the delete reaches every inserted row |
| LandSales.ReloadIsIdempotent | internal/etl/landsales/load.go:59-157 | which holds if and only if every inserted row is dated in the month asked for |
| LandSales.ReloadCanDuplicate | internal/etl/landsales/load.go:95-150 | a reload after which one sale is there twice |
| LandSales.ReloadIsFramed | internal/etl/landsales/load.go:95-102 | then rows of other districts, months or sources keep their number, and the month's rows are exactly the batch |
| LandSales.IntervalIsTheMonth | internal/etl/landsales/load.go:95-102 | the half-open interval of the delete is the calendar month |
| LandSales.BatchIsFromDistrict | internal/etl/landsales/load.go:104-150 | every inserted row has a code of the district and the default source of migrations/007_appraisal.sql:63 |
| SqlLike.PrefixIsExact | internal/etl/landsales/load.go:98 | the pattern of the delete selects exactly the codes with the prefix when the district code has no metacharacter |
| Rings.SignedArea2 | internal/etl/jijeok/load.go:217-223 | the loop computes the sum of the cross products of neighbours |
| Rings.TriangleArea | internal/etl/jijeok/load.go:217-223 | a triangle has twice its area, positive when it turns left |
| Rings.AreaIsFan | internal/etl/jijeok/load.go:217-223 | a closed ring has the area of the triangles from any point to its sides |
| Rings.OrientationDecides | internal/etl/jijeok/load.go:180-186 | a ring that runs counter-clockwise around a point has positive area and is a hole, one that runs clockwise has negative area and opens a polygon |
| Rings.ReversalNegates | internal/etl/jijeok/load.go:217-223 | reversing a ring negates its area |
| Rings.RotationKeeps | internal/etl/jijeok/load.go:217-223 | the area of a closed ring does not depend on its first point |
| Rings.TranslationShifts | internal/etl/jijeok/load.go:217-223 | what moving a ring does to its area |
| Rings.ClosedRingKeepsArea | internal/etl/standardlots/load.go:322-328 | hence a closed ring keeps it |
| Rings.GroupRings | internal/etl/jijeok/load.go:165-191 | the groups, flattened, are the parts of at least four points in order; every group but the first opens with negative area, and every other ring of a group has area at least zero |
| Rings.OnlyOneGrouping | internal/etl/standardlots/load.go:270-298 | no other grouping has these properties |
| Wkt.MilliIsNearest | internal/etl/jijeok/load.go:208 | the printed coordinate is within half a thousandth of the value and on its side of zero |
| Wkt.TextIs | internal/etl/jijeok/load.go:192-214 | how polygons, rings and points are written: brackets, commas, longitude before latitude, three decimals |
| Wkt.TextReads | internal/etl/jijeok/load.go:192-214 | the text of any polygons reads back as the same nested polygons, rings and points |
| Wkt.WriteRing | internal/etl/jijeok/load.go:204-211 | the inner loop writes the points with commas between |
| Wkt.WritePoly | internal/etl/jijeok/load.go:198-212 | the middle loop writes the rings with commas between |
| Wkt.PolygonWkt | internal/etl/jijeok/load.go:165-215 | the text is empty iff no part is long enough, and otherwise the text of the groups of the parts, which reads back as them; the same code is at internal/etl/standardlots/load.go:270-320 |

## Left out

- HTTP handlers, JSON and XML, the MCP adapter, request identifiers, Sentry, web assets: little branching.
- Scopes, key extraction and key hashing: easy members.
- Floating-point rounding of tokens, rates and areas, and NaN or infinite values: reals stand for floats.
- Regular expressions are written as predicates on code points; invalid UTF-8 is not modelled.
- Warning texts: a datatype names each warning and carries its word.
- Lot and trigram lookups, PostGIS and the order of rows in query results: the answer is a parameter of `Geocode.Search`.
- Search by leading consonants: stored values keep blanks that queries drop, so no agreement holds in general.
- Endpoint names are taken after path folding, which neither makes nor hides the usage endpoint.
- An insert of the meter whose acknowledgement is lost counts as failed although its rows may be stored.
- Sending on the closed channel of the meter: as its comment asks, producers have stopped before `Meter.Meter.Close`.
- Entrance.Load: does not model the batches sent to the database and their errors, because the rows queued are the point.
- Entrance.StoredKeyAgrees: rows whose district part holds a township word are outside it, because the stored key then prints what the parser does not read as a district.
- Entrance.AnySpacingFinds: rows whose names hold commas or full stops are outside it and outside Entrance.StoredKeyAgrees, because the parser blanks them and the stored key keeps them.
- Juso.JibunRoundTrip: records whose names hold commas, full stops or a pair of parentheses are outside it, for the same reason.
- Geocode.PartialQueryIsAnswered: partial keys with a backslash are outside it, because as patterns they need not find their own text.
- JusoRoad.RoadAddressRoundTrip: records with an opening parenthesis in a place or road name are outside it, because it can pair with the note's.
- Number and date parsing of land sales, the download, the row identifier and the load date are parameters or absent; lines are those the scanner yields.
- A failing centroid query inside the transaction of land sales counts as a missing point.
- Migration files that end the transaction themselves, and reading the directory: the names are given.
- Shape parts with offsets out of order: the slices of the source fail on them, so `Rings.GroupRings` requires offsets in order.
- Other loaders, the crosswalk and `DISTINCT ON` choices: their result is left to the database.

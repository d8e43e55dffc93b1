# A three-plane web application firewall, modelled and verified

The repository is a web application firewall in three planes. The data-plane stores what operators author:
zones, firewall rules, access lists and DDoS policies. The control-plane compiles a zone's records into one
rule-set and publishes it to Redis. Edge nodes read Redis, decide every request from memory, and send the
evidence back. This project models the logic of all three in Dafny and proves what it is for.

- **Compiler and evaluator** (`Parse`, `Meaning`, `Wire`, `Compile`, `Matching`, `Stages`, `Decide`, `Verdict`).
  A denotation of the authored JSON is the reference for one condition, and a verdict stated on the records
  (no compilation, no sorting, no stages) is the reference for one request. The compiled and transported
  rule-set agrees with both.
- **Two more readers of the same grammar** (`Validator`, `Builder`). The save-time validator agrees with the
  compiler on well-typed input, and where it does not the difference is stated exactly. Opening a condition in
  the portal's builder and saving it keeps its meaning.
- **Budgets** (`Limiter`, `RateTraces`, `Keys`, `History`, `Concurrent`). The sharded, pruned, mutable table is
  proved against one flat table. Over whole runs, also with many requests in flight and sweeps shard by shard, it
  decides as a reference that keeps no table and recounts the past.
- **Distribution** (`Distribute`, `Traffic`, `Cache`, `Resync`, `Sync`). Redis transactions, an edge whose separate reads
  interleave with them and may fail, the full sweep and the incremental path: safety under every interleaving,
  convergence in quiet ones.
- **Evidence** (`Telemetry`, `Ingest`, `Correlate`, `Clearance`). Conservation and order through two bounded
  queues, incident correlation in any map order, and the clearance cookie printed and parsed back.

`Wrappers`, `Json`, `Text`, `Decimal`, `Library`, `Lists`, `Subsequences` and `Ruleset` hold what several of
them share. `Rows` reads the data-plane's rows straight off their JSON members; verdicts and served hosts are
stated in its terms, not in the compiler's. `EndToEnd` puts the planes together. `Library` collects the library functions the model leaves uninterpreted: whether a regular
expression compiles and what it matches, lower-casing, address containment (networks in the notation of
section 3.1 of RFC 4632) and equality, and number conversions. JSON is a tree of the six kinds of value of
section 3 of RFC 8259, with numbers kept as text.

Clocks are parameters. Network faults, lost replies, interleavings, map orders and the pages a store returns are
arbitrary parameters or arbitrary choices, so each theorem holds for all of them. Loops and objects of the source are methods and
classes here. Each method is proved equal to a function of its inputs or of the old state, and the main
theorems are about those functions.

## Where the code and its documentation differ

The model follows the code. These are results of this project rather than assumptions:

- The limiter's comment says that no active window is pruned. The compiler sets no upper bound on a window,
  and pruning is invisible exactly for windows of at most 300 seconds (`RateTraces.PruningInvisibleExactly`).
- Up to 2T - 1 requests, not 2T, can pass in an interval as long as the window or as 300 seconds, whichever is
  less, and that many do (`RateTraces.AtMostTwiceTheBudget`, `RateTraces.TwiceTheBudgetIsReached`). Over a whole
  longer window more can pass, a budget for every 300 idle seconds; the exact maximum is `RateTraces.Most`
  (`RateTraces.TwiceTheBudgetExactly`, `RateTraces.AtMostInAWindow`, `RateTraces.MostIsReached`).
- Thresholds and windows are truncated to 32 bits (`Verdict.RuleBudgetKeptExactly`,
  `Verdict.PolicyBudgetKeptExactly`). A threshold of 2^32 becomes 0 and the rule fires on every hit but the one
  that wraps the counter to 0; a window of 2^32 seconds becomes 0 and no threshold but 0 is ever exceeded
  (`Verdict.TruncatedThresholdAlwaysFires`, `Verdict.TruncatedWindowNeverFires`).
- Budget keys join identifiers with colons. Two rules share a budget exactly when the text "zone:rule:" of one
  begins that of the other (`Keys.RuleKeysMeetExactly`).
- `ZoneIDFromEvent` promises no zone for a tenant-wide event; it returns the zone "" for a null `zoneId`
  (`Sync.TenantWideEventNamesTheEmptyZone`).
- `sync.Zone` promises to remove a renamed zone's old rule-set. It does so only when the caller knows the old
  hostname and the zone is gone, or is either publishable with a hostname or neither
  (`Sync.OldHostGoesExactly`). The subscriber takes the hostname from the event
  (`Sync.RenameEventLeavesTheOldHost`), and a zone renamed and suspended keeps its old host even when it is named
  (`Sync.SuspendedRenameLeavesTheOldHost`).
- The two paths into Redis are said not to drift. They agree on a served zone exactly when it is in the sweep's
  page, no tenant-wide row compiles and no later call names its host as a known one
  (`Sync.AnyScheduleAgreesWithTheSweep`).
- `AllZones` says that it fetches every zone, then that it does not. A servable zone is served exactly when it
  is among the first 50 (`Resync.OnlyTheFirstPageIsServed`).
- An edge skips a download when the version has not moved, and the version is the zone row's own. After a sweep
  and a quiet refresh an edge serves the data-plane's rule-set exactly when it holds nothing else under the same
  version (`Resync.EdgeConverges`), so a change to a rule, a policy or a tenant-wide list reaches it only if that
  version moves too (`Resync.UnbumpedChangeIsNeverFetched`). `data-plane/docs/04-architecture-boundary.md:38`
  promises that it does; that promise is the version discipline of `Cache.DisciplineMakesSkippingSafe`.
- Correlation deduplicates by looking for the address inside titles, so "10.0.0.1" is taken as covered by an
  incident about "10.0.0.12" (`Correlate.AddressInsideAnother`, `Correlate.OneIncidentPerGroupExactly`), and it
  reads 50 of the zone's open incidents, so a rerun is idempotent exactly when no due address is behind 50 others
  (`Correlate.RerunOpensNothing`, `Correlate.FiftyOthersHide`).
- The validator accepts some conditions that the compiler then drops, and refuses some that it would compile;
  both are characterised (`Validator.DroppedAfterSaving`, `Validator.RefusedThoughCompilable`) and have inputs.
- The builder drops what the compiler reads in three cases when it saves a flat test (`Builder.SavedRowExactly`),
  and when an object mixes combinator and test keys or a combinator is null; in all other cases it saves the same
  compiled condition (`Builder.SavedConditionExactly`). The inputs are `Builder.NullOperandIsLost`,
  `Builder.NumberIsRewritten`, `Builder.NullParamUncoversHeader` and `Builder.CombinatorBesideIsLost`.
- The order of one edge's evidence can be lost: the shipper gives a POST up after 10 seconds while its handler
  goes on, and the next one can overtake it (`Ingest.TimedOutPostIsOvertaken`, `Ingest.AdmittedInOrderExactly`).
- A sweep acts on a list of zones that may be out of date by the time it writes. A zone created and synchronised
  meanwhile is removed, one suspended meanwhile is published again, each until the next sweep
  (`Resync.CreatedZoneIsRemoved`, `Resync.SuspendedZoneIsRepublished`).
- `edge-plane/README.md:37` evaluates DDoS budgets first. The code evaluates them last, and so does the model.
- The negated operators do match on a malformed network or an absent country, as in the code.

## Model

| member | source | states |
|---|---|---|
| `Parse.ParseMatch` | control-plane/go/compile/compile.go:120-275 | The recursive parser with its loops computes `Parsed`, the function all theorems on conditions are about; anything the grammar cannot represent is refused, at any depth |
| `Parse.ParseList` | control-plane/go/compile/compile.go:131-160 | The loop over the children of `all` or `any` keeps their order and refuses the list as soon as one child is refused |
| `Parse.DecodeValues` | control-plane/go/compile/compile.go:195-206 | The operands of `in` and `notIn` are the elements that decode as strings, in order; the others are skipped |
| `Meaning.ParsedMeaning` | edge-plane/go/evaluate/evaluate.go:138-229 | For every accepted condition and every request, evaluating the compiled tree gives the truth value of the authored JSON under a denotation that knows neither the compiler's tables nor its grammar |
| `Meaning.ConditionMeaning` | edge-plane/go/ruleset/ruleset.go:156-207 | Authored, compiled, serialised, read back at the edge and evaluated, a condition decides every request as its author wrote it |
| `Meaning.ParsedTravels` | control-plane/go/compile/compile.go:169-193 | The strict reader of the edge refuses nothing that the compiler emits |
| `Meaning.TestMeaning` | edge-plane/go/evaluate/evaluate.go:83-202 | One test: field and operator aliases, lists of operands, negation and network containment mean what the authored names say |
| `Meaning.DecodedOperands` | control-plane/go/compile/compile.go:195-206 | A text is among the decoded operands if and only if a textual element says it |
| `Meaning.NetworkMeaning` | edge-plane/go/evaluate/evaluate.go:118-136 | A text with a slash is searched as a network, any other is compared as an address; with a library that tells the two apart, a match is the one or the other |
| `Matching.NothingWidens` | edge-plane/go/evaluate/evaluate.go:83-202 | A predicate without an operator matches nothing unless it tests a network, a pattern that does not compile matches nothing, and an attribute or header that is not named is empty |
| `Meaning.WireNamesAreAuthored` | control-plane/go/ruleset/ruleset.go:60-86 | The names on the wire are names an author may use and mean the same, but for the one of inequality, which no author may use |
| `Wire.MatchRoundTrip` | control-plane/go/ruleset/ruleset.go:131-146 | Reading a written expression returns the same tree if every test in it names a field and an operator, and is refused otherwise |
| `Wire.PredicateRoundTrip` | edge-plane/go/ruleset/ruleset.go:81-134 | A predicate survives the wire exactly when its field and operator are known; omitted members come back absent |
| `Wire.RuleRoundTrip` | edge-plane/go/ruleset/ruleset.go:214-228 | A compiled rule survives the wire |
| `Wire.DdosRoundTrip` | edge-plane/go/ruleset/ruleset.go:230-241 | A compiled DDoS policy survives the wire |
| `Wire.ZoneRoundTrip` | edge-plane/go/ruleset/ruleset.go:243-260 | A whole rule-set survives the wire |
| `Wire.ActionRoundTrip` | edge-plane/go/ruleset/ruleset.go:54-66 | Every known action, and no other, is read back |
| `Wire.NamesReadExactly` | edge-plane/go/ruleset/ruleset.go:54-125 | The strict readers of actions, fields and operators read exactly the names that are written, each as what it was |
| `Wire.OnlyKnownShapes` | edge-plane/go/ruleset/ruleset.go:156-207 | Whatever is read as an expression is "always" or one of the four keys on its own |
| `Wire.MissingMembersAreRead` | edge-plane/go/ruleset/ruleset.go:127-134 | A predicate without a field or an operator is not refused: it is read with neither |
| `Validator.ValidatorAgrees` | data-plane/go/zonesservice/matchcondition.go:39-124 | On well-typed conditions of any depth the validator accepts exactly what the compiler compiles |
| `Validator.SavableIsCompilable` | data-plane/go/zonesservice/matchcondition.go:39-48 | For a whole saved condition, absent or not: it may be saved exactly when it compiles and its numbers fit a float64 |
| `Validator.DroppedAfterSaving` | data-plane/go/zonesservice/matchcondition.go:50-115 | A condition the validator accepted is dropped by the compiler if and only if it has an unreadable operand, header name or combinator somewhere |
| `Validator.NumbersInAListAreDropped` | data-plane/go/zonesservice/matchcondition.go:78-86 | An input: a list of numbers for `in` may be saved and is dropped |
| `Validator.RefusedThoughCompilable` | data-plane/go/zonesservice/matchcondition.go:50-115 | A condition that compiles is refused by the validator if and only if somewhere in it is a null operand, a pattern that is no string, a header without a string name, or a null `all` or `any` with nothing valid beside it |
| `Validator.NullOperandDrifts` | control-plane/go/compile/compile.go:208-226 | An input: a null operand compiles as empty text and is refused |
| `Validator.NumericPatternDrifts` | control-plane/go/compile/compile.go:208-226 | An input: a number where a pattern is expected compiles and is refused |
| `Validator.NullHeaderNameDrifts` | control-plane/go/compile/compile.go:236-256 | An input: a null header name compiles and is refused |
| `Validator.NullListDrifts` | control-plane/go/compile/compile.go:131-145 | An input: a null `all` compiles as an empty list and is refused |
| `Builder.BuilderReopens` | data-plane/web/src/lib/matchCondition.ts:66-148 | Opening what the builder saved gives the normal form of what was edited |
| `Builder.EveryNameThere` | data-plane/web/src/lib/matchCondition.ts:15-39 | Every field and operator of the compiled grammar can be chosen in the builder |
| `Builder.OneNameEach` | data-plane/web/src/lib/matchCondition.ts:15-39 | No two of the builder's names compile to the same field or operator |
| `Builder.SavedRowExactly` | data-plane/web/src/lib/matchCondition.ts:66-122 | Opening an accepted flat test and saving it gives the same compiled test, up to unused members, if and only if the members it uses read alike: no null in a used list, a used number printed as written, no null `param` hiding another header name |
| `Builder.SavedConditionExactly` | data-plane/web/src/lib/matchCondition.ts:66-148 | Opening an accepted condition and saving it gives the same compiled condition, up to unused members and lists of one, if and only if no object mixes combinator and test keys, no `all` or `any` is null, and every test reads alike |
| `Builder.EditingKeepsMeaning` | data-plane/web/src/lib/matchCondition.ts:105-148 | So such a condition keeps its truth value on every request |
| `Builder.NullOperandIsLost` | data-plane/web/src/lib/matchCondition.ts:105-122 | An input: a null among used values is an operand to the compiler only, and a request changes sides |
| `Builder.NumberIsRewritten` | data-plane/web/src/lib/matchCondition.ts:105-122 | An input: 1.0 is saved as "1", and a request changes sides |
| `Builder.NullParamUncoversHeader` | data-plane/web/src/lib/matchCondition.ts:105-122 | An input: a null `param` hides `header` from the compiler only, and a request changes sides |
| `Builder.CombinatorBesideIsLost` | data-plane/web/src/lib/matchCondition.ts:129-148 | An input: of a `not` beside a test the compiler reads the one and the builder the other |
| `Compile.CompileZone` | control-plane/go/compile/compile.go:414-485 | The loops build the rule-set `ZoneOf` describes, and the logged count is exactly the number of rules and entries that do not compile |
| `Compile.RuleCompilesExactly` | control-plane/go/compile/compile.go:277-319 | A rule is dropped if and only if its `enabled` member is false or null, or its condition cannot be represented; name, type, action, priority, condition and budget are those of the row's members |
| `Compile.DdosCompilesExactly` | control-plane/go/compile/compile.go:360-399 | A policy is dropped if and only if its `enabled` member is false or null; action, priority, budget and scope are the row's |
| `Compile.EntryCompilesExactly` | control-plane/go/compile/compile.go:331-358 | An entry is dropped if and only if it is switched off or lacks a type or a value; a whitelist entry allows its network and any other blocks it |
| `Compile.ZoneCompilesExactly` | control-plane/go/compile/compile.go:448-485 | A zone compiles if and only if it has a hostname; origin, status, mode and version are the row's, and it is publishable if and only if the status it compiles to is active or paused |
| `Compile.RecordReads` | control-plane/go/dataplane/dataplane.go:39-73 | What each reader of a row returns, in terms of the kinds of JSON value in its members |
| `Compile.PartitionEntries` | control-plane/go/compile/compile.go:426-438 | The access list is split stably: the whitelist in order, then everything else in order |
| `Compile.CompileDdosPolicies` | control-plane/go/compile/compile.go:403-412 | The compilable policies, stably sorted by priority |
| `Compile.EveryRecordOnce` | control-plane/go/compile/compile.go:414-485 | Every compilable rule, entry and policy is in the rule-set exactly once, and nothing else is |
| `Lists.FirstOfSorted` | control-plane/go/compile/compile.go:440-446 | First match after a stable sort by priority is the least match by (priority, position) of the input |
| `Lists.LeastIsLeast` | control-plane/go/compile/compile.go:440-446 | That least match has no match of lower priority anywhere, nor an equal one before it |
| `Verdict.CompiledDecision` | edge-plane/go/evaluate/evaluate.go:236-283 | Compile, then evaluate: for all records with distinct identifiers, every request and every table of budgets the decision is the one prescribed by the JSON members of the rows, with their 32-bit budgets (first matching whitelist entry, first other entry, least firing rule, least firing policy) |
| `Verdict.AuthoredDecision` | edge-plane/go/evaluate/evaluate.go:236-283 | When the budgets fit in 32 bits it is the verdict of the authored numbers |
| `Verdict.VerdictIsUnique` | edge-plane/go/evaluate/evaluate.go:236-283 | The records prescribe exactly one decision |
| `Verdict.CompiledIdsDistinct` | control-plane/go/compile/compile.go:414-485 | Distinct records compile to budgets with distinct identifiers, through filtering, partition and sorting |
| `Verdict.CompiledScopesSeparate` | control-plane/go/compile/compile.go:414-485 | Records whose key scopes do not begin each other compile to budgets that no two clients share |
| `Verdict.RuleBudgetKeptExactly` | control-plane/go/compile/compile.go:289-300 | A limited rule keeps its threshold and window if and only if both are below 2^32 |
| `Verdict.PolicyBudgetKeptExactly` | control-plane/go/compile/compile.go:360-399 | A DDoS policy keeps its threshold and window if and only if both are below 2^32 |
| `Verdict.TruncatedWindowNeverFires` | control-plane/go/compile/compile.go:299 | Fails open: with a window of 2^32 seconds the rule never fires at a threshold of at least 1 |
| `Verdict.TruncatedThresholdAlwaysFires` | control-plane/go/compile/compile.go:299 | Fails closed: with a threshold of 2^32 the rule fires on every matching hit but one that wraps the counter to 0 |
| `Verdict.EnforcedExactly` | edge-plane/go/evaluate/evaluate.go:72-77 | From the record through the wire: a decision other than to log takes effect if and only if the zone's record says active and enforce; otherwise it is a log |
| `Verdict.ActionTravelsByName` | control-plane/go/compile/compile.go:48-62 | The authored action travels under its own name if it is allow, block or challenge, and as a log otherwise |
| `Verdict.CompiledZoneTravels` | control-plane/go/ruleset/ruleset.go:148-200 | Everything the compiler produces, with its truncated budgets and 64-bit numbers, is read back at the edge unchanged |
| `Limiter.RateLimiter.Check` | edge-plane/go/ratelimit/ratelimit.go:66-84 | On the flat table the shards stand for: exactly one hit on this key, every other counter untouched, and the verdict of the new count |
| `Limiter.RateLimiter.Prune` | edge-plane/go/ratelimit/ratelimit.go:89-100 | Exactly the counters idle for 300 seconds are gone |
| `Limiter.RateLimiter.TrackedKeys` | edge-plane/go/ratelimit/ratelimit.go:102-110 | The sum over the shards is the number of distinct keys of the flat table |
| `Limiter.RateLimiter.PruneShard` | edge-plane/go/ratelimit/ratelimit.go:91-98 | One shard's share of a sweep, by a clock read earlier: exactly its keys that were idle then are gone |
| `Limiter.Shard.Prune` | edge-plane/go/ratelimit/ratelimit.go:93-98 | One shard, its map walked in any order while entries are deleted |
| `RateTraces.CountersStayOk` | edge-plane/go/ratelimit/ratelimit.go:66-100 | In every run of checks and partial sweeps windowStart <= lastSeen <= now holds at the end |
| `RateTraces.AtMostTwiceTheBudget` | edge-plane/go/ratelimit/ratelimit.go:66-100 | In any run of checks of any clients and partial sweeps, at most 2T - 1 requests of one client pass in any half-open interval as long as the window or 300 seconds, whichever is less |
| `RateTraces.TwiceTheBudgetIsReached` | edge-plane/go/ratelimit/ratelimit.go:66-84 | The bound is sharp: for every budget a run reaches it |
| `RateTraces.TwiceTheBudgetExactly` | edge-plane/go/ratelimit/ratelimit.go:27-29 | The bound holds over intervals as long as the window, in all runs, if and only if the window is at most 300 seconds |
| `RateTraces.AtMostInAWindow` | edge-plane/go/ratelimit/ratelimit.go:66-100 | For windows of any length, at most `Most` requests of one client pass in any interval as long as the window: whole budgets every 300 seconds, or the rest of an earlier window first |
| `RateTraces.MostIsReached` | edge-plane/go/ratelimit/ratelimit.go:66-100 | That maximum is exact: for every threshold and window some run reaches it |
| `RateTraces.ShortRunsNeverWrap` | edge-plane/go/ratelimit/ratelimit.go:81 | Fewer than 2^32 requests in all are enough for no counter to wrap |
| `RateTraces.PruningIsInvisible` | edge-plane/go/ratelimit/ratelimit.go:29-100 | Inserting, removing or moving sweeps of any part of the table, with clocks read earlier, changes no verdict while the windows are within the eviction time |
| `RateTraces.PruningInvisibleExactly` | edge-plane/go/ratelimit/ratelimit.go:27-29 | Pruning can never be noticed if and only if the window is at most 300 seconds |
| `RateTraces.BudgetsAreIsolated` | edge-plane/go/ratelimit/ratelimit.go:54-84 | In every run a client gets exactly the verdicts it would get if no other client had sent anything |
| `Keys.RuleKeysMeetExactly` | edge-plane/go/ratelimit/ratelimit.go:113-115 | Two rules share a key for some two clients if and only if one of "zone:rule:" begins the other |
| `Keys.RuleKeyInjective` | edge-plane/go/ratelimit/ratelimit.go:113-115 | So equal rule keys mean equal zone, rule and client, IPv6 clients included, when the identifiers contain no colon |
| `Keys.DdosKeysMeetExactly` | edge-plane/go/ratelimit/ratelimit.go:119-121 | The same condition for two policies |
| `Keys.DdosKeyInjective` | edge-plane/go/ratelimit/ratelimit.go:119-121 | The same for policy keys |
| `Keys.RuleAndDdosKeysApart` | edge-plane/go/ratelimit/ratelimit.go:113-121 | A rule's key is never a policy's |
| `Keys.SeparatorInAnIdMergesBudgets` | edge-plane/go/ratelimit/ratelimit.go:113-115 | An input family: rule "a:b" for client "c" and rule "a" for client "b:c" spend one budget |
| `Decide.Evaluate` | edge-plane/go/evaluate/evaluate.go:236-283 | The two loops on the mutable limiter compute the walk over the zone's stages: the decision, and the whole table afterwards |
| `Decide.EvaluateRules` | edge-plane/go/evaluate/evaluate.go:237-258 | The first loop decides as the walk does, or leaves the table where the walk enters the policies |
| `Decide.EvaluateDdos` | edge-plane/go/evaluate/evaluate.go:264-280 | The second loop does so for the policies |
| `Decide.OneBudgetPerStageAndClient` | edge-plane/go/evaluate/evaluate.go:242-275 | Every rule or policy and client of a zone has a counter of its own if and only if no key scope of the zone begins another |
| `Stages.FirstFiringStageDecides` | edge-plane/go/evaluate/evaluate.go:236-283 | The first stage that fires decides, judged on the table as it was before the request; the limited stages up to it are counted once each, the later ones not at all |
| `History.HistoryDecides` | edge-plane/go/evaluate/evaluate.go:236-283 | For every run of requests and sweeps, the deciding stages are those of a reference that keeps no table and counts, in 32 bits, the past requests that reached the stage and matched it in the open window |
| `History.Serve` | edge-plane/go/ratelimit/ratelimit.go:66-100 | The mutable limiter, pruned at any moments, gives each request the decision of that reference |
| `History.Replay` | edge-plane/go/evaluate/evaluate.go:236-283 | For every run of requests and sweeps on one mutable limiter, each request gets the decision of the stage at which the walk over the flat table stops |
| `History.ShortHistoriesNeverWrap` | edge-plane/go/ratelimit/ratelimit.go:81 | With fewer than 2^32 requests the 32-bit counts are the true counts |
| `Concurrent.InterleavingsFollowHistory` | edge-plane/go/evaluate/evaluate.go:236-283 | Requests in flight together, interleaved check by check with sweeps shard by shard, whatever clocks they have read before taking the lock and however long the windows: every request stands where a history of hits and sweeps says |
| `Concurrent.InterleavingsFollowHits` | edge-plane/go/ratelimit/ratelimit.go:66-100 | The hits alone say so when nothing is swept, or when clocks are at most a skew old and windows plus twice the skew are within 300 seconds |
| `Concurrent.SkewedWindowsExactly` | edge-plane/go/ratelimit/ratelimit.go:66-70 | No sweep is ever noticed by a budget, in any history with clocks at most a skew old, if and only if its window plus twice the skew is within 300 seconds |
| `Concurrent.Serve` | edge-plane/go/ratelimit/ratelimit.go:66-100 | The mutable limiter does so under every schedule of such steps |
| `Concurrent.AloneIsEvaluate` | edge-plane/go/evaluate/evaluate.go:236-283 | A request whose steps nothing interrupts is decided, and spends, as `Evaluate` does |
| `Concurrent.AdvanceOne` | edge-plane/go/evaluate/evaluate.go:237-280 | One turn of a loop of `Evaluate`: whether this stage fires, and the whole table afterwards |
| `Ruleset.RedisKeysApart` | control-plane/go/ruleset/ruleset.go:30-43 | The kinds of Redis key never collide, whatever the hostnames |
| `Distribute.Redis.Publish` | control-plane/go/distribute/distribute.go:42-55 | Rule-set, version and membership change together or not at all; a lost reply may hide the change |
| `Distribute.Redis.Unpublish` | control-plane/go/distribute/distribute.go:60-69 | All three keys of the host go together or not at all |
| `Distribute.Redis.PublishedHostnames` | control-plane/go/distribute/distribute.go:74-80 | Every indexed host exactly once, in any order |
| `Distribute.Redis.BumpEpoch` | control-plane/go/distribute/distribute.go:85-91 | Only the epoch moves, by one |
| `Distribute.EpochCounts` | control-plane/go/distribute/distribute.go:82-91 | After any writes the epoch has grown by the number of bumps |
| `Distribute.RunsStayAligned` | control-plane/go/distribute/distribute.go:42-69 | After every sequence of transactions the index, the rule-sets and the versions name the same hosts, and each host holds one whole publication of its own |
| `Distribute.VersionKeyIsTrue` | control-plane/go/distribute/distribute.go:42-55 | After every run the version key of a host is the version inside its stored rule-set |
| `Distribute.PublicationsAreLegible` | control-plane/go/distribute/distribute.go:42-55 | What is published is read back whole, and so is its version |
| `Cache.RuleSetCache.RefreshOnce` | edge-plane/go/cache/cache.go:77-142 | One pass over reads that each see a different moment or fail: the new map, its epoch, the number of downloads and of reads; after a failed index read nothing has changed |
| `Cache.DownloadsExactly` | edge-plane/go/cache/cache.go:88-141 | The count that is returned is the number of listed hosts whose version was new or unknown and whose payload was usable |
| `Cache.RuleSetCache.RunRefreshLoop` | edge-plane/go/cache/cache.go:157-179 | Tick by tick a refresh or, on failure, the old snapshot; genuine entries at every tick, however the writers interleave |
| `Cache.RebuiltEntry` | edge-plane/go/cache/cache.go:91-136 | Each listed host gets what its own two reads say, whatever the other hosts' reads did |
| `Cache.RefreshStaysGenuine` | edge-plane/go/cache/cache.go:77-142 | Under every interleaving and any failed reads, every entry is one whole rule-set once published for that host, of a schema the edge supports |
| `Cache.ServedStaysServed` | edge-plane/go/cache/cache.go:105-140 | A served host stays served if and only if the index read lists it |
| `Cache.EntriesAreFresh` | edge-plane/go/cache/cache.go:91-136 | Under version discipline every entry is what Redis held at one of the host's two reads, unless the second found nothing usable |
| `Cache.CheapRefreshAgreesExactly` | edge-plane/go/cache/cache.go:93-103 | After any run of publications, skipping equal versions agrees with re-downloading everything, for every edge that holds past publications, if and only if nothing else was ever published for an indexed host under its stored version |
| `Cache.RefreshOnStill` | edge-plane/go/cache/cache.go:77-142 | A refresh during which nobody writes and no read fails builds the map the convergence theorems speak of |
| `Cache.DisciplineMakesSkippingSafe` | data-plane/docs/04-architecture-boundary.md:38-40 | Under version discipline over all published history the cheap refresh is, at every moment of the run, as good as a full reload |
| `Resync.RunOnce` | control-plane/go/resync/resync.go:23-101 | With other writers acting between any two calls: the sweep succeeds exactly when no call failed; it writes its publications, then the removals of what it read in the index and does not expect, then the epoch, or a beginning of that |
| `Resync.PublishAll` | control-plane/go/resync/resync.go:42-78 | The first loop publishes each servable zone in turn and collects exactly the expected hostnames, or stops with a beginning of that done |
| `Resync.PublishZone` | control-plane/go/resync/resync.go:55-77 | One zone compiled from its own rows and the tenant-wide ones, published whole or not at all |
| `Resync.RemoveOrphans` | control-plane/go/resync/resync.go:82-93 | The second loop unpublishes exactly the listed hosts that are not expected, or a beginning of them |
| `Resync.StoppedSweepKeepsServableHosts` | control-plane/go/resync/resync.go:40-93 | Wherever the sweep stops and whatever others write, a host that was indexed and is servable is still indexed unless another writer unpublished it |
| `Resync.RemovalsComeLast` | control-plane/go/resync/resync.go:80-93 | Nothing is unpublished before every servable zone is published |
| `Resync.SweepConverges` | control-plane/go/resync/resync.go:23-101 | From any Redis content a sweep without failures leaves exactly the servable hosts in the index, each with its compiled rule-set |
| `Resync.SweepConvergesWhereLeftAlone` | control-plane/go/resync/resync.go:23-101 | Among other writers, every host they leave alone ends indexed if and only if it is expected, serving what its zone compiles to |
| `Resync.QuietSweep` | control-plane/go/resync/resync.go:23-101 | Without other writers a successful sweep leaves exactly the store of the convergence theorem |
| `Resync.IndexedAfterRemovals` | control-plane/go/resync/resync.go:80-93 | Whatever was written up to the index read: afterwards a host is indexed if and only if it was then and the sweep expects it |
| `Resync.LastWriteDecides` | control-plane/go/distribute/distribute.go:42-69 | However writers interleave, the last write about a host decides whether it is indexed |
| `Resync.CreatedZoneIsRemoved` | control-plane/go/resync/resync.go:82-93 | An input: a zone created and published after the sweep read its list loses its host |
| `Resync.SuspendedZoneIsRepublished` | control-plane/go/resync/resync.go:42-78 | An input: a zone suspended and unpublished after the sweep read its list is published again |
| `Resync.EdgeConverges` | edge-plane/go/cache/cache.go:77-142 | A sweep from any Redis content, then one refresh of an edge with any snapshot: a host is served what its zone compiles to if and only if the edge held nothing else under the same version; no other host is served |
| `Resync.RefreshAfterSweepConverges` | edge-plane/go/cache/cache.go:77-142 | The same for the reads of `refreshOnce` themselves |
| `EndToEnd.RowsDecideAtTheEdge` | edge-plane/go/evaluate/evaluate.go:236-283 | All three planes: after a sweep without failures among writers that leave the host alone, and an undisturbed refresh, the edge decides every request as the JSON members of the data-plane's rows prescribe: the zone's first 50 policies, its first 50 rules and 100 entries, and as many tenant-wide ones |
| `EndToEnd.SweptDecides` | control-plane/go/resync/resync.go:55-70 | What the sweep compiles for a zone decides as those rows prescribe |
| `Resync.OnlyTheFirstPageIsServed` | control-plane/go/dataplane/dataplane.go:237-244 | A servable zone is in the index after a sweep if and only if it is among the first 50 |
| `Resync.PagesAre` | control-plane/go/dataplane/dataplane.go:242-270 | The reads return the first 50 zones, policies and rules and the first 100 entries |
| `Resync.ServableExactly` | control-plane/go/compile/compile.go:36-46 | A zone is served if and only if it has a hostname and compiles to the status active or paused, its own or else its envelope's |
| `Resync.UnbumpedChangeIsNeverFetched` | edge-plane/go/cache/cache.go:93-103 | While the zone's own row stays the same, a serving edge keeps what it has, and has what the data-plane compiles if and only if nothing changed |
| `Sync.Zone` | control-plane/go/sync/sync.go:32-83 | With other writers acting between its calls, the incremental path writes exactly `SyncWrites` when no call fails, otherwise a beginning of it, and reports which |
| `Sync.AnyScheduleAgreesWithTheSweep` | control-plane/go/sync/sync.go:24-83 | After calls about any zones, existing or gone, in any order and number and with any known hostnames, that include this zone's: its host is exactly as a sweep would leave it, if and only if both leave nothing, or it is in the sweep's page, no tenant-wide row compiles and no later call takes the host out as its known one |
| `Sync.SyncedIsSweptExactly` | control-plane/go/resync/resync.go:55-70 | The two paths compile one rule-set for a zone if and only if no tenant-wide row compiles |
| `Sync.OldHostGoesExactly` | control-plane/go/sync/sync.go:37-82 | A host that is not the zone's own leaves the index if and only if the caller named it and the zone is gone, or is publishable exactly when it has a hostname |
| `Sync.SuspendedRenameLeavesTheOldHost` | control-plane/go/sync/sync.go:46-54 | An input: a zone renamed and suspended keeps its old host published, though the caller names it |
| `Sync.RenameEventLeavesTheOldHost` | control-plane/go/sync/sync.go:123-142 | With the hostname taken from an event that names the new host, a rename leaves the old rule-set published |
| `Sync.ZoneEventNamesItsRecord` | control-plane/go/sync/sync.go:94-121 | A zone's event names its record, one without a record id and one of another entity name no zone |
| `Telemetry.Telemetry.Record` | edge-plane/go/telemetry/telemetry.go:52-58 | The event is queued at the back, or counted as dropped when the queue is full |
| `Telemetry.Telemetry.RunShipper` | edge-plane/go/telemetry/telemetry.go:71-103 | The select loop, for every schedule of reports, receives, ticks and shutdown and every fate of a POST: queue, pending batch and both counters follow the pipeline, and nothing is pending after a tick or a shutdown |
| `Telemetry.NothingLeftPending` | edge-plane/go/telemetry/telemetry.go:80-101 | After a tick or a shutdown nothing is pending, whatever came before |
| `Telemetry.EverythingReceivedIsShipped` | edge-plane/go/telemetry/telemetry.go:71-103 | So every accepted event has then been shipped or is still queued |
| `Telemetry.OnlyFullBatchesBetweenTicks` | edge-plane/go/telemetry/telemetry.go:87-95 | Between ticks only full batches are shipped |
| `Telemetry.NothingLostWithRoom` | edge-plane/go/telemetry/telemetry.go:52-58 | Nothing is dropped while the queue has room for all that is reported |
| `Telemetry.RunAccounted` | edge-plane/go/telemetry/telemetry.go:52-103 | At every moment shipped batches, pending batch and queue, end to end, are the accepted events in order and once each; batches are never empty nor larger than max(1, maxBatch) |
| `Telemetry.Conservation` | edge-plane/go/telemetry/telemetry.go:52-134 | recorded = dropped + queued + pending + acknowledged + failed |
| `Telemetry.RepliesDecide` | edge-plane/go/telemetry/telemetry.go:106-134 | No batch counts as sent exactly when none was acknowledged, and none as failed exactly when all were, whether or not they reached the other side |
| `Telemetry.RunRecordsWhatIsReported` | edge-plane/go/telemetry/telemetry.go:71-103 | The recorded events are those the requests reported while the shipper lived |
| `Ingest.Buffer.Handle` | control-plane/go/ingest/ingest.go:69-112 | Unauthorized exactly when a token is configured and another or none is presented, else bad without a body, else too large above the limit, and then nothing changes; an admitted request has accepted + dropped equal to its size, whatever other handlers and the writer do between its sends |
| `Ingest.KeptEnterInOrder` | control-plane/go/ingest/ingest.go:94-105 | What is kept of a request is a selection of it and enters the buffer in the request's order, whatever comes in between |
| `Ingest.Buffer.GatherBatch` | control-plane/go/ingest/ingest.go:140-164 | The batch is what the writer took from the front of the buffer, with handlers sending in between |
| `Ingest.Buffer.RunWriter` | control-plane/go/ingest/ingest.go:138-184 | Every event taken is attempted once, in order; a failed write is not retried |
| `Ingest.BatchesAreBounded` | control-plane/go/ingest/ingest.go:151-164 | A round takes at most max(1, maxBatch) events, and none exactly when the buffer is empty |
| `Ingest.RoundTakesAll` | control-plane/go/ingest/ingest.go:140-164 | When nobody sends meanwhile a round takes all there is, up to max(1, maxBatch) |
| `Ingest.AllAreWritten` | control-plane/go/ingest/ingest.go:166-181 | When every write succeeds everything attempted is written |
| `Ingest.AdmittedInOrderExactly` | control-plane/go/ingest/ingest.go:94-112 | For every interleaving, send by send, of the handlers of all edges and the writer, with no event sent twice: what an edge got in is a selection, in order, of what it sent, for every capacity, if and only if no event of a later request of it is offered before one of an earlier request |
| `Ingest.TimedOutPostIsOvertaken` | edge-plane/go/telemetry/telemetry.go:72 | An input: the handler of a POST that timed out at the edge is overtaken by the next one's |
| `Ingest.NothingIsDuplicated` | control-plane/go/ingest/ingest.go:94-112 | Whatever the order, no event of an edge gets in more often than it was sent |
| `Ingest.ServeScript` | control-plane/go/ingest/ingest.go:94-110 | Such a script on one buffer: its state, and for each handler accepted + dropped equal to what it has offered |
| `Ingest.EvidenceIsNotDuplicated` | control-plane/go/ingest/ingest.go:138-184 | From one edge's queue to the data-plane, for every interleaving: nothing is written more often than it entered the queue |
| `Ingest.EvidenceStaysInOrder` | control-plane/go/ingest/ingest.go:138-184 | And in the queue's order, if the edge's offers are in turn |
| `Correlate.GroupEvents` | data-plane/go/alertingservice/routes.go:190-201 | The groups are exactly the (zone, address) pairs of the recent events, with their counts |
| `Correlate.AlertStore.AlreadyOpen` | data-plane/go/alertingservice/routes.go:209-221 | Whether the page the store returned of the zone's open incidents names the address |
| `Correlate.AlertStore.CorrelateGroups` | data-plane/go/alertingservice/routes.go:203-243 | For every order of the groups: the incidents afterwards, created + skipped equal to the groups at the threshold, and what is left after an error |
| `Correlate.SeverityBands` | data-plane/go/alertingservice/routes.go:114-125 | The four severities are the bands below 10, 50 and 200 events and above |
| `Correlate.NewIncidentReads` | data-plane/go/alertingservice/routes.go:227-232 | An incident is open, in the group's zone, with its count and severity, and its title begins with count and address and ends with the window |
| `Correlate.EveryGroupIsCovered` | data-plane/go/alertingservice/routes.go:203-243 | In whatever order, each group at the threshold ends with an open incident in its zone whose title contains the address |
| `Correlate.RerunOpensNothing` | data-plane/go/alertingservice/routes.go:149-156 | A later run over the same events, in another order, opens nothing while those incidents are open, whatever pages the store returns, if and only if no due address is behind 50 other open incidents of its zone |
| `Correlate.FiftyOthersHide` | data-plane/go/alertingservice/routes.go:209-210 | An input: fifty incidents in front of the group's own make the rerun open another |
| `Correlate.OneIncidentPerGroupExactly` | data-plane/go/alertingservice/routes.go:152-156 | Each group at the threshold gets an incident of its own, in every order and for every page the store returns, if and only if no such address is part of an open title of its zone or of another group's title |
| `Correlate.AddressInsideAnother` | data-plane/go/alertingservice/routes.go:215-221 | An input: the groups of 10.0.0.12 and 10.0.0.1 |
| `Clearance.Verify` | edge-plane/go/clearance/clearance.go:53-72 | Accepts exactly when the first cookie of the name is an unexpired value with the right signature |
| `Clearance.CookieValue` | edge-plane/go/clearance/clearance.go:75-84 | The first pair of the name, after trimming, among the pairs of the header |
| `Clearance.IssuedPair` | edge-plane/go/clearance/clearance.go:44-49 | The text up to the first attribute is the pair that was issued |
| `Clearance.IssuedAttributes` | edge-plane/go/clearance/clearance.go:44-49 | The Set-Cookie value has exactly five parts: the pair, the path, the lifetime in seconds, which parses back, and two flags |
| `Clearance.ClearanceRoundTrip` | edge-plane/go/clearance/clearance.go:44-84 | A pair issued at n for ttl seconds, anywhere in a Cookie header (section 4.2.1 of RFC 6265) with no earlier pair of its name, is accepted at t if and only if t < n + ttl |
| `Clearance.SignedTextInjective` | edge-plane/go/clearance/clearance.go:28-38 | For one secret the signed text determines zone, client and expiry |
| `Clearance.SignedTextReads` | edge-plane/go/clearance/clearance.go:28-38 | The hashed text is secret, zone, client and expiry, in that order |
| `Clearance.CookieIsBound` | edge-plane/go/clearance/clearance.go:4-6 | A signature presented with another zone, client or expiry is refused unless the hash collides on the two signed texts |

## Left out

- HTTP serving, proxying, challenge and block pages, configuration and process mains: plumbing.
- The GraphQL gateway, CRUD handlers, entity definitions and workflows: thin wrappers over the library metap-go, which is not part of this model.
- RabbitMQ consumption and acknowledgement: an event may or may not lead to a call of `Sync.Zone`.
- The portal's pages, the retention sweep, alert evaluation, webhooks and DNS checks.
- The regular-expression engine and its cache, address parsing and containment, SHA-256, and the bytes of JSON (escaping, duplicate members, Go's case-insensitive matching of struct members): uninterpreted, or replaced by trees with exact member names.
- Object identity in places: a shard maps keys to counter values rather than to pointers, and `UnmarshalJSON` returns its result rather than assigning through a pointer, so aliasing is not modelled there.
- The library sorts: modelled by their stable result, not by an algorithm.
- Mutexes and atomics: a `Check`, a shard's share of a sweep, a channel send or receive and a Redis transaction are one step each, and interleavings are orders of steps. `History` is the coarser setting in which an `Evaluate` and a sweep are one step; `Concurrent` is the finer one.
- `RateTraces` and `History` have the checks in clock order; `Concurrent` does not, since `Check` reads its clock before it takes the lock.
- The types that the control-plane and the edge both declare are declared once, in `Ruleset`.
- The epoch at the edge: modelled as stored, but nothing reads it to decide anything, and a failed read stores 0.
- Logging, metrics and the refresh at startup.
- Verdict.AuthoredDecision: thresholds and windows below 2^32, because the code truncates others; `Verdict.CompiledDecision` has no such condition.
- History.HistoryDecides: windows of at most 300 seconds, or no sweeps, and key scopes that do not begin each other; outside these the code prunes and merges, as `RateTraces.PruningInvisibleExactly` and `Keys.RuleKeysMeetExactly` show. `Concurrent.InterleavingsFollowHistory` has no condition on windows or clocks.
- Builder.EditingKeepsMeaning: conditions outside `Plain`, on which `Builder.SavedConditionExactly` shows that the compiled condition changes; whether the truth value on some request changes with it depends on the condition.
- Resync.SweepConverges: no other writer and unique hostnames; `Resync.SweepConvergesWhereLeftAlone` has other writers.
- Sync.AnyScheduleAgreesWithTheSweep: unique identifiers and hostnames, and a data-plane that does not change between the calls; agreement is up to the compilation time and the tenant, which the two paths fill differently.
- Telemetry.Telemetry.constructor: a queue of capacity 0, which in Go is a rendezvous, is excluded; likewise for `Ingest.Buffer`.
- Ingest.AdmittedInOrderExactly: assumes that an edge sends no two equal events; the direction from the order of the offers to the order of the events, `Ingest.AdmittedInOrder`, does not.

# Verification of the MySQL monitor's in-memory cores

This project models the deterministic parts of the monitor: the lock-wait graph, the plan
fingerprint and flip log, delta sampling into bounded series, the aggregates computed over those
series, metadata-lock queues, and the duration printer and parser. SQL, AWS and the terminal appear
only as parameters: what a query answered, what the clock said, which order a map iteration took.

Loops and fields updated in place stay methods and classes, each proved against a function on
values; the properties are then lemmas about those functions.

## Layout

| files | part |
|---|---|
| `Slices`, `LockGraph`, `LockChains`, `LockCycles`, `LockDetector`, `LockRows` | chains and deadlocks in the lock-wait graph, and what is reported in terms of the rows |
| `PlanJson`, `PlanReadability`, `PlanFingerprint`, `PlanFields`, `PlanPrinter` | the canonical plan text, what it determines, and which fields it shows |
| `PlanFlags`, `PlanPlaces`, `PlanConditions`, `PlanFlagProofs`, `PlanScans`, `PlanEngine` | red flags, what they mean, their relation to the fingerprint, the flip log |
| `Ring`, `RegistryModel`, `Registry`, `DigestModel`, `DigestReadings`, `DigestCollector` | digest deltas in rings under a capped registry |
| `Polls`, `WaitModel`, `WaitReadings`, `WaitCollector`, `CpuSampler` | wait deltas per class, CPU ticks and their flusher |
| `LoadByGroup`, `Trail`, `TrailPolls`, `Mdl`, `Durations` | aggregates, the sparkline, metadata-lock queues, durations |
| `Sorting`, `Sums`, `Strings`, `Decimals`, `Signed`, `Unsigned` | shared helpers |

`dafny verify dfyconfig.toml` checks everything.

## Where the code and its own description differ

The model follows the code in each case, says exactly when the two agree, and gives an input on
which they do not.

- `internal/series/registry.go:42-43` calls LoadPicos the sum over retained samples; it is the sum
  since admission. `LoadIsLifetimeSum` says when the two agree; `LoadOutlivesRing` has a log of one
  sample more than the ring holds.
- `internal/collector/digest.go:156-166` promises to notice any counter that went backward but
  compares five of eight. `SampleSpansItsDelta` and `UncheckedDeltas` say when that is enough;
  `ResetMissed` is a pair of readings it misses.
- `internal/series/sink.go:48` promises the window `[now-window, now]`; nothing cuts at `now`.
  `WindowEndsNowIff` says when the answer is the promised one; `FutureSampleAnswered` is one that
  is not.
- `internal/explain/canonical.go:48-49` claims that plans hash alike iff their skeletons agree.
  Quotes are not escaped and objects are printed with `%v`. `FaithfulIff` says for every set of
  characters whether the claim holds; `Unfaithful` gives two clashing plans wherever it does not.
- Flags carry a path whose head is `query_block` or `(root)`, which the fingerprint does not show;
  `FingerprintFixesSpills` says when equal fingerprints give equal spill flags, and
  `WrappingChangesFlags` has one plan with a filesort in both forms. Scan flags rest on row counts,
  which it leaves out: `FingerprintFixesFlagsIff` says when all flags agree, and
  `FingerprintLeavesScansOpen` has two plans whose flags do not.
- `internal/insights/insights.go:116` speaks of a rounded-up quotient plus slack; the code rounds
  down and adds one, which is enough and, the minimum of eight slots aside, no more than enough
  (`NothingInWindowIsLost`, `SmallerRingLoses`).
- `internal/insights/mdl.go:37-40` promises one queue per schema and table; the map key joins the
  two with a dot. `ByTableIffKeysApart` and `KeyInjectiveIff` say when that is sound; `KeysClash`
  has two tables with one queue.
- A wait sample's interval covers one poll even when its event was absent for several, because the
  wait collector never drops a baseline. `IntervalSpansDeltaIff` says when the interval spans the
  delta; `IntervalMissesAbsence` is a run on which it does not.
- `internal/tui/perf.go:117-121` promises one sparkline cell per poll. CPU samples carry the time
  of a flush with its own ticker (`internal/insights/insights.go:363-383`), so a poll can take two
  cells. `TrailIsPerPoll` says when the promise holds; `OnePollTwoCells` is a poll on which it does
  not.
- A printed duration reads back rounded down, except that the float64 sum behind it can carry into
  the next minute, from 16,777,216 seconds (2^24) on. `RoundTrip` and `RoundTripIsMonotone` say
  when it does; `RoundsUpSomewhere` is a duration that reads back longer than it is.

## Model

| member | source | states |
|---|---|---|
| `LockGraphs.BuildLockGraph` | internal/detector/lock_chain.go:33-45 | The loop builds the graph that `GraphOf` defines by recursion over the rows. |
| `LockGraphs.GraphKeepsEveryRow` | internal/detector/lock_chain.go:39-42 | The number of parallel edges from one pid to another is the number of wait rows naming the two. |
| `LockGraphs.BuiltIsWellFormed` | internal/detector/lock_chain.go:33-45 | Every built graph has non-empty edge lists, files each waiter's row under its own pid, and has a row for exactly the pids that some edge ends at. |
| `LockChains.StaleMarkIsHarmless` | internal/detector/lock_chain.go:74-84 | A marked waiter is on the path or a leaf whose mark went stale; either way the marked branch records the chain that an unmarked search would. |
| `LockChains.DfsChains` | internal/detector/lock_chain.go:70-95 | With a shared mark map and siblings appending to one path buffer, the search returns, in order, exactly the mark-free enumeration, and hands the caller's path back unchanged. |
| `LockChains.FindChains` | internal/detector/lock_chain.go:48-68 | For every map order: each chain is reported exactly as often as the reference count says (root start, no repeat before its last step, end at a leaf or first repeat, once per choice of parallel edges), and the chains of one root stand together in edge order. `ChainsByRows` says the same of the rows. |
| `LockChains.CountChains` | internal/detector/lock_chain.go:70-95 | The enumeration below a path contains every extension of that path as often as there are ways to walk it, and nothing else. |
| `LockChains.RootsEnumerate` | internal/detector/lock_chain.go:55-65 | Running the enumeration from the roots in any order yields the reference enumeration. |
| `LockCycles.IndexOf` | internal/detector/lock_chain.go:116-123 | For a pid in the stack the scan finds its place; -1 never survives. |
| `LockCycles.SegmentIsCycle` | internal/detector/lock_chain.go:124-128 | The path segment cut out when an edge leads back into the stack is a simple directed cycle. |
| `LockCycles.DfsCycles` | internal/detector/lock_chain.go:111-135 | One call finishes its node, keeps the three-colour invariant, reports only simple cycles, restores the path, and closes no edge of an older pid. |
| `LockCycles.FindCycles` | internal/detector/lock_chain.go:98-109 | For every map order: all reports are simple cycles, every directed cycle of the graph contains the closing edge of some report, and each edge closes one report for each of its parallel copies, or none. |
| `LockCycles.CycleIsCaught` | internal/detector/lock_chain.go:111-135 | Once every blocker is finished, any directed cycle has an edge from its first-finished pid that closes a reported cycle. |
| `LockCycles.ReportedIffCyclic` | internal/detector/lock_chain.go:98-135 | The output is empty if and only if the graph has no directed cycle. |
| `LockCycles.NoMoreCyclesThanRows` | internal/detector/lock_chain.go:98-135 | The closing edges of the reports form a sub-multiset of the wait rows, so n rows never yield more than n cycles. |
| `LockDetector.ChainSeverity` | internal/detector/lock_chain.go:152-164 | A chain is critical iff it has four or more pids or some pid after the first has a row over the threshold. |
| `LockDetector.EdgeOnChain` | internal/detector/lock_chain.go:70-95 | An edge leaving the end of a simple walk from a root is an adjacent pair of some reported chain. |
| `LockDetector.RootOrCycleBehind` | internal/detector/lock_chain.go:48-135 | Following blockers backward from any edge meets a root, and the edge is on a reported chain, or meets a directed cycle. |
| `LockDetector.EveryRowIsAccountedFor` | internal/detector/lock_chain.go:33-135 | Every wait row is an adjacent pair of a reported chain, or its blocker is reachable from a directed cycle. |
| `LockDetector.SomethingToReport` | internal/detector/lock_chain.go:137-226 | A non-empty list of rows yields at least one chain or cycle. |
| `LockDetector.Detect` | internal/detector/lock_chain.go:137-226 | One issue per chain with its severity and then one per cycle, and no issues iff there are no rows: the length guard never drops a chain. |
| `LockRows.ChainsByRows` | internal/detector/lock_chain.go:33-95 | In terms of the rows: a sequence of pids is reported as a chain iff each step is a row, no row has its first pid waiting, no pid repeats before the last step, and the last one repeats or blocks nobody. |
| `LockRows.EveryHolderIsReported` | internal/detector/lock_chain.go:48-68 | A pid that blocks others and that no row names as a waiter starts a reported chain along each of its rows. |
| `LockRows.ReportedPerPick` | internal/detector/lock_chain.go:70-95 | A chain is reported once for every way to pick one row for each of its steps. |
| `LockRows.CyclesByRows` | internal/detector/lock_chain.go:111-135 | Each step of a reported cycle is a row, the one from its last to its first pid included, and no pid repeats. |
| `LockRows.EveryDeadlockIsReported` | internal/detector/lock_chain.go:98-135 | Some step of every closed walk over the rows leads from the last to the first pid of a reported cycle. |
| `LockRows.ReportedPerRow` | internal/detector/lock_chain.go:111-135 | For any two pids the reports that end at the one and start at the other are as many as the rows naming the two, or none. |
| `LockRows.CriticalByRows` | internal/detector/lock_chain.go:146-164 | A chain is critical iff it has four pids or more, or the last row of some pid after the first is over the threshold. |
| `LockRows.IssuesByRows` | internal/detector/lock_chain.go:137-226 | The issues are the chains, each with that severity, and then the cycles. |
| `PlanPrinter.SortedKeys` | internal/explain/canonical.go:72-78 | Whatever order the map is iterated in, the keys after sorting are the node's canonical keys in alphabetical order. |
| `Strings.LessTells` | internal/explain/canonical.go:72-78 | That order: a name is before its continuations, and before one with a greater character at the first difference. |
| `PlanPrinter.Canonicalise` | internal/explain/canonical.go:71-117 | Writing step by step into the builder appends the node's canonical text; `TextShowsFields` says by name what that text shows. |
| `PlanPrinter.WriteAny` | internal/explain/canonical.go:119-145 | Writing a value appends its text: quoted strings, bracketed lists, `%v` for the rest. |
| `PlanReadability.ReadAny` | internal/explain/canonical.go:119-145 | On the readable domain (see `FaithfulIff`), equal texts with any remainders that may follow a value mean equal values and equal remainders. |
| `PlanReadability.ReadLeaves` | internal/explain/canonical.go:79-87 | The printed fields of a node determine which keys are present and all their values. |
| `PlanReadability.ReadChildren` | internal/explain/canonical.go:88-115 | The printed children determine which nested keys are present and each child's skeleton. |
| `PlanReadability.ReadPlan` | internal/explain/canonical.go:71-117 | The printer is uniquely readable there: equal texts with any such remainders mean the same skeleton and equal remainders. |
| `PlanFingerprint.SameText` | internal/explain/canonical.go:47-117 | Equal skeletons print equal texts on every plan, whatever the cost, row and other fields hold and whatever the map order. |
| `PlanFingerprint.CanonicalIff` | internal/explain/canonical.go:47-145 | On the readable domain, which includes all quote-free strings with object-free leaves, two plans print the same text iff all canonical fields and the tree shape agree. |
| `PlanFingerprint.FaithfulIff` | internal/explain/canonical.go:47-49 | Over any set of characters, the documented iff holds for all plans exactly when leaf values are never objects and no string can hold a quote together with a comma or with the opening of a nested child. |
| `PlanFingerprint.Unfaithful` | internal/explain/canonical.go:119-145 | Otherwise there are two plans in the domain with different skeletons and one text: a quoted comma, a quoted child or a nested object. |
| `PlanFingerprint.HashTellsPlansApart` | internal/explain/canonical.go:50-65 | Through a collision-free hash, on that domain, fingerprints are equal iff skeletons are. |
| `PlanFields.TextShowsFields` | internal/explain/canonical.go:12-117 | On the readable domain two texts are equal iff the plans agree on presence and value of each of the fifteen fields, listed by name, and on their children under the seven names, listed too. |
| `PlanFields.OtherFieldsAreHidden` | internal/explain/canonical.go:12-117 | Giving any other field any value, or removing it, leaves the text unchanged, on every plan. |
| `PlanFields.TextOfPair` | internal/explain/canonical.go:71-87 | Fields are printed by name in alphabetical order, with an equals sign, separated by commas. |
| `PlanFields.ListText` | internal/explain/canonical.go:98-112 | Items of a list of children are printed in order, objects as plans and the rest as values. |
| `PlanFields.ObjectText` | internal/explain/canonical.go:119-145 | A value that is an object prints as `%v` does, sorted by key. |
| `PlanFlags.WalkNode` | internal/explain/plan.go:63-104 | Walking appends, in order, the flags of table, node, sub-blocks and lists, each at its path. |
| `PlanPlaces.WalkRaises` | internal/explain/plan.go:63-153 | A flag is in the list iff some place reached from the root through the four sub-blocks and the two lists has that path and meets the flag's condition. |
| `PlanPlaces.PathIsInjective` | internal/explain/plan.go:83-103 | Different places have different paths. |
| `PlanPlaces.WalkRaisesOnce` | internal/explain/plan.go:63-153 | Each such flag occurs exactly once, and no other occurs. |
| `PlanFlags.AnalyzePlan` | internal/explain/plan.go:40-58 | The flags are those of the query block when there is one, of the whole plan otherwise, under the respective label; `FlagsAtNode` and the rows after it say which those are. |
| `PlanConditions.StepsAre` | internal/explain/plan.go:87-104 | The places are the start, the objects in the four sub-blocks and those in the two lists, each step by name and index. |
| `PlanConditions.PathsAre` | internal/explain/plan.go:87-104 | A sub-block adds its name to the path after a dot, a list its name and the index in brackets. |
| `PlanConditions.FlagHasPlace` | internal/explain/plan.go:63-153 | Every flag has the path of some place, or that path with `.table`. |
| `PlanConditions.FlagsAtNode` | internal/explain/plan.go:79-85 | At the path of a place there is a filesort or temporary-table flag iff the node there has the field and it equals true, and no scan flag. |
| `PlanConditions.SpillsAtTable` | internal/explain/plan.go:147-152 | The same for the table of that node, at its own path. |
| `PlanConditions.ScansAtTable` | internal/explain/plan.go:132-146 | A table is flagged for a full scan iff its access type is `ALL` and it examines a thousand rows or more, and for a big scan iff it produces rows and examines a hundred times as many. |
| `PlanConditions.NoTableNoFlag` | internal/explain/plan.go:66-69 | Where the node has no table, or one that is no object, nothing is flagged at that path. |
| `PlanConditions.NoSpills` | internal/explain/plan.go:79-85 | A plan with both fields absent or not true at every node and table has no filesort and no temporary-table flag. |
| `PlanConditions.FlagsInOrder` | internal/explain/plan.go:63-104 | The list has the flags of the table, the node, the four sub-blocks and the two lists, in that order. |
| `PlanConditions.TableFlagsInOrder` | internal/explain/plan.go:132-152 | At a table: full scan, big scan, filesort, temporary table, each at most once. |
| `PlanFlagProofs.SameSpills` | internal/explain/plan.go:63-104 | Two plans with the same skeleton raise the same filesort and temporary-table flags, same paths, same order. |
| `PlanFlagProofs.RelabelWalk` | internal/explain/plan.go:63-104 | The label of a walk is only a prefix of every path it reports. |
| `PlanFlagProofs.FingerprintFixesSpills` | internal/explain/plan.go:40-58 | For plans with equal canonical texts the two spill lists have one length, and are equal iff they are empty or both plans are wrapped alike. |
| `PlanFlagProofs.FingerprintLeavesScansOpen` | internal/explain/plan.go:132-145 | There are plans with one skeleton and different scan flags, whatever row counts the reading tells apart at the threshold. |
| `PlanScans.SamePlaces` | internal/explain/plan.go:63-104 | Plans with one skeleton have the same places, with one skeleton at each. |
| `PlanScans.SameFlagsIff` | internal/explain/plan.go:63-153 | For plans with one skeleton the full flag lists are equal iff both threshold tests agree at every table and its counterpart. |
| `PlanScans.FingerprintFixesFlagsIff` | internal/explain/plan.go:40-58 | For plans with equal canonical texts the full flag lists are equal iff both threshold tests agree at every table and the plans are wrapped alike or raise nothing. |
| `PlanScans.WrappingChangesFlags` | internal/explain/plan.go:50-56 | One plan with a filesort, wrapped and not: the same root, and flags at different paths. |
| `PlanEngine.Engine.HashPlan` | internal/explain/canonical.go:50-65 | The imperative printer followed by the hash yields the fingerprint, of the object under `query_block` or else of the whole plan. |
| `PlanEngine.Engine.Run` | internal/explain/explain.go:77-158 | Outcome by case; failed and skipped runs change nothing; a successful run records the observation, appends the flip if there is one and keeps cache and log consistent. |
| `PlanEngine.StaysConsistent` | internal/explain/explain.go:131-156 | For every digest the log stays exactly the unequal adjacent pairs of its observations, and the cache its last one. |
| `PlanEngine.ChangesLink` | internal/explain/explain.go:141-150 | A digest's flips form a path from its first observed hash to its last: each starts where the one before ended. |
| `PlanEngine.ChangesAre` | internal/explain/explain.go:141-150 | A digest's events are one for each observation whose hash differs from the one before, with both hashes and its time. |
| `PlanEngine.FlipsAreSkeletonChanges` | internal/explain/explain.go:77-158 | On readable plans a flip is logged exactly where the skeleton of a digest's plan changed. |
| `Rings.RingBuffer.Append` | internal/series/ring.go:37-44 | Overwriting in place keeps the buffer equal to the newest items of everything appended. |
| `Rings.RingBuffer.All` | internal/series/ring.go:48-64 | The iterator yields the newest items oldest first. |
| `Rings.RingBuffer.NewestItem` | internal/series/ring.go:68-78 | Returns the last item appended; false iff nothing was. |
| `Rings.RingSink.Range` | internal/series/sink.go:52-75 | Yields the retained samples not older than the window, in order; a window of zero means all. |
| `Rings.WindowHolds` | internal/series/sink.go:52-75 | A sample is in the answer iff it is retained and the window is zero or it is not older than the window. |
| `Rings.WindowEndsNowIff` | internal/series/sink.go:47-62 | The answer is the documented `[now-window, now]` iff no retained sample is later than now. |
| `Rings.FutureSampleAnswered` | internal/series/sink.go:47-62 | A sample from just after now is answered, for every now and window. |
| `Rings.Sizing` | internal/insights/insights.go:100-120 | With the defaults for missing settings, the capacity is at least eight, its slots cover more than the window, and above eight one slot fewer would not. |
| `Rings.NothingInWindowIsLost` | internal/insights/insights.go:116-120 | With samples at least an interval apart and none from the future, a ring of that capacity answers every window query as an unbounded log would. |
| `Rings.SmallerRingLoses` | internal/insights/insights.go:116-120 | With at most as many slots as the window has whole intervals, some log of well-spaced samples loses one that is still in the window. |
| `RegistryModel.TouchConserves` | internal/series/registry.go:80-103 | Touching keeps the cap, admissions = live + evicted, and picoseconds given = held + lost with evicted entries. |
| `RegistryModel.AppendConserves` | internal/series/registry.go:106-112 | So does appending. |
| `RegistryModel.TouchOfLive` | internal/series/registry.go:80-89 | Touching a live digest fills in its text if that was empty and changes nothing else. |
| `RegistryModel.TouchOfNew` | internal/series/registry.go:80-187 | Touching a new one admits it; at the cap exactly one goes, of least load modulo 2^64 among those first seen at or before now less the protection, or an oldest one if there are none. |
| `RegistryModel.AppendGrows` | internal/series/registry.go:106-112 | An appended sample joins the log of its digest, whose time grows by the sample's. |
| `RegistryModel.LoadIsLifetimeSum` | internal/series/registry.go:42-44 | A load is, modulo 2^64, the retained sum plus what the ring overwrote; it equals the retained sum modulo 2^64 iff the overwritten sum is a multiple of 2^64, which below 2^64 means that every overwritten sample was idle. |
| `RegistryModel.LoadOutlivesRing` | internal/series/registry.go:42-44 | For every capacity, a log of one sample more whose load and retained sum differ. |
| `Registries.Registry.constructor` | internal/series/registry.go:59-74 | Defaults for non-positive limits, an empty book. |
| `Registries.Registry.FindVictim` | internal/series/registry.go:155-182 | For every map order the victim has least load among the entries old enough; only if there is none, it is an oldest entry. |
| `Registries.Registry.EvictOne` | internal/series/registry.go:155-187 | Removes exactly that victim and counts it. |
| `Registries.Registry.Touch` | internal/series/registry.go:80-103 | Returns the live entry, filling in a missing text, or admits a new one after evicting a victim at the cap; all other entries keep their accounts and memory apart. |
| `Registries.Registry.Append` | internal/series/registry.go:106-112 | Touches and then adds the sample to that entry's ring and load, changing no other entry. |
| `Registries.Registry.AnswersInFull` | internal/insights/insights.go:116-126 | In a registry given that capacity, whose samples are an interval apart, a live digest's window query is answered as its unbounded log would answer it. |
| `DigestModel.PollKeepsCurrent` | internal/collector/digest.go:63-154 | After a successful poll the baselines are exactly the rows just seen, all dated at that poll. |
| `DigestModel.SampleSpansItsDelta` | internal/collector/digest.go:86-126 | A sample's interval is the time between the two readings it subtracts; its five checked deltas are true differences; all eight are iff the other three counters kept up, and a counter went backward unnoticed iff one of those did not. |
| `DigestModel.UncheckedDeltas` | internal/collector/digest.go:110-121 | Each of the other three deltas is a true difference iff its counter did not go backward; where no reset is noticed, a counter went backward iff one of these three did. |
| `DigestReadings.SeededIff` | internal/collector/digest.go:86-92 | A row is seeded iff it is the first poll or its digest has no baseline. |
| `DigestReadings.ReadingsDecide` | internal/collector/digest.go:86-166 | Otherwise it is a reset iff one of the five named counters is lower than in the baseline, emitted iff none is and executions or time are higher, and idle iff both are equal. |
| `DigestReadings.SampleIsDifference` | internal/collector/digest.go:107-126 | An emitted sample is dated now, spans the time since the last poll and carries the eight differences, those of the three unchecked counters 2^64 too large where the counter is lower. |
| `DigestReadings.BaselinesAreRows` | internal/collector/digest.go:138-153 | After a poll a digest has a baseline iff it has a row, with that row's counters and that poll's time. |
| `DigestReadings.RegistrySees` | internal/collector/digest.go:86-136 | A reset or idle row does not reach the registry; a seeded digest is live afterwards, and an emitted sample ends its log. |
| `DigestReadings.ResultCounts` | internal/collector/digest.go:86-136 | The three counters of the result are the numbers of rows emitted, seeded and reset. |
| `DigestModel.ResetMissed` | internal/collector/digest.go:156-166 | Two readings with a backward counter that the reset condition does not notice. |
| `DigestModel.Telescopes` | internal/collector/digest.go:63-154 | Over any run in which a digest is present and not reset, failed polls included, its emitted executions and picoseconds are the last reading minus the first. |
| `DigestModel.PollsKeepDistance` | internal/collector/digest.go:63-154 | Over any run of polls at least an interval apart, with evictions and resets, the samples of every live digest are at least an interval apart and none is later than the last poll. |
| `DigestModel.DeliveryAppends` | internal/collector/digest.go:86-136 | Exactly the emitted picoseconds reach the registry's accounts. |
| `DigestCollectors.DigestCollector.PollRow` | internal/collector/digest.go:86-136 | One row is seeded, skipped as reset, idle or emitted, and the registry sees exactly that. |
| `DigestCollectors.DigestCollector.DropUnseen` | internal/collector/digest.go:138-150 | For every map order, exactly the baselines of rows no longer reported are dropped. |
| `DigestCollectors.DigestCollector.Poll` | internal/collector/digest.go:63-154 | The whole new state and result of a poll, each row treated as `ReadingsDecide` says; a failed poll changes nothing. |
| `DigestCollectors.DigestCollector.NothingIsLost` | internal/collector/digest.go:86-136 | In every reachable state the picoseconds emitted are those of live entries plus those lost with evicted ones, the cap holds, and admissions are live plus evicted. |
| `WaitModel.OneSamplePerClass` | internal/collector/waits.go:83-161 | A poll's samples of a class are one sample spanning the poll, with the wrapped sums of its rows' count and time deltas, or none if both sums are zero, on the first poll and for CPU. |
| `WaitReadings.ClassByPrefix` | internal/collector/classify.go:16-33 | Which prefixes make an event network, I/O, lock or synchronisation; no event is CPU. |
| `WaitReadings.ReadingsDecide` | internal/collector/waits.go:110-136 | A row is seeded on the first poll or without a baseline, a reset iff its count or its time is lower, and otherwise counts with both differences. |
| `WaitReadings.BaselinesAreRows` | internal/collector/waits.go:110-136 | After a poll every row is the baseline of its event, and events without a row keep theirs. |
| `WaitReadings.ClassTotalGrows` | internal/collector/waits.go:127-135 | A class's totals add the time and the count of the rows of that class, and of no other. |
| `WaitReadings.ResultCounts` | internal/collector/waits.go:110-125 | Two counters of the result are the numbers of rows seeded and reset. |
| `WaitModel.ClassesPartition` | internal/collector/classify.go:16-33 | The five timed classes partition the rows: their totals sum to the total over all rows. |
| `WaitModel.PollConserves` | internal/collector/waits.go:83-161 | A poll's samples together carry the count and time deltas of all rows whose counters did not decrease: exactly while the sums fit into 64 bits, modulo 2^64 otherwise. |
| `WaitModel.Telescopes` | internal/collector/waits.go:83-161 | An event's deltas sum to its last reading minus its first over any run without resets, across failed polls and polls in which it is absent. |
| `WaitModel.PollsKeepDistance` | internal/collector/waits.go:83-161 | Over any run of polls at least an interval apart, the samples of each class are at least an interval apart. |
| `WaitModel.WindowIsFull` | internal/insights/insights.go:116-127 | So a sink of the capacity chosen for that interval answers every window query about a timed class as an unbounded log would. |
| `WaitModel.BaselineIsReading` | internal/collector/waits.go:110-136 | After any run an event has a baseline iff some answer shows it, and the baseline is its row in the last such answer. |
| `WaitModel.IntervalSpansDeltaIff` | internal/collector/waits.go:93-98 | After any run with increasing answer times, the next sample's interval is at most the time since an event's reading, and equals it iff the last answer showed the event. |
| `WaitModel.IntervalMissesAbsence` | internal/collector/waits.go:97-98 | A run after which a sample carries the delta of two polls and the interval of one. |
| `WaitCollectors.WaitSeries.Append` | internal/collector/waits.go:37-41 | Each class's sink receives exactly the samples of its class, in order. |
| `WaitCollectors.WaitCollector.TallyRows` | internal/collector/waits.go:100-136 | The loop over rows records all baselines, counts seeds and resets, and accumulates per class the deltas of its rows. |
| `WaitCollectors.WaitCollector.Poll` | internal/collector/waits.go:83-161 | The whole new state and result of a poll; the first seeds only, a failed one changes nothing. |
| `CpuSamplers.CPUSampler.Sample` | internal/collector/cpu.go:46-79 | A tick counts the executing sessions without a real wait, logs every executing session, and commits both counters in one step; a failed query changes nothing. |
| `CpuSamplers.CPUSampler.TakePending` | internal/collector/cpu.go:85-91 | The locked part of a flush takes all that is pending and starts the next interval. |
| `CpuSamplers.CPUSampler.Land` | internal/collector/cpu.go:93-102 | The rest appends that sample, if there were ticks. |
| `CpuSamplers.NothingIsLost` | internal/collector/cpu.go:46-103 | Under every interleaving of ticks with one flusher, emitted plus in-flight plus pending observations and ticks are what was sampled, and the closed and quiet intervals cover the time exactly. |
| `CpuSamplers.IntervalsAreDisjoint` | internal/collector/cpu.go:85-103 | If flush times never run backward, the emitted intervals are ordered and do not overlap. |
| `CpuSamplers.FlushIsTidyIff` | internal/collector/cpu.go:85-103 | Any flush keeps them so iff it is not before the start of its interval or, if it finds no tick, not before the end of the last closed one. |
| `CpuSamplers.FlushesKeepDistance` | internal/collector/cpu.go:85-103 | Over any run with flushes at least an interval apart, the closed samples are at least an interval apart. |
| `CpuSamplers.WindowIsFull` | internal/insights/insights.go:116-127 | So the CPU sink answers every window query as an unbounded log of the closed samples would. |
| `CpuSamplers.NoPhantomSamples` | internal/collector/cpu.go:81-95 | No emitted sample has zero ticks, whatever the clock does. |
| `CpuSamplers.TickAgrees` | internal/collector/cpu.go:51-74 | A tick logs as many executing sessions as it saw; those on CPU are some of them, and all of them iff none has a real wait. |
| `CpuSamplers.TickTells` | internal/collector/cpu.go:51-74 | A tick counts the executing statements whose wait is empty or idle, and logs one session, with its user, host and schema, for each executing one. |
| `CpuSamplers.PollsAddNoCpu` | internal/collector/waits.go:138-156 | The wait collector, which shares the series, never adds to the CPU log. |
| `Mdl.BuildMDL` | internal/insights/mdl.go:52-121 | For every map order the result lists each group once, its lists stably sorted, the busiest table first. |
| `Mdl.GroupAt` | internal/insights/mdl.go:53-87 | A group holds exactly the granted and pending rows of its key, in row order, and counts the pending ones by type. |
| `Mdl.BreakdownIsByTable` | internal/insights/mdl.go:52-121 | If the tables' keys differ, every table with a row has exactly one queue, and that queue holds all its granted and pending rows and nothing else, oldest first. |
| `Mdl.EntriesAreRows` | internal/insights/mdl.go:52-87 | Field by field: an entry is in a table's pending or granted list iff it is a row of type TABLE with that schema, name and status. |
| `Mdl.ByTableIffKeysApart` | internal/insights/mdl.go:58-67 | Every table has a queue of its own iff no two tables of the snapshot share a key. |
| `Mdl.KeysClash` | internal/insights/mdl.go:58-67 | Tables `a`/`b.c` and `a.b`/`c` share a queue: the second has none of its own. |
| `Mdl.KeyInjectiveIff` | internal/insights/mdl.go:58 | Keys of all tables over a set of schemas are distinct iff no schema is another one continued after a dot. |
| `Mdl.DotFreeSchemasKeepApart` | internal/insights/mdl.go:58 | In particular, no snapshot whose schema names are free of dots has two tables with one key. |
| `Mdl.BusiestFirst` | internal/insights/mdl.go:104-119 | Tables stand by number of waiters, descending, and among equals by the oldest waiter. |
| `Mdl.ByLockTypeAddsUp` | internal/insights/mdl.go:80-82 | In every queue of every breakdown the counts by type are those of its waiters and add up to their number. |
| `Mdl.SettledOrder` | internal/insights/mdl.go:92-101 | A settled list is a descending permutation in which equal waits keep their row order. |
| `Mdl.OldestFirst` | internal/insights/mdl.go:92-101 | In every breakdown both lists of every queue stand by waiting time, descending. |
| `Mdl.Find` | internal/insights/mdl.go:125-132 | Finds a queue of the table, or none exists. |
| `Mdl.PositionOf` | internal/insights/mdl.go:137-145 | The rank is that of the pid's first pending entry, the total the queue length; false iff it is not pending. |
| `Mdl.RankIsFair` | internal/insights/mdl.go:35-36 | Nobody behind a waiter has waited strictly longer, in any queue of any breakdown. |
| `Mdl.BlockersOf` | internal/insights/mdl.go:160-185 | Exactly the granted entries, in order, that conflict with the first pending entry of the pid and are not its own; none if it is not pending or asks for no type. |
| `Mdl.BlockersAre` | internal/insights/mdl.go:160-185 | A holder is among them iff it conflicts and has neither the waiter's pid nor, when that is known, its thread. |
| `GroupLoads.Tally` | internal/insights/aggregate.go:219-227 | Counts per group exactly its executing samples, and collects the distinct tick times, idle ones included. |
| `GroupLoads.LoadByGroup` | internal/insights/aggregate.go:211-247 | Over the samples in the window (an hour if none is given), the report lists each group seen executing once, with its observations and average load, in order. |
| `GroupLoads.LoadTells` | internal/insights/aggregate.go:211-262 | A line counts the executing samples whose user, host or schema is its group, an empty one reading as `(unknown)`, and divides by the distinct times. |
| `GroupLoads.EveryGroupIsListed` | internal/insights/aggregate.go:217-227 | Every executing sample's group has a line. |
| `GroupLoads.HighestFirst` | internal/insights/aggregate.go:239-245 | Lines stand by load, descending, and then by name. |
| `GroupLoads.ReportIsUnique` | internal/insights/aggregate.go:229-246 | There is only one such report: map order and an unstable sort leave nothing open. |
| `GroupLoads.ReportReconciles` | internal/insights/aggregate.go:209-246 | Observations sum to the executing samples, loads to that count over the distinct ticks. |
| `Trails.SortBins` | internal/tui/perf.go:160-164 | The in-place insertion sort by adjacent swaps yields the stable sort by time. |
| `Trails.ComputeTrail` | internal/tui/perf.go:122-172 | The result is, in time order, the load of all classes together at each of the latest times at which any class was sampled, at most 60, none skipped. |
| `Trails.SortedBins` | internal/tui/perf.go:131-164 | After binning and sorting there is one bin per distinct time, times strictly increase, and each bin holds the sum of all samples at its time. |
| `Trails.LoadUnits` | internal/tui/perf.go:137-147 | Loads are observations per tick for CPU, and waiting time over elapsed time for the other classes, zero without ticks or time. |
| `Trails.BinsKeepLoad` | internal/tui/perf.go:131-158 | The bins over all times carry together the load of every sample of every class. |
| `TrailPolls.TrailIsPerPoll` | internal/tui/perf.go:117-121 | For polls that follow each other in time, whatever order the classes are walked in: there are as many cells to show as polls with samples iff no poll left samples of two times, and then the sparkline shows the whole load of each of the latest such polls. |
| `TrailPolls.OnePollTwoCells` | internal/tui/perf.go:117-121 | A wait sample and the CPU sample of a later flush, of one poll, take two cells. |
| `Trails.TruncateTrail` | internal/tui/perf.go:105-115 | The last n cells, padded with zeros on the left. |
| `Durations.ParseDuration` | internal/tui/issues.go:256-290 | The nested index loops compute the recursive reading: units added up with 64-bit wrap-around, zero for any malformed or overflowing text. |
| `Durations.TextIs` | internal/detector/long_transaction.go:75-88 | The text by length: seconds, minutes and seconds, or hours and minutes, with a minus sign for negative ones, of the whole seconds and at most one carried. |
| `Durations.CarriesFrom` | internal/detector/long_transaction.go:75-77 | The sum never carries below 2^24 seconds, and does so there. |
| `Durations.ReadsUnits` | internal/tui/issues.go:256-290 | Hours, minutes and seconds are read at 3600, 60 and one second each. |
| `Durations.ReadsNothingElse` | internal/tui/issues.go:256-290 | A text that starts with no digit, ends in one or has another unit reads as zero. |
| `Durations.RoundTrip` | internal/detector/long_transaction.go:75-88 | Reading a printed duration gives it rounded down to the second below an hour and to the minute from there, or the next minute if the float64 sum of its seconds carried into it, and zero for negative ones. |
| `Durations.RoundTripIsMonotone` | internal/tui/issues.go:254-255 | So the pair is monotone, errs by less than a minute, and errs upward iff the sum carried into the next minute. |
| `Durations.RoundsUpSomewhere` | internal/detector/long_transaction.go:75-88 | A nanosecond short of 5004 hours and a minute reads back as that minute. |

## Left out

- Floating point: average loads are reals, and a JSON number is identified with the text that `%v` prints for it.
- float64 addition in a duration's seconds: represented by the closed form of when it carries into the next whole second.
- SHA-256: an arbitrary function, assumed collision-free only where a lemma says so.
- JSON decoding, SQL, retries and the network: what they answer is a parameter, failures included.
- `numField`'s conversions: a given function from values to 64-bit integers.
- Rendered plan lines, flag details, issue texts and Details maps.
- The compatibility table of metadata locks: a given relation, assumed neither symmetric nor complete.
- Locks and goroutines: each locked section is one step; only the CPU sampler, where steps of one operation are separated on purpose, is modelled with interleavings.
- Registries.Registry.Append: the window between touching an entry and adding to it, in which another goroutine could evict the entry, is not modelled; there is one collector.
- CpuSamplers.CPUSampler.Sample: the counting loop is one step with its commit, as no other step reads what it writes before that.
- Counters of events (ticks, evictions, observations, rows by kind) are unbounded; the server's 64-bit counters, their differences and sums wrap.
- Times and durations of the samplers are unbounded nanoseconds, and successful polls happen at times after the zero time.
- Library sorts are modelled by a stable insertion sort; where the library's is not stable, the order is proved to be total.
- Maps from pids to true are sets; the copies of the victim's load and age in the eviction loop are read from the entry.
- `Flips`, `Get`, `Snapshot`, `Len`, `Evicted` and `Cap`: copies and plain reads.
- `TopSQL`, `summarise`, `Load` and their sort: sums of the same shape as `LoadByGroup`.
- The rest of `New`: wiring of collectors.
- CloudWatch and health polling, DDL and deadlock detectors, comment stripping and statement verbs, killer checks, the monitor's ticker, and all of the terminal interface apart from the sparkline data and duration parsing.

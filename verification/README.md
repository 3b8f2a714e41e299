# A verified model of the quota service

The quota service is a rate limiter. Clients ask for tokens from named buckets; buckets live in
namespaces, are created on demand, reaped when idle and reconfigured while the service runs. This
project models its core in Dafny and proves what it promises over every run.

| file | what it models |
|---|---|
| `Prelude.dfy` | options and the floor-division facts the rate arithmetic needs |
| `Config.dfy` | configuration records, filling in defaults, comparing configurations |
| `TokenBucket.dfy` | the token bucket: lazy refill, borrowing, debt and wait limits; the bucket object |
| `TokenBucketRuns.dfy` | ledger, rate bounds, dominance and the rest over whole runs |
| `Eviction.dfy` | how long a bucket must be idle before forgetting it is invisible |
| `RedisBucket.dfy` | the Lua script over two Redis keys with a time to live |
| `Admission.dfy` | the server's token and wait limits around a bucket |
| `Container.dfy` | lookups, reaper and live reconfiguration as atomic steps on values |
| `ContainerInvariant.dfy`, `ContainerTheorems.dfy` | what every step keeps and what follows |
| `ReaperTheorems.dfy`, `Promptness.dfy`, `Namesakes.dfy` | which buckets the reaper spares, watches and loses sight of; how soon the idle ones go |
| `Reaping.dfy`, `ReapingThreshold.dfy` | container, limits and tokens together: when no client can tell that buckets are reaped |
| `WatcherChannel.dfy` | the bounded channel to the reaper and the lock that lookups hold while they send |
| `BucketContainer.dfy` | the container object with the program's loops, counters and reference counts |
| `ConfigPropagation.dfy`, `MysqlPersister.dfy`, `MemoryPersister.dfy` | configuration edits, versioned table, caches, notifications |
| `Stats.dfy` | the in-memory stats listener and the batching Redis listener |
| `Reconnect.dfy` | re-establishing the connection to Redis |
| `History.dfy` | the admin console's undo/redo reducer |

`dafny verify dfyconfig.toml` checks the whole project.

## How the model is built

Code that changes things in place is modelled by classes and methods with the program's own loops,
proved against functions on values; protocols with several goroutines or servers are transition
systems whose steps interleave freely. Clocks, the network, the rows a query returns and the order
in which Go ranges over maps are parameters or unconstrained choices. Numbers are mathematical
integers. Where the program would panic or exit (destroying a bucket twice, closing or writing to
a closed channel, a negative reference count) the operation has a precondition, and every caller is
proved to meet it.

Whatever a step, a mutation or an edit is said to do elsewhere is also written out once in full, by
a lemma that does not use the function it is about and says what stays as it was: `RequestExactly`,
`DecideExactly`, `DefaultsExactly`, `EditExactly`, `LookupExactly`, `CheckExactly`,
`ReconfigurationKillsExactly`, `ApplyExactly` and others of that name.

A bucket's identity is the step that created it together with the place it was created for, so two
buckets that stood under the same name at different times are different, and nothing depends on map
order. The container's steps are `Find`, `Register`, `Reap` and `Configure` in `Container.dfy`.

Several things that one might expect of the program are not so; each comes with the exact condition:

* Forgetting an idle bucket is invisible if and only if the lifespan covers a full refill and the
  furthest that a grant can reach into the future: the debt limit, or if that is less the longest wait
  and the largest loan that callers may ask for. A debt limit below one token's interval counts as
  none, and a bucket that never grants is never missed. `EvictionThreshold` proves it for one bucket
  and any callers, `ExpiryIsInvisible` for keys that expire in Redis and the server's timeout and limit
  per request. `ReapingIsInvisibleIff` compares the whole server, lookups and refusals included, with
  the same run without the reaper's checks; there the lifespan is the idle limit and a nanosecond, and
  dynamic buckets that can be reaped must not be capped, since reaping makes room under the cap.
* Outstanding debt does not imply an empty bucket. At time `t` it does exactly when the bucket holds
  nothing or no grant was made at a clock reading later than `t` (`DebtMeansEmptyIff`), so always
  under a clock that does not run backwards (`DebtorsAreEmpty`).
* Not every idle bucket is reaped. The reaper keys watchers by namespace and name joined with a colon,
  and a live reapable bucket has lost its watcher if and only if the watcher of a namesake was
  registered after its own (`ReapableIsWatchedUnlessTakenOver`). Then it is never reaped
  (`UnwatchedIsNeverReaped`); otherwise it is gone in time (`IdleBucketsAreGoneInTime`,
  `GoneWithinItsOwnLimits`). A configuration lets this happen if and only if two different reapable
  names read the same in it (`LosesSightIff`); it takes five steps from start-up (`NamesakeTakesOver`).
* The reaper and the lookups can wait for each other for good. A lookup sends its new watcher while it
  holds the lock of its namespace, and the reaper in the middle of a tick waits for such locks. They
  are stuck exactly when the channel is full and the reaper wants the lock of a sender
  (`StuckIffDeadlocked`, `DeadlockIsForGood`), which takes as many sends as the channel has room for
  and can happen with exactly that many (`DeadlockTakesSends`, `DeadlockHappens`).
* A pull from the table sets a server's version back to -1 exactly when it had a configuration and
  none of the new rows decodes (`PullRegressesIff`).
* The in-memory persister accepts stale edits. What is applied is the newest of the configurations
  the listener has read, the first of those with the same version (`AppliedIsNewestRead`), so the last
  write is applied exactly when nothing read before has a version as high (`WriteIsAppliedIff`). Of two
  different edits of the same configuration one is lost: the second if the listener reads between the two
  writes, and the first if it does not (`OneOfTwoEditsIsLost`). The table refuses stale edits
  (`AcceptedIffCurrent`).
* Merging changes in the admin console can leave a record (type, key and value) that no mutation of
  that description explains. It does so exactly when a merge drops an update that had changed
  something, was not of the same place by its effect, and is not merely repeated
  (`ReduceKeepsChainIff`). Two updates that render alike break the record wherever both fields are
  unset (`ClashBreaksTheRecord`), for instance in the session of `SessionThatBreaksTheRecord`.

Where the code and the README of the repository disagree on lookup order, the model follows the
code: an existing namespace never falls through to the global default bucket.

## Model

| member | source | states |
|---|---|---|
| `TokenBucket.IntervalBracketsRate` | buckets/memory/bucket.go:39 | the integer interval N satisfies N·rate ≤ 10⁹ < (N+1)·rate and is at least one nanosecond |
| `TokenBucket.Bucket.constructor` | buckets/memory/bucket.go:34-48 | a new bucket holds as many tokens as its size, available at once |
| `TokenBucket.Bucket.CalcWaitTime` | buckets/memory/bucket.go:94-123 | the decision and the committed state are those of `Answer` and `Next`; a rejection commits nothing |
| `TokenBucket.Bucket.Take` | buckets/memory/bucket.go:80-91 | a caller sees the granted wait, or zero and failure |
| `TokenBucketRuns.RequestExactly` | buckets/memory/bucket.go:94-123 | one request in full: what is earned, held and borrowed, when it is granted, the wait, and the state afterwards |
| `TokenBucketRuns.NextSound` | buckets/memory/bucket.go:101-123 | balance within 0..size, `tna` never decreases, and a grant leaves it within the debt limit |
| `TokenBucketRuns.RunSound` | buckets/memory/bucket.go:94-123 | the same over every run |
| `TokenBucketRuns.Ledger` | buckets/memory/bucket.go:94-123 | over every run the drop in ac·N − tna is exactly N·tokens granted plus rounding (less than N per request) plus N·tokens lost to the cap |
| `TokenBucketRuns.GrantedIffAffordable` | buckets/memory/bucket.go:107-120 | exactly which requests are granted, in terms of the potential, the debt limit and the accepted wait |
| `TokenBucketRuns.SteadyClientsNeverWait` | buckets/memory/bucket.go:101-105 | clients that keep to the fill rate are always granted at once, whatever rounding loses |
| `TokenBucketRuns.DebtorsAreEmpty` | buckets/memory/bucket.go:101-119 | under a non-decreasing clock a bucket in debt holds no tokens |
| `TokenBucketRuns.DebtMeansEmptyIff` | buckets/memory/bucket.go:101-119 | in every run and under any clock, a bucket in debt at `t` is empty exactly when it holds nothing or no grant had a reading later than `t` |
| `TokenBucketRuns.BackwardsClockLeavesTokensInDebt` | buckets/memory/bucket.go:95-119 | a run with a clock going backwards that breaks it |
| `TokenBucketRuns.StretchBound` | buckets/memory/bucket.go:94-123 | tokens granted between two grants of any run, from any sound state and under any clock, fit in size, elapsed time and debt limit |
| `TokenBucketRuns.WindowRateBound` | buckets/memory/bucket.go:94-123 | the same for any two granted requests of any run of a bucket that started full |
| `TokenBucketRuns.NextCallerPays` | buckets/memory/bucket.go:101-123 | everything granted before a grant fits in a full bucket plus the time until that grant is ready |
| `TokenBucketRuns.ReadyTimesNeverDecrease` | buckets/memory/bucket.go:107-122 | grants become ready in the order in which they are made |
| `TokenBucketRuns.RejectionsAreInvisible` | buckets/memory/bucket.go:115-120 | erasing all rejected requests of a run changes no state and no other response |
| `TokenBucketRuns.RicherServesSooner` | buckets/memory/bucket.go:94-130 | a run fully granted from a poorer state is fully granted from a richer one, with waits no longer at any step |
| `TokenBucketRuns.FreshServesSoonest` | buckets/memory/bucket.go:34-48 | a fresh bucket grants every run that any reachable bucket grants in full |
| `TokenBucketRuns.RicherMayRefuseLater` | buckets/memory/bucket.go:115-117 | full granting is needed: a richer bucket may refuse what a poorer one grants later |
| `Eviction.LongEnoughIsInvisible` | buckets/redis/bucket_factory.go:24-34 | with a lifespan of at least horizon + size·N, forgetting a bucket changes no response of any run of callers held to given limits |
| `Eviction.DrainReachesHorizon` | buckets/memory/bucket.go:101-123 | single tokens and one largest loan bring a fresh bucket exactly to its horizon |
| `Eviction.ProbeTells` | buckets/memory/bucket.go:101-123 | a moment before it is full again, single tokens tell it from a full one |
| `Eviction.EvictionThreshold` | buckets/redis/bucket_factory.go:61-73 | that threshold is exact, whatever limits the callers are held to |
| `Eviction.EvictionThresholdForAnyone` | buckets/redis/bucket_factory.go:61-73 | for callers held to none it is the debt limit and a full refill |
| `RedisBucket.Keys.RunScript` | buckets/redis/bucket_factory.go:23-76 | the script answers and stores what the memory bucket does, absent keys standing for a full bucket; a rejection writes nothing |
| `RedisBucket.Keys.Expire` | buckets/redis/bucket_factory.go:66-69 | both keys go once their time to live has passed |
| `RedisBucket.Take` | buckets/redis/bucket.go:43-77 | the caller's view of the script; the keys live for the bucket's own idle time if it has one, else for the factory's, if any; a call that goes wrong is an error, and only a closed client is reported to the factory |
| `RedisBucket.RedisRefinesMemory` | buckets/redis/bucket_factory.go:23-76 | over every run without expiry the Redis and the memory bucket agree on every response and on the state |
| `RedisBucket.ExpiryIsInvisible` | buckets/redis/bucket.go:44-48 | in terms of a configuration, exactly when key expiry cannot be noticed by the requests that the server passes on |
| `Admission.Allow` | server.go:122-152 | outcome and bucket afterwards are those of `Decide` and `Settled` |
| `Admission.DecideExactly` | server.go:122-152 | which requests are refused for their size, which are served and after what wait, which time out, and the bucket's state after each, in terms of the configuration and the request |
| `Admission.ServedWaitIsBounded` | server.go:122-152 | exactly the requests over the per-request limit are refused for it; every wait is within the debt limit and, if positive, within the timeout and a lower override; failures leave no trace |
| `Admission.ServerHoldsCallers` | server.go:122-136 | what reaches a bucket is held to the limit per request and the timeout, and may go up to both |
| `Config.DifferentNamespaceConfigs` | config/config.go:277-298 | the one-sided comparison is exact inequality of namespace configurations |
| `Config.BucketComparisonIsExact` | config/config.go:256-275 | the field-by-field comparison is exact inequality of optional bucket configurations |
| `Config.ApplyDefaults` | config/config.go:31-66 | keeps every name, given setting and version and fills in the defaults, or fails exactly when a namespace has both fallbacks |
| `Config.DefaultsExactly` | config/config.go:31-105 | there is exactly one such configuration, setting by setting |
| `Config.ZeroMeansDefault` | config/config.go:81-105 | a setting at zero takes the value of the default bucket configuration, the request limit that of the fill rate; given settings are kept |
| `Config.DefaultsNormalise` | config/config.go:31-105 | the result has no setting at zero and names that agree with the map keys |
| `Config.NormalisedIffUnchanged` | config/config.go:31-105 | normalised configurations are exactly those that filling in defaults leaves alone |
| `ContainerInvariant.FindKeepsInv` | bucket.go:189-292 | a lookup keeps the invariant |
| `ContainerInvariant.RegisterKeepsInv` | reaper.go:104-107 | registering a watcher keeps it |
| `ContainerInvariant.ReapKeepsInv` | reaper.go:111-129 | a reaper check keeps it |
| `ContainerInvariant.OpenWatcherIsCurrent` | reaper.go:36-70 | a watcher with an open channel watches the bucket now installed under its name |
| `ContainerInvariant.ConfigureKeepsInv` | server.go:229-309 | a reconfiguration keeps it |
| `ContainerInvariant.RunKeepsInv` | server.go:229-309 | it holds after every sequence of lookups, updates, registrations and checks |
| `ContainerTheorems.LookupFollowsConfig` | bucket.go:189-254 | a lookup gives what the resolver says for the current configuration, or reports the cap exactly when the namespace is full of other dynamic buckets |
| `ContainerTheorems.LookupExactly` | bucket.go:189-292 | a lookup looks at one place, returns what stands there or fills it, and changes nothing else but the report of what it returns |
| `ContainerTheorems.IncrementalAgreesWithRebuild` | server.go:257-308 | after any run lookups agree with a freshly initialised container, except at the cap |
| `ContainerTheorems.VersionsIncrease` | server.go:233-250 | a configuration is accepted if and only if its version is above the current one |
| `ContainerTheorems.CapIsNeverExceeded` | bucket.go:238-292 | in every run dynamic buckets are counted exactly, within a positive cap, and never under a configured name |
| `ContainerTheorems.LiveIsReachableInEveryRun` | bucket.go:76-102 | in every run the buckets alive are exactly the reachable ones |
| `ContainerTheorems.ReconfigurationKillsExactly` | server.go:229-309 | a bucket outlives a configuration, unaltered, if and only if that is no newer or says the same of the global default or of the bucket's namespace as the one before |
| `ContainerTheorems.DeathsAreJustified` | reaper.go:36-42 | a bucket dies only by a newer configuration that says something else of its place, or after more than its idle limit without reported activity |
| `ContainerTheorems.CheckExactly` | reaper.go:26-42 | a look of the reaper removes a bucket and its watcher exactly when the bucket was not used since the last look and is idle for longer than its limit; else it notes activity or changes nothing |
| `ContainerTheorems.DeadStayDead` | bucket.go:76-102 | a destroyed bucket is never alive again, so none is destroyed twice |
| `ContainerTheorems.OnlyLookupsReport` | bucket.go:229-231 | only a lookup that returns a bucket counts as its activity |
| `ContainerTheorems.StaleWatchersAreHarmless` | reaper.go:26-42 | a watcher of a destroyed bucket removes nothing, and stays registered |
| `ReaperTheorems.LookupReports` | bucket.go:229-231 | a lookup that returns a watched bucket puts a token in its channel and counts as activity at that moment |
| `ReaperTheorems.UsedBucketsAreSafe` | reaper.go:36-42 | a bucket looked up at `t` or later survives, unaltered, every run within its idle limit of `t` in which no newer configuration says something else of its place |
| `ReaperTheorems.BucketStays` | server.go:285-301 | a bucket that lives on is never replaced or altered by any step |
| `ReaperTheorems.NewBucketIsQueued` | reaper.go:168-178 | a new bucket that can be reaped has its watcher queued behind all others |
| `ReaperTheorems.WatchedMeans` | reaper.go:104-107 | a bucket is watched from the queue or from its own key, never from both |
| `ReaperTheorems.StepLosesWatcherIff` | reaper.go:104-129 | a bucket that survives a step is without a watcher afterwards exactly when it was before or the step registers another watcher under its key |
| `ReaperTheorems.OnlyNamesakesTakeOver` | reaper.go:104-107 | the one that takes over is of another name that reads the same |
| `ReaperTheorems.WatcherLostIff` | reaper.go:76-129 | the same over every run from every state the container can be in, for buckets born on the way too |
| `ReaperTheorems.ReapableIsWatchedUnlessTakenOver` | reaper.go:76-129 | from start-up, a live reapable bucket has no watcher if and only if a namesake took it over |
| `ReaperTheorems.UnwatchedIsNeverReaped` | reaper.go:111-129 | a bucket without a watcher outlives every run in which no newer configuration says something else of its place |
| `Namesakes.NamesakeTakesOver` | reaper.go:76-105 | for every configuration and any two reapable names that read the same, asking for both from start-up leaves the first one's bucket alive and unwatched |
| `Namesakes.UnwatchedBucketExists` | config/config.go:190-192 | such a run with namespaces `a` and `a:b` |
| `Namesakes.LosesSightIff` | reaper.go:72-107 | some run under a configuration leaves a live reapable bucket unwatched if and only if two different reapable names of it read the same |
| `Promptness.QueuedIsRegisteredInTurn` | reaper.go:137-147 | a watcher waits for exactly those ahead of it in the queue; from its turn on its bucket is registered exactly if no namesake has taken it over |
| `Promptness.IdleBucketsAreGoneInTime` | reaper.go:36-42 | from its turn on, with looks at its key due by `due` and then every `gap`, a watched bucket that nobody asks for is gone, or taken over, by `due` plus its idle limit plus one gap |
| `Promptness.GoneWithinItsOwnLimits` | reaper.go:111-157 | with the ticker set as the reaper sets it, by the next tick plus its idle limit plus the lesser of that and the minimum frequency |
| `Reaping.LookupsAgree` | bucket.go:189-254 | with lasting configurations, a server with and one without a reaper find buckets of the same place and settings, or none for the same reason |
| `Reaping.ReapingIsInvisible` | server.go:106-153 | in every run of lookups, requests, reconfigurations and checks with lasting configurations, each client is told what it would be told without the reaper's checks |
| `ReapingThreshold.TooSoonIsNoticed` | reaper.go:36-42 | for every other reapable template there is a run, within the server's limits, whose last client is told something else |
| `ReapingThreshold.CapIsNoticed` | bucket.go:238-254 | so there is for every positive cap on buckets that can be reaped |
| `ReapingThreshold.ReapingIsInvisibleIff` | server.go:106-153 | so for every configuration no client of any run is told anything else than without the reaper if and only if every reapable template is uncapped and grants nothing or outlasts its horizon and a full refill |
| `BucketContainer.BucketContainer.NewBucket` | buckets/redis/bucket_factory.go:291-332 | a dynamic bucket takes a share of its namespace's attributes |
| `BucketContainer.BucketContainer.DestroyBucket` | buckets/redis/bucket.go:107-122 | gives the share up; the last one removes count and attributes; never called twice or below zero |
| `BucketContainer.BucketContainer.ReportActivity` | reaper.go:52-62 | a watched bucket puts a token in its open channel |
| `BucketContainer.BucketContainer.ApplyWatch` | reaper.go:168-178 | a bucket with an idle limit gets an open channel and a queued watcher |
| `BucketContainer.BucketContainer.CreateDynamicBucket` | bucket.go:269-292 | installs the bucket, queues its watcher and keeps the counts exact |
| `BucketContainer.BucketContainer.FindBucket` | bucket.go:189-254 | is the lookup step, and keeps the invariant and the counts |
| `BucketContainer.BucketContainer.AddNewWatcher` | reaper.go:104-107 | is the registration step |
| `BucketContainer.BucketContainer.RemoveBucketNamed` | bucket.go:76-89 | removes and destroys a bucket and keeps the counts exact |
| `BucketContainer.BucketContainer.CheckWatcher` | reaper.go:36-43 | is the reaper step for one watcher |
| `BucketContainer.BucketContainer.CheckExpirations` | reaper.go:111-129 | a tick looks at every watcher exactly once and returns the least idle limit left, at most the minimum frequency |
| `BucketContainer.BucketContainer.DestroyNamespace` | bucket.go:92-102 | destroys exactly the namespace's buckets, closes their channels and clears its counts |
| `BucketContainer.BucketContainer.CreateNamespace` | bucket.go:163-177 | makes exactly the configured buckets, none dynamic |
| `BucketContainer.BucketContainer.UpdateGlobalDefault` | server.go:260-277 | replaces the global default exactly when its configuration changed |
| `BucketContainer.BucketContainer.UpdateNamespace` | server.go:285-301 | keeps, replaces or removes one namespace |
| `BucketContainer.BucketContainer.UpdateBucketContainer` | server.go:229-309 | the loops over old and new namespaces are the reconfiguration step, and keep the invariant and the counts |
| `BucketContainer.ScriptParametersAreLimits` | buckets/redis/bucket_factory.go:291-342 | the attributes passed to the script are the limits of the bucket's configuration, and its idle time if it has one |
| `BucketContainer.AttributesAreCurrent` | buckets/redis/bucket_factory.go:302-312 | a namespace's count is its number of live dynamic buckets and their shared attributes are those of each one's own configuration |
| `WatcherChannel.StuckIffDeadlocked` | reaper.go:131-157 | unless all is at rest, somebody can get on, except exactly when the channel is full and the reaper wants the lock of a sender |
| `WatcherChannel.RoomMeansNoWaiting` | reaper.go:168-178 | with room in the channel no lookup waits to send, and the reaper waits only for one that can |
| `WatcherChannel.DeadlockIsForGood` | bucket.go:76-79 | a deadlock never ends |
| `WatcherChannel.DeadlockTakesSends` | config/reaper.go:16-22 | no run reaches it with fewer sends than the channel has room for |
| `WatcherChannel.DeadlockHappens` | bucket.go:208-215 | whatever the capacity, a run from start-up reaches it with exactly that many |
| `ConfigPropagation.QueryIsConsecutive` | config/mysqlpersister/mysqlpersister.go:116-140 | the rows of a query on a contiguous table are consecutive versions |
| `ConfigPropagation.EditExactly` | server.go:311-331 | an edit gives the next version with its user and date and exactly the names and settings its updater gives, defaults filled in; it fails exactly when the updater does or a namespace gets both fallbacks |
| `ConfigPropagation.AcceptedIffCurrent` | server.go:311-331 | an edit is accepted exactly when it does not fail and was made on the last row, and adds what it makes of that row; any other changes nothing |
| `ConfigPropagation.EditorSucceeds` | server.go:311-331 | an edit begun and committed at a server that runs the last row is accepted |
| `ConfigPropagation.RunKeepsInv` | config/mysqlpersister/mysqlpersister.go:116-219 | in every interleaving, with pulls cut short or abandoned, versions are contiguous, each row is one edit of the row before, each cache is an exact prefix that reaches the server's version and no wake-up is lost |
| `ConfigPropagation.NoLostEdits` | config/mysqlpersister/mysqlpersister.go:182-201 | in every interleaving the table is the first row and then, for each accepted edit in order, exactly what it made of the row before |
| `ConfigPropagation.RowsAreForever` | config/mysqlpersister/mysqlpersister.go:182-201 | a row is never changed or removed |
| `ConfigPropagation.AppliedVersionsIncrease` | server.go:233-238 | a server only ever moves to a strictly newer configuration |
| `ConfigPropagation.QuietServersAgree` | server.go:193-217 | a server at rest whose last poll found nothing runs the last row, in which every accepted edit has had its effect in order |
| `ConfigPropagation.CatchingUpComesCloser` | server.go:193-238 | every step of a server's own pull and listener brings it closer to the last row, in an order without infinite descent |
| `ConfigPropagation.CatchingUpIsPossible` | config/mysqlpersister/mysqlpersister.go:94-114 | as long as a server has not caught up, such a step is possible: none gets stuck |
| `MysqlPersister.MysqlPersister.PullConfigs` | config/mysqlpersister/mysqlpersister.go:116-174 | the row loop caches every row that decodes and moves to the last of them; a refused query changes nothing, and a row that cannot be scanned ends the pull with the rows before it cached and the version unchanged |
| `MysqlPersister.MergeExactly` | config/mysqlpersister/mysqlpersister.go:148-160 | the cache then holds the last decodable row of each version, and otherwise what it held |
| `MysqlPersister.LastDecodedExactly` | config/mysqlpersister/mysqlpersister.go:135-171 | the version is that of the last row that decodes, or -1 |
| `MysqlPersister.ScannedExactly` | config/mysqlpersister/mysqlpersister.go:137-146 | the rows taken in are all those before the first that cannot be scanned |
| `MysqlPersister.MysqlPersister.ReadPersistedConfig` | config/mysqlpersister/mysqlpersister.go:209-219 | is the protocol's read step, and in every reachable state gives the row of the table with the server's version, failing only before the first pull |
| `MysqlPersister.PullIsTheProtocol` | config/mysqlpersister/mysqlpersister.go:137-171 | for rows that decode the loop does what the protocol's steps do |
| `MysqlPersister.FailedPullIsTheProtocol` | config/mysqlpersister/mysqlpersister.go:137-146 | a pull that fails at a row does what storing the rows before it and abandoning the pull do |
| `MysqlPersister.PullRegressesIff` | config/mysqlpersister/mysqlpersister.go:137-171 | exactly when a pull sets the version back, and that the configuration then cannot be read |
| `MysqlPersister.UnreadableRowHidesConfig` | config/mysqlpersister/mysqlpersister.go:148-171 | one undecodable row is enough |
| `MemoryPersister.Notifier.Notify` | config/internal/notifier.go:7-14 | a notification is pending afterwards; further ones coalesce |
| `MemoryPersister.Persister.PersistAndNotify` | config/memory_persister.go:31-44 | is the protocol's store and notify steps, for the first write too |
| `MemoryPersister.Persister.ReadPersistedConfig` | config/memory_persister.go:47-52 | hands the listener what the protocol's fetch step does |
| `MemoryPersister.NoLostWakeUp` | config/internal/notifier.go:7-14 | in every interleaving, if the applied version is behind the stored one a notification is coming or the listener is at work |
| `MemoryPersister.AppliedNeverDecreases` | server.go:233-238 | the applied version never decreases, whatever is stored |
| `MemoryPersister.RisingWritesAreApplied` | server.go:193-217 | if versions only rise, at rest the stored configuration is the applied one |
| `MemoryPersister.AppliedIsNewestRead` | server.go:193-238 | in every interleaving, what is applied, with what the listener holds, is the newest of what was applied, held and read |
| `MemoryPersister.NewestIsFirstHighest` | server.go:233-238 | the newest is the first of the highest version |
| `MemoryPersister.ReadsBetweenWrites` | config/memory_persister.go:47-52 | between writes every read gives what is stored, and a write is read before all is quiet |
| `MemoryPersister.WriteIsAppliedIff` | config/memory_persister.go:31-44 | after any run, exactly when the last write takes effect |
| `MemoryPersister.OneOfTwoEditsIsLost` | server.go:311-331 | of two edits of the same configuration the first is applied if the listener reads between the two writes, the second otherwise, and never both |
| `MemoryPersister.EitherEditCanBeLost` | server.go:311-331 | both happen |
| `Stats.MemoryListener.HandleEvent` | stats/memory.go:92-127 | the maps hold, for every bucket, the tokens served and the misses of all events so far |
| `Stats.MemoryListener.Get` | stats/memory.go:70-88 | returns those scores |
| `Stats.EventsScoreExactly` | stats/memory.go:92-127 | each event raises exactly the score it is about: hits by the tokens served, misses by one, and only for dynamic buckets |
| `Stats.KeysAreDistinct` | stats/redis.go:95-97 | keys of different namespaces, or of hits and misses, never coincide |
| `Stats.TotalsAreScores` | stats/redis.go:144-166 | the queued increments of a history add up to its scores |
| `Stats.RunKeeps` | stats/redis.go:169-231 | in every interleaving each update is in the pipe or in exactly one batch in order, the count is that of the pipe, nothing in flight is lost, and no full batch sits unnoticed |
| `Stats.BatchesShipExactly` | stats/redis.go:189-231 | in every run a batch is shipped at a deadline exactly if anything is queued and on a notification exactly if a full batch is, and it is all that is queued |
| `Stats.RedisAgreesWithMemory` | stats/redis.go:169-245 | with everything executed, in any order, Redis gives the in-memory listener's scores |
| `Stats.RedisLagsByWhatIsPending` | stats/redis.go:169-245 | at any time Redis lags in hits and in misses by exactly what is queued and in flight |
| `Stats.RedisListener.HandleEvent` | stats/redis.go:144-177 | queues the event's update under the lock |
| `Stats.RedisListener.Notify` | stats/redis.go:179-184 | leaves a notification pending |
| `Stats.RedisListener.BatchReady` | stats/redis.go:195-216 | the batcher's two checks |
| `Stats.RedisListener.SwapPipe` | stats/redis.go:219-227 | hands over the pipe and starts an empty one |
| `Reconnect.DelaySchedule` | buckets/redis/bucket_factory.go:230-260 | delays are the powers of two from 1 to 128 seconds, over and over |
| `Reconnect.OneHandlerAtATime` | buckets/redis/bucket_factory.go:202-271 | in every run at most one handler runs, on the current client, and every other client is closed |
| `Reconnect.ReconnectionReplaces` | buckets/redis/bucket_factory.go:202-214 | a handler's reconnection always closes the current client and replaces it by a new open one |
| `Reconnect.FailureStartsHandlerIff` | buckets/redis/bucket_factory.go:216-225 | a failure starts a handler exactly when it is about the current client and none runs |
| `Reconnect.FinishedOnCurrentClient` | buckets/redis/bucket_factory.go:264-271 | a handler finishes on the current client, leaving room for the next |
| `Reconnect.BucketFactory.HandleConnectionFailure` | buckets/redis/bucket_factory.go:216-225 | is the failure step |
| `Reconnect.BucketFactory.ReconnectToRedis` | buckets/redis/bucket_factory.go:202-214 | closes the current client and replaces it if it is the one passed in |
| `Reconnect.BucketFactory.EstablishNewConnection` | buckets/redis/bucket_factory.go:227-271 | is a run of the protocol: retries until the first successful ping, one new client per attempt, one long sleep per failed round, the i-th of 2^(i mod 8) seconds |
| `History.UndoRedoMoveTheCursor` | admin/public/src/reducers/history.jsx:16-50 | undo and redo move a cursor by one over an unchanged timeline |
| `History.UndoRedoInverse` | admin/public/src/reducers/history.jsx:16-50 | they invert each other |
| `History.ApplyExactly` | admin/public/src/reducers/namespaces.jsx:22-121 | every mutation sets or clears exactly its own place and leaves the rest alone; it fails only to remove from what is not there |
| `History.UndoTakesBack` | admin/public/src/reducers/history.jsx:57-93 | one undo takes back an update with those of the same type and key that it continues, and any other mutation alone; a mutation leaves nothing to redo |
| `History.LoadStartsAfresh` | admin/public/src/reducers/namespaces.jsx:123-158 | loading a configuration shows it with its version and leaves nothing to undo or redo |
| `History.MergeSoundIff` | admin/public/src/reducers/history.jsx:73-83 | exactly when dropping the first of two merged updates is sound |
| `History.ReduceKeepsChainIff` | admin/public/src/reducers/history.jsx:57-93 | exactly when a mutation keeps every recorded type, key and value explaining the step from its snapshot to the next |
| `History.BurstIsOneUndo` | admin/public/src/reducers/history.jsx:73-92 | consecutive updates of one field are one entry and one undo |
| `History.PlainNamespacesNeverClash` | admin/public/src/reducers/namespaces.jsx:33-46 | updates of namespaces without dots in their names render unambiguously |
| `History.PlainBucketsNeverClash` | admin/public/src/reducers/namespaces.jsx:81-100 | so do updates of buckets, if no bucket is called like the two fields |
| `History.HistoryIsFaithful` | admin/public/src/reducers/history.jsx:16-105 | with such names, over every sequence of actions each recorded change tells which place was set or cleared between its snapshot and the next, and nothing else was |
| `History.RecordsAreUnambiguous` | admin/public/src/reducers/namespaces.jsx:22-121 | with such names a record gives its mutation back |
| `History.NamesThatClash` | admin/public/src/reducers/namespaces.jsx:15-100 | buckets of a dotted namespace, and a bucket called `default_bucket`, render like another place |
| `History.ClashBreaksTheRecord` | admin/public/src/reducers/history.jsx:76-92 | clashing updates of two unset fields leave a record that no mutation of its type, key and value explains |
| `History.SessionThatBreaksTheRecord` | admin/public/src/reducers/history.jsx:76-92 | a session from the empty history that ends so |

## Left out

- gRPC and HTTP endpoints, admin REST handlers, the CLI and the clients: plumbing over libraries that are not part of the repository.
- 64-bit overflow, Redis doubles and number formatting: numbers are exact integers; bucket arithmetic assumes a fill rate of 1 to 10⁹ and a size of at least 1.
- Namespaces and buckets as separate heap objects: they are values in the container's maps, so a namespace pointer kept across the release of a lock is not captured. Each lookup, check and reconfiguration is one atomic step; the gaps between reading a map and locking a namespace (bucket.go:203-231, bucket.go:317-322) are outside the claims.
- ContainerInvariant.ConfigureKeepsInv: assumes configurations with defaults filled in, which is what every edit persists (proved as part of `ConfigPropagation.RunKeepsInv`).
- The bound of the channel to the reaper, outside `WatcherChannel.dfy`: in the container the queue of watchers has no bound, so its steps never block.
- The time a tick of the reaper takes: its checks happen at one moment, and the ticker fires no later than set.
- The time between a lookup and the take that follows it: in `Reaping.dfy` a request is served at the moment of its lookup.
- Versions in Redis keys (buckets/redis/bucket_factory.go:344-346), and keys that Redis evicts one at a time for lack of memory.
- Failures of a stats pipeline on its way to Redis and the hourly expiry of stats keys; the top-ten lists.
- The Zookeeper, Datastore and disk persisters: foreign I/O; the Zookeeper one does not enforce unique versions, so nothing here is claimed for it.
- MD5 keys of the in-memory persister: the stored configuration is kept directly.
- Protobuf, YAML and JSON: configurations are records, cloning is copying.
- `config/mutable.go`: an edit is an arbitrary function on configurations.
- Goroutine start-up and shutdown, callers blocked on a destroyed memory bucket, logging, tracing and dropped events.
- Bucket names in the admin console that every JavaScript object inherits as properties (`constructor` and the like).
- React components and the other reducers of the admin console.

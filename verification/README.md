# Verified model of sg-core

sg-core is a telemetry gateway: transports receive bytes, handlers turn them into metrics and
events, two buses pass those on, and applications store or expose them. This project models the
parts of it that carry state, arithmetic or concurrency, and proves what each of them keeps over
every input, every run, or every interleaving.

| Files | Part of the gateway |
|---|---|
| `Framing`, `SocketTransport`, `Connections`, `Datagrams` | the socket transport: TCP frame reassembly, datagram buffers, concurrent connections |
| `MetricCache`, `ExpirySweep`, `CacheRefinement`, `SeriesMap`, `ExpiryBounds`, `ExpiryProtocol`, `ExpiryRaces`, `ExpiryProgress`, `CollectorRaces`, `CollectorProgress`, `PrometheusApplication` | the Prometheus application: metric cache, scrapes, expiry |
| `EventBus` | the event bus and its wait group |
| `ElasticBuffer`, `ElasticPipeline`, `ElasticOutcomes` | Elasticsearch batching, flushing and index workers |
| `CeilometerMetrics` | labels and names of Ceilometer metrics, and the message loop |
| `SyslogSeverity` | severity of log records |
| `Int64`, `MetricTypes`, `Wrappers` | 64-bit wrap-around, metric types, `Option` |

## What the proofs say

**Socket transport.** `Framing.Parse` is one pass of the frame loop over a buffer, and
`ReceiveAll` a connection that carries the unparsed tail from read to read. The frames delivered
and the bytes kept do not depend on how a stream is cut into reads, *if and only if* the first
negative length in the stream, if there is one, is not one whose frame would end inside the stream
in front of its own header (`SplitInvarianceIff`). For such a length the outcome depends on where
the header lies in the buffer: the guard of the loop tests the end of the frame against the start
of the current buffer, so the same bytes stop the loop in one cut and slice out of range in
another. A stream can crash its receiver in some cut exactly when it does so in one piece
(`SomeSplitCrashesIff`), that is, when the frame of its first negative length ends inside it
(`CrashIff`), and it does so in every cut exactly when that length is at least -8
(`EverySplitCrashesIff`). What a length is, is fixed digit by digit: byte k of a header is digit k of
the length modulo 2^64 in base 256 (`HeaderDigits`, `DecodeIsLittleEndian`, `ParseReadsHeader`).
Without negative lengths nothing is lost, invented or reordered. One
behaviour is worth knowing: the loop condition is strict, so an empty message at the very end of what has arrived is
held back as eight zero bytes until another byte comes (`RoundTrip`, `HeldBackUntilMore`).

**Prometheus application.** `MetricCache` models collectors, expiry lists and delete closures
with their pointers (as positions in lists of everything ever created). In every run this machinery
behaves like one map from (number of labels, cache key) to the live metric
(`CacheRefinesKeyedMap`). The cache key runs name and label values together without separators. For
each configuration and each set of series, the cache behaves like a map from series to metrics *if
and only if* no two of the series share label count and key, apart from series that the client
library refuses anyway (`PlainMapIff`, with a colliding pair in `CollisionExample`). Two series that
differ in a single label value always have different keys (`OneValueTellsApart`). On top of this,
`ExpiryBounds` states exactly when an entry is removed, that it never changes its list, that zero
expiry means forever, and how late removal can be, in units of the interval times the configured
multiple (`RemovedAfterMultiple`, `GoneAfterMultiple`; when the product does not fit an int64 it wraps,
`ExpiryIsProduct`). `ExpiryProtocol` looks at the same machinery at
the grain of single map, lock and list operations: the closure always finds its entry, so the
branch that reports a cache miss is dead code in every interleaving. `ExpiryRaces` says what becomes
of expiry safety at that grain. Whatever leaves the cache was found expired by a check of its own
sweep, and was seen by a scrape afterwards (`RemovalIsJustified`). But check and deletion are two
operations, and so are listing an entry and first keeping it alive. A removal loses a sample *if and
only if* the sweep's visit overlaps a receiver's call for the entry (`PrematureIffOverlap`, and
`PrematureIff` for every expiry time). Both kinds of overlap occur: a check between listing and the
first `keepAlive`, when an entry without an arrival time counts as expired (`FreshSampleCanBeLost`),
and a refresh between check and deletion, which removes an entry that has long been known with its
newest sample (`RefreshedSampleCanBeLost`). Conversely an entry
that is refreshed while no sweep is deleting it stays cached as long as every check of its list comes
less than the expiry time later (`FreshSampleSurvives`). `ExpiryProgress` adds what gets done: a sweep
that nothing interrupts removes exactly the records that are due, with their keys (`SweepAlone`), a
sweep that is under way can end, and so can a receiving call, with its sample in the cache
(`SweepCanEnd`, `CallCanEnd`, `SampleCanArrive`).

That is what metric sweeps do. The collector sweep has a race of its own, in `CollectorRaces`: it
does not hold the lock under which calls exclude each other, and looks whether a collector is empty
before it drops it. Every drop takes out of use the very collector it has checked
(`DropsWhatItChecked`), for good (`DroppedForGood`). It orphans an entry, which is then in a collector
that no later scrape visits, *if and only if* some call has the collector between check and drop and
its key is not swept away again before the drop (`OrphanIff`). `SampleCanBeOrphaned` is such a run:
the collector is new and still empty when the sweep comes by. An entry that no scrape sees is never
removed (`UnscrapedStays`), so unless a scrape was under way, entry and record of such a sample stay
for ever. A collector sweep that nothing interrupts takes out of use exactly the collectors without
entries (`CheckAlone`).

`PrometheusApplication` has the methods of the source; each keeps the
fields equal to the state of the run of all calls and sweeps so far, so what is proved about runs
holds of the object.

**Event bus.** The counter of the shared wait group is the number of unfinished deliveries of
blocking publishers; when `PublishBlocking` returns, every subscriber present at its read lock has
handled the event exactly once. All blocking publishers share one wait group, and the checks
that Go's wait group makes of its own use are part of the model: a run gets to a point where it has
crashed, or crashes as soon as a waiter comes to itself, *if and only if* some blocking call starts a
delivery while another one is on its way out of `Wait` (`MisuseIff`, with a crash in `CrashHappens`).
From every state of every run each call can return or the bus crashes, and no crash is needed unless
such a start has already happened (`EveryCallCanReturn`); a call that does not block returns by steps
of its own (`PublishReturns`), and then subscribing is possible (`SubscribingIsPossible`).

**Elasticsearch.** Per index, the batches in the order they were taken under the lock, followed by
what still waits, are the accepted records in order of arrival; and each accepted record is in
exactly one place of the pipeline. When indexing a batch fails half-way, the documents in front of
the failure have been acknowledged and only the rest is disregarded: when an indexing call returns,
what counts as acknowledged grows by exactly the documents it reports (`StoredIsReported`,
`FlushIsReported`). While all calls succeed nothing is disregarded (`SuccessLosesNothing`), the channel
is first in, first out (`ChannelIsFifo`), and whatever has been accepted can be stored
(`EverythingCanBeStored`).

**Handlers.** The index-driven fill of two parallel slices yields three fixed labels, the
non-empty optional fields in order, the merged resource name, and the user metadata. The scan of
at most ten tokens for a severity name is the same as searching the whole message. The severity
table is indexed without a check: a record that declares a number outside 0..8 crashes the
translation, exactly when the message does not correct it (`TranslationSucceedsIff`, `OutOfRangeExample`).
`RecoveredCode` and `RecoveredEvent` say in plain words what a message is worth.

## Model

| member | source | states |
|---|---|---|
| Framing.HeaderBijection | plugins/transport/socket/main.go:163 | reading a header and writing it are inverse to each other, on all 8-byte headers and all int64 lengths; HeaderDigits and DecodeIsLittleEndian say which bytes those are |
| Framing.HeaderDigits | plugins/transport/socket/main.go:162-163 | byte k of the header for a length is digit k of that length modulo 2^64 in base 256, least significant first |
| Framing.DecodeIsLittleEndian | plugins/transport/socket/main.go:163 | a header is read as the number with those digits, less 2^64 from 2^63 on |
| Framing.ParseReadsHeader | plugins/transport/socket/main.go:158-176 | behind eight bytes with the digits of its length, a frame is cut off and the pass goes on behind it, whatever follows |
| Framing.HelloExample | plugins/transport/socket/main.go:158-176 | a length of 5 and five bytes, read at once, are one message and leave nothing |
| Framing.WrappedGuard | plugins/transport/socket/main.go:168-169 | the guard computed with wrap-around holds exactly when the true end of the frame lies outside the buffer |
| Framing.ParseContinues | plugins/transport/socket/main.go:154-179 | a pass over two pieces of a buffer is a pass over the first, continued behind its residue |
| Framing.SplitInvariance | plugins/transport/socket/main.go:200-209 | every way of reading a stream gives the frames and the residue of one pass over the whole stream |
| Framing.SplitVariance | plugins/transport/socket/main.go:168-173 | a stream with a position-dependent negative header crashes in one piece and has a split that does not crash |
| Framing.SplitInvarianceIff | plugins/transport/socket/main.go:154-179 | independence of the splitting, if and only if the stream is not position-dependent |
| Framing.PositionDependentExample | plugins/transport/socket/main.go:168-173 | such a stream, a 4-byte message and a length of -20: it crashes in one piece, and some split of it does not |
| Framing.CrashIff | plugins/transport/socket/main.go:168-173 | a pass crashes if and only if there is a first negative header and its frame ends inside the buffer |
| Framing.SomeSplitCrashesIff | plugins/transport/socket/main.go:168-173 | some way of reading a stream crashes if and only if reading it at once does |
| Framing.EverySplitCrashesIff | plugins/transport/socket/main.go:168-173 | every way of reading a stream crashes if and only if its first negative length is at least -8 |
| Framing.BytesConserved | plugins/transport/socket/main.go:249-250 | the encodings of the delivered frames followed by the residue are the bytes received, also up to a crash |
| Framing.RoundTrip | plugins/transport/socket/main.go:158-178 | encode messages, split the bytes anywhere, receive: the same messages, a final empty one held back |
| Framing.HeldBackUntilMore | plugins/transport/socket/main.go:158 | the held-back empty message is delivered as soon as another byte arrives |
| Framing.ResidueIsIncomplete | plugins/transport/socket/main.go:158-171 | what is kept is at most a header, or declares more than is there; this is where the loop stops |
| Framing.ResidueIsSuffix | plugins/transport/socket/main.go:249-250 | what is kept is a suffix of the buffer |
| SocketTransport.Socket.WriteTCPMsg | plugins/transport/socket/main.go:154-179 | the loop delivers and counts exactly the frames of Framing.Parse, whose headers Framing.ParseReadsHeader fixes, and returns where the residue begins; its seek and read errors never occur |
| SocketTransport.Socket.Combine | plugins/transport/socket/main.go:200-209 | the buffer handed to the parser is the residue followed by the new bytes |
| SocketTransport.Socket.ParseStream | plugins/transport/socket/main.go:243-250 | the frames are delivered and the residue is copied into a buffer of its own |
| SocketTransport.Socket.GrowBuffer | plugins/transport/socket/main.go:211-229 | capped doubling after a read that filled the buffer |
| SocketTransport.Socket.ReceiveData | plugins/transport/socket/main.go:181-257 | over a whole connection: a TCP receiver delivers what all its reads parse to, a datagram receiver the truncated datagrams; counter, crash and done signal |
| SocketTransport.StreamReception | plugins/transport/socket/main.go:189-250 | delivery depends neither on the segments of the network nor on the size of the read buffer; sent messages arrive as sent |
| SocketTransport.StreamCrash | plugins/transport/socket/main.go:189-250 | the same two conditions for a receiver with a read buffer of any size |
| SocketTransport.StreamEndsAtEmptyRead | plugins/transport/socket/main.go:189-198 | of a stream, all segments in front of the first empty one are read, and nothing behind it |
| SocketTransport.DatagramReception | plugins/transport/socket/main.go:189-255 | each datagram in front of the first empty one is delivered, in order, as far as the buffer reaches at that time |
| SocketTransport.Socket.Deliver | plugins/transport/socket/main.go:243-255 | the frames of a stream buffer, or one datagram, are handed over and counted |
| Connections.CrashNeedsNegative | plugins/transport/socket/main.go:168-173 | the server crashes only because of a connection with a negative length whose frame ends inside what has come |
| Connections.LogPerConnection | plugins/transport/socket/main.go:172-176 | in every interleaving of connections the log of one connection is its own parse, in order, and the counter counts deliveries |
| Connections.MessagesPerConnection | plugins/transport/socket/main.go:277-290 | messages sent over one connection arrive as sent whatever the others do |
| Connections.AcceptOpens | plugins/transport/socket/main.go:277-290 | while the server runs, a new connection can always be opened, and changes nothing else |
| Connections.ReadIsParsed | plugins/transport/socket/main.go:189-250 | what an open connection reads can be worked off by steps of that connection alone; its log is then the parse of all its reads, unless the server crashes |
| Connections.CloseEnds | plugins/transport/socket/main.go:182-198 | a connection whose frame loop is not running can be closed, and that touches no other connection |
| Connections.ClosedForGood | plugins/transport/socket/main.go:182-198 | after that nothing is read from it and nothing delivered for it any more, whatever else happens |
| Datagrams.CapacityFormula | plugins/transport/socket/main.go:217-224 | the capacity after k growths is the initial one doubled k times, cut off at the limit |
| Datagrams.GrowsIff | plugins/transport/socket/main.go:211-229 | a datagram makes the buffer grow if and only if it fills it and the limit is not reached; the capacity is then doubled, but not beyond the limit |
| Datagrams.DeliveryIsPrefix | plugins/transport/socket/main.go:189-207 | each delivery is the prefix of its datagram that fits the capacity at that time |
| Datagrams.TruncationsGrow | plugins/transport/socket/main.go:211-229 | each truncated datagram within the limit pays for itself with a growth |
| Datagrams.UnixTruncationBound | plugins/transport/socket/main.go:143-152 | on a unix socket at most 8 datagrams within the limit are ever truncated |
| Datagrams.UnixTruncationBoundIsTight | plugins/transport/socket/main.go:211-229 | the bound of 8 is attained |
| Datagrams.UdpNeverGrows | plugins/transport/socket/main.go:143-152 | on UDP the capacity never changes and exactly the datagrams over 65535 bytes lose bytes |
| ExpirySweep.ExpiryProc.Register | plugins/application/prometheus/expiry.go:31-35 | a record is appended to the list |
| ExpirySweep.ExpiryProc.Check | plugins/application/prometheus/expiry.go:37-62 | the cursor walk that edits the list in place leaves the list, the state and the calls of Delete that the specification says |
| ExpirySweep.SweepIsFilter | plugins/application/prometheus/expiry.go:41-61 | although deletions change the state later records see, a sweep keeps in order exactly the records that are not both expired and deletable, and calls Delete once on each expired one and on no other |
| CacheRefinement.ReceiveKeeps | plugins/application/prometheus/main.go:255-297 | receiving keeps every pointer invariant and updates one slot of the map |
| CacheRefinement.ScrapeKeeps | plugins/application/prometheus/main.go:137-159 | a scrape keeps every pointer invariant and marks the slots of its label count |
| CacheRefinement.ScrapedIsKeyed | plugins/application/prometheus/main.go:137-159 | a scrape hands out exactly the slots for its label count |
| CacheRefinement.SweepEffect | plugins/application/prometheus/main.go:189-203 | a sweep deletes the entries of the expired, scraped records and nothing else, each closure its own entry |
| CacheRefinement.SweepMetricsKeeps | plugins/application/prometheus/expiry.go:37-62 | a sweep of one interval removes exactly the slots that are due |
| CacheRefinement.SweepCollectorsKeeps | plugins/application/prometheus/main.go:264-272 | dropping empty collectors drops no live metric, where calls and sweeps are single steps; CollectorRaces.OrphanIff has the finer grain |
| CacheRefinement.SweptCollectors | plugins/application/prometheus/main.go:66-74 | after a collector sweep, in any run, a label count has a collector in use if and only if it has an entry |
| CacheRefinement.Run | plugins/application/prometheus/main.go:225-234 | in every run the invariant holds and the cache shows exactly the slots of the map |
| CacheRefinement.CacheRefinesKeyedMap | plugins/application/prometheus/main.go:137-221 | every scrape of every run hands out what the map from label count and cache key holds |
| CacheRefinement.CollectorLifecycle | plugins/application/prometheus/main.go:258-282 | one collector record for each label count in use, of the very collector in use; no entry and no metric record points to a dropped collector |
| SeriesMap.CacheRefinesPlainMap | plugins/application/prometheus/main.go:168-175 | where the keys tell apart what the library accepts, scrapes hand out the last sample of every live series |
| SeriesMap.CollisionShows | plugins/application/prometheus/main.go:169-176 | two series with one key, one of them or their mixture accepted: after one sample of each, in one order or the other, a scrape is wrong |
| SeriesMap.PlainMapIff | plugins/application/prometheus/main.go:167-221 | for each configuration and set of series, the cache is a map from series to samples if and only if label count and key tell apart all that the library accepts; for accepted series, if and only if they tell the series apart |
| SeriesMap.CollisionExample | plugins/application/prometheus/main.go:169-175 | a pair of series with one key |
| SeriesMap.OneValueTellsApart | plugins/application/prometheus/main.go:169-175 | two series that differ in exactly one label value, whichever it is, never share a key |
| SeriesMap.KeyIsSpelledOut | plugins/application/prometheus/main.go:169-175 | without label values the key is the name, and one more label value appends exactly its characters |
| ExpiryBounds.HistoryOf | plugins/application/prometheus/main.go:176-221 | each live entry has been live since one sample, which fixes description and interval, and shows its latest sample and arrival time |
| ExpiryBounds.RemovedIff | plugins/application/prometheus/main.go:48-58 | an entry is removed exactly by a sweep of its first sample's interval, after a scrape since its creation, when its last arrival is at least the expiry time ago; RemovedAfterMultiple has that time in units of the interval |
| ExpiryBounds.ExpiryIsProduct | plugins/application/prometheus/main.go:287 | the expiry time is the interval times the configured multiple whenever that fits an int64; otherwise it is the int64 congruent to it modulo 2^64 |
| ExpiryBounds.RemovedAfterMultiple | plugins/application/prometheus/main.go:287 | an entry is removed exactly by a sweep of its first sample's interval, after a scrape since its creation, when its last sample is at least the first sample's interval times the multiple old |
| ExpiryBounds.StaysOnItsList | plugins/application/prometheus/main.go:206-219 | later samples with other intervals never move an entry to another list |
| ExpiryBounds.ZeroExpiryStays | plugins/application/prometheus/expiry.go:64-67 | a metric first seen with zero expiry stays for ever |
| ExpiryBounds.ScrapeHandsOutLastSamples | plugins/application/prometheus/main.go:137-159 | a scrape hands out the last sample of every live entry and nothing else |
| ExpiryBounds.ExposedIs | plugins/application/prometheus/main.go:143-156 | what is handed out has the name and label keys of the first sample and the label values, type and value of the last; the time stamp is there if configured and not zero, and is cut off towards zero |
| ExpiryBounds.ExpiryTimeBound | plugins/application/prometheus/expiry.go:64-76 | with exact timers a metric that stops arriving and was scraped in time is gone after at most twice the expiry time and one second; GoneAfterMultiple has that in units of the interval |
| ExpiryBounds.TicksApart | plugins/application/prometheus/expiry.go:69-74 | two sweeps of an interval are the expiry time and one second apart |
| ExpiryBounds.GoneAfterMultiple | plugins/application/prometheus/expiry.go:64-76 | with exact timers a metric that stops arriving and was scraped in time is gone after at most twice the interval times the multiple, and one second |
| ExpiryProtocol.RegisteredFindsItsEntry | plugins/application/prometheus/main.go:189-203 | in every interleaving of single operations, a record not past its own deletion finds its own entry in its own collector |
| ExpiryProtocol.OneRecordPerKey | plugins/application/prometheus/main.go:176-211 | at most one such record for each key of each collector, over all lists |
| ExpiryProtocol.CachedIsRegistered | plugins/application/prometheus/main.go:178-209 | each cached key has its record on a list, or the receiver is about to put it there |
| ExpiryProtocol.CacheMissIsUnreachable | plugins/application/prometheus/main.go:191-195 | the branch that should never happen never happens |
| ExpiryRaces.VisitOf | plugins/application/prometheus/expiry.go:51-58 | each step towards a deletion belongs to one visit of a sweep, which began with a check that found the entry expired |
| ExpiryRaces.RemovalIsJustified | plugins/application/prometheus/main.go:48-58 | whatever leaves the cache, in any interleaving, was at the check of the same visit either at least the expiry time old or listed and never kept alive, and was then read as scraped |
| ExpiryRaces.PrematureIff | plugins/application/prometheus/main.go:42-58 | for every expiry time, a removal loses a sample if and only if a call for the entry is under way, or one has refreshed it since the check and within the expiry time |
| ExpiryRaces.PrematureIffOverlap | plugins/application/prometheus/main.go:204-219 | for a positive expiry time, a removal loses a sample if and only if the visit overlaps a call for the entry |
| ExpiryRaces.FreshSampleSurvives | plugins/application/prometheus/main.go:42-58 | an entry refreshed while no sweep is deleting it stays cached as long as every check of its list comes less than the expiry time later |
| ExpiryRaces.UnscrapedStays | plugins/application/prometheus/main.go:196-201 | an entry that no scrape sees stays in its collector for ever |
| ExpiryRaces.FreshSampleCanBeLost | plugins/application/prometheus/main.go:206-207 | an interleaving, in clock order, with a premature removal of a new entry at the moment its sample arrives |
| ExpiryRaces.RefreshedSampleCanBeLost | plugins/application/prometheus/main.go:212-219 | an interleaving, in clock order, with a premature removal of a known entry whose sample arrived between check and deletion |
| ExpiryProgress.SweepAlone | plugins/application/prometheus/expiry.go:37-62 | in every reachable state with the list free, a sweep that nothing interrupts takes out of the list, in order, exactly the records that are expired and scraped, and out of the cache exactly their keys |
| ExpiryProgress.SweepCanEnd | plugins/application/prometheus/expiry.go:41-61 | a sweep that is under way, wherever it is, can come to its end by its own steps and free the list |
| ExpiryProgress.ZeroIsNeverSwept | plugins/application/prometheus/expiry.go:64-67 | in no interleaving is a list with expiry time zero ever swept |
| ExpiryProgress.CallCanEnd | plugins/application/prometheus/main.go:176-221 | a receiving call that is under way can come to its end, from every reachable state |
| ExpiryProgress.SampleCanArrive | plugins/application/prometheus/main.go:176-221 | whatever sweeps are under way, a call that has begun can end with its key cached and refreshed at that time |
| CollectorRaces.CoreIsRun | plugins/application/prometheus/main.go:255-297 | with collectors and their sweep beside it, the metric protocol runs as it does alone, so what is proved of it holds here |
| CollectorRaces.DropsWhatItChecked | plugins/application/prometheus/main.go:66-74 | every drop follows a check that found the collector empty, and takes that very collector out of use and no other |
| CollectorRaces.DroppedForGood | plugins/application/prometheus/main.go:260-272 | a collector out of use stays out of use |
| CollectorRaces.OrphanIff | plugins/application/prometheus/main.go:260-271 | a drop orphans an entry if and only if, between check and drop, a call has the collector for a key that is not swept away again before the drop |
| CollectorRaces.SampleCanBeOrphaned | plugins/application/prometheus/main.go:277-295 | a run without a metric sweep or a scrape that leaves a fresh sample in a dropped collector |
| CollectorProgress.CheckAlone | plugins/application/prometheus/main.go:66-74 | in every reachable state with the list free, a collector sweep that nothing interrupts takes out of use exactly the collectors without entries, and their records off the list |
| CollectorProgress.CheckCanEnd | plugins/application/prometheus/expiry.go:41-61 | a collector sweep that is under way can come to its end by its own steps |
| PrometheusApplication.Prometheus.constructor | plugins/application/prometheus/main.go:237-252 | the application starts empty |
| PrometheusApplication.Prometheus.BuildKey | plugins/application/prometheus/main.go:169-175 | the loop leaves exactly the cache key in a builder that was empty; SeriesMap.KeyIsSpelledOut says which characters those are |
| PrometheusApplication.Prometheus.UpdateMetrics | plugins/application/prometheus/main.go:167-221 | creates or refreshes one entry, and leaves every builder empty |
| PrometheusApplication.Prometheus.GetCollector | plugins/application/prometheus/main.go:260-282 | finds or creates the collector of a label count, with its expiry record |
| PrometheusApplication.Prometheus.GetExpiryProc | plugins/application/prometheus/main.go:284-293 | finds or creates the expiry process of an interval |
| PrometheusApplication.Prometheus.ReceiveMetric | plugins/application/prometheus/main.go:255-297 | one call is one Receive step, and extends the run the fields stand for |
| PrometheusApplication.Prometheus.Collect | plugins/application/prometheus/main.go:137-159 | the walk marks every entry of the collector and hands out the accepted ones |
| PrometheusApplication.Prometheus.CollectFor | plugins/application/prometheus/main.go:137-159 | a scrape hands out what the map from label count and cache key holds after all calls and sweeps so far |
| PrometheusApplication.Prometheus.CheckMetrics | plugins/application/prometheus/expiry.go:37-67 | one round of an interval's process extends the run by one sweep, whose effect in units of the interval is ExpiryBounds.RemovedAfterMultiple |
| PrometheusApplication.Prometheus.CheckCollectors | plugins/application/prometheus/expiry.go:37-62 | one round of the collector process extends the run by one collector sweep |
| EventBus.CounterIsUnfinished | pkg/bus/bus.go:45-57 | in every interleaving the counter is the number of unfinished deliveries of blocking calls |
| EventBus.HandledOnReturn | pkg/bus/bus.go:45-57 | when PublishBlocking returns, every subscriber present at its read lock has handled the event exactly once; EveryCallCanReturn says that it can return |
| EventBus.PublishingBegins | pkg/bus/bus.go:31-46 | while the bus runs, a call can begin at any time, for all subscribers of that moment |
| EventBus.EveryCallCanReturn | pkg/bus/bus.go:45-57 | every run has a continuation in which a given call returns or the wait group crashes, and one without a crash if no blocking call has started a delivery while another one was on its way out of Wait |
| EventBus.PublishReturns | pkg/bus/bus.go:31-40 | a call that does not block can return by starting its deliveries, whatever becomes of them |
| EventBus.EventReaches | pkg/bus/bus.go:31-57 | when any call has returned, blocking or not, each subscriber of its time has handled the event once, or can do so in a single step |
| EventBus.SubscribingIsPossible | pkg/bus/bus.go:24-28 | such a run can go on until all calls have returned, and then a subscriber is added |
| EventBus.SequentialCallsInOrder | pkg/bus/bus.go:45-57 | when a blocking call has returned at some moment of the run, the event of any call made after that moment is handled after its own by each of its subscribers |
| EventBus.ReturnedStays | pkg/bus/bus.go:45-57 | a call that has returned is over for good, and every call made after that is known as a later one |
| EventBus.MisuseIff | pkg/bus/bus.go:49-55 | a run has crashed in the wait group, or crashes as soon as a waiter comes to itself, if and only if a blocking call starts a delivery while another one is on its way out of Wait |
| EventBus.CrashHappens | pkg/bus/bus.go:49-55 | a run with one subscriber and two publishers that crashes |
| ElasticBuffer.Elasticsearch.ReceiveEvent | plugins/application/elasticsearch/main.go:71-117 | one record waits or completes a batch; events of other types and records that cannot be encoded change nothing |
| ElasticBuffer.Elasticsearch.Flush | plugins/application/elasticsearch/main.go:150-162 | in whatever order the map is walked, the buffer is emptied, and each batch goes through one indexing call with its own outcome |
| ElasticBuffer.Index | plugins/application/elasticsearch/pkg/lib/client.go:162-195 | document by document up to the first failure, or all or nothing in bulk: how many documents are acknowledged |
| ElasticPipeline.PerIndexOrder | plugins/application/elasticsearch/main.go:93-117 | batches taken, in order, then what waits, are the accepted records of an index; what waits is between 1 and BufferSize - 1 records |
| ElasticPipeline.BatchSizes | plugins/application/elasticsearch/main.go:95-115 | a batch taken by a receiver is full, one taken by the flusher is not |
| ElasticPipeline.RecordsConserved | plugins/application/elasticsearch/main.go:139-193 | each accepted record is buffered, held by a blocked sender, queued, held by a worker, acknowledged by the database, or disregarded behind a failure in its batch, exactly once; the queue never exceeds 512; StoredIsReported and FlushIsReported say which are acknowledged |
| ElasticOutcomes.ReceiveAccepts | plugins/application/elasticsearch/main.go:95-117 | a record is accepted unless the flusher holds the lock of the buffer, and without buffering always |
| ElasticOutcomes.StoredIsReported | plugins/application/elasticsearch/main.go:181-188 | when a worker's indexing call returns, exactly the documents it reports become acknowledged and exactly the rest of its batch disregarded |
| ElasticOutcomes.FlushIsReported | plugins/application/elasticsearch/main.go:150-162 | the same for a batch that the flusher takes out of the buffer |
| ElasticOutcomes.SuccessLosesNothing | plugins/application/elasticsearch/main.go:139-193 | while all indexing calls acknowledge their whole batch, nothing is disregarded: the accepted records wait, are held by a sender, queued, held by a worker or acknowledged |
| ElasticOutcomes.ChannelIsFifo | plugins/application/elasticsearch/main.go:116-181 | what workers have got, followed by what is queued, is what receivers have sent, in order |
| ElasticOutcomes.SendsUntilFull | plugins/application/elasticsearch/main.go:66 | a sender gets its batch into the channel if and only if fewer than 512 are queued; otherwise it stays blocked |
| ElasticOutcomes.FreeWorkerTakes | plugins/application/elasticsearch/main.go:173-182 | any worker that is free can take the batch at the front of the channel |
| ElasticOutcomes.EverythingCanBeStored | plugins/application/elasticsearch/main.go:139-193 | with at least one worker, every run can go on until each accepted record is acknowledged, except those disregarded before |
| CeilometerMetrics.JoinSplit | plugins/handler/ceilometer-metrics/main.go:153-156 | splitting at one character and joining with another replaces that character |
| CeilometerMetrics.GenNameReplacesDots | plugins/handler/ceilometer-metrics/main.go:180-184 | the metric name is the counter name with underscores for dots, behind a prefix |
| CeilometerMetrics.NonEmptyBounds | plugins/handler/ceilometer-metrics/main.go:215-261 | the optional labels kept are exactly the candidates with a value |
| CeilometerMetrics.OptionalLabels | plugins/handler/ceilometer-metrics/main.go:215-280 | an optional label is there if and only if its field has a value, and it goes by the name of that field |
| CeilometerMetrics.LabelOrder | plugins/handler/ceilometer-metrics/main.go:215-280 | when all optional fields have a value, the order of their labels |
| CeilometerMetrics.FirstLabels | plugins/handler/ceilometer-metrics/main.go:186-214 | plugin, publisher and type label for counter names of one, two, and more parts |
| CeilometerMetrics.FillResourceName | plugins/handler/ceilometer-metrics/main.go:263-280 | display name and name are merged into one label through a slot that is written and read before the index moves |
| CeilometerMetrics.FillUserMetadata | plugins/handler/ceilometer-metrics/main.go:281-287 | each metadata entry fills one slot, in any order |
| CeilometerMetrics.GenLabels | plugins/handler/ceilometer-metrics/main.go:186-290 | keys and values are the fixed labels, the non-empty optional ones in order, the merged name and the metadata; no slot outside the slices is touched |
| CeilometerMetrics.Handler.Handle | plugins/handler/ceilometer-metrics/main.go:83-167 | the metrics in front of the first one without a name are published, in order; counters and reported errors |
| SyslogSeverity.TokenScanIsWholeSearch | plugins/handler/logs/pkg/lib/syslog.go:47-63 | a name is in some token exactly when it is in the message, for every token limit |
| SyslogSeverity.FromMessage | plugins/handler/logs/pkg/lib/syslog.go:47-65 | the nested scan finds the most severe level named anywhere in the message, and fails exactly when none is |
| SyslogSeverity.GetSeverityFromLog | plugins/handler/logs/pkg/lib/syslog.go:84-96 | the recovered severity, or the declared one, or unknown; it crashes exactly when a message that is to be consulted is not text, which the only caller rules out (plugins/handler/logs/main.go) |
| SyslogSeverity.RecoveredCode | plugins/handler/logs/pkg/lib/syslog.go:16-45 | the code recovered from a message is k if and only if the message, in lower case, has the k-th level name in it and none before that |
| SyslogSeverity.RecoveredEvent | plugins/handler/logs/pkg/lib/syslog.go:68-80 | a message makes an event critical if and only if it names one of the four highest levels, else a warning if it names that, else an information if it names that or a notice, else debug |
| SyslogSeverity.CorrectedIsMostSevere | plugins/handler/logs/pkg/lib/syslog.go:68-80 | a recovered severity is never less severe than any level the message names |
| SyslogSeverity.TranslationSucceedsIff | plugins/handler/logs/pkg/lib/syslog.go:68-80 | the translation crashes exactly for a declared number outside 0..8 that the message does not correct |
| SyslogSeverity.OutOfRangeExample | plugins/handler/logs/pkg/lib/syslog.go:84-91 | such a record: severity 9, with messages not consulted |

## Left out

- SocketTransport.Socket.ReceiveData: for TCP, all bytes still to come must be countable in an int64, less one header; the dump file, logging and the handling of read errors other than ending the loop are not modelled.
- SocketTransport.Socket.WriteTCPMsg: the write function is the list of its arguments; it gets a copy, so a later change of the shared buffer by its receiver is not captured.
- Connections.LogPerConnection: `msgCount` is unbounded here; the reported message rate, which reads it twice without a lock, is not modelled.
- MetricCache: receiving, scraping and sweeping are single steps there; the finer grain is in ExpiryProtocol, ExpiryRaces and CollectorRaces.
- CollectorRaces.SampleCanBeOrphaned: counting the entries of a collector is one step; which collectors a scrape visits is the business of the registry, and a scrape that is under way may still visit a collector that is dropped meanwhile.
- ExpiryProtocol.CacheMissIsUnreachable: the collector of a call is arbitrary, because a collector sweep may replace it at any time; a sweep of a list is one goroutine, and receiving calls exclude each other.
- ExpiryBounds.ExpiryTimeBound: timers are exact and a sweep takes no time; an expiry time within a second of the largest int64 would make the timer wrap and fire at once. One sweep reads the clock once.
- PrometheusApplication: collectors and expiry records are positions in lists of everything ever created, instead of pointers, so aliasing is equality of positions; garbage collection is not modelled.
- PrometheusApplication.Prometheus.Collect: the checks of the client library are a parameter, and what it refuses is left out of the result, as in the source; `Describe`, the registry, `MustRegister` and `Unregister` are not modelled. Collectors are empty when they are registered, so nothing is claimed about the registry.
- ExpiryRaces.PrematureIffOverlap: the clock does not go back between two readings, and a comparison of times does not overflow; for a negative expiry time, which only wrap-around or a negative interval gives, PrematureIff has the condition.
- EventBus: `Publish` is a call that does not wait; `MetricBus`, which has the same loop without the wait group, is not modelled separately. That a waiting writer holds up new readers only removes interleavings. The wait group is that of Go's library, whose checks are two: a count raised from zero before the waiters are let go, and a waiter that comes to itself and finds a count or other waiters; after a crash nothing moves.
- ElasticPipeline.RecordsConserved: up to shutdown; records buffered or queued when the context ends are not flushed. A document counts as acknowledged when its request succeeded; what a failing request did in the database, and failures of single documents inside a successful bulk request, are not known to the client. Encoding of records and index deletion at the start are left out.
- CeilometerMetrics.GenLabels: keys may repeat, and user metadata comes in any order, so it is compared as a multiset; the parsers of the message and of time stamps are parameters, and numbers are reals.
- SyslogSeverity.FromMessage: lower-casing is a parameter that works character by character and keeps spaces apart from everything else; number parsing is a parameter.
- Data races on fields that are read without a lock, sockets, AMQP, HTTP, files, configuration, logging and plugin loading.
- Regular expressions of the collectd sanitiser and of source detection, timestamp layouts, and the handlers and applications that only pass values on.

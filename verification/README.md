# Verified model of Space Data Network components

A Dafny model of nine stateful components of the Space Data Network: the kubo block garbage collector, the
custom-router builder with its HTTP-provider query, the routing-header codec and subscription manager of
`sdn-js`, the p2p stream registry, the shared-repository registry, the seekable remote file, the profile
cache and the request log. `dafny verify dfyconfig.toml` checks the whole project.

Objects that the source updates in place are classes; what their methods are held to is stated on values, so
that lemmas can speak of whole runs. I/O, clocks and failures are either parameters or free choices (`*`), and
the contracts hold for every choice.

| file | component |
|---|---|
| `Dag.dfy`, `GarbageCollector.dfy` | mark-and-sweep collection of the block store |
| `Routers.dfy` | router configuration, builder and HTTP-provider query |
| `Numbers.dfy`, `RoutingHeader.dfy` | floating-point integers; basic and extended routing headers, framed messages |
| `Subscriptions.dfy` | subscription manager and rate limiter |
| `Streams.dfy` | registry of forwarded p2p streams |
| `OnlyOne.dfy` | one open repository per key |
| `ApiFile.dfy` | remote file with forward-skipping seeks |
| `EpmCache.dfy` | bounded cache of entity profiles |
| `ReqLog.dfy` | request log with in-place compaction |

## Main results

- **Garbage collection.** Under every order of roots, visits and expansions, every failing read or delete and
  every moment of cancellation, a block is deleted only if all marking obligations were met and no wanted CID
  shares its multihash. Marking succeeds iff the store is markable, and then marks exactly the wanted set, which
  is also stated in terms of pins and links alone, for CIDs of both versions. A cancelled run may come out of
  marking with a partial set, because its pin streams may close early without an error; it deletes nothing,
  because the sweep looks at the context first.
- **Phase order.** Direct pins are added before the internal walk and are not walked, so the internal walk
  does not look behind a block that only a direct pin marks. Everything that an internal pin reaches is kept iff
  no such block hides any of it; a markable store where one does loses a block.
- **Routers.** `Parse` succeeds iff the methods are the five supported names and all they depend on is defined,
  of a known type, constructible and free of dependency loops. Each failure names a true culprit, so a shared
  dependency is never reported as a loop. Each name needed is built once and no other name is, and each router
  is the unique tree that its configuration unfolds to. On an accepted configuration the unguarded HTTP query
  returns and agrees with the built tree. On any configuration it runs forever iff it comes back to a name along
  children that it gets to, that is, whose earlier siblings reach neither an HTTP router nor a loop; else it
  returns within one nested call per defined name and one more.
- **Headers.** The extended format returns the normalised header iff the header fits its length bytes and its
  numbers, which are floating-point integers, lie in [0, 2^64). A frame returns header and payload iff moreover
  the encoded header is shorter than 65536 bytes, which the field limits do not imply. Both formats and the frame
  are laid out byte by byte, and the two formats read each other as stated below.
- **Subscriptions.** Through any trace, each subscription fares and emits as it would alone. A message makes it emit
  iff it is there, no pause is standing, and it asked for the message. A subscription with limit L accepts at most
  L messages per window and at most 2L - 1 in any half-open minute by the clock of the checks. By the earlier
  stamps that its events carry, a minute can hold 2L, and no more. Both are attained, and both hold of a manager
  that has run any trace before. Message counts are what the manager emitted.
- **Remote file.** Over any run of reads and seeks on any transport, the bytes are those of a response freshly
  opened at the position, and the run crashes iff it reads or skips forward after a reopening that failed and was
  not repeated. With the transport doing its part, skipping forward is the same as reopening.
- **Registries, cache, log.** Invariants and refinements over all runs, each with the exact condition where the
  plain property is false: a stream id still in use after 64-bit wrap-around, a handle counter that wraps, an
  empty cache key, an entry logged twice, a clear before the end of a request.

Where the code and its comments disagree, the model follows the code: the cache comment speaks of enforcing the
maximum size, which an empty key defeats (`AddToCache`, `EmptyKeyOverflows`); the comment on `GC` says that all
blocks the pinner uses internally are marked, but a direct pin can hide some of them (`DirectPinHidesChildren`).

## Model

| member | source | states |
|---|---|---|
| Dag.StoppingInClosed | kubo/gc/gc.go:190-193 | a walk that stops at blocks of a link-closed set misses only blocks of that set |
| Dag.ChildIsLink | kubo/gc/gc.go:158-165 | a child is what a link of the block names, whatever the CID versions, a version 0 CID being dag-pb |
| Dag.ReachesIffChain | kubo/gc/gc.go:190-208 | reachability is following links as the blocks hold them |
| GarbageCollector.ExploredIsExact | kubo/gc/gc.go:190-193 | when no visit or expansion is pending, the set is the start set plus exactly what the roots reach around it |
| GarbageCollector.VisitStep | kubo/gc/gc.go:191-193 | a visit keeps the walk invariant, whichever pending CID is taken and whichever version it has |
| GarbageCollector.ExpandStep | kubo/gc/gc.go:158-165 | expanding a visited block keeps the walk invariant |
| GarbageCollector.BestEffortPhase | kubo/gc/gc.go:252-271 | stopping at recursively marked blocks loses nothing, and the phase fails iff a best-effort root reaches an invalid or unreadable block |
| GarbageCollector.InternalPhase | kubo/gc/gc.go:281-290 | the internal walk adds exactly what is reached without leaving a direct-only block, and fails iff such a block is unreadable |
| GarbageCollector.PhasesCombine | kubo/gc/gc.go:229-296 | the phase verdicts together equal markability, and the final set is the wanted one |
| GarbageCollector.WantedAlongWalk | kubo/gc/gc.go:281-290 | along a walk from an internal pin every block is kept, unless a direct-only block hides the next |
| GarbageCollector.InternalPinsClosed | kubo/gc/gc.go:273-290 | all that internal pins reach is kept iff no direct-only block hides any of it, and what is kept is then the plain closure of all walked roots, plus the direct pins |
| GarbageCollector.DirectPinHidesChildren | kubo/gc/gc.go:273-282 | a markable store where the multihash of a present block reachable from an internal pin is not kept |
| GarbageCollector.WantedMeans | kubo/gc/gc.go:210-297 | a block is wanted iff links lead to it from a recursive pin or best-effort root, it is pinned directly, or links lead to it from an internal pin around direct-only blocks |
| GarbageCollector.PinsAreSafe | kubo/gc/gc.go:203-296 | no key that goes shares a multihash with anything down the links of a recursive pin or best-effort root, or with a direct or internal pin |
| GarbageCollector.ReadableMeans | kubo/gc/gc.go:217-251 | a block is readable iff its CID is valid and its node holds links, or best effort allows it to be missing |
| GarbageCollector.ReportSnoc | kubo/gc/gc.go:110-122 | each report adds its key to the removed or the failed keys and nothing else |
| GarbageCollector.SweptStep | kubo/gc/gc.go:97-127 | one listed key, kept, deleted or stuck, keeps the account of the sweep |
| GarbageCollector.Collector.Send | kubo/gc/gc.go:118-122 | only a cancelled run fails to deliver a report |
| GarbageCollector.Collector.FetchLinks | kubo/gc/gc.go:217-251 | yields the links, and raises the error flag and reports iff the mode does not tolerate the fault |
| GarbageCollector.Collector.VerifyGetLinks | kubo/gc/gc.go:158-165 | fails the walk only on an invalid CID or on cancellation |
| GarbageCollector.Collector.Visit | kubo/gc/gc.go:191-193 | marks a CID in its version 1 form and hands it to be expanded iff it was unmarked |
| GarbageCollector.Collector.Expand | kubo/gc/gc.go:158-165 | queues the links of a visited block; errors arise only from a block that cannot be read |
| GarbageCollector.Collector.Drain | kubo/gc/gc.go:190-193 | concurrent visits and expansions in any order terminate with the walk complete, or fail with a cause |
| GarbageCollector.Collector.Walk | kubo/gc/gc.go:190-197 | one more root extends what the phase has explored |
| GarbageCollector.Collector.Descendants | kubo/gc/gc.go:157-200 | uncancelled, fails iff the stream breaks or a newly reached block is unreadable, and else marks exactly the reached blocks |
| GarbageCollector.Collector.ReportPhase | kubo/gc/gc.go:231-238 | a failed phase raises the error flag for good |
| GarbageCollector.Collector.MarkDirect | kubo/gc/gc.go:273-279 | adds exactly the direct pins, and gives up iff their stream breaks |
| GarbageCollector.Collector.ColoredSet | kubo/gc/gc.go:212-297 | uncancelled, succeeds iff the store is markable and then returns exactly the wanted set; else the error tells whether the direct pins broke |
| GarbageCollector.Collector.ToRawCids | kubo/gc/gc.go:31-39 | the raw CIDs whose multihash some marked CID has |
| GarbageCollector.Collector.SweepKey | kubo/gc/gc.go:105-123 | the report of a deletion tells whether it happened |
| GarbageCollector.Collector.DeleteUnmarked | kubo/gc/gc.go:93-127 | every listed key outside the set is gone or accounted as stuck, until done or cancelled |
| GarbageCollector.Collector.Sweep | kubo/gc/gc.go:93-134 | uncancelled, reports removed and failed keys exactly, each once, and the closing error iff some delete failed |
| GarbageCollector.Collector.GC | kubo/gc/gc.go:50-152 | safety of pins and of all they link to in every run, and completeness with honest reporting in every run that is not cancelled |
| Routers.CheckMethods | kubo/config/routing.go:70-97 | accepts exactly the five names, else names a missing or an unsupported one |
| Routers.Compose | kubo/routing/delegated.go:56-67 | each method is served by the router built for it |
| Routers.UnfoldingUnique | kubo/routing/delegated.go:101-154 | a name denotes at most one router, its children with the configured timeouts, delays and error handling |
| Routers.CoherentUnfolds | kubo/routing/delegated.go:82-86 | every memoised router is the ordered unfolding of its configuration |
| Routers.PathDescends | kubo/routing/delegated.go:108-145 | along dependencies memoised routers only get shorter |
| Routers.CoherentBuildable | kubo/routing/delegated.go:82-154 | a memoised name depends only on memoised, sound names and on no loop |
| Routers.StackLoops | kubo/routing/delegated.go:88-94 | a name met while on the stack lies on a dependency loop |
| Routers.ExplainedNotBuildable | kubo/routing/delegated.go:88-152 | every reported failure refutes buildability |
| Routers.Builder.Memoise | kubo/routing/delegated.go:154-158 | memoising takes the name off the stack and logs it for the first time |
| Routers.Builder.Parse1 | kubo/routing/delegated.go:75-159 | keeps "visited but not built is exactly the stack", terminates, and succeeds with the memoised router or fails truthfully |
| Routers.Builder.Construct | kubo/routing/delegated.go:101-152 | builds a node from the memoised routers of its children, or a leaf whose parameters are right |
| Routers.Builder.ParseChildren | kubo/routing/delegated.go:108-145 | the children's routers in order, or the failure of one of them |
| Routers.Builder.ParseFresh | kubo/routing/delegated.go:49-54 | a method starts with nothing visited and keeps what earlier methods built |
| Routers.Builder.ParseMethods | kubo/routing/delegated.go:46-70 | in any method order, all methods are served or some method is truthfully blamed |
| Routers.Builder.Parse | kubo/routing/delegated.go:41-73 | succeeds iff the methods are right and buildable; unfoldings with every child as configured, and each needed name built once |
| Routers.SupportsUnfolding | kubo/config/routing.go:249-270 | on a name that unfolds to a tree the query returns, with the tree's answer |
| Routers.AnySupportsUnfolding | kubo/config/routing.go:259-267 | the loop over children finds an HTTP leaf iff one of the remaining children has one |
| Routers.ProvideAgreement | kubo/config/routing.go:234-245 | for an accepted configuration the provider query equals "the provide router has an HTTP leaf" |
| Routers.ProviderQuery | kubo/config/routing.go:234-270 | on every configuration, a yes has an HTTP router below the provide method, a no has none and no loop, and the query runs forever iff it comes back to a name there |
| Routers.SelfLoopNeverReturns | kubo/config/routing.go:249-270 | a router that includes itself first makes the query run forever |
| Routers.TrueHasHttp | kubo/config/routing.go:249-270 | an answer of yes has a path of dependencies to an HTTP router |
| Routers.FalseIsQuiet | kubo/config/routing.go:249-270 | after an answer of no, nothing reachable is an HTTP router or lies on a loop |
| Routers.AsksChild | kubo/config/routing.go:259-267 | a query that returns has the answer of every child whose earlier siblings it passes over |
| Routers.LiveLoopNeverReturns | kubo/config/routing.go:249-270 | a loop of children that the query gets to is followed at every depth |
| Routers.CutShort | kubo/config/routing.go:249-270 | a query cut short at depth d was inside a chain of d nested calls, all on defined names |
| Routers.LiveLoopRunsForever | kubo/config/routing.go:249-270 | a query that comes back to a name runs forever |
| Routers.UnansweredHasLiveLoop | kubo/config/routing.go:249-270 | a query without an answer after one call per defined name and one more has come back to a name |
| Routers.RunsForeverIffLiveLoop | kubo/config/routing.go:249-270 | the query runs forever iff it comes back to a name, and else returns within one call per defined name and one more |
| Numbers.RoundRestIsNumber | sdn-js/src/subscription.ts:1027-1029 | rounding yields a floating-point integer |
| Numbers.NumberStays | sdn-js/src/subscription.ts:1027-1029 | a floating-point integer is not rounded |
| Numbers.RoundStaysBetween | sdn-js/src/subscription.ts:1027-1029 | rounding crosses no floating-point integer |
| Numbers.ShortFormMeans | sdn-js/src/subscription.ts:1027-1029 | a floating-point integer is a 53-bit significand times a power of two |
| Numbers.RoundIsNearest | sdn-js/src/subscription.ts:1027-1029 | rounding is to the nearest such integer, and to the even one of two |
| Numbers.OnesRoundUp | sdn-js/src/subscription.ts:1027-1029 | more than 53 ones round up to the next power of two |
| RoutingHeader.MaskIsRemainder | sdn-js/src/subscription.ts:917-917 | masking the mode with 3 is its remainder by 4 |
| RoutingHeader.FlagsAreMasks | sdn-js/src/subscription.ts:911-918 | the flag byte is the disjunction of the masks and the masked, shifted mode |
| RoutingHeader.FlagsOfLowByte | sdn-js/src/subscription.ts:917-918 | only the low byte of the mode matters |
| RoutingHeader.TestsAreMasked | sdn-js/src/subscription.ts:989-995 | the flag tests are the masked tests, on every byte |
| RoutingHeader.FlagsIndependent | sdn-js/src/subscription.ts:911-918 | flags and mode bits are read back without interfering |
| RoutingHeader.NormaliseIdempotent | sdn-js/src/subscription.ts:907-949 | normalising twice is normalising once, and does not change the encoding |
| RoutingHeader.GetPutStrings | sdn-js/src/subscription.ts:975-983 | short strings are read back in order and nothing after them is touched |
| RoutingHeader.GetPutU64 | sdn-js/src/subscription.ts:941-951 | the two big-endian words carry every integer modulo 2^64 |
| RoutingHeader.GetNumber | sdn-js/src/subscription.ts:1027-1029 | the two words read as one number, between 0 and 2^64 |
| RoutingHeader.GetPutNumber | sdn-js/src/subscription.ts:941-951 | a number is read back from its words iff it lies in [0, 2^64) |
| RoutingHeader.GetPutBasic | sdn-js/src/subscription.ts:262-314 | the shared part is read back normalised, followed by exactly what followed it |
| RoutingHeader.EncodeLength | sdn-js/src/subscription.ts:873-890 | the precomputed size is the encoded length |
| RoutingHeader.U64Digits | sdn-js/src/subscription.ts:941-951 | the eight bytes are the base-256 digits of the integer, most significant first |
| RoutingHeader.PutStringsLayout | sdn-js/src/subscription.ts:900-905 | each destination lies after the ones before it, with its length byte |
| RoutingHeader.PutBasicLayout | sdn-js/src/subscription.ts:262-312 | where each shared field lies, whatever follows |
| RoutingHeader.BasicLayout | sdn-js/src/subscription.ts:262-314 | the basic format byte by byte: lengths, strings, clamped ttl and priority, flag byte, session key |
| RoutingHeader.ExtendedLayout | sdn-js/src/subscription.ts:868-954 | the extended format byte by byte, ending in the big-endian sequence and timestamp |
| RoutingHeader.ExtendedRoundTrip | sdn-js/src/subscription.ts:868-1046 | decoding an encoded header gives its normal form iff the header fits |
| RoutingHeader.DecodedFits | sdn-js/src/subscription.ts:960-1046 | whatever the bytes, the strings of a decoded header fit, and its numbers do iff neither was rounded up to 2^64 |
| RoutingHeader.AllOnesDoNotFit | sdn-js/src/subscription.ts:1027-1029 | eight bytes of ones are read as 2^64 |
| RoutingHeader.BasicRoundTrip | sdn-js/src/subscription.ts:262-370 | the same iff for the basic format |
| RoutingHeader.BasicReadsExtended | sdn-js/src/subscription.ts:319-370 | a basic reader sees the basic part of an extended header, iff that part fits |
| RoutingHeader.ExtendedReadsBasic | sdn-js/src/subscription.ts:960-1046 | an extended reader sees a basic header with mode 0, timestamp 0 and nothing else |
| RoutingHeader.FrameLayout | sdn-js/src/subscription.ts:1052-1060 | the frame byte by byte |
| RoutingHeader.RefusedFrames | sdn-js/src/subscription.ts:1065-1078 | exactly which messages are refused |
| RoutingHeader.PayloadIsSuffix | sdn-js/src/subscription.ts:1065-1078 | any accepted message is its length, its header bytes and its payload, with nothing lost between |
| RoutingHeader.SplitFrame | sdn-js/src/subscription.ts:1052-1060 | a message splits where it was joined, unless the two-byte length overflowed |
| RoutingHeader.FrameRoundTrip | sdn-js/src/subscription.ts:1052-1078 | parsing a frame gives normal form and payload iff the header fits and is shorter than 65536 bytes |
| RoutingHeader.FittingHeaderMayOverflowFrame | sdn-js/src/subscription.ts:1056-1057 | a header within all field limits whose frame is misread |
| RoutingHeader.WriteString | sdn-js/src/subscription.ts:894-897 | what is written and what is left to write stay the whole encoding |
| RoutingHeader.WriteBasic | sdn-js/src/subscription.ts:894-925 | the shared part is written up to the extension |
| RoutingHeader.BufferSize | sdn-js/src/subscription.ts:267-278 | the loop computes the size of the shared part |
| RoutingHeader.SerializeBasic | sdn-js/src/subscription.ts:262-314 | the buffer holds exactly the basic encoding |
| RoutingHeader.SerializeExtended | sdn-js/src/subscription.ts:868-954 | the buffer holds exactly the extended encoding and is filled to its size |
| RoutingHeader.ReadString | sdn-js/src/subscription.ts:978-982 | the offset never passes the end, and a truncated string still consumes its length byte |
| RoutingHeader.ReadOptional | sdn-js/src/subscription.ts:997-1022 | an absent or truncated optional string is dropped |
| RoutingHeader.ReadPeers | sdn-js/src/subscription.ts:973-983 | the loop reads the counted strings or fails at the first that is cut off |
| RoutingHeader.ReadBasic | sdn-js/src/subscription.ts:319-360 | the offset version of the shared reader, on arbitrary bytes |
| RoutingHeader.DeserializeBasic | sdn-js/src/subscription.ts:319-370 | computes the basic decoding |
| RoutingHeader.DeserializeExtended | sdn-js/src/subscription.ts:960-1046 | computes the extended decoding |
| Subscriptions.MessageReaches | sdn-js/src/subscription.ts:519-576 | a message makes a subscription emit iff it is active and the schema, some listed peer or "all", the encryption flag and every filter match |
| Subscriptions.InOrderIsValid | sdn-js/src/subscription.ts:198-239 | which configurations are valid, part by part |
| Subscriptions.ConfigTaken | sdn-js/src/subscription.ts:397-420 | a subscription is created, active and with nothing counted, iff its configuration is in order |
| Subscriptions.UpdateMerges | sdn-js/src/subscription.ts:439-453 | an update replaces each given field and keeps every other, iff the result is in order |
| Subscriptions.StatusIsLast | sdn-js/src/subscription.ts:478-511 | through any trace, a subscription is paused iff a pause has not been ended since |
| Subscriptions.HeardUnlessPaused | sdn-js/src/subscription.ts:478-577 | through any trace, a message is heard iff no pause is standing and it was asked for |
| Subscriptions.RemovalForgets | sdn-js/src/subscription.ts:458-473 | after a removal an id fares as if it were never used |
| Subscriptions.StepsHear | sdn-js/src/subscription.ts:516-578 | in a manager, exactly the active subscriptions that asked for a message emit |
| Subscriptions.RunsSnoc | sdn-js/src/subscription.ts:397-578 | one more operation keeps every subscription in step with its standalone run |
| Subscriptions.ServedSnoc | sdn-js/src/subscription.ts:519-577 | serving one more subscription leaves the others as they were |
| Subscriptions.MessageCountIsDelivered | sdn-js/src/subscription.ts:563-576 | alone, message count and last message time are those of the messages emitted since creation |
| Subscriptions.ManagerCounts | sdn-js/src/subscription.ts:389-576 | the same for every subscription of a manager, through any trace |
| Subscriptions.OpensWindow | sdn-js/src/subscription.ts:588-591 | a check that opens a window passes, and keeps every minute within its bound |
| Subscriptions.StaysInWindow | sdn-js/src/subscription.ts:593-598 | so does a check inside a window, whether it passes or not |
| Subscriptions.WindowInvariant | sdn-js/src/subscription.ts:583-599 | from any open counter, a window holds as many passes as its counter grew, at most the limit, and every minute stays within its bound |
| Subscriptions.RateBound | sdn-js/src/subscription.ts:583-599 | no half-open minute holds more than 2L - 1 passes |
| Subscriptions.OneStraddles | sdn-js/src/subscription.ts:517-584 | at most one message stamped in a minute is checked after it |
| Subscriptions.StampedRateBound | sdn-js/src/subscription.ts:517-599 | no minute holds the stamps of more than 2L passes |
| Subscriptions.BurstPasses | sdn-js/src/subscription.ts:583-599 | the counter and the passes throughout a burst around a window's end |
| Subscriptions.RateBoundIsMet | sdn-js/src/subscription.ts:583-599 | for every limit some run attains 2L - 1 |
| Subscriptions.StampedRateBoundIsMet | sdn-js/src/subscription.ts:517-599 | for every limit one delayed check makes it 2L by the stamps |
| Subscriptions.SteadyIsLimiter | sdn-js/src/subscription.ts:551-576 | a subscription with a fixed limit accepts, and stamps, exactly what the limiter passes |
| Subscriptions.ChecksAreStamped | sdn-js/src/subscription.ts:517-584 | on a clock that does not run back, checks and stamps alternate |
| Subscriptions.SubscriptionRateBound | sdn-js/src/subscription.ts:516-599 | alone, such a subscription accepts at most 2L - 1 messages in any half-open minute, and its events show at most 2L |
| Subscriptions.CountersOpened | sdn-js/src/subscription.ts:583-599 | in any run a counter has counted a check, and a check opened its window |
| Subscriptions.ManagerRateBound | sdn-js/src/subscription.ts:389-599 | both bounds for a manager that has run any trace before |
| Subscriptions.TouchesOnly | sdn-js/src/subscription.ts:628-652 | an event is one of its own subscription only |
| Subscriptions.SubscriptionManager.Emit | sdn-js/src/subscription.ts:628-652 | adds one event after all others |
| Subscriptions.SubscriptionManager.CreateSubscription | sdn-js/src/subscription.ts:397-420 | a configuration in order, and no other, starts a subscription and disturbs no other |
| Subscriptions.SubscriptionManager.UpdateSubscription | sdn-js/src/subscription.ts:439-453 | a valid patch changes the configuration and keeps counts and rate counter |
| Subscriptions.SubscriptionManager.RemoveSubscription | sdn-js/src/subscription.ts:458-473 | removal forgets the record and the rate counter of that subscription only |
| Subscriptions.SubscriptionManager.PauseSubscription | sdn-js/src/subscription.ts:478-492 | a paused subscription keeps its counts and rate counter |
| Subscriptions.SubscriptionManager.ResumeSubscription | sdn-js/src/subscription.ts:497-511 | the inverse change of status |
| Subscriptions.SubscriptionManager.CheckRateLimit | sdn-js/src/subscription.ts:583-599 | the counter map changes at one id, as the limiter says |
| Subscriptions.SubscriptionManager.Deliver | sdn-js/src/subscription.ts:519-577 | one subscription receives the message as it would alone, the others nothing |
| Subscriptions.SubscriptionManager.ProcessMessage | sdn-js/src/subscription.ts:516-578 | every subscription receives the message as it would alone, and exactly those active that asked for it emit |
| Subscriptions.SubscriptionManager.RunTrace | sdn-js/src/subscription.ts:389-599 | non-interference through any trace of operations |
| Streams.AddStream | kubo/p2p/stream.go:79-84 | a stream under a free id keeps counts and tags right |
| Streams.OverwriteStream | kubo/p2p/stream.go:79-84 | a stream under an id in use breaks them |
| Streams.DropStream | kubo/p2p/stream.go:94-105 | removing a stream keeps them right, untagging the peer with its last stream |
| Streams.NothingLeft | kubo/p2p/stream.go:98-105 | without streams there are no counts and no tags |
| Streams.StreamRegistry.Register | kubo/p2p/stream.go:75-87 | counts and tags stay right iff the id handed out is not still in use |
| Streams.StreamRegistry.Deregister | kubo/p2p/stream.go:90-106 | keeps the invariant; a repeated call is a no-op |
| Streams.StreamRegistry.Serve | kubo/p2p/stream.go:43-120 | under every interleaving of registrations, both closers per stream and further closes: invariant after each step, distinct ids, nothing left |
| OnlyOne.WrappedIsModulo | kubo/repo/onlyone.go:46-53 | counting up in 32 bits counts modulo 2^32 |
| OnlyOne.Registry.Share | kubo/repo/onlyone.go:33-47 | one more handle on an active reference, whatever its count |
| OnlyOne.Registry.Open | kubo/repo/onlyone.go:26-48 | shares the active reference of a key, else makes a fresh one, else fails without a trace |
| OnlyOne.Registry.Close | kubo/repo/onlyone.go:59-72 | closes the repository iff the counter shows one, and keeps the registry right iff that is when one handle is out |
| OnlyOne.Registry.Session | kubo/repo/onlyone.go:26-72 | any run of opens and disciplined closes, with up to 2^32 handles out at a time, ends with nothing active and every repository closed once |
| ApiFile.SeekOrigins | kubo/client/rpc/apifile.go:126-131 | seeking from the end or the position is seeking from the start with the distance added |
| ApiFile.SeekFromStart | kubo/client/rpc/apifile.go:132-143 | an answered seek within the file arrives; an unanswered one keeps its response iff it goes less than 16384 bytes ahead |
| ApiFile.ReopenedMeans | kubo/client/rpc/apifile.go:78-104 | a read delivers the bytes at the position, as many as wanted, as got through or as are left |
| ApiFile.HeldUnlessReopenFailed | kubo/client/rpc/apifile.go:78-144 | a response is missing iff the last reopening failed |
| ApiFile.CrashesExactly | kubo/client/rpc/apifile.go:98-144 | a run crashes iff it reads or skips forward after a reopening that failed and was not repeated |
| ApiFile.SkippingIsReopening | kubo/client/rpc/apifile.go:125-144 | with answered requests and targets within the file, positions and bytes are those of a reader that reopens at every seek |
| ApiFile.File.Reset | kubo/client/rpc/apifile.go:78-96 | a new response holds the file from the position on; a failed request leaves none |
| ApiFile.File.ReadSome | kubo/client/rpc/apifile.go:98-104 | delivers the bytes at the position, as a freshly opened response would, or crashes iff there is no response |
| ApiFile.File.Take | kubo/client/rpc/apifile.go:98-104 | what is taken from the response and what is left of it stay the file from the position on |
| ApiFile.File.SeekTo | kubo/client/rpc/apifile.go:125-144 | exactly when a seek arrives, stops short or crashes, and where it ends |
| ApiFile.File.Replay | kubo/client/rpc/apifile.go:98-144 | on any transport, any run of reads and seeks delivers and crashes as the run without buffers does |
| EpmCache.Cache.GetFromCache | sdn-js/src/epm-resolver.ts:479-489 | an unexpired entry is returned, an expired one dropped |
| EpmCache.Cache.AddToCache | sdn-js/src/epm-resolver.ts:491-503 | the new contents and order, which key is lost, and exactly when the cache stays within its capacity |
| EpmCache.Cache.Delete | sdn-js/src/epm-resolver.ts:515-517 | drops one key and keeps the order of the others |
| EpmCache.Cache.ClearCache | sdn-js/src/epm-resolver.ts:508-510 | leaves nothing |
| EpmCache.Cache.Apply | sdn-js/src/epm-resolver.ts:479-517 | every operation keeps the cache within the unbounded map and within its bound |
| EpmCache.Cache.StepBeside | sdn-js/src/epm-resolver.ts:479-517 | the same within a run, and exact answers while there is room |
| EpmCache.Cache.Replay | sdn-js/src/epm-resolver.ts:479-517 | each lookup of any run yields nothing or the unbounded map's answer; the size bound; exact answers while no addition meets a full map |
| EpmCache.EmptyKeyOverflows | sdn-js/src/epm-resolver.ts:493-497 | a cache for one entry that holds two |
| EpmCache.ReAddLosesOldest | sdn-js/src/epm-resolver.ts:493-500 | adding a key again to a full cache loses another key |
| ReqLog.FilterMembers | kubo/commands/reqlog.go:69-80 | compaction drops exactly the entries that are neither active nor recent |
| ReqLog.FilterAscends | kubo/commands/reqlog.go:69-80 | compaction leaves identifiers ascending if those that stay ascend |
| ReqLog.TwiceStaysTwice | kubo/commands/reqlog.go:69-80 | an entry logged twice that stays is left twice |
| ReqLog.ClearedIsActive | kubo/commands/reqlog.go:51-59 | clearing leaves exactly the active entries iff no finished entry ends in the future |
| ReqLog.CleanupKeepsLog | kubo/commands/reqlog.go:69-80 | no active entry is ever dropped |
| ReqLog.DroppingRestores | kubo/commands/reqlog.go:69-80 | a cleanup that drops an entry logged twice restores the order |
| ReqLog.RequestLog.Compact | kubo/commands/reqlog.go:69-80 | the two-index loop is the stable filter |
| ReqLog.RequestLog.Cleanup | kubo/commands/reqlog.go:69-80 | the same; the log is in order afterwards iff what stays was |
| ReqLog.RequestLog.MaybeCleanup | kubo/commands/reqlog.go:61-67 | compacts iff the length is a multiple of ten |
| ReqLog.RequestLog.Append | kubo/commands/reqlog.go:43-43 | appends, in place or in a larger copy |
| ReqLog.RequestLog.Number | kubo/commands/reqlog.go:41-42 | numbering keeps the order of all other entries |
| ReqLog.RequestLog.AppendNumbered | kubo/commands/reqlog.go:43-43 | appending changes no number |
| ReqLog.RequestLog.Enter | kubo/commands/reqlog.go:41-43 | numbers ascend iff the entry was not in the log |
| ReqLog.RequestLog.SettleReadded | kubo/commands/reqlog.go:45-47 | a cleanup repairs an entry logged twice iff it drops it |
| ReqLog.RequestLog.AddEntry | kubo/commands/reqlog.go:37-48 | the new log, which is in order iff the entry was not in it or the cleanup drops it |
| ReqLog.RequestLog.Finish | kubo/commands/reqlog.go:103-111 | the entry ends now; the log is compacted as its length says |
| ReqLog.RequestLog.SetKeepTime | kubo/commands/reqlog.go:83-87 | changes the keep time only |
| ReqLog.RequestLog.ClearInactive | kubo/commands/reqlog.go:51-59 | filters with keep time 0 and restores the keep time |
| ReqLog.RequestLog.ClearPast | kubo/commands/reqlog.go:51-59 | once all ends are past, exactly the active entries are left of all ever added |
| ReqLog.RequestLog.Perform | kubo/commands/reqlog.go:37-111 | one action keeps the numbering and the past in the past |
| ReqLog.RequestLog.Replay | kubo/commands/reqlog.go:37-111 | over any run, identifiers number the requests in order and every active one is logged; a run that ends with a clear leaves no other |

## Left out

- The internals of `dag.Walk`: modelled as workers that take pending visits and expansions in any order, expand a block only after the visit that marked it, and stop on a failed link fetch or on cancellation.
- What the library answers when asked for links: any links, "not found" or a failure, the same for both CID versions of a block.
- The GC lock and `CollectGarbage` of the datastore: pins and links are fixed during a run, and the final datastore call deletes no block.
- The block store's key listing: it lists each key once, as a raw CIDv1, as the source itself assumes; only a cancelled run sees it cut short. A failed delete leaves its block in place.
- Construction of HTTP and DHT routers by their libraries: a yes or no that depends on their parameters; decoding of the router configuration from JSON, which pairs type and parameters.
- RoutingHeader.SerializeExtended: fractional numbers are not modelled, because every field is an integer in use; UTF-8 itself is outside the model.
- Subscriptions.SubscriptionManager.ProcessMessage: does not state the order in which different subscriptions emit for one message, because handlers are keyed by subscription; handlers that call back into the manager are not modelled.
- Subscriptions.SubscriptionManager.CreateSubscription: the generated id and the clock are parameters, and the caller does not change the configuration object afterwards; `evaluateFilter` on data values is abstract.
- `clear`, `getRequiredTopics`, the edge relay filter, topic names and `DesktopSubscriptionAPI`: only easy members.
- OnlyOne.Registry.Session: at most 2^32 handles are out at a time, because beyond that a wrapped counter can close a repository with handles out, as the condition in `Close` states.
- Closing the endpoints in `Close` and `Reset` of the stream registry: the registry does not depend on it; a close before registration, which would name id 0, is not modelled.
- ApiFile.File.SeekTo: positions are unbounded integers and the stated file size equals the length of the content; read errors are modelled as short reads.
- `ReadAt`, directories and symlinks of the remote file: requests without shared state.
- Profile parsing, IPNS and gateway lookups, key selection in the profile resolver: placeholders or network access.
- `Report` and the copied fields of log entries: only easy members.
- Everything in `desktop/`, `webui/`, `spacedatastandards-site/`, the remaining kubo configuration and the build scripts: user interface, defaults and tooling.

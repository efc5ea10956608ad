# kim-gate: route registry, push pipeline, identities, completion channels

A Dafny model of the parts of the kim-gate gateway in which state is shared, normalised twice or
truncated, with proofs about every run, every request and every instant.

- **Route registry with leases** (`SortedSet`, `RouteKeys`, `RouteDb`, `UserRouteStore`, `Gateway`,
  `AppPoller`). Any number of gateway servers register, refresh and remove connections in Redis
  and sweep sixteen bucket indexes for expired users. `RouteDb.Apply` gives each atomic call as one
  step on the keys Redis holds; `Run` is any interleaving of steps, with the clock readings of the
  servers as step arguments. The classes carry the history of the shared state as a ghost field,
  so each store method says which step it takes, and the lists it returns are stated directly
  against that history.
- **Theorems about all runs** (`RouteHistory`, `RouteLease`, `RouteConservation`, `RouteFairness`,
  `RouteSharding`, `RouteDrain`): listing equals history, the index covers every lease up to the
  clock lag, insertions are conserved, limited polls starve nobody, the buckets refine one registry
  and repeated sweeps drain it. `AppPoller` ties the fairness and drain results to the sweeps the
  app really runs.
- **Push pipeline** (`RpcService`, `Push`, `PushPipeline`, `Config`): RPC request, normalised event,
  channel, subscriber loop, dispatch.
- **Identities** (`Auth`, `Identity`, `AppGroup`): minting and resolving tokens, parsing the app group.
- **Completion channels** (`Completion`): bounded channels and the goroutines that send on them.
- `Units`, `Network` and `Wrappers` hold the time units, what the network does to a call, and the
  option and result types.

## Assumptions

- All servers share the hash of user ids and the route TTL (`Deployment`). The hash is an arbitrary
  function; nothing depends on its being xxhash.
- Redis time never goes back. Where clocks matter, a register script carries a reading at most
  `skew` milliseconds behind Redis time (`RouteLease.SkewBound`); `skew` is arbitrary; only
  the fairness results (`RouteFairness` and those of `AppPoller` on waiting users) need it below the
  TTL, and `RouteFairness.QueueBehindIff` shows that a larger lag lets registrations overtake. Poll cutoffs are arbitrary; the results that need a bound on them say so.
- Redis: HSETEX rejects a lifetime below one second and then the script stops before ZADD; a hash
  field is visible while the clock has not passed its deadline; scores are integers below 2^53.
- A call may fail before it reaches Redis, or its reply may be lost after it took effect
  (`Network.Fault`). The client library may repeat a call on its own: then a script, a poll or a
  publish runs more than once, and each run is a step (or a message) of its own; a poll that is
  repeated after a lost reply is an unanswered poll followed by another.
- Protobuf decodes what it encoded, and a set field leaves at least one byte; signed tokens yield
  their claims under the same secret and are texts without white space at the ends; NumericDate has
  a precision of one second.
- White space is Unicode's White_Space property, as in Go's `unicode.IsSpace`. Strings are sequences
  of characters; their order is Go's, because UTF-8 keeps code point order.

## Where the source does not meet its own promise

- A TTL below one second passes the constructor's check but every registration then fails:
  `RouteHistory.RegistrationWorksIff`, `RouteHistory.NothingRegistered`.
- A user handed out by a poll may still have a running route. That never happens exactly if every
  poll's cutoff lies further behind Redis time than the server clocks do, less the milliseconds that
  the whole-second lease drops from the TTL: `RouteLease.HandsOutGoneUsersIff`. The failing run, with
  one registration by a lagging clock, is `RouteLease.LaggingClockWitness`.
- A poll whose reply is lost has removed its users from the index, and no callback sees them:
  `RouteConservation.LostAnswerExample` is such a run. Nobody is lost exactly if no answer is lost of
  a poll whose bucket holds, at that moment, a user whose score the cutoff has reached
  (`RouteConservation.NobodyLostIff`); `RouteConservation.InsertedIsReceivedLostOrIndexed` accounts
  for everybody.
- A push RPC whose publish succeeded answers Internal when the reply is lost, and is delivered all
  the same: `PushPipeline.FailedYetDelivered`.
- A minted token is refused by the lifetime check of its own issuer when the second fractions of
  clock and lifetime carry, and `JWTExpiration` 0, documented as unlimited in
  docs/superpowers/specs/2026-05-20-jwt-auth-design.md, mints tokens that are expired at once:
  `Auth.MintedResolvesIff` gives the exact condition for a token, `Auth.MintsGoodTokensIff` for a
  configured lifetime (a positive number of whole seconds), `Auth.CarryingLifetimeExample` and
  `Auth.ZeroLifetimeExample` the inputs.
- GetToken accepts ids that contain `:`, but the hub refuses their identity:
  `Identity.IdentityRoundTrip` gives the exact condition, `Identity.ColonExample` an input.

## Model

| member | source | states |
|---|---|---|
| SortedSet.ZAddOverwrites | internal/data/user_route.go:31 | ZADD keeps the index well formed and changes the score of exactly one member |
| SortedSet.RankOrder | internal/data/user_route.go:36-53 | rank order is ascending in the score, and within a score ascending in the member |
| SortedSet.RangeByScoreIsPrefix | internal/data/user_route.go:40-45 | the entries selected by score are a prefix of rank order |
| SortedSet.PollRemovesWhatItReturns | internal/data/user_route.go:36-53 | removing ranks 0..count-1 removes exactly the returned entries; a poll short of its limit leaves nothing expired |
| SortedSet.PollScores | internal/data/user_route.go:36-53 | polled members lose their score, all others keep it |
| SortedSet.DrainIsOneBigPoll | internal/data/user_route.go:36-53 | polling with one cutoff in batches of any limit hands out the unlimited poll's list, in order, in ceil(n/limit) batches |
| RouteKeys.ItoaInjective | internal/data/user_route.go:283-289 | different buckets print differently |
| RouteKeys.ItoaIsDecimal | internal/data/user_route.go:283-289 | a bucket prints as its decimal, without leading zeros |
| RouteKeys.KeyFormats | internal/data/user_route.go:18-19 | the texts of both keys |
| RouteKeys.UserRouteKeyInjective | internal/data/user_route.go:283-285 | a route key determines bucket and user, whatever characters the user id holds |
| RouteKeys.UserExpireKeyInjective | internal/data/user_route.go:287-289 | an expire key determines its bucket |
| RouteKeys.RouteKeyIsNotExpireKey | internal/data/user_route.go:283-289 | route keys and expire keys never meet |
| RouteKeys.RegisterKeysShareSlot | internal/data/user_route.go:258-264 | both keys of a register script have the bucket's decimal as hash tag, for every user id (Redis Cluster specification, section "Hash tags") |
| RouteDb.WholeSecondsTruncates | internal/data/user_route.go:268 | the lease is the TTL truncated toward zero to whole seconds |
| RouteDb.ExpireScoreIs | internal/data/user_route.go:269 | the score is the millisecond in which clock reading plus TTL falls |
| RouteDb.BucketsByHash | internal/data/user_route.go:275-277 | users share a bucket exactly when their hashes agree modulo sixteen, white space ignored, and each bucket is reached by the hashes of its residue |
| RouteDb.RunPlaced | internal/data/user_route.go:130-160 | in every reachable state a user's routes and index entry live only under the bucket of that user, and everything stored is trimmed and not blank |
| RouteDb.RouteEffect | internal/data/user_route.go:23-34 | a route changes only by registrations and removals of that user and connection |
| RouteDb.ScoreEffect | internal/data/user_route.go:23-53 | a score changes only when the user registers or is handed out, and only users due in the polled bucket are handed out |
| RouteHistory.RouteIsLastWritten | internal/data/user_route.go:130-160 | the stored lease is the one the last registration wrote, and there is none if a removal came after |
| RouteHistory.ListingIsHistory | internal/data/user_route.go:193-223 | a pair is listed if and only if the last successful event on the connection is a registration by that server whose whole-second lease still runs |
| RouteHistory.PingedConnectionIsListed | internal/gateway/gateway.go:187-206 | a connection pinged within its lease and not removed since is never missing |
| RouteHistory.AbandonedRouteDies | internal/gateway/gateway.go:161-206 | a route left behind by a late ping or a failed removal dies one lease after its last registration |
| RouteHistory.RegisteredRouteShows | internal/data/user_route.go:145-160 | a registration that reaches Redis shows at once under its server |
| RouteHistory.RemovedRouteGone | internal/data/user_route.go:130-143 | a removal that reaches Redis takes effect at once |
| RouteHistory.RegistrationWorksIff | internal/data/user_route.go:102-119 | for the TTLs the constructor accepts, registering works exactly from one second on |
| RouteHistory.NothingRegistered | internal/data/user_route.go:266-272 | below one second the registry stays empty through every run |
| RouteLease.ScoreOutlastsLease | internal/data/user_route.go:265-272 | the score exceeds clock reading plus whole-second lease by the milliseconds the lease drops from the TTL, to within a millisecond |
| RouteLease.LeaseIndexSafety | internal/data/user_route.go:23-53 | a route with deadline d is indexed at d + margin - skew or later, or was handed out with such a cutoff and not registered since |
| RouteLease.HandedOutUserIsDone | internal/data/user_route.go:225-252 | a user handed out has no route living more than skew - margin past the cutoff |
| RouteLease.HandedOutUserIsGone | internal/data/user_route.go:225-252 | a poll more than skew - margin behind Redis time hands out only users with no listed connection |
| RouteLease.HandsOutGoneUsersIff | internal/data/user_route.go:225-273 | for every TTL of at least a second, every skew, limit and distance of the cutoff: no run hands out a user with a listed connection if and only if that distance exceeds skew - margin |
| RouteLease.FullPollHandsOut | internal/data/user_route.go:40-45 | a poll without limit hands out every due user of its bucket |
| RouteLease.LaggingClockWitness | internal/data/user_route.go:258-273 | the failing run for every distance up to that bound: a registration by a clock lagging by the skew, time, a poll; the user is handed out and the connection is listed |
| RouteConservation.ReturnedOnce | internal/data/user_route.go:36-53 | one poll names a user at most once |
| RouteConservation.TakenIsReceivedOrDropped | internal/data/user_route.go:225-252 | a user a step takes is received by a poller or dropped with a lost answer, never both |
| RouteConservation.InsertedIsReceivedLostOrIndexed | internal/data/user_route.go:23-53 | for every run and user: insertions = receipts by a poller + removals whose answer was lost + (1 if still indexed) |
| RouteConservation.PollTakesSomebodyIff | internal/data/user_route.go:36-53 | a poll, with whatever limit, takes somebody if and only if its bucket holds a user whose score the cutoff has reached |
| RouteConservation.NobodyLostIff | internal/data/user_route.go:225-252 | no user is lost in a run if and only if no answer is lost of a poll whose bucket holds, before it, a user with a score at or below the cutoff |
| RouteConservation.LostAnswerExample | internal/data/user_route.go:225-252 | a run in which a user is inserted once, received never and no longer indexed |
| RouteConservation.RegisteredBetweenPolls | internal/data/user_route.go:23-53 | between two polls that take a user there is a registration of that user |
| RouteConservation.FilterDropsNothing | internal/data/user_route.go:240-251 | the blank filter drops nothing in a reachable state |
| RouteFairness.LaterRegistrationsQueueBehind | internal/data/user_route.go:258-273 | once Redis time reached a score, no later registration gets a score at or below it, if clocks lag by less than the TTL |
| RouteFairness.QueueBehindIff | internal/data/user_route.go:258-273 | that holds in every run if and only if the lag is below the TTL |
| RouteFairness.AheadStep | internal/data/user_route.go:23-53 | nobody overtakes a waiting user, and each qualifying poll moves the user up by the limit |
| RouteFairness.NoStarvation | internal/data/user_route.go:225-252 | with r entries ahead, a due user is registered again, received by a poller, or taken by a poll whose answer is lost, before r/limit + 1 polls of the bucket have gone by; if no unanswered poll takes somebody, the third never happens |
| RouteSharding.ShardingRefinesOneRegistry | internal/data/user_route.go:254-289 | through every run the bucketed keys are one unsharded registry cut along buckets |
| RouteSharding.PollShards | internal/data/user_route.go:225-252 | polling a bucket is taking that bucket's entries out of the one index |
| RouteSharding.ListingIgnoresSharding | internal/data/user_route.go:193-223 | listing a user gives the same connections as the unsharded registry |
| RouteDrain.LimitedPollsDrain | internal/data/user_route.go:225-252 | amid any steps but registrations, with a cutoff of its own for every poll: users not taken stay indexed and nobody is taken twice; every bucket answers empty if it was polled ceil(due/limit) times past the cutoff, and only if, when there are no other polls; and exactly then the due users taken are a permutation of one unlimited poll of the single index |
| RouteDrain.SweepsDrain | internal/app/app.go:132-152 | k sweeps with a positive limit and moving cutoffs leave every bucket answering empty if no bucket had more than k * limit due users, and only if, when nobody else polls; exactly then they took a permutation of the one unlimited poll from among the due |
| RouteDrain.OneCutoffDrain | internal/data/user_route.go:36-53 | with no cutoff past the given one, a drain takes exactly the users of one unlimited poll and leaves exactly its index |
| RouteDrain.SweepIsOnePoll | internal/data/user_route.go:40-45 | without a limit one sweep hands out a permutation of one poll of the single index and leaves what that poll leaves |
| Sorting.SortSlice | internal/data/user_route.go:219-221 | a permutation sorted by key, ascending |
| Sorting.SortedByIff | internal/data/user_route.go:219-221 | sorted by a key means ascending in it, in the sense of Text.LessIff |
| UserRouteStore.UserRouteStore.New | internal/data/user_route.go:102-120 | a store exists exactly for a client, a positive TTL and a server id that is not blank; otherwise the error names the first that is missing |
| UserRouteStore.UserRouteStore.RefreshConnection | internal/data/user_route.go:122-160 | one Register step or none; the error for each case; after success the route is listed |
| UserRouteStore.UserRouteStore.RemoveConnection | internal/data/user_route.go:130-143 | one Remove step or none; the error for each case; after success the route is gone |
| UserRouteStore.UserRouteStore.ListUserServerIDs | internal/data/user_route.go:162-191 | strictly sorted, and exactly the servers the history says the user is connected to, in whatever order the map is walked |
| Text.StrictlySortedIff | internal/data/user_route.go:189 | strictly sorted means ascending, none twice |
| UserRouteStore.UserRouteStore.ListUserConnections | internal/data/user_route.go:193-223 | strictly sorted by connection, and exactly the leased connections of the history with their servers |
| UserRouteStore.SortedByConnectionIff | internal/data/user_route.go:219-221 | sorted by connection means ascending in the connection ids, none twice |
| UserRouteStore.UserRouteStore.PollExpiredUsers | internal/data/user_route.go:225-252 | input errors change nothing; otherwise one Poll step, and the callback gets every removed user if the reply arrives |
| UserRouteStore.UniqueServers | internal/data/user_route.go:176-190 | for any map and any walk through it: the strictly sorted set of trimmed servers that are not blank |
| UserRouteStore.TrimmedConnections | internal/data/user_route.go:207-218 | for any map and any walk through it: each stored pair gives one trimmed route unless a part is blank |
| UserRouteStore.ListingsAgree | internal/data/user_route.go:162-223 | listing servers and connections of one moment: the servers are those of the connections, each once, in order |
| Gateway.Hub.OnConnected | internal/gateway/gateway.go:109-159 | an id that does not parse changes nothing; otherwise the route is registered, failures ignored, and the connection joins its app's group |
| Gateway.Hub.OnDisconnected | internal/gateway/gateway.go:161-185 | one Remove step, after which the connection is not listed |
| Gateway.Hub.OnPing | internal/gateway/gateway.go:187-206 | one Register step, after which the connection is listed under this server |
| AppPoller.App.UserRoutePollInterval | internal/app/app.go:154-163 | half the TTL, rounded down, from two seconds on; exactly one second below that |
| AppPoller.App.PollExpiredUserRoutesOnce | internal/app/app.go:132-152 | one poll per bucket, in bucket order, with other servers at work between them; what is logged is what each bucket gives up at its turn, if the reply arrives |
| AppPoller.App.RunUserRoutePoller | internal/app/app.go:110-130 | the steps of the poller are those of its rounds, one after the other |
| AppPoller.BucketsAreIndependent | internal/app/app.go:136-151 | what a bucket gives up does not depend on how the polls of the other buckets fare, nor on their cutoffs |
| AppPoller.BatchesSpec | internal/app/app.go:136-151 | a batch is logged for exactly the buckets that answered with somebody |
| AppPoller.SweepIsVisit | internal/app/app.go:132-152 | wherever in a run a sweep stands, its sixteen polls are a round there, in bucket order |
| AppPoller.SweepsServe | internal/app/app.go:110-152 | with r entries ahead of a due user, any run that holds r/128 + 1 rounds, of whichever servers and amid any other steps, ends the wait if their polls of the bucket arrive with a late enough cutoff |
| AppPoller.ServedInTime | internal/app/app.go:110-152 | with rounds at most `pace` of Redis time apart, the wait ends within (r/128 + 1) * pace, also for pollers whose clocks lag |
| AppPoller.RegistrationIsFollowed | internal/app/app.go:110-152 | every registration is followed, within score + lag + (r/128 + 1) * pace, by another registration of the user or by a poll that takes the user |
| AppPoller.AbandonedUserIsTaken | internal/app/app.go:110-163 | with the interval the app chooses, a user whose last registration stays unrefreshed, with fewer than 128 ahead, is taken within one and a half TTLs plus lag and delay |
| AppPoller.RoundsDrain | internal/app/app.go:110-152 | rounds with a clock reading per poll, amid passing time, removals, polls of other servers and lost calls, leave nobody due at a cutoff if those reaching each bucket past it have room, 128 each, and only if, when nobody else polls; exactly then the due users taken are a permutation of one unlimited poll of the unsharded index |
| Text.TrimSpaceSplits | internal/rpc/service.go:255-267 | trimming cuts white space at both ends and nothing else |
| Text.TrimSpaceUnique | internal/rpc/service.go:255-267 | the trimmed text is the only core the padded text has |
| Text.WhiteSpaceIs | internal/rpc/service.go:255-267 | the 25 code points that count as white space |
| Text.LessIff | internal/data/user_route.go:189 | one text sorts before another if and only if it is a proper prefix or has the smaller character at the first difference |
| Text.CompactStrings | internal/cluster/push.go:336-348 | the loop yields the trimmed values that are not blank, in order |
| Text.CompactMembers | internal/rpc/service.go:255-267 | exactly the values some element trims to, all of them clean |
| Text.CompactIdempotent | internal/cluster/push.go:336-348 | compacting twice is compacting once |
| Push.NormalizePushChannelsSpec | internal/cluster/push.go:64-78 | accepts exactly channels that are not blank, trims each, names the first blank one otherwise, and is stable |
| Push.UniqueList | internal/cluster/push.go:84-99 | the loop yields the compacted channels without repetitions |
| Push.UniqueSpec | internal/cluster/push.go:84-99 | every value once, in order of first occurrence |
| Push.SubscribedToEveryTarget | internal/cluster/push.go:101-118 | every known target's channel is subscribed to, and nothing else, also when channels coincide |
| Push.MessageForSpec | internal/cluster/push.go:101-166 | target by target, the channel an event travels on with its encoding, and what it is refused for |
| Push.Publisher.Publish | internal/cluster/push.go:147-166 | one message on the target's channel, or an error and no message |
| Push.Subscriber.Dispatch | internal/cluster/push.go:250-313 | exactly one sender call, or an error and none |
| Push.Subscriber.Start | internal/cluster/push.go:205-248 | over any stream: the calls of the dispatched events, failures affecting nothing else; closed exactly when a terminal error ends the loop |
| Push.DispatchedInOrder | internal/cluster/push.go:220-247 | the dispatched events are exactly the in-order subsequence of decodable non-empty messages before the first terminal error |
| Push.PublishedIsReceivable | internal/cluster/push.go:230-238 | nothing that Publish accepts is skipped as empty or undecodable |
| RpcService.GatewayService.SendToUsers | internal/rpc/service.go:54-75 | rejects without publishing, or publishes the one normalised event |
| RpcService.GatewayService.SendToConnections | internal/rpc/service.go:77-98 | rejects without publishing, or publishes the one normalised event |
| RpcService.GatewayService.SendToGroup | internal/rpc/service.go:100-121 | rejects without publishing, or publishes the one normalised event |
| RpcService.GatewayService.Broadcast | internal/rpc/service.go:123-139 | rejects without publishing, or publishes the one normalised event |
| RpcService.GatewayService.CloseUsers | internal/rpc/service.go:141-157 | rejects without publishing, or publishes the one normalised event |
| RpcService.GatewayService.CloseConnections | internal/rpc/service.go:159-175 | rejects without publishing, or publishes the one normalised event |
| RpcService.GatewayService.GetUserConnections | internal/rpc/service.go:195-220 | the response is, in order, exactly the leased connections of the shared history |
| PushPipeline.AcceptedIff | internal/rpc/service.go:54-175 | a request is accepted exactly when its method, group and some id hold more than white space |
| PushPipeline.RefusalNames | internal/rpc/service.go:54-175 | which missing part of a request gives which refusal |
| PushPipeline.EventIsNormalised | internal/rpc/service.go:54-175 | what the event of an accepted request holds, field by field, all of it trimmed |
| PushPipeline.TravelsOn | internal/cluster/push.go:101-166 | for every request, configuration and network outcome: at most one message, on the channel of the kind of request, that decodes to its event |
| PushPipeline.AnswerSpec | internal/rpc/service.go:54-175 | for every network outcome: InvalidArgument exactly for requests that are not acceptable, success exactly for sendable ones whose publish is confirmed, one message exactly for sendable ones whose publish arrives |
| PushPipeline.DispatchedIff | internal/cluster/push.go:250-313 | the dispatcher makes a call for exactly the events with a known target and everything that target needs |
| PushPipeline.DispatcherAgrees | internal/cluster/push.go:250-313 | every accepted request's event passes the dispatcher and becomes the call the request asked for |
| PushPipeline.DispatchesAsRequested | internal/cluster/push.go:250-313 | every event, whoever published it, becomes the call of the request it stands for, or is refused for what that lacks or for its target |
| PushPipeline.PipelineDelivers | internal/cluster/push.go:147-248 | for every list of requests with any network outcomes, every configuration and every stream carrying the first n of their messages amid noise before it ends or breaks, the calls made are the first n of those the sendable requests asked for, in order, on subscribed channels |
| PushPipeline.FailedYetDelivered | internal/cluster/push.go:147-166 | a request whose publish loses its reply is answered with Internal and delivered all the same |
| Config.Config.Normalize | internal/config/config.go:251-276 | every setting the source normalises in its normalised form, the rest unchanged |
| Config.NormalizePathSpec | internal/config/config.go:338-347 | from the raw text: the default for white space alone, otherwise the text between the white space, with a slash in front unless it has one |
| Config.Config.NormalizePushChannels | internal/config/config.go:318-336 | missing channels derived from the base channel or its default |
| Config.Config.FinishLoad | internal/config/config.go:120-124 | the loaded settings are the normalised ones, and validation speaks about those |
| Config.SplitJoins | internal/config/config.go:257-265 | splitting endpoints loses nothing and leaves no separator |
| Config.ChannelCoverage | internal/cluster/push.go:55-62 | after normalising, the push channels can always be built, are unchanged, and cover every target |
| Config.DerivedChannelsSplit | internal/config/config.go:318-336 | channels that are not configured are derived from the base and are three different ones |
| Config.ConfiguredChannelsKept | internal/config/config.go:318-336 | a channel that is configured is kept, trimmed |
| Config.NormalizeIdempotent | internal/config/config.go:251-276 | normalising twice is normalising once |
| Config.ValidIff | internal/config/config.go:278-316 | exactly which raw settings are valid after normalising; path and channels never fail |
| Config.ValidateErrors | internal/config/config.go:278-316 | which error the raw settings lead to after normalising |
| Config.ValidateAccepts | internal/config/config.go:278-316 | which settings are accepted, normalised or not |
| Config.ValidateNamesChannel | internal/config/config.go:278-316 | which missing channel gives which error |
| Auth.ResolveTokenIff | internal/auth/jwt.go:58-89 | exactly which texts resolve, minted or not, and to what: those a non-empty secret verifies, whose claims are in force (RFC 7519, sections 4.1.4 and 4.1.5), within the lifetime limit and name both ids; all others are refused |
| Auth.GetUserIDIff | internal/auth/auth.go:39-56 | exactly which requests get an identity, for every resolver and instant, and which |
| Auth.MintedClaims | internal/auth/jwt.go:31-56 | the claims a minted token carries, and the expiry returned with it |
| Auth.GenerateTokenRefusals | internal/auth/jwt.go:31-56 | why minting is refused |
| Auth.MintedLifetime | internal/auth/jwt.go:74-82 | a minted token passes the lifetime check exactly when the second fractions of clock and lifetime do not carry |
| Auth.MintedResolvesIff | internal/auth/jwt.go:31-89 | exactly when a minted token resolves, and to what (RFC 7519, sections 2 and 4.1.4) |
| Auth.WholeSecondsResolve | internal/auth/jwt.go:31-89 | for whole-second lifetimes: from minting until `expires_at`, and never after |
| Auth.MintsGoodTokensIff | internal/auth/jwt.go:24-89 | every token a resolver mints resolves at its minting if and only if the configured lifetime is a positive number of whole seconds |
| Auth.CarryingLifetimeExample | internal/auth/jwt.go:74-82 | minted at half a second with a lifetime of 1.5 s, a token is refused at every instant |
| Auth.ZeroLifetimeExample | internal/auth/jwt.go:31-57 | with a lifetime of zero every minted token is refused at every instant |
| Auth.ExtractTokenFinds | internal/auth/auth.go:58-72 | which token every request carries: header, `X-Token`, query, in this order |
| AppGroup.ParseAppGroupSpec | internal/gateway/app_group.go:11-35 | parses exactly ids with one separator and something on both sides, into the trimmed app id and its group |
| AppGroup.SeparatorErrors | internal/gateway/app_group.go:12-23 | which error the number of separators gives |
| AppGroup.BlankSideErrors | internal/gateway/app_group.go:25-32 | with one separator, the blank side decides the error |
| AppGroup.GroupNamesApp | internal/gateway/app_group.go:37-39 | two accepted ids share a group only if their app ids are equal |
| Identity.GetTokenRefusals | internal/rpc/service.go:222-241 | exactly which requests GetToken refuses, the missing one included, and with which status |
| Identity.GetTokenGrants | internal/rpc/service.go:222-246 | the claims and the expiry a granted request gets |
| Identity.IdentityRoundTrip | internal/rpc/service.go:222-246 | GetToken, resolve, GetUserID and parse yield the group of the app if and only if neither id holds a colon |
| Identity.ColonExample | internal/gateway/app_group.go:11-35 | an app id `a:b` gets its token, and an identity that does not parse |
| Identity.AppsAreSeparate | internal/gateway/app_group.go:11-39 | minted identities share a group only if their apps are equal |
| Completion.StepKeepsBudget | internal/app/app.go:52-87 | sent plus still-possible sends never exceeds what each Start brings |
| Completion.OneStartNeverBlocks | internal/app/app.go:52-87 | after one Start no goroutine ever blocks on a completion channel, in any interleaving, read or not |
| Completion.NeverBlocksIffStartedOnce | internal/rpc/server.go:55-69 | no interleaving blocks if and only if Start is called at most once |
| Completion.RoomIsExact | internal/app/app.go:40-50 | three reports, all one `Start` can send, fill the channel |
| Completion.OneOfEachKind | internal/app/app.go:52-87 | every Start launches one goroutine of each kind, the subscriber only if push is configured |
| Completion.WorkMayReturn | internal/app/app.go:52-87 | after a Start the subscriber and both servers may end with any report |
| Completion.ReportsConserved | internal/app/app.go:52-87 | in every interleaving each report that must arrive was read, waits in the channel or is on its way, exactly once, and nothing else is |
| Completion.ReportsArrive | internal/app/app.go:52-87 | after one Start, once no goroutine can move on its own, exactly the reports that must arrive have reached `App.Done` |

## Left out

- Text.TrimSpaceSplits: strings are characters, so byte sequences that are not valid UTF-8 are not modelled.
- AppPoller.App.PollExpiredUserRoutesOnce: log lines and the special case for a canceled context are not modelled.
- AppPoller.App.RunUserRoutePoller: the endless loop is modelled over every finite number of rounds; that rounds come at most so far apart is an assumption of AppPoller.ServedInTime and of the two results after it, since a round may take any time.
- UserRouteStore.UserRouteStore.RefreshConnection: 64-bit overflow of `now.Add(ttl)` is not modelled.
- Push.Subscriber.Start: the endless loop is modelled over every finite prefix of what it receives.
- Config.Config.Normalize: the etcd service name and TTL and the token lifetime, which neither normalising nor validating touches, are not among the fields.
- Completion.NeverBlocksIffStartedOnce: `Shutdown` appears as the freedom of every goroutine to return any report at any time; closing servers and waiting on contexts is not modelled.
- Redis, gRPC, Hertz, signalg, etcd and viper themselves; `internal/discovery/etcd/registry.go`; flag, environment and file loading; Wire files and `main.go`.
- `GetOnline`, the health endpoint, `RejectResolver` and `sendResponse`: they read or forward a single value without changing shared state.
- The text of error messages beyond what tells one refusal from another.

# Verified model of the ONVIF simulator's stateful protocols

A Dafny 4.11 model of the parts of the simulator that keep state between calls, and proofs
of what they guarantee over whole runs. `dafny verify dfyconfig.toml` checks everything.

- **Log sinks** (`SinkGenerations`, `SinkHandling`, `SinkClosing`): the lock-free reference counting between `Handle` and
  the swaps of the sink generation, as interleavings of atomic steps of any number of
  threads.
- **Event broker** (`BrokerSpec`, `BrokerRuns`, `BrokerHistory`, `BrokerLifetimes`,
  `BrokerAnswers`, `EventBroker`): pull and push subscriptions with lazy and proactive expiry, bounded
  queues, failure counting and configuration swaps. `BrokerSpec.Step` is one operation on
  values; the classes in `EventBroker` update objects in place and are proved to take
  exactly that step; the other modules prove what runs of steps guarantee.
- **Replay window** (`NonceCaches`, `UsernameTokens`): the nonce cache and the
  WS-UsernameToken checks, and when the two time windows fit each other.
- **Live H.264 source** (`LiveSourceSpec`, `LiveSourceRuns`, `LiveSources`): readiness gate,
  parameter-set repetition, SDP copies, GOP cache, bounded channel.
- **Parsers and framings** (`Mpjpeg`, `DigestHeader`, `PipeFraming`,
  `PipeInterleaving`, `Durations`, on `GoStrings` and `Int64`), **RTP time** (`Looper`, `ClockConversion`).
- **Users** (`UserConfigs`, `UserStores`) and **profile tokens** (`ProfileTokens`).

A method that the program runs in place is a method of a class here; its `ensures` ties
the new state to a function of the old one, and the lemmas are about that function.

## Differences between the code and what it promises

- The comment at internal/obs/handler.go:11-13 promises that no sink is closed while a
  `Handle` is inside it. Because a release decrements the count and reads `retired` in two
  steps, this fails: `SplitReleaseBreaksPromise` gives a run. `SwapDecides` gives the exact
  condition, at the moment of the swap: it can fail if and only if just then one release has
  reached zero without having tested `retired` and another `Handle` is inside.
  `FusedReleaseKeepsPromise` shows that one combined step would repair it.
- The comment at internal/obs/log.go:135 promises that `Close` releases the open files. It
  waits only for the count, so it can return when the last `Handle` has left and has not yet
  closed them (`CloseBeforeRelease`). `CloseDecides`: they are closed whenever it has returned
  if and only if at its first look the count is zero or they are closed already.
- The comment at internal/event/subscription.go:71-73 calls the filter a prefix of the
  topic. The code wants equality or a prefix that ends at a `/`: `PrefixMatchesExactly` says
  when the two agree, and `VideoIsNotVideoSource` is an instance where they do not.
- The comment at internal/auth/nonce_cache.go:8-9 promises that a (nonce, created) pair cannot
  be replayed within the clock-skew window. That needs the cache to remember for as long as
  the timestamp test passes, and on until the second clock reading of a request, which comes
  after the user lookup (internal/auth/username_token.go:152 and 164). `WindowsFit` is the
  exact condition (`AtMostOnceExactlyWhenWindowsFit`). The default, ttl = 2*skew, leaves no
  room: it fits if and only if no time passes between the two readings, or the clock starts
  late enough in the token's window, or after it (`DefaultCacheFits`). Besides, subtraction of
  times saturates and negating the least Duration leaves it negative, so a timestamp 292 years
  or more ahead of the clock passes the test; the condition excludes that as well.
- The cache compares nonces as they are spelled, while the digest uses what they decode to.
  `DecodedAtMostOnceExactly`: a decoded nonce is accepted at most once if and only if, in
  addition, its spelling is the only one; `LineFeedsRespell`: with a decoder that skips line
  feeds no nonce of two or more characters has that property.
- The nonce cache's scan for the oldest entry (internal/auth/nonce_cache.go:46-47) uses the
  empty key for "none yet". `OldestExactly`: whatever the order of the scan, it finds an oldest
  entry if and only if the empty key is not in the map, or is alone, or is not strictly the
  oldest; otherwise any entry may go (`EveryVictimMayGo`). The keys of digest tokens contain a
  bar, so this program never gets there (`EvictsOldest`).
- The comment at internal/rtsp/livesource.go:246 says that the next IDR rebuilds the GOP cache.
  It does if and only if the encoder accepts that IDR (`CurrentGopOnly`); otherwise the cache
  still holds an earlier GOP (`FailedIDRLeavesStale`).
- The comment at internal/rtsp/livesource.go:244-246 says that appends past the cap are dropped
  and the early portion of the GOP stays. A unit that fits is still appended after one that
  did not (`LaterUnitFits`: units of 500, 20 and 5 packets), so the cache is an early portion
  if and only if no unit fits after one that did not (`EarlyPortionExactly`).
- A write that is interrupted is tried again, a read that is interrupted fails
  (internal/rpicamera/pipe.go:50-53 and 66-69). A failed read leaves the pipe at the start of a
  frame if and only if nothing of the message had been taken (`FailedReadExactly`,
  `AtBoundaryExactly`).

## Model

| member | source | states |
|---|---|---|
| SinkGenerations.InstalledNeverClosed | internal/obs/handler.go:61-109 | in every state of every interleaving, at either granularity, the installed generation is neither retired nor closed, and no generation's closers run twice |
| SinkGenerations.QuiescentAllClosed | internal/obs/handler.go:24-34 | when no thread is inside Handle, swapGen or Close, every generation but the installed one has been closed exactly once and all counts are zero: nothing leaks |
| SinkHandling.HandleReachesOneSink | internal/obs/handler.go:83-109 | every call of Handle, when it comes back, has entered exactly one generation, which was installed and open at that moment: a swap neither loses nor doubles a record |
| SinkHandling.SearchStep | internal/obs/handler.go:85-101 | the retry loop ends only with the validation of the installed generation |
| SinkHandling.RetiredGetsNoNewcomers | internal/obs/handler.go:90-92 | once a generation is retired, only threads that had tested it before can still raise its count |
| SinkGenerations.CloseDrains | internal/obs/log.go:147-149 | when the wait of State.Close ends, no Handle is inside the generation it swapped out, then or ever after |
| SinkClosing.CloseDecides | internal/obs/log.go:135-151 | in every continuation the sinks are closed once Close has returned if and only if, when it first reads the count, the count is zero or they are closed already |
| SinkClosing.CloseReturnsEarly | internal/obs/log.go:144-150 | otherwise the Handles inside can leave one by one and Close return before anybody closes the sinks |
| SinkClosing.CloseBeforeRelease | internal/obs/log.go:147-150 | a run of ten steps in which it does |
| SinkGenerations.NeverInsideAgain | internal/obs/handler.go:93-101 | a replaced generation that nobody is inside is never entered again: the second load of the pointer rejects it |
| SinkGenerations.SwapDecides | internal/obs/handler.go:61-70 | the exact condition for the comment at lines 11-13, at the swap: some continuation of the run closes the old generation under a Handle if and only if, when it is swapped out, one thread has released it to zero without having tested `retired` and another is inside it |
| SinkGenerations.PromiseWithoutRisk | internal/obs/handler.go:11-13 | in a run without such a swap, at either granularity, no generation is ever closed while a Handle is inside it |
| SinkGenerations.SafeKept | internal/obs/handler.go:93-109 | a generation swapped out without risk stays unthreatened under every step of every thread |
| SinkGenerations.FusedReleaseKeepsPromise | internal/obs/handler.go:102-109 | with decrement and test of `retired` in one step no swap is at risk and the promise holds in every run |
| SinkGenerations.SplitReleaseBreaksPromise | internal/obs/handler.go:102-109 | with the two steps of the code there is a run of fifteen steps that breaks it |
| SinkGenerations.InvKept | internal/obs/handler.go:83-109 | every atomic step keeps the invariant behind the results above: counts equal holders, and a retired generation is held, closed, or somebody's duty |
| BrokerRuns.ReapingUnobservable | internal/event/broker.go:613-624 | over any run with a nondecreasing clock, dropping all reaps changes no outcome (answers, error kinds, pulled messages, dispatches) and no live subscription |
| BrokerRuns.ReapsMayMove | internal/event/broker.go:591-609 | any two runs that differ only in where reaps occur look the same to callers |
| BrokerRuns.StepIgnoresExpired | internal/event/broker.go:579-589 | no operation's outcome, nor the live subscriptions it leaves, depends on expired subscriptions still being in the map |
| BrokerRuns.ExpiredForGood | internal/event/broker.go:528-589 | an expired or force-expired subscription never becomes live again under any later operations, unless its id is issued anew |
| BrokerRuns.SubscriptionsBounded | internal/event/broker.go:354-361 | in every run the number of pull (push) subscriptions in the map is at most the largest pull (push) limit installed so far |
| BrokerRuns.CountStep | internal/event/broker.go:429-490 | one operation raises the number of subscriptions of a kind only up to the limit then in force |
| BrokerRuns.FailuresCountTrailing | internal/event/broker.go:239-259 | of the notification results since creation, as many of the latest as the counter says are failures, and the one before them, if any, is a success |
| BrokerRuns.LiveBelowThreshold | internal/event/broker.go:239-259 | the latest results of a live subscription, as many as the largest threshold installed so far, are not all failures |
| BrokerHistory.DeliveryHistory | internal/event/subscription.go:48-69 | after any run the queue is a suffix of the log of matching messages published while the subscription was live, at most 256 long; what was pulled is an in-order duplicate-free selection of the part before it; a message not handed out is lost if and only if 256 later ones arrived |
| BrokerHistory.DeliveryConserved | internal/event/broker.go:493-516 | published = pulled + lost + queued |
| BrokerHistory.LostForGood | internal/event/subscription.go:48-54 | a lost message is never handed out later |
| BrokerLifetimes.LivesUntilTold | internal/event/broker.go:528-556 | a subscription is live exactly up to the termination time in its last answer, which is the requested positive duration or the configured one after that answer, unless it is removed or a failed notification reaches the threshold; failures below it, refused renewals, reaps and everything else make no difference |
| BrokerLifetimes.CreatedAsRequested | internal/event/broker.go:374-392 | every subscription in the map has the filter, kind, address and consumer of the latest operation that created its id |
| BrokerLifetimes.DispatchedToItsConsumer | internal/event/broker.go:193-233 | every pushed message goes to the consumer named by the Subscribe that created the id, which is live and whose filter covers the topic |
| BrokerLifetimes.PrefixMatchesExactly | internal/event/subscription.go:71-79 | a filter that is a prefix of the topic matches if and only if it is empty, the whole topic, or followed by a slash; no other filter matches |
| BrokerLifetimes.VideoIsNotVideoSource | internal/event/subscription.go:71-79 | a prefix of a topic that does not match it |
| BrokerAnswers.PublishDelivers | internal/event/broker.go:184-233 | if the first entry of the topic is enabled, every live pull point whose filter covers it gets exactly this one message at the end of its queue (the oldest goes at 256), every such push subscription its dispatch, there is no other dispatch, and nothing else changes |
| BrokerAnswers.OneDispatchEach | internal/event/broker.go:193-212 | after any run, exactly one dispatch for each live push subscription whose filter covers the topic, and none for anybody else |
| BrokerAnswers.PublishSilent | internal/event/broker.go:187-191 | publishing to a topic whose first entry is disabled, or without an entry, does nothing |
| BrokerAnswers.FirstEntryDecides | internal/event/broker.go:280-287 | the flag of the first entry of the name, and disabled without one |
| BrokerAnswers.PullHandsOut | internal/event/subscription.go:56-69 | a pull hands out the oldest min(limit, queued) messages, or all for a limit of zero, keeps the rest and touches nothing else |
| BrokerAnswers.PullPointAnswer | internal/event/broker.go:348-394 | a pull point is refused for the limit if and only if as many live ones exist as the limit in force; then the time, then the id; otherwise it is created |
| BrokerAnswers.SubscribeAnswer | internal/event/broker.go:401-478 | the same for push subscriptions: consumer, interface, limit, time, id, each refusal exactly |
| BrokerAnswers.NotFoundExactly | internal/event/broker.go:559-589 | pull, synchronization point, renewal and unsubscription report not-found if and only if the subscription is not live |
| BrokerAnswers.NegativeLimit | internal/event/broker.go:496-500 | a negative limit is refused before the lookup |
| BrokerAnswers.Defaults | internal/event/broker.go:135-157 | ten pull points, three failures, one hour for non-positive settings; the producer limit and the topics as given |
| EventBroker.Subscription.Enqueue | internal/event/subscription.go:48-54 | at the cap the oldest message goes, then the new one is appended |
| EventBroker.Subscription.Drain | internal/event/subscription.go:57-69 | hands out the first `limit` messages, or all, and keeps exactly the rest |
| EventBroker.Subscription.Deliver | internal/event/broker.go:196-219 | one subscription's part of Publish: skip expired and non-matching, queue or dispatch |
| EventBroker.Subscription.constructor | internal/event/broker.go:379-386 | a new subscription starts with an empty queue and no failures |
| EventBroker.Subscription.SetTermination | internal/event/broker.go:550-551 | only the termination time changes |
| EventBroker.Broker.constructor | internal/event/broker.go:135-157 | starts empty with defaults for non-positive settings |
| EventBroker.Broker.UpdateConfig | internal/event/broker.go:299-317 | replaces the settings and leaves the subscriptions alone |
| EventBroker.Broker.IsTopicEnabled | internal/event/broker.go:280-287 | the first topic of that name decides |
| EventBroker.Broker.Publish | internal/event/broker.go:184-233 | takes the Publish step on all subscriptions and returns exactly its dispatches |
| EventBroker.Broker.DeliverAll | internal/event/broker.go:196-219 | the loop visits every subscription once, in any order |
| EventBroker.Broker.RecordNotifyResult | internal/event/broker.go:239-259 | resets, counts, or counts and force-expires, for this subscription only |
| EventBroker.Broker.ReapLocked | internal/event/broker.go:613-624 | the loop removes exactly the expired subscriptions |
| EventBroker.Broker.CountByKind | internal/event/broker.go:482-490 | the loop counts exactly the subscriptions of the kind |
| EventBroker.Broker.CreatePullPointSubscription | internal/event/broker.go:348-394 | takes the CreatePullPoint step, limit and error cases included |
| EventBroker.Broker.AddLocked | internal/event/broker.go:362-393 | the common end of both creations: duration, id, entry; any error leaves the map alone |
| EventBroker.Broker.Subscribe | internal/event/broker.go:401-478 | takes the Subscribe step, with its argument, disabled and limit errors |
| EventBroker.Broker.RequireSub | internal/event/broker.go:579-589 | finds a live subscription; otherwise forgets the id |
| EventBroker.Broker.PullMessages | internal/event/broker.go:493-516 | takes the PullMessages step: limit check, lookup, drain |
| EventBroker.Broker.SetSynchronizationPoint | internal/event/broker.go:520-525 | answers whether the subscription is live |
| EventBroker.Broker.Renew | internal/event/broker.go:528-556 | takes the Renew step; a bad time changes nothing |
| EventBroker.Broker.Unsubscribe | internal/event/broker.go:559-573 | removes the subscription and reports not-found when it had expired |
| NonceCaches.NonceCache.constructor | internal/auth/nonce_cache.go:21-30 | window defaults to five minutes, cap 4096, empty |
| NonceCaches.NonceCache.Prune | internal/auth/nonce_cache.go:58-65 | keeps exactly the entries not older than the window |
| NonceCaches.NonceCache.FindOldest | internal/auth/nonce_cache.go:45-52 | the loop is the scan over some visiting order and finds an entry that may be given up |
| NonceCaches.ScanFindsVictim | internal/auth/nonce_cache.go:45-52 | in every order the scan finds an oldest entry, except in a map where it goes astray |
| NonceCaches.EveryVictimMayGo | internal/auth/nonce_cache.go:45-52 | and every entry so allowed is found by some order: the condition is exact |
| NonceCaches.EmptyKeyFirst | internal/auth/nonce_cache.go:46-47 | in a map with the empty key strictly oldest and not alone, visiting that key first gives up another entry |
| NonceCaches.OldestExactly | internal/auth/nonce_cache.go:41-47 | the scan finds an oldest entry in every order if and only if the map is not of that kind |
| NonceCaches.NonceCache.Add | internal/auth/nonce_cache.go:34-56 | refuses a key within the window; otherwise enters it, giving up one entry at the cap |
| NonceCaches.AddDecides | internal/auth/nonce_cache.go:32-43 | below the cap, Add refuses a key if and only if there was a successful Add of it within the last ttl |
| NonceCaches.SizeBounded | internal/auth/nonce_cache.go:45-53 | the cache never exceeds its cap, in any run, for any keys and any clock |
| NonceCaches.EntryStays | internal/auth/nonce_cache.go:34-65 | an entry stays, with its time, until it leaves the window or is evicted |
| NonceCaches.EntriesWereAdded | internal/auth/nonce_cache.go:34-56 | every entry was put there by a successful Add at the time it carries |
| UsernameTokens.UsernameTokenAuth.WithOwnCache | internal/auth/username_token.go:56-77 | without a given cache the window is twice the skew, computed in 64 bits |
| UsernameTokens.UsernameTokenAuth.WithCache | internal/auth/username_token.go:56-77 | a given cache is used as it is |
| UsernameTokens.UsernameTokenAuth.VerifyTimestamp | internal/auth/username_token.go:144-156 | the timestamp test with saturating subtraction and 64-bit negation |
| UsernameTokens.UsernameTokenAuth.VerifyPassword | internal/auth/username_token.go:158-182 | which tokens reach the cache, and the answer for each password type; a digest matches only if the nonce decodes |
| UsernameTokens.UsernameTokenAuth.Authenticate | internal/auth/username_token.go:94-117 | timestamp at the first clock reading, lookup, password at the second, in this order; only the last touches the cache |
| UsernameTokens.TimestampTest | internal/auth/username_token.go:151-153 | the test passes exactly within the skew, or beyond the range of a Duration |
| UsernameTokens.AcceptedExactly | internal/auth/username_token.go:94-182 | a token is accepted if and only if its timestamp is on time, the user is known, and it carries an unseen nonce and timestamp with the digest of the decoded nonce, the timestamp and the user's password, or, where allowed, the password itself |
| UsernameTokens.RefusedExactly | internal/auth/username_token.go:94-182 | clock skew, failed lookup and replay, each exactly; a digest token that gets to the cache is remembered, matching or not, and nothing else is |
| UsernameTokens.SecondAcceptanceNeedsEviction | internal/auth/username_token.go:144-170 | with windows that fit, the delay between the two clock readings included, a digest token is accepted twice only if the cache evicted it in between |
| UsernameTokens.EvictsOldest | internal/auth/username_token.go:164 | in every life of the authenticator the scan never goes astray, and what the cache evicts is an oldest entry |
| UsernameTokens.AtMostOnceExactlyWhenWindowsFit | internal/auth/username_token.go:62-64 | with the cap never reached and at most `delay` between the two clock readings of a request, a digest (Nonce, Created) is accepted at most once in every life of the authenticator if and only if it can never be accepted or the windows fit; requests may overlap |
| UsernameTokens.FittingWindowsPreventReplay | internal/auth/username_token.go:144-170 | one direction, for each life: windows that fit, delay included, mean at most one acceptance |
| UsernameTokens.MisfitAllowsReplay | internal/auth/username_token.go:144-170 | the other: windows that do not fit admit a life with two acceptances of a matching token |
| UsernameTokens.DefaultCacheFits | internal/auth/username_token.go:56-64 | five minutes and 4096 entries by default; the default cache, ttl = 2*skew, fits if and only if the timestamp is less than the range of a Duration ahead of the clock and the delay is zero, or the clock starts at least the delay after the window opens, or after it has closed |
| UsernameTokens.DecodedAtMostOnceExactly | internal/auth/username_token.go:164-167 | a decoded nonce is accepted at most once in every life if and only if the windows fit and its spelling is the only one, or its window is over |
| UsernameTokens.TwoSpellings | internal/auth/username_token.go:164-167 | two spellings of a nonce are both accepted in some life |
| UsernameTokens.LineFeedsRespell | internal/auth/username_token.go:263-267 | a decoder that skips line feeds leaves no longer nonce with one spelling only |
| LiveSourceRuns.ReadyExactly | internal/rtsp/livesource.go:186-190 | the gate is open if and only if some unit so far was an IDR at which SPS and PPS were both known |
| LiveSourceRuns.EncodedFromFirstDecodableOn | internal/rtsp/livesource.go:172-207 | nothing reaches the encoder before the first such unit; from it on, everything does |
| LiveSourceRuns.EncodedUnits | internal/rtsp/livesource.go:380-405 | every IDR passed on holds SPS and PPS; inserted sets are the latest in the stream, dropped units included; the unit's own NALs follow unchanged; other units pass unchanged |
| LiveSourceRuns.CachesLatest | internal/rtsp/livesource.go:320-348 | the cached sets are the latest SPS and PPS of the whole stream so far |
| LiveSourceRuns.SdpFollowsUntilReady | internal/rtsp/livesource.go:350-367 | up to the unit that opens the gate the SDP shows the latest sets |
| LiveSourceRuns.SdpFrozenAtReadiness | internal/rtsp/livesource.go:350-353 | after that it forever holds the sets that were the latest at that moment |
| LiveSourceRuns.GopCacheShape | internal/rtsp/livesource.go:250-276 | for every stream the cache is whole units in order, the last encoded IDR's first; each later unit is kept if and only if it fits beside what was kept before it; never longer than 512 or that IDR |
| LiveSourceRuns.CompleteWhileItFits | internal/rtsp/livesource.go:266-270 | so as long as the GOP fits 512 packets the cache is all of it |
| LiveSourceRuns.EarlyPortionExactly | internal/rtsp/livesource.go:242-246 | the cache is a prefix of the GOP if and only if no non-empty unit fits after one that did not |
| LiveSourceRuns.PrefixIfKeptFirst | internal/rtsp/livesource.go:266-275 | what is kept is a prefix of the GOP if and only if no unit is kept behind one that is not |
| LiveSourceRuns.LaterUnitFits | internal/rtsp/livesource.go:266-275 | an instance where it is not |
| LiveSourceRuns.GroupsAreCached | internal/rtsp/livesource.go:209-227 | the groups of packets are those of the cached units, one by one |
| LiveSourceRuns.CachedPackets | internal/rtsp/livesource.go:219-227 | the cache is, unit by unit over the kept ones, the encoder's payloads in order, each with the low 32 bits of the unit's presentation time and its capture time |
| LiveSourceRuns.CurrentGopExactly | internal/rtsp/livesource.go:250-260 | the cached units ascend and start with an encoded IDR, which is the latest IDR given to the encoder if and only if the encoder accepted that one, and an earlier one otherwise |
| LiveSourceRuns.CurrentGopOnly | internal/rtsp/livesource.go:209-227 | the cache holds nothing from before the latest IDR given to the encoder if and only if that IDR was encoded or nothing is cached; and its packets start with those of the first cached unit |
| LiveSourceRuns.FailedIDRLeavesStale | internal/rtsp/livesource.go:214-218 | for any stream with an open gate: after an encoded IDR and one that fails to encode, the cache holds exactly the earlier one |
| LiveSourceRuns.ChannelFifo | internal/rtsp/livesource.go:124-147 | received followed by waiting units are exactly those taken in, and at most 32 wait |
| LiveSourceRuns.PushDropsExactly | internal/rtsp/livesource.go:124-135 | a unit is dropped if and only if the channel is closed or 32 units wait |
| LiveSourceRuns.NalTypes | internal/rtsp/livesource.go:326-331 | the NAL types are the low five bits of the first byte: 5, 7 and 8 |
| LiveSources.LiveSource.constructor | internal/rtsp/livesource.go:107-117 | starts with the gate closed and nothing cached |
| LiveSources.LiveSource.Push | internal/rtsp/livesource.go:124-135 | appends unless closed or full |
| LiveSources.LiveSource.Close | internal/rtsp/livesource.go:139-147 | closes once; what waits stays |
| LiveSources.LiveSource.HasIDR | internal/rtsp/livesource.go:408-415 | some NAL is an IDR slice |
| LiveSources.LiveSource.AbsorbParameterSets | internal/rtsp/livesource.go:320-348 | the unit's last SPS and PPS become the cached ones and are mirrored if they changed |
| LiveSources.LiveSource.MirrorParameterSetsToFormat | internal/rtsp/livesource.go:350-367 | copies the known sets to the format while the gate is closed |
| LiveSources.LiveSource.MaybePrependParameterSets | internal/rtsp/livesource.go:380-405 | inserts what is missing and known, SPS first |
| LiveSources.LiveSource.UpdateGOPCache | internal/rtsp/livesource.go:250-276 | replaces at an IDR; otherwise appends a whole unit or nothing |
| LiveSources.LiveSource.WriteAU | internal/rtsp/livesource.go:209-240 | what is encoded, cached and sent: the payloads in the encoder's order, with the unit's times; the cache is updated before sending, also when sending fails midway |
| LiveSources.LiveSource.Receive | internal/rtsp/livesource.go:182-205 | one turn of Run: absorb, gate, write; each packet sent carries the encoder's payload of its position, the presentation time modulo 2^32 and the capture time |
| Mpjpeg.ReadMpjpegFrame | internal/ffmpeg/mpjpeg.go:60-103 | the two loops find the boundary and the headers of the next frame; every error case, whether the stream ends or reading fails |
| Mpjpeg.ReadFrameBody | internal/ffmpeg/mpjpeg.go:108-137 | exactly Content-length bytes, or missing, too large, truncated, failed |
| Mpjpeg.Reader.ReadLine | internal/ffmpeg/mpjpeg.go:70 | the next line with its newline; at the end of the stream what is left is consumed |
| Mpjpeg.Reader.ReadFull | internal/ffmpeg/mpjpeg.go:115-116 | exactly n bytes, or the end of the stream |
| Mpjpeg.FrameRead | internal/ffmpeg/mpjpeg.go:47-103 | after any prelude without a boundary line, one rendered frame is read back whole and the rest is untouched |
| Mpjpeg.FramesRoundTrip | internal/ffmpeg/mpjpeg.go:47-137 | any list of bodies of 1 byte to 32 MiB, with any bytes and either line ending, is read back exactly, in order, and then the end of the stream, clean or not |
| Mpjpeg.CutStreamGivesFirstFrames | internal/ffmpeg/mpjpeg.go:60-137 | any stream that breaks off anywhere gives some of the first frames of the whole stream: no frame is cut short, changed or made up |
| Mpjpeg.CutRenderedStream | internal/ffmpeg/mpjpeg.go:60-137 | so any part of a rendered stream gives a prefix of the bodies |
| Mpjpeg.RenderedText | internal/ffmpeg/mpjpeg.go:49-55 | the text of a frame, letter by letter |
| Mpjpeg.LengthRefused | internal/ffmpeg/mpjpeg.go:108-114 | an announced length of zero or above 32 MiB is refused, whatever follows |
| Mpjpeg.LengthMissing | internal/ffmpeg/mpjpeg.go:108-111 | so is a frame without a length |
| Mpjpeg.LengthUnreadable | internal/ffmpeg/mpjpeg.go:95-99 | and one whose length is no number |
| Mpjpeg.HeaderLineMeans | internal/ffmpeg/mpjpeg.go:90-101 | other headers and lines without a colon change nothing; the last length counts |
| Mpjpeg.LinesByName | internal/ffmpeg/mpjpeg.go:70-94 | a boundary is a line that starts with the marker once trimmed; the case of the length header does not matter |
| DigestHeader.ParseDigestHeader | internal/auth/digest.go:247-289 | the prefix test, the fields and the four required ones |
| DigestHeader.ParseBody | internal/auth/digest.go:253-284 | the loop reads field after field and ends on every input |
| DigestHeader.ParseJoined | internal/auth/digest.go:253-284 | printed well-formed fields are read in order, commas and equals signs in quoted values included |
| DigestHeader.HeaderRoundTrip | internal/auth/digest.go:179-190 | fields with distinct keys, the required ones among them, printed in the comma-separated shape, parse back to exactly that map |
| DigestHeader.AcceptedIsComplete | internal/auth/digest.go:285-288 | an accepted header has the four required fields, none empty, and only lower-case keys |
| DigestHeader.MissingIsRefused | internal/auth/digest.go:285-287 | printed fields of which a required one is missing or empty are refused for that |
| DigestHeader.OtherSchemeIsRefused | internal/auth/digest.go:248-251 | so is a header of another scheme, for its shape |
| DigestHeader.SpacesIgnored | internal/auth/digest.go:253-284 | spaces around key, equals sign, unquoted value and comma and the case of the key do not matter |
| Durations.CountDigits | internal/event/util.go:62-65 | the length of the leading run of digits |
| Durations.ParsePTDuration | internal/event/util.go:60-85 | the broker's loop, with 64-bit multiplication and addition |
| Durations.ValidatePTDuration | internal/config/config.go:996-1015 | the validator's loop |
| Durations.ParserAndValidatorAgree | internal/config/config.go:994-1015 | the broker accepts a PT text if and only if the validator does and its numerals fit an int; the value is the sum of numeral times unit modulo 2^64, so exact whenever that is a Duration |
| Durations.PTMeans | internal/event/util.go:60-85 | nH nM nS, any of them left out, is (3600 h + 60 m + s) * 10^9 nanoseconds whenever that is a Duration |
| Durations.TimeoutsAgree | internal/config/config.go:979-992 | a timeout the validator accepts is understood by the broker unless a numeral is too large; what only the broker understands is an absolute time |
| Looper.PlayOnce | internal/rtsp/looper.go:105-177 | the timestamps sent are the times of the samples modulo 2^32, also when playback breaks off |
| Looper.Run | internal/rtsp/looper.go:71-101 | passes follow one another until one breaks, each based one tick after the last sample sent |
| Looper.MonotonicAcrossRewinds | internal/rtsp/looper.go:82-100 | times never go back within a pass, and every time in a later pass is strictly later than every one before |
| Looper.RunNeverGoesBack | internal/rtsp/looper.go:71-177 | the timestamps that Run sends are, pass by pass, the low 32 bits of such times |
| Looper.SamplePlaysAt | internal/rtsp/looper.go:155-171 | every packet of a sample carries the time the samples before it take, counted from the start of the pass |
| Looper.NextStart | internal/rtsp/looper.go:174-176 | a pass starts exactly one tick after the last packet of the one before, if every sample sent has packets |
| Looper.ScaleEdges | internal/rtsp/looper.go:226-232 | no time scale gives zero, and too long a duration saturates |
| Looper.DriftBelowOneTickASample | internal/rtsp/looper.go:225-234 | without saturation the accumulated time of n samples is never ahead of the exact one and less than n ticks behind |
| PipeFraming.Pipe.Write | internal/rpicamera/pipe.go:44-60 | under any schedule of short and interrupted writes a prefix of the frame is written, and the whole frame exactly when Write returns |
| PipeFraming.Pipe.ReadFully | internal/rpicamera/pipe.go:62-76 | takes bytes from the front only, fills the buffer exactly when it returns, and does return if the reads progress |
| PipeFraming.Pipe.Read | internal/rpicamera/pipe.go:31-42 | returns the first message in the pipe and leaves exactly what follows it; otherwise it has taken less than that message, and nothing exactly if its first call transferred nothing |
| PipeFraming.HeaderRoundTrip | internal/rpicamera/pipe.go:36-47 | the little-endian header carries the length modulo 2^32 |
| PipeFraming.LittleEndian | internal/rpicamera/pipe.go:45-47 | the four bytes are the length, least significant first |
| PipeFraming.FrameReadsBack | internal/rpicamera/pipe.go:31-48 | a frame reads back as its message with the rest untouched if and only if the length fits the header |
| PipeFraming.MessagesRoundTrip | internal/rpicamera/pipe.go:31-60 | any list of messages, framed one after the other, parses back to exactly that list with nothing left over |
| PipeFraming.Transfer | internal/rpicamera/pipe.go:31-76 | under any sequence of whole writes and whole reads and any schedule of short reads and of short and interrupted writes that progresses, the messages read are the first ones written, in order and unchanged, and the pipe holds exactly the frames of the others |
| PipeFraming.AtBoundaryExactly | internal/rpicamera/pipe.go:31-42 | taking less than the first frame leaves the stream at the start of a frame if and only if nothing was taken |
| PipeInterleaving.EveryInterleaving | internal/rpicamera/pipe.go:31-76 | under every interleaving of single write and read calls of the two sides the messages returned are the first ones sent, and what is begun, in the pipe and unwritten is exactly the frames of the others, as long as reads fail only between messages |
| PipeInterleaving.FailedReadExactly | internal/rpicamera/pipe.go:62-70 | a failed or interrupted read keeps that if and only if nothing of a message had been taken |
| PipeInterleaving.AllArrive | internal/rpicamera/pipe.go:31-76 | when everything is written and read, every message has arrived |
| UserConfigs.ValidateUser | internal/config/config.go:824-842 | the four refusals in order; an accepted name is recorded as seen |
| UserConfigs.ValidateUsers | internal/config/config.go:812-817 | the loop reports the first error |
| UserConfigs.HasSpace | internal/config/config.go:834 | some character of the role is white space |
| UserConfigs.ValidateAuth | internal/config/config.go:805-822 | the checks in order: nothing to check, users required, users, the rest |
| UserConfigs.UsersValidExactly | internal/config/config.go:812-842 | a list passes if and only if every user is acceptable on its own and all usernames differ |
| UserConfigs.UserRefusedExactly | internal/config/config.go:824-842 | each refusal of a user, exactly and in order |
| UserConfigs.ConfigValidExactly | internal/config/config.go:805-822 | when a configuration is valid, down to its users |
| UserConfigs.ReplaceInPlace | internal/config/update.go:82-93 | overwrites the first user of that name, or asks for an append |
| UserConfigs.UpsertedAt | internal/config/update.go:84-91 | the list differs at the first user of that name only, or has the user appended |
| UserConfigs.FilterInPlace | internal/config/update.go:97-114 | compacts the slice over its own storage and leaves exactly the other users in order |
| UserConfigs.RemovedInOrder | internal/config/update.go:99-112 | the users that stay do so in their order |
| UserConfigs.RemovedOne | internal/config/update.go:101-107 | and those of the name go |
| UserConfigs.UpdatedExactly | internal/config/update.go:43-58 | an update reaches the file if and only if it can be read and written and both the old and the new configuration are valid; otherwise the file is as before |
| UserConfigs.ConfigFile.Load | internal/config/config.go:1199-1216 | an unreadable or invalid file is an error |
| UserConfigs.ConfigFile.Save | internal/config/config.go:1222-1234 | the file is replaced as a whole by a valid configuration, or left alone |
| UserConfigs.ConfigFile.UpsertUser | internal/config/update.go:43-93 | load, replace or append, validate, save; any failure leaves the file alone |
| UserConfigs.ConfigFile.RemoveUser | internal/config/update.go:43-114 | load, filter, validate, save; an unknown user is an error |
| UserStores.MutableUserStore.Replace | internal/auth/store.go:72-80 | the index by username of the given records, later ones winning |
| UserStores.MutableUserStore.constructor | internal/auth/store.go:37-43 | starts as the index of the initial records |
| UserStores.MutableUserStore.Set | internal/auth/store.go:58-62 | this record and the others unchanged |
| UserStores.MutableUserStore.Remove | internal/auth/store.go:65-69 | all but this record |
| UserStores.Controller.SyncFromConfig | internal/auth/controller.go:54-65 | the store becomes the index of the given users |
| UserStores.Controller.UpsertUser | internal/auth/controller.go:69-77 | file first, store only if that succeeded |
| UserStores.Controller.RemoveUser | internal/auth/controller.go:80-88 | file first, store only if that succeeded |
| UserStores.StoreAgreesWithDisk | internal/auth/controller.go:54-88 | starting in step, after any sequence of successful and failed operations the store holds exactly one record for each user on disk, the right one, and no other |
| UserStores.UpsertKeepsSync | internal/auth/controller.go:69-77 | UpsertUser keeps them in step, resting on validation having refused duplicate names |
| UserStores.RemoveKeepsSync | internal/auth/controller.go:80-88 | RemoveUser keeps them in step |
| UserStores.SyncEstablishes | internal/auth/controller.go:51-65 | synchronising from the file puts them in step from any state |
| UserStores.SyncFromNothing | internal/auth/controller.go:55-59 | synchronising from no configuration clears the store |
| UserStores.RecordOf | internal/auth/controller.go:110-132 | the record of a user in step: the name, the password, and the one role under its ONVIF name if it is built in, otherwise as configured |
| UserStores.FailuresLeaveNoTrace | internal/auth/controller.go:67-88 | a run ends, in file and store, where its successful operations alone would have |
| ProfileTokens.SanitizeTokenChars | internal/simulator/media_provider.go:111-126 | each rune outside [a-zA-Z0-9_] becomes an underscore, the others stay |
| ProfileTokens.GenerateProfileToken | internal/simulator/media_provider.go:90-106 | ends after at most one more candidate than there are profiles, with the first candidate not in use, over [a-zA-Z0-9_] only |
| ProfileTokens.CandidatesDiffer | internal/simulator/media_provider.go:100-105 | no two candidates are the same token |
| ProfileTokens.CandidateText | internal/simulator/media_provider.go:96-105 | candidates are profile_ and the sanitised name, and from the second on an underscore and the number |
| ProfileTokens.TokenAlphabet | internal/simulator/media_provider.go:116-119 | the alphabet, letter by letter |
| ClockConversion.EqualsTruncatedProduct | internal/rpicamera/camera_rpicam.go:417-423 | over the integers the split computation is v*m/d truncated toward zero, for either sign |
| ClockConversion.QuotientTruncates | internal/rpicamera/camera_rpicam.go:419-423 | division truncates toward zero |
| ClockConversion.ExactIfItFits | internal/rpicamera/camera_rpicam.go:417-423 | in 64 bits, when the remainder's product fits, it is exact if and only if the result fits |
| ClockConversion.MicrosecondsTo90kExact | internal/rpicamera/camera_rpicam.go:417-423 | for 90000/1000000 no intermediate leaves 64 bits and the result is exact, for every int64 |

## Left out

- Log sinks: modelled as a state machine on values whose steps are the program's atomic operations, not as heap objects, since Dafny has no threads; the two tests for a nil generation, which never succeed, the level variable and the handler stages are not modelled.
- Broker: one clock instant an operation; subscription ids, parsed durations, composed addresses and the verdict on a consumer URI come in from outside; the order in which Publish visits the map is not modelled, so dispatches are a set; the notifier, logging, topic XML and the reaper's ticker are left out.
- UsernameTokens.AtMostOnceExactlyWhenWindowsFit: says nothing once the cap of 4096 is reached (SecondAcceptanceNeedsEviction covers that case) nor across authenticators, since a rebuilt one starts with a fresh cache; overlapping requests are taken to enter the cache in the order of their second clock readings; a cap and both windows are taken as positive, as the constructors make them.
- UsernameTokens: extracting the token from the SOAP body is left out; RFC 3339 parsing, base64 decoding and hashing are given as functions and the store lookup as an answer; wrapping errors in challenges is left out.
- Live source: what the RTP encoder returns and how many packets the stream takes are given from outside; the format is attached before the first unit; context cancellation, ReplayGOP and the mutexes are left out.
- GoStrings: one char stands for one byte; lower-casing and case folding are ASCII only, so the two non-ASCII characters that Go maps to the letters i and k are not modelled; strings.ToUpper, time.ParseDuration and absolute times are parameters of Durations.
- DigestHeader: only the parser and the printed shape; nonces, hashes and the quoting of values that contain quotation marks are left out.
- Looper: pacing, encoding and mp4 parsing; a sample comes with what became of it.
- PipeFraming: a 64-bit int; on 32-bit ARM a header of 2^31 or more would be negative. System calls follow a schedule; for PipeFraming.Pipe a read that finds the pipe empty reads end of file. A write that fails midway, after which the pipe holds part of a frame, is modelled for one Write and not in PipeFraming.Transfer and PipeInterleaving.
- UserConfigs: whether the rest of a configuration is valid, and whether the file can be read and written, come in as booleans; JSON and the temporary file are left out; the update mutex is not modelled, as the model is sequential.
- UserStores.StoreAgreesWithDisk: sequential runs only, and SyncFromConfig is given the configuration on disk; edits of the file behind the controller's back are left out, as are the store's copies of role slices.
- Easy or plumbing: SOAP and HTTP, access classes, JWT, ring buffers, the user interfaces, device setters, process spawning.

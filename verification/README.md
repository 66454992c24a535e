# Verified model of the csqtt tunnel core

The tunnel carries packets of a phone or router over TURN relays to its own server. This project models the
deterministic heart of that system and proves what it is meant to guarantee, over every input and every run:

* **TURN control core** (`Stun`, `StunChecks`, `TurnState`, `TurnInvariant`, `TurnFits`, `TurnAlive`, `TurnRequests`,
  `TurnOutcomes`, `TurnAnswers`, `TurnCalls`, `TurnSends`, `TurnRuns`, `TurnRetries`, `TurnProgress`, `TurnTimers`,
  `TurnLost`, `TurnWitness`, `TurnCore`): the sans-I/O client of RFC 8656 over RFC 8489, with its message builder and
  decoder, allocation states, retransmission and nonce-retry ladders, maintenance timers, graceful and forced teardown.
  `TurnState` gives every entry point as a function on states; `TurnCore` is the object with its loops, each method
  proved to take the step its function describes and each entry point to keep the object valid. `TurnRequests` says
  what a server reads off every request, `TurnAnswers` what every answer, written out field by field, does to the
  client, `TurnCalls` what every other call does and `TurnSends` what every poll sends; the remaining modules prove
  what holds over all runs.
* **Replay window** (`ReplayWindow`): the ring of 16384 bits against an unbounded record, and the extension of 16-bit
  sequence numbers.
* **Shared buffers** (`PacketPool`, `PacketQueue`, `PacketChannel`, `LogWriter`): each atomic access is one step, and
  any number of threads interleave. `PacketChannel` is the queue's own code, used by one thread at a time.
* **Schedulers** (`Downlink`, `DownlinkRuns`, `DownlinkSlots`, `Workers`): weighted round robin over preallocated
  slots, and the canonical interleaving of workers by TURN path.
* **Framing** (`Packet`, `TurnStream`, `Keepalive`, `Obfs`): frames cut out of a byte stream, ChannelData and
  RTP-shaped wrapping in place.
* **Credential cache** (`CredentialCache`): generation-stamped leases with a quota and a memory of the rejected
  credential.

`dafny verify dfyconfig.toml` checks everything.

## How the outside world enters

* Clock readings are parameters, in nanoseconds since an arbitrary origin. A request takes its own reading when it is
  sent, so each entry point of the TURN core carries a `Draw` (transaction id and reading) per request it may start.
  `Pending.sentAt` is a history field that no step reads.
* `poll` reads the clock before it takes the lock (`rust-client/turn_core.rs:475-476`), so callers that race can bring
  their readings in the wrong order. That the clock runs forward from call to call is therefore an assumption of the
  theorems on poll timing (`TurnRuns.Clocked`); it holds for one caller at a time. No other theorem needs it.
* CRC-32, HMAC-SHA1, MD5, AES-CTR and ChaCha20-Poly1305 are arbitrary functions; of the last only decryption after
  encryption and the sizes are known (`Obfs.Lawful`). Random numbers are parameters.
* `ArrayQueue` is an atomic bounded FIFO. Locks make the methods of the TURN core and of the credential cache atomic.
* The transport of a TURN stream is the list of pieces it will still deliver.
* `at`, `seen`, `stamp`, `writes`, `resumes`, `pushes`, `submitted`, `fates`, `delivered`, `accepted`, `retired` and
  `taken` in the step machines record history and steer nothing.
* 64-bit words are modelled where they can show: the replay counter saturates, the queue's epoch loses its top bit,
  the wrap counter and the credential generation are cut at 64 bits.
* Nothing longer than 4096 bytes reaches the TURN core: a datagram is received into a packet buffer of at most 2240
  bytes (`rust-client/turn.rs:740`), and a stream refuses longer control frames (`rust-client/turn_stream.rs:23`).
  Theorems that need this ask for `TurnRuns.AllSmall`; all others hold for inbound bytes of any length.

## Where the code differs from what one would expect

* `try_acquire` can fail while a buffer lies in the pool's queue (`PacketPool.FailsWithBufferQueued`);
  `AllocateFailsExactly` says when.
* `encode_channel_data` can write a frame of up to 2304 bytes, but the stream decoder takes at most 2240
  (`TurnStream.FramedButRefused` is such a frame, `TurnStream.StreamTakesChannelData` gives the exact condition).
* A sequence number is recovered from its low 16 bits only under the exact condition of `ReplayWindow.ExtendExact`; in
  the first cycle there is no limit forward, and `ReplayWindow.NotRecovered` is a number that is not.
* Reconfiguring a lane while slots are checked out leaves it with more slots than its profile grants, by exactly the
  number that was out (`DownlinkSlots.ReconfigureExactly`; `DownlinkSlots.ResizedWhileOut` is such a run).
* `pull_control` drops a packet longer than 1024 bytes: exactly the requests whose attributes exceed 1004 bytes
  (`TurnFits.LostWhenPulledExactly`). `TurnLost.RequestLost` is a run in which that happens to the answer to a 401, and
  `TurnLost.ChallengeLostExactly` says for which user names, realms and nonces it does. The request stays under way.
* A request is not built if its attributes exceed 65535 bytes; a poll that needs it then fails
  (`TurnFits.PollFailsExactly`). `TurnWitness.PollFails` is such a run, with a ChannelBind eight bytes longer than the
  Allocate before it. Inbound packets of at most 4096 bytes rule this out (`TurnRuns.NothingFails`).
* Timers can outlive READY, where no poll moves them on: the keepalive of an allocation granted after shutdown began,
  once it is given back (`TurnWitness.LateReturnPolls` is such a run), and the refresh of one given up with its channel.
  While one is at most 1 ms away or past, every poll reports 1 ms (`TurnTimers.IdlePollsExactly`,
  `TurnTimers.WaitingPollsExactly`).
* An epoch loses its top bit, so a packet can survive a resume after all, exactly if a multiple of 2^63 of them has come
  since its sender read the state word (`PacketQueue.DeliveredExactly`, `PacketQueue.SurvivesExactly`).
* The generation of credentials saturates, so the last one of all is shared (`CredentialCache.LastIsShared`); what is
  promised of a generation holds of all others without limit.
* The counters of a wrap advance even when the packet has no room.

## Model

| member | source | states |
|---|---|---|
| Stun.Decode | rust-client/stun_codec.rs:37-88 | the position-walking decoder returns exactly the verdict of `Parse`, error kinds and their order included, on any bytes and without reading outside them |
| Stun.DecodesExactlyTheGrammar | rust-client/stun_codec.rs:37-88 | a datagram is accepted if and only if it is a STUN header followed by type-length-value fields padded to four bytes that fill the declared length |
| Stun.Attributes.NextAttribute | rust-client/stun_codec.rs:144-164 | each call yields the next attribute of the message and leaves the cursor at the rest; it ends exactly when none are left, and stays in bounds on every decoded message |
| Stun.FindAttribute | rust-client/stun_codec.rs:121-123 | the first attribute of a type in iteration order |
| Stun.MessageBuilder.WithTransaction | rust-client/turn_core.rs:1072-1079 | a fresh message is a header with zero length |
| Stun.MessageBuilder.AddAttribute | rust-client/turn_core.rs:1081-1090 | appends one field whose padding brings the message to a multiple of four |
| Stun.MessageBuilder.XorAddress | rust-client/turn_core.rs:1092-1095 | appends the XOR-encoded address under the message's own transaction |
| Stun.MessageBuilder.Finish | rust-client/turn_core.rs:1107-1112 | patches the length, appends the fingerprint of all before it, or refuses when the length field would overflow |
| Stun.MessageBuilder.FinishAuthenticated | rust-client/turn_core.rs:1097-1105 | the same with MESSAGE-INTEGRITY over the patched message first |
| Stun.BuiltMessageDecodes | rust-client/turn_core.rs:1057-1112 | for every type, transaction and list of fields that fits, the built message decodes to the same type and transaction, iterates the same attributes in order, and its fingerprint validates |
| Stun.AuthenticatedMessageVerifies | rust-client/turn_core.rs:1097-1132 | the authenticated form also passes the integrity check under its own key, whatever HMAC computes |
| Stun.XorAddressRoundTrip | rust-client/turn_core.rs:1172-1217 | every IPv4 or IPv6 address and port survives XOR encoding and decoding |
| StunChecks.IntegrityExactly | rust-client/turn_core.rs:1115-1132 | of every message, written out field by field, integrity holds exactly if a key is known and the first MESSAGE-INTEGRITY is the HMAC under it of the header, its length cut there, and the fields in front |
| StunChecks.FingerprintExactly | rust-client/stun_codec.rs:125-137 | a fingerprint is missing exactly if no field of its type is there, and valid exactly if the first is the last field and the checksum of header and fields before it |
| TurnInvariant.RequestBuilt | rust-client/turn_core.rs:703-751 | what a server reads off a built request is the operation that was meant, with its transaction id; a Deallocate is a Refresh of lifetime zero |
| TurnRequests.RequestReads | rust-client/turn_core.rs:703-751 | what a server reads off every built request, through the decoder: an Allocate asks for UDP, the family of the peer and 600 s, a Refresh for 600 s, a Deallocate for 0 s, permission and bind name the configured peer, the bind the channel number; a signed one carries user name, realm and nonce of the client and its integrity holds under the client's key |
| TurnRequests.StartSends | rust-client/turn_core.rs:667-701 | a request that is not under way and fits is recorded at its first send with its timeout, queued as the last of at most sixteen packets, reads as above, and nothing else changes |
| TurnInvariant.InputStunInv | rust-client/turn_core.rs:362-472 | any inbound bytes at all keep the invariant, never turn the state back and never undo a teardown |
| TurnInvariant.PollInv | rust-client/turn_core.rs:474-535 | a poll keeps the invariant, whatever the clock says |
| TurnInvariant.ExpireInv | rust-client/turn_core.rs:816-843 | the sweep over the table while it removes from it keeps the invariant |
| TurnInvariant.CompleteFailureInv | rust-client/turn_core.rs:935-1026 | a failed request either schedules a retry of its maintenance or takes the allocation down, within the invariant |
| TurnInvariant.CompleteSuccessInv | rust-client/turn_core.rs:845-933 | a success moves the state only forward, READY needing relay, expiry, realm, nonce and key |
| TurnInvariant.StartAllocationInv | rust-client/turn_core.rs:334-346 | starting keeps the invariant also when the request cannot be built |
| TurnInvariant.StartWhenReadyInv | rust-client/turn_core.rs:348-360 | channel and permission requests start only in READY and never twice |
| TurnInvariant.GracefulShutdownInv | rust-client/turn_core.rs:563-585 | shutdown empties the queue and leaves only requests allowed during teardown |
| TurnInvariant.ForceDestroyInv | rust-client/turn_core.rs:587-602 | destruction leaves nothing pending and nothing queued |
| TurnFits.BuiltExactly | rust-client/turn_core.rs:703-751 | a request is built exactly if its attributes, sizes of user name, realm and nonce included, fit the 16-bit length field, and then has exactly that length and the header |
| TurnFits.LostWhenPulledExactly | rust-client/turn_core.rs:537-553 | a built request exceeds the 1024 bytes of the caller's buffer exactly if its attributes exceed 1004 bytes |
| TurnFits.StartsExactly | rust-client/turn_core.rs:667-701 | starting a request succeeds exactly if one is under way or the new one fits |
| TurnFits.StartFinds | rust-client/turn_core.rs:667-701 | starting a request touches no other entry and no entry under way; a new one is at its first send |
| TurnFits.PollFailsExactly | rust-client/turn_core.rs:474-535 | a poll fails exactly if, the timers swept, the core is READY and a refresh, permission or channel request that is due does not fit |
| TurnAlive.InputAlive | rust-client/turn_core.rs:362-472 | an inbound packet of at most 4096 bytes leaves ALLOCATING and DEALLOCATING with their request under way, READY with its refresh scheduled or under way, and realm and nonce small |
| TurnAlive.PollAlive | rust-client/turn_core.rs:474-535 | so does a poll, which then never fails |
| TurnAlive.StartAllocationAlive | rust-client/turn_core.rs:334-346 | so does starting an allocation, which succeeds exactly in an open core that never started one |
| TurnAlive.StartWhenReadyAlive | rust-client/turn_core.rs:348-360 | so does starting a channel or permission request, which succeeds exactly in an open READY core |
| TurnAlive.ShutdownAlive | rust-client/turn_core.rs:563-585 | so does shutdown, which never fails and, if there is an allocation to give back, leaves a Deallocate under way |
| TurnOutcomes.DestroysExactly | rust-client/turn_core.rs:960-977 | an allocation lost: nothing under way or queued, no relay, channel or timer, state, report and final status as the operation says |
| TurnOutcomes.FailsExactly | rust-client/turn_core.rs:935-1026 | the whole outcome of a failed request: failed Allocates and Deallocates end the allocation, a Refresh only once the lifetime is over, maintenance comes again after 1, 2, 4, 8, 16 and then 30 s, the fourth bind in a row gives the allocation up; each with its report |
| TurnOutcomes.SucceedsExactly | rust-client/turn_core.rs:891-933 | the whole outcome of a success other than that of an Allocate, in terms of the lifetime it names; a Refresh that grants zero seconds is refused |
| TurnOutcomes.AllocatesExactly | rust-client/turn_core.rs:852-890 | an Allocate succeeds exactly if a usable relay of the right family and no zero lifetime are named; it is then READY with relay, expiry and timers set and reported, or, after shutdown, gives the allocation back at once |
| TurnOutcomes.DefaultRefresh | rust-client/turn_core.rs:1165-1170 | with the default profile a refresh comes after 300 s or half the granted lifetime, whichever is sooner |
| TurnAnswers.EntryPosition | rust-client/turn_core.rs:372-380 | in every state of the invariant an answer finds the very request it answers |
| TurnAnswers.QueueWithout | rust-client/turn_core.rs:811-814 | dropping a transaction from the queue drops exactly its packets and keeps the others in order |
| TurnAnswers.Hears | rust-client/turn_core.rs:362-412 | for every request under way and every list of fields of its answer, the three verdicts exactly: a false fingerprint is malformed; an unsigned answer is refused unless nothing was signed or it is an error 400, 401, 420, 438 or fingerprinted 437; all others are acted on, the request and its packets gone first |
| TurnAnswers.ForgedIsIgnored | rust-client/turn_core.rs:385-400 | a success, or an error with any other code, to a signed request whose MESSAGE-INTEGRITY is missing or not the HMAC under the client's key changes nothing but the reported events, and is refused as an authentication error |
| TurnAnswers.ChallengeIsAnswered | rust-client/turn_core.rs:436-464 | an unsigned 401 with realm and nonce, or 438 with a nonce, to any request with retries left and room for the answer: that request is under way again with one retry more, at its first send, read by a server as signed with the new nonce under the key md5(user:realm:password), and no other request, timer or state has changed |
| TurnAnswers.ErrorsExactly | rust-client/turn_core.rs:402-472 | the whole outcome of every error that is heard, in terms of its fields: answered, recreated after a mismatch, or failed with its code |
| TurnAnswers.SuccessesExactly | rust-client/turn_core.rs:402-435 | the whole outcome of every success that is heard, in terms of its fields |
| TurnAnswers.StraysAreRefused | rust-client/turn_core.rs:366-384 | a well-formed message that answers no request under way changes nothing: malformed if a response with a false fingerprint, otherwise unsolicited |
| TurnAnswers.GarbageIsRefused | rust-client/turn_core.rs:362-366 | bytes that are no message change nothing and are malformed |
| TurnCalls.QueuesExactly | rust-client/turn_core.rs:781-795 | a packet goes to the end of the queue, the oldest of sixteen making way and reported as dropped |
| TurnCalls.StartsExactlyTo | rust-client/turn_core.rs:667-701 | a request under way is not started again, a bind being queued once more; any other is started exactly if it fits, and the whole new state says how |
| TurnCalls.AllocationStarts | rust-client/turn_core.rs:334-346 | an open core that never started is ALLOCATING, reported, with one unsigned Allocate under way, queued and read as such; any other is refused unchanged |
| TurnCalls.ReadyStarts | rust-client/turn_core.rs:348-360 | channel and permission requests are refused unchanged outside READY; in READY one signed request is under way and queued |
| TurnCalls.ShutdownExactly | rust-client/turn_core.rs:563-585 | shutdown with an allocation to return leaves one signed Refresh of lifetime zero under way and queued and nothing else; with an Allocate under way that alone, the queue emptied; otherwise nothing; all timers stop, and a second call does nothing |
| TurnCalls.DestroyExactly | rust-client/turn_core.rs:587-602 | destruction clears table and queue and reports the status once |
| TurnCalls.TimeoutExactly | rust-client/turn_core.rs:816-834 | a lone request out of tries fails with a timeout, its packets gone from the queue |
| TurnCalls.ExpiryExactly | rust-client/turn_core.rs:481-488 | an allocation whose lifetime has run out while READY is given up and reported as a Refresh that timed out; otherwise only the sweep happens |
| TurnCalls.DeadlineIsLeast | rust-client/turn_core.rs:1044-1054 | the next deadline is one of the request and timer deadlines, and none is earlier |
| TurnCalls.PollWaits | rust-client/turn_core.rs:474-535 | every poll that does not fail says to wait until the earliest deadline of what it leaves under way and scheduled, 1 ms at least, or for ever if there is none; it is closed exactly when destroyed |
| TurnSends.PollSends | rust-client/turn_core.rs:489-527 | a poll of any reachable core that is READY after the sweep, unless it fails: started are exactly those of Refresh, Permission and Channel that are due and not under way; the queue is the old one followed by their packets, and by the one-byte keepalive frame exactly if it is due, a channel is bound and none was started, the oldest over sixteen dropped; the timers move accordingly |
| TurnSends.SweepSends | rust-client/turn_core.rs:816-843 | every request that is due and not out of tries is queued again by the sweep and is still there after it, unless the allocation is given up; the transaction ids under way must differ |
| TurnSends.SweepSendsOnly | rust-client/turn_core.rs:816-843 | the sweep queues nothing but packets of requests that were due |
| TurnRuns.StepInv | rust-client/turn_core.rs:334-602 | every entry point keeps the invariant: one request per operation at most, each suiting the state, READY implies relay, expiry, realm, nonce, key and no shutdown, a bound channel implies READY or destroyed, queues within 16 and 64 |
| TurnRuns.ReachableInv | rust-client/turn_core.rs:334-602 | the invariant holds after every sequence of calls with arbitrary inbound bytes |
| TurnRuns.ReadyEnteredOnce | rust-client/turn_core.rs:641-653 | READY is one unbroken stretch of every run |
| TurnRuns.ShutdownSilences | rust-client/turn_core.rs:563-585 | after shutdown, on every continuation, the state is not READY and only Allocate and zero-lifetime Refresh packets are ever in the queue: no permission, channel bind, other refresh or keepalive |
| TurnRuns.LateAllocateIsReturned | rust-client/turn_core.rs:852-890 | an Allocate that succeeds after shutdown began goes to DEALLOCATING with a zero-lifetime Refresh as its only request |
| TurnRuns.DestroyedStaysSilent | rust-client/turn_core.rs:587-602 | after destruction nothing is pending or queued again, whatever is called |
| TurnRuns.PollsOnTimeExactly | rust-client/turn_core.rs:474-535 | on every run with a forward clock and any inbound bytes, a poll fails exactly if a due maintenance request does not fit, and then before expiry; every other poll that leaves the core READY comes before expiry and asks to be called again after at least 1 ms and at most the keepalive interval |
| TurnRuns.ReachableAlive | rust-client/turn_core.rs:334-602 | after every run with inbound packets of at most 4096 bytes, READY has its refresh scheduled or under way, and ALLOCATING and DEALLOCATING have exactly their one request under way |
| TurnRuns.NothingFails | rust-client/turn_core.rs:334-602 | on every such run no start, poll or shutdown fails for want of space: only the guards on the state decide |
| TurnRuns.PollsOnTime | rust-client/turn_core.rs:474-535 | on every such run with a forward clock no poll fails, and one that leaves the core READY comes before expiry and asks to be called again after at least 1 ms and at most the keepalive interval |
| TurnRuns.DefaultProfileDelay | rust-client/turn_core.rs:72-102 | with the default profile every poll of such a run that leaves the core READY returns a delay between 1 ms and 10 s |
| TurnRuns.RefreshBeforeExpiry | rust-client/turn_core.rs:891-905 | every successful Refresh schedules the next one no later than half the granted lifetime and strictly before expiry |
| TurnRuns.AllocateRefreshesBeforeExpiry | rust-client/turn_core.rs:852-890 | so does every successful Allocate, late ones included |
| TurnRuns.DeadlineInTime | rust-client/turn_core.rs:1165-1170 | the refresh deadline lies within half of any non-zero lifetime, whatever interval is configured |
| TurnRetries.RtoClosedForm | rust-client/turn_core.rs:835-841 | the timeout after the k-th send is min(200 ms * 2^(k-1), 1600 ms) |
| TurnRetries.LadderTotal | rust-client/turn_core.rs:67-70 | seven sends take 7.8 s to run out |
| TurnRetries.RequestsWithinLimits | rust-client/turn_core.rs:816-843 | in every reachable state a request is within its nonce retries and its seven sends (one on a stream), and one that times out has been out for at least 7.8 s (12 s on a stream) |
| TurnRetries.RetryLadder | rust-client/turn_core.rs:996-1026 | failed maintenance backs off from 1 s, doubling, to 30 s |
| TurnRetries.FailedMaintenanceRetries | rust-client/turn_core.rs:935-1026 | a maintenance request that fails while the allocation lives leaves the core READY with the request scheduled again, except the fourth channel bind in a row, which gives the allocation up but keeps its expiry for a later return |
| TurnRetries.SweepKeepsOrResends | rust-client/turn_core.rs:816-843 | every entry left by the timer sweep was not due or is a due entry sent once more |
| TurnRetries.SweepNearer | rust-client/turn_core.rs:816-843 | for every operation, a due request that survives a sweep is strictly nearer its end in the number of due polls it can still see |
| TurnRetries.ResponseLeaves | rust-client/turn_core.rs:402-472 | after any response the answered request is gone, or is retried once with one nonce retry more, or is the Deallocate of a late Allocate; other requests stay |
| TurnRetries.ResponseNearer | rust-client/turn_core.rs:436-464 | for every operation, a request that goes on after a response is at its first send with one nonce retry more used, and no more due polls can come for it than before |
| TurnRetries.StepResolves | rust-client/turn_core.rs:334-602 | whatever is called, the sole Allocate or Deallocate goes on in the same state no farther from its end or is resolved, and a due poll brings it strictly nearer |
| TurnRetries.DeallocateResolves | rust-client/turn_core.rs:935-977 | on every run a pending Deallocate comes to DEALLOCATED or destruction unless fewer polls came when it was due than its measure, the resends left and the timeout; and no run brings it more due polls than that |
| TurnRetries.DeallocateResolvesInTime | rust-client/turn_core.rs:816-843 | 6 * max_nonce_retries + 7 polls, 25 by default, each when it is due or nothing is under way, see it to DEALLOCATED or destruction; no run brings it more due polls |
| TurnProgress.SweepRetains | rust-client/turn_core.rs:816-843 | a timer sweep drops an entry only if it times out or another's timeout ends the allocation |
| TurnProgress.MaintenanceKeeps | rust-client/turn_core.rs:489-527 | the maintenance of a poll touches no request under way, and what it starts is at its first send with no retries used |
| TurnProgress.StepNearer | rust-client/turn_core.rs:334-602 | for every operation and every call, the request under way leaves the table or is no farther from its end, strictly nearer after a poll that found it due; the one exception timed out and was asked for afresh in the same poll |
| TurnProgress.RequestResolves | rust-client/turn_core.rs:334-602 | on every run, for every operation, the request under way ends or fewer polls came when it was due than its measure; and before its end it never sees more due polls than that |
| TurnProgress.RequestResolvesInTime | rust-client/turn_core.rs:816-843 | from every reachable state, 6 * max_nonce_retries + 7 polls, each when the request is due or gone, see any request to its end; before it no run brings more due polls |
| TurnProgress.AllocateResolves | rust-client/turn_core.rs:362-472 | on every run a pending Allocate takes the core past ALLOCATING unless fewer polls came when it was due than its measure |
| TurnProgress.AllocatingEnds | rust-client/turn_core.rs:334-535 | from every ALLOCATING state reached with small inbound packets, 6 * max_nonce_retries + 7 polls, each when the Allocate is due or gone, lead past it |
| TurnProgress.ShutdownReturns | rust-client/turn_core.rs:563-585 | after shutdown of a core so reached that is READY, or gave its channel up while the lifetime runs on, as many polls, each when the request is due or none is under way, lead to DEALLOCATED or destruction; no run brings more due polls |
| TurnProgress.TeardownNearer | rust-client/turn_core.rs:334-602 | during a teardown every call leaves no more due polls to go, and a due poll at least one less, also where an Allocate under way turns into a Deallocate |
| TurnProgress.ShutdownCompletes | rust-client/turn_core.rs:563-585 | after shutdown from every state reached with small inbound packets, 12 * max_nonce_retries + 13 polls, each when the request is due or none is under way, leave nothing under way for good: initial, DEALLOCATED or DESTROYING; no run brings more due polls |
| TurnProgress.PollsServe | rust-client/turn_core.rs:474-535 | such polls can always be made: from any state, any number of them, with nothing else called and a forward clock |
| TurnProgress.PollingCompletes | rust-client/turn_core.rs:474-585 | so a caller that only polls after shutdown, each time when the request is due, completes the teardown from every such state |
| TurnTimers.ReachableTimers | rust-client/turn_core.rs:845-994 | in every reachable state outside READY, which timers may be set: none before it, no retries after it, in DESTROYING only the refresh of an allocation still known, in DEALLOCATED keepalive and maintenance only together |
| TurnTimers.IdlePollsExactly | rust-client/turn_core.rs:474-535 | in every reachable DEALLOCATED or DESTROYING state, whatever is called short of shutdown and destruction, a poll changes nothing and reports 1 ms exactly if a timer left over is at most 1 ms away or past, and otherwise the time to it, or no deadline |
| TurnTimers.WaitingPollsExactly | rust-client/turn_core.rs:474-535 | the same while an Allocate or Deallocate is waited for that is not itself about to be due; in ALLOCATING no timer is left over |
| TurnTimers.ShutdownClears | rust-client/turn_core.rs:563-585 | shutdown past ALLOCATING leaves no keepalive on any continuation, and no timer at all in DEALLOCATED |
| TurnTimers.LateReturnLeaves | rust-client/turn_core.rs:852-915 | the success of an Allocate after shutdown began, followed by that of its Deallocate, leaves keepalive and maintenance set in DEALLOCATED |
| TurnLost.ChallengeReads | rust-client/turn_core.rs:402-464 | the 401 to an Allocate, of exact size, decodes as written: fingerprint, error code, realm and nonce |
| TurnLost.ChallengeAnswered | rust-client/turn_core.rs:436-464 | a client that starts to allocate and is challenged has, if the answer fits, one signed Allocate under way and queued, of exact size, with the realm and nonce of the challenge; its key is the hash of user name, realm and password, and a server that knows it reads the Allocate as signed |
| TurnLost.ChallengeLostExactly | rust-client/turn_core.rs:537-553 | a client that starts to allocate and is challenged has one request under way and its packet queued, and pulling that packet loses it exactly if padded user name, realm and nonce exceed 936 bytes |
| TurnLost.RequestLost | rust-client/turn_core.rs:537-553 | a run of two calls after which the next pull loses the request, for every configuration that retries |
| TurnWitness.GrantArrives | rust-client/turn_core.rs:845-890 | a signed success, built byte by byte, takes a client waiting for its Allocate to READY with expiry, maintenance and keepalive set, or to DEALLOCATING with its Deallocate under way |
| TurnWitness.ReturnArrives | rust-client/turn_core.rs:906-915 | the signed answer to the Deallocate takes it to DEALLOCATED with keepalive and maintenance as they were |
| TurnWitness.LateReturnPolls | rust-client/turn_core.rs:474-602 | a run of five calls to DEALLOCATED with the keepalive set, after which every poll past it reports 1 ms, for every configuration that retries and all credentials that fit |
| TurnWitness.MaintenanceFailsExactly | rust-client/turn_core.rs:474-535 | after a run of three calls to READY the first maintenance poll fails exactly if the peer is at an IPv6 address and user name, realm and nonce take at least 65460 bytes |
| TurnWitness.PollFails | rust-client/turn_core.rs:474-535 | a run of three calls to READY after which a poll fails, for every configuration with an IPv6 peer that retries |
| TurnCore.FindPending | rust-client/turn_core.rs:667-683 | the loop finds the first request of an operation |
| TurnCore.FindPosition | rust-client/turn_core.rs:372-380 | the loop finds the first request a response can answer, by transaction and method |
| TurnCore.Retain | rust-client/turn_core.rs:811-814 | the queue without the packets of one transaction, in order |
| TurnCore.EarliestOf | rust-client/turn_core.rs:1044-1054 | the earliest retransmission time |
| TurnCore.NativeCore.Create | rust-client/turn_core.rs:278-332 | refuses exactly a zero port and an empty or overlong user name or password, as an invalid argument; otherwise a valid core in the initial state |
| TurnCore.NativeCore.StartAllocation | rust-client/turn_core.rs:334-346 | keeps the core valid; succeeds exactly once, in an open core, if the request fits, and then is ALLOCATING with that one request under way |
| TurnCore.NativeCore.StartChannel | rust-client/turn_core.rs:348-353 | keeps the core valid and every request under way; succeeds only in READY and then a bind is under way, queued again if it was before; a refusal changes nothing |
| TurnCore.NativeCore.StartPermission | rust-client/turn_core.rs:355-360 | the same for a permission request |
| TurnCore.NativeCore.InputStun | rust-client/turn_core.rs:362-472 | any bytes keep the core valid and its state never turns back; the result is the step `TurnAnswers` describes for every answer, and malformed and foreign packets change nothing |
| TurnCore.NativeCore.Poll | rust-client/turn_core.rs:474-535 | keeps the core valid; closed exactly when destroyed, failed exactly when a due request does not fit, and READY afterwards only before expiry; otherwise the time to the earliest deadline of what it leaves, and what it sends is what `TurnSends.PollSends` says |
| TurnCore.NativeCore.PullControl | rust-client/turn_core.rs:537-553 | keeps the core valid; takes the oldest packet off the queue, lost with an error if over 1024 bytes |
| TurnCore.NativeCore.PullEvent | rust-client/turn_core.rs:555-557 | takes the oldest event |
| TurnCore.NativeCore.GracefulShutdown | rust-client/turn_core.rs:563-585 | keeps the core valid; afterwards it is not READY and only teardown packets are queued; from READY, if the request fits, a Deallocate is its one request |
| TurnCore.NativeCore.ForceDestroy | rust-client/turn_core.rs:587-602 | keeps the core valid; destroyed, nothing pending, nothing queued, whatever went before |
| TurnCore.NativeCore.StartOperation | rust-client/turn_core.rs:667-701 | starts a request unless one is under way, queueing and recording the packet it built; succeeds exactly if one is under way, or credentials are there where needed and the request fits |
| TurnCore.NativeCore.BuildRequest | rust-client/turn_core.rs:703-751 | the packet assembled attribute by attribute is that of the request's field list, and a server reads off it what `TurnRequests.RequestReads` says |
| TurnCore.NativeCore.ExpireTransactions | rust-client/turn_core.rs:816-843 | the index loop over a shrinking table is the recursive sweep the lemmas are about |
| TurnCore.NativeCore.CompleteSuccess | rust-client/turn_core.rs:845-933 | the effects of a success, per operation; the state does not turn back, and but for an Allocate the table is untouched and a refusal changes nothing |
| TurnCore.NativeCore.CompleteFailure | rust-client/turn_core.rs:935-958 | the effects of a failure; the state does not turn back, and the other requests stay under way or all go and READY with them |
| TurnCore.NativeCore.DestroyAllocation | rust-client/turn_core.rs:960-977 | leaves no request, packet, channel, relay, expiry or keepalive |
| TurnCore.NativeCore.ScheduleRetry | rust-client/turn_core.rs:996-1026 | the failure counters and back-off delays; out of tries exactly at the fourth bind in a row |
| TurnCore.NativeCore.Maintain | rust-client/turn_core.rs:489-527 | takes the maintenance step of a poll, which `TurnSends.PollSends` pins down: due requests, or a keepalive where none was started; no request under way is touched, and new ones are at their first send |
| TurnCore.NativeCore.NextDeadline | rust-client/turn_core.rs:1044-1054 | a deadline of some request or timer, and none is earlier; none exactly if there is none |
| Keepalive.KeepaliveIsFramed | rust-client/turn_core.rs:763-772 | in every reachable state a keepalive is queued as one-byte ChannelData of the bound channel, eight bytes in all, in place of the oldest packet if the queue is full, and any reader takes it as such; without a channel nothing is queued |
| ReplayWindow.Window.constructor | rust-client/session.rs:392-399 | an empty window mirrors an empty record |
| ReplayWindow.Window.Accept | rust-client/session.rs:402-430 | decides on every counter like the unbounded record, accepting an unseen counter less than 16384 behind the highest and no other, and goes on mirroring it; the clearing loop frees exactly the slots passed over |
| ReplayWindow.Window.SetBit | rust-client/session.rs:432-435 | one slot of the ring set, all others as they were |
| ReplayWindow.Window.ClearBit | rust-client/session.rs:437-440 | one slot cleared, all others as they were |
| ReplayWindow.Window.TestBit | rust-client/session.rs:442-445 | the slot of the counter |
| ReplayWindow.Window.AcceptRtp | rust-client/session.rs:447-459 | decides on the extended counter like the unbounded record |
| ReplayWindow.AcceptedOnce | rust-client/session.rs:402-430 | no counter is accepted twice in any run |
| ReplayWindow.ReorderingIsAccepted | rust-client/session.rs:402-430 | counters that differ and lie within 16384 of each other are all accepted, in any order, and no others are |
| ReplayWindow.LateIsRefused | rust-client/session.rs:402-430 | on every run a counter 16384 or more behind an accepted one is refused |
| ReplayWindow.AheadIsAccepted | rust-client/session.rs:402-430 | one ahead of all accepted ones, by any distance, is accepted and is the highest |
| ReplayWindow.ExtendExact | rust-client/session.rs:447-459 | a counter is recovered from its low 16 bits if and only if it lies within half a cycle, as the cases say |
| ReplayWindow.NotRecovered | rust-client/session.rs:447-459 | a sequence number that is not recovered, outside the exact condition |
| ReplayWindow.ExtendNear | rust-client/session.rs:447-459 | a distance below half a cycle, either way, suffices |
| ReplayWindow.RtpDecidesOnTrueIndex | rust-client/session.rs:447-459 | across any number of wraps, deciding on 16-bit numbers is deciding on the true index less a constant, if each index is within 32767 of the highest and none precedes the first cycle |
| PacketPool.StepInv | rust-client/packet.rs:68-138 | every atomic step of every thread keeps: `retained` is queue plus threads between their two steps, `allocated` is live plus queued plus in transit and at most the capacity, a buffer is in one place only, only full-length buffers are kept |
| PacketPool.ReachableInv | rust-client/packet.rs:54-138 | so after every interleaving |
| PacketPool.NoUnderflow | rust-client/packet.rs:119-138 | no decrement takes a counter below zero |
| PacketPool.PushNeverFails | rust-client/packet.rs:134-137 | the branch for a failed push is unreachable |
| PacketPool.AcquiredIsExclusive | rust-server/packet.rs:50-67 | a buffer taken from the queue has its full length and is held nowhere else |
| PacketPool.AvailableExactly | rust-client/packet.rs:98-103 | what `available` computes is the capacity less live and in-transit buffers |
| PacketPool.QuiescentRecovers | rust-client/packet.rs:98-103 | with all handles dropped and all threads done the whole capacity is available again and idle storage is within its limit |
| PacketPool.AcquireExactly | rust-client/packet.rs:68-85 | undisturbed, one more buffer is handed out exactly while fewer than the capacity are out |
| PacketPool.ReleaseExactly | rust-server/packet.rs:77-96 | undisturbed, a release makes exactly one more buffer available, kept for reuse exactly when of full length and below the retention limit |
| PacketPool.FailsWithBufferQueued | rust-client/packet.rs:68-79 | an interleaving in which an acquire fails although a buffer is queued |
| PacketPool.AllocateFailsExactly | rust-client/packet.rs:72-78 | the capacity check fails if and only if every buffer is live, queued or in a thread's hands |
| PacketQueue.StepInv | rust-client/dispatcher.rs:133-239 | every step of any number of senders and the receiver keeps the invariant on epochs, ownership, order and capacity |
| PacketQueue.ReachableInv | rust-client/dispatcher.rs:242-257 | so after every interleaving |
| PacketQueue.DeliveredExactly | rust-client/dispatcher.rs:160-168 | after every interleaving, the packet in hand is delivered exactly if the queue is active and a multiple of 2^63 resumes has come since its sender read the state word; if fewer than 2^63 came, the word has not been written since: no resume or suspend |
| PacketQueue.NothingSurvives | rust-client/dispatcher.rs:196-218 | a packet whose sender had read the state word before a resume or suspend is never delivered after it, wherever it was and whatever follows, until the queue has been resumed 2^63 times since |
| PacketQueue.SurvivesExactly | rust-client/dispatcher.rs:196-218 | the limit is sharp: for every n, a packet pushed n resumes after its sender read the word is delivered if and only if n is a multiple of 2^63 |
| PacketQueue.OneFate | rust-client/dispatcher.rs:133-168 | a submitted packet is in exactly one place at any time, its fate is never revised, and occupancy stays within capacity |
| PacketQueue.DeliveredInOrder | rust-client/dispatcher.rs:160-168 | packets come out in the order in which they were pushed |
| PacketQueue.SendsExactly | rust-client/dispatcher.rs:133-152 | undisturbed, a send to a closed, inactive or (unless forced) full queue is rejected; otherwise the packet is last in the queue, the oldest evicted from a full one |
| PacketQueue.ReceivesExactly | rust-client/dispatcher.rs:160-168 | undisturbed, a receive takes the oldest packet and delivers it exactly if the queue is active and the tag current |
| PacketQueue.ResumesExactly | rust-client/dispatcher.rs:196-205 | undisturbed, a resume purges every packet and leaves the queue empty, active and in the next epoch |
| PacketQueue.SuspendsExactly | rust-client/dispatcher.rs:207-214 | undisturbed, a suspend purges every packet and leaves the queue empty, inactive and in the same epoch |
| PacketQueue.ClosesExactly | rust-client/dispatcher.rs:234-240 | undisturbed, closing purges every packet and leaves the queue closed |
| PacketChannel.Channel.constructor | rust-client/dispatcher.rs:242-257 | an empty deque of at least one place |
| PacketChannel.Channel.SendInner | rust-client/dispatcher.rs:133-152 | a bounded deque takes the packet, drops its oldest for it when forced, or hands it back |
| PacketChannel.Channel.TryRecvInner | rust-client/dispatcher.rs:160-168 | returns the first packet of the current epoch and discards what is in front of it; in undisturbed use that is the front of the deque |
| PacketChannel.Channel.Resume | rust-client/dispatcher.rs:196-205 | the deque is empty and accepting under the next epoch, which wraps at 63 bits |
| PacketChannel.Channel.Suspend | rust-client/dispatcher.rs:207-214 | the deque is empty and refuses, in the same epoch |
| PacketChannel.Channel.Purge | rust-client/dispatcher.rs:216-218 | nothing is left queued |
| PacketChannel.Channel.Close | rust-client/dispatcher.rs:234-240 | the deque is empty and refuses for good |
| Downlink.ProfileGrows | rust-server/downlink_queue.rs:19-37 | the slot counts per class, monotone in the paths and capped at those of 126 |
| Downlink.Resize | rust-server/downlink_queue.rs:46-61 | the loops arrive at exactly the capacity, keeping the oldest pending packets and giving up free slots first |
| Downlink.ClearPending | rust-server/downlink_queue.rs:87-91 | all pending slots become free, none is lost |
| Downlink.ApplyValid | rust-server/downlink_queue.rs:165-250 | every operation leaves rings that are those of the lanes and cursors inside them |
| DownlinkRuns.InRing | rust-server/downlink_queue.rs:212-228 | a ring holds exactly the active lanes |
| DownlinkRuns.WeightedCounts | rust-server/downlink_queue.rs:212-228 | the bulk ring holds each lane once per active path |
| DownlinkRuns.NothingExactly | rust-server/downlink_queue.rs:182-192 | a dequeue returns nothing if and only if every active lane is empty for the class |
| DownlinkRuns.WeightedFair | rust-server/downlink_queue.rs:182-250 | while all active lanes stay backlogged and unreconfigured, any ring-length of bulk dequeues, interleaved with anything else, serves each lane exactly as often as it has paths, from any cursor |
| DownlinkRuns.ComesNearer | rust-server/downlink_queue.rs:182-192 | a dequeue that serves another lane brings a waiting lane strictly nearer its turn |
| DownlinkRuns.ServedWithinOneTurn | rust-server/downlink_queue.rs:182-250 | a lane that keeps a packet waiting is served within one ring-length of dequeues |
| DownlinkRuns.RequeueUndoes | rust-server/downlink_queue.rs:194-198 | requeueing what a dequeue returned restores all lanes |
| DownlinkRuns.InOrder | rust-server/downlink_queue.rs:63-81 | over every run each lane gives out the packets of a class in the order it took them, requeues undoing dequeues |
| DownlinkRuns.ClearedStartsOver | rust-server/downlink_queue.rs:206-210 | clearing a lane leaves nothing pending in any class and loses no slot; on every run after it the lane gives out only packets it took after it, in order |
| DownlinkRuns.InactiveLaneRests | rust-server/downlink_queue.rs:165-192 | on every run a lane without paths takes no packet and is not served until it is configured again |
| DownlinkRuns.TurnGoesOn | rust-server/downlink_queue.rs:212-236 | configuring a lane whose turn is still to come leaves the turn where it was: the lanes passed stay passed, unless none is left to come |
| DownlinkSlots.ReconfigureExactly | rust-server/downlink_queue.rs:108-114 | resizing a lane keeps its slots in account if and only if none are checked out |
| DownlinkSlots.ResizedWhileOut | rust-server/downlink_queue.rs:108-114 | a run that reconfigures while a slot is out, after which the account is off by that slot |
| DownlinkSlots.ReconfiguredTotal | rust-server/downlink_queue.rs:165-174 | a resized lane has its profile's slots plus those that were out |
| DownlinkSlots.RunConserves | rust-server/downlink_queue.rs:46-128 | free plus pending plus checked-out slots equal the profile after every run in which slots are returned once and lanes are resized with all slots at home |
| DownlinkSlots.AcceptsExactly | rust-server/downlink_queue.rs:176-180 | a lane takes a packet if and only if it fits a slot and pending plus checked-out slots are below the profile |
| DownlinkSlots.DownlinkQueue.constructor | rust-server/downlink_queue.rs:150-162 | all lanes inactive, no slots, rings empty |
| DownlinkSlots.DownlinkQueue.Configure | rust-server/downlink_queue.rs:165-174 | resizes the lane and rebuilds the rings, or does nothing if the paths are unchanged or the lane does not exist |
| DownlinkSlots.DownlinkQueue.RebuildRings | rust-server/downlink_queue.rs:212-228 | the loop builds the plain and the weighted ring and brings the cursors back inside |
| DownlinkSlots.DownlinkQueue.Enqueue | rust-server/downlink_queue.rs:176-180 | takes the packet into a free slot at the end of its lane or refuses it, changing nothing |
| DownlinkSlots.DownlinkQueue.NextKey | rust-server/downlink_queue.rs:238-250 | the lane whose turn it is, the cursor moving on and wrapping |
| DownlinkSlots.DownlinkQueue.Dequeue | rust-server/downlink_queue.rs:182-192 | the loop finds the first non-empty lane from the cursor round the ring, or leaves everything as it was |
| DownlinkSlots.DownlinkQueue.RequeueFront | rust-server/downlink_queue.rs:194-198 | the packet goes back to the front of its lane |
| DownlinkSlots.DownlinkQueue.Recycle | rust-server/downlink_queue.rs:200-204 | the slot is free again |
| DownlinkSlots.DownlinkQueue.Clear | rust-server/downlink_queue.rs:206-210 | the lane's pending slots of all three classes become free, none is lost, and nothing of them is given out again (`DownlinkRuns.ClearedStartsOver`) |
| Workers.CanonicalIsUnique | rust-client/dispatcher.rs:269-300 | there is one canonical order of a set of workers, so the list depends on the set alone |
| Workers.PrefixIsFair | rust-client/dispatcher.rs:288-299 | in every prefix a path with workers left is at most one behind any other path |
| Workers.GroupByPath | rust-client/dispatcher.rs:275-287 | the loop makes one group per path, paths and ids in order, of exactly the given workers |
| Workers.Round | rust-client/dispatcher.rs:290-295 | one round takes the worker at this offset from every group that has one, in group order |
| Workers.RoundRobin | rust-client/dispatcher.rs:288-299 | the rounds go on until one adds nothing, which is after exactly as many as the longest group has workers |
| Workers.InterleaveTurnPaths | rust-client/dispatcher.rs:269-300 | the result is the canonical order of exactly the given workers |
| Workers.Dispatcher.Register | rust-client/dispatcher.rs:432-441 | the worker replaces the one of the same id; ids stay unique and the list canonical |
| Workers.Dispatcher.Unregister | rust-client/dispatcher.rs:443-449 | only that very incarnation goes; a stale one leaves the list as it was |
| Workers.Replay | rust-client/dispatcher.rs:432-449 | after any history the list is the canonical order of the workers alive |
| Workers.LiveIsUnique | rust-client/dispatcher.rs:432-449 | ids are unique after any history |
| Workers.LiveExactly | rust-client/dispatcher.rs:432-449 | after any history a worker is alive exactly if it came and since then nobody of its id came and that incarnation did not leave, or was there from the start and that holds of the whole history |
| Workers.SameLiveSameList | rust-client/dispatcher.rs:269-300 | two histories with the same workers alive give the same list |
| Packet.PacketBuf.constructor | rust-client/packet.rs:80-84 | an empty packet behind 64 bytes of headroom |
| Packet.PacketBuf.SetReadLen | rust-client/packet.rs:170-176 | the range becomes the first bytes after the headroom, or an error and no change |
| Packet.PacketBuf.Prepend | rust-client/packet.rs:178-184 | room in front of unchanged contents, or an error and no change |
| Packet.PacketBuf.ExtendTail | rust-client/packet.rs:186-196 | room behind unchanged contents, or an error and no change |
| Packet.PacketBuf.TrimFront | rust-client/packet.rs:198-204 | the contents less their first bytes, or an error and no change |
| Packet.PacketBuf.Truncate | rust-client/packet.rs:206-212 | the first bytes of the contents, or an error and no change |
| Packet.PacketBuf.SetRange | rust-client/packet.rs:222-228 | a range within the storage, or an error and no change; a subrange shows the matching slice |
| TurnStream.VerdictIsStable | rust-client/turn_stream.rs:188-263 | a frame or error found in a prefix is the one found in any longer input, the rest growing by what was added |
| TurnStream.FramesExactly | rust-client/turn_stream.rs:188-263 | a frame is cut off the bytes if and only if they start with it: a STUN message with length, cookie and at most 4096 bytes, or ChannelData filled up to a multiple of four, at most 2240 bytes |
| TurnStream.RefusedExactly | rust-client/turn_stream.rs:215-263 | bytes are refused exactly if no frame can begin with them, whatever follows, once the bytes that show it are there |
| TurnStream.FramesTile | rust-client/turn_stream.rs:188-213 | the frames of a stream and what is left over tile it |
| TurnStream.CopyChannelData | rust-client/turn_stream.rs:265-272 | a frame that fits is copied into a fresh packet byte for byte, or dropped when the pool is empty; setting the length cannot fail |
| TurnStream.TurnStreamReader.DecodeFrame | rust-client/turn_stream.rs:188-213 | cuts one frame off the buffer, or leaves it alone |
| TurnStream.TurnStreamReader.ReadFrame | rust-client/turn_stream.rs:162-179 | the frame or error is that of the concatenated input, however it is cut into reads; the hard limit is never reached, and an abandoned read loses nothing |
| TurnStream.ReadAll | rust-client/turn.rs:1046-1095 | reading to the first error gives the frames and the error of the stream, whatever pieces it came in |
| TurnStream.EncodeChannelData | rust-client/turn.rs:1430-1459 | frames the payload in place with header and zero padding exactly when channel, headroom and capacity allow, and otherwise changes nothing |
| TurnStream.HeaderExactly | rust-client/turn.rs:1408-1423 | a datagram is ChannelData of a channel and length if and only if it is that header, the payload and up to three more bytes |
| TurnStream.ChannelDataReadsBack | rust-client/turn.rs:1408-1459 | encoded ChannelData reads back as the same channel and payload |
| TurnStream.StreamTakesChannelData | rust-client/turn_stream.rs:226-263 | encoded ChannelData in front of any stream is its first frame if and only if it is at most 2240 bytes, and is refused as too long otherwise |
| TurnStream.FramedButRefused | rust-client/turn_stream.rs:226-263 | a payload that the encoder frames and every stream refuses as too long |
| TurnStream.StreamTakesMessage | rust-client/turn_stream.rs:226-250 | a decodable STUN message in front of any stream is its first frame if and only if it is at most 4096 bytes |
| TurnStream.StreamRoundTrip | rust-client/turn_stream.rs:162-263 | any mixture of ChannelData and STUN messages that fit, written one after the other, is read back frame by frame with nothing left |
| Obfs.RoundTrip | rust-client/obfs.rs:116-303 | for both modes, every payload, padding, marker, timestamp and sequence number, unwrapping the wrapped packet gives the payload and the sequence number, and the packet looks like RTP |
| Obfs.HeaderParses | rust-client/obfs.rs:222-246 | the fixed header is read back field by field |
| Obfs.ExtensionsRead | rust-client/obfs.rs:160-176 | a reader of RFC 8285 one-byte extensions finds, in every header, send time under id 3 and transport number under id 5, and nothing else |
| Obfs.WireReads | rust-client/obfs.rs:116-220 | so a reader of the RTP header and of the extension block recovers every field from every wrapped packet |
| Obfs.WireSize | rust-client/obfs.rs:116-220 | wrapping adds 35 to 94 bytes to a video payload and 41 to 64 to an audio payload |
| Obfs.WrapsProgress | rust-client/obfs.rs:120-176 | successive wraps carry successive sequence and transport numbers; readings n whole seconds apart differ by 48000 n or 90000 n in timestamp and by 262144 n in send time |
| Obfs.ParsesExactly | rust-client/obfs.rs:222-246 | a packet is taken for RTP exactly if it is version 2 of a known payload type with its extension, if any, in full and a byte more |
| Obfs.VideoAcceptsExactly | rust-client/obfs.rs:246-278 | a video packet is accepted exactly if tag and padding are as written by a sender, and then as what the key stream of its own header unmasks |
| Obfs.AudioAcceptsExactly | rust-client/obfs.rs:278-303 | an audio packet is accepted exactly if its padding is proper and its seal opens under its own header and number, and then as what it opens to |
| Obfs.Wrap | rust-client/obfs.rs:116-220 | wraps in place exactly when payload, headroom and capacity allow, and otherwise leaves the packet untouched; the counters advance unless the payload is empty, and a reader recovers header, send time and transport number from the packet |
| Obfs.Unwrap | rust-client/obfs.rs:222-303 | on arbitrary bytes every access stays inside the packet, the verdict is that of the format, and a rejected packet keeps its range |
| Obfs.WrapUnwrap | rust-client/obfs.rs:379-392 | a packet that could be wrapped comes back from unwrapping with its bytes, its place and its sequence number |
| Obfs.ObfsState.Next | rust-client/obfs.rs:87-93 | both counters advance by one and wrap |
| Obfs.NoncesDiffer | rust-client/obfs.rs:347-367 | two wraps fewer than 65536 apart never share a nonce, whatever the clock says and also across the wrap of the counter |
| Obfs.BlocksDiffer | rust-client/obfs.rs:307-367 | nor do they share a block of the key stream, which counts up from the vector modulo 2^128, within 2^32 blocks each |
| LogWriter.StepInv | rust-client/logging.rs:142-162 | every atomic step of any number of producers and the writer keeps: `outstanding` counts the lines queued and in everybody's hands, and every accepted line is accounted for |
| LogWriter.AcceptedIsAccounted | rust-client/logging.rs:142-162 | accepted lines are written, dropped or outstanding, with the exact correction for threads between two counters and none when they are not; `outstanding` never goes negative |
| LogWriter.OutstandingAtRest | rust-client/logging.rs:169-173 | with nobody at work the outstanding lines are those queued |
| LogWriter.WrittenInOrder | rust-client/logging.rs:387-432 | the lines given to a sink, repetitions written out, are the lines popped, in order, less those being gathered or held over |
| LogWriter.BurstIsBounded | rust-client/logging.rs:392-432 | while a diagnostic keeps waiting at most 32 protocol lines are written before a diagnostic is, however producers interleave |
| LogWriter.GivesUpAfterFour | rust-client/logging.rs:142-162 | however the threads interleave, a producer gives its line up only after exactly four failed pushes |
| LogWriter.LogsExactly | rust-client/logging.rs:122-162 | undisturbed, a line goes in at the end; on a full queue the oldest makes way and is counted as dropped |
| LogWriter.Drains | rust-client/logging.rs:387-432 | from every reachable state the writer, left to itself, comes to rest with every line that was queued, in hand or held over written, in order |
| LogWriter.BurstIsUsed | rust-client/logging.rs:392-402 | waiting protocol lines are written first, one after the other, up to the burst of 32 |
| LogWriter.TurnsToDiagnostics | rust-client/logging.rs:403-432 | then, or with no protocol line waiting, the diagnostic held over is taken, or else the oldest queued |
| LogWriter.TurnsBackToProtocol | rust-client/logging.rs:392-432 | if there is no diagnostic, one protocol line is written after all, and the burst starts with it |
| LogWriter.Coalesces | rust-client/logging.rs:403-425 | a diagnostic and its repetitions right behind it become one entry that counts them, up to 64; the first different one is held over and the burst starts anew |
| CredentialCache.StaleChangesNothing | rust-client/worker.rs:381-449 | no news about a credential that is not current changes the cache |
| CredentialCache.StepInv | rust-client/worker.rs:346-449 | every call keeps the account of leases of every generation but the last, which saturation shares out |
| CredentialCache.LeasesAreBounded | rust-client/worker.rs:346-400 | in every run a generation short of the last has at most 18 leases out, if each is released at most once; in a run of fewer than 2^64 calls every generation has |
| CredentialCache.GenerationIsOneCredential | rust-client/worker.rs:346-400 | in every run two leases of one generation short of the last are of one credential; in a run of fewer than 2^64 calls of any |
| CredentialCache.GenerationsIncrease | rust-client/worker.rs:362-379 | in every run a stored credential gets a generation above that of a lease before it exactly if that lease is not of the last generation |
| CredentialCache.LastIsShared | rust-client/worker.rs:362-379 | a run in which two credentials share the last generation and 19 leases of it are out |
| CredentialCache.RejectedIsNotLeased | rust-client/worker.rs:411-426 | after a quota rejection no lease is granted, however often the same credential is fetched, until a different one is stored, which then gets a new generation |
| CredentialCache.InvalidIsNotLeased | rust-client/worker.rs:400-409 | on every run after `Invalidate` of a lease of the current credential nothing is leased until a store succeeds; any credential, the same one included, is then stored under a generation above every lease before |
| CredentialCache.SecondMismatchDrops | rust-client/worker.rs:434-449 | the first mismatch keeps the credential; a second in a row, on every run without a recorded success between, drops it, with the same consequence |
| CredentialCache.SuccessForgives | rust-client/worker.rs:381-389 | a recorded success makes the next mismatch the first again |
| CredentialCache.ExhaustedIsNotLeased | rust-client/worker.rs:346-360 | the nineteenth worker gets nothing, the credential is dropped, and nothing is leased until a store succeeds |
| CredentialCache.DelayGrows | rust-client/worker.rs:914-922 | the delay ladder never shrinks and stays between 100 and 1500 ms |
| CredentialCache.LadderClimbs | rust-client/worker.rs:411-432 | on every run from the start or a recorded success, the n-th rejection waits 100, 300, 500, 800 and then 1500 ms, whatever happens between |
| CredentialCache.TurnCredentialCache.Reserve | rust-client/worker.rs:346-360 | a lease of the current credential while fewer than 18 are out; otherwise the credential is dropped |
| CredentialCache.TurnCredentialCache.Store | rust-client/worker.rs:362-379 | a new generation, unless the credential is the rejected one |
| CredentialCache.TurnCredentialCache.RecordAllocation | rust-client/worker.rs:381-389 | a success of the current credential clears its mismatches and the retry ladder |
| CredentialCache.TurnCredentialCache.Release | rust-client/worker.rs:391-398 | gives back one lease of the current credential |
| CredentialCache.TurnCredentialCache.Invalidate | rust-client/worker.rs:400-409 | drops the current credential if the lease is of it, so that nothing is leased until a store (`CredentialCache.InvalidIsNotLeased`) |
| CredentialCache.TurnCredentialCache.RotateAfterQuota | rust-client/worker.rs:411-426 | remembers the rejected credential and climbs the delay ladder |
| CredentialCache.TurnCredentialCache.NextQuotaDelay | rust-client/worker.rs:428-432 | climbs the delay ladder |
| CredentialCache.TurnCredentialCache.RetryAfterMismatch | rust-client/worker.rs:434-449 | the first mismatch keeps the credential, the second drops it (`CredentialCache.SecondMismatchDrops`) |

## Left out

- HTTP login, captcha solving, browser profiles and name generation: exchanges with remote services.
- Kernel and device I/O, the async drivers of `turn.rs` and `dataplane.rs`, and TLS: foreign calls and runtime
  behaviour.
- The Kotlin application, command line parsing, statistics, events, network setup and repair: thin, or only easy
  members.
- The striped scheduler, proxy sequencing and forward error correction; only the three packet classes are used.
- Cryptographic strength: ciphers, hashes and the checksum are arbitrary functions, so nothing is said about how hard
  a signature or a tag is to forge. A failure of the AEAD to seal is not modelled.
- Wakeups through notifiers and condition variables: the step machines say what is safe, not that somebody is woken.
- Exclusive configuration flights and a complete drain at logger shutdown: not guaranteed by the code, hence not
  claimed.
- The number of times a ChannelBind goes out on the wire: starting one that is under way queues it again, uncounted.
- PacketQueue.ReachableInv: one receiver, as in the code, which never shares it; the waiting `send_awaiting` and
  `recv` loops are repetitions of the modelled steps.
- LogWriter.StepInv: flush and shutdown handling, the bound on line length and broken sinks are not modelled.
- TurnStream.TurnStreamReader.ReadFrame: the buffer is a sequence; how `BytesMut` grows and splits its storage is
  not modelled.
- Packet.PacketBuf.SetRange: the storage keeps its length; that its holder may resize it is modelled in `PacketPool`
  only.
- Workers.Dispatcher.Register: the sort is the library's, given as an insertion sort; the compare-and-swap retry of
  the list is one atomic step.
- DownlinkSlots.DownlinkQueue.Enqueue: slots are values, so which free slot's storage is reused is not visible.
- Obfs.Wrap: an empty payload and a full packet are the only failures; the random draws are parameters within the
  ranges drawn from.
- TurnSends.SweepSends: the transaction ids under way differ, as random ids do; with equal ids the timeout of one
  request takes the packets of the other out of the queue.

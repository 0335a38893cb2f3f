# Snowflake in Dafny

A Dafny 4.11 model of the stateful core of Snowflake and of the DTLS stack it carries, with proofs that each
piece refines a simple specification over every run. `dafny verify dfyconfig.toml` checks the whole project.

Code that updates state in place is modelled by classes and loops (`FragmentBuffer.Buffer`, `FlightCache.Cache`,
`Transcript13.HandshakeTranscript`, `Commit13.Fsm`, `HandshakeFsm.Fsm`, `RecordNumbers.RecordWriter`,
`SnowflakePool.Pool`, `BrokerContext.Context`, `ClientMap.Inner`, `ClientIdMap.Map`, `PacketBuffer.Buffer`,
`Armor.ElementEncoder`, `Encapsulation.Source` and `Sink`). Every such method is proved equal to a step function on
values, or to the change it promises, and the theorems about whole runs are lemmas about those functions.

**DTLS handshake byte path.** `HandshakeWire` is the 12-byte handshake header. `Fragmenter` cuts a message.
`FragmentBuffer` reassembles; `FragmentAccounting` and `PopSafety` show what holds for arbitrary input bytes.
`Reassembly` and `Delivery` put a network between the two: loss, duplication, reordering and regrouping of fragments.
`Capacity`, `CapacityRuns` and `Deliverability` compare the bounded buffer with a receiver without bounds. `FlightCache`
stores and merges whole messages. `BytePath` and `Endpoints` join them: both ends hash the same bytes. `Flight5` and
`Flight5Agreement` compare the hash inputs that the client predicts with what its cache holds afterwards, and
`ClientRuns` shows over the runs of the state machine that they always agree.

**DTLS 1.3 transcript.** `Transcript13` is the incremental hash with its pending list, duplicate filter and
HelloRetryRequest substitution. `TranscriptRefinement` refines it to the transcript of section 4.4.1 of RFC 8446.
`Commit13` is the commit of a prepared flight, with secrets derived in the middle of it.

**DTLS 1.2 state machine and record numbers.** `HandshakeFsm` is the machine, with each flight's parser kept as the set
of next flights it can return; `FsmRuns` has the theorems. `RecordNumbers` has the record counters and both AEAD nonce
constructions.

**Broker.** `HeapOrder` is `container/heap` on sequences and `SnowflakePool` the pool with back-pointers. `Broker` is an
interleaved transition system with one event per atomic step. `BrokerContext` is the shared state in place, each method
refining a step. `BrokerRuns` has the theorems over every interleaving.

**Tunnel data structures and codecs.** `ClientMap`, `ClientIdMap`, `PacketBuffer`, `Encapsulation`, `Armor` and
`ArmorRoundTrip`.

## Results that differ from what one might expect

- `fragmentBuffer.pop` panics on a message it finds complete without a fragment at offset 0, and an empty fragment of an
  empty message at any other offset makes one (`PopSafety.MisplacedPanics`). Storing a fragment keeps every message safe
  if and only if it is not such a fragment opening a new entry (`StoreSafeIff`); without such fragments no run of
  arbitrary bytes panics (`WellPlacedRunsAreSafe`).
- A message whose pieces have all arrived need not be delivered. The buffer refuses everything once it holds 1000
  fragments, and if its next message is then incomplete it never changes again (`Deliverability.WedgedForever`). A body
  of 1001 bytes at an MTU of 1 is enough (`ShortestLostMessage`). Every network delivers what arrived if and only if all
  messages together have at most 1000 pieces (`EveryNetworkDeliversIff`).
- The client's predicted session and Finished inputs are right exactly when no earlier copy of its own flight 5 messages
  is cached (`Flight5Agreement.SessionInputPredicted`, `FinishedInputPredicted`). No run of the client breaks that:
  flight 5 is prepared at most once, with only ClientHellos of its own cached, so the prediction always holds
  (`ClientRuns.PredictionsAlwaysHold`).
- Record numbers and nonces stay distinct exactly up to 2^64 allocations in an epoch. A refused number past 2^48-1
  still advances the 64-bit counter, which wraps (`RecordNumbers.NumbersDistinctIff`, `NoncesDistinctIff`).
- `MaxDataForSize` is documented to be the longest slice that fits. It is one byte short at 64, 8192 and 8193, and short
  from 2^20 on (`Encapsulation.MaxDataIsLongestIff`).
- An empty packet in a `PacketBuffer` is read as EOF, for ever, while the buffer is open
  (`PacketBuffer.EofMeansDrainedIff`, `EmptyPacketReadsEof`).
- `elementEncoder.Write` returns more than `len(p)` exactly when the call completes a chunk
  (`Armor.ElementEncoder.Write`).
- A DTLS handshake header survives marshalling exactly when its lengths fit in 24 bits
  (`HandshakeWire.HeaderRoundTrip`).

## Model

| member | source | states |
|---|---|---|
| HandshakeWire.HeaderRoundTrip | dtls/pkg/protocol/handshake/header.go:31-56 | a marshalled header is recovered, whatever follows it, exactly when its three lengths fit in 24 bits |
| Fragmenter.SplitBytes | dtls/util.go:55-65 | the loop gives consecutive chunks of the split length, the last possibly shorter |
| Fragmenter.PiecesAreOneSplit | dtls/conn.go:1083-1122 | for every body and MTU > 0 the pieces concatenate to the body, none exceeds the MTU, and they form one split; an empty body is one empty piece |
| Fragmenter.FragmentHandshake | dtls/conn.go:1083-1122 | fragment k is the header with piece k's offset and length and the total length, then piece k |
| FragmentBuffer.Buffer.PushRecord | dtls/fragment_buffer.go:53-110 | push on the mutable buffer is the specified step for any bytes: overflow, bad header, non-handshake, stale and duplicate fragments, and failure midway |
| FragmentBuffer.Buffer.PopMessage | dtls/fragment_buffer.go:112-152 | pop on the mutable buffer, for every state: walk from offset 0, rebuilt header, counters reduced; it panics exactly when the message is complete without a fragment at offset 0, before changing anything |
| FragmentBuffer.PanicsIff | dtls/fragment_buffer.go:112-143 | the panic condition is exactly a complete message without a fragment at offset 0 |
| FragmentAccounting.PushAccounted | dtls/fragment_buffer.go:53-110 | push keeps both counters equal to the sums over the cache and the size under the limit, whatever bytes arrive and wherever it fails |
| FragmentAccounting.PopAccounted | dtls/fragment_buffer.go:112-152 | pop keeps the counters exact, and what it delivers carries the current message number and advances it |
| FragmentAccounting.EveryRunAccounted | dtls/fragment_buffer.go:53-152 | over every run of pushes of arbitrary bytes and pops, counters are exact and the k-th delivery is message k modulo 2^16 until pop panics, and a run panics if and only if one of its pops meets a complete message without a fragment at offset 0 |
| FragmentAccounting.NoWrap | dtls/fragment_buffer.go:100-105 | no uint32 length sum of a cached message can have wrapped |
| PopSafety.StoreSafeIff | dtls/fragment_buffer.go:88-105 | storing a fragment keeps every cached message safe to pop if and only if it is not an empty, misplaced one that opens a new entry |
| PopSafety.WellPlacedRunsAreSafe | dtls/fragment_buffer.go:53-152 | over every run of arbitrary bytes whose records hold no misplaced empty fragment, pop never panics |
| PopSafety.MisplacedPanics | dtls/fragment_buffer.go:137-143 | any misplaced empty fragment of message 0, alone in a record and followed by a pop, panics |
| Reassembly.WalkGathersPrefix | dtls/fragment_buffer.go:122-136 | however stored slices overlap, the walk gathers only a prefix of the sender's body |
| Reassembly.PopDelivers | dtls/fragment_buffer.go:112-152 | a popped message is byte for byte the unfragmented message of its sender |
| Reassembly.DeliversSendersBytes | dtls/fragment_buffer.go:53-152 | for every network run, with any mixture of splits, pop never dereferences a missing fragment and deliveries are exactly the sender's first messages in order |
| Delivery.MtuSplitCuts | dtls/util.go:55-65 | the pieces of every MTU are one split in the sense of the delivery theorem |
| Delivery.CompleteIffAllArrived | dtls/fragment_buffer.go:112-136 | the current message is complete exactly when every piece of its split is among the tracked ones |
| Delivery.DeliversExactlyWhenComplete | dtls/fragment_buffer.go:53-152 | for all messages, splits and network runs of their pieces (lost, duplicated, reordered, interleaved), pop returns the next message exactly when all its pieces were stored, and then its unfragmented bytes and epoch |
| Capacity.CountersAreWaiting | dtls/fragment_buffer.go:88-105 | totalFragmentCount and totalBufferSize are the number and the bytes of the arrived pieces of messages still to be delivered |
| CapacityRuns.KeepsEverythingIff | dtls/fragment_buffer.go:53-152 | in every run the bounded buffer holds every piece that arrives and delivers when a receiver without bounds does, if and only if each record with a new piece finds fewer than 1000 pieces and enough bytes free |
| CapacityRuns.KeepsDelivers | dtls/fragment_buffer.go:112-152 | and then pop returns the next message exactly when all its pieces have arrived |
| Deliverability.RoomyDelivers | dtls/fragment_buffer.go:53-152 | messages of at most 1000 pieces whose bodies leave room for one record: over every network run pop returns the next message exactly when all its pieces have arrived |
| Deliverability.WedgedForever | dtls/fragment_buffer.go:53-56 | a full buffer whose next message is incomplete never changes again, whatever arrives |
| Deliverability.NeverDelivered | dtls/fragment_buffer.go:53-56 | more than 1000 pieces can all arrive, each once and alone in its record, and nothing is ever delivered |
| Deliverability.EveryNetworkDeliversIff | dtls/fragment_buffer.go:53-152 | every network run delivers exactly what arrived if and only if all messages together have at most 1000 pieces |
| Deliverability.EveryMtuDeliversIff | dtls/conn.go:1083-1122 | the same for what fragmentHandshake sends at any MTU |
| Deliverability.LongMessageCanBeLost | dtls/conn.go:1083-1122 | a message longer than 1000 MTUs is one that some network never delivers |
| Deliverability.ShortestLostMessage | dtls/fragment_buffer.go:53-56 | for one: 1001 bytes at an MTU of 1 |
| BytePath.ReceivedIsSent | dtls/conn.go:1364-1373 | the cache entry made from a delivered message is the entry its sender made |
| BytePath.HandleRecord | dtls/conn.go:1356-1376 | for any bytes: push, then every message that is now complete goes to the cache in order, one whose header does not parse is skipped; a failed push adds nothing |
| BytePath.DrainInto | dtls/conn.go:1366-1374 | the pop loop, for every buffer: it pops until nothing comes out or pop panics, and caches what it popped |
| BytePath.SendersRecordIsCached | dtls/conn.go:1356-1376 | a record of the sender's fragments never leads to a panic and moves exactly the newly complete messages into the cache, as their sender cached them; the next one is then incomplete |
| BytePath.BothEndsMergeTheSame | dtls/internal/flight/cache.go:177-223 | whatever was retransmitted and in whatever order it arrived, once the messages under the rules are delivered both ends merge, and so hash, the same bytes |
| Endpoints.EveryRunCachesExactly | dtls/conn.go:869-892 | over every run of an endpoint and its network, the cache holds exactly the own messages transmitted and the peer's messages delivered, each as its sender cached it |
| Endpoints.BothEndsHashTheSame | dtls/internal/flight/cache.go:177-223 | for every run of both endpoints and both network directions, once the messages under the rules are delivered, both ends merge and so hash the same bytes |
| FlightCache.LastIsHighest | dtls/internal/flight/cache.go:101-117 | the entry a rule picks is one with the highest sequence among its matches, and none is picked exactly when nothing matches |
| FlightCache.Cache.Pull | dtls/internal/flight/cache.go:41-61 | one picked entry, or none, per rule, in rule order |
| FlightCache.Cache.PullAndMerge | dtls/internal/flight/cache.go:177-187 | the merged bytes are the picked entries in rule order |
| FlightCache.MergeSame | dtls/internal/flight/cache.go:177-187 | merging is independent of push order and duplicates when entries with equal type, side, epoch and sequence carry equal data |
| FlightCache.Cache.SessionHash | dtls/internal/flight/cache.go:191-223 | the hash covers the session rules' bytes, then the additional bytes |
| FlightCache.Cache.FullPullMapItems | dtls/internal/flight/cache.go:73-152 | it succeeds exactly when every mandatory rule matches and the picked entries parse with sequences startSeq, startSeq+1, ...; failure leaves startSeq and returns nothing |
| FlightCache.ChosenAreHighest | dtls/internal/flight/cache.go:119-152 | item j returned is a highest match of the j-th rule that matches anything, and the positions of those rules increase |
| Flight5.Prepare | dtls/handshaker.go:214-226 | the stamping loop numbers the handshake packets consecutively modulo 2^16 and shifts every epoch |
| Flight5.WritePackets | dtls/conn.go:875-892 | exactly the handshake packets are pushed to the sender's own cache, in order and unfragmented |
| Flight5.Generate | dtls/internal/flight/flight12/flight5handler.go:175-311 | the hash inputs predicted before sending: cached messages plus unsent ones under predicted numbers, the session hash only for an uninitialized cipher suite and the Finished input only without known verify data |
| Flight5Agreement.StampedAsPredicted | dtls/internal/flight/flight12/flight5handler.go:175-192 | the numbers stamped by prepare are the predicted ones |
| Flight5Agreement.SessionInputPredicted | dtls/internal/flight/flight12/flight5handler.go:330-337 | the predicted session-hash input equals what the cache yields after stamping and pushing, if and only if no earlier ClientKeyExchange (nor Certificate, if one is sent) is cached |
| Flight5Agreement.FinishedInputPredicted | dtls/internal/flight/flight12/flight5handler.go:268-291 | the predicted Finished input equals the cached handshake up to Finished, if and only if no client message of this flight was cached before |
| Flight5Agreement.ServerHashesPrediction | dtls/internal/flight/flight12/flight4handler.go:67-171 | a server whose cache has the same entries hashes what the client predicted, under the same exact conditions |
| Flight5Agreement.SendFlight5 | dtls/internal/flight/flight12/flight5handler.go:76-311 | generate, stamp and push as one, with both guards: the exact cache afterwards and both agreements |
| ClientRuns.Flight5PreparedOnce | dtls/handshaker.go:286-297 | in every run of a client flights 5 and 5b together are prepared at most once |
| ClientRuns.OnlyHellosBefore | dtls/internal/flight/flight12/flight5handler.go:268-291 | when a client prepares flight 5 no flight that sets the verify data was prepared, and everything it has sent is a ClientHello |
| ClientRuns.FirstWheneverPrepared | dtls/internal/flight/flight12/flight5handler.go:175-209 | so its cache then holds no earlier copy of any message of the flight |
| ClientRuns.PredictionsAlwaysHold | dtls/internal/flight/flight12/flight5handler.go:268-337 | in every run of a client the predicted session and Finished inputs are what its cache yields once flight 5 is in it |
| ClientRuns.ServersAlwaysAgree | dtls/internal/flight/flight12/flight4handler.go:67-171 | and a server whose cache has the same entries hashes the same |
| Transcript13.CanonicalIsTls | dtls/handshake_transcript_13.go:71-92 | an unfragmented DTLS message becomes the TLS message: type, 24-bit length, body |
| Transcript13.HandshakeTranscript.UseHash | dtls/handshake_transcript_13.go:94-117 | selecting a hash absorbs the pending messages in order, with each error case |
| Transcript13.HandshakeTranscript.Remember | dtls/handshake_transcript_13.go:119-153 | appending: validation, duplicate filter, and bytes to pending or to the hash |
| Transcript13.HandshakeTranscript.ApplyRetry | dtls/handshake_transcript_13.go:188-214 | the message_hash substitution and when it is refused |
| Transcript13.HandshakeTranscript.AppendMessage | dtls/handshaker_13.go:441-486 | appendHandshake13 with its HelloRetryRequest path |
| TranscriptRefinement.AppendRefines | dtls/handshaker_13.go:441-486 | one append takes the transcript and the reference log to related states with equal outcomes |
| TranscriptRefinement.EveryRunRefines | dtls/handshake_transcript_13.go:94-214 | over every run of selections and appends, the transcript is that of section 4.4.1 of RFC 8446 over the first-seen messages, and pending or the running hash holds exactly those bytes |
| TranscriptRefinement.SumIsTranscriptHash | dtls/handshake_transcript_13.go:155-180 | sum is the digest of those bytes, sumWithSuffix the digest of them and the suffix, and both fail exactly without a hash |
| TranscriptRefinement.RetryAtMostOnce | dtls/handshake_transcript_13.go:182-214 | over every run at most one HelloRetryRequest is recorded, right after a lone ClientHello |
| TranscriptRefinement.Retransmission | dtls/handshake_transcript_13.go:119-137 | a message under a known id changes nothing; it is accepted exactly when length and fingerprint agree, else reported as changed |
| Commit13.Fsm.StampFlight | dtls/handshaker_13.go:248-264 | the numbering loop: epochs, consecutive numbers, highest epoch and first protected packet |
| Commit13.Fsm.CommitPreparedFlights | dtls/handshaker_13.go:248-305 | the commit in place equals the specified one, and a failed commit leaves the local epoch alone |
| Commit13.CommitIsOnePass | dtls/handshaker_13.go:266-305 | for every flight that commits, the transcript is that of one pass over the whole flight, and new secrets come from the transcript hash ending exactly before the first protected packet |
| Commit13.CommitOutcome | dtls/handshaker_13.go:266-305 | every commit ends as one pass over the whole flight does, except that a failed derivation stops it first; so it fails exactly when the one pass or the derivation fails |
| Commit13.DerivedMidFlight | dtls/handshake_transcript_13.go:283-310 | deriving between two appends changes nothing the second one records |
| HandshakeFsm.Fsm.Prepare | dtls/handshaker.go:187-233 | prepare stamps the generated flight, restarting at 0 for flight 2, and sets the retransmit flag |
| HandshakeFsm.Fsm.Select | dtls/handshaker.go:248-323 | one pass of wait's select: reset, next flight, finish, backoff with its cap, and cancellation |
| HandshakeFsm.Fsm.Run | dtls/handshaker.go:154-181 | the run loop over any events is the specified run |
| FsmRuns.StaysOnTrack | dtls/handshaker.go:154-337 | in every run from every start, a server is only in flights 0, 2, 4, 4b, 6 and a client in 1, 3, 5, 5b; FINISHED only in 4b, 5, 5b, 6; and no wait in a last-send flight |
| FsmRuns.RankNeverDecreases | dtls/internal/flight/flight12/flighthandler12.go:38-61 | flight rank never decreases between any two moments of a run |
| FsmRuns.Flight2IsNeverResent | dtls/internal/flight/flight12/flighthandler12.go:63-88 | a prepared HelloVerifyRequest is sent at most once, and a timer in flight 2 changes nothing |
| FsmRuns.ResendsRepeat | dtls/handshaker.go:235-246 | every resend of a flight carries the packets and numbers of its first send |
| FsmRuns.NumbersAreConsecutive | dtls/handshaker.go:214-226 | across the flights of a run message numbers are consecutive, flight 2 restarting at 0 |
| FsmRuns.IntervalBacksOff | dtls/handshaker.go:299-316 | over every run the interval is min(initial * 2^k, 60 s) for the k timeouts since its last reset, and the initial one for k = 0, unless the first doubling overflows |
| FsmRuns.IntervalBacksOffIff | dtls/handshaker.go:299-316 | that holds over all runs if and only if backoff is off or the first doubling fits in a time.Duration |
| FsmRuns.StraightTimeouts | dtls/handshaker.go:299-316 | k straight timeouts are a run that resends the flight k times and leaves the interval at min(initial * 2^k, 60 s) |
| RecordNumbers.RecordWriter.ProcessPacket | dtls/conn.go:943-955 | one number per packet, refused past 2^48-1 while the counter still moves |
| RecordNumbers.RecordWriter.ProcessHandshakePacket | dtls/conn.go:1015-1066 | one number per fragment; it succeeds exactly when every number is within the limit, else it stops at the first that is not |
| RecordNumbers.NumbersRise | dtls/conn.go:943-955 | up to 2^64 allocations in an epoch, its numbers strictly increase |
| RecordNumbers.NumbersWithinLimit | dtls/conn.go:943-955 | every number sent is at most 2^48-1 |
| RecordNumbers.NumbersDistinctIff | dtls/conn.go:943-955 | no number is used twice in an epoch if and only if no epoch sees more than 2^64 allocations |
| RecordNumbers.BuildMaskedNonce | dtls/pkg/crypto/ciphersuite/chacha20poly1305.go:58-67 | the loop xors the last eight IV bytes with the big-endian epoch and number |
| RecordNumbers.FillExplicitNonce | dtls/pkg/crypto/ciphersuite/ciphersuite.go:67-76 | the pooled buffer is wholly overwritten by four IV bytes and the big-endian epoch and number |
| RecordNumbers.NoncesDistinctIff | dtls/pkg/crypto/ciphersuite/chacha20poly1305.go:58-67 | over every run and in both constructions the nonces are pairwise distinct if and only if no epoch sees more than 2^64 allocations |
| HeapOrder.RootIsMin | broker/snowflake-heap.go:92-99 | the element heap.Pop takes has the least key of all |
| HeapOrder.UpHeap | broker/snowflake-heap.go:86-90 | sifting up after an append restores the heap |
| HeapOrder.RemoveHeap | broker/snowflake-heap.go:101-107 | removal at any position leaves a heap of exactly the other elements |
| SnowflakePool.Pool.Swap | broker/snowflake-heap.go:48-52 | a swap keeps every index equal to its position |
| SnowflakePool.Pool.Push | broker/snowflake-heap.go:86-90 | exactly one more member; heap order and back-pointers kept |
| SnowflakePool.Pool.Pop | broker/snowflake-heap.go:92-99 | nil exactly on an empty pool, else a member with the fewest clients, its index -1, all others kept |
| SnowflakePool.Pool.Remove | broker/snowflake-heap.go:101-107 | what sits at the snowflake's index, which is the snowflake itself exactly if it is in this pool; nothing for an index of -1 |
| BrokerContext.Context.AddPoll | broker/broker.go:112-114 | a new snowflake enters the pool of its NAT type and no other |
| BrokerContext.Context.Register | broker/broker.go:115-117 | the id finds this snowflake from now on |
| BrokerContext.Context.RemoveFromPool | broker/broker.go:123-125 | the expired snowflake leaves its pool, or nothing changes if a client popped it |
| BrokerContext.Context.ForgetId | broker/ipc.go:227-229 | the id is deleted and nothing else |
| BrokerContext.Context.MatchSnowflake | broker/ipc.go:234-245 | an unrestricted client gets a least-loaded restricted proxy, or an unrestricted one if there is none; others only an unrestricted one |
| BrokerContext.Context.LookUp | broker/ipc.go:254-257 | the snowflake last registered under the id and not deleted since, or nothing |
| BrokerRuns.EveryInterleavingIsSafe | broker/broker.go:99-140 | every state of every interleaving keeps all broker invariants, and no snowflake is lost: it is pooled, claimed or timed out |
| BrokerRuns.ClaimedByOneClient | broker/ipc.go:206-245 | two clients claiming one snowflake at any two moments of a run are the same client |
| BrokerRuns.OneReplyPerPoll | broker/broker.go:119-131 | a poll gets at most one reply: the offer of the one client that claimed its snowflake, or nil, and then no client had handed an offer over |
| BrokerRuns.AnswerCameUnderSid | broker/ipc.go:215-277 | an answer a client gets was posted under the Sid of the snowflake it claimed and delivered to it alone |
| BrokerRuns.NatRespected | broker/ipc.go:234-245 | a client that is not unrestricted only ever gets an unrestricted proxy |
| BrokerRuns.RestrictedProxiesFirst | broker/ipc.go:234-245 | an unrestricted client is refused, or given an unrestricted proxy, only after it found the restricted pool empty |
| ClientMap.Inner.Swap | common/turbotunnel/clientmap.go:119-123 | heap positions and the address index change together, the map they stand for does not |
| ClientMap.Inner.SendQueue | common/turbotunnel/clientmap.go:86-106 | the map gains (now, queue) at the address; a known client keeps its queue, an unknown one gets a fresh open one |
| ClientMap.Inner.PopOldest | common/turbotunnel/clientmap.go:136-146 | a client seen longest ago leaves the heap and the index, and its queue is closed once |
| ClientMap.Inner.RemoveExpired | common/turbotunnel/clientmap.go:77-84 | exactly the clients with now - lastSeen >= timeout leave the map and have their queues closed |
| ClientIdMap.Map.Set | server/lib/turbotunnel.go:52-76 | the ring and its index stay right for the history extended by this call, at every capacity |
| ClientIdMap.Map.Get | server/lib/turbotunnel.go:78-86 | the address of the latest Set for the id among the last `capacity` calls, or nothing |
| ClientIdMap.SetForgetsAtMostOne | server/lib/turbotunnel.go:52-76 | a Set changes no other id's answer, except that the id last set exactly `capacity` calls ago is forgotten |
| PacketBuffer.Buffer.WriteTo | dtls/internal/net/buffer.go:71-148 | writing appends to the queue, across growth and wraparound, and fails exactly when closed |
| PacketBuffer.Buffer.ReadFrom | dtls/internal/net/buffer.go:150-213 | reading takes the head of the queue, or consumes nothing if it does not fit, is closed, or must wait |
| PacketBuffer.Buffer.Close | dtls/internal/net/buffer.go:215-236 | close keeps the queue and wakes a waiting reader |
| PacketBuffer.Fifo | dtls/internal/net/buffer.go:71-236 | over every run, what was read followed by what is held is what was written, in order, and no reader waits beside data or a close |
| PacketBuffer.EofMeansDrainedIff | dtls/internal/net/buffer.go:150-213 | EOF means closed and empty if and only if the head is not an empty packet read with room |
| PacketBuffer.EmptyPacketReadsEof | dtls/internal/net/buffer.go:150-213 | an empty packet on an open buffer reads as EOF and stays |
| PacketBuffer.EofOnlyAtTheEnd | dtls/internal/net/buffer.go:150-213 | in every run of nonempty writes, EOF appears exactly when closed and everything written has been read, and a too-short read consumes nothing |
| Encapsulation.PrefixRoundTrip | common/encapsulation/encapsulation.go:118-129 | every data prefix reads back as its length, whatever follows |
| Encapsulation.ReadData | common/encapsulation/encapsulation.go:61-114 | the read loop is the specified read of the stream, error cases included |
| Encapsulation.WriteData | common/encapsulation/encapsulation.go:134-148 | exactly the chunk is written, or nothing if the data is too long |
| Encapsulation.WritePadding | common/encapsulation/encapsulation.go:157-192 | exactly n bytes of padding chunks |
| Encapsulation.PaddingLength | common/encapsulation/encapsulation.go:157-192 | the padding written for n is n bytes long |
| Encapsulation.PaddingIsSkipped | common/encapsulation/encapsulation.go:61-115 | reading past any padding is reading what follows it |
| Encapsulation.ReadsEverything | common/encapsulation/encapsulation.go:61-192 | for any writes and any buffer sizes, the k-th read is the k-th data chunk, truncated to its buffer without losing sync, and the next sees only what follows |
| Encapsulation.CutDataIsUnexpected | common/encapsulation/encapsulation.go:61-115 | a stream cut anywhere inside a data chunk reads as an unexpected EOF |
| Encapsulation.CutPaddingIsUnexpected | common/encapsulation/encapsulation.go:61-115 | a stream cut anywhere inside a padding chunk reads as an unexpected EOF |
| Encapsulation.MaxDataFits | common/encapsulation/encapsulation.go:198-209 | the size returned fits the budget exactly when the budget is positive |
| Encapsulation.MaxDataIsLongestIff | common/encapsulation/encapsulation.go:198-209 | it is the longest of all slices that fit if and only if n < 2^20 and n is not 64, 8192 or 8193 |
| Encapsulation.MaxDataOneShort | common/encapsulation/encapsulation.go:198-209 | at 64, 8192 and 8193 the longest is one byte longer |
| Armor.ElementEncoder.Write | common/amp/armor_encoder.go:122-164 | the counters and output are those of the bytes one by one, and the count returned is len(p) exactly when no chunk is completed |
| Armor.ElementEncoder.Close | common/amp/armor_encoder.go:166-176 | the open element, if any, is closed |
| Armor.SplitWrites | common/amp/armor_encoder.go:122-164 | any split of the payload into writes gives the same output |
| Armor.SplitASCIIWhitespace | common/amp/armor_decoder.go:31-52 | the token is what it advances over with whitespace stripped, and it reads to the end if there is none |
| Armor.JoinWords | common/amp/armor_decoder.go:73-89 | the words of a text token, joined, are the text without whitespace, however it is buffered |
| ArmorRoundTrip.DecodeToWriter | common/amp/armor_decoder.go:54-110 | the token loop writes what the specification decodes, nested and stray tags and a missing end tag included |
| ArmorRoundTrip.RoundTrip | common/amp/armor_encoder.go:122-176 | decoding the armored form of any payload free of whitespace and markup bytes gives exactly the payload, with every element closed |
| ArmorRoundTrip.ElementsWithinLimit | common/amp/armor_encoder.go:27-44 | no element text of any armored payload reaches 32768 bytes |

## Left out

- Cryptographic primitives: hashes, PRFs, signatures, AEADs and the key schedule are function parameters; only the bytes fed to them are modelled.
- hash.Write errors: the running hash is the bytes fed to it, and writing to it cannot fail.
- CID-wrapped handshake records: they carry the header's own number instead of the allocated one, so the record-number theorems are about the other branch only.
- compactRawPackets: it joins finished records into datagrams of at most an MTU; records keep their bytes and order, and no theorem here depends on how they are joined.
- Fragments that disagree on the message length or reach past it: push does not check for them, so the delivery theorems are about fragments of the sender's messages.
- Delivery.DeliversExactlyWhenComplete: the pieces of one message come from one split, as one MTU gives; over mixed splits only the safety half is stated, in DeliversSendersBytes. Which pieces are stored is the matter of CapacityRuns and Deliverability.
- Deliverability.EveryNetworkDeliversIff: for bodies that leave room for one record under 2000000 bytes; the byte bound itself is exact in CapacityRuns.KeepsEverythingIff, run by run.
- ClientRuns.PredictionsAlwaysHold: takes from flight1Generate and flight3Generate only that the messages they produce are ClientHellos, and from the cache that its client entries are those writePackets pushed.
- The bodies of the flight parsers and generators of the 1.2 handshake other than flight 5: they are the next flights they can return and the packets they produce.
- Alerts, setLocalEpoch and logging in the 1.2 state machine: side effects that do not feed back into it.
- DTLS 1.3 send, wait and finish: stubs that return an error.
- Broker liveness: the offer send has no timeout branch, so a client can block for ever; only safety is stated.
- Locks and channels themselves: each critical section and each rendezvous is one atomic step.
- SnowflakePool.Pool.Push: for a snowflake that is not in the pool already, which is all the broker pushes; heap.Push would file it twice.
- SnowflakePool.Pool.Remove: an index past the end of the pool, on which heap.Remove panics, is excluded.
- Metrics, geoip, bridge fingerprints, message encoding and HTTP in the broker handlers.
- The wait in PacketBuffer.ReadFrom: one pass of its loop is a step, and deadlines are a parameter.
- The HTML tokenizer beyond tags without attributes, and the base64 layer and boilerplate around the armored elements.
- Errors of the underlying readers and writers in the codecs.
- The replay detector, kcp, smux, WebRTC, SQS, ExpBackoff, Peers, name matching and command-line plumbing.

# A verified model of tokio_kcp

This project models the parts of tokio_kcp that carry its reliability: forward error correction over a lossy channel,
the byte pipe between two `KcpStream`s, and the life of sessions under the shared scheduler and the listener. It proves
what these parts keep over every run. `dafny verify dfyconfig.toml` checks the whole project.

## How it is organised

**Forward error correction.** `FecFormat` is the packet layout and `ErasureCode` the erasure code as a value with one law
(`Lawful`: encoding equally long non-empty shards succeeds, and any `k` places that agree with a codeword give its data
shards back). `XorParity` shows that the law can be met for every `k`. `FecTranscript` says in closed form which packets
each accepted payload causes, with no encoder state; the class `FecEncoder` in `FecEncoder.dfy` is proved to send exactly
those. `FecReception` says in closed form what is held for each group after any list of arrivals, with no map and no
pruning pass; the class `FecDecoder` in `FecDecoder.dfy` is proved to store and answer exactly that. `FecBounds`,
`FecChannel`, `FecRecovery` and `FecDatagrams` then put the two ends together: the channel is an arbitrary list of packets
each of which was sent, so loss, reordering and duplication are all covered. `FecGroups` and `FecRepeats` follow the packets
of one group, `FecDelivery` and `FecLoss` a receiving socket, at its entry point `input`, over whole runs in which calls may
fail. `FecWire`, `FecCadence` and `FecWindow` say the packet bytes, the half-second rule and the window in literal numbers.

**The byte pipe.** `KcpContract` is the KCP engine as this repository uses it. `SocketModel` has the steps of a `KcpSocket`
on values with their invariants over runs, and `SocketLaws` what each step means to its caller; `KcpSocket.dfy` is the class
that performs them in place. `StreamModel` and
`KcpStream.dfy` do the same for the `send` loop and the re-chunking `poll_recv`.

**Sessions.** `SessionModel` and `KcpSession.dfy` are one session under scheduler ticks. `SchedulerModel`, `Scheduler.dfy`
and `Lifecycle` are one pass over a task vector, the sharded scheduler, and its runs; `SchedulerExpiry` brings idle expiry
to those runs. `SessionTable`, `ListenerModel`,
`ListenerLaws` and `Listener.dfy` are the per-peer table, one listener iteration, what a packet does told from its bytes, and
the runs of the listener.

**What is passed in.** The clock, the random conversation id (any value but 0), whether making a socket or accepting a
stream succeeds, and whether a flush succeeds are arguments. The KCP engine is not part of this model; what its `input`,
`update` and `recv` do is an effect argument. The contract assumed of it: messages come out whole and in order; a message of
128 fragments or more is rejected, and any other is taken whole and adds at most as many segments as it has fragments;
`input`, `update` and `flush` never raise the number of waiting segments; a message whose fragments are not all there counts
as no message, and taking a message may complete further ones. Every locked socket call and every listener iteration is one
atomic step.

## Where the code falls short

Properties one would expect that do not hold of the code, each with its input and its exact condition:

- A server session may be finalized right after a packet arrived: a poll that finds more than the expiry of silence closes
  it for good, and later activity does not reopen it. `SessionModel.ExpiresExactly` says when, and
  `SessionModel.ExpiresAfterFiveMs` is a run that ends 5 ms after the last activity.
- A FEC data packet whose own payload fails never reaches the decoder, and a failure among recovered payloads loses the
  ones behind it (`FecDelivery.FailedCallLoses`). `FecLoss.FedExactly` says which payloads reach the engine all the same, and
  `FecLoss.FailureLoses` is a run that loses one, for every code with two data shards or more.
- An input or update that returns before its waker check may leave a sender waiting that could send
  (`SocketModel.StrandedExactly`, `SocketModel.StrandedExample`), and such an input, or a receive that swallows an empty
  message, a receiver that could read (`SocketModel.ReceiverStrandedExactly`, `SocketModel.ReceiverStrandedExample`).
- The listener loop panics on a packet with the FEC data flag that is shorter than 8 bytes
  (`ListenerModel.PanicsExactly`, `ListenerModel.PanicExample`).
- A group may be reconstructed twice although no packet is delivered twice: exactly with as many parity as data shards or
  more, except one of each (`FecRepeats.ReconstructedOnceExactly`, `FecRepeats.ReconstructedTwice`).
- With two data shards or more a group that is still incomplete is not recovered any more once a group more than the
  window newer has been seen; with one, its parity is answered at any time (`FecRecovery.LateParityExactly`).

## Model

| member | source | states |
|---|---|---|
| FecFormat.HeaderRoundTrip | src/fec.rs:268-278 | The number and flag a sender writes are the ones the receiver reads, and the body follows unchanged |
| FecFormat.StripPadded | src/fec.rs:214-224 | The length prefix cuts a shard back to its payload however many zeros padding appended |
| FecFormat.DataPayloadOf | src/fec.rs:252-258 | The payload of a sealed data packet is readable in the open, before any decoding |
| FecWire.FlagBytes | src/fec.rs:240-274 | A packet is FEC data, parity or either exactly if it has 6 bytes or more, byte 4 is 0xf1, 0xf2 or either, and byte 5 is 0 |
| FecWire.OpenPayload | src/fec.rs:252-258 | What is readable in the open is what follows the 8 bytes of header and length |
| FecWire.StripBytes | src/fec.rs:214-224 | A shard announces a payload exactly if its first two bytes, little-endian and counting themselves, fit its length |
| FecWire.ParseBytes | src/fec.rs:163-166 | A packet is of some group exactly if it has 6 bytes and its number, the first four bytes little-endian, is below the whole-group range of 32-bit numbers |
| FecWire.ParsePlace | src/fec.rs:168-179 | Its group and slot are quotient and remainder of that number by `k + p`, and its shard is what follows the header |
| FecWire.AnswerByBytes | src/fec.rs:158-166 | Shorter packets are an error, and numbers of no group are answered with nothing and not recorded |
| FecWire.SlotPacketBytes | src/fec.rs:106-110 | Slot `i` of group `g` is sent with number `g * (k + p) + i` modulo the range, little-endian, and flag 0xf1 for data or 0xf2 for parity |
| FecWire.PaddingIsZero | src/fec.rs:82-88 | What enters the code for a data slot is its length, its payload, and zeros up to the longest of the group |
| FecWire.SentIsMarked | src/skcp.rs:164-170 | Every packet a sender sends, data or parity, is one that `input` gives to the decoder |
| ErasureCode.NumberRange | src/fec.rs:43 | The 32-bit expression for `paws` is the largest whole number of groups that fits |
| ErasureCode.Pigeonhole | src/fec.rs:185-201 | With `k` slots filled and a data slot empty, some parity slot is filled |
| XorParity.XorCodecIsLawful | src/fec.rs:37 | The law asked of the erasure code has an instance: XOR parity, with one parity shard, for every allowed number of data shards |
| FecTranscript.ReflectsAligned | src/fec.rs:106-115 | Between calls `next < paws` and `next` modulo the group size is the number of waiting shards, below `k`, at every wrap too |
| FecTranscript.NumberIsModular | src/fec.rs:106-110 | Packet numbers are a plain counter reduced modulo `paws`: slot `i` of the `g`-th group has number `g*n + i` |
| FecTranscript.NextStart | src/fec.rs:112-115 | Behind a group's last parity number comes the next group's first number, or 0 at the end of the range |
| FecTranscript.GroupGrows | src/fec.rs:51-104 | A payload that does not fill its group advances the number by one without reaching the wrap and adds one waiting shard |
| FecTranscript.GroupFills | src/fec.rs:65-92 | A payload that fills its group leaves exactly the `k` prefixed payloads of that group as shards, and the following group starts empty at its own first number |
| FecTranscript.SentGrows | src/fec.rs:51-104 | Later payloads never change what was sent for earlier ones: the wire history only grows, by each call's own packets |
| FecTranscript.OutputCount | src/fec.rs:63-104 | A call answers one packet, and `p` more if and only if it fills a group of `k`, is not the first call, and came less than 500,000,000 ns after the one before |
| FecCadence.DataPacketBytes | src/fec.rs:56-61 | The `m`-th payload is sent with number `(m / k) * n + m % k` modulo the range, flag 0xf1, its length plus 2 and its bytes |
| FecCadence.ParityInOrder | src/fec.rs:94-99 | The packets behind it carry the parity slots of the group just filled, in order |
| FecCadence.SteadyCoversGroups | src/fec.rs:65-99 | A sender with two data shards or more whose calls follow each other within half a second sends a packet for every slot of every complete group |
| FecCadence.SparseSendsNoParity | src/fec.rs:70-75 | One whose group-filling calls come half a second or more after the call before sends no parity at all |
| FecEncoding.FecEncoder.New | src/fec.rs:33-49 | Construction fails exactly on shard counts that are zero or add up to more than 256 |
| FecEncoding.FecEncoder.Encode | src/fec.rs:51-104 | Accepts exactly payloads of at most 65533 bytes, answers `1 + p` packets by the half-second rule and one otherwise, exactly those of the closed-form transcript, and keeps every field a function of the accepted calls; a refusal changes nothing |
| FecEncoding.FecEncoder.Seal | src/fec.rs:106-110 | Stamps the current number and moves to the next one modulo `paws`, without 32-bit overflow |
| FecEncoding.FecEncoder.SkipParity | src/fec.rs:112-115 | Passing over the parity numbers lands on the first number of the next group, without 32-bit overflow |
| FecEncoding.FecEncoder.EncodeParity | src/fec.rs:77-99 | The parity packets are the parity part of the group's codeword, numbered `k` to `n-1` of the group; the code never fails here |
| FecReception.HeldBounded | src/fec.rs:163-189 | Whatever arrives, a group holds fewer than `k` shards, and holds any only while it is in the window |
| FecReception.CompletionKeeps | src/fec.rs:203-212 | On the error return, which does not prune, the stored sets are still exactly those the window allows |
| FecReception.StoreKeeps | src/fec.rs:171-189 | Storing a shard, dropping a completed set and pruning leave exactly the non-empty groups of the closed-form record |
| FecDecoding.FecDecoder.New | src/fec.rs:142-156 | Construction fails exactly on shard counts that are zero or add up to more than 256 |
| FecDecoding.FecDecoder.Decode | src/fec.rs:158-230 | On every packet, well-formed or not, the answer is the one the closed-form record of arrivals gives, and the stored sets stay that record; packets that are too short or out of range change nothing |
| FecDecoding.FecDecoder.DiscardOldShards | src/fec.rs:232-237 | The wrapping 32-bit comparison keeps exactly the groups at most `3 * (k + p)` older than the newest |
| FecDecoding.FecDecoder.Bounded | src/fec.rs:232-237 | At any moment a decoder holds at most `3 * (k + p) + 1` sets, of the last `3 * (k + p)` groups, with 1 to `k - 1` shards each |
| FecDecoding.FecDecoder.NoteNewest | src/fec.rs:181-183 | The wrapping comparison computes the plain maximum, as group ids stay below 2^31 |
| FecBounds.NewestIsMaximum | src/fec.rs:181-183 | The newest group id is the largest one that ever arrived, and one that did arrive |
| FecBounds.StateBounded | src/fec.rs:163-189 | On every packet sequence each stored group is in the window and holds between 1 and `k-1` shards, and at most one set more than the window exists |
| FecWindow.StoredWithin | src/fec.rs:163-189 | The same in numbers: stored groups lie in `[newest - 3 * (k + p), newest]`, and at most `3 * (k + p) + 1` sets exist |
| FecBounds.CompletionsArePaidFor | src/fec.rs:175-191 | For every group and trace, `k` times its reconstructions plus the shards it holds is at most the packets delivered for it |
| FecBounds.CompletedAtMostOnce | src/fec.rs:175-206 | Without duplicate deliveries and with fewer parity than data shards, a group is reconstructed at most once |
| FecBounds.CompletedTwice | src/fec.rs:175-191 | For completions, with or without anything to rebuild, that bound is exact: with as many parity as data shards some duplicate-free delivery fills a group twice |
| FecRepeats.ReconstructedAtMostOnce | src/fec.rs:191-206 | Without duplicate deliveries the code is asked to rebuild a group at most once if there are fewer parity than data shards, or one of each |
| FecRepeats.ReconstructedTwice | src/fec.rs:191-229 | In all other shapes, of any group sent with parity some packets, each delivered once, make the decoder return payloads of the group twice |
| FecRepeats.ReconstructedOnceExactly | src/fec.rs:175-229 | Groups are rebuilt at most once on every duplicate-free delivery of every sender if and only if there are fewer parity than data shards, or one of each |
| FecChannel.SentGenuine | src/fec.rs:158-169 | Every packet sent before numbers repeat is read by the decoder as the group, slot and body it was made for |
| FecChannel.HeldGenuine | src/fec.rs:171-189 | After any lossy, reordered, duplicated delivery, each held shard is the one the encoder put in that slot |
| FecChannel.PaddingAgrees | src/fec.rs:191-210 | When a data shard is missing, the decoder's common length is the encoder's, and the zero-extended shards agree with the codeword |
| FecChannel.RebuiltExactly | src/fec.rs:191-229 | Reconstruction of a group holding `k` genuine shards returns exactly the missing payloads, byte for byte and in index order |
| FecChannel.RecoverySound | src/fec.rs:158-230 | On every delivery of one unwrapped run, no call fails and every answer consists of payloads passed to `encode` for that very group and slots, also when a completed group is collected again |
| FecRecovery.HeldTracksArrivals | src/fec.rs:171-189 | Until its `k`-th distinct packet or its leaving the window, a group holds exactly the slots that arrived |
| FecRecovery.CompletedExactly | src/fec.rs:171-191 | On every arrival sequence a group is ever completed if and only if its `k`-th distinct packet arrives in time |
| FecRecovery.EndToEndRecovery | src/fec.rs:158-230 | The call that receives the `k`-th distinct packet of a group in time, or at any time with one data shard, returns exactly the payloads whose own packets have not arrived, in order |
| FecWindow.RecoveredWithin | src/fec.rs:158-230 | The same in numbers: as long as nothing of a group beyond `g + 3 * (k + p)` has arrived |
| FecWindow.LostBeyond | src/fec.rs:232-237 | With two data shards or more, a packet after anything beyond that is answered with nothing and leaves nothing held |
| FecWindow.FirstBodyStays | src/fec.rs:175-177 | A slot keeps the first body that arrived; a duplicate changes no group and is answered with nothing |
| FecWindow.DecodedExactly | src/fec.rs:185-229 | On any arrivals, genuine or not: nothing is answered unless a group is completed with a data slot missing; then the code's failure, or the payloads its missing data slots announce |
| FecWindow.OneMorePayload | src/fec.rs:213-224 | Of those slots each adds the payload its first two bytes announce, or nothing if that does not fit |
| FecRecovery.DataSlotIsDirect | src/fec.rs:252-258 | Of the packets sent, exactly those in data slots carry a payload in the open, and it is that slot's |
| FecRecovery.GroupCovered | src/fec.rs:158-230 | By the `k`-th distinct packet the decoder sees of a group in time, every payload of the group was carried in the open by an earlier one of them or is handed on by this call |
| FecDelivery.GroupFed | src/skcp.rs:164-191 | In every run of packets given to `input` and other steps, failing calls included: if the call succeeds whose packet is the `k`-th distinct one of its group among those that reached the decoder, every payload of the group has been fed to the engine |
| FecDelivery.GroupFedWithoutFailure | src/skcp.rs:172-191 | When no call fails, the packets that reached the decoder are those delivered, so the `k`-th distinct delivered packet completes the group |
| FecDelivery.FailedCallLoses | src/skcp.rs:175-188 | What a failing call loses: the engine gets a prefix of what was to be handed on; and either the decoder does not learn of the packet, or it has recorded it and, if that completed the group, forgotten the group |
| FecLoss.FedOnlyIf | src/skcp.rs:164-191 | In any run through `input`, failing or not, a payload that occurs once is fed to the engine only if its own packet was delivered or the `k`-th distinct packet of its group to reach the decoder did so in time |
| FecLoss.FedExactly | src/skcp.rs:172-191 | In runs in which only packets' own payloads fail, it is fed if and only if one of the two holds |
| FecLoss.TooFewLeaveUnfed | src/skcp.rs:172-191 | While fewer than `k` distinct packets of a group have reached the decoder, a payload whose own packet was not delivered is unfed |
| FecLoss.FailureLoses | src/skcp.rs:175-177 | For every code with two data shards or more there is such a loss: of a group's data packets but the last the first is refused, parity arrives as the `k`-th distinct packet and its call succeeds, and the last payload is not fed |
| FecRecovery.LateGroupIsLost | src/fec.rs:232-237 | With two data shards or more the window is needed: a packet of an older group is neither kept nor answered, which also ends recovery when ids restart after a wrap |
| FecRecovery.SingleIsAnswered | src/fec.rs:185-229 | With one data shard parity is answered with the group's payload at any time |
| FecRecovery.LateParityExactly | src/fec.rs:185-237 | So parity of a group older than the window is answered with nothing if and only if there are two data shards or more |
| FecDatagrams.ParityLength | src/fec.rs:77-99 | Parity shards are exactly as long as the longest prefixed payload of their group |
| FecDatagrams.DatagramsFit | src/config.rs:151-169 | With a configuration that `validate` accepts, every data and parity packet of every run is at most the configured MTU |
| FecDatagrams.ValidateExactly | src/config.rs:93-167 | Exactly which configurations are accepted, with which error others are refused, and the MTU left for KCP packets |
| KcpContract.FragmentsOfChunk | src/skcp.rs:20-22 | A message of at most 127 full segments needs at least one fragment and fewer than the engine's limit |
| KcpContract.FragmentsHold | src/skcp.rs:20-22 | Fragments are counted as the fewest segments that hold the message |
| SocketModel.ChunkAccepted | src/skcp.rs:241-251 | In every reachable state the chunk cut from any buffer is accepted by the engine, and the first one under an awaited conversation id is a single segment |
| SocketModel.StepKeepsInv | src/skcp.rs:212-264 | Every step of a socket keeps the back-pressure bounds and the waker rules |
| SocketModel.RunKeepsInv | src/skcp.rs:114-161 | So does every run |
| SocketModel.BackPressure | src/skcp.rs:217-251 | From a new socket, after every run, at most `max(snd_wnd, 1) + 126` segments wait, and at most one while the conversation id is awaited |
| SocketModel.WakersAccounted | src/skcp.rs:329-389 | No lost wakeup: over any run a parked waker is still in its slot or has been woken since |
| SocketModel.ClosedForever | src/skcp.rs:381-389 | After `close`, over any run, both waker slots stay empty |
| SocketModel.NoStrandedSender | src/skcp.rs:329-342 | Over runs whose inputs and updates go through, a task waits to send only while sending is blocked |
| SocketModel.StrandedExactly | src/skcp.rs:193-209 | From any state in which senders wait for cause, a step leaves one waiting without cause if and only if it is an input or update that returns before its waker check and unblocks sending |
| SocketModel.SenderStrandEnds | src/skcp.rs:329-342 | In any run the next input or update that goes through ends this |
| SocketModel.StrandedExample | src/skcp.rs:196-199 | Such a case exists: two segments, an acknowledgement that frees the window and one with a foreign conversation id |
| SocketModel.SettledInputWakes | src/skcp.rs:344-357 | After an input that goes through, from any state, a task waits to receive only if nothing is readable |
| SocketModel.ReceiverStrandedExactly | src/skcp.rs:280-316 | From any state in which receivers wait for cause, a step leaves one waiting without cause if and only if it is an input that returns before its waker check or a receive that swallows an empty message, and something is readable afterwards |
| SocketModel.NoStrandedReceiver | src/skcp.rs:344-357 | Over runs whose inputs go through and in which no message is swallowed, a task waits to receive only while nothing is readable |
| SocketModel.ReceiverStrandEnds | src/skcp.rs:344-357 | In any run the next input that goes through ends such a wait |
| SocketModel.ReceiverStrandedExample | src/skcp.rs:295-315 | Such a case: an empty message swallowed in front of a readable one |
| SocketModel.IdleSteps | src/skcp.rs:415-418 | Ticks, closing, polls that wait, failed flushes and packets not taken leave the activity stamp alone |
| SocketLaws.SendWaits | src/skcp.rs:217-240 | A send waits exactly if the socket is open, the first message has gone, and `wait_snd` has reached a window or the conversation id is awaited; its waker is then in the sender's slot, a different one it displaces is woken, and nothing else changes |
| SocketLaws.SendOnClosed | src/skcp.rs:213-215 | A send on a closed socket fails with a broken pipe and changes nothing |
| SocketLaws.SendTakes | src/skcp.rs:241-264 | Any other send takes the longest front part that fits one message of one or 127 segments, reports it unless a flush it needs fails, and stamps activity |
| SocketLaws.ReceiveWaits | src/skcp.rs:280-316 | A receive waits exactly if the socket is open and has nothing to hand out, with its waker then in the receiver's slot |
| SocketLaws.ReceiveTakes | src/skcp.rs:280-304 | Otherwise a closed socket gives nothing, and an open one the next message whole if it fits, stamping activity |
| SocketLaws.WaitingSenderAccounted | src/skcp.rs:233-238 | However the run goes on after a send that waited, its waker is in the slot or has been woken since |
| SocketLaws.WaitingReceiverAccounted | src/skcp.rs:309-313 | The same for a receive that waited |
| SocketLaws.FeedWakesForCause | src/skcp.rs:329-361 | Inputs wake a sender only when there is room and the conversation id is known, and a receiver only when something is readable, each once |
| SocketLaws.UpdateWakesForCause | src/skcp.rs:363-375 | Updates wake a sender only then, once, and no receiver |
| SocketLaws.FeedReports | src/skcp.rs:193-209 | An input stamps activity exactly if its packet is taken, and reports whether it woke anyone unless it or its flush fails |
| SocketLaws.UpdateDelay | src/skcp.rs:363-375 | An update asks for the idle interval if nothing is unsent and else for the engine's own delay |
| SocketLaws.CloseWakes | src/skcp.rs:381-389 | Closing wakes both waiting tasks once each and changes only the slots and the flag |
| SocketLaws.FlushReports | src/skcp.rs:323-327 | A flush stamps activity exactly if it succeeds |
| KcpSockets.FeedAllFeeds | src/skcp.rs:186-188 | Feeding a list without a failure gives the engine all of it, in order |
| KcpSockets.FecStepFeeds | src/skcp.rs:172-191 | When `input_fec` succeeds, the engine has been fed the packet's own payload and then everything recovered |
| KcpSockets.FecStepReports | src/skcp.rs:172-191 | It reports the first failure, of the packet's own payload, the decoder or a recovered payload, and otherwise whether anyone was woken |
| KcpSockets.KcpSocket.PollSend | src/skcp.rs:212-264 | Result and whole new state are those of the send step, whose waiting, parking, taking and stamping `SocketLaws` states, and the invariant is kept |
| KcpSockets.KcpSocket.PollRecv | src/skcp.rs:280-316 | Result and whole new state are those of the receive step |
| KcpSockets.KcpSocket.InputKcp | src/skcp.rs:193-209 | Result and whole new state are those of the feed step, and the invariant is kept |
| KcpSockets.KcpSocket.InputFec | src/skcp.rs:172-191 | Feeds the direct payload, then the decoder's answer, up to the first failure; the decoder records the packet exactly when the direct payload did not fail |
| KcpSockets.KcpSocket.InputPacket | src/skcp.rs:164-170 | With a decoder, packets of 6 bytes or more whose bytes 4 and 5 are 0xf1 or 0xf2 and 0 are handled as FEC packets; everything else goes straight to the engine and leaves the decoder's record alone |
| KcpSockets.KcpSocket.UpdateAt | src/skcp.rs:363-375 | Result and whole new state are those of the update step, and the invariant is kept |
| KcpSockets.KcpSocket.TryWakePendingSender | src/skcp.rs:329-342 | Wakes and clears the sender's slot exactly when there is room and the conversation id is known |
| KcpSockets.KcpSocket.TryWakePendingReceiver | src/skcp.rs:344-357 | Wakes and clears the receiver's slot exactly when something is readable |
| KcpSockets.KcpSocket.CloseSocket | src/skcp.rs:381-389 | Wakes whatever waits, empties both slots and changes nothing else |
| StreamModel.PollTakesChunk | src/skcp.rs:241-263 | A successful poll queues exactly the next part of the buffer, at least a byte if there is one and never an oversized message; a waiting poll queues nothing |
| StreamModel.SendAccounts | src/stream.rs:124-134 | For every buffer, every schedule of polls, and any other steps of the socket between any two polls, accepted or waiting: a finished `send` reports the buffer's length and has queued it whole, each poll that does not wait takes a byte or more, and a failed one has queued a prefix |
| StreamModel.ReadTakesPrefix | src/stream.rs:141-188 | Every read removes exactly the bytes it returns from the front of the unread bytes, behind which taking a message may uncover more, and none fails |
| StreamModel.ReadReturnsBytes | src/stream.rs:141-188 | A read returns nothing exactly for an empty buffer or, with no remainder, a closed socket, no complete message, or an empty message |
| StreamModel.ReadExactly | src/stream.rs:141-188 | A read returns as much of the remainder, or else of the next message, as the buffer holds; it waits exactly on an open socket with nothing to hand out, with its waker in the slot |
| StreamModel.PipeStepKeepsInv | src/stream.rs:113-188 | Every event of the pipe keeps read bytes plus unread bytes equal to the delivered ones, a prefix of those queued |
| StreamModel.RoundTrip | src/stream.rs:124-188 | In every run over an engine that delivers in order, whichever sends fail or are dropped half way, the bytes read are a prefix of what the sends put in: all of each buffer whose send succeeded and a front part of each other |
| StreamModel.RoundTripOfWholeSends | src/stream.rs:124-188 | If all sends so far succeeded, the bytes read are a prefix of their buffers, one after another, and what the send in progress has put in |
| KcpStreams.KcpStream.Send | src/stream.rs:124-134 | The loop ends as the send model says, with any steps of the socket between any two polls, and its books are in order |
| KcpStreams.KcpStream.PollRecv | src/stream.rs:141-188 | The loop ends; direct and buffered reads both amount to one read of the byte queue; only the bytes reported are written to the caller's buffer |
| KcpStreams.KcpStream.TakeBuffered | src/stream.rs:144-152 | Copies the front of the remainder, no more than fits, and keeps the rest |
| KcpStreams.KcpStream.ReadDirect | src/stream.rs:161-170 | A message that fits goes whole to the caller, and the engine never reports a buffer too small here |
| KcpStreams.KcpStream.Refill | src/stream.rs:172-186 | A message that does not fit becomes the remainder without changing what the read amounts to |
| SessionModel.EndsExactly | src/session.rs:240-287 | A tick ends a session if and only if it is closed with nothing left to send, idle for over twice its expiry, or its output is gone |
| SessionModel.TickCounts | src/session.rs:230-238 | A tick finalizes and sends the close notice exactly when it ends the session, never reopens it, and never changes its peer, conversation or activity stamp |
| SessionModel.TickDeadline | src/session.rs:249-287 | A session that goes on is polled again after the idle interval if nothing is unsent, else after the engine's delay, or 10 ms after a failed update; silence for longer than its expiry closes it |
| SessionModel.IdleExpiry | src/session.rs:249-272 | A server session with expiry `E` whose activity stopped at `L` is finalized by `L + 2E + D + G`, for passes at most `G` apart and delays at most `D` (10 ms or more), whatever else happens to it |
| SessionModel.NoEarlyExpiry | src/session.rs:249-286 | Whatever arrives and is sent: an open session that nobody closes and whose output works is finalized only at or after a poll that found more than `E` since the last activity at that time, and never when `E` is 0 |
| SessionModel.ExpiresExactly | src/session.rs:240-287 | Such a session is finalized exactly at the first poll that finds more than `2E` of silence, or that finds nothing unsent after an earlier poll found more than `E`, whatever activity there was since |
| SessionModel.EarlyExpiryExactly | src/session.rs:244-272 | It is finalized `E` or less after its last activity if and only if nothing is unsent and an earlier poll found more than `E` of silence |
| SessionModel.ExpiresDespiteActivity | src/session.rs:263-270 | Such runs exist for every expiry: a silent poll, a packet, and the next poll finalizes, however soon after the packet |
| SessionModel.ExpiresAfterFiveMs | src/session.rs:244-272 | A run with an expiry of 100 ms that ends 5 ms after the last activity |
| KcpSessions.KcpSession.constructor | src/session.rs:56-76 | A new session is open and expires only if it has a close notifier and a configured expiry |
| KcpSessions.KcpSession.DriveUpdate | src/session.rs:240-287 | Next deadline and whole new state are those of the drive step |
| KcpSessions.KcpSession.Finalize | src/session.rs:289-305 | Closes the socket, stops the input task, sends the one notice and marks the session closed |
| KcpSessions.KcpSession.PollSchedulerTick | src/session.rs:230-238 | A tick is a drive step, followed by finalization exactly when that ends the session |
| SchedulerModel.PassLeaves | src/scheduler.rs:108-126 | In a pass a task with a later deadline stays as it is; any other stays with the deadline its session asks for or goes for good |
| SchedulerModel.SwapRemoveSurvivors | src/scheduler.rs:121-123 | Swap-removal changes the order of the unscanned tasks but not what survives of them |
| SchedulerModel.ScanKeeps | src/scheduler.rs:110-120 | Keeping a task moves the scan on without changing what the whole pass leaves |
| SchedulerModel.ScanDrops | src/scheduler.rs:121-123 | Dropping one and scanning the task moved into its place does so too |
| Scheduling.ScanOne | src/scheduler.rs:110-124 | One round makes progress and keeps scanned and unscanned tasks and all sessions in step with a single pass |
| Scheduling.PollTask | src/scheduler.rs:116-120 | Polls that session once and leaves all other sessions alone |
| Scheduling.ProcessTasks | src/scheduler.rs:108-126 | The pass ends, polls every due session exactly once and no other, and leaves as a multiset the old tasks with new deadlines less those whose session ended |
| Scheduling.SyncedIsAfterPass | src/scheduler.rs:108-126 | After that pass every session object is as a pass of the scheduler's runs leaves it |
| Scheduling.RoundIsSteps | src/scheduler.rs:48-52 | What a round leaves is what a drain and a process step of the scheduler's runs leave |
| Scheduling.SchedulerShard.Round | src/scheduler.rs:41-53 | One round of a shard's thread performs a drain step and then stops, exactly if disconnected and empty, or performs a process step |
| Scheduling.SchedulerShard.DrainCommands | src/scheduler.rs:98-106 | All commands become tasks, in order, and disconnection is reported only with the channel empty |
| Scheduling.FixedTickScheduler.Put | src/scheduler.rs:62-65 | The task joins the channel of the shard whose number is the count of puts so far modulo the number of shards; nothing else changes, and this is what a registration does to the model's channels |
| Lifecycle.RoundRobin | src/scheduler.rs:62-65 | In every run the `j`-th registration, counting from 0, goes to the channel of shard `j` modulo the number of shards, and no other shard changes |
| Lifecycle.PassTradesPlaces | src/scheduler.rs:108-126 | In a pass a session loses its place exactly when it is finalized |
| Lifecycle.StepKeepsLife | src/scheduler.rs:28-60 | Every registration, drain, pass and shutdown keeps: places plus finalizations of a registered session are one |
| Lifecycle.PassIsPossible | src/scheduler.rs:50-54 | In every kept state the tasks of a shard belong to distinct registered sessions, as a pass needs |
| Lifecycle.PolledOnlyAlive | src/session.rs:230-238 | A session is polled at most once a pass and never after its finalization |
| Lifecycle.ExactlyOnce | src/scheduler.rs:36-69 | Over every interleaving on all shards, a registered session is in exactly one place and unfinalized, or nowhere and finalized once with one notice at most; a shard stops only with channel and tasks empty |
| SchedulerExpiry.RunsAsMoments | src/scheduler.rs:36-69 | In every run of the scheduler a waiting session is finalized exactly when the passes of its shard and the events that concern it say so |
| SchedulerExpiry.ExpiryInRuns | src/session.rs:249-272 | In every run of the scheduler, a registered or drained server session whose activity stopped at `L` is finalized by `L + 2E + D + G` if passes of its shard are at most `G` apart |
| SessionTable.ConvRoundTrip | src/listener.rs:107-114 | Writing a conversation id keeps the packet's kind and segment number, and the id is read back |
| SessionTable.OneOpenSession | src/session.rs:326-328 | Two open sessions of the same peer are the same session |
| SessionTable.EvolutionKeepsTable | src/session.rs:213-220 | Anything that keeps a session's peer, conversation and inbox packets and does not reopen it keeps the table invariant |
| SessionTable.ServerSessionEvolves | src/session.rs:101-198 | Whatever happens to a server session outside the listener, be it a tick, a step of its socket, a packet taken from its inbox or `close`, keeps its peer and conversation and never reopens it |
| SessionTable.SocketStepKeepsConv | src/skcp.rs:399-405 | No step of a socket that knows its conversation id changes it, apart from `set_conv` |
| SessionTable.RemovalKeepsTable | src/session.rs:346-348 | Removing a peer's entry closes its session and keeps the invariant |
| SessionTable.InstallKeepsTable | src/session.rs:367-400 | Replacing a peer's entry closes the replaced session and keeps the invariant |
| SessionTable.DeliveryKeepsTable | src/listener.rs:152-154 | Handing a session a packet of its own conversation keeps the invariant |
| ListenerModel.HandledIsolates | src/listener.rs:72-156 | Whatever packet arrives: the table invariant is kept, a packet other than parity reaches only the session listed for its peer and of its own conversation, and no other inbox changes |
| ListenerModel.RoutedIsolates | src/listener.rs:119-156 | The same for the part of the iteration after classification |
| ListenerLaws.HandledByBytes | src/listener.rs:92-117 | Conversation and segment are read little-endian from bytes 0 and 12 of the 24-byte KCP header, which begins 8 bytes in for FEC data; a fresh id replaces 0 in the packet |
| ListenerLaws.FirstSegment | src/session.rs:367-400 | A first segment, or any of an unknown peer, gets through to an open or listed session of its conversation; the peer's session of another conversation is closed and replaced, one of this conversation is kept, and all others are untouched |
| ListenerLaws.LaterSegment | src/session.rs:386-389 | Any other segment from a listed peer changes neither table nor any closed flag: it goes to the listed session of its conversation, or is ignored |
| ListenerLaws.NoSocket | src/listener.rs:144-147 | If the socket a packet needs cannot be made, nothing changes |
| ListenerLaws.NotAccepted | src/listener.rs:124-130 | If the new stream is not accepted, the peer is not listed and its old and new sessions are closed |
| ListenerLaws.ParityGoes | src/listener.rs:83-90 | Parity goes to the peer's listed session and nowhere else |
| ListenerLaws.TooShort | src/listener.rs:100-105 | Without a whole header nothing changes |
| ListenerModel.PanicsExactly | src/listener.rs:93-95 | An iteration panics if and only if FEC is on and the packet is flagged as FEC data and shorter than 8 bytes |
| ListenerModel.PanicExample | src/listener.rs:93-95 | Such a packet of six bytes |
| ListenerModel.TableAlways | src/listener.rs:64-157 | In every run of packets, close notices, ticks, socket steps, inbox drains and closings, at every moment: each open server session is its peer's table entry, and its conversation id is not 0 |
| ListenerModel.SessionsPersist | src/listener.rs:64-157 | Between any two moments of a run no server session changes its peer or conversation or opens again |
| Listening.KcpSessionManager.ClosePeer | src/session.rs:346-348 | Exactly the peer's entry goes, and exactly its session is closed |
| Listening.KcpSessionManager.Install | src/session.rs:367-400 | Exactly one fresh open session, with the configured expiry, flush flags, interval and windows, is added and listed, and exactly the replaced one is closed |
| Listening.KcpSessionManager.GetOrCreate | src/session.rs:354-402 | Makes a session exactly when the peer has none or its segment 0 names another conversation than the listed session's; fails exactly when it then cannot make the socket, changing nothing |
| Listening.SetConv | src/listener.rs:113 | Overwrites the four bytes of the id in place and nothing else |
| Listening.Classify | src/listener.rs:92-117 | The id and segment number are those of the packet, with a fresh id written in place of 0 |
| Listening.PassOn | src/listener.rs:119-156 | Outcome, table and all sessions are exactly those of the routing model, told from the packet's bytes in `ListenerLaws` |
| Listening.OnPacket | src/listener.rs:72-157 | Outcome, packet bytes, table and all sessions are exactly those of the handling model, of which `ListenerLaws` says what each kind of packet does; the body panics if and only if an FEC data packet lacks its length prefix |

## Left out

- RecoverySound: holds for one run of the sender before its numbers repeat, as the decoder's newest id never goes back down; `LateGroupIsLost` shows what happens then. Alignment, bounded state and conservation hold across wraps.
- EndToEndRecovery: the same limit to one run of numbers.
- SingleIsAnswered: the same limit to one run of numbers.
- LateParityExactly: the same limit to one run of numbers.
- GroupCovered: the same limit to one run of numbers.
- RecoveredWithin: the same limit to one run of numbers.
- SteadyCoversGroups: the same limit to one run of numbers.
- SparseSendsNoParity: the same limit to one run of numbers.
- GroupFed: the same limit to one run of numbers.
- GroupFedWithoutFailure: the same limit to one run of numbers.
- FedOnlyIf: the same limit to one run of numbers.
- FedExactly: the same limit to one run of numbers, and to runs in which recovered payloads do not fail; with such failures `FailedCallLoses` says which part is fed.
- ReconstructedOnceExactly: the same limit to one run of numbers.
- NoStrandedSender: only for runs whose inputs and updates reach their waker check, which the code does not always do; `StrandedExactly` says exactly which steps break it.
- FEC with a conversation id chosen by the server: the listener rewrites the id inside the data shard before decoding, so the recovery lemmas are about senders that already use a non-zero id.
- XorParity.XorCodecIsLawful: an instance of the law with one parity shard only; the field arithmetic of the Reed–Solomon code that the repository takes from a library is not modelled, and that it meets the law is the one thing assumed of it.
- The KCP engine's wire format, retransmission and congestion control, and its merging of stream segments beyond a bound on segments. The limit of 127 segments a message follows the code in src/skcp.rs.
- `UdpOutput`, UDP sockets, channels and tasks as mechanisms, spin locks, memory ordering, logging, `Debug` and handle accessors.
- The dispatch of a client's input task (src/session.rs:105-172) and the channel capacity of 64: the inbox is an unbounded list, and a server's input task takes packets from it and feeds the socket as one step.
- Sockets made in the model of the listener have no FEC decoder attached; the FEC entry point is proved on the socket class itself.
- In the runs of the scheduler and the listener, sessions are values named by a type parameter; a shard's round and a listener iteration on objects are proved to perform the steps of those runs, but no run on objects is built from them.
- Socket packet buffers are sequences; only the reader's buffer and the listener's packet are arrays.
- Uniqueness of random conversation ids, and the end of client sessions, whose expiry is 0 and whose close waits for unsent data.
- A replaced session's close notice names only the peer and may therefore remove its successor's entry; no property excludes that.
- NoStrandedReceiver: only for runs whose inputs reach their waker check and in which no empty message is swallowed; `ReceiverStrandedExactly` says exactly which steps break it.
- The examples, benchmarks and the slot wheel of the planning documents.

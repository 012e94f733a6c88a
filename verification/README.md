# Verified models of loadgen2 and flow-core

Dafny models of the parts of this repository whose correctness spans many calls, with proofs of the
properties those parts exist for. `dafny verify dfyconfig.toml` checks all of it.

The load generator (`benchmarks/scripts/loadgen2`) claims that every message it schedules ends in
exactly one counter. That claim crosses a hand-written MQTT 3.1.1 publisher, an independent decoder,
two byte streams that may be cut anywhere, a pool of HTTP connections, an open-loop scheduler, worker
processes, and a histogram with a bounded error. `MqttLink` puts publisher, sink and both channels
into one transition system, `MqttDelivery` follows the messages through it, `MqttExhaustion` asks when
its packet identifiers are exhausted, and `MqttSender`, `MqttReasons` and `MqttFleet` add the books of a
worker with many devices. `HttpStreams` and `HttpMessages` take HTTP streams apart, and `HttpPool`,
`HttpPlaces` and `HttpReasons` are about the keep-alive pool and its books. `Schedule`, `SendLog`,
`Pacing`, `OpenLoop`, `Buckets`, `Histogram` and `Sharding` cover the measurement. `Worker` joins loop
and engine and proves the claim for a worker's result and for the merged one.

The backend (`flow-core`) keeps derived state that must not drift: what dashboards are told about a
twin although the watch forgets entities at will (`TwinWatch` on values, `TwinMaps` on the nested maps
it writes in place), the alarm of each device and type and the alarm count of each asset in a relation
graph that may be cyclic (`Reachability`, `AlarmTables`, `AlarmMaterializer`, `AlarmCounts`,
`FlowAlarms`), the relations query (`RelationBfs`), the policy evaluator (`Policy`), the key dictionary
shared by several processes (`KeyDictionary`), and two textual round trips (`TextArray`,
`DeviceIdentity`). `Framing`, `Numbers`, `Sums`, `MapSums`, `Sequences` and `Wrappers` hold
what several of these need.

Objects that the code updates in place are classes whose methods are proved against functions on a
value, `View()`; loops are loops with invariants, and a loop over a Go map or a Python dict takes its
keys in any order. What is promised over whole runs is proved of those functions.

## Where the code does something else than it says

- A packet whose remaining length is 2^28 or more (the limit of section 2.2.3 of MQTT 3.1.1) can be
  sent by `_varint` of the publisher, but is never taken by either receiver, nor is anything after it:
  `MqttCodec.PacketRoundTrip` has the exact limit, `MqttCodec.OverlongPacketBlocks` the consequence.
- The sink returns from a DISCONNECT before it writes and counts what the same callback gathered. So
  the effect of a stream with a DISCONNECT is that of the packets completed by earlier deliveries
  (`MqttSink.EffectOfCut`), and all cuts of a stream agree exactly if nothing is answered or counted
  before its first DISCONNECT (`MqttSink.AllCutsAgree`).
- "packet-id space exhausted" (rawtransport.py:329) need not be so. The identifiers are tried in a
  circle, so a refusal with nothing delivered in between meets all 65535 of them outstanding exactly if
  the free ones were those right behind the last one used
  (`MqttExhaustion.FirstRefusalIffFreeAhead`). They are until a publish is refused or the write of one
  raises (`MqttLink.FirstRefusalMeansExhausted`). Either uses up an identifier, and from then on one can
  be free and the next publish refused: `MqttExhaustion.RefusedWithAFreeId` and
  `MqttExhaustion.RefusedAfterARaisedWrite` are such runs, and by `MqttExhaustion.RaiseBreaksFreeAhead`
  a raised write leaves the free identifiers in place only if nothing is outstanding.
- A response that no request asked for breaks the HTTP pool; the invariant survives a response exactly
  if the connection was busy (`HttpPool.OneResponsePerRequest`).
- `connect` and `_replace` wait for new connections and register them without looking at what became of
  them. A connection that is lost in between keeps its place for good: replacements then find the pool
  full and give up without counting a failed reconnect (`HttpPool.FullMeansLostEarly`). While `connect`
  waits for the slowest of many this leaves more connections in the pool than its size, and a negative
  number of failed ones in the report (`HttpPlaces.LostWhileConnectingIsCounted`), of which fewer work
  later on (`HttpPlaces.ThenOneIsLeft`, `HttpPlaces.LostEarlyEmptiesThePool`). Without such a loss the
  pool is always refilled (`HttpPlaces.ThePoolIsRefilled`).
- The nudge `_EPS` makes message k due at the deadline of k - eps, neither earlier nor later
  (`Schedule.DueIffNudgedDeadline`). With eps = 0 count and deadline are exact inverses.
- A clear or an escalation sent for a tenant that is not the device's recounts every asset above the
  device for that tenant, which gives zero. The counts stay right exactly if nothing but the cleared
  alarm is counted there (`AlarmCounts.CountsRightAfterAnyIntent`; `AlarmCounts.ForeignTenantMiscounts`
  has tables where it is not so). The other implementation counts for any tenant; there it is an alarm
  opened for a foreign tenant, below some asset, that makes the counts wrong
  (`FlowAlarms.CountsRightAfterAnyCreate`).
- `UpsertAlarm` does not check that the device exists, `ApplyIntent` does. They leave the same active
  alarms exactly if the device is live or the alarm is active already
  (`FlowAlarms.SameActiveAfterCreate`).
- Broadcasts name an entity by its identifier alone. When two entities share one, a change is hidden
  from the subscriber (`TwinWatch.SharedIdentifierHidesAChange`); the subscriber is right in every run
  exactly if no two entities do (`TwinWatch.FaithfulIffOwnIdentifiers`).
- The relations query reports its budget as exceeded even when nothing was left to discover: a
  neighbour that is already known and looked at too late is enough. `RelationBfs.RunsOver` is the exact
  condition (`RelationBfs.RelationsQuery`), and two nodes that point at each other with a budget of two
  meet it (`RelationBfs.CycleRunsOver`).
- `pgArray` escapes quotes and backslashes as the database reads them
  (`TextArray.DatabaseReadsTheList`), but `ParsePgTextArray` does not undo it: a printed list comes
  back exactly if no element has either (`TextArray.PrintedRoundTrip`).

## Assumptions

- `twinstore.Key` is injective and `topology.NeighborsTenant` is a pure function of the node; neither
  is part of this model.
- Time is exact, and the square root is the non-negative number with the right square.
- HTTP heads are scanned by unspecified functions of the head that give a natural number. Of a negative
  Content-Length or chunk size, on which the Python loops can fail to advance, nothing is said.
- SQL statements are atomic and the tables are maps; a recursive query is a round-by-round closure.
- A change in the twin watch carries as `Old` nothing the subscriber does not already hold. A zero
  `Old`, the NATS case, meets this (`TwinWatch.ZeroIsTruthful`).
- Types of entities have no colon in them, so that the key `Type:ID` of the relations query is
  injective.

## Model

| member | source | states |
|---|---|---|
| Framing.ChunkingIsIrrelevant | benchmarks/scripts/loadgen2/rawtransport.py:335-357 | for any framing whose frames do not change when more bytes arrive, a receiver fed chunk by chunk sees the frames and keeps the rest that one delivery of everything gives |
| Framing.TakeIsExhaustive | benchmarks/scripts/loadgen2/sink.py:110-123 | the loop stops only when what is left holds no complete frame |
| MqttCodec.EncodeVarint | benchmarks/scripts/loadgen2/rawtransport.py:245-254 | the publisher's loop ends and produces the field that VarintRoundTrip is about |
| MqttCodec.ReadVarint | benchmarks/scripts/loadgen2/sink.py:73-86 | the loop with the running multiplier reads the least-significant-first base-128 value of at most four bytes, or nothing |
| MqttCodec.VarintRoundTrip | benchmarks/scripts/loadgen2/sink.py:73-86 | a decoder allowed n bytes reads back exactly the values below 128^n, whatever follows, and never anything for a larger one |
| MqttCodec.VarintDigits | benchmarks/scripts/loadgen2/rawtransport.py:245-254 | byte k of the field holds the k-th group of seven bits, a byte says that one follows exactly if one does, and no shorter field would do |
| MqttCodec.VarintExamples | benchmarks/scripts/loadgen2/rawtransport.py:245-254 | the limits of one to four bytes, and the example, of section 2.2.3 of MQTT 3.1.1 |
| MqttCodec.ReadPacket | benchmarks/scripts/loadgen2/rawtransport.py:337-357 | the test for a whole packet at the head of the buffer, with the packet and its size |
| MqttCodec.PacketsAreStable | benchmarks/scripts/loadgen2/rawtransport.py:337-357 | a packet once complete stays the same packet however many bytes follow |
| MqttCodec.PacketRoundTrip | benchmarks/scripts/loadgen2/sink.py:113-123 | an encoded packet at the head of any stream is decoded as itself if and only if its body is shorter than 2^28 bytes |
| MqttCodec.OverlongPacketBlocks | benchmarks/scripts/loadgen2/sink.py:114-120 | after a longer packet nothing is ever decoded again and the buffer only grows |
| MqttCodec.StreamRoundTrip | benchmarks/scripts/loadgen2/sink.py:106-123 | a stream of encoded packets is taken apart into exactly those packets |
| MqttCodec.BuildConnect | benchmarks/scripts/loadgen2/rawtransport.py:257-276 | a CONNECT packet is built if and only if its fields fit their length prefixes; client id, user name, password and keep-alive are read back from its body |
| MqttCodec.PublishReadsBack | benchmarks/scripts/loadgen2/rawtransport.py:321-332 | read by section 3.3 of MQTT 3.1.1, a QoS 1 PUBLISH gives back topic, identifier and payload, one with QoS 0 topic and payload; neither is a duplicate or retained |
| MqttCodec.PublishBytes | benchmarks/scripts/loadgen2/rawtransport.py:321-332 | the bytes of one PUBLISH of each QoS, written out |
| MqttCodec.FixedPacketBytes | benchmarks/scripts/loadgen2/rawtransport.py:279-280 | the bytes of CONNACK, PINGREQ, PINGRESP and PUBACK |
| MqttSink.MqttSinkProtocol.Answer | benchmarks/scripts/loadgen2/sink.py:124-141 | the bytes that answer one packet of each type |
| MqttSink.ReplyIsThePacket | benchmarks/scripts/loadgen2/sink.py:124-141 | the answers are packets of the standard: CONNACK, PINGRESP, SUBACK, and PUBACK with the identifier of a QoS 1 PUBLISH that can be read; nothing for anything else |
| MqttSink.MqttSinkProtocol.HandlePackets | benchmarks/scripts/loadgen2/sink.py:110-145 | the loop gathers answers and counts of the packets of the buffer, and drops both at a DISCONNECT |
| MqttSink.MqttSinkProtocol.DataReceived | benchmarks/scripts/loadgen2/sink.py:106-145 | buffer, count, bytes written and hang-up after one delivery |
| MqttSink.HandleIsPacketwise | benchmarks/scripts/loadgen2/sink.py:110-145 | without a DISCONNECT the callback answers and counts exactly the whole packets of the buffer; it hangs up if and only if one of them is a DISCONNECT |
| MqttSink.SinkIgnoresChunking | benchmarks/scripts/loadgen2/sink.py:106-145 | on DISCONNECT-free streams the bytes sent, the count and the buffer do not depend on how the stream is cut |
| MqttSink.StreamIsAnswered | benchmarks/scripts/loadgen2/sink.py:106-145 | a stream of encoded packets gets the answers and the count of those packets |
| MqttSink.DisconnectInOnePiece | benchmarks/scripts/loadgen2/sink.py:139-141 | with a DISCONNECT in the same delivery nothing is sent or counted |
| MqttSink.DisconnectBytes | benchmarks/scripts/loadgen2/sink.py:139-141 | the two bytes of a DISCONNECT hang up |
| MqttSink.DisconnectInTwoPieces | benchmarks/scripts/loadgen2/sink.py:139-145 | with the DISCONNECT in a later delivery everything before it is answered and counted |
| MqttSink.EffectOfCut | benchmarks/scripts/loadgen2/sink.py:106-145 | however a stream with a DISCONNECT is cut, the bytes sent and the count are those of the packets completed by deliveries before the one that completes the DISCONNECT |
| MqttSink.DisconnectDropsTheBatch | benchmarks/scripts/loadgen2/sink.py:139-145 | a cut agrees with one delivery of everything if and only if none of these packets is answered or counted |
| MqttSink.AllCutsAgree | benchmarks/scripts/loadgen2/sink.py:106-145 | all cuts of a stream agree if and only if it has no DISCONNECT, or no packet before the first is answered or counted |
| MqttSink.BatchCounter.Add | benchmarks/scripts/loadgen2/sink.py:158-163 | nothing is lost between batch and shared value, and the batch stays below its limit |
| MqttSink.BatchCounter.Flush | benchmarks/scripts/loadgen2/sink.py:165-169 | the shared value becomes everything ever added |
| MqttClient.NextPidIsTheSuccessor | benchmarks/scripts/loadgen2/rawtransport.py:326 | the next identifier is one more, and 1 after 65535; it is never 0 |
| MqttClient.MqttConnection.Publish | benchmarks/scripts/loadgen2/rawtransport.py:321-333 | what is written (by PublishStepReadsBack one PUBLISH with topic, identifier and payload), what becomes pending, and the refusal, which writes nothing, when the next identifier is outstanding |
| MqttClient.PublishStepReadsBack | benchmarks/scripts/loadgen2/rawtransport.py:321-333 | a publish that is not refused writes one packet, which reads as a PUBLISH with the topic of the connection, the new identifier and the payload |
| MqttClient.MqttConnection.DataReceived | benchmarks/scripts/loadgen2/rawtransport.py:335-367 | state and number of callbacks after one delivery |
| MqttClient.MqttConnection.OnPacket | benchmarks/scripts/loadgen2/rawtransport.py:358-367 | the branches for PUBACK, CONNACK and everything else |
| MqttClient.LastConnackDecides | benchmarks/scripts/loadgen2/rawtransport.py:364-366 | after any packets the code of the last CONNACK is kept, and the device is connected if and only if it is 0 |
| MqttClient.AnsweredConnect | benchmarks/scripts/loadgen2/rawtransport.py:364-366 | a broker that answers with the four bytes of a CONNACK of some code: the code is kept, and only 0 connects |
| MqttClient.MqttConnection.ConnectionLost | benchmarks/scripts/loadgen2/rawtransport.py:369-374 | reports how much was pending and gives all of it up |
| MqttClient.DrainIsPacketwise | benchmarks/scripts/loadgen2/rawtransport.py:335-367 | the receive loop acts on exactly the packets of the buffer, in order |
| MqttClient.ClientIgnoresChunking | benchmarks/scripts/loadgen2/rawtransport.py:335-367 | however the broker's stream is cut, the publisher ends in the same state with as many callbacks |
| MqttLink.OpenedIsSound | benchmarks/scripts/loadgen2/rawtransport.py:387-404 | a connection whose CONNECT was just written satisfies the invariant of the link |
| MqttLink.StepIsSound | benchmarks/scripts/loadgen2/rawtransport.py:321-367 | publishing, with or without a write that raises, pinging and delivering any number of bytes in either direction keep it |
| MqttLink.PendingIsWhatIsInFlight | benchmarks/scripts/loadgen2/rawtransport.py:321-367 | over every interleaving and every cut of both streams, with no disconnect and remaining lengths below 2^28, `pending` is exactly the identifiers in undelivered PUBLISH and PUBACK bytes, each once and in 1..65535, and no publish is lost, doubled or made up |
| MqttLink.DrainedMeansDone | benchmarks/scripts/loadgen2/rawtransport.py:359-363 | with both channels empty nothing is pending, and acknowledged, published and decoded counts agree |
| MqttLink.TwoDeliveriesDrain | benchmarks/scripts/loadgen2/sink.py:124-145 | from every reachable state two deliveries lead there |
| MqttLink.FirstRefusalMeansExhausted | benchmarks/scripts/loadgen2/rawtransport.py:326-329 | over every run with no publish refused and no write raised so far, one is refused if and only if all 65535 identifiers are outstanding |
| MqttDelivery.StepCarries | benchmarks/scripts/loadgen2/rawtransport.py:321-333 | one step of the link: the messages on the way and the one published are those decoded and those still on the way, in order, and the sink counts what it decodes |
| MqttDelivery.MessagesArriveInOrder | benchmarks/scripts/loadgen2/sink.py:106-145 | over every interleaving and every cut: the topics and payloads decoded by the sink, followed by those in undelivered bytes, are exactly those published, in order |
| MqttDelivery.PublishedIsDecoded | benchmarks/scripts/loadgen2/sink.py:106-145 | so from a written CONNECT on; once everything is delivered the messages decoded are the messages published, and as many are counted |
| MqttExhaustion.FirstRefusalIffFreeAhead | benchmarks/scripts/loadgen2/rawtransport.py:326-329 | from every sound connected link, also after refusals and raised writes, publishing with nothing delivered and nothing raised in between: the first refusal meets all 65535 identifiers outstanding if and only if the free ones were those right behind the last one used |
| MqttExhaustion.RaiseBreaksFreeAhead | benchmarks/scripts/loadgen2/senders.py:707-711 | a raised write leaves the free identifiers right behind the last one if and only if none is outstanding |
| MqttExhaustion.RefusedWithAFreeId | benchmarks/scripts/loadgen2/rawtransport.py:326-329 | a run from the CONNECT on that ends with identifier 1 free, 65534 outstanding and the next publish refused |
| MqttExhaustion.RefusedAfterARaisedWrite | benchmarks/scripts/loadgen2/senders.py:707-711 | a run from the CONNECT on with one raised write and no refusal that ends with identifier 2 free, 65534 outstanding and the next publish refused |
| MqttSender.RawMqttSender.Dispatch | benchmarks/scripts/loadgen2/senders.py:696-718 | which counter a message goes to, a raised exception included, and what it does to its connection |
| MqttSender.RawMqttSender.OnData | benchmarks/scripts/loadgen2/senders.py:653-655 | each acknowledged message is counted as accepted |
| MqttSender.RawMqttSender.OnConnLost | benchmarks/scripts/loadgen2/senders.py:657-666 | what was pending on a lost connection is counted as lost |
| MqttSender.RawMqttSender.InflightCount | benchmarks/scripts/loadgen2/rawtransport.py:423-424 | the sum over the open connections |
| MqttSender.RawMqttSender.Drain | benchmarks/scripts/loadgen2/senders.py:720-725 | what is still unanswered is counted as missing |
| MqttSender.StepBalances | benchmarks/scripts/loadgen2/senders.py:653-718 | every step keeps dispatched + lost = attempted + failed, and in QoS 1 attempted = accepted + lost + in flight |
| MqttSender.BooksBalance | benchmarks/scripts/loadgen2/senders.py:653-718 | so does every run, whatever the broker sends and whichever connections die |
| MqttSender.EveryMessageInOneBucket | benchmarks/scripts/loadgen2/senders.py:696-725 | for any QoS, after any run and the drain every dispatched message is accepted or counted under exactly one reason, and all reasons are known ones |
| MqttReasons.ReasonsAreTheFates | benchmarks/scripts/loadgen2/senders.py:696-718 | over every run: mqtt_no_conn is booked for exactly the messages whose socket was missing or not connected, mqtt_pid_exhausted for those refused, an exception for those whose write raised; the others are attempted, and a loss books what was unanswered |
| MqttReasons.NothingIsSentAfterALoss | benchmarks/scripts/loadgen2/rawtransport.py:369-374 | after the loss of its socket every message for a device fails without a connection, whatever comes in between |
| MqttReasons.DisconnectsAreCounted | benchmarks/scripts/loadgen2/senders.py:657-666 | disconnects are the losses of sockets that were connected |
| MqttFleet.BooksFollowTheLink | benchmarks/scripts/loadgen2/senders.py:653-718 | the worker's books move exactly as the link of the device does |
| MqttFleet.RunsAreConsistent | benchmarks/scripts/loadgen2/senders.py:641-725 | over every run without a lost connection the books of a worker agree with all its links |
| MqttFleet.DrainedFleetAgrees | benchmarks/scripts/loadgen2/senders.py:720-725 | with all channels empty: nothing in flight, and accepted = attempted = packets the sinks decoded |
| MqttFleet.FleetDeliversEverything | benchmarks/scripts/loadgen2/senders.py:641-725 | from freshly written CONNECTs, over every interleaving of sends, raised ones included, pings and deliveries: books and links agree, and once the channels are empty attempted = accepted = decoded and nothing is in flight |
| HttpStreams.WalkChunks | benchmarks/scripts/loadgen2/rawtransport.py:93-115 | the walk over the chunk framing finds the end of the body, or waits for more |
| HttpStreams.HandleResponses | benchmarks/scripts/loadgen2/rawtransport.py:78-132 | the loop reports one status per complete response, which MessageReadsBack delimits, and stops at a close |
| HttpStreams.ResponsesAreStable | benchmarks/scripts/loadgen2/rawtransport.py:81-127 | a complete response, chunked or not, stays the same response when more bytes arrive |
| HttpStreams.HandleIsMessagewise | benchmarks/scripts/loadgen2/rawtransport.py:78-132 | without "Connection: close" the callback reports exactly the complete responses of the buffer |
| HttpStreams.ClientIgnoresChunking | benchmarks/scripts/loadgen2/rawtransport.py:78-132 | for every stream, with a "Connection: close" or without: the statuses reported and the hang-up do not depend on how it is cut, nor, without a hang-up, do the remaining bytes |
| HttpMessages.FindIsFirst | benchmarks/scripts/loadgen2/rawtransport.py:81 | `find` gives the first occurrence, and none if and only if there is none |
| HttpMessages.MessageReadsBack | benchmarks/scripts/loadgen2/rawtransport.py:78-127 | a head, a blank line and a body of the announced length, or in chunks (section 7.1 of RFC 9112) with extensions and trailer, are found at the head of any stream as that message, with its exact size |
| HttpMessages.PartOfAMessage | benchmarks/scripts/loadgen2/rawtransport.py:81-126 | nothing is found as long as a byte of the message is missing |
| HttpMessages.RequestReadsBack | benchmarks/scripts/loadgen2/sink.py:46-66 | a request of the announced length is found at the head of any stream, and no part of it is |
| HttpMessages.FoundIsOnTheWire | benchmarks/scripts/loadgen2/rawtransport.py:81-127 | what is found is what stands in the buffer, its head ends at the first blank line, and an unchunked body has the announced length |
| HttpMessages.StreamReadsBack | benchmarks/scripts/loadgen2/rawtransport.py:78-127 | a stream of messages, the last perhaps incomplete, is taken apart into exactly those messages |
| HttpMessages.ResponsesAreReported | benchmarks/scripts/loadgen2/rawtransport.py:78-132 | however a stream of responses is cut, the status of each is reported once, in order, and nothing is left over |
| HttpMessages.ClosingResponse | benchmarks/scripts/loadgen2/rawtransport.py:130-132 | a response with "Connection: close" is the last one reported, and what follows it stays unread |
| HttpMessages.HeadOfLines | benchmarks/scripts/loadgen2/rawtransport.py:81-84 | lines without a carriage return, none of them empty, make a head that the above applies to |
| HttpMessages.NoContentIsReported | benchmarks/scripts/loadgen2/rawtransport.py:124-129 | the bytes of a complete 204 response give status 204 and an empty buffer |
| HttpMessages.ChunkedHelloIsReported | benchmarks/scripts/loadgen2/rawtransport.py:93-115 | so do the bytes of one chunk, the zero chunk and an empty trailer |
| HttpSink.HttpSinkProtocol.DataReceived | benchmarks/scripts/loadgen2/sink.py:46-70 | as many answers and as much counted as there are complete requests in the buffer |
| HttpSink.SinkIgnoresChunking | benchmarks/scripts/loadgen2/sink.py:46-70 | answers and counts do not depend on how the requests are cut |
| HttpMessages.RequestsAreCounted | benchmarks/scripts/loadgen2/sink.py:46-70 | however a stream of requests is cut, the sink answers and counts each of them once |
| HttpPool.RawHttpSender.ConnectEnds | benchmarks/scripts/loadgen2/rawtransport.py:157-171 | everything that `gather` opened joins the pool, whatever became of it meanwhile, and the size of the pool is what is reported as open |
| HttpPool.RawHttpSender.Send | benchmarks/scripts/loadgen2/rawtransport.py:173-184 | closed connections are discarded until one can be used |
| HttpPool.RawHttpSender.Dispatch | benchmarks/scripts/loadgen2/senders.py:609-620 | a message is attempted, or blocked and counted as pool_full |
| HttpPool.RawHttpSender.OnResult | benchmarks/scripts/loadgen2/senders.py:599-607 | which counter a status goes to |
| HttpPool.ReasonsAreApart | benchmarks/scripts/loadgen2/senders.py:599-607 | two statuses share a counter only if they are the same, and none shares one with another reason |
| HttpPool.RawHttpSender.OnResponse | benchmarks/scripts/loadgen2/rawtransport.py:186-189 | the connection is free again and the result counted |
| HttpPool.RawHttpSender.OnConnLost | benchmarks/scripts/loadgen2/rawtransport.py:191-214 | the connection leaves the pool, or was not in it yet; a request on it is counted as lost, and a replacement is under way unless the pool is closing |
| HttpPool.RawHttpSender.ReplaceBegins | benchmarks/scripts/loadgen2/rawtransport.py:216-219 | the check before the wait: a replacement gives up if the pool is closing or full |
| HttpPool.RawHttpSender.ReplaceEnds | benchmarks/scripts/loadgen2/rawtransport.py:220-229 | after the wait, whatever happened meanwhile: the new connection joins the pool, or a failed reconnect is counted |
| HttpPool.RawHttpSender.OnData | benchmarks/scripts/loadgen2/rawtransport.py:78-132 | every response in the buffer is taken to its callback, in order |
| HttpPool.RawHttpSender.Drain | benchmarks/scripts/loadgen2/senders.py:622-627 | what is still in flight is counted as such |
| HttpPool.PlaceIsSound | benchmarks/scripts/loadgen2/rawtransport.py:173-184 | sending succeeds if and only if a connection in `free` works; it takes an idle working connection of the pool |
| HttpPool.SendTakesTheLast | benchmarks/scripts/loadgen2/rawtransport.py:173-184 | it is the last one in `free` that works; the closed ones behind it are dropped and nothing else is |
| HttpPool.FreeAndInflightMakeThePool | benchmarks/scripts/loadgen2/rawtransport.py:148-150 | under the invariant the working connections are split between `free` and the requests in flight and are never more than the pool's size |
| HttpPool.WholePool | benchmarks/scripts/loadgen2/rawtransport.py:148-150 | if none was lost early, `free` and `inflight` together make the whole pool |
| HttpPlaces.PlacesAreConserved | benchmarks/scripts/loadgen2/rawtransport.py:157-229 | until the pool is closed, over every interleaving: working connections, new ones under way, failed connects and reconnects, and replacements that gave up always add up to the same number |
| HttpPool.FullMeansLostEarly | benchmarks/scripts/loadgen2/rawtransport.py:218-219 | a replacement finds the pool full only if it holds a connection that was lost before it was registered |
| HttpPlaces.ThePoolIsRefilled | benchmarks/scripts/loadgen2/rawtransport.py:157-229 | from the start of `connect`, if no connection is lost before it is registered, over every run: pool and new connections under way are as many as were asked for, less those that could not be opened or reopened |
| HttpPlaces.LostEarlyEmptiesThePool | benchmarks/scripts/loadgen2/rawtransport.py:216-229 | with one, in a pool of one, nothing is ever sent again and no reconnect is reported as failed |
| HttpPlaces.LostWhileConnectingIsCounted | benchmarks/scripts/loadgen2/rawtransport.py:157-171 | a run in which a connection is lost and made up for while `connect` waits for another: three connections in a pool of two |
| HttpPlaces.ThenOneIsLeft | benchmarks/scripts/loadgen2/rawtransport.py:216-219 | the next loss in that run is not made up for, and no reconnect has failed |
| HttpPlaces.ClosingOpensNothing | benchmarks/scripts/loadgen2/rawtransport.py:231-237 | a pool that is closing starts no replacement, over every run |
| HttpPool.OneResponsePerRequest | benchmarks/scripts/loadgen2/rawtransport.py:127-129 | a response keeps the pool's invariant if and only if its connection was busy |
| HttpPool.StepBalances | benchmarks/scripts/loadgen2/senders.py:599-620 | `inflight` is the number of busy connections, `free` has the working others without repetition, and every message is refused, answered, failed or in flight |
| HttpPool.RunsBalance | benchmarks/scripts/loadgen2/rawtransport.py:157-229 | the same over every run of sends, responses of any status, losses before and after registration, the end of `connect` and both halves of replacements |
| HttpPool.EveryMessageInOneBucket | benchmarks/scripts/loadgen2/senders.py:609-627 | after any run and the drain every dispatched message is in exactly one bucket |
| HttpReasons.CountersAreTheAnswers | benchmarks/scripts/loadgen2/senders.py:599-620 | over every run: accepted are the answers from 200 to 299, http_s the other answers with status s, conn_lost the connections lost with a request on them, pool_full the messages for which no connection in `free` worked |
| HttpReasons.StatusNames | benchmarks/scripts/loadgen2/senders.py:607 | three of these counters, as they are written |
| Schedule.ContinuousAtTheKnee | benchmarks/scripts/loadgen2/stats.py:128-132 | the quadratic and the linear part meet: at the knee they give the same count and the same deadline |
| Schedule.SmoothAtTheKnee | benchmarks/scripts/loadgen2/stats.py:128-132 | they meet with the same slope: a step of h past the knee adds rate * h, one up to it adds that up to a remainder in h * h |
| Schedule.CurveAtDeadline | benchmarks/scripts/loadgen2/stats.py:175-180 | at the deadline of a message the curve has risen to exactly that message, in both parts |
| Schedule.DueIffDeadline | benchmarks/scripts/loadgen2/stats.py:142-180 | for every rate, ramp, message k and time t >= 0: `due(t)` counts message k if and only if `sched_time(k) <= t` |
| Schedule.DueIffNudgedDeadline | benchmarks/scripts/loadgen2/stats.py:147-180 | with the nudge eps, if and only if the deadline of k - eps has come |
| Schedule.DueIsMonotone | benchmarks/scripts/loadgen2/stats.py:159-169 | `due` never decreases |
| Schedule.DeadlinesIncrease | benchmarks/scripts/loadgen2/stats.py:175-180 | later messages have later deadlines |
| Schedule.WindowCoversItsMessages | benchmarks/scripts/loadgen2/stats.py:171-180 | a message the window asks for is due before the window ends |
| OpenLoop.BaseSender.SendOne | benchmarks/scripts/loadgen2/senders.py:172-184 | lag counters, timestamp, device and count of one message |
| OpenLoop.BaseSender.SendDue | benchmarks/scripts/loadgen2/senders.py:167-184 | one tick: each reading of the in-flight count below the cap lets the next due message go, one at or above it ends the tick, and a tick is blocked if and only if a message due by then has not left |
| OpenLoop.BaseSender.FinalPass | benchmarks/scripts/loadgen2/senders.py:207-221 | the catch-up, under the same cap and with the same account of its readings |
| OpenLoop.BaseSender.RunSchedule | benchmarks/scripts/loadgen2/senders.py:151-221 | for any clock readings and any in-flight counts: messages 0, 1, 2, ... leave once each, in order, none before its deadline; timestamps of a device strictly increase; the devices get equally many up to one; lag totals are exact; every reading of the in-flight count belongs to one message that left, below the cap, or one block, at or above it; a positive deficit means that the cap blocked |
| OpenLoop.CapDecides | benchmarks/scripts/loadgen2/senders.py:167-221 | with every reading below the cap nothing is blocked, everything is dispatched, and each message leaves at the first tick at which it is due, or in the final pass if there is none; with every reading at or above it nothing leaves and each tick and the final pass is blocked once |
| Pacing.TurnLeft | benchmarks/scripts/loadgen2/senders.py:167-184 | a reading below the cap: the next message leaves at this tick, and the ticks before stay accounted for |
| Pacing.TurnBlocked | benchmarks/scripts/loadgen2/senders.py:168-170 | a reading at or above the cap ends the tick, with a message left that it asked for |
| Pacing.RoomForAll | benchmarks/scripts/loadgen2/senders.py:167-221 | for any plan of ticks: no reading at the cap, no block, and every message at the first tick that asks for it |
| Pacing.NoRoomAtAll | benchmarks/scripts/loadgen2/senders.py:167-221 | for any plan of ticks: no reading below the cap, no message, and one block for each tick |
| OpenLoop.BaseSender.Deficit | benchmarks/scripts/loadgen2/senders.py:227-238 | dispatched + deficit = scheduled total |
| SendLog.RecordKeepsOrder | benchmarks/scripts/loadgen2/senders.py:126-132 | order, deadlines and increasing timestamps survive one more message even if the wall clock goes back |
| SendLog.RecordKeepsStamps | benchmarks/scripts/loadgen2/senders.py:126-132 | timestamps are positive and not before the wall clock, and where they are not the clock they are 1 or the next one after a timestamp of the same device |
| SendLog.LateMessages | benchmarks/scripts/loadgen2/senders.py:174-175 | behind schedule is the number of messages that left more than the threshold after their deadline |
| SendLog.FairShares | benchmarks/scripts/loadgen2/senders.py:181 | of m messages device i of n gets m/n, and one more if i < m mod n |
| SendLog.SentToIsShare | benchmarks/scripts/loadgen2/senders.py:167-184 | in every log that the loop can leave, the messages sent to a device are its share |
| SendLog.SharesDifferByOne | benchmarks/scripts/loadgen2/senders.py:167-184 | so no device gets more than one message more than another |
| Buckets.IndexMonotone | benchmarks/scripts/loadgen2/stats.py:20-27 | larger values have no smaller bucket |
| Buckets.LowerMonotone | benchmarks/scripts/loadgen2/stats.py:30-35 | larger buckets have larger lower bounds |
| Buckets.IndexOfLower | benchmarks/scripts/loadgen2/stats.py:20-35 | the bucket of a bucket's lower bound is that bucket |
| Buckets.LowerIsClose | benchmarks/scripts/loadgen2/stats.py:8-11 | a value is at least its bucket's lower bound and above it by at most 1/128 of that bound |
| Histogram.Micros | benchmarks/scripts/loadgen2/stats.py:50-53 | whole microseconds, rounded down, and 0 for a negative time |
| Histogram.Histogram.Record | benchmarks/scripts/loadgen2/stats.py:50-61 | after a sample the histogram is that of the samples with it: exact bucket counts, count, total, minimum and maximum |
| Histogram.FindBucket | benchmarks/scripts/loadgen2/stats.py:93-98 | the loop finds the first bucket up to which the target is reached |
| Histogram.Histogram.Percentile | benchmarks/scripts/loadgen2/stats.py:89-99 | for 0 < q <= 1 the lower bound of the first bucket up to which a fraction q of the samples lies; for q <= 0 that of the bucket of the smallest sample; for q > 1 the largest sample; -1 without samples |
| Histogram.QuantileBound | benchmarks/scripts/loadgen2/stats.py:8-11 | that value is at most the sample of rank ceil(q*n) and short of it by at most 1/128 of itself |
| Histogram.HistogramIgnoresOrder | benchmarks/scripts/loadgen2/stats.py:38-61 | samples in whatever order give the same histogram |
| Histogram.Merge | benchmarks/scripts/loadgen2/stats.py:72-87 | merging gives the histogram of all samples of all workers, with exact count, total, minimum and maximum |
| Histogram.MergeIgnoresOrder | benchmarks/scripts/loadgen2/stats.py:72-87 | in whatever order the workers are merged, the histogram is the same |
| Sharding.SliceAt | benchmarks/scripts/loadgen2/loadgen2.py:144 | the shard of worker i has the devices i, i + workers, i + 2 * workers, ... and no others |
| Sharding.ShardsPartition | benchmarks/scripts/loadgen2/loadgen2.py:144-145 | by every measure the shards weigh together what the devices weigh, so each device is in exactly one; none is empty |
| Sharding.ShardTotals | benchmarks/scripts/loadgen2/loadgen2.py:153 | the workers' totals add up to at most the unsharded total and miss less than the number of workers |
| Sharding.ShardedRun | benchmarks/scripts/loadgen2/loadgen2.py:141-157 | the same for the shards of any list of devices |
| Sharding.MergedCounters | benchmarks/scripts/loadgen2/loadgen2.py:207-211 | every merged message counter, and every reason of failure, is the sum over the workers |
| Sharding.MergedConnections | benchmarks/scripts/loadgen2/loadgen2.py:207-213 | so is every connection counter, and every CONNACK code |
| Sharding.MergedAccounts | benchmarks/scripts/loadgen2/loadgen2.py:207-211 | if every worker accounts for its messages, so does the merged result |
| Sharding.MergeResults | benchmarks/scripts/loadgen2/loadgen2.py:183-213 | the loops compute that sum over the workers that did not die |
| Worker.Measure | benchmarks/scripts/loadgen2/senders.py:151-221 | the loop of `run_schedule` leaves a log and counters that the next two results start from |
| Worker.WorkerAccounts | benchmarks/scripts/loadgen2/senders.py:227-260 | whatever happens between the calls of `dispatch` that the log stands for, on MQTT or HTTP: every message the worker schedules is in exactly one counter of its result |
| Worker.LoadTestAccounts | benchmarks/scripts/loadgen2/loadgen2.py:183-213 | and in the merged result: scheduled = accepted + failed + not sent |
| Reachability.RecursiveQuery | flow-core/internal/alarmmaterializer/postgres.go:132-142 | the recursive query ends on every graph and finds exactly what is reachable from where it starts |
| Reachability.ReversedReaches | flow-core/internal/alarmmaterializer/postgres.go:138-141 | walking the relations backwards reaches exactly what reaches the start |
| AlarmTables.PostgresRepository.FindActiveAlarm | flow-core/internal/alarmmaterializer/postgres.go:19-33 | an uncleared alarm of the device and type with the latest start, or none if there is none |
| AlarmTables.PostgresRepository.InsertAlarm | flow-core/internal/alarmmaterializer/postgres.go:35-84 | the row appears if and only if the device is a live device of the tenant |
| AlarmTables.PostgresRepository.LinkEntityAlarm | flow-core/internal/alarmmaterializer/postgres.go:91-108 | the link is there, once |
| AlarmTables.PostgresRepository.ExtendAlarm | flow-core/internal/alarmmaterializer/postgres.go:110-113 | only the end of that alarm changes |
| AlarmTables.PostgresRepository.EscalateAlarm | flow-core/internal/alarmmaterializer/postgres.go:115-118 | only its severity and end change |
| AlarmTables.PostgresRepository.ClearAlarm | flow-core/internal/alarmmaterializer/postgres.go:120-128 | it is cleared, and its end never moves back |
| AlarmTables.PostgresRepository.CountActive | flow-core/internal/alarmmaterializer/postgres.go:172-186 | the number of uncleared alarms of the tenant on devices reachable from the asset |
| AlarmTables.PostgresRepository.Ancestors | flow-core/internal/alarmmaterializer/postgres.go:131-161 | the identifiers of exactly the nodes strictly above the device |
| AlarmTables.PostgresRepository.RefreshAncestorAlarmCounts | flow-core/internal/alarmmaterializer/postgres.go:130-203 | every ancestor is recounted, nothing else is written |
| AlarmMaterializer.ApplyIntent | flow-core/internal/alarmmaterializer/processor.go:55-133 | which intents are rejected, what each action does to rows and links, field by field, and to the counts; an active alarm is escalated if and only if the severity stands behind its own in the list of severities |
| AlarmMaterializer.RankIsTheOrder | flow-core/internal/alarmmaterializer/processor.go:152-167 | one severity outranks another if and only if it stands behind it in INDETERMINATE, WARNING, MINOR, MAJOR, CRITICAL, or is listed and the other is not |
| AlarmMaterializer.LookupIsExact | flow-core/internal/alarmmaterializer/postgres.go:19-33 | the lookup finds an alarm if and only if one is active, and then the only one |
| AlarmMaterializer.ApplyAdvances | flow-core/internal/alarmmaterializer/processor.go:55-133 | every intent is one step of a machine with at most one alarm per device and type, which opens, raises to the higher rank, or closes it |
| AlarmMaterializer.ClearedIsFinal | flow-core/internal/alarmmaterializer/processor.go:55-133 | no intent changes the row of a cleared alarm |
| AlarmMaterializer.RepeatedCreate | flow-core/internal/alarmmaterializer/processor.go:78-92 | a redelivered create changes nothing but the end of its alarm |
| AlarmMaterializer.RepeatedClear | flow-core/internal/alarmmaterializer/processor.go:65-68 | a redelivered clear changes nothing |
| AlarmMaterializer.SeverityIsTheMaximum | flow-core/internal/alarmmaterializer/processor.go:78-92 | over every history an active alarm has the severity received first among those than which none received since its creation is worse, by the list of severities |
| AlarmCounts.RecountIsRight | flow-core/internal/alarmmaterializer/postgres.go:130-203 | however the alarms of one device changed, a recount of its ancestors for any tenant makes the counts right if and only if that tenant's alarms are as many as the owner's on each of them |
| AlarmCounts.RefreshRestores | flow-core/internal/alarmmaterializer/postgres.go:130-203 | however the alarms of one device changed, recounting its ancestors makes every asset's count right again, on cyclic graphs too |
| AlarmCounts.ApplyKeepsCounts | flow-core/internal/alarmmaterializer/processor.go:55-133 | one intent for the device's tenant keeps every count right and every row in its tenant |
| AlarmCounts.OpenedIsCounted | flow-core/internal/alarmmaterializer/processor.go:95-133 | an alarm that is opened adds one to the count of every asset above its device and changes no other count |
| AlarmCounts.ClearedIsUncounted | flow-core/internal/alarmmaterializer/processor.go:65-75 | an alarm that is cleared takes one off there; a clear that finds none changes no count |
| AlarmCounts.RunsAreGood | flow-core/internal/alarmmaterializer/processor.go:55-133 | over every serial run from good tables, redeliveries included, all counts are right and the alarms are those of the machine |
| AlarmCounts.RunsFromEmptyTables | flow-core/internal/alarmmaterializer/processor.go:55-133 | so over every serial run from empty tables |
| AlarmCounts.CountsRightAfterAnyIntent | flow-core/internal/alarmmaterializer/processor.go:55-133 | for every intent and tenant the counts stay right if and only if the tenant is the device's, or nothing is cleared or escalated, or no alarm but a cleared one is counted above the device |
| AlarmCounts.ForeignTenantMiscounts | flow-core/internal/alarmmaterializer/postgres.go:181-196 | tables on which a clear and an escalation for another tenant leave a wrong count |
| FlowAlarms.UpsertAlarm | flow-core/alarms.go:63-195 | rows and links after a create of the second implementation, field by field, with its default severity WARNING; an active alarm takes the severity if it is worse by the list of severities |
| FlowAlarms.ClearAlarm | flow-core/alarms.go:199-238 | the alarm found is cleared, its end stays |
| FlowAlarms.PropagateAlarmCount | flow-core/alarms.go:248-312 | every ancestor is recounted without regard to the tenant |
| FlowAlarms.UpsertAdvances | flow-core/alarms.go:63-195 | it takes the step of the machine that the materializer takes for a live device |
| FlowAlarms.ClearAdvances | flow-core/alarms.go:199-238 | its clear takes the machine's clear step |
| FlowAlarms.SameActiveAfterCreate | flow-core/alarms.go:63-195 | with a severity given, both implementations leave the same active alarms and severities if and only if the device is live or the alarm was active |
| FlowAlarms.SameActiveAfterClear | flow-core/alarms.go:199-238 | after a clear they always do |
| FlowAlarms.PropagationIsRefresh | flow-core/alarms.go:248-312 | where relations stay within a tenant the propagation writes what the materializer's refresh writes |
| FlowAlarms.ProcessAlarmDecision | flow-core/alarms.go:316-371 | for any tenant: the create, the clear or both, each followed by its propagation |
| FlowAlarms.DecisionKeepsGood | flow-core/alarms.go:316-371 | a decision for the device's tenant, or one that opens no alarm, keeps rows, machine and counts right |
| FlowAlarms.DecisionAdvances | flow-core/alarms.go:316-371 | for any tenant the active alarms and severities are those of the machine |
| FlowAlarms.CountsRightAfterAnyCreate | flow-core/alarms.go:316-345 | for any tenant a create leaves the counts right if and only if the tenant is the device's, or no alarm is opened, or no asset is above the device |
| FlowAlarms.MixedRunsAreGood | flow-core/alarms.go:316-371 | over every serial run of stream messages and decisions on the same tables, rows, machine and counts stay right |
| TwinWatch.PushIsTheDifference | flow-core/twin_state.go:284-318 | a push holds a slot if and only if the event carries it with a time or content that differs from the base, and then the event's content |
| TwinWatch.ViewStaysFaithful | flow-core/twin_state.go:138-160 | pushing only the difference leaves the subscriber as pushing everything would |
| TwinWatch.StepIsFaithful | flow-core/twin_state.go:169-187 | one event, with any forgetting after it, keeps the subscriber at the latest values and the memory true |
| TwinWatch.SubscriberHoldsTheLatest | flow-core/twin_state.go:138-216 | over every run of events and every eviction the subscriber holds, for every entity, scope and key, exactly the value of the most recent delivered event |
| TwinWatch.SharedIdentifierHidesAChange | flow-core/twin_state.go:152-157 | for any two entities of one identifier and any two different values, a run of three events leaves the subscriber with the wrong value |
| TwinWatch.FaithfulIffOwnIdentifiers | flow-core/twin_state.go:138-216 | for every set of entities: every run of their events ends with the subscriber right if and only if no two of them share an identifier |
| TwinWatch.DocumentIsRemembered | flow-core/twin_state.go:164-168 | after a full document its attributes are remembered, unless the entity is evicted at once |
| TwinWatch.UnchangedAttributesAreQuiet | flow-core/twin_state.go:164-168 | the same document again, after any number of attribute-less events and without eviction, broadcasts no attributes |
| TwinWatch.NothingIsForgotten | flow-core/twin_state.go:200-216 | a bounded run remembers the fold of all its events as long as that fits |
| TwinWatch.QuietWhileItFits | flow-core/twin_state.go:164-216 | as long as no more entities have had events than there is room for, a document with the attributes of the last one of its entity broadcasts no attributes |
| TwinWatch.RunFits | flow-core/twin_state.go:200-216 | after every event at most `max` entities are remembered |
| TwinWatch.LatestTimeIsKept | flow-core/twin_state.go:238-240 | the update time remembered for an entity is the latest of its events |
| TwinMaps.CloneTwinState | flow-core/twin_state.go:264-282 | an equal state made of new maps only, none of them used twice |
| TwinMaps.MergeLastState | flow-core/twin_state.go:234-259 | the fold of two states, written into the maps of the first; those of the second are only read |
| TwinMaps.ChangedTelemetry | flow-core/twin_state.go:284-298 | the changed keys and the latest time among them |
| TwinMaps.ChangedAttributes | flow-core/twin_state.go:303-318 | the changed keys of each scope, and only scopes with a change |
| TwinMaps.BoundLastStates | flow-core/twin_state.go:200-216 | nothing goes while the entries fit; otherwise exactly `max` remain, the one just written among them, all as they were |
| TwinMaps.ApplyTwinChange | flow-core/twin_state.go:169-187 | the differences with what was last seen; the fold, all of it while it fits and exactly `max` entries otherwise; the maps held stay disjoint and apart from the event's, which are never written; the entity stays |
| TwinMaps.Broadcast | flow-core/twin_state.go:151-157 | telemetry, then the scopes in any order: the subscriber gets exactly the pushed slots |
| TwinMaps.WatchLoop | flow-core/twin_state.go:138-160 | the loop on the mutable maps takes exactly the steps of the watch on values, with evictions only of what does not fit; nothing others hold is written |
| TwinMaps.WatchTwinStateChanges | flow-core/twin_state.go:138-160 | so from any point of a run: the subscriber holds exactly the latest values, ownership and bound are kept, and as long as no more than `max` entities have had events the memory is the fold of all events |
| RelationBfs.KeyIsInjective | flow-core/internal/entityquery/entityquery.go:1029 | the visited key tells nodes apart when types have no colon |
| RelationBfs.DistanceIsShortestWalk | flow-core/internal/entityquery/entityquery.go:990-992 | the distance used below is the length of a shortest walk |
| RelationBfs.ExpandNode | flow-core/internal/entityquery/entityquery.go:1022-1041 | the neighbours of one node are discovered at one hop more, unless the budget trips |
| RelationBfs.RelationsQuery | flow-core/internal/entityquery/entityquery.go:1000-1043 | when the budget does not trip, the hits are exactly the allowed-type nodes at distance 1 to `maxLevel`, each once, with their distance, nearer ones first; it trips if and only if the walk without a budget looks at a neighbour with `cap` nodes discovered, so never with fewer in range and always with more; at most the cap is visited; it ends on every graph |
| RelationBfs.CycleRunsOver | flow-core/internal/entityquery/entityquery.go:1022-1030 | two nodes that point at each other exceed a budget of two, although both are discovered |
| Policy.SplitJoin | flow-core/internal/policy/authorize.go:11-14 | splitting undoes joining if and only if no segment has a slash |
| Policy.ResourceSegments | flow-core/internal/policy/authorize.go:11-14 | the segments of a built path are what it was built from |
| Policy.MatchResource | flow-core/internal/policy/authorize.go:118-145 | the loop gives the depth of the declarative match: the part before a `#`, or the whole pattern, covers the path segment by segment |
| Policy.MatchExtends | flow-core/internal/policy/authorize.go:137-144 | a match holds for all descendants at the same depth if the pattern has a `#` or does not end on `*`, and for none of them otherwise |
| Policy.MatchExamples | flow-core/internal/policy/authorize.go:118-145 | a `#` takes the rest of a path, even an empty one, and counts as a segment; a `*` takes exactly one segment; a plain pattern covers what is below it |
| Policy.ActionCovered | flow-core/internal/policy/authorize.go:86-93 | some entry is `*` or the action |
| Policy.SubjectMatches | flow-core/internal/policy/authorize.go:99-109 | the subject is not empty and bound by name or by `*` |
| Policy.Authorize | flow-core/internal/policy/authorize.go:50-84 | in whatever order the maps are iterated: allowed if and only if at the deepest matching depth a grant covers the action and no revoke does |
| Policy.RevokeNeverAllows | flow-core/internal/policy/authorize.go:72-77 | adding revokes never turns a deny into an allow |
| Policy.NonMatchingNeverMatters | flow-core/internal/policy/authorize.go:56-83 | documents that agree on the matching entries decide alike |
| Policy.DecisionIsInherited | flow-core/internal/policy/authorize.go:41-44 | where the entries match below a path as they do on it, the decision is the same |
| Policy.SingleGrant | flow-core/internal/policy/authorize.go:50-84 | with one grant and no revokes: allowed if and only if it matches and covers the action |
| Policy.GrantAgainstRevoke | flow-core/internal/policy/authorize.go:50-84 | one grant against one revoke: allowed if and only if the grant covers the action and the revoke does not match, matches less deep, or matches as deep without covering the action |
| Policy.GrantOnATree | flow-core/internal/policy/authorize.go:37-40 | a grant on an entity covers the tree below it; on `*` in its place it covers that level only |
| KeyDictionary.StepIsSound | flow-core/internal/db/keydict.go:25-88 | every step of every process keeps ids unique and each cache a part of the table, which only grows |
| KeyDictionary.AnswersAgree | flow-core/internal/db/keydict.go:52-88 | over every interleaving two answers that are not errors are for the same key if and only if they are the same id, and never -1 |
| KeyDictionary.CachesStayInTheTable | flow-core/internal/db/keydict.go:17-49 | a cache is a part of the table at that time and at all later times |
| KeyDictionary.SelectFindsTheRow | flow-core/internal/db/keydict.go:75-81 | after a conflict the second statement, if it succeeds, finds the row |
| KeyDictionary.KeyTable.Insert | flow-core/internal/db/keydict.go:71-74 | the insert adds the key or leaves it alone, and returns an id only if it added it |
| KeyDictionary.KeyDict.GetOrInsertKeyId | flow-core/internal/db/keydict.go:52-88 | with any inserts of others in between: the table's id, cached, or -1 and an unchanged cache; -1 only for an uncached key with a failed statement |
| KeyDictionary.KeyDict.Load | flow-core/internal/db/keydict.go:25-49 | the rows that scan are added, and the cache stays a part of the table |
| TextArray.ParsePgTextArray | flow-core/internal/dbutil/dbutil.go:55-92 | the scan computes the elements that the round trips below are about; malformed text gives none |
| TextArray.PgArray | flow-core/internal/bootstrap/bootstrap.go:684-696 | the loop prints every element escaped and quoted, and nothing for an empty list |
| TextArray.QuotedIsRead | flow-core/internal/bootstrap/bootstrap.go:689-694 | by the array syntax of PostgreSQL a printed element is read as the element, whatever characters it has |
| TextArray.DatabaseReadsTheList | flow-core/internal/bootstrap/bootstrap.go:684-696 | so every non-empty list that is printed reaches the database as it is |
| TextArray.MixedRoundTrip | flow-core/internal/dbutil/dbutil.go:50-92 | a non-empty list is recovered with any mixture of quoted elements without quote or backslash, commas, braces and empty ones included, and bare ones that are not empty and have no comma or quote |
| TextArray.PrintedRoundTrip | flow-core/internal/bootstrap/bootstrap.go:684-696 | a printed non-empty list is recovered if and only if no element has a quote or a backslash |
| DeviceIdentity.ToUuidIsCanonical | flow-core/postgres.go:59-66 | the result has the 8-4-4-4-12 lower-case form of section 4 of RFC 9562, and both halves can be read back from it |
| DeviceIdentity.ToUuidIsInjective | flow-core/postgres.go:59-66 | different halves give different texts |
| DeviceIdentity.ToUuidIsOnto | flow-core/postgres.go:59-66 | every canonical text is the text of some halves |
| DeviceIdentity.IdentityRoundTrip | flow-core/postgres.go:169-180 | stripping and putting the hyphens back gives the text itself if and only if it is laid out as a UUID |
| DeviceIdentity.DistinctIdentities | flow-core/internal/devicejwt/devicejwt.go:496-499 | two devices have the same topic-safe identity if and only if they are the same device |

## Left out

- Wall-clock values and latencies, per-second rows, CPU accounting, dry-run mode and report printing, and in Sharding.MergeResults the extremes and means of lag and time: they do not take part in the conservation claims.
- MqttLink.PendingIsWhatIsInFlight: speaks of runs without a lost connection; with lost ones MqttSender.BooksBalance says where every message goes.
- MqttClient.MqttConnection.Publish: `pending` keeps the identifiers and not the send times. The transport may raise at any write, and the exception's name is a parameter.
- HttpPool.RunsBalance: responses come for requests only and a connection is lost once, as the transports deliver them.
- HttpStreams.WalkChunks: sizes and lengths are natural numbers, given by unspecified functions of the bytes.
- OpenLoop.BaseSender.RunSchedule: is about positive rates and at least one device; a rate of zero or less asks for no messages.
- Schedule.DueIffDeadline: floating-point rounding, which the nudge is there for, is not modelled.
- AlarmMaterializer.ApplyIntent: calls of the repository do not fail, and intents are applied one at a time; a refresh that fails after a successful write is not repaired by a redelivery. The additional information of an alarm, acknowledgement and assignment are not modelled.
- AlarmTables.PostgresRepository.RefreshAncestorAlarmCounts: the key id of `alarm_count` is always resolved, and the event journal is not modelled.
- FlowAlarms.ProcessAlarmDecision: the broadcasts to sessions are not modelled.
- TwinMaps.WatchTwinStateChanges: the activity map, which is cloned and never compared or folded, and cancellation, which ends the loop between two changes, are not modelled separately.
- RelationBfs.RelationsQuery: the neighbour lookup does not fail.
- Policy.Authorize: trimming and upper-casing are a parameter; in Policy.ResourceSegments the entity type is already normalised.
- KeyDictionary.AnswersAgree: what a call without a database pool returns (-1) is not modelled.
- DeviceIdentity.IdentityRoundTrip: texts are sequences of characters; the byte length that the code compares differs only for texts that it rejects anyway.
- The engines built on paho and aiohttp, payload building, request heads, TCP options and the set-up of calibration runs.
- REST handlers, SQL plumbing, authentication, device provisioning, dashboards and the remaining bootstrap: their properties are decided by single branches.

# A verified model of pg_amqp

pg_amqp is a PostgreSQL extension that publishes AMQP messages from inside a database backend. This project
models its three stateful parts and proves what they are for.

**The wire engine** (`src/librabbitmq`). `Basics`, `Bytes`, `Tables`, `Fields`, `PropertyLists` and `Framing` hold the codecs:
the octets are values, and next to each codec stands the code that writes into a buffer at an advancing offset, proved
to put exactly the encoding there, to touch nothing else, and to succeed exactly when the encoding fits. The encoder's and
the decoder's switches over methods and property lists are two tables, as in amqp_framing.c, and proved to agree; `Images`
writes out what the codecs put on the wire, octet by octet, so that no agreement of a codec with itself is enough. `Frames` says
what one frame looks like and what the frame reader makes of a stream of octets; `Writers` is the frame writer;
`Delivery` has publishing, waiting and calling as functions on streams, with the theorems about whole conversations.
`Pools` is the region allocator, `Queues` the linked list of frames put aside, and `Connections` the connection that is
made of all of them: an object whose methods move the reader's state and write into blocks of the pool. Its invariant
holds before and after every call, also after an input error: the error stays, and the frames put aside can still be had.
`Conversations` has the methods that make any sequence of calls on such an object: any commands, reading to the end, and
publishing on one connection what another one reads.

**The transaction machine** (`src/pg_amqp.c`). `Failover` has the connect loop and the backoff, `Brokers` one broker
state with the broker's side of it, `Outcomes` what each call comes to in terms of what the environment does (when an attempt
is due, when a publish returns true, what a COMMIT delivers), `Sessions` every run of a backend as a sequence of events, and `Backends` the linked
list of broker states and the C functions on it; `Histories` tells from the events alone where a delivered message comes
from. Each method of `Backends.Backend` makes one step of `Sessions.Run`, and
`Backends.Backend.Play` makes the calls of any run of events, so the theorems about runs are theorems about the object.

**The outbox** (`sql/functions/functions.sql`). `Outbox` interleaves transactions that enqueue rows, lock them, relay
them, set savepoints and go back to them, commit and roll back; `Relays.Database.PublishOutboxBatch` is the PL/pgSQL
loop, with steps of other transactions in between.

What the environment does is a parameter: the octets that each read delivers, the answers of a broker, the clock, the
host rows, whether the socket took a message. Messages carry the transaction and the subtransactions they were
published in, which is bookkeeping of the model. The broker's transaction buffer, its log of deliveries and the messages
accepted so far are ghost state of `Backends.BrokerState`.

Three promises turn out to hold only under a condition, which is proved exactly:

- README.md:180-183 promises a warning for every message lost at COMMIT. A publish on channel 1 that reconnects, a
  refused `exchange_declare` and `amqp.disconnect` drop the transaction buffer and set `uncommitted` to 0, so nothing is
  reported. `Sessions.CommitExactness`: a COMMIT is exact if and only if no such event happened on that broker while it
  held accepted messages; `Sessions.CommitSucceeds` says when it delivers all that was accepted. A PREPARE, which is to be refused when there are messages, slips through after such an event as
  well: `Sessions.PrepareIsRefused` says exactly when it is refused. `Sessions.SilentLoss` is the failing run of both.
- sql/functions/functions.sql:105 promises that an enqueued message is never sent if its transaction rolled back. A batch
  that runs in the transaction that enqueued the row sees the row. `Outbox.OrphansExactly`: a message is sent although
  its insertion was rolled back if and only if that rollback, of the transaction or to a savepoint, comes after the row
  was relayed. `Outbox.SentButRolledBack` is a failing run; it never happens to a caller that starts batches only in
  transactions that have enqueued nothing (`Outbox.SeparateBatches`).
- A key of 256 octets or more loses its length in one octet, a second continuation word of property flags cannot be read
  back, and so on. `Tables.RoundTripExactly`, `Frames.WriteReadExactly` and `Delivery.EndToEnd` say exactly what survives.

## Model

| member | source | states |
|---|---|---|
| `Bytes.Put` | src/librabbitmq/amqp_private.h:134-142 | an accessor writes its octets and nothing else, exactly when they lie within the limit |
| `Bytes.Put64` | src/librabbitmq/amqp_private.h:137-140 | the two halves of a 64-bit integer; when only the first fits, what is behind the offset may change and the write fails |
| `Bytes.At64` | src/librabbitmq/amqp_private.h:126-140 | what E_64 wrote, D_64 reads |
| `Images.BigEndian` | src/librabbitmq/amqp_private.h:126-140 | in an integer of two, four or eight octets the most significant comes first |
| `Tables.RoundTrip` | src/librabbitmq/amqp_table.c:14-152 | an encoded nested table decodes, at any offset of any buffer, to itself and to the offset behind it |
| `Tables.RoundTripExactly` | src/librabbitmq/amqp_table.c:14-152 | decoding undoes encoding if and only if all keys are shorter than 256 octets and the kinds and integers are in their ranges |
| `Tables.Decoded` | src/librabbitmq/amqp_table.c:19-95 | every accepted table could be encoded again, in as many octets as were read, and gives the same octets if and only if each declared size ends on an entry boundary |
| `Tables.HugeSizeIsEmpty` | src/librabbitmq/amqp_table.c:19-36 | a declared size that overflows the signed limit gives an empty table, whatever follows |
| `Tables.EncodeTable` | src/librabbitmq/amqp_table.c:98-152 | succeeds exactly when the kinds are known and the encoding fits; then the buffer is the old one with the encoding, back-patched sizes included, spliced in; on failure no offset comes back and the rest of the buffer is as it was |
| `Tables.EncodeEntry` | src/librabbitmq/amqp_table.c:108-147 | the same of one entry |
| `Tables.EncodeValue` | src/librabbitmq/amqp_table.c:120-146 | the same of one value, with the recursion into nested tables |
| `Tables.DecodeTable` | src/librabbitmq/amqp_table.c:14-96 | the loop computes the recursive decoder, with the signed wrap of the limit, and ends on any input |
| `Tables.DecodeEntry` | src/librabbitmq/amqp_table.c:37-87 | one turn of the loop |
| `Images.TableImage` | src/librabbitmq/amqp_table.c:98-152 | a table on the wire is the size of its entries and the entries, in their order |
| `Images.EntryImage` | src/librabbitmq/amqp_table.c:108-147 | an entry is the key behind its length, the letter S, I, D, T or F, and the value of that kind octet by octet |
| `Fields.RoundTripFields` | src/librabbitmq/amqp_framing.c:607-625 | members of all kinds, packed bits included, decode to themselves one behind the other |
| `Fields.DecodedFields` | src/librabbitmq/amqp_framing.c:126-1186 | whatever members a decoder returns fit their length octets and bits |
| `Fields.EncodeFields` | src/librabbitmq/amqp_framing.c:1901-1919 | the members of a case are written exactly when they fit, and nothing else is changed |
| `Fields.EncodeField` | src/librabbitmq/amqp_framing.c:1903-1917 | the same of one member |
| `Images.MemberImage` | src/librabbitmq/amqp_framing.c:1456-2434 | integers of one, two, four and eight octets, strings behind a length of one or four octets, flags in one octet |
| `Images.Packed` | src/librabbitmq/amqp_framing.c:1703-1706 | flags that share an octet: the first has the weight 1, the next 2, and so on to 128 |
| `Framing.EncodeMethod` | src/librabbitmq/amqp_framing.c:1456-2434 | success exactly for a known method whose tables can be written and that fits, with exactly its octets put into the buffer |
| `Framing.RoundTripMethod` | src/librabbitmq/amqp_framing.c:126-2434 | every encodable method decodes to itself, whatever follows it |
| `Framing.SameLayouts` | src/librabbitmq/amqp_framing.c:126-2434 | the switch of the decoder and the switch of the encoder know the same 91 methods, with the same members in the same order |
| `PropertyLists.FlagsRoundTrip` | src/librabbitmq/amqp_framing.c:1200-1205 | the flag words decode to the flags with their continuation bits set by the encoder, and to the same flags if and only if bit 16 is clear and bit 0 says whether there is a second word |
| `PropertyLists.EncodeFlags` | src/librabbitmq/amqp_framing.c:2447-2459 | the loop writes exactly the flag words, when they fit |
| `PropertyLists.DecodeFlags` | src/librabbitmq/amqp_framing.c:1193-1205 | the loop over the words reads what the recursive definition says |
| `PropertyLists.SelectKept` | src/librabbitmq/amqp_framing.c:1241-1316 | encoding and decoding choose the same properties, for every subset of the flags |
| `PropertyLists.RoundTripProperties` | src/librabbitmq/amqp_framing.c:1188-2674 | every flagged property comes back, and every flag but the continuation bits |
| `PropertyLists.EncodeProperties` | src/librabbitmq/amqp_framing.c:2436-2676 | success exactly for a known class whose list fits, with exactly its octets put into the buffer |
| `PropertyLists.DecodeProperties` | src/librabbitmq/amqp_framing.c:1188-1454 | the word loop and the class switch compute the specification |
| `PropertyLists.SameProperties` | src/librabbitmq/amqp_framing.c:1188-2676 | decoder and encoder choose the same properties behind the same flags, for every class and all flags |
| `Images.FlagsImage` | src/librabbitmq/amqp_framing.c:2447-2459 | the two or four octets of the flags: the low half first, with its lowest bit set exactly when another word follows |
| `Images.BitIs` | src/librabbitmq/amqp_framing.c:1241-1316 | flag k is the binary digit with the weight 2^k |
| `Images.Selected` | src/librabbitmq/amqp_framing.c:1241-1316 | a property stands in the list exactly when its own flag is set, at its place in the order |
| `Writers.EncodePayload` | src/librabbitmq/amqp_connection.c:320-340 | the payload goes behind the room for the frame head, exactly when it leaves room for the end octet |
| `Writers.WriteFrame` | src/librabbitmq/amqp_connection.c:310-438 | what is handed to the output function is the image of the frame, exactly for the frames that fit |
| `Frames.WriteRead` | src/librabbitmq/amqp_connection.c:174-270 | a written frame is read back as an equal frame, at the size it was written, whatever follows |
| `Frames.WriteReadExactly` | src/librabbitmq/amqp_connection.c:174-376 | if and only if its strings, tables and flags survive their encoding |
| `Frames.ReadSize` | src/librabbitmq/amqp_connection.c:174-259 | a frame that does not survive still takes its own octets and no more, or is refused |
| `Frames.ScanStable` | src/librabbitmq/amqp_connection.c:159-172 | what comes later does not change the frame or the error at the front of a stream |
| `Frames.FeedStep` | src/librabbitmq/amqp_connection.c:138-288 | a call of the reader advances the wait for a frame by exactly what it consumed |
| `Frames.ChunksDoNotMatter` | src/librabbitmq/amqp_connection.c:138-288 | reading a stream in any pieces gives the frames, the tail and the error of reading it at once |
| `Images.FrameImage` | src/librabbitmq/amqp_connection.c:310-376 | a frame is its type 1, 2, 3 or 8, the channel, the size, the payload and 206; the payload of a method begins with its number, that of a header with class, two zero octets and body size |
| `Images.RoomNeeded` | src/librabbitmq/amqp_connection.c:320-340 | method and header frames fit exactly when the payload and eight octets fit the buffer and the tables can be written; body frames always |
| `Images.BlockOf` | src/librabbitmq/amqp_connection.c:175-199 | how many octets the reader waits for, when it refuses the size, and that it decodes exactly those octets |
| `Images.OtherBlocks` | src/librabbitmq/amqp_connection.c:199-256 | a wrong end octet is an error whatever the type; a type other than 1, 2, 3 and 8 is passed over whatever its payload |
| `Images.HeaderOf` | src/librabbitmq/amqp_connection.c:271-283 | the protocol header of a peer of another version |
| `Delivery.StreamExactly` | src/librabbitmq/amqp_connection.c:138-438 | a stream of frames is read back as these frames if and only if each of them is encodable |
| `Delivery.Fragmentation` | src/librabbitmq/amqp_api.c:71-90 | the fragments join to the body, none is empty or too large, and there are as few as possible |
| `Delivery.NextFragment` | src/librabbitmq/amqp_api.c:79-89 | what one turn of the loop sends is the first fragment of what is left |
| `Delivery.PublishStream` | src/librabbitmq/amqp_api.c:57-92 | the stream of a message is the method, the header and the fragments, in this order |
| `Delivery.PublishCarries` | src/librabbitmq/amqp_api.c:43-92 | the frames of a message say what the caller said: method 0x003C0028 with exchange, routing key, mandatory and immediate in their own members, a header of class 60 with the size of the body, and fragments that join to the body |
| `Images.PublishImage` | src/librabbitmq/amqp_api.c:43-60 | the octets of the basic.publish method: 0 60 0 40, 0 0, the exchange behind its length, the routing key behind its length, and mandatory + 2 * immediate |
| `Images.PublishFits` | src/librabbitmq/amqp_api.c:55-61 | the method frame fits exactly when the two strings and 17 octets do |
| `Images.HeaderFits` | src/librabbitmq/amqp_api.c:63-69 | the header frame fits exactly when the property list and 20 octets do |
| `Delivery.EndToEnd` | src/librabbitmq/amqp_api.c:34-93 | publish, cut anywhere, read: the receiver gets exactly the method, the header and the fragments, with every argument of the caller in its own place, if and only if both strings are shorter than 256 octets, the properties are encodable, and the flags are not changed by their words |
| `Delivery.PublishedIsDelivered` | src/librabbitmq/amqp_api.c:34-93 | as many waits as the message has frames deliver exactly these, with every argument of the caller in its own place, and then the stream is at its end, under the same condition and no other |
| `Delivery.FindReply` | src/librabbitmq/amqp_socket.c:279-286 | true exactly when the number stands before the first zero of the list |
| `Delivery.ListEndsAtZero` | src/librabbitmq/amqp_socket.c:279-286 | what stands behind the first zero does not matter, and a list without a zero is searched to its end |
| `Delivery.TestReply` | src/librabbitmq/amqp_socket.c:326-331 | on the channel of the call an expected method or channel.close (0x00140028), or connection.close (0x000A003C) on channel 0, and nothing else |
| `Delivery.AwaitConserves` | src/librabbitmq/amqp_socket.c:306-357 | a call takes the frames up to its reply off the stream; those put aside are the ones before it, in order, and none of them could be the reply |
| `Delivery.FramesAreConserved` | src/librabbitmq/amqp_socket.c:222-357 | over any sequence of waits and calls no frame of the stream is lost or delivered twice |
| `Delivery.WaitsKeepOrder` | src/librabbitmq/amqp_socket.c:222-236 | waits deliver what is outstanding in the order of its arrival |
| `Pools.BlocksAreSeparate` | src/librabbitmq/amqp_mem.c:76-121 | for any page size and any requests: the blocks start at multiples of 8, cover the requested size, lie inside their page or are blocks of their own, and share no octet |
| `Pools.PagesAreFilled` | src/librabbitmq/amqp_mem.c:76-118 | no room is wasted: blocks of their own exactly for what does not fit a page, each block in a page starts where the one before it ended, and another page is begun only for what the rest of the page could not hold |
| `Pools.ReplayAfterRecycle` | src/librabbitmq/amqp_mem.c:43-118 | the same requests after a recycling get the same addresses and no new page |
| `Pools.PagesAreMaxDemand` | src/librabbitmq/amqp_mem.c:43-118 | over any number of recyclings the pool owns as many pages as its most demanding period needed |
| `Pools.Pool.constructor` | src/librabbitmq/amqp_mem.c:16-28 | an empty pool, with 4096 for the page size 0 |
| `Pools.Pool.Alloc` | src/librabbitmq/amqp_mem.c:76-121 | a block at the place the specification names, besides the live ones; nothing for a request of 0 |
| `Pools.Pool.LiveApart` | src/librabbitmq/amqp_mem.c:94-120 | two live blocks share no octet of memory |
| `Pools.Pool.Recycle` | src/librabbitmq/amqp_mem.c:43-48 | nothing is live any more, and the pages stay |
| `Queues.FrameQueue.Enqueue` | src/librabbitmq/amqp_socket.c:333-347 | one more element at the end, with first, last and the links in order |
| `Queues.FrameQueue.Dequeue` | src/librabbitmq/amqp_socket.c:225-232 | the first element is taken out, and last is cleared with it when it was the only one |
| `Connections.Connection.constructor` | src/librabbitmq/amqp_connection.c:30-70 | an idle connection with nothing read, queued or sent, and no memory of its pool in use |
| `Connections.Connection.Store` | src/librabbitmq/amqp_connection.c:164-166 | the octets go behind those held, and no queued frame loses an octet |
| `Connections.Connection.ReadHeader` | src/librabbitmq/amqp_connection.c:175-189 | a complete header leads to the state and the target size that belong to it |
| `Connections.Connection.Complete` | src/librabbitmq/amqp_connection.c:126-283 | a complete block is decoded, the connection is idle, and the block keeps its octets; an error leaves everything in place, so that it comes again |
| `Connections.Connection.Advance` | src/librabbitmq/amqp_connection.c:149-189 | one round of read_more consumes an octet at least and keeps the state comment true, or meets an error that the same data meets again |
| `Connections.Connection.HandleInput` | src/librabbitmq/amqp_connection.c:138-288 | exactly what Frames.Feed says of the octets held and the data; the frame leads into a block that is not written any more; after an error the queue and its octets are what they were, and the same data meets the same error |
| `Connections.Connection.Read` | src/librabbitmq/amqp_socket.c:206-218 | a read moves octets into the socket buffer and changes nothing of what is pending |
| `Connections.Connection.WaitFrame` | src/librabbitmq/amqp_socket.c:184-220 | the next frame of everything pending, wherever the reads cut it, with ignored frames skipped; the end of the stream, or an error that stays, with the queue untouched |
| `Connections.Connection.SimpleWaitFrame` | src/librabbitmq/amqp_socket.c:222-236 | the oldest frame put aside, with the octets it was decoded from still in its block, also after an input error; or the next frame of the stream: a step of the specification Delivery.FramesAreConserved is about, on memory that the connection had before or that is new |
| `Connections.Connection.MaybeReleaseBuffers` | src/librabbitmq/amqp_connection.c:290-308 | the pool is recycled exactly when no block is being filled and no frame is queued, and nothing that is to be delivered changes |
| `Connections.Connection.AwaitReply` | src/librabbitmq/amqp_socket.c:306-350 | the reply, the end of the stream or an error, in all cases with the frames before it appended to the queue and the octets of all queued frames kept |
| `Connections.Connection.SendFrame` | src/librabbitmq/amqp_connection.c:408-438 | the image of the frame is sent, or nothing, and reading is not disturbed |
| `Connections.Connection.SimpleRpc` | src/librabbitmq/amqp_socket.c:288-358 | the request is sent, the reply is the one the stream holds, it is normal exactly when its method is expected, and whatever comes instead of it, the frames before it are queued |
| `Connections.Connection.Publish` | src/librabbitmq/amqp_api.c:34-93 | succeeds exactly when method and header fit, and then has sent exactly the stream of the message, which carries every argument in its own place, for any body and any frame size; otherwise at most the method frame |
| `Conversations.Play` | src/librabbitmq/amqp_socket.c:222-358 | any sequence of waits, calls, publishes and releases of buffers on one connection delivers what Delivery.RunAll delivers for it, frame by frame, and every frame that is queued at the end still has, where its pointers lead, the octets it was decoded from |
| `Conversations.ReadAll` | src/librabbitmq/amqp_socket.c:184-236 | one wait after the other until none brings a frame: exactly what was outstanding, in order, and then the end of the stream or the error that the stream runs into |
| `Conversations.PublishAndRead` | src/librabbitmq/amqp_api.c:34-93 | a message published on one connection, its octets handed to another one in any pieces and read to the end: the publish succeeds exactly when there is room for the strings and 17 octets and for the properties and 20, and then frames that carry every argument of the caller in its own place arrive and nothing else, if and only if nothing is lost in the encoding |
| `Failover.WindowGrows` | src/pg_amqp.c:660-665 | the waiting window never shrinks from failure to failure and stays between 2 and 32 seconds |
| `Failover.TriedIs` | src/pg_amqp.c:679-740 | the tries end with the first accepted host or when the budget is used up, and not before |
| `Failover.RoundOfHosts` | src/pg_amqp.c:679-684 | a round meets each host once and ends where it began |
| `Outcomes.DueExactly` | src/pg_amqp.c:660-667 | an attempt is made exactly when none has failed or 2, 4, 8, 16 or 30 seconds (by the number of failures) and pid % 3 have passed; always after 32 seconds |
| `Outcomes.DialOutcome` | src/pg_amqp.c:652-745 | a call before its time changes nothing; else the hosts, read once and with the process seeding the first, are tried in cyclic order until one is accepted, the budget is over or all were tried, and the broker is connected with its failures forgotten, or has failed once more at the time of the end |
| `Outcomes.UsableHostConnects` | src/pg_amqp.c:676-745 | when an attempt is due and there is no budget, one host that can be used is enough |
| `Outcomes.FirstUsableHostIsChosen` | src/pg_amqp.c:660-745 | with hosts of fixed behaviour and no budget, when the clock says that an attempt is due: the first usable host in cyclic order is connected, or none is usable, all were tried and idx is where it was |
| `Outcomes.DrainOutcome` | src/pg_amqp.c:229-270 | the connection is dead exactly when a close has arrived, and blocked exactly when the last alarm before it is on |
| `Outcomes.PublishOutcome` | src/pg_amqp.c:802-922 | for all states and environments: when publish returns true (the connection, had or made, is open, not blocked and takes the message; or it fails, with channel 1 or nothing uncommitted, and the next one does), when the transaction is marked as failed, which connection is left, and which copies the broker gets |
| `Outcomes.RedialIsDue` | src/pg_amqp.c:838-842 | a connection that fails is redialled at once |
| `Outcomes.CommitOutcome` | src/pg_amqp.c:297-342 | the warning is decided by what waits, the error mark and the answer; a connection that is not in error commits, and delivers exactly the buffer unless the broker did not do it; a healthy connection stays |
| `Outcomes.AbortOutcome` | src/pg_amqp.c:343-362 | a connection that is not in error and answers stays; nothing is delivered |
| `Outcomes.SavepointOutcome` | src/pg_amqp.c:375-389 | exactly the brokers that hold messages are marked |
| `Outcomes.DeclareOutcome` | src/pg_amqp.c:763-801 | true exactly when there is a connection and the broker agrees, and then all stays; a refusal drops the connection and what waits on it |
| `Outcomes.ResetOutcome` | src/pg_amqp.c:747-761 | after amqp.disconnect nothing is connected, marked or remembered of hosts and failures |
| `Brokers.PublishEffect` | src/pg_amqp.c:802-925 | for all answers of the environment: nothing is delivered by publishing, a message is accepted exactly when true is returned, and only channel 1 can drop accepted messages, exactly when its first round gives up |
| `Brokers.BlockedFailsFast` | src/pg_amqp.c:848-854 | while the broker blocks publishers nothing is sent, dropped or marked, and false is returned |
| `Brokers.CommitSettles` | src/pg_amqp.c:299-342 | after COMMIT nothing is buffered, uncommitted or in error, whatever was answered; what was delivered is all of the buffer or nothing |
| `Brokers.AbortSettles` | src/pg_amqp.c:345-362 | after ABORT the same, and nothing was delivered |
| `Brokers.CommitExact` | src/pg_amqp.c:297-342 | the accepted messages are delivered in order, or a warning carries their number, if and only if none was dropped before |
| `Sessions.NoPhantomDelivery` | src/pg_amqp.c:297-389 | over all runs: a delivered message was published in a transaction that committed and in no subtransaction that rolled back |
| `Histories.DeliveredWasMeant` | src/pg_amqp.c:297-389 | over all runs, told from the events alone: a delivered message is that of a publish on this broker whose transaction has committed, and that no rollback to a savepoint open at the time of the publish has taken back |
| `Sessions.BrokerListInvariant` | src/pg_amqp.c:152-219 | over all runs: one state per broker id, uncommitted messages have a connection, no connection means no socket and not blocked, a buffer has a connection and will be flushed or discarded |
| `Sessions.EndSettlesAll` | src/pg_amqp.c:278-362 | every COMMIT, ABORT and refused PREPARE leaves all brokers without messages and errors, and only COMMIT delivers |
| `Sessions.CommitExactness` | src/pg_amqp.c:297-342 | over all runs: COMMIT delivers exactly the messages for which publish returned true in this transaction, or warns with exactly their number, if and only if no reconnect of channel 1, no refused declare and no disconnect dropped them |
| `Sessions.TransactionalTrafficIsExact` | src/pg_amqp.c:928-931 | with channel 2 alone every COMMIT is exact on every broker, whatever the answers |
| `Sessions.SilentLoss` | src/pg_amqp.c:838-842 | a run in which a message was accepted, the transaction commits, the message is gone, and no warning says so |
| `Sessions.MarkedIs` | src/pg_amqp.c:838-922 | over all runs: the error mark is set exactly by a savepoint rollback while messages wait and by publishes that could not be tried again, and cleared exactly by COMMIT, ABORT, a refused PREPARE and a disconnect |
| `Sessions.CommitDelivers` | src/pg_amqp.c:297-342 | over all runs: with nothing waiting COMMIT does nothing; a marked transaction is discarded with a warning; else all that waits is delivered in order, or a warning says how much may be lost |
| `Sessions.CommitSucceeds` | src/pg_amqp.c:297-342 | over all runs: COMMIT delivers everything for which publish returned true and says nothing if and only if nothing of it was dropped, the transaction is not marked and the broker confirms |
| `Sessions.NothingMarked` | src/pg_amqp.c:838-922 | a transaction without savepoint rollbacks in which every publish returns true is not marked |
| `Sessions.RemainingIsLeft` | src/pg_amqp.c:196-219 | over all runs: the messages accepted since the last dropping event are the last ones of all that were accepted, and fewer exactly when such an event happened |
| `Sessions.CommitOfRemaining` | src/pg_amqp.c:297-342 | over all runs, whatever was dropped: on the messages accepted since then every COMMIT is exact, with exactly their number in the warning |
| `Sessions.PrepareIsRefused` | src/pg_amqp.c:278-292 | over all runs: PREPARE is refused if and only if some broker has accepted a message after the last event that dropped what it had accepted |
| `Sessions.ReconnectRate` | src/pg_amqp.c:650-674 | over all runs, with commits, aborts, savepoints and refused publishes in between: while no call connects to a broker and it is not reset, two failed attempts in a row take at least 4 seconds, three 12, four 28 and each one more 30, however often the broker is asked for |
| `Sessions.FoundAgain` | src/pg_amqp.c:656-745 | over all runs: 32 seconds after its last failure at the latest, the next declare or publish connects to a broker with a host that can be used, and does what it was called for |
| `Sessions.DisconnectForgets` | src/pg_amqp.c:747-761 | over all runs: after amqp.disconnect the next call makes an attempt whatever the clock says, on hosts read anew |
| `Backends.BrokerState.DisconnectBs` | src/pg_amqp.c:196-219 | the connection goes with its buffer; inerror, the backoff and the hosts stay |
| `Backends.BrokerState.DrainReturns` | src/pg_amqp.c:229-272 | the loop over the pushed frames keeps the blocked flag and notices a close |
| `Backends.BrokerState.LoadHosts` | src/pg_amqp.c:497-574 | the rows are read once, and idx is seeded from the process |
| `Backends.BrokerState.TryHosts` | src/pg_amqp.c:676-740 | the failover loop visits the hosts in the order of the specification |
| `Backends.BrokerState.GetBs` | src/pg_amqp.c:650-746 | a connection, a suppressed attempt or a failed attempt, as the specification says |
| `Backends.BrokerState.PublishRound` | src/pg_amqp.c:822-922 | one round from redo on |
| `Backends.BrokerState.PublishOpt` | src/pg_amqp.c:802-925 | at most two rounds, the second on a new connection |
| `Backends.BrokerState.CommitBroker` | src/pg_amqp.c:299-341 | the turn of one broker in COMMIT, with its warning |
| `Backends.BrokerState.AbortBroker` | src/pg_amqp.c:345-361 | the turn of one broker in ABORT |
| `Backends.Backend.GetABs` | src/pg_amqp.c:433-445 | the state with this id, or a new one at the head of the list |
| `Backends.Backend.PublishMessage` | src/pg_amqp.c:802-937 | the session makes its publish event; true is returned exactly when the body is within the limit and a connection takes the message, and a body over the limit touches no broker |
| `Backends.Backend.DeclareExchange` | src/pg_amqp.c:763-801 | the session makes its declare event; true exactly when the call finds or makes a connection and the broker agrees |
| `Backends.Backend.DisconnectBroker` | src/pg_amqp.c:747-761 | the session makes its disconnect event |
| `Backends.Backend.CommitAll` | src/pg_amqp.c:297-342 | every broker of the list has its turn, and the warnings come in the order of the list |
| `Backends.Backend.AbortAll` | src/pg_amqp.c:343-362 | every broker of the list has its turn |
| `Backends.Backend.RollbackToSavepoint` | src/pg_amqp.c:375-389 | every broker that holds messages is marked, and no other |
| `Backends.Backend.PrepareTransaction` | src/pg_amqp.c:278-292 | refused, and then aborted, exactly when some broker holds messages |
| `Backends.Backend.Handle` | src/pg_amqp.c:274-389 | whatever the next event is, the list makes its step, and the caller is told what the specification says: the truth value or the warnings |
| `Backends.Backend.Play` | src/pg_amqp.c:274-937 | any run of events on one backend, call after call, leads to the broker states of Sessions.Run and tells the caller at each event what the specification says there |
| `Outbox.Conservation` | sql/functions/functions.sql:119-144 | over all interleavings, with rollbacks of transactions and to savepoints: no row is held twice; sends of a row = 1 if committed as published + 1 if marked by a live transaction + those whose mark was rolled back; attempts counts the committed visits |
| `Outbox.CountedIsMarked` | sql/functions/functions.sql:131-145 | what the calls of a transaction count is the number of rows it has marked as published plus the marks undone by going back to a savepoint: the marked rows exactly when none was undone |
| `Outbox.PublishedOnce` | sql/functions/functions.sql:123-135 | a published row is never touched again |
| `Outbox.NeverLost` | sql/functions/functions.sql:81-99 | over all runs: a committed row stays, with its broker; it is published exactly when one of its sends was not rolled back |
| `Outbox.RowsAreEnqueued` | sql/functions/functions.sql:81-99 | over all runs: a row is in the table exactly when a transaction that had enqueued it, and had not gone back behind that, has committed; its broker is the one it was enqueued for |
| `Outbox.OrphansExactly` | sql/functions/functions.sql:81-147 | for every row: it is sent although its insertion was rolled back if and only if that rollback, of the transaction or to a savepoint, comes after it was relayed |
| `Outbox.SentButRolledBack` | sql/functions/functions.sql:100-147 | a run in which that happens |
| `Outbox.SeparateRelays` | sql/functions/functions.sql:81-147 | over all runs in which no transaction relays a row that it has enqueued itself, no row is ever sent without being there |
| `Outbox.SeparateBatches` | sql/functions/functions.sql:100-147 | the same for callers who start batches only in transactions that have enqueued nothing |
| `Relays.Database.PublishOutboxBatch` | sql/functions/functions.sql:109-147 | every visited row is unpublished and, with a broker given, a row of that broker, as the transaction saw it when the query started; at most as many as the limit, each once, in the order of their numbers; those that were sent are marked, and their number is returned. When nobody interferes, no such row that no other transaction holds is passed over up to the limit, and each visited row changes by its mark and one attempt |
| `Relays.Database.Visit` | sql/functions/functions.sql:127-143 | the loop body: the row is locked, sent and rewritten with its mark and one more attempt, and no other row of the transaction changes, with steps of others in between |
| `Relays.AvailableIs` | sql/functions/functions.sql:119-129 | the rows that the query can still get are the unpublished rows, of the given broker if there is one, that no other transaction holds |

## Left out

- `EWRAP` stands for an unsigned size computation that wraps around in C (a size field near 2^32, a payload shorter than its fixed part, an outbound buffer shorter than one) or a shift by 32 in a third flag word; what the C code does after that is not modelled.
- A failed amqp_assert ends the process; the model answers `EABORT` and goes on.
- Buffers are shorter than 2^31 - 256 octets, so that the `int` offsets do not overflow; the signed limit of a table is modelled.
- The output function takes every octet: amqp_send_frame ignores short writes.
- Allocation succeeds; `malloc`, `calloc` and the growth of the scratch array of the table decoder do not fail.
- Decoded methods, properties and tables are values: the decoding pool that holds the C structs, and the links of the frame queue in it, is not part of this model, only the inbound block that their octets stay in.
- The members of a method and the properties of a list are data that one loop walks over, where the C code is generated straight-line code for each case; members of a property struct whose flag is not set do not exist in the model.
- basic.return callbacks, amqp_tune_connection after the first time, amqp_login, the one-line RPC wrappers, amqp_table_entry_cmp and printing.
- Conversations.PublishAndRead: the receiver's frame size is at least the sender's, and it is a new connection.
- Delivery.EndToEnd: the receiver's frame size is at least the sender's, as the peers agree when the connection is tuned.
- Sockets, TLS, timeouts, keepalive and rabbitmq-c itself: its return statuses are parameters, and a broker either does a tx.commit as a whole or not at all.
- Reading amqp.broker, GUCs, NULL arguments, message properties, memory contexts and the text of warnings; a host is its number in the list.
- `consecutive_failures` and `uncommitted` are unbounded.
- Relays.Database.PublishOutboxBatch: locks one row at a time, while PL/pgSQL fetches some rows ahead; the state machine of `Outbox` has locks taken ahead of the visits, and its theorems cover them.
- The columns of an outbox row that only travel with it, `last_error`, and the snapshot of a row inserted after the query started.

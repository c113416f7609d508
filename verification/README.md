# matchbox, verified

A Dafny model of matchbox: a limit order book and matching engine behind a gateway, with a resumable
market-data stream. Four components are modelled, each down to the state the program keeps, and each is
proved against something simpler than itself.

**Matching engine.** `OrderPool`, `Book` and `Engine` are classes over the program's own state: pool slots
whose `next` field is a level link or a free-list link, levels with head, tail, count and a 32-bit quantity,
a bitmap of 64-bit words, cached best prices. Three refinements lead away from it:

1. `MatchingEngine.Engine` computes, command by command, the state and the events of `Reference`, a pure
   state machine over FIFOs of slots and a stack of free slots (`Engine.Process`, `Engine.ProcessAll`).
2. `Differential` and `WholeRuns` relate `Reference` to the deque book of the repository's differential
   test, which runs on its own and looks orders up in its own deques: over every sequence of commands, the same
   deque at every price and the same fills in the same order.
3. `DequeBook` relates taking from those deques to one pass down a flat list ordered by price, then time.

The properties of runs (conservation, whose order is whose, time priority, tops, ids, partition of the pool,
uncrossed books) are proved of `Reference.Run`, and hold of the class by 1.

**Rings and pipeline.** `Spsc` takes every load, store and slot access of `try_push` and `try_pop` as a step
of its own, producer and consumer interleaving freely, with indices kept modulo 2^64. `Pipeline` joins two
such rings and the engine. It computes what the engine computes alone; it is stuck exactly when `submit`
waits on a full inbox while `on_event` waits on a full outbox. `Deadlock` shows that a gateway that only
submits can move a bounded number of items, whatever the schedule, and stops nowhere else.

**Market-data stream.** `ReplayRing`, `Conn`, `Publisher` and the client `Stream` are classes over bytes.
`Feed` says what a pump queues for a cursor and that those frames form a chain. `Resume` is the whole
protocol as a state machine, sockets taking any number of bytes and connections failing at any moment.
`ResumeLoss` shows that only what is gone is reported lost, `ResumeProgress` that the protocol never gets stuck. `Watching` is the two clocks of a subscriber over the visits
to it; every call of the publisher enters its visit in the subscriber's record.

**Frame parser.** `OrderPort.Session` runs the parsing loop over received bytes. Its meaning, `Parse`, does
not depend on how the bytes were cut into reads. `FrameMeaning` says, field by field, what every buffer means, and
that the encoding of any commands parses back to them.

Where the code does less than its documentation says, the code is followed and the exact condition proved:

- The documentation says a slow reader is never buffered past the backlog limit. The code checks the limit
  before each frame, so the backlog can exceed it by up to 39 bytes, a data frame less one, and no more
  (`Resume.CountersBalance`, `ResumeEdges.BacklogReachesBound`). `Feed.WithinLimitIff` says exactly which
  pumps keep to the limit.
- The documentation says only a peer that accepts no bytes for the stall timeout is dropped. The code looks
  only at what a pump's own flush sends, not at what the socket takes in between (`Watching.DroppedIff`). A
  drop is as documented exactly if no writable socket was flushed of anything since the timer started
  (`Watching.DeservedIff`); `StallDrop.DroppedWhileTaking` makes the calls that drop a peer taking bytes.
- What arrives on an order session is parsed, however it is cut into reads, unless end of file follows a read
  that filled its buffer: the bytes of that call are lost, with every complete frame among them
  (`OrderPort.EndLosesNothingIff`, `OrderPort.LostAtEnd`).
- The documentation says a `Gap` names frames that are gone. For a client ahead of the head, the code sends
  a `Gap` that runs backwards, and the client's count of lost frames drops below zero
  (`Resume.StaleResume`, `Resume.CompleteIff`).
- The generation in an order id wraps: ids are distinct exactly as long as no slot has been issued more than
  2^32 - 1 times (`Ids.UniqueIds`, `IdWrap.AcceptReissuesIff`). After that a Cancel can reach an order that
  took over a finished order's id (`IdWrap.RefusedIff`, `IdWrap.FinishedIsReached`).

Level quantities are 32 bits wide and wrap: every statement about them is modulo 2^32.

## Model

| member | source | states |
|---|---|---|
| Pool.OrderPool.constructor | include/matchbox/order.hpp:29-35 | every slot starts dead with generation 1, and the free list threads all of them in order |
| Pool.OrderPool.Alloc | include/matchbox/order.hpp:37-49 | pops the head of the free list and issues generation and slot as the id; gives nothing exactly when no slot is free; the free list stays a chain of dead slots |
| Pool.OrderPool.Free | include/matchbox/order.hpp:51-57 | the slot goes to the front of the free list under its next generation, which is never 0; no other slot moves |
| Pool.OrderPool.Find | include/matchbox/order.hpp:59-64 | finds a slot exactly when the live order in the slot the id names carries that very id |
| Links.LinkBackRep | src/book.cpp:16-24 | linking a slot behind the tail makes the level represent the FIFO with the slot appended: links, head, tail, count and wrapped quantity |
| Links.UnlinkedRep | src/book.cpp:41-53 | unlinking the j-th order makes the level represent the FIFO without it, for any position j |
| Links.RequantityRep | src/book.cpp:35-39 | changing a quantity in place keeps the FIFO and adjusts the wrapped level quantity by the difference |
| BookSide.InsertSide | src/book.cpp:12-31 | a side stays well represented by an insert: list, bitmap bit set iff non-empty, best price the true extremum, only nodes of that level touched |
| BookSide.UnlinkSide | src/book.cpp:41-61 | the same for an unlink, including the level that empties and the search for the next best price |
| BookSide.RequantitySide | src/book.cpp:35-39 | the same for a change of quantity |
| Bitmap.ScanUp | src/book.cpp:63-72 | the least set price at or above `from`, across words; none exactly when there is none |
| Bitmap.ScanDown | src/book.cpp:74-83 | the greatest set price at or below `from`, across words; none exactly when there is none or `from` is below 1 |
| Bitmap.Ctz | src/book.cpp:68 | the lowest set bit of a non-zero word |
| Bitmap.HighestBit | src/book.cpp:79 | the highest set bit of a non-zero word |
| OrderBook.Book.constructor | src/book.cpp:5-10 | an empty book is valid and holds no order at any price |
| OrderBook.Book.Insert | src/book.cpp:12-31 | appends the slot to the FIFO of its price and side, changes no other FIFO and no order, and keeps the whole representation invariant |
| OrderBook.Book.LevelEmptied | src/book.cpp:57-61 | clears the bit; if the best level emptied, the new best is the true extremum of the others |
| OrderBook.Book.Unlink | src/book.cpp:33-55 | removes the slot from its FIFO, wherever it stands, keeping the order of the others and the whole representation invariant |
| OrderBook.Book.Reduce | src/book.cpp:35-39 | shrinks one order in place, nothing else changes, the invariant stays |
| OrderBook.Book.ReadTop | src/book.cpp:85-92 | the best price of each side over all levels, with the sum of the quantities resting there modulo 2^32 |
| OrderBook.Book.FillHead | include/matchbox/book.hpp:48-57 | one fill: both quantities drop by the smaller of the two, a spent maker leaves its FIFO and goes to the free list, and the events are maker fill, taker fill, trade |
| OrderBook.Book.MatchLevel | include/matchbox/book.hpp:46-58 | the inner loop takes the hits of the reference in order and fills at least one unit |
| OrderBook.Book.Match | include/matchbox/book.hpp:39-61 | the nested loops end, and compute the state and the events of matching by repeated hits on the head of the best opposite FIFO |
| MatchingEngine.Engine.constructor | src/engine.cpp:7-9 | a new engine represents the initial reference state |
| MatchingEngine.Engine.MatchAndRest | src/engine.cpp:110-144 | matching, then freeing, cancelling or resting what is left, is the reference's |
| MatchingEngine.Engine.OnNew | src/engine.cpp:71-86 | new orders, with the checks in order, are the reference's |
| MatchingEngine.Engine.OnCancel | src/engine.cpp:88-92 | cancels are the reference's |
| MatchingEngine.Engine.OnReplace | src/engine.cpp:94-108 | replaces, in place or by leaving the queue and matching anew, are the reference's |
| MatchingEngine.Engine.Process | src/engine.cpp:38-69 | one command on the linked, bitmapped engine is one step of the reference, with the same events, and keeps everything valid |
| MatchingEngine.Engine.ProcessAll | src/engine.cpp:38-69 | any sequence of commands is a run of the reference, with the same events |
| MatchingEngine.Engine.LiveIsResting | include/matchbox/order.hpp:71 | after every command the pool's live count is the sum of the books' resting counts |
| Reference.HitInv | include/matchbox/book.hpp:47-58 | a hit keeps the engine invariant and takes its fill off the taker, changing nothing else of it |
| Reference.MatchInv | include/matchbox/book.hpp:39-61 | matching ends with the taker spent or no crossing price left, the invariant kept |
| Reference.StepInv | src/engine.cpp:38-144 | every command keeps the invariant: FIFOs disjoint and complete, orders live, of positive quantity, at their price and side, books uncrossed, free stack exact |
| Invariants.Reachable | src/engine.cpp:38-69 | the invariant holds after every sequence of commands |
| Invariants.Partition | include/matchbox/order.hpp:29-57 | after every sequence of commands: a slot is free exactly when it is not live; a live slot is in exactly one FIFO, its own, and holds a GTC limit order |
| Invariants.BestUncrossed | src/engine.cpp:94-144 | after every sequence of commands, on every book: best bid below best ask, or a side is empty |
| Differential.MatchTakes | tests/test_book.cpp:31-47 | matching does to the deques of the opposite side what the test's take does, fill by fill |
| Differential.MatchAndRestAdds | tests/test_book.cpp:49-63 | matching and resting is the test's add |
| Differential.RefusedChangesNothing | src/engine.cpp:26-48 | a refused command emits its one Rejected event, with the first reason that applies, and changes nothing |
| WholeRuns.LookupIs | tests/test_book.cpp:76-85 | looking a live order up in the deques by its id finds its symbol, side, price and quantity |
| WholeRuns.FrontTells | tests/test_book.cpp:165-169 | the first event of a command tells whether it was refused, and the id of a new order |
| WholeRuns.StepModelled | tests/test_book.cpp:22-99 | an accepted command does to the engine's books what the reference does to its own, told only the command and the id: the same deques at every price, the same maker fills in the same order |
| Differential.OtherBooksUntouched | src/engine.cpp:44-49 | no other symbol's book moves |
| Differential.TopModelled | tests/test_book.cpp:87-98 | the reported top is the deque book's top, its quantities modulo 2^32 |
| WholeRuns.RunModelled | tests/test_book.cpp:140-223 | over every sequence of commands, the reference books, told only which commands were taken and the ids given out, end as the engine's books, with the same fills in the same order |
| DequeBook.TakeWalks | include/matchbox/book.hpp:39-61 | taking from the deques fills exactly what one pass down the priority list fills |
| DequeBook.PriorityIsPriceTime | include/matchbox/book.hpp:35-37 | the priority list holds exactly the resting orders, each once, ordered by better price, then arrival |
| DequeBook.WalkFills | include/matchbox/book.hpp:39-61 | makers hit are a prefix of the list, all but the last consumed, each at its own price and within the limit, and the total is the smaller of the taker's quantity and all that crosses |
| Differential.PriceTimePriority | include/matchbox/book.hpp:39-61 | matching fills the resting orders of the other side exactly in that way, for every state and taker |
| Arrival.TimePriority | src/engine.cpp:94-108 | after every sequence of commands, of two orders resting at one price the one that joined the queue first stands first; an order joins when accepted, and again when a replacement changes its price or enlarges it |
| Tops.TopsFollowTheBook | src/engine.cpp:51-68 | over any run, following a symbol's Top events gives its current top, and no Top repeats the one before |
| Tops.TopsFromTheStart | src/engine.cpp:51-68 | the same from the empty top of a new engine |
| Ledger.RunConserves | src/engine.cpp:71-144 | over any run, replaying Accepted, Fill, Replaced and Cancelled per id reproduces every `remaining`; each event tells of an order under its own session, tag, symbol, side and price; and the ids left open are exactly the live orders, as they stand |
| Ledger.ConservedFromTheStart | src/engine.cpp:71-144 | the same from a new engine and an empty ledger |
| Ledger.RunPaired | src/engine.cpp:111-130 | over any run, every Trade comes with one maker fill and one taker fill of the same price, quantity and symbol, on opposite sides |
| Owners.StepAnswers | src/engine.cpp:11-36 | every event of a command answers it: the order accepted or replaced is on the terms commanded, a taker's fill and a cancelled remainder are of the order the command is about, a rejection carries its session, tag, id and symbol |
| Owners.StepStaged | src/engine.cpp:38-144 | the events of every command come in order: the answer, the trades, a cancelled order, the top; of all but trades at most one |
| Owners.EventsReachTheirOwners | src/engine.cpp:11-24 | over any run, every event of an order, and every live order, carries the session, tag, symbol, side and type of the New command its id was issued to |
| Owners.NotOwnerIff | src/engine.cpp:46-48 | over any run, a Cancel or Replace naming a live order is refused with NotOwner, changing nothing, if and only if its session is not that of the New command the id was issued to |
| Ids.RunAged | include/matchbox/order.hpp:37-57 | over any run, a slot's generation says how often it was issued, modulo 2^32 - 1, and each Accepted carries the id due |
| Ids.UniqueIds | include/matchbox/order.hpp:37-57 | ids are pairwise distinct over a run if and only if no slot was issued more than 2^32 - 1 times |
| Ids.NeverZero | include/matchbox/order.hpp:53 | over any run, no order gets the id 0 |
| Ids.FinishedStaysFinished | src/engine.cpp:46-48 | under that condition, a Cancel or Replace naming a finished order is refused with UnknownOrder at any later time, changing nothing |
| IdWrap.AcceptReissuesIff | include/matchbox/order.hpp:37-49 | accepting an order in a given state gives out an id given out before if and only if its slot has been issued 2^32 - 1 times or more |
| IdWrap.RefusedIff | src/engine.cpp:46-48 | over any run, a Cancel or Replace naming an id ever issued is refused with UnknownOrder, changing nothing, if and only if its slot is not live, or was reissued since a number of times that 2^32 - 1 does not divide |
| IdWrap.IdRepeats | include/matchbox/order.hpp:51-57 | a run of 2^32 market orders through one slot gives an id out twice |
| IdWrap.FinishedIsReached | include/matchbox/order.hpp:51-64 | a run after which a Cancel naming a finished order cancels the order that now has its id |
| Spsc.StepInv | include/matchbox/spsc_queue.hpp:24-44 | every atomic step of either thread keeps: cached head, head, cached tail, tail in order within a lap, unread slots intact, each thread where its program counter says |
| Spsc.Fifo | include/matchbox/spsc_queue.hpp:24-44 | under every interleaving from a new ring: what was pushed is the items of the pushes that ended, in order; what was popped is a prefix of it, at most a capacity behind; the slot being written is never the slot being read; what is read is the oldest item not popped |
| Spsc.NoSharedSlot | include/matchbox/spsc_queue.hpp:30-41 | the slot being written is never the slot being read |
| Spsc.ReadsTheOldest | include/matchbox/spsc_queue.hpp:41 | what is read is the oldest item pushed and not popped |
| Spsc.PushFailsIffFull | include/matchbox/spsc_queue.hpp:26-28 | a push gives up exactly when the ring is full as it loads the head, with wrapped indices |
| Spsc.PopFailsIffEmpty | include/matchbox/spsc_queue.hpp:37-39 | a pop gives up exactly when the ring is empty as it loads the tail |
| Modular.WrappedDistance | include/matchbox/spsc_queue.hpp:26 | a difference of wrapped indices is the true one while that is below 2^64 |
| Modular.SlotOfWrapped | include/matchbox/spsc_queue.hpp:30 | the masked slot of a wrapped index is that of the unwrapped one |
| Pipeline.StepInv | include/matchbox/engine_thread.hpp:31-49 | every atomic step of either thread keeps the pipeline a delayed sequential engine |
| Pipeline.Refines | include/matchbox/engine_thread.hpp:31-49 | in every interleaving, the inbox has taken the commands the gateway was asked to submit, in order, but for the one being submitted; events received, then the outbox, then what the running call has still to push, are the engine's output on the commands popped; once all is quiet, on all commands asked for |
| Pipeline.GatewayReturnsIff | src/server.cpp:137-141 | submit returns exactly with the step that publishes its command, and a drain ends exactly with a look at an empty outbox |
| Pipeline.StuckForEver | src/server.cpp:137-141 | once both threads wait on a full ring, nothing ever moves again |
| Pipeline.NotStuckCanMove | src/server.cpp:209-217 | from every other state some schedule moves an item |
| Pipeline.StuckIff | src/server.cpp:137-141 | no run moves another item if and only if submit waits on a full inbox while on_event waits on a full outbox |
| Deadlock.RunBounded | src/server.cpp:137-141 | every run in which the gateway never drains moves at most as many items as the room in the rings allows |
| Deadlock.SubmittingAloneSticks | src/server.cpp:137-141 | at the end of every such run, nothing more can move without draining if and only if both rings are full and the engine has an event to push; the pipeline is then stuck, or is with the next submit |
| Deadlock.SticksEventually | src/server.cpp:137-141 | from every state between drains some such run ends stuck |
| Wire.UnLEOfLE | include/matchbox/protocol.hpp:223-237 | little-endian fields read back |
| Wire.LEOfUnLE | include/matchbox/protocol.hpp:223-237 | reading a field determines its bytes |
| Wire.HeaderRoundTrip | include/matchbox/protocol.hpp:44-49 | a header reads back, whatever follows it |
| Wire.HeaderLayout | include/matchbox/protocol.hpp:44-49 | length, type, version and sequence are read at their packed offsets |
| OrderPort.MsgRoundTrip | include/matchbox/protocol.hpp:51-80 | reading a client message at its packed offsets undoes encoding it |
| OrderPort.ParseConcat | src/server.cpp:143-207 | parsing a buffer and later the rest is parsing them together; a decision to close is final |
| OrderPort.ChunkingIsInvisible | src/server.cpp:117-135 | for any split into reads that do not meet end of file: the same commands, rejects, expected sequence, bytes left and close decision as in one read |
| OrderPort.EndLosesNothingIff | src/server.cpp:117-130 | for any split into reads and any bytes read with end of file: the session has submitted and rejected what the whole stream asks for if and only if it had closed before, or those bytes, behind what was left over, hold no complete frame |
| OrderPort.LostAtEnd | src/server.cpp:117-130 | a read that fills its 64 KB with a message at its front, then end of file: the message is lost |
| OrderPort.AdvanceIs | src/server.cpp:159 | sequences expected go up by one, modulo 2^32 |
| OrderPort.StampedIs | include/matchbox/net.hpp:24-33 | rejects go out under consecutive sequences, modulo 2^32 |
| FrameMeaning.DecodeSays | src/server.cpp:161-199 | every complete frame is decoded to what its fields at their packed offsets say: side, type and time in force 0 for Buy, Limit and GTC; a flag above 1 or a type clients do not send is a BadMessage |
| FrameMeaning.ParseMeans | src/server.cpp:143-207 | every buffer is frames with good headers, numbered in sequence, and a rest: the commands and rejects are those the frames ask for, in order; the session stays open if and only if the rest is the start of a frame; a complete frame out of sequence is rejected with BadSeq |
| FrameMeaning.ParseInvertsEncoding | src/server.cpp:143-207 | the encodings of any commands of a session, numbered in order, parse to exactly those commands, with no reject and no byte left |
| OrderPort.Session.Take | src/server.cpp:159-203 | a complete frame in sequence becomes a command, or a BadMessage reject echoing its tag |
| OrderPort.Session.TakeFrame | src/server.cpp:145-203 | one turn of the loop keeps the session on the way to the meaning of its whole buffer |
| OrderPort.Session.ParseFrames | src/server.cpp:143-207 | the loop submits the commands, queues the rejects under consecutive outgoing sequences, keeps the bytes and decides as the meaning of the buffer says |
| Connection.Conn.Append | include/matchbox/protocol.hpp:233-237 | queued bytes go behind the backlog |
| Connection.Conn.Flush | src/net.cpp:89-108 | whatever the socket answers, bytes it accepted followed by the backlog are all bytes queued; after a flush at most 65536 dead bytes remain; false exactly on a fatal answer |
| Connection.TakenIs | src/net.cpp:89-99 | a flush goes on through partial and interrupted writes until all is taken or an answer ends it; only an error or a write of nothing is fatal |
| Connection.Conn.FlushAndArm | src/net.cpp:110-118 | write interest is on exactly while bytes are pending |
| Replay.ReplayRing.constructor | include/matchbox/replay_ring.hpp:17-18 | an empty ring retains nothing |
| Replay.ReplayRing.Append | include/matchbox/replay_ring.hpp:20-26 | the frame is stored under the next sequence, and every sequence still retained keeps its frame |
| Replay.ReplayRing.OldestHeld | include/matchbox/replay_ring.hpp:29-32 | the sequences from it to the head are exactly the last ones published, as many as the capacity |
| Replay.ReplayRing.Frame | include/matchbox/replay_ring.hpp:37-41 | the bytes of a retained sequence are those of the frame published under it |
| Replay.AppendRetains | include/matchbox/replay_ring.hpp:20-45 | overwriting one slot of the flat buffer damages no retained frame, however often the ring has lapped |
| Feed.FrameLayout | include/matchbox/protocol.hpp:134-175 | how each frame lies on the wire, field by field |
| Feed.GreetingChain | src/publisher.cpp:107-121 | a subscriber starts with the sequence asked for, with the next to be published if it asks for none, or, ahead of the head, there, after a Gap; what is queued takes the client to the cursor, forward exactly if it asked for nothing beyond the head |
| Feed.PumpedChain | src/publisher.cpp:24-46 | what a pump queues continues the chain: each data frame is the one published under the expected sequence, each Gap starts there, each Heartbeat names it; the backlog stays below the limit plus one data frame of 40 bytes |
| Feed.GapsAreExact | src/publisher.cpp:24-39 | a pump queues a Gap if and only if the cursor can move and stands at a frame no longer retained; it comes first and leaves out exactly the frames that are gone; the data frames are retained ones |
| Feed.WithinLimitIff | src/publisher.cpp:26-45 | a pump leaves no more than the limit queued if and only if, once a Gap is queued, the frames left fit or the room is a whole number of frames, and a heartbeat that comes fits |
| Feed.HeartbeatsAtHeadIff | src/publisher.cpp:40-45 | heartbeats are queued only for cursors at the head with nothing pending, if and only if the backlog limit is positive |
| Publishing.Publisher.Publish | include/matchbox/publisher.hpp:43-47 | publishing appends to the log |
| Publishing.Publisher.Skip | src/publisher.cpp:26-32 | a lapped cursor that can move gets one Gap and moves to the oldest retained frame |
| Publishing.Publisher.Copy | src/publisher.cpp:33-39 | the loop queues exactly the published frames from the cursor on, reading only retained slots, until the head or the limit |
| Publishing.Publisher.Send | src/publisher.cpp:47-56 | what the socket takes leaves the backlog; timer and decision to drop are those of a visit that queued nothing and saw just that taken |
| Publishing.Publisher.Pump | src/publisher.cpp:22-57 | a pump enters a visit with the bytes the feed queues, heartbeat clock included, and the bytes the socket took; cursor, backlog, both clocks and the decision to drop are the visit's |
| Publishing.Publisher.OnWritable | src/publisher.cpp:71-78 | what the socket takes leaves the backlog, and is entered as a visit that leaves both clocks alone |
| Watching.DroppedIff | src/publisher.cpp:47-56 | over any record of visits, a pump drops a subscriber for stalling if and only if it ends a span of pumps as long as the timeout, all with bytes pending and none taken |
| Watching.DeservedIff | src/publisher.cpp:47-78 | a dropped subscriber took nothing since the timer started, at least the timeout ago, if and only if no flush of a writable socket sent anything since |
| StallDrop.DroppedWhileTaking | src/publisher.cpp:47-78 | from a new publisher on, with any timeout: a pump, a flush that sends a byte and a pump at the timeout, after which the subscriber is dropped |
| Watching.BeatsIff | src/publisher.cpp:40-45 | a pump queues just a heartbeat if and only if nothing is pending, the cursor is at the head and the heartbeat clock says so |
| Watching.FirstPumpBeatsIff | src/publisher.cpp:23 | the clock starts with the first pump, or the first after a greeting that queued something: that pump queues a heartbeat if and only if the interval is zero |
| Watching.HeartbeatOnTime | src/publisher.cpp:23-45 | after a pump that queued something or started the clock, and any visits that queued nothing, a pump queues a heartbeat if and only if all was taken, the cursor is at the head and the interval has passed since |
| Publishing.Publisher.OnReadable | src/publisher.cpp:80-123 | a subscriber is kept exactly if it has sent less than a Subscribe, or exactly one and nothing before; then it is greeted as the feed says, which is entered as a visit; the stall timer is left alone |
| MdClient.Stream.constructor | scripts/mdstream.py:29-36 | a client starts with empty counters and the sequence asked for |
| MdClient.Stream.Connect | scripts/mdstream.py:38-48 | a connection sends a Subscribe from the next sequence expected and drops buffered bytes |
| MdClient.Stream.Reconnect | scripts/mdstream.py:84-89 | a reconnect counts, and sends a Subscribe from the next sequence expected |
| MdClient.Stream.HandleFrame | scripts/mdstream.py:91-113 | the counters move as the frame says; a control frame of the wrong size fails |
| MdClient.Stream.Receive | scripts/mdstream.py:75-81 | the framing loop handles the frames completed by a chunk and keeps the rest |
| MdClient.HandledCounts | scripts/mdstream.py:91-113 | whatever data frames come, every frame, Gap and heartbeat is counted once, each jump counts as a gap, and frames and losses make up the distance gone |
| MdClient.DrainFrames | scripts/mdstream.py:76-81 | given any prefix of encoded frames, the client handles exactly those that lie whole within it, in order |
| Resume.StepInv | src/publisher.cpp:22-123 | every step of the protocol keeps: bytes between cursor and client are the frames of a chain from what the client expects, and its account is right |
| Resume.CountersBalance | scripts/mdstream.py:84-113 | in every run, frames plus lost is the next sequence less the base, the counters are those of what was seen, the SEQ JUMP branch is never taken, and the backlog stays below the limit plus 40 bytes |
| Resume.ExactlyOnce | scripts/mdstream.py:84-113 | each sequence of a tiled range is covered by exactly one item, and a frame got is the one published |
| Resume.ResumeIsComplete | scripts/mdstream.py:84-113 | in every run of a client that asked for nothing beyond the head, each sequence from the base to the next expected was handled exactly once or lies in exactly one Gap |
| ResumeLoss.OnlyGoneIsLost | src/publisher.cpp:24-39 | in every such run, no frame the ring still retains was reported lost |
| ResumeLoss.RetainedIsReceived | src/publisher.cpp:24-39 | in every such run, each frame still retained, between the base and the sequence expected, was handed to the client |
| Resume.StaleResume | src/publisher.cpp:109-118 | a client ahead of the head is sent a backward Gap and counts fewer than zero frames lost |
| Resume.CompleteIff | src/publisher.cpp:109-121 | every run is complete if and only if the client asks for nothing beyond the head |
| ResumeEdges.CompleteIffLimited | src/publisher.cpp:26-45 | while the server can publish, every run is complete if and only if the backlog limit is positive and the client asks for nothing beyond the head |
| ResumeEdges.ZeroLimitSkips | src/publisher.cpp:40-45 | with a limit of zero, a run in which a heartbeat carries the client past a frame it neither got nor was told it lost |
| ResumeEdges.BacklogReachesBound | src/publisher.cpp:33-39 | a run that ends with the limit plus 39 bytes queued, for every limit a stream can fill |
| Resume.BaseKept | scripts/mdstream.py:84-113 | the base is settled by the first frame and never changes, over any number of reconnects |
| Resume.CaughtUp | scripts/mdstream.py:91-113 | a client that has received all there is expects the next frame to be published |
| ResumeProgress.CatchesUp | scripts/mdstream.py:84-113 | from every state of every run, some run in which nothing is published ends with the client expecting the next frame to be published |

## Left out

- Sockets, epoll and kqueue, accept and listen, signals: what they answer is a parameter or a choice of the run.
- The subscriber map of the publisher and the walk of flush_all over it: subscribers share only the ring, and each is served by the methods above.
- Liveness of gateway and engine beyond the characterisation of stuck states: both spin without draining the other's ring.
- Weak memory below acquire and release: each step of the rings is atomic and sequentially consistent. The acquire loads and release stores of the two indices order every slot access the way the steps do.
- Bitwise masks: `index & mask` is written `index % capacity`, capacities being powers of two; a bitmap word is 64 booleans.
- The order in which `process` computes and pushes: in `Pipeline` a call's events are computed when its command is popped and then pushed one by one, which no other thread can tell apart.
- The stop flag of the engine thread, and its yielding when idle.
- The callback of `match`: it is inlined in `Book`, and the engine's handlers return their events, which `Process` appends to the output.
- Reject frames on the order port are kept as records with their outgoing sequence, not as bytes; acknowledgements and fills sent to sessions are not modelled.
- Stream sequences at or beyond 2^32 - 1, where the head of the ring wraps: publishing is enabled only below that.
- MdClient.Stream.Receive: a frame of length zero, on which the program would loop for ever, ends the run instead; `Resume.CountersBalance` shows that it is never received.
- ResumeEdges.BacklogReachesBound: needs a limit of at most 40 * (2^32 - 3) bytes, since fewer than 2^32 - 1 frames can be published.
- ResumeProgress.CatchesUp: needs a next sequence below 2^64, since a Subscribe carries it in 64 bits.
- Watching.DroppedIff: is stated for a clock that runs and does not go back, as the monotonic clock of the program does.
- The contents of a Trade or a Top on the wire: the stream carries them as 32 bytes of payload.
- The C++ market-data client, which repeats the Python one with a coarser resume rule; printing, argument parsing, backoff and timers of both.
- `Order::filled`, timestamps in events, statistics and benchmarks: nothing depends on them.

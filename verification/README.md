# Verified model of the three-player chess server

The server lets clients log in, sit down three to a board, and play; it relays moves, passes the turn, keeps
scores, and closes connections that misbehave or fall silent. Next to it stand a timer library with its own server
thread, and an incremental MD5 class. This project models the parts in which state is changed step by step, and
proves what those parts keep over every call, every run and every interleaving.

`dafny verify dfyconfig.toml` checks the whole project.

## How the model is organised

| Files | Modelled code |
|---|---|
| `TimeVal.dfy`, `TimerQueue.dfy`, `PendingList.dfy`, `TimerRuns.dfy` | `libtimer/libtimer.c` |
| `Bytes.dfy`, `Md5Compress.dfy`, `Md5Table.dfy`, `Md5Digest.dfy`, `Md5.dfy` | `md5.cpp` |
| `Framing.dfy` | the read and write callbacks of `thread.cpp`, `GetBuffer` of `usersession.cpp` |
| `Room.dfy`, `RoomLaws.dfy`, `ChessBoard.dfy`, `GameHall.dfy` | `chessboard.cpp`, `stategameready.cpp`, `usersession.cpp` |
| `SessionPool.dfy`, `Server.dfy` | `mainthread.cpp`, `thread.cpp`, `stategameplay.cpp`, `usersession.cpp` |

Objects that the program updates in place are classes. Every method that changes one is proved to do to its
abstract value (`Contents`, `View`) what a function on values says, and the laws are proved about those functions
and about sequences of them.

**Timers.** `TimerQueue` is the intrusive doubly linked list with its `first`, `last`, `prev` and `next` pointers;
`PendingList` is the list of expired timers. `TimerRuns` is a machine with two threads: the server thread of
`timer_server_task` and the workers of `time_out_task`, one label per section that a mutex delimits. A run is any
sequence of labels that are possible one after the other, so a theorem about `Exec(run)` holds in every
interleaving. The clock never goes back, and `select` reports a timeout no earlier than the rest it was given.

**MD5.** `Md5Digest.Digest` is the one-shot digest of RFC 1321, sections 3.1 to 3.5, on the whole message. The class
`Hasher` has the 64-byte buffer, the bit counter in two 32-bit words and the 64 unrolled in-place operations.
`Md5Table` ties the table of constants to the sine it is computed from: the first entry by its series, each next one
by the addition theorem. Words are integers below 2^32 and every wrap-around is written out; `AuxiliaryBits` and `RotateLeftBits` say what
the operations on them mean bit by bit.

**Boards.** A `Room` is a board with its players as a value. The handlers of `chessboard.cpp` are functions from
`Room` to `Room`, an `Event` is one message as a board sees it, and `Replay` is the effect of a history of events.
`RoomLaws` says what each event does seat by seat and in plain numbers, independently of those functions.
`ChessBoard` is the object with three pointers to `UserSession` objects, and each of its handlers is proved to act
on `View()` as the function does. In `Server`, every board keeps its history in a ghost log; the invariant `Valid`
says that the board is where its log leads, so each law about histories holds of every board the server ever
reaches. The server starts one worker thread (`server.cpp:24`), so accepting, handling one message and closing are
atomic steps, and `Valid` is an invariant of all of them.

**Frames.** `Decoder` is the input buffer of one connection with its `ReadBufInfo`; `Feed` is one read event.

## What the code turns out to do

* The subtraction of two times borrows 999999 microseconds (`libtimer/libtimer.c:31`, `libtimer/libtimer.c:81-82`).
  The result is exactly one microsecond short whenever there is a borrow. A timer fires before its deadline if and
  only if the wait was computed with a borrow and the select returned in the last microsecond before the deadline
  (`FiringOrder`, `NextFiringIsEarlyIff`), and `SomeTimerFiresEarly` is a run in which one does. The order of firing
  survives, because a new timer is due at least one microsecond ahead.
* The comment at `libtimer/libtimer.c:487` announces a search for the first timer that expires before the new one;
  the loop finds the first one that expires strictly after it, which makes insertion stable. The model follows the
  code.
* `update` compares `i + blocksize` in 32 bits (`md5.cpp:274`). `UpdateFits` is the exact condition, which depends on
  the bytes already buffered, under which no sum the loop can reach wraps; 2^32 - 65 bytes are always fine. When it
  fails, `UpdateFitsExactly` gives the position at which the loop would go on with a block beyond the input.
* `OnReadCb` compares the buffered length with the announced one for equality (`thread.cpp:659`). A frame that is
  followed by more bytes is delivered if and only if some read ended exactly at its end; otherwise the connection
  stays open and delivers nothing any more; two frames in one read are both lost (`TwoFramesInOneRead`).
* `OnWrite` keeps the size of a frame in 32 bits (`thread.cpp:290`). The whole frame is sent if and only if its size
  fits (`SentWholeIff`).
* A client may name another user's seat in its messages, and the handlers act on that seat. For an exit this means
  that the other session loses its board but stays in the Play state until its next message (`Stranded`). The
  invariants hold all the same; only a message for the lost board would dereference a null pointer.
* "Nobody plays alone" is not an invariant of the handlers themselves. `SettledIff` lists exactly the messages that
  break it: a capture between two remaining players whose winner is not one of them or is its own victim, an undo
  on a board where nobody plays any more, and a player who reports ready while two are playing. Each of the three
  happens on a board that three users reach by joining and getting ready (`CaptureLeavesOnePlaying`,
  `UndoLeavesOnePlaying`, `ReadyLeavesOnePlaying`). Over a whole history nobody ever plays alone if and only if none
  of these messages occurs (`AlwaysSettledIff`), and a history that keeps to the rules of the game contains none.
* Taking back a capture among three playing users restores everything. Between two, the capture has already ended
  the winner, and the undo leaves the winner ended and the loser playing alone (`chessboard.cpp:418-423`,
  `chessboard.cpp:531-535`).
* An accepted undo does not clear the capture on record, so that it can be accepted again and again until the next
  move (`UndoCanBeRepeated`); the total of the scores stays the same.
* A refused seat still overwrites the session's location (`stategameready.cpp:67`); it is in no seat then, so this
  harms nobody.

## Model

| member | source | states |
|---|---|---|
| TimeVals.LessThanOrdersMicros | libtimer/libtimer.c:63-65 | for normalised times the comparison macro is the order of the microsecond counts |
| TimeVals.MinusIsShortByTheBorrow | libtimer/libtimer.c:72-83 | the difference is exact without a borrow, and exactly 1 microsecond short with one |
| TimeVals.AbsoluteDeadlineIsExact | libtimer/libtimer.c:457-460 | the normalised deadline is now plus the timeout, to the microsecond, also for a usec part of a second or more |
| TimeVals.RestTimeReachesDeadline | libtimer/libtimer.c:635-658 | sleeping for the computed rest ends at most 1 microsecond before the deadline, and no later than it if it was ahead; past a deadline the rest is 1 millisecond |
| TimerQueues.InsertPos | libtimer/libtimer.c:487-494 | the position behind everything due at the same time or earlier and in front of the first timer due strictly later |
| TimerQueues.InsertIsStable | libtimer/libtimer.c:484-518 | insertion keeps the queue sorted, adds exactly the new timer, leaves the others in order, equal deadlines in front |
| TimerQueues.DeleteKeepsOrder | libtimer/libtimer.c:235-255 | deletion keeps the order and takes out exactly the one timer |
| TimerQueues.FindId | libtimer/libtimer.c:538-544 | the first position with the id, or the length of the queue when no timer has it |
| TimerQueues.ToIntWraps | libtimer/libtimer.c:468-471 | the counter is kept in the range of an int, modulo 2^32 |
| TimerQueues.TimerQueue.constructor | libtimer/libtimer.c:266-267 | the empty queue is a valid list and the counter starts at 0 |
| TimerQueues.TimerQueue.Dequeue | libtimer/libtimer.c:235-255 | unlinking any node leaves a finite acyclic doubly linked list without exactly that node |
| TimerQueues.TimerQueue.LinkBefore | libtimer/libtimer.c:474-518 | all four pointer cases (empty, last, first, middle) put the node in at the found position of a well-formed list |
| TimerQueues.TimerQueue.FindLater | libtimer/libtimer.c:484-494 | the pointer walk ends, at the node of InsertPos, null meaning the end |
| TimerQueues.TimerQueue.FindNode | libtimer/libtimer.c:536-544 | the pointer walk ends, at the first node with the id, null when there is none |
| TimerQueues.TimerQueue.NextId | libtimer/libtimer.c:468-471 | the counter of a C int wraps around and -1 is never handed out |
| TimerQueues.TimerQueue.Add | libtimer/libtimer.c:430-525 | adding refines stable insertion at the absolute deadline under the next id, and keeps the list valid |
| TimerQueues.TimerQueue.TimerAdd | libtimer/libtimer.c:660-689 | a null handler, a negative part or a zero timeout is refused with -1 and changes nothing; anything else is added |
| TimerQueues.TimerQueue.Remove | libtimer/libtimer.c:527-563 | -1 or an unknown id fails and changes nothing; a queued id loses exactly its first timer and calls a non-null callback once with that timer's argument |
| TimerQueues.TimerQueue.Clear | libtimer/libtimer.c:564-575 | the loop from the back terminates with an empty valid queue |
| TimerQueues.TimerQueue.TakeFirst | libtimer/libtimer.c:585-596 | the head, with its handler and argument, leaves the queue; an empty queue yields nothing |
| TimerQueues.TimerQueue.GetRestTime | libtimer/libtimer.c:635-658 | the rest is that of the head, none for an empty queue |
| PendingLists.PendingList.PushFront | libtimer/libtimer.c:806-849 | a null handler is refused; any other job goes to the front of a well-formed list |
| PendingLists.PendingList.Count | libtimer/libtimer.c:850-863 | the pointer walk counts the pending jobs |
| PendingLists.PendingList.PopLast | libtimer/libtimer.c:864-881 | the last node leaves the list and is returned; an empty list stays empty |
| TimerRuns.HandleMsg | libtimer/libtimer.c:392-429 | the dispatch of a request does to the linked queue, the counter and the callbacks what the machine's request step says; in plain terms: add queues one timer, remove takes one out and calls back, clear empties the queue, a failed request changes nothing |
| TimerRuns.ExpireHead | libtimer/libtimer.c:591-598 | on the linked queue, the first section of timer_execute is the timeout step of the machine |
| TimerRuns.AppendJob | libtimer/libtimer.c:599-603 | on the linked pending list, the second section is the append step |
| TimerRuns.ArmSelect | libtimer/libtimer.c:334-339 | the rest computed from the linked queue is the one the machine sleeps for |
| TimerRuns.TestPending | libtimer/libtimer.c:911 | the count over the linked list decides whether the worker sleeps or takes a job |
| TimerRuns.TakeJob | libtimer/libtimer.c:927-931 | the node taken from the linked list is the job the worker holds afterwards |
| TimerRuns.AddedIsLater | libtimer/libtimer.c:440-460 | a timer added now is due no earlier than everything that has fired |
| TimerRuns.WaitFallsShortIff | libtimer/libtimer.c:635-658 | a wake-up that the computed rest allows precedes the deadline exactly if the subtraction borrowed and it comes in the microsecond before |
| TimerRuns.NextFiringIsEarlyIff | libtimer/libtimer.c:319-339 | the next select can report its timeout before the deadline exactly if the subtraction borrowed, and then only in the microsecond before it |
| TimerRuns.SomeTimerFiresEarly | libtimer/libtimer.c:81-82 | a run in which a timer fires one microsecond before its deadline |
| TimerRuns.FiringOrder | libtimer/libtimer.c:295-347 | in every run a timer fires early exactly by that microsecond and exactly after a borrow, never by more, and deadlines of fired timers never decrease, late additions included |
| TimerRuns.HandlersRunInFiringOrder | libtimer/libtimer.c:585-634 | in every interleaving at most one worker is live; fired = run ++ in hand ++ pending from last to first ++ in transit, in that order |
| TimerRuns.HandlersRunInDeadlineOrder | libtimer/libtimer.c:905-941 | handlers run in the order of their timers' deadlines, each for its own timer |
| TimerRuns.ServerGoesRound | libtimer/libtimer.c:319-341 | from select to a request or to the expired head, past the pending list and back to select with a new wait |
| TimerRuns.WorkerGoesRound | libtimer/libtimer.c:905-941 | the worker counts, sleeps or takes the last job, calls its handler and counts again; it ends from its sleep only and then clears the flag |
| TimerRuns.SignalLeadsToAWorker | libtimer/libtimer.c:605-627 | after a job was appended there is a worker or one is created; if that fails, the flag is free again |
| TimerRuns.TimersAreConserved | libtimer/libtimer.c:527-634 | in every run the accepted timers are those queued, fired, removed and cleared, with multiplicity |
| TimerRuns.IdsRepeatWithThePeriod | libtimer/libtimer.c:466-472 | two adds get the same id exactly when a multiple of 2^32 - 1 adds separates them, and never -1 |
| TimerRuns.AcceptedIdsFollowTheCounter | libtimer/libtimer.c:466-472 | in every run the n-th accepted timer carries the n-th id of that period, across the wrap of the int |
| TimerRuns.EveryTimerIsInOnePlace | libtimer/libtimer.c:466-634 | up to 2^32 - 1 adds every accepted timer is in exactly one of queued, fired, removed, cleared, and its id names it alone |
| TimerRuns.RemoveCallsBackOnce | libtimer/libtimer.c:552-558 | removing a queued id calls the callback once with that timer's argument and takes out that timer only |
| TimerRuns.UnknownIsNotRemoved | libtimer/libtimer.c:531-550 | removing -1 or an unknown id changes nothing |
| TimerRuns.ClearEmptiesTheQueue | libtimer/libtimer.c:564-574 | a clear request empties the queue, accounts for exactly its timers as cleared and calls nothing |
| TimerRuns.AddQueuesTheTimer | libtimer/libtimer.c:454-472 | an add request queues exactly the new timer, due at its time plus the timeout |
| TimerRuns.RemovedNeverFires | libtimer/libtimer.c:552-558 | a removed timer never fires, however the run goes on |
| TimerRuns.ClearedNeverFires | libtimer/libtimer.c:564-574 | a cleared timer never fires, however the run goes on |
| TimerRuns.NothingQueuedFiresAfterClear | libtimer/libtimer.c:413-421 | no timer queued when a clear request arrives fires afterwards |
| Bytes.DecodeUndoesEncode | md5.cpp:148-156 | little-endian encoding of a word is undone by decoding |
| Bytes.LeastSignificantFirst | md5.cpp:148-156 | the four bytes of a word are its base-256 digits, the lowest first |
| Bytes.EncodeUndoesDecode | md5.cpp:137-142 | decoding four bytes is undone by encoding |
| Md5Compress.AuxiliaryBits | md5.cpp:60-75 | bit by bit, F and G select, H is parity, and I is y xor (x or not z) |
| Md5Compress.RotateLeftBits | md5.cpp:77-80 | every bit moves n places up, the topmost n round to the bottom |
| Md5Compress.StepIsTheOperation | md5.cpp:82-98 | one operation is b + ((a + f(b, c, d) + X[k] + T[i]) <<< s) with all sums modulo 2^32, and the registers move on |
| Md5Compress.WordsInSteps | md5.cpp:166-236 | the words are used from 0, 1, 5 and 0 on in steps of 1, 5, 3 and 7 modulo 16 |
| Md5Compress.ShiftsInRounds | md5.cpp:166-236 | the rotation amounts are four per round, repeated four times |
| Md5Compress.CompressAddsTheState | md5.cpp:238-241 | the result of the 64 operations is added to the state word by word modulo 2^32 |
| Md5Table.FirstConstantIsSineOfOne | md5.cpp:167 | the first constant is the integer part of 2^32 sin(1) |
| Md5Table.ConstantsFollowTheSine | md5.cpp:166-236 | all constants, with their signs, satisfy the addition theorem of the sine up to the rounding |
| Md5Compress.RotationsCancel | md5.cpp:77-80 | rotation left by n is undone by rotation right by n |
| Md5Compress.TurnsCancel | md5.cpp:84-98 | the update of one word by FF, GG, HH or II can be undone, the other words being known |
| Md5Compress.Round1 | md5.cpp:166-182 | the 16 in-place FF calls equal the recurrence for i = 0..15, k = i |
| Md5Compress.Round2 | md5.cpp:184-200 | the 16 in-place GG calls equal the recurrence for i = 16..31, k = 5i+1 mod 16 |
| Md5Compress.Round3 | md5.cpp:202-218 | the 16 in-place HH calls equal the recurrence for i = 32..47, k = 3i+5 mod 16 |
| Md5Compress.Round4 | md5.cpp:220-236 | the 16 in-place II calls equal the recurrence for i = 48..63, k = 7i mod 16 |
| Md5Compress.CompressionCoreIsBijective | md5.cpp:161-236 | for a fixed block the 64 steps before feed-forward have a two-sided inverse on the four-word state |
| Md5Digest.AbsorbInParts | md5.cpp:266-282 | folding the full blocks of a prefix, then of its tail and more input, is folding the whole |
| Md5Digest.InitialBytes | md5.cpp:128-131 | the initial state is the byte sequence 01 23 45 ... 32 10 of section 3.3 |
| Md5Digest.StateByteByByte | md5.cpp:320 | the digest is the four words in order, least significant byte first |
| Md5Digest.PadLength | md5.cpp:306-317 | the padded message is a whole number of blocks, 9 to 72 bytes longer |
| Md5Digest.PadByteByByte | md5.cpp:300-317 | the padded message is the message, a byte 0x80, zeros, and its bit count modulo 2^64 as eight bytes, lowest first |
| Md5Digest.PadIsReversible | md5.cpp:306-317 | a message of any length is recovered from its padded form |
| Md5Digest.PadIsInjective | md5.cpp:306-317 | distinct messages have distinct padded forms |
| Md5Digest.UpdateExtendsMessage | md5.cpp:251-284 | a context that represents m represents m ++ input after an update, for every split |
| Md5Digest.FinishedIsDigest | md5.cpp:298-330 | padding fed through update and read off the state is the one-shot digest of the represented message |
| Md5.Decode | md5.cpp:137-142 | the loop yields the little-endian words of the input |
| Md5.Encode | md5.cpp:148-156 | the loop yields the little-endian bytes of the words |
| Md5.UpdateFitsExactly | md5.cpp:274 | the 32-bit sum stays in range at every reachable block boundary exactly under UpdateFits; otherwise one comparison lets the loop run past the input |
| Md5.UpdateFitsAlways | md5.cpp:274 | 2^32 - 65 is the greatest length that fits whatever the buffer holds |
| Md5.CounterAddsBits | md5.cpp:256-259 | the carry test and the shifted high part add 8 x length to the 64-bit counter modulo 2^64 |
| Md5.IndexFollowsBytes | md5.cpp:254 | the buffer index derived from the low counter word advances with the bytes modulo 64, across its wrap |
| Md5.Hasher.constructor | md5.cpp:120-132 | a new computation represents the empty message |
| Md5.Hasher.Transform | md5.cpp:161-245 | the unrolled rounds with feed-forward are the compression function on the state |
| Md5.Hasher.Count | md5.cpp:254-259 | both counter words together gain 8 x length modulo 2^64, and the index gains length modulo 64 |
| Md5.Hasher.TransformBlocks | md5.cpp:273-275 | the block loop with its 32-bit comparison absorbs every full block and stops within a block of the end |
| Md5.Hasher.Update | md5.cpp:251-284 | buffer filling, block loop and tail copy together update the abstract context |
| Md5.Hasher.FeedPadding | md5.cpp:306-317 | the bytes fed through update are 0x80, zeros and the saved bit count, lowest byte first; they complete a block, are absorbed into the state and finish the context |
| Md5.Hasher.Finalize | md5.cpp:298-330 | the digest is that of the context, and buffer and counters are zeroed; finalising again changes nothing |
| Md5.DigestOfChunks | md5.cpp:251-330 | whatever the chunks, as long as each fits behind what the ones before left in the buffer, the digest is the RFC 1321 digest of their concatenation |
| Framing.FrameRoundTrip | thread.cpp:633-672 | one frame, cut into reads anywhere, is delivered once and leaves the reader reset; before that nothing is |
| Framing.FramesRoundTrip | thread.cpp:633-672 | a sequence of frames is delivered in order, each once, when no read spans two |
| Framing.LastReadOfFrame | thread.cpp:659-671 | the last bytes of a frame hand it over; the reader is closed exactly if the message was not handled, and then ignores everything |
| Framing.FrameByteByByte | thread.cpp:298-300 | a frame is its total size, its type, both lowest byte first, and its payload |
| Framing.LegalSizes | thread.cpp:650 | types up to 33 and sizes up to 4198400 are accepted |
| Framing.RefusedHeadCloses | thread.cpp:641-657 | an unknown type or excessive size closes the connection when the head is complete and not before, delivering nothing |
| Framing.OverrunIsForever | thread.cpp:659 | a reader that buffers more than was announced never delivers again |
| Framing.FrameDeliveredIffReadEndsThere | thread.cpp:659 | a frame with bytes behind it is delivered if and only if some read ends exactly at its end |
| Framing.TwoFramesInOneRead | thread.cpp:659 | two frames that arrive in one read are both lost, and so is everything after them |
| Framing.SentWholeIff | thread.cpp:289-304 | what is sent is the whole frame exactly if its size fits 32 bits, which it does for every frame the reader accepts |
| Framing.Connection.GetBuffer | usersession.cpp:113-128 | the buffer covers the request whatever was allocated before, grows to exactly 8200 bytes at first or else to the request, and keeps its contents |
| Framing.Connection.OnWrite | thread.cpp:286-307 | the bytes sent are the encoded frame, cut to its 32-bit size; a closed descriptor sends nothing and fails |
| Framing.Connection.OnReadCb | thread.cpp:633-672 | one read event on the session's fields refines one step of the reader |
| Rooms.SettledIff | chessboard.cpp:360-627 | after any message the number of playing users is again 0, 2 or 3 exactly when the message is not one of those in Breaks |
| Rooms.AlwaysSettledIff | chessboard.cpp:360-817 | over a whole history nobody ever plays alone exactly when none of those messages occurs in it |
| Rooms.ReadyLeavesOnePlaying | chessboard.cpp:563-566 | a history from an empty board in which a second ready message leaves one user playing |
| Rooms.CaptureLeavesOnePlaying | chessboard.cpp:371-380 | a history from an empty board in which a capture by a captured user leaves one user playing |
| Rooms.UndoLeavesOnePlaying | chessboard.cpp:530-535 | a history from an empty board in which undoing the last capture leaves one user playing |
| Rooms.DisciplineNeverBreaks | chessboard.cpp:360-627 | messages that keep to the rules of the game are never among those |
| Rooms.PlayingIsNeverOne | chessboard.cpp:360-817 | in every disciplined history, quits and drops included, 0, 2 or 3 users play between messages |
| Rooms.TokenGoesToAnotherPlayer | chessboard.cpp:392-423 | the announced seat plays, is not the mover's and is the next such seat in turn order; nobody is announced exactly when at most one plays |
| Rooms.PlainMovesKeepPlayers | chessboard.cpp:385-417 | moves of seated users that capture nobody leave the same users playing, all through a history |
| Rooms.TurnGoesRound | chessboard.cpp:392-417 | in a history in which only announced users move, each mover is the next playing user after the one before |
| Rooms.TurnIsFair | chessboard.cpp:392-417 | in a history of moves by announced users during which the same k users play, every k consecutive moves are made by those k users, each once |
| Rooms.StepBalances | chessboard.cpp:371-382 | one message changes the total score by what it carries in or out and what it mints, modulo 2^32 |
| Rooms.CaptureBalances | chessboard.cpp:371-382 | a capture of an occupied seat leaves the total unchanged modulo 2^32, of an empty seat it adds 10 |
| Rooms.UndoBalances | chessboard.cpp:530-540 | an undo leaves the total unchanged modulo 2^32 |
| Rooms.LeaveBalances | chessboard.cpp:764-790 | a leave mints -30 if the leaver plays and +10 if exactly one playing user remains |
| Rooms.ResignBalances | chessboard.cpp:764-790 | giving up without leaving mints -30 if the user plays and +10 if exactly one playing user remains |
| Rooms.ScoresAreAccountedFor | usersession.cpp:135-144 | over every history the total is the initial total plus the ledger, modulo 2^32 |
| Rooms.UndoRevertsCapture | chessboard.cpp:527-540 | capture then undo restores scores and statuses among three; among two everything but the winner's status, which stays ended |
| Rooms.UndoCanBeRepeated | chessboard.cpp:530-535 | an undo stays on record, and a second acceptance moves the points again |
| Rooms.NobodyJoinsMidGame | stategameready.cpp:68-78 | while a seated user is playing or ended, no message fills an empty seat |
| Rooms.EmptySeatStaysEmpty | stategameready.cpp:68-78 | the same over any stretch of history |
| Rooms.StartMakesAllPlay | chessboard.cpp:618-623 | the ready message that makes all three begun makes all three play |
| Rooms.OnlyStartsBeginPlay | chessboard.cpp:553-627 | undo aside, no other message makes anyone play on a board where nobody does |
| Rooms.PlayBeginsWithAStart | chessboard.cpp:553-627 | a history from nobody playing to somebody playing contains such a start, after which three play |
| Rooms.LeaveFreesSeat | chessboard.cpp:221-263 | leaving and dropping free the leaver's seat and no other, and clear the first comer if it was the leaver |
| Rooms.StepKeepsFirstSeated | chessboard.cpp:257-259 | the first comer is nobody or somebody seated, after every message |
| RoomLaws.PlayersAreCounted | chessboard.cpp:672-691 | the counts of occupied seats and of playing users are the sizes of the sets of those seats |
| RoomLaws.NewBoardLaw | chessboard.cpp:116-121 | a new board has no users, nothing on record and no times |
| RoomLaws.SeatGrantedIff | stategameready.cpp:68-78 | a seat is granted exactly if it is a free seat and nobody at the board plays or has ended |
| RoomLaws.JoinLaw | stategameready.cpp:68-87 | a granted seat holds a ready user with the score, who is first comer exactly if the board was empty; a refusal changes nothing |
| RoomLaws.PlainMoveLaw | chessboard.cpp:385-423 | a move without capture clears the record and ends the mover exactly if fewer than two users play |
| RoomLaws.CaptureLaw | chessboard.cpp:371-423 | a capture goes on record, moves ten points, ends the loser, and ends the winner exactly if fewer than two users are left |
| RoomLaws.CaptureOfNobodyLaw | chessboard.cpp:371-382 | a capture of an empty seat, or of none, earns ten points all the same |
| RoomLaws.CaptureOfOneselfLaw | chessboard.cpp:371-382 | a user who names the own seat as captured has ended and keeps the score |
| RoomLaws.TokenLaw | chessboard.cpp:392-423 | the turn goes from left to bottom, bottom to right, right to left, past seats that do not play, and to nobody if fewer than two play |
| RoomLaws.ReconcileLaw | chessboard.cpp:462-487 | a request, or a message marked as an application, for all ends everybody and touches no score; any other one changes nothing |
| RoomLaws.UndoLaw | chessboard.cpp:513-546 | exactly an accepted response to a capture on record takes the ten points back and makes the loser play |
| RoomLaws.ReadyLaw | chessboard.cpp:553-627 | a ready user has begun; when all three have, all play; the times are taken over exactly from the first comer |
| RoomLaws.AgainLaw | chessboard.cpp:865-868 | a user who has ended is ready again exactly if the game of the named board has begun |
| RoomLaws.LeaveLaw | chessboard.cpp:752-817 | a leaver frees the seat; a playing one ends the game for all; a last playing user gets ten points and has ended; nobody else changes |
| RoomLaws.ResignLaw | chessboard.cpp:764-802 | a user who gives up stays, has ended and, if playing, loses thirty points and ends the game for all |
| RoomLaws.DropLaw | stategameplay.cpp:61-65 | a dropped user frees the seat without ending the game of the others |
| RoomLaws.LeaverLaw | chessboard.cpp:764-774 | the leaver takes the score along, less thirty points for one who was playing |
| RoomLaws.QuittingEndsTheGame | chessboard.cpp:792-802 | after a playing user leaves or gives up everybody at the table has ended |
| ChessBoards.UserSession.constructor | usersession.cpp:9-20 | a new session holds nothing and its location number is that of the left seat |
| ChessBoards.UserSession.DestructResource | usersession.cpp:57-111 | the session ends without board, state and descriptor and, if it had one, without score; its board, if any, loses exactly it |
| ChessBoards.ChessBoard.constructor | chessboard.cpp:116-121 | a new board is valid and empty |
| ChessBoards.ChessBoard.CountUsers | chessboard.cpp:163-166 | currUserNum of a valid board is the number of distinct sessions seated, at most three |
| ChessBoards.ChessBoard.GetActiveUsersNum | chessboard.cpp:672-691 | the number of playing users of the board's value |
| ChessBoards.ChessBoard.GameBegan | chessboard.cpp:725-750 | somebody's status is playing or ended |
| ChessBoards.ChessBoard.AddUser | chessboard.cpp:181-219 | succeeds exactly for an empty seat of a board that is not full, and then fills that seat only |
| ChessBoards.ChessBoard.LeaveOutRoom | chessboard.cpp:221-263 | empties the user's seat only, keeps the count, and forgets the first comer if it was that seat |
| ChessBoards.ChessBoard.AnnouncedSeat | chessboard.cpp:394-417 | the nested conditionals compute the next playing seat whenever more than one user plays |
| ChessBoards.ChessBoard.MoveChessHandle | chessboard.cpp:360-447 | acts on the board's value as Move, and announces the seat bottom, right or left that is next and plays, or nobody |
| ChessBoards.ChessBoard.ReconciledHandle | chessboard.cpp:462-487 | ends everybody's game exactly for a request, or a message marked as an application, that is meant for all |
| ChessBoards.ChessBoard.UndoHandle | chessboard.cpp:513-546 | acts as Undo: an accepted response reverses the capture on record |
| ChessBoards.ChessBoard.GameReadyHandle | chessboard.cpp:553-627 | acts as GetReady; the times are taken only if the number in the message equals the first comer's |
| ChessBoards.ChessBoard.GameAgainHandle | chessboard.cpp:847-910 | acts as PlayAgain, with the named board's GameBegan |
| ChessBoards.ChessBoard.GetOnlyActiveUser | chessboard.cpp:693-723 | the one playing user if there is exactly one, else nobody |
| ChessBoards.ChessBoard.LeaveRoomHandle | chessboard.cpp:752-817 | acts as Leave or Resign on the board, and leaves the leaver with the penalised score |
| ChessBoards.ChessBoard.GiveUpHandle | chessboard.cpp:489-511 | acts as Leave or Resign; a user named in an exit loses the board pointer and is sent to Ready |
| ChessBoards.RequestSeat | stategameready.cpp:63-98 | the seat is granted exactly under JoinAccepted; location, board, status and next state follow, and the first comer is set for the first user |
| GameHalls.GameHall.CreateChessBoard | chessboard.cpp:83-106 | never refuses a key in range that is absent, and adds one empty board |
| GameHalls.GameHall.GetChessBoardByID | chessboard.cpp:59-81 | null exactly out of range; else the board of the key, created empty if absent, all keys within range |
| GameHalls.GameHall.GetCurrentPeopleNum | chessboard.cpp:43-57 | the sum of the boards' counters is the number of distinct sessions seated in the hall, at most GetExpectedTotalPeopleNum |
| GameHalls.GameHall.WrapHallInfo | statecommon.cpp:103-135 | afterwards every key in range has a board, old boards are kept and new ones are empty |
| SessionPools.SessionPool.CreatSessionsPool | mainthread.cpp:218-224 | adds the given number of fresh clean sessions, all accounted for |
| SessionPools.SessionPool.GetOneSessionFromPool | mainthread.cpp:277-293 | hands out a clean session without score that was not in use, the first of the pool, or of ten new ones if the pool is empty |
| SessionPools.SessionPool.DestrorySessionsFromPool | mainthread.cpp:246-261 | trims from the back, the trimmed sessions being destroyed and no others |
| SessionPools.SessionPool.PushFront | mainthread.cpp:264-275 | the recycled session is in front and never trimmed; from the twentieth on exactly the older ones beyond nine are |
| Servers.SeatedExactly | usersession.cpp:31-67 | a session is at seat L of board b exactly when b is its board, L its location and Play its state |
| Servers.SeatedOnce | chessboard.cpp:181-263 | nobody is in two seats, of one board or of two |
| Servers.Server.HallsAreApart | mainthread.cpp:42-45 | in every reachable state two halls share no board and nobody seated |
| Servers.Server.OneSeatInAllHalls | chessboard.cpp:181-263 | in every reachable state a session has at most one hall, board number and location |
| Servers.WorldKept | chessboard.cpp:489-511 | a step in which one session takes, leaves or keeps a seat keeps sessions and boards in agreement, and the other boards as they were |
| Servers.TranslateMsg | chessboard.cpp:311-353 | each handled message acts on the board with its own arguments, written out message by message, and only an exit takes somebody from a seat, namely the user it names |
| Servers.HandleAndSwitch | usersession.cpp:31-50 | after a handled message the sender is in Play with its seat, or in Ready after its own exit; an exit in another user's name strands that user, and nothing else does |
| Servers.GiveUpSession | stategameplay.cpp:61-65 | a session that disconnects or is dropped leaves its board as Leave or Drop says |
| Servers.JoinMessage | stategameready.cpp:51-115 | a seat request adds one join to the board's history, notes the location, leaves the session in Play at its seat or in Ready without one, and keeps sessions and boards in agreement |
| Servers.Server.constructor | mainthread.cpp:34-46 | the server starts valid, with halls 1 to 5 and no board |
| Servers.Server.Accept | thread.cpp:219-226 | a new descriptor gets a session not in use before that sits nowhere; no board changes |
| Servers.Server.CloseSeated | thread.cpp:347-370 | closing removes the descriptor, puts the session in front of the pool, adds one departure to its board and leaves the other boards alone |
| Servers.Server.Close | thread.cpp:347-370 | for any descriptor: its session's board, if any, gets one leave, and no other board changes; an unknown descriptor changes nothing |
| Servers.Server.FindBoard | mainthread.cpp:48-66 | null exactly for a hall or board number out of range; else the board of these numbers, created empty if absent |
| Servers.Server.LoginMessage | usersession.cpp:31-50 | login and advertisement outcomes advance the state and touch no board |
| Servers.Server.RequestMessage | stategameready.cpp:51-115 | a request for a board, old or just made, adds one join to it and nothing elsewhere; the session plays at the seat exactly if it was free and no game had begun, and else stays in Ready |
| Servers.Server.ReadyMessage | stategameready.cpp:17-49 | which messages Ready handles, and that a request is answered and recorded, at boards that exist and at one it creates |
| Servers.Server.ReplayRequest | chessboard.cpp:861-868 | a replay request stands for the seat it names and for whether the game of the board it names has begun, a board not made yet being idle |
| Servers.Server.PlayingMessage | stategameplay.cpp:16-59 | a handled message adds its event to the sender's board and nothing elsewhere |
| Servers.Server.MessageInGame | stategameplay.cpp:16-68 | an unhandled message drops the sender from its seat and its connection, a handled one acts on its board, and every other board, new ones included, has no event |
| Servers.Server.MessageInHall | stategameready.cpp:17-49 | a message in Ready is answered and recorded, and costs the connection if it is not handled |
| Servers.Server.MessageBeforeHall | usersession.cpp:31-50 | a message before Ready concerns no board, and costs the connection if it is not handled |
| Servers.Server.StrandedMessage | usersession.cpp:38-47 | a session that has lost its board goes to Ready with its next message, or loses its connection, and no board changes |
| Servers.Server.HallIsConsistent | chessboard.cpp:43-57 | in every reachable state the sessions seated at a hall's boards are those whose board is in the hall |
| Servers.Server.GetCurrentPeopleNum | chessboard.cpp:43-57 | in every reachable state the hall's count is the number of sessions seated in it, at most 180 |
| Servers.Server.NobodyPlaysAlone | chessboard.cpp:672-691 | in every reachable state a board whose history was disciplined has 0, 2 or 3 playing users |
| Servers.Server.BoardScoresAddUp | usersession.cpp:135-144 | in every reachable state the scores at a board are what its history carried and minted there, modulo 2^32 |
| Servers.Server.OnMessage | thread.cpp:314-345 | one message of any session keeps every invariant, answers and keeps the connection exactly when its state handles it, adds exactly the events it stands for to the boards it concerns, old and new, and a request for a seat ends with the sender seated exactly if the seat was free and no game had begun |

## Left out

- Sockets, select, libevent and the unix-domain transport: requests, timeouts and chunks arrive as steps; a step may also be a failed accept or receive.
- Liveness of expired handlers: the worker tests the list before it locks (`libtimer/libtimer.c:911-917`) and can miss a signal; order and exactly-once are proved, eventual execution is not claimed. Exit of the worker is allowed whenever it sleeps, so the length of its wait (`get_waite_interval`) does not matter.
- Failing allocations, a failing clock, overflow of `time_t`, and `timer_destroy` with its teardown of mutexes.
- TimerQueues.TimerQueue.Add: requires a timeout that `timer_add` lets through; the path for an invalid one unlocks a mutex it never took and is not modelled.
- TimerQueues.TimerQueue.Remove: models the request as the server receives it; the caller's `timer_rem` refuses negative ids, so timers added after the counter has become negative cannot be removed through it.
- Md5.Hasher.Update: requires UpdateFits; beyond it the program reads past its input.
- Framing.Connection.OnWrite: the payload is a value of any length; where `size_t` itself wraps is not modelled.
- MD5 text output (`hexdigest`), and the derivation of the table of constants from the sine function: the table is given.
- MySQL, mail, advertisement, registration and login logic: `LoginOutcome` is an arbitrary answer with an arbitrary score; writing scores back has no effect on the model.
- Protobuf parsing: messages are datatypes, and a payload that does not parse is `Unparsed`.
- Broadcast texts and the copying of board and hall information into replies. `BroadCastHallInfo` also asks for every board of the hall; boards made at that moment are empty and are made in the model when they are next asked for.
- Servers.Server.OnMessage: requires that no handler dereferences a null pointer (`Safe`): a mover's seat is occupied, the seats on record are still occupied when an undo is accepted, the board number is in range where the named board is looked at, and a session that has lost its board sends nothing for it.
- The chess rules: the server does not look at the pieces.
- More than one worker thread.
- The read buffer and bufferevent of a session belong to `Framing.Connection`, not to `ChessBoards.UserSession`; what MessageHandle answers is a parameter there. The keep-alive timer of a session is a `Close` at any time.
- Framing.Connection.GetBuffer: allocation succeeds.
- SessionPools.SessionPool.DestrorySessionsFromPool: the deletion of the whole pool at shutdown is not modelled.

# A verified model of the SMPP gateway's core

The gateway connects clients (ESMEs) that submit short messages over SMPP v3.4 to short message centres (SMSCs). One
process speaks to the ESMEs, another to the SMSCs, and both rest on a library of hand-written data structures. This
project models the parts whose correctness is not evident from reading one function, one file per component:

- `FdSet.dfy`: the poll set. Four parallel arrays that callbacks change while the poller scans them refine a map from
  descriptor to registration, and a whole scan is related to its history of calls and operations.
- `Conn.dfy`: the buffered connection on top of it. Nothing is lost, repeated or reordered; the cached poll flags
  agree with the poll set; length-prefixed packets come out as they went in, however the stream is cut.
- `GwMem.dfy`: the checking allocator, down to the marker bytes in raw memory.
- `PrioQueue.dfy`: the binary heap whose sift reads one slot past its end.
- `Directory.dfy`: the protocol that copies the list of SMSCs from one process to the other, as steps over a FIFO
  channel.
- `Registry.dfy`: binds, sessions and session ids. `Routing.dfy`: routing lists and the configuration check.
  `Submit.dfy`: the gates, counters, quotas and rate window of a submit.
- `Cfg.dfy`: the configuration reader with continuation lines and includes. `Date.dfy`: calendar arithmetic and date
  formats. `Dict.dfy`: the hash table.
- `Common.dfy`: optional values and three string operations used by several of these.

State that the C code changes in place is a class or an array here, each method proved against a function of the old
state; the laws about those functions are lemmas. What the operating system, the clock or a callback does is an
argument, and the theorems hold for every value of it.

## What the code does and its documentation does not say

- `gwlib/fdset.h:115-117` promises that a callback is not called once `fdset_unregister` has returned. The scan does
  not skip the slots it leaves behind: `PollSet.PromiseBroken` shows whole scans of three rows in which such a slot
  fires with descriptor -1, for pending events or for age alone, and `PollSet.PromiseKeptIff` says exactly when the
  promise holds.
- A bind with mode 4 creates an account without a session (`EsmeRegistry.ModeFourIff`). The three callers pass modes 1
  to 3.
- `rout_pdu` keeps positions in characters, which are signed on the usual platforms, and compares them with integers,
  so it lists an SMSC twice exactly when an id is asked for twice or its position is above 127
  (`Routing.ExactlyOnceIff`, with `Routing.RepeatedPreference` and `Routing.FarPreference` as inputs).
- Periodic status messages that slip into an initial batch are taken for entries of the batch. The copy stays aligned
  exactly when the entries that fill it are the ones expected, in order, whatever the mixture
  (`SmscDirectory.StreamAlignedIff`): a whole round right after the count does no harm, a later one does
  (`SmscDirectory.WholeRoundIff`), and of a single stray entry only the very last may be a repetition
  (`SmscDirectory.InterruptedIff`, `SmscDirectory.InterruptedBatch`).
- A directory is never put on the include stack, so `cfg_read` need not end. `Configuration.LoopsIff` says exactly when
  it does not, for every file system and whatever groups `add_group` refuses: at some point only lines that can be read
  again and again stand between it and directories that include one another in a circle.
  `Configuration.SelfIncludingLoops` is an input. A file that includes a plain file and then its own directory does
  not loop: the second pass panics on the plain file (`Configuration.PanicsInstead`).
- The word include anywhere in a line with an equals sign, even in a value, makes it a directive
  (`Configuration.AssignmentIs`, `Configuration.IncludeInValue`).
- `submits_unconnect` is also counted up on sessions that are bound, and counted back to 0 only when a session becomes
  bound again, so what was submitted while bound uses up the unconnected quota (`Submission.SubmitCharges`,
  `Submission.BoundUsesUpQuota`, `Submission.UnconnectedRefusedIff`).
- The comment at `gwlib/date.c:94-95` puts 31 December at day 355; the table and the formula put it at 364.

## Model

| member | source | states |
|---|---|---|
| PollSet.StepRefines | gwlib/fdset.c:420-540 | every register, listen or unregister, in or outside a scan, moves the rows exactly as it moves the map, and the tombstones go up by one exactly when an unregister inside a scan hits a row that is not the last |
| PollSet.ListenMeans | gwlib/fdset.c:484-502 | the same of the rows, for any set |
| PollSet.RemovedRefines | gwlib/fdset.c:279-290 | filling the hole with the last row drops that row's descriptor and nothing else |
| PollSet.StepKeepsScan | gwlib/fdset.c:420-540 | an operation done by a callback keeps the scan invariant: pending bits of each row are those polled less those masked, rows behind the scan are done, rows ahead are not |
| PollSet.CallKeepsScan | gwlib/fdset.c:342-354 | giving a row its turn keeps that invariant, and the call made is a legal next event |
| PollSet.StepKeepsDue | gwlib/fdset.c:342-358 | no operation makes a row ahead of the scan due, so callbacks cannot prolong a scan for ever |
| PollSet.TurnShrinks | gwlib/fdset.c:342-354 | a row's turn uses up a due row or changes nothing, which is why a scan ends |
| PollSet.ScanEnds | gwlib/fdset.c:342-358 | where a scan has passed every row, every descriptor kept since its start that was not called has no unmasked pending bits |
| PollSet.ScanServes | gwlib/fdset.c:342-358 | the trace of every scan, whatever its callbacks do, is a good history that serves every descriptor, and ends with the rows and the map those callbacks built |
| PollSet.EveryEventGood | gwlib/fdset.c:342-358 | every event of a good history was legal at its own point: made with the callback, data and unmasked bits of a descriptor then registered, or with descriptor -1 |
| PollSet.DeliveredIff | gwlib/fdset.c:488-503 | a poll callback of a scan gets exactly the events reported for its descriptor that no earlier callback of the scan turned off: in a mask and not among the events |
| PollSet.UnmaskedIff | gwlib/fdset.c:492-500 | an event stays pending exactly when it was reported and no listen turned it off; listens for other events leave it alone |
| PollSet.UnregisteredIsSilent | gwlib/fdset.c:528-539 | a descriptor unregistered in a scan is not passed to a poll callback of it again, nor to any callback unless registered again |
| PollSet.CalledOnce | gwlib/fdset.c:342-358 | no descriptor is called twice for poll events in one scan, and one registered throughout with an event reported that no callback turned off is called exactly once |
| PollSet.CalledAsRegistered | gwlib/fdset.c:342-358 | a poll callback gets the callback and data its descriptor had when the scan began |
| PollSet.AbandonedFire | gwlib/fdset.c:342-358 | the due rows that unregisters leave behind ahead of the scan are exactly the calls made with descriptor -1, each once with its own bits, callback and data |
| PollSet.PromiseKeptIff | gwlib/fdset.h:115-117 | a scan makes no call with descriptor -1, for events or for idleness, if and only if no callback of it unregisters a due row ahead of the scan that is not the last |
| PollSet.PromiseBroken | gwlib/fdset.c:342-354 | in every scan of three rows whose first callback unregisters the second row while that is due, a call with descriptor -1 is made |
| PollSet.PromiseBrokenExample | gwlib/fdset.c:342-354 | such scans exist, with the second row due by pending events or by age alone |
| PollSet.ReportedBits | gwlib/fdset.c:325-342 | the result of poll changes the pending bits and nothing of the map |
| PollSet.FDSet.constructor | gwlib/fdset.c:363-391 | a new set is empty and settled |
| PollSet.FDSet.FindEntry | gwlib/fdset.c:264-277 | the first row with the descriptor; found exactly when the map has it |
| PollSet.FDSet.RemoveEntry | gwlib/fdset.c:279-290 | all four arrays move the last row into the hole |
| PollSet.FDSet.RemoveDeletedEntries | gwlib/fdset.c:292-305 | ends with no tombstone, the count at 0, and the same map |
| PollSet.FDSet.FdsetRegister | gwlib/fdset.c:420-463 | adds one entry to the map and one row to the table, growing the arrays when full |
| PollSet.FDSet.FdsetListen | gwlib/fdset.c:465-503 | event by event: those in the mask become as given, the others stay; of the pending ones, during a scan those in the mask and not given go, and no others; other rows stay |
| PollSet.FDSet.FdsetUnregister | gwlib/fdset.c:505-540 | takes one descriptor out of the map: swap removal outside a scan, a tombstone inside |
| PollSet.FDSet.Visit | gwlib/fdset.c:342-354 | the callback is made exactly when the row has pending events or its time plus the timeout is not after now, with the row's descriptor, events, callback and data; then rows and map are those its operations produce, and a row called for events is stamped |
| PollSet.FDSet.Scan | gwlib/fdset.c:342-358 | the calls made, the rows and the map are exactly those of the trace of the scan for these callbacks, clock and timeout |
| PollSet.FDSet.PollOnce | gwlib/fdset.c:313-360 | one round makes exactly the calls of the trace for what poll reported, and ends with the map those callbacks built and no tombstone |
| Connections.DecodeEncode | gwlib/conn.c:1024-1037 | a length below 2^31 survives encoding and decoding |
| Connections.EncodePositional | gwlib/conn.c:1024-1037 | the four bytes of a length in network order, most significant first |
| Connections.DecodePositional | gwlib/conn.c:1118-1159 | any four bytes are read in network order as a number in two's complement |
| Connections.NextFrame | gwlib/conn.c:1118-1159 | after k packets, the unread bytes begin with the length and then the contents of packet k |
| Connections.FramesSplit | gwlib/conn.c:1024-1037 | the frame stream of a list of packets is that of its two halves |
| Connections.Connection.WrapFd | gwlib/conn.c:526-585 | a new connection satisfies every invariant with empty streams |
| Connections.Connection.RegisterPollin | gwlib/conn.c:364-377 | flag and event bit change together; other descriptors keep theirs |
| Connections.Connection.RegisterPollout | gwlib/conn.c:384-397 | the same for output |
| Connections.Connection.UnlockedWrite | gwlib/conn.c:233-278 | after a partial write, sent bytes followed by the unsent ones are still all bytes written; polling for output exactly while something is unsent |
| Connections.Connection.TryWrite | gwlib/conn.c:282-300 | sends what write takes, unless nothing is unsent or less than the threshold; restores the polling rule; -1 exactly when an attempted write failed, otherwise 1 exactly while something is unsent |
| Connections.Connection.ConnWrite | gwlib/conn.c:1000-1010 | appends to the bytes written, sends exactly what write takes of everything unsent, and reports 0 exactly when all bytes written are sent |
| Connections.Connection.ConnWriteWithlen | gwlib/conn.c:1024-1037 | appends the length in four bytes, most significant first, and then the data, and sends exactly what write takes of everything unsent |
| Connections.Connection.SetOutputBuffering | gwlib/conn.c:689-696 | keeps the polling rule when the threshold changes |
| Connections.Connection.UnlockedRead | gwlib/conn.c:303-345 | consumed bytes followed by the unread ones are still all bytes received, through compaction; end of file or an error stops polling for input |
| Connections.Connection.UnlockedGet | gwlib/conn.c:348-357 | hands out the next bytes, each once |
| Connections.Connection.PollCallback | gwlib/conn.c:698-760 | any combination of events keeps flags, poll set and polling rule in agreement; exactly the bytes that write took and read gave are accounted for; the upper layer is called exactly for errors, input, or the last of the output gone |
| Connections.Connection.ConnRegister | gwlib/conn.c:762-816 | registers once, with exactly the event bits the rule asks for; refuses a second set and then changes nothing |
| Connections.Connection.ConnUnregister | gwlib/conn.c:818-852 | takes exactly this descriptor out of its set |
| Connections.Connection.ConnReadFixed | gwlib/conn.c:1059-1081 | either exactly that many bytes or NULL and nothing consumed, NULL exactly when they have not arrived |
| Connections.Connection.ConnReadWithlen | gwlib/conn.c:1118-1159 | returns the next packet exactly when its frame has arrived in full; NULL consumes nothing |
| Connections.Connection.ReadMany | gwlib/conn.c:1118-1159 | for every chunking of the stream, the results are the first packets written, in order, and enough calls return every packet that arrives in full |
| Connections.FramesPrefix | gwlib/conn.c:1024-1037 | a frame stream that begins like another is that of its first packets |
| Connections.WriteMany | gwlib/conn.c:1024-1037 | a run of writes, whatever write takes of each, has written exactly the frames of the packets in order |
| Connections.EndToEnd | gwlib/conn.c:1000-1159 | between two connections over a lossless stream, the packets taken out are a prefix of those written, and all of them once nothing is unsent, in flight or unread |
| Connections.Converse | gwlib/conn.c:1000-1159 | writing packets at one end and reading at the other, with any partial writes and any chunks, returns the first packets in order, and all of them when everything was sent and delivered |
| CheckedMemory.Fill | gwlib/gwmem-check.c:228-237 | writes the pattern over exactly the given bytes |
| CheckedMemory.Untouched | gwlib/gwmem-check.c:240-251 | true exactly when those bytes hold the pattern |
| CheckedMemory.PatternAt | gwlib/gwmem-check.c:228-237 | a pattern is the bytes of a long, lowest first, repeated every eight |
| CheckedMemory.RoundPow2 | gwlib/gwmem-check.c:207-225 | the least power of two from 16 on that covers the number, and it covers the number if and only if that is at most 2^32 - 1 |
| CheckedMemory.DecodeStamp | gwlib/gwmem-check.c:262-283 | an index written into a marker is read back |
| CheckedMemory.LiveRowsDistinct | gwlib/gwmem-check.c:417-498 | table rows are distinct blocks, ring rows are distinct blocks, and no block is in both |
| CheckedMemory.RemoveKeeps | gwlib/gwmem-check.c:450-459 | after swap removal every row's block still carries its own index in an intact marker |
| CheckedMemory.RecordKeeps | gwlib/gwmem-check.c:417-448 | a new last row keeps all others |
| CheckedMemory.RingReplaceKeeps | gwlib/gwmem-check.c:474-491 | a full ring swaps its oldest block for the new one and keeps all others |
| CheckedMemory.FreeKeepsSound | gwlib/gwmem-check.c:493-498 | freeing a block keeps table, ring, markers, byte total and release order, and the bytes of every other live block |
| CheckedMemory.AdoptKeepsSound | gwlib/gwmem-check.c:513-534 | so does adding one |
| CheckedMemory.ResizeKeepsSound | gwlib/gwmem-check.c:536-592 | so does resizing one inside its block, which keeps the bytes both sizes share |
| CheckedMemory.FifoFree | gwlib/gwmem-check.c:474-491 | the ring releases blocks in the order in which they were freed |
| CheckedMemory.ReleasedOnTime | gwlib/gwmem-check.c:461-491 | the k-th freed block is released exactly at the (k + 1024)-th free |
| CheckedMemory.EmptyRingSound | gwlib/gwmem-check.c:652-669 | emptying the ring leaves every live block in place |
| CheckedMemory.Allocator.MarkStart | gwlib/gwmem-check.c:262-270 | writes the start marker inside the block |
| CheckedMemory.Allocator.MarkEnd | gwlib/gwmem-check.c:254-257 | writes the end marker right behind the area |
| CheckedMemory.Allocator.CheckStartmark | gwlib/gwmem-check.c:275-283 | gives an index exactly when the marker is the start marker of that index |
| CheckedMemory.Allocator.CheckMarks | gwlib/gwmem-check.c:292-306 | intact exactly when both markers are what they should be |
| CheckedMemory.Allocator.LinearSearch | gwlib/gwmem-check.c:396-408 | finds a block's own row, exactly when it is live |
| CheckedMemory.Allocator.FindArea | gwlib/gwmem-check.c:357-408 | always answers from the marker, and answers what the linear search would |
| CheckedMemory.Allocator.RecordAllocation | gwlib/gwmem-check.c:417-448 | appends the row, writes both markers, adds to the total |
| CheckedMemory.Allocator.RemoveAllocation | gwlib/gwmem-check.c:450-459 | the last row moves into the hole and its block is restamped |
| CheckedMemory.Allocator.DropFromFreeRing | gwlib/gwmem-check.c:461-472 | releases exactly that block; it looks intact exactly when both markers and the fill pattern are untouched |
| CheckedMemory.Allocator.PutOnFreeRing | gwlib/gwmem-check.c:474-491 | the ring grows up to 1024 and then replaces its oldest entry |
| CheckedMemory.Allocator.Malloc | gwlib/gwmem-check.c:513-534 | panics exactly when the table is full; otherwise a new live block and all others untouched |
| CheckedMemory.Allocator.ClientWrite | gwlib/gwmem-check.c:513-534 | a client that stays inside its area breaks nothing |
| CheckedMemory.Allocator.Free | gwlib/gwmem-check.c:594-612 | NULL changes nothing; panics exactly when another pointer is not live; otherwise only that block stops being live |
| CheckedMemory.Allocator.Realloc | gwlib/gwmem-check.c:536-592 | NULL gives a new block; in place or moved, the first min(old, new) bytes survive, the new bytes of a moved block hold the fill pattern, every other live block survives, and both markers stay inside the raw block |
| CheckedMemory.Allocator.CheckLeaks | gwlib/gwmem-check.c:652-684 | the sum of live sizes is the running total, so the assertion cannot fail, and no quarantined block looks tampered with |
| PrioQueues.RootIsMaximum | gwlib/gw-prioqueue.c:115-148 | in a heap every item is at or below slot 1 |
| PrioQueues.Ascend | gwlib/gw-prioqueue.c:115-123 | a round of upheap ends in a heap or moves the one misplaced item a level up |
| PrioQueues.Descend | gwlib/gw-prioqueue.c:131-148 | a round of downheap ends in a heap or moves the item to a live child, never to the slot past the end |
| PrioQueues.BiggerChild | gwlib/gw-prioqueue.c:131-148 | the child chosen tops its sibling even when it is read from the slot past the end |
| PrioQueues.LiftedItems | gwlib/gw-prioqueue.c:235-252 | taking the root out removes one maximum and keeps all other items |
| PrioQueues.DrainStep | gwlib/gw-prioqueue.c:272-294 | the items drained so far stay in non-increasing order and above all that is left |
| PrioQueues.PrioQueue.MakeBigger | gwlib/gw-prioqueue.c:97-107 | there is room and the items are as they were |
| PrioQueues.PrioQueue.UpHeap | gwlib/gw-prioqueue.c:115-123 | heap order restored, same items |
| PrioQueues.PrioQueue.DownHeap | gwlib/gw-prioqueue.c:131-148 | heap order restored, same items, given that the slot past the end holds the item being sifted |
| PrioQueues.PrioQueue.Insert | gwlib/gw-prioqueue.c:207-219 | exactly one item more |
| PrioQueues.PrioQueue.Remove | gwlib/gw-prioqueue.c:235-252 | NULL exactly when empty; otherwise a maximum, and exactly one item less |
| PrioQueues.PrioQueue.Drain | gwlib/gw-prioqueue.c:272-294 | every item once, in non-increasing order |
| SmscDirectory.DuplicateId | smpp-smsc/smsc.c:517-529 | finds a repeated SMSC id exactly when there is one |
| SmscDirectory.Receiver.UpdateSmscList | smpp-esme/esme.c:1008-1026 | the first entry of that id takes the status; ids and order stay |
| SmscDirectory.Receiver.HandleRequest | smpp-esme/smpp_esme.c:2465-2500 | the count starts a new list, that many entries fill it, later entries only update it |
| SmscDirectory.UpdatedAt | smpp-esme/esme.c:1008-1026 | an update changes one entry, that of the first match |
| SmscDirectory.StepKeeps | smpp-smsc/smsc.c:579-702 | every step of either process keeps the copy a prefix of the list, now and after every message in flight |
| SmscDirectory.RunKeeps | smpp-smsc/smsc.c:579-702 | hence in every reachable state, across re-initialisation, in-place restart and a restart of the ESME process |
| SmscDirectory.PositionsAgree | smpp-smsc/smsc.c:738-743 | every position in flight denotes, when it is looked up, the SMSC it was computed for |
| SmscDirectory.SameIdsKeeps | smpp-smsc/smsc.c:902-969 | deleting and inserting a restarted SMSC leaves the ids in place |
| SmscDirectory.BatchCompletes | smpp-smsc/smsc.c:579-636 | a batch delivered without interruption makes the copy the whole list, every id, type, status and mode, whatever it was before |
| SmscDirectory.StreamAlignedIff | smpp-smsc/smsc.c:579-702 | whatever mixture of batch and periodic entries arrives in the middle of a batch, the copy stays aligned if and only if the entries that fill it are the ones expected, in order |
| SmscDirectory.WholeRoundIff | smpp-smsc/smsc.c:664-688 | a whole periodic round inside a batch leaves the copy aligned if and only if it comes right after the count |
| SmscDirectory.InterruptedIff | smpp-smsc/smsc.c:638-702 | with distinct ids, one stray entry inside a batch leaves the copy aligned through the rest of the batch if and only if it repeats the very last entry |
| SmscDirectory.InterruptedBatch | smpp-smsc/smsc.c:638-702 | with two SMSCs, one such entry leaves the same SMSC in the copy twice |
| EsmeRegistry.Pigeonhole | smpp-esme/esme.c:625-698 | a list that contains 1 to n has at least n entries |
| EsmeRegistry.AllocateSessionId | smpp-esme/esme.c:625-698 | the least positive id not in use, if and only if the list does not hold both 1 and something below 1 |
| EsmeRegistry.BindKeeps | smpp-esme/esme.c:773-960 | a successful bind keeps account names unique, session ids unique and positive per list, a session for every account, and non-negative caps |
| EsmeRegistry.DestroyKeeps | smpp-esme/esme.c:142-262 | so does destroying a session |
| EsmeRegistry.GoodRemove | smpp-esme/esme.c:175-240 | destroying a session leaves exactly the other sessions |
| EsmeRegistry.RunKeeps | smpp-esme/esme.c:142-960 | hence over every run of binds and destroys, starting from no account |
| EsmeRegistry.ModeFourIff | smpp-esme/esme.c:717-960 | a bind of mode 4 leaves every account with a session if and only if the account was there already |
| EsmeRegistry.ModeFourExample | smpp-esme/esme.c:717-960 | such a bind, accepted, creates an account without a session |
| EsmeRegistry.VerdictIff | smpp-esme/esme.c:717-786 | exactly when a bind is accepted, and exactly when each of the seven reasons is given, in terms of mode, name, password, allowed mode, date and cap |
| EsmeRegistry.BindAdds | smpp-esme/esme.c:788-957 | an accepted bind adds one session of its mode, with the least free id, to the list of its kind of one account, which is new if there was none, and touches nothing else |
| EsmeRegistry.DestroyTakes | smpp-esme/esme.c:176-258 | a destroyed session leaves its own list, an account left without sessions goes, and nothing else changes |
| EsmeRegistry.FindUsername | smpp-esme/config.c:521-534 | the first client of that name |
| EsmeRegistry.Registry.IsPresentEsme | smpp-esme/esme.c:583-603 | the account's position, or -1 exactly when it is absent |
| EsmeRegistry.Registry.AuthoriseUser | smpp-esme/esme.c:699-960 | the verdict, with an unchanged list when it refuses and exactly the bound list when it is 0 |
| EsmeRegistry.Registry.EsmeDestroy | smpp-esme/esme.c:142-262 | that session is gone, and the account with its last one |
| Routing.VerifyConfigPara | smpp-esme/config.c:420-519 | accepts exactly the configurations with unique account names in which no SMSC is both dedicated and preferred |
| Routing.ExactlyOnceIff | smpp-esme/esme.c:1395-1494 | preferred followed by allowed lists every capable SMSC exactly once if and only if no id with a capable SMSC is asked for twice and none is found above position 127 |
| Routing.AcceptedOnce | smpp-esme/config.c:498-514 | so it does for an accepted configuration with a duplicate-free preferred list and at most 128 SMSCs |
| Routing.RepeatedPreference | smpp-esme/esme.c:1419-1449 | an accepted configuration that names an SMSC twice lists it twice |
| Routing.FarPreference | smpp-esme/esme.c:1453-1474 | with distinct ids, an SMSC preferred at position 128 is listed twice |
| Routing.DistinctIff | smpp-esme/esme.c:1395-1449 | a position is preferred twice exactly when an id with a capable SMSC is asked for twice |
| Routing.DedicatedFirst | smpp-esme/esme.c:1395-1415 | the dedicated SMSC, if capable, is the first position, and the preferred ones follow |
| Routing.ChosenInOrder | smpp-esme/esme.c:1419-1449 | positions come in the order in which their ids are asked for |
| Routing.CapableIff | smpp-esme/esme.c:1432-1437 | capable means of the number's type or of type all, and of mode 1 or 3 |
| Routing.RoutableIff | smpp-esme/esme.c:1536-1552 | there is a position exactly when some SMSC is capable |
| Routing.RoutesDenote | smpp-smsc/smsc.c:738-785 | in every reachable state of the directory protocol each routed position denotes the same SMSC in the other process |
| Routing.AlreadyPreferred | smpp-esme/esme.c:1458-1474 | reading one slot past the preferred positions finds a position exactly when it is preferred and below 128 |
| Routing.FillPreferred | smpp-esme/esme.c:1395-1449 | the preferred buffer holds the dedicated and then the preferred positions, and -1 behind them |
| Routing.FillAllowed | smpp-esme/esme.c:1453-1490 | the allowed buffer holds every other capable position in increasing order |
| Routing.RoutPdu | smpp-esme/esme.c:1327-1552 | 0 exactly for a known account and some capable SMSC, and then the emitted octets are the routes |
| Submission.SentIff | smpp-esme/smpp_esme.c:675-822 | status 0 exactly for the submits counted as sent; every other one is counted as rejected |
| Submission.StatusIff | smpp-esme/smpp_esme.c:694-803 | exactly when a submit is accepted, in terms of program, connection, queues, quotas, hours, verification and route; and which code is given when several reasons hold |
| Submission.ReceiverRefuses | smpp-esme/smpp_esme.c:677-688 | on a receiving session every submit gets 0x400, a record of each kind, and nothing else |
| Submission.ChargedIff | smpp-esme/smpp_esme.c:694-763 | a submit is charged exactly when it got as far as the quotas and fits |
| Submission.RefreshMeans | smpp-esme/esme.c:1128-1153 | 0 or 1 make a session unconnected, 2 makes an unconnected one bound with nothing charged, and nothing else changes |
| Submission.RunBalances | smpp-esme/smpp_esme.c:823-876 | over every run each session has received what it sent plus what it rejected, there is one smpp_esme record per submit, and the MIS records are exactly the rejected ones |
| Submission.BoundQuota | smpp-esme/smpp_esme.c:751-763 | at most max_submits submits of a session are accepted while it is bound, whatever other sessions come and go |
| Submission.UnconnectedQuota | smpp-esme/smpp_esme.c:737-749 | while no SMSC is connected, all sessions of an account together get at most max_submits_unconnect accepted, less what is charged already |
| Submission.UnconnectedQuotaReached | smpp-esme/smpp_esme.c:737-749 | and exactly that many, when nothing else refuses them |
| Submission.UnconnectedRefusedIff | smpp-esme/smpp_esme.c:737-749 | with every other gate open a submit is refused if and only if the total charged to the account has reached the limit |
| Submission.SubmitCharges | smpp-esme/smpp_esme.c:737-763 | every submit past the first five gates is charged to that total, bound or not |
| Submission.BoundUsesUpQuota | smpp-esme/smpp_esme.c:737-763 | with a limit of one, a message accepted while bound makes the first unconnected one refused |
| Submission.RateInvariant | smpp-esme/smpp_esme.c:629-665 | msg_count stays at or below max_tps + 1, and what was accepted in any interval fits the windows opened so far |
| Submission.RateBound | smpp-esme/smpp_esme.c:629-665 | in the seconds a to b at most (b - a + 2) * (max_tps + 1) messages are accepted |
| Submission.WindowsIncrease | smpp-esme/smpp_esme.c:651-665 | windows open in strictly increasing seconds |
| Submission.IsSmscPresent | smpp-esme/esme.c:1044-1075 | 2 exactly when a transmitting SMSC is connected, 0 exactly when there is none |
| Submission.EsmeAccount.constructor | smpp-esme/esme.c:829-830 | the rate window opens empty at the time of the bind |
| Submission.EsmeAccount.MaxSubmitsUnctAccount | smpp-esme/esme.c:2927-2946 | the sum over the account's transmitting sessions |
| Submission.EsmeAccount.UpdateEsmeConn | smpp-esme/esme.c:1111-1159 | every session becomes unconnected, or every unconnected one bound with its count at 0 |
| Submission.EsmeAccount.Decide | smpp-esme/smpp_esme.c:693-821 | the status is that of the first closed gate, and exactly one of sent and rejected goes up |
| Submission.EsmeAccount.HandleSubmitSm | smpp-esme/smpp_esme.c:604-877 | the whole new state of the account, field by field: rate window, session counters, records and forwarded messages |
| Configuration.ParseValue | gwlib/cfg.c:319-363 | blanks stripped, quotes removed, escapes undone; anything not in quotes unchanged |
| Configuration.UnescapeLoop | gwlib/cfg.c:337-360 | the loop undoes exactly the escapes |
| Configuration.ValueQuote | gwlib/cfg.c:319-363 | every string survives quoting with backslash and double quote escaped, with any blanks around it |
| Configuration.ValueUnquoted | gwlib/cfg.c:325-330 | text not in quotes stands for itself, without the blanks around it |
| Configuration.UnescapeKeeps | gwlib/cfg.c:345-358 | a backslash before anything but a backslash or a quote stands for itself |
| Configuration.AssignmentIs | gwlib/cfg.c:468-578 | a written setting is read as its name and value, unless the word include is anywhere in it: then it is a directive for that value |
| Configuration.IncludeInValue | gwlib/cfg.c:480-482 | a setting whose value is the word include is taken for a directive |
| Configuration.NoEqualsIff | gwlib/cfg.c:460-474 | exactly which lines are blank, comments, or errors for want of an equals sign |
| Configuration.MentionsIff | gwlib/cfg.c:480 | a word is found exactly where it stands |
| Configuration.ExpandFile | gwlib/cfg.c:366-426 | the logical lines of a file, numbered, with a newline behind them, in order or reversed |
| Configuration.JoinUnsplit | gwlib/cfg.c:395-406 | breaking a line with backslashes at any places is undone |
| Configuration.JoinDoubled | gwlib/cfg.c:395-402 | two backslashes at the end of a line leave one and end it |
| Configuration.SpliceAppend | gwlib/cfg.c:460-585 | the splice of a list is the splice of its halves, the second with the names the first has entered |
| Configuration.WorkListStep | gwlib/cfg.c:484-559 | putting the included lines in front of the work list leaves everything still to be processed unchanged |
| Configuration.ListDirectory | gwlib/cfg.c:508-529 | the plain files of a directory in reverse readdir order |
| Configuration.ItemsInOrder | gwlib/cfg.c:508-529 | the files of a directory are in readdir order |
| Configuration.TextInOrder | gwlib/cfg.c:537-559 | the lines of files come in the order of the files |
| Configuration.IncludeFiles | gwlib/cfg.c:537-559 | the two reversals cancel: the files' lines end up in front in readdir order, and every file is on the stack; fails exactly when a file cannot be read |
| Configuration.Follow | gwlib/cfg.c:484-563 | panics exactly for a name already entered or an unreadable file |
| Configuration.CfgRead | gwlib/cfg.c:429-602 | for every file system on which it ends, the groups, error or panic of its loop, and those of reading the depth-first splice line by line wherever directories nest in a well-founded way; and any list of groups written as settings and comments is read back as exactly those groups, in order |
| Configuration.DocumentReadBack | gwlib/cfg.c:460-585 | groups written as settings and comments, with a blank line behind each, are read back in order |
| Configuration.LastGroupReadBack | gwlib/cfg.c:408-420 | the last group needs no blank line |
| Configuration.LastSettingWins | gwlib/cfg.c:563-580 | in a group a name has the value of its last setting |
| Configuration.MissingEquals | gwlib/cfg.c:468-474 | the first line without an equals sign stops the reader with its number, after the groups before it |
| Configuration.RefusedGroup | gwlib/cfg.c:462-467 | the first group that add_group refuses stops the reader with the number of the line behind it |
| Configuration.LoopReadsSplice | gwlib/cfg.c:460-585 | from any point of the loop on, it ends within the length of the splice, in the state that reading the splice gives |
| Configuration.RankedEnds | gwlib/cfg.c:460-585 | where directory includes are nested in a well-founded way the reader ends |
| Configuration.PlainFilesEnd | gwlib/cfg.c:480-482 | as long as no line of a file includes a directory the reader ends |
| Configuration.DirectoryLoops | gwlib/cfg.c:505-555 | once only lines that can be read again and again stand between the reader and a circular visit it never stops: no error, no panic, always another line, whatever add_group refuses |
| Configuration.LoopsIff | gwlib/cfg.c:460-585 | for every file system and every add_group, the reader does not end if and only if at some round it is in that position |
| Configuration.EndlessRepeats | gwlib/cfg.c:484-559 | an endless run comes to include nothing but directories, because the stack is finite |
| Configuration.CircularNotRanked | gwlib/cfg.c:505-555 | circular visits, in a cycle of any length, cannot be ranked |
| Configuration.SelfIncludingLoops | gwlib/cfg.c:505-555 | a main file that includes a directory whose one file includes it again is read for ever, whatever add_group refuses |
| Configuration.PanicsInstead | gwlib/cfg.c:484-489 | a file that includes an empty plain file and then its own directory makes the reader panic on its second pass |
| Configuration.DirectoryLoopExample | gwlib/cfg.c:480-490 | such a line exists |
| Dates.CountIs | gwlib/date.c:135-162 | the formula is the day-by-day Gregorian count |
| Dates.CivilCount | gwlib/date.c:135-162 | every valid day from 1970 on is reached by counting the computed number of days |
| Dates.ConvertGmtime | gwlib/date.c:135-162 | the conversion inverts gmtime for every time from 1970 on |
| Dates.GmtimeConvert | gwlib/date.c:135-162 | and gmtime inverts the conversion for every valid time |
| Dates.ConvertIncreases | gwlib/date.c:135-162 | strictly increasing in the fields |
| Dates.HttpRoundTrip | gwlib/date.c:106-233 | parsing the HTTP date printed for t gives t, in the years to 9999 |
| Dates.HttpShows | gwlib/date.c:106-133 | every field and separator of the HTTP form is where it should be, months by name |
| Dates.WeekdayShown | gwlib/date.c:106-133 | the weekday shown: Thursday on 1 January 1970 and in turn from there |
| Dates.Rfc2616Parsed | gwlib/date.c:164-242 | the three examples of section 3.3.1 of RFC 2616 are read as the same second |
| Dates.Rfc2616Printed | gwlib/date.c:106-303 | and the first of them, and its ISO form, are printed for it |
| Dates.Parse1123 | gwlib/date.c:176-192 | the RFC 1123 form of section 3.3.1 of RFC 2616 is read as the time it shows, whatever the day name |
| Dates.Parse850 | gwlib/date.c:193-210 | the RFC 850 form likewise with the year moved into 1961 to 2060, right exactly up to 2060 |
| Dates.ParseAsctime | gwlib/date.c:211-224 | the asctime form likewise, with one-digit days after a blank |
| Dates.FindMonth | gwlib/date.c:226-231 | the month of that name, or 12 exactly when there is none |
| Dates.DateParseHttp | gwlib/date.c:164-242 | the value of the date string by form and field, -1 when a field is missing or misplaced |
| Dates.IsoRoundTrip | gwlib/date.c:244-303 | parsing the ISO date printed for t gives t |
| Dates.IsoYearAlone | gwlib/date.c:249-261 | a year alone, with its two windows, and the defaults for all that is missing |
| Dates.IsoYearAndMonth | gwlib/date.c:263-270 | months are counted from 0, and a month of 00 is January |
| Dates.IsoTime.DateParseIso | gwlib/date.c:244-293 | -1 exactly without a year; otherwise the fields found, defaults for the others |
| Dictionary.Conserved | gwlib/dict.c:137-332 | in every run every value put in is stored, was handed back, or was let go, each time exactly once |
| Dictionary.OneBucket | gwlib/dict.c:137-140 | when one key changes only its own bucket need change |
| Dictionary.SearchAnswers | gwlib/dict.c:286-304 | searching the key's bucket answers for the whole map, for any hash function |
| Dictionary.Extracted | gwlib/dict.c:315-332 | at most one item matches a key, and removing it is removing the key from the map |
| Dictionary.FlatLists | gwlib/dict.c:347-367 | going through the buckets lists every key once with its value |
| Dictionary.Dict.constructor | gwlib/dict.c:192-212 | a new table is the empty map |
| Dictionary.Dict.DictPut | gwlib/dict.c:240-269 | the map with the new value, or without the key for NULL; the value that was there, if any, is destroyed |
| Dictionary.Dict.DictPutOnce | gwlib/dict.c:271-284 | a key already there keeps its value, the new one is destroyed and 0 returned; otherwise as put |
| Dictionary.Dict.DictGet | gwlib/dict.c:286-304 | the map's value |
| Dictionary.Dict.DictRemove | gwlib/dict.c:307-332 | the value handed back and the key gone; the assertion at line 320 holds |
| Dictionary.Dict.DictKeys | gwlib/dict.c:347-367 | each key once, as many as the key count |
| Dictionary.Dict.DictKeyCount | gwlib/dict.c:335-344 | the size of the map |
| Dictionary.Dict.DictDestroy | gwlib/dict.c:215-237 | every stored value is destroyed exactly once and the table is left without items |

## Left out

- Databases, HTTP administration, logging, DND checks: SQL text, user interface and external commands.
- SSL, sockets, threads and locks: a locked section is one step, what read, write and poll return is an argument.
- `authorise_user` and `handle_submit_sm` are atomic steps; the C code drops the list lock between check and update.
- Sources of octet strings, lists, SMPP packets and `smscconn` are not part of this model: sequences stand for lists,
  and the few operations used are modelled by their known contracts (for numbers, those of strtol).
- The poll set and the allocator keep their tables as sequences that the methods reassign, not as arrays: aliasing
  between those tables is not captured. Sessions and accounts are values in lists; aliasing of ESME structures is not
  captured.
- PollSet.FDSet.FdsetRegister: requires a non-negative descriptor that is not registered, as its callers ensure.
- PollSet.FDSet.FdsetListen: requires a non-negative descriptor; fdset.h asks for a registered one.
- PollSet.FDSet.FdsetUnregister: requires a non-negative descriptor, since -1 would find a tombstone.
- PollSet.FDSet.Scan: requires that the clock does not run backwards during a scan; a callback that registered rows
  already too old could prolong it for ever.
- Connections.Connection.ConnReadWithlen: requires a stream of frames with lengths below 2^31; a negative length word
  is skipped in the C code and a stale one can survive its retry loop.
- Connections.Connection.ConnRegister: for a plain socket with a descriptor of its own, with operations on the set made
  on the poll thread; how the poll thread is woken up is not modelled.
- Allocator fields `reallocator` and `claimer`, and failure of the system's own malloc, are not modelled.
- CheckedMemory.Allocator.FindArea: a pointer outside any block can be looked up in slow mode or when it is one of the
  fill patterns; otherwise the C code reads memory that is not there.
- CheckedMemory.Allocator.Free: the same.
- CheckedMemory.Allocator.Realloc: the same; and a block that must move needs size + 32 <= 2^32 - 1, beyond which the
  rounded size does not cover it.
- PrioQueues.PrioQueue.Drain: stands for consuming until the queue is empty; waiting for producers is not modelled.
- SmscDirectory.RunKeeps: an initial batch is not interleaved with periodic entries (StreamAlignedIff says what happens
  otherwise), and the channel loses nothing; waiting for `bind_sent` is not modelled.
- The load-based choice among allowed SMSCs and the message counters of `smsc2_rout`: only the position lookups are
  modelled.
- EsmeRegistry.Registry.EsmeDestroy: requires the session to exist, since the C code reads the session it found.
- EsmeRegistry.Registry.AuthoriseUser: the date check enters by its result; client addresses, logs and NULL arguments
  are not modelled.
- Routing.RoutPdu: the type of the number is an argument, and the 256-entry buffers must not overflow.
- Submission.RateBound: needs a clock that does not run backwards and a sleep that is not cut short.
- Submission.RunBalances: a run is one lifetime of an account, which ends when its last session does.
- The message-id text and the packet contents of submit records: only status and count are modelled.
- Configuration.CfgRead: requires that the reader ends on the given files, as LoopsIff characterises; add_group enters as
  the set of groups it refuses; an include of a missing name is taken for a plain file.
- Dates.HttpRoundTrip: years beyond 9999 overflow the buffer of date_format_http.
- Dates.IsoRoundTrip: years that fit the year field of struct tm.
- gmtime is modelled as counting days from 1 January 1970; leap seconds do not exist in it.
- Widths of counters (int, long) outside the allocator and the routing buffers: numbers are unbounded.

# Proofs about the app's networking core

This project models the parts of the repository where bytes, events, names, requests and tokens are kept straight, and
proves what they are for: the vendored libevent under `mobile/ios/Pods/libevent/`, and the token refresh of the app in
`mobile/src/api/client.ts`. `dafny verify dfyconfig.toml` checks all of it.

Code that works step by step on records is modelled by classes with those fields and by methods with the same branches and
loops. Each of them is proved against a function or predicate on values, and the promises are proved about these.

| files | what they are about |
|---|---|
| `Machine`, `Lists` | integers of the machine, missing results, lists without repetitions |
| `Pieces`, `Chain`, `EvBuffer` | an evbuffer as a linked list of chunks, and its meaning: one flat sequence of bytes |
| `BufferEnds`, `BufferMoves`, `BufferSpace`, `BufferReserve`, `BufferSearch` | the operations on evbuffers |
| `DnsNameParse`, `DnsNameWrite`, `DnsNameEncode`, `DnsMessage` | names in DNS messages, section 4.1.4 of RFC 1035 |
| `EpollTable`, `EvMap` | registered events of each fd, the list of changes, and the epoll table |
| `GetAddrInfo` | the joined A and AAAA lookup, its timer and its cancellation |
| `Rings`, `DnsRequests` | requests in flight and waiting, nameservers up and down |
| `TimeVals`, `Events` | queues, flags and timers of an event base |
| `TokenBuckets`, `BufferEvents` | the rate limiter, and when reading and writing are suspended |
| `TagCodec`, `Tagging` | tagged records on evbuffers |
| `TokenRefresh` | one refresh at a time, and those who wait for it |

What is said of "every reachable state" or "every run" rests on a predicate `Valid` that the constructor establishes and every
method keeps. A method that a lock protects is one atomic step; where the lock is dropped, and at each `await`, steps interleave.

## What is not as documented

Where code and documentation disagree, or a promise does not hold everywhere, the model follows the code and the exact
condition is proved.

- evbuffer_reserve_space with one vector may offer room that evbuffer_commit_space then refuses: when the chunk behind
  the designated one was taken and there is another behind it (`BufferReserve.ReserveSpace`, `BufferReserve.StrandedExample`).
- The writer of names puts the zero behind the last label without looking at the room there is. A server's response, whose
  buffer is no longer than that room, can so be written one byte past its end (`DnsMessage.ResponseOverrun`); the exact
  condition is `DnsNameWrite.WriteExceeds`.
- A compressed name can read as another in messages of more than 2^14 + 2 bytes, as pointers are cut to 14 bits
  (`DnsNameWrite.PointerReach`, `DnsMessage.RoundTripExact`). The library itself writes none of that size: the one caller with
  a label table has 1500 bytes and sends at most 512 of them, and each name that is sent whole comes back
  (`DnsMessage.ResponseRoundTrips`).
- A token bucket that was refilled by hand above its maximum can become negative by the next update
  (`TokenBuckets.RefilledExact`); nothing suspends reading then (`BufferEvents.OverfilledWraps`). As long as nothing is given
  back all is well (`BufferEvents.RunCalls`).
- Setting a configuration keeps the number of the last tick. The ticks after that are counted right if and only if the new
  configuration gives that tick the same number (`BufferEvents.TicksCountedAlike`); with a longer tick, refills can stop for a
  long time (`BufferEvents.RefillsStop`).
- The comment at `event_tagging.c:80-93` gives another order of bytes and nibbles than the code; they agree on just those tags and
  integers that read the same in both directions (`TagCodec.TagsAreLowFirst`, `TagCodec.DigitsAreLowFirst`).
- evtag_peek_length and evtag_consume disagree on payloads past INT_MAX that are not the last thing in the buffer
  (`TagCodec.PeekedIsConsumed`, `Tagging.PeekDisagrees`).
- A request that is refused while a failed refresh clears the tokens is not settled by that refresh, and by no other unless
  another one is started (`TokenRefresh.StrandedIfLate`). A new token is handed out also when it is not the one that is read next,
  which depends on the key chain (`TokenRefresh.KeyChain.SaveTokens`, `TokenRefresh.Client.Saved`); and the old ones stay when
  the key chain cannot be reset (`TokenRefresh.Client.Cleared`).

## Model

| member | source | states |
|---|---|---|
| `EvBuffers.EvBuffer.constructor` | mobile/ios/Pods/libevent/buffer.c:361-375 | a new buffer is empty and keeps the heap invariant |
| `EvBuffers.EvBuffer.RunCallbacks` | mobile/ios/Pods/libevent/buffer.c:455-511 | the callbacks get the length the buffer had when the counts were last cleared, and how much was added and deleted since; the counts always explain the length, also when deferred callbacks leave them standing |
| `BufferEnds.FindTrailingEmpty` | mobile/ios/Pods/libevent/buffer.c:284-304 | what is freed is exactly the run of empty chunks behind the last one with data, and the place found is where the list must be cut |
| `BufferEnds.ChainInsert` | mobile/ios/Pods/libevent/buffer.c:308-327 | a chunk put at the end takes the place of the empty chunks there, adds its bytes to the end of the contents, and leaves the designated chunk the last one with data |
| `BufferEnds.Add` | mobile/ios/Pods/libevent/buffer.c:1729-1824 | the contents grow by exactly the data, however it is split over the old last chunk, a realigned one or a new one; it is refused, and nothing changes, when the end is frozen or the length would not fit a size_t |
| `BufferEnds.Prepend` | mobile/ios/Pods/libevent/buffer.c:1826-1910 | the contents grow at the front by the data; where a chunk for the rest is refused, the part that already went into the gap stays |
| `BufferEnds.Drain` | mobile/ios/Pods/libevent/buffer.c:1100-1166 | the first len bytes go, or all there are; refused only for a non-empty buffer with a frozen start |
| `BufferEnds.WalkTo` | mobile/ios/Pods/libevent/buffer.c:1126-1150 | the chunk a byte number is in is found, and last_with_datap does not point into a chunk that is about to be freed |
| `BufferEnds.CopyOutFrom` | mobile/ios/Pods/libevent/buffer.c:1189-1254 | the bytes from any place on are copied across chunks, the rest of the target is untouched, and every error case changes nothing |
| `BufferEnds.Remove` | mobile/ios/Pods/libevent/buffer.c:1169-1181 | what is copied out is what is taken out, at the front, up to the length there is |
| `BufferMoves.AddBuffer` | mobile/ios/Pods/libevent/buffer.c:965-1009 | all bytes move to the end of the other buffer by relinking chunks; the counts of both say so; the chunks never belong to both |
| `BufferMoves.PrependBuffer` | mobile/ios/Pods/libevent/buffer.c:1054-1098 | all bytes move to the front of the other buffer |
| `BufferMoves.AdvanceLastWithData` | mobile/ios/Pods/libevent/buffer.c:703-721 | the designated chunk moves on to the last one with data behind it, and the result is how far |
| `BufferMoves.RemoveBuffer` | mobile/ios/Pods/libevent/buffer.c:1259-1347 | exactly the first datlen bytes move to the end of the other buffer, whole chunks by relinking and the rest by copying; the result is how many |
| `BufferSpace.Pullup` | mobile/ios/Pods/libevent/buffer.c:1349-1461 | the contents stay, and the first chunk then holds at least the first size bytes of them, also when the last chunk with data was taken in and freed |
| `BufferSpace.ExpandSinglechain` | mobile/ios/Pods/libevent/buffer.c:1938-2046 | the contents stay, and the chunk returned has the room that was asked for; which chunk that is is said exactly |
| `BufferSpace.ExpandFast` | mobile/ios/Pods/libevent/buffer.c:2050-2158 | the contents stay, and at most n chunks from the first with space on together have the room |
| `BufferSpace.CountRoom` | mobile/ios/Pods/libevent/buffer.c:2070-2096 | the room counted is that of the chunks passed, and the loop stops as soon as it is enough or n chunks are used |
| `BufferReserve.ReadSetupVecs` | mobile/ios/Pods/libevent/buffer.c:2224-2260 | the vectors lie over the spare room of successive chunks, all of it unless exact, and there are no more than it takes for what was asked for, or exactly as much if exact |
| `BufferReserve.ReserveSpace` | mobile/ios/Pods/libevent/buffer.c:670-701 | the vectors offer room for size bytes, and all the room of their chunks, without changing the contents; they can be committed if and only if it was not a single vector over a chunk that evbuffer_commit_space does not look at |
| `BufferReserve.StrandedExample` | mobile/ios/Pods/libevent/buffer.c:670-760 | a run on a new buffer: three chunks, 100 bytes reserved in one vector, and a commit of them that is refused |
| `BufferReserve.CommitSpace` | mobile/ios/Pods/libevent/buffer.c:723-791 | vectors that fit add exactly the bytes written into them to the contents, in order; others are refused and nothing changes |
| `BufferReserve.CommitEither` | mobile/ios/Pods/libevent/buffer.c:731-760 | a single vector is looked for in the last chunk and in the first with space; anything else is refused |
| `BufferSearch.FindEolChar` | mobile/ios/Pods/libevent/buffer.c:1495-1520 | looking in strips of 128 bytes finds the first CR or LF |
| `BufferSearch.PtrSet` | mobile/ios/Pods/libevent/buffer.c:2622-2672 | the place set is the one with that number, in a chunk that has a byte there or at the end; not found exactly when it is past the end |
| `BufferSearch.PtrAdd` | mobile/ios/Pods/libevent/buffer.c:2637-2671 | moving a place on adds up; a place that was not found stays as it is |
| `BufferSearch.PtrMemcmp` | mobile/ios/Pods/libevent/buffer.c:2678-2712 | comparing across chunks gives 0 if and only if the bytes of the flat contents are those, otherwise the sign of the first difference, and -1 if there are too few |
| `BufferSearch.SearchRange` | mobile/ios/Pods/libevent/buffer.c:2720-2782 | the result is the least place from start on where the bytes match, for any split into chunks; with an end, only if that match ends before it, and then no match does |
| `BufferSearch.NoneInTime` | mobile/ios/Pods/libevent/buffer.c:2755-2765 | giving up at the first match that ends too late loses none that ends in time |
| `BufferSearch.StrSpn` | mobile/ios/Pods/libevent/buffer.c:1544-1581 | the count is the length of the run of wanted bytes in the flat contents |
| `BufferSearch.SearchEol` | mobile/ios/Pods/libevent/buffer.c:1596-1684 | the first end of line of the chosen style, and its length; not found if and only if there is none |
| `BufferSearch.EolBytes` | mobile/ios/Pods/libevent/buffer.c:1596-1684 | the bytes themselves: 10, 13 10, or 0, and for any end of line all of 10 and 13 in a row |
| `BufferSearch.ReadLn` | mobile/ios/Pods/libevent/buffer.c:1686-1723 | the first line is taken out as a C string, with a zero behind it, and without the end of line, which goes too; nothing is taken if there is none or the start is frozen |
| `BufferSearch.EolExcludes` | mobile/ios/Pods/libevent/buffer.c:1597-1684 | an end of line that is found lies inside the contents and is not empty, and then there is not none |
| `Pieces.FlatConsume` | mobile/ios/Pods/libevent/evbuffer-internal.h:82-109 | on values: dropping whole chunks and some bytes of the next is dropping a prefix of the flat bytes |
| `Pieces.LastDataPulled` | mobile/ios/Pods/libevent/evbuffer-internal.h:94-109 | on values: after a pullup the designated chunk is again the last one with data |
| `DnsNameParse.NameParse` | mobile/ios/Pods/libevent/evdns.c:976-1030 | on any bytes: it terminates, reads only inside the packet, writes only below name_out_len, and yields exactly the labels that section 4.1.4 of RFC 1035 gives to that place, with dots; -1 in all other cases |
| `DnsNameParse.ReadBounds` | mobile/ios/Pods/libevent/evdns.c:1000-1022 | labels that are read have 1 to 63 bytes and the name ends within the packet |
| `DnsNameParse.LoopLimitExact` | mobile/ios/Pods/libevent/evdns.c:990-1003 | the limit on jumps rejects only loops: a name that can be read at all with any number of jumps can be read with as many as the packet has bytes |
| `DnsNameParse.Jumps` | mobile/ios/Pods/libevent/evdns.c:990-1003 | the pointers of a name that can be read are at different places |
| `DnsNameEncode.LabelTable.GetPos` | mobile/ios/Pods/libevent/evdns.c:1574-1583 | the first entry for a name, or -1 |
| `DnsNameEncode.LabelTable.Add` | mobile/ios/Pods/libevent/evdns.c:1586-1601 | an entry more, in order; a full table of 128 stays as it is |
| `DnsNameEncode.DnsnameToLabels` | mobile/ios/Pods/libevent/evdns.c:1614-1678 | writing in place into the buffer is the writer on values: same bytes, same table, same error codes, and nothing else in the buffer changes; for a buffer as long as its room for labels, in all cases but the one in which the original writes behind it |
| `DnsNameWrite.WriteReads` | mobile/ios/Pods/libevent/evdns.c:1614-1678 | what is written for a name, labels and pointer, reads back as that name, and every table entry added is true of the message |
| `DnsNameWrite.WriteGrows` | mobile/ios/Pods/libevent/evdns.c:1585-1610 | no byte written and no table entry made before is lost |
| `DnsNameWrite.WriteExceeds` | mobile/ios/Pods/libevent/evdns.c:1642-1676 | the writer goes past the room for labels if and only if no pointer is written, and a last label that is not empty ends exactly where the room does |
| `DnsNameWrite.WriteBounds` | mobile/ios/Pods/libevent/evdns.c:1626-1678 | then it uses just one byte more, and otherwise none |
| `DnsNameWrite.BackwardIsReadable` | mobile/ios/Pods/libevent/evdns.c:990-1003 | where each pointer goes before the place it was reached from, the parser reads the name and never meets its limit on jumps |
| `DnsNameWrite.PointerReach` | mobile/ios/Pods/libevent/evdns.c:1636-1643 | a pointer as written leads to the place meant if and only if that is below 2^14 |
| `DnsNameWrite.CanonicalExact` | mobile/ios/Pods/libevent/evdns.c:1648-1670 | exactly the empty name and the names without empty labels come back as they were |
| `DnsNameWrite.TrailingDotLost` | mobile/ios/Pods/libevent/evdns.c:1652-1670 | one dot at the end is lost, and nothing else |
| `DnsMessage.NamesRoundTrip` | mobile/ios/Pods/libevent/evdns.c:1614-1678 | any names, with any other bytes between them, written with one table into at most 2^14 + 2 bytes: parsing at each start gives the name back and ends where the writer ended, also for the names before one that is refused |
| `DnsMessage.NamesThere` | mobile/ios/Pods/libevent/evdns.c:1614-1678 | the table stays true while the message grows, and each name can be read from the message as it was when the name had just been written |
| `DnsMessage.WriteSucceeds` | mobile/ios/Pods/libevent/evdns.c:1614-1678 | a name of at most 255 bytes with labels of at most 63 is written whenever there is room for its length and two more |
| `DnsMessage.BeyondReach` | mobile/ios/Pods/libevent/evdns.c:1636-1643 | in every larger buffer there is a message in which a compressed name reads as another |
| `DnsMessage.RoundTripExact` | mobile/ios/Pods/libevent/evdns.c:1614-1678 | so all messages come back if and only if there are at most 2^14 + 2 bytes |
| `DnsMessage.ResponseRoundTrips` | mobile/ios/Pods/libevent/evdns.c:1906-2001 | of every response, every name that is sent whole comes back; it is sent as it is if it all fitted into 512 bytes, and otherwise as its first 512 bytes with the truncation bit set |
| `DnsMessage.MessageExample` | mobile/ios/Pods/libevent/evdns.c:1614-1678 | the bytes of two names, the second of which is compressed |
| `DnsMessage.ParseExample` | mobile/ios/Pods/libevent/evdns.c:976-1030 | the bytes of two names, the second with a pointer, read back |
| `DnsMessage.LabelLimits` | mobile/ios/Pods/libevent/evdns.c:976-1030 | a label of up to 63 bytes; a larger length starts a pointer |
| `DnsMessage.NameLimits` | mobile/ios/Pods/libevent/evdns.c:1625-1660 | labels of 63 bytes are written and of 64 not, nor names of more than 255 |
| `DnsMessage.ResponseOverrun` | mobile/ios/Pods/libevent/evdns.c:1906-2001 | a family of responses of which 1501 bytes are written into 1500: an empty name behind the header, and a last name of one letter |
| `EpollTable.TableIsRule` | mobile/ios/Pods/libevent/epolltable-internal.h:40-1166 | each of the 512 entries is what the rule says that the table was made from |
| `EpollTable.TableIndex` | mobile/ios/Pods/libevent/epolltable-internal.h:124-132 | the index is within the table |
| `EvMap.ChangeTakesEffect` | mobile/ios/Pods/libevent/epolltable-internal.h:40-130 | for a normal change the entry is a call that is accepted (ADD with nothing installed, MOD and DEL with something) and that installs the old kinds with the adds and without the deletes |
| `EvMap.OnlyCall` | mobile/ios/Pods/libevent/epolltable-internal.h:40-130 | and no other call would do: it would be refused, or install something else |
| `EvMap.CoalescingAgrees` | mobile/ios/Pods/libevent/evmap.c:865-946 | for every run of adds and deletes of one fd: the one call for the coalesced change leaves what one call for each step would have left, and all these calls are accepted |
| `EvMap.EventBase.ChangelistAdd` | mobile/ios/Pods/libevent/evmap.c:865-893 | the change of the fd asks for what it asked for before, and the new kinds |
| `EvMap.EventBase.ChangelistDel` | mobile/ios/Pods/libevent/evmap.c:895-946 | the change of the fd no longer asks for these kinds; a delete of what was never installed only takes back an add |
| `EvMap.EventBase.GetOrConstruct` | mobile/ios/Pods/libevent/evmap.c:834-863 | each fd has at most one change, and it knows where it is; a new one remembers what was installed |
| `EvMap.EventBase.IoAdd` | mobile/ios/Pods/libevent/evmap.c:272-349 | the event becomes the first of its fd, unless one of its kinds is that of 0xffff events there already; the result says whether a kind is new, and only then is there a change |
| `EvMap.EventBase.IoDel` | mobile/ios/Pods/libevent/evmap.c:353-417 | exactly that event leaves the list of its fd, and the others stay in order; the result says whether one of its kinds is gone, and only then is there a change |
| `EvMap.EventBase.RemoveAll` | mobile/ios/Pods/libevent/evmap.c:778-797 | the list is empty and every slot knows it |
| `EvMap.EventBase.Flush` | mobile/ios/Pods/libevent/evmap.c:779-946 | for every fd the kernel then has exactly the kinds for which an event is registered, as if it had been told at once; every call was accepted |
| `EvMap.CountedIsThere` | mobile/ios/Pods/libevent/evmap.c:300-345 | a counter is positive if and only if some event has that kind |
| `EvMap.CountIs` | mobile/ios/Pods/libevent/evmap.c:307-318 | a counter is the number of events that have the kind |
| `GetAddrInfo.Request.constructor` | mobile/ios/Pods/libevent/evdns.c:4790-4829 | if neither lookup can be started the user is told FAIL and the request is freed; otherwise one or two lookups are outstanding |
| `GetAddrInfo.Request.GotResolve` | mobile/ios/Pods/libevent/evdns.c:4457-4640 | the request is freed when, and only when, no lookup is left, and then the user has been called exactly once: with CANCEL, with the addresses of both (A first), or without any with NONAME if the last lookup ended with NOTEXIST, FAIL for any other failure, and NODATA for an empty answer |
| `GetAddrInfo.Request.TimeoutCb` | mobile/ios/Pods/libevent/evdns.c:4391-4441 | the user is called with the addresses there are, or without any by how the first lookup ended: NONAME, FAIL or NODATA; the slower one is cancelled but not forgotten |
| `GetAddrInfo.Request.UserCancel` | mobile/ios/Pods/libevent/evdns.c:4832-4847 | lookups still outstanding are cancelled, callbacks that wait already are left alone, the timer is gone, and nobody is called yet |
| `GetAddrInfo.Run` | mobile/ios/Pods/libevent/evdns.c:4391-4847 | over every interleaving of completions, timer and cancel, also those the event loop excludes: never more than one call, freed exactly when no work is left, and then exactly one call; CANCEL is reported if and only if the user cancelled and the timer did not go off |
| `GetAddrInfo.Settle` | mobile/ios/Pods/libevent/evdns.c:4457-4640 | from every state, when the lookups end the request is freed and the user was called once |
| `GetAddrInfo.Loop.CancelAll` | mobile/ios/Pods/libevent/evdns.c:4832-4847 | afterwards the callbacks of all lookups that are left wait in the queues, and no timer does, also none that had gone off |
| `GetAddrInfo.Loop.MakeLaterActive` | mobile/ios/Pods/libevent/event.c:3438-3451 | what was put off comes behind what is active, before timers are looked at; the order that cancelling depends on is kept |
| `GetAddrInfo.Loop.TimeoutProcess` | mobile/ios/Pods/libevent/event.c:3180-3204 | a timer that is due comes behind what is active, and after a cancel never before the callback that is left |
| `GetAddrInfo.Loop.RunNext` | mobile/ios/Pods/libevent/event.c:1652-1672 | the callback or timer at the head runs with the effects of the original, what it starts or stops is queued or taken out; after a cancel it is always the callback of a lookup |
| `GetAddrInfo.RunLoop` | mobile/ios/Pods/libevent/evdns.c:4832-4847 | over every run in which the event loop keeps its order: CANCEL is reported if and only if the user cancelled and was not called before, and then it is the only report, made just when the request is freed; otherwise the report has all addresses that came, or the reason of the lookup that ended last |
| `GetAddrInfo.TellCanceled` | mobile/ios/Pods/libevent/event.c:1956-2012 | after a cancel, rounds of the loop lead to that report, with whatever timers due and callbacks put off |
| `DnsRequests.DnsBase.FindFromTransId` | mobile/ios/Pods/libevent/evdns.c:472-487 | the request in flight with that id; none is missed |
| `DnsRequests.DnsBase.TransactionIdPick` | mobile/ios/Pods/libevent/evdns.c:1332-1344 | the id is not 0xffff and no request in flight has it; some draw succeeds, as there are ids left |
| `DnsRequests.DnsBase.SomeFreeId` | mobile/ios/Pods/libevent/evdns.c:1332-1344 | below 65535 requests in flight there is a free id |
| `DnsRequests.DnsBase.NameserverPick` | mobile/ios/Pods/libevent/evdns.c:1349-1382 | the next server in turn that is up, and the one behind it is next; while one is up the branch for none is not taken |
| `DnsRequests.DnsBase.PickInTurn` | mobile/ios/Pods/libevent/evdns.c:1349-1382 | n choices in a row are the specification of fair choice |
| `Rings.PicksAreFair` | mobile/ios/Pods/libevent/evdns.c:1349-1382 | with m servers up and unchanged, any m choices in a row give each of them exactly once |
| `Rings.TurnsAreFair` | mobile/ios/Pods/libevent/evdns.c:1349-1382 | so m turns, taken as the code takes them, go to each of m servers that are up exactly once |
| `Rings.PicksInTurn` | mobile/ios/Pods/libevent/evdns.c:1349-1382 | up to m choices are the servers that are up, in ring order |
| `DnsRequests.DnsBase.NameserverFailed` | mobile/ios/Pods/libevent/evdns.c:561-619 | the server is marked down and counted; if another one is up, exactly the requests not yet sent to it are moved, each to the server whose turn it is |
| `DnsRequests.DnsBase.NameserverUp` | mobile/ios/Pods/libevent/evdns.c:621-640 | the server is up and counted; only its own probe is cancelled |
| `DnsRequests.DnsBase.EnterFlight` | mobile/ios/Pods/libevent/evdns.c:2754-2768 | the request is in the bucket of its id modulo the number of buckets, and counted |
| `DnsRequests.DnsBase.LeaveFlight` | mobile/ios/Pods/libevent/evdns.c:2716-2751 | it is in no bucket, and no longer counted |
| `DnsRequests.DnsBase.Pump` | mobile/ios/Pods/libevent/evdns.c:746-774 | exactly the first of those that wait go into flight, in order, until there is no space, nobody or no server; as long as no server is marked down, each gets the server whose turn it is |
| `DnsRequests.DnsBase.RequestNew` | mobile/ios/Pods/libevent/evdns.c:2780-2855 | there is a server and a free id at once if there is space and a server at all; it is the next in turn that is up, and the ring then starts behind it |
| `DnsRequests.DnsBase.RequestSubmit` | mobile/ios/Pods/libevent/evdns.c:2857-2875 | straight into flight with a server, and else to the end of the waiting list |
| `DnsRequests.DnsBase.Resolve` | mobile/ios/Pods/libevent/evdns.c:2914-2940 | the new request is in flight if there is space and a server, with the one whose turn it is unless a server was marked down in sending, and last of those who wait otherwise |
| `DnsRequests.DnsBase.ResolveInTurn` | mobile/ios/Pods/libevent/evdns.c:1349-1382 | while m servers are up and stay so, m requests in a row that go into flight at once go to each of them exactly once |
| `DnsRequests.DnsBase.RequestFinished` | mobile/ios/Pods/libevent/evdns.c:652-710 | the request leaves its list, and exactly the first of those that wait fill the space, in order and with servers in turn |
| `DnsRequests.DnsBase.RequestReissue` | mobile/ios/Pods/libevent/evdns.c:718-739 | the request goes to the server whose turn it is, to be sent anew; result 1 if and only if that is the one it had |
| `DnsRequests.DnsBase.RequestTimeout` | mobile/ios/Pods/libevent/evdns.c:2176-2212 | after too many tries the request ends and its server is marked down; otherwise it is sent to the next in turn, and one server has one timeout more, for which it is marked down when there are too many |
| `DnsRequests.DnsBase.TransmitAll` | mobile/ios/Pods/libevent/evdns.c:2361-2383 | each marked request is sent, and counts that, or is still marked, and then its server takes no more now; no other one is touched |
| `DnsRequests.DnsBase.CancelRequest` | mobile/ios/Pods/libevent/evdns.c:2878-2911 | the request has ended, and only it |
| `DnsRequests.DnsBase.ReplyHandle` | mobile/ios/Pods/libevent/evdns.c:884-974 | an answer, or an error that is none of the server, ends the request and brings the server up; an error the server is to blame for marks it down, and the request goes to another one if it may and there is one; SERVERFAILED is a timeout; nobody else is lost but at most a probe of that server, which is named |
| `DnsRequests.DnsBase.SendProbe` | mobile/ios/Pods/libevent/evdns.c:2331-2356 | the probe is in flight with the server it is for |
| `DnsRequests.DnsBase.ProbeCallback` | mobile/ios/Pods/libevent/evdns.c:2305-2329 | a good reply brings the server up; no reply counts as one failure more; a cancelled probe changes nothing |
| `DnsRequests.DnsBase.AddNameserver` | mobile/ios/Pods/libevent/evdns.c:2560-2595 | the ring has one server more, behind the first |
| `DnsRequests.DnsBase.SetMaxRequestsInflight` | mobile/ios/Pods/libevent/evdns.c:3425-3454 | all requests in flight are in the bucket of their id for the new number of buckets |
| `DnsRequests.DnsBase.Sorted` | mobile/ios/Pods/libevent/evdns.c:3436-3448 | no request is lost or doubled on the way from the old buckets to the new ones |
| `TimeVals.MarkRoundTrip` | mobile/ios/Pods/libevent/event.c:1383-1447 | the number of a common timeout that is kept in the high bits can be read back, and the time is untouched |
| `TimeVals.SameMarkCompares` | mobile/ios/Pods/libevent/event.c:3330-3358 | times with the same mark compare as the times without |
| `TimeVals.LeIsTime` | mobile/ios/Pods/libevent/include/event2/util.h:559-567 | comparing the fields is comparing times, for less than a second of microseconds |
| `TimeVals.SumIsTime` | mobile/ios/Pods/libevent/include/event2/util.h:528-540 | a sum is the sum of the times, with its carry |
| `Events.EventBase.InsertInOrder` | mobile/ios/Pods/libevent/event.c:3330-3358 | the event goes behind all that are not later, and in front of all that are |
| `Events.EventBase.InsertTimeout` | mobile/ios/Pods/libevent/event.c:3414-3436 | the flag, the count, and the heap or the list of the mark agree again |
| `Events.EventBase.RemoveTimeout` | mobile/ios/Pods/libevent/event.c:3266-3286 | the same, without the event |
| `Events.EventBase.InsertActive` | mobile/ios/Pods/libevent/event.c:3376-3395 | at the end of the queue of its priority; flag and counts agree |
| `Events.EventBase.RemoveActive` | mobile/ios/Pods/libevent/event.c:3235-3250 | out of the queue of its priority, whose order stays |
| `Events.EventBase.InsertLater` | mobile/ios/Pods/libevent/event.c:3397-3412 | at the end of the later queue, never also active |
| `Events.EventBase.RemoveLater` | mobile/ios/Pods/libevent/event.c:3251-3265 | out of the later queue |
| `Events.EventBase.EventAdd` | mobile/ios/Pods/libevent/event.c:2596-2766 | the deadline is now plus the interval, to the microsecond and with its mark, or the absolute time as it is; the event is in the heap, or in its place in the list of its mark, and nowhere else of these; an activation by an earlier timeout is dropped; a failure changes nothing |
| `Events.EventBase.EventDel` | mobile/ios/Pods/libevent/event.c:2809-2898 | the event is in no queue at all, unless it is being finalized, and then nothing changes |
| `Events.EventBase.EventActive` | mobile/ios/Pods/libevent/event.c:2918-2967 | at the end of the queue of its priority, unless it is active already, with the new reason beside those it had if it was to run anyway |
| `Events.EventBase.CallbackActivate` | mobile/ios/Pods/libevent/event.c:3005-3034 | to the end of the queue of its priority, from wherever it was; the result is whether it was idle |
| `Events.EventBase.EventActiveLater` | mobile/ios/Pods/libevent/event.c:2977-2992 | at the end of the later queue, unless it is active or later already |
| `Events.EventBase.MakeLaterEventsActive` | mobile/ios/Pods/libevent/event.c:3438-3451 | the later queue is empty, and each active queue has those of its priority at its end, in order |
| `Events.EventBase.TimeoutProcess` | mobile/ios/Pods/libevent/event.c:3180-3204 | exactly the events of the heap whose deadline in microseconds has come are activated, in order of their deadlines, behind what was active; no other event moves |
| `Events.EventBase.Schedule` | mobile/ios/Pods/libevent/event.c:1449-1456 | the timer of the list is in the heap at the time of the first event |
| `Events.EventBase.CommonTimeoutCallback` | mobile/ios/Pods/libevent/event.c:1461-1482 | exactly the events of the list whose deadline has come, its first k, are activated in order behind what was active, and the timer is set to the deadline of the next |
| `Events.EventBase.NoWakeupLost` | mobile/ios/Pods/libevent/event.c:1449-1482 | whatever happened, for every event of a common timeout its timer runs, is about to, or goes off no later, in microseconds |
| `Events.EventBase.InitCommonTimeout` | mobile/ios/Pods/libevent/event.c:1486-1558 | the same length gives the same mark, a new one a new mark and list, and none if there are 256 others; the mark goes with exactly the time asked for |
| `Events.EventBase.EventFinalize` | mobile/ios/Pods/libevent/event.c:2246-2258 | out of the timers, and at the end of its active queue once more |
| `Events.EventBase.CallbackFinalize` | mobile/ios/Pods/libevent/event.c:2288-2303 | the same for a callback |
| `Events.EventBase.CallbackCancel` | mobile/ios/Pods/libevent/event.c:3068-3096 | the callback is in no queue, unless it is being finalized |
| `Events.EventBase.TakeActive` | mobile/ios/Pods/libevent/event.c:1634-1700 | the first of a queue leaves it, to be run; an event that does not persist leaves the timers as well |
| `Events.Earliest` | mobile/ios/Pods/libevent/event.c:3180-3204 | a nonempty heap has a first timer |
| `TokenBuckets.RefilledIsMin` | mobile/ios/Pods/libevent/bufferevent_ratelim.c:73-111 | for a limit that is not above the maximum, the computation that avoids overflow gives min(maximum, limit + ticks * rate) |
| `TokenBuckets.RefilledExact` | mobile/ios/Pods/libevent/bufferevent_ratelim.c:73-111 | in general it does so if and only if the limit is not above the maximum, or the tokens reach around 2^64 |
| `TokenBuckets.RefillWraps` | mobile/ios/Pods/libevent/bufferevent_ratelim.c:73-111 | a limit above the maximum can become negative by a refill |
| `TokenBuckets.RefillInSteps` | mobile/ios/Pods/libevent/bufferevent_ratelim.c:73-111 | updating in two steps is updating once |
| `TokenBuckets.ReadsAreBounded` | mobile/ios/Pods/libevent/bufferevent_ratelim.c:67-307 | over every run of looks at the clock and capped reads, in any order, the bytes read are at most the limit at the start and rate times the ticks that passed, however the tick number wraps and the clock goes back by up to 2^31 ticks |
| `TokenBuckets.CountedIsTime` | mobile/ios/Pods/libevent/bufferevent_ratelim.c:67-112 | in such a run the ticks counted are the time from the first tick to the latest |
| `BufferEvents.Direction.Suspend` | mobile/ios/Pods/libevent/bufferevent.c:66-75 | the flags are set, and the backend was last told to go on if and only if the direction is enabled and has no flag |
| `BufferEvents.Direction.Unsuspend` | mobile/ios/Pods/libevent/bufferevent.c:77-86 | the flags are cleared, and the same holds |
| `BufferEvents.BufferEvent.Enable` | mobile/ios/Pods/libevent/bufferevent.c:481-503 | what is suspended is enabled without telling the backend |
| `BufferEvents.BufferEvent.Disable` | mobile/ios/Pods/libevent/bufferevent.c:572-587 | the backend is told to stop |
| `BufferEvents.BufferEvent.Update` | mobile/ios/Pods/libevent/bufferevent_ratelim.c:75-123 | both limits are brought to the tick, or nothing changes |
| `BufferEvents.BufferEvent.GetMax` | mobile/ios/Pods/libevent/bufferevent_ratelim.c:197-266 | how much may be read: never negative, and positive unless bandwidth is suspended; the suspension invariant is kept |
| `BufferEvents.BufferEvent.Transfers` | mobile/ios/Pods/libevent/bufferevent_ratelim.c:197-307 | the same bound for a bufferevent: any looks at the clock and transfers of at most what is allowed, with the suspensions on the way |
| `BufferEvents.BufferEvent.DecrementBuckets` | mobile/ios/Pods/libevent/bufferevent_ratelim.c:272-308 | bandwidth is suspended if and only if the limit is used up, and then a refill is pending |
| `BufferEvents.BufferEvent.DecrementLimit` | mobile/ios/Pods/libevent/bufferevent_ratelim.c:968-993 | the bit changes exactly where the limit crosses zero; refill stays pending while somebody waits |
| `BufferEvents.BufferEvent.Refill` | mobile/ios/Pods/libevent/bufferevent_ratelim.c:393-439 | each direction goes on if its limit is positive, and another refill is pending otherwise |
| `BufferEvents.BufferEvent.SetRateLimit` | mobile/ios/Pods/libevent/bufferevent_ratelim.c:559-635 | a first configuration starts with one tick of tokens, another one only clips; none clears the bit and the timer; the same one changes nothing |
| `BufferEvents.BufferEvent.Refills` | mobile/ios/Pods/libevent/bufferevent_ratelim.c:393-439 | over any run of refills the bit is cleared if and only if the ticks that passed pay for the deficit |
| `BufferEvents.LimitInTime` | mobile/ios/Pods/libevent/bufferevent_ratelim.c:73-111 | the limit grows by the rate with each tick of time, up to the maximum, and not when the clock stands or goes back |
| `BufferEvents.RunCalls` | mobile/ios/Pods/libevent/bufferevent_ratelim.c:197-635 | over any run of all calls, as long as nothing is given back: nobody has more than the maximum, whoever has used up the limit is suspended, whoever is suspended will be refilled, and the backend is told right |
| `BufferEvents.TicksCountedAlike` | mobile/ios/Pods/libevent/bufferevent_ratelim.c:49-72 | after a change of configuration the ticks gone by are counted right if and only if the old and the new one number the last tick alike, as they do with ticks of the same length |
| `BufferEvents.RefillsStop` | mobile/ios/Pods/libevent/bufferevent_ratelim.c:49-72 | a bufferevent whose configuration got a longer tick: for more than fifty years a refill refills nothing, and reading stays suspended for a deficit of one byte |
| `BufferEvents.OverfilledWraps` | mobile/ios/Pods/libevent/bufferevent_ratelim.c:968-993 | a bufferevent filled by hand above its maximum, at any time: the next look at the clock makes its limit negative, nothing may be read, and neither is reading suspended nor a refill pending |
| `TagCodec.IntRoundTrip` | mobile/ios/Pods/libevent/event_tagging.c:121-317 | an encoded integer is decoded to itself and to its length, whatever follows |
| `TagCodec.EncodingIsShortest` | mobile/ios/Pods/libevent/event_tagging.c:121-148 | nothing the decoder accepts for an integer is shorter |
| `TagCodec.TagRoundTrip` | mobile/ios/Pods/libevent/event_tagging.c:178-250 | the same for tags |
| `TagCodec.TagsAreLowFirst` | mobile/ios/Pods/libevent/event_tagging.c:80-87 | a tag is encoded as the description says if and only if its groups of seven bits read the same in both directions |
| `TagCodec.TagExample` | mobile/ios/Pods/libevent/event_tagging.c:85-87 | the documented example, as documented and as the code has it |
| `TagCodec.DigitsAreLowFirst` | mobile/ios/Pods/libevent/event_tagging.c:89-95 | an integer is encoded as the description says if and only if its hexadecimal digits read the same in both directions |
| `TagCodec.DecodedTagFits` | mobile/ios/Pods/libevent/event_tagging.c:200-244 | a tag that is decoded fits 32 bits and takes at most five bytes |
| `TagCodec.DecodedIntFits` | mobile/ios/Pods/libevent/event_tagging.c:319-383 | an integer that is decoded fits the number of digits allowed |
| `TagCodec.RecordRoundTrip` | mobile/ios/Pods/libevent/event_tagging.c:252-609 | one record of any kind is read back as it was written, whatever follows |
| `TagCodec.RecordExamples` | mobile/ios/Pods/libevent/event_tagging.c:261-325 | the bytes of a record of each kind; of a time, the seconds come first |
| `TagCodec.StreamRoundTrip` | mobile/ios/Pods/libevent/event_tagging.c:252-609 | any list of records is read back as it was written, with nothing left over |
| `TagCodec.PeekedIsConsumed` | mobile/ios/Pods/libevent/event_tagging.c:410-485 | the length told beforehand is what is drained, if and only if the payload is at most INT_MAX, or the record is the last thing there is and shorter than 2^32 |
| `TagCodec.RecordPassedOver` | mobile/ios/Pods/libevent/event_tagging.c:410-485 | passing over a record that was written takes just that record |
| `Tagging.EncodeIntInternal` | mobile/ios/Pods/libevent/event_tagging.c:101-148 | setting nibbles in place in the array gives the encoded integer |
| `Tagging.EncodeTagInternal` | mobile/ios/Pods/libevent/event_tagging.c:177-198 | the loop writes the encoded tag |
| `Tagging.Marshal` | mobile/ios/Pods/libevent/event_tagging.c:260-267 | the evbuffer grows by the encoded record |
| `Tagging.MarshalNumber` | mobile/ios/Pods/libevent/event_tagging.c:279-305 | by the record of the encoded number |
| `Tagging.MarshalTimeval` | mobile/ios/Pods/libevent/event_tagging.c:310-317 | by the record of the low 32 bits of both fields |
| `Tagging.MarshalBuffer` | mobile/ios/Pods/libevent/event_tagging.c:269-277 | by the record of all that the other buffer held, which is then empty |
| `Tagging.DecodeTagInternal` | mobile/ios/Pods/libevent/event_tagging.c:200-246 | the loop over the first bytes, pulled up, reads the tag; the buffer is left as it is or loses just the tag |
| `Tagging.DecodeIntInternal` | mobile/ios/Pods/libevent/event_tagging.c:319-383 | the loop over the pulled up bytes reads the integer at an offset; the buffer is left as it is |
| `Tagging.UnmarshalHeader` | mobile/ios/Pods/libevent/event_tagging.c:441-455 | tag and length, and what is used up in each case of failure |
| `Tagging.Consume` | mobile/ios/Pods/libevent/event_tagging.c:457-466 | what is drained, also for lengths that are no int |
| `Tagging.PeekLength` | mobile/ios/Pods/libevent/event_tagging.c:405-421 | the length in 32 bits; the contents stay |
| `Tagging.PeekDisagrees` | mobile/ios/Pods/libevent/event_tagging.c:410-485 | on an evbuffer, for every payload past INT_MAX that is not the last thing there: the length told beforehand is not what is drained |
| `Tagging.Unmarshal` | mobile/ios/Pods/libevent/event_tagging.c:470-484 | the payload goes to the end of the other buffer, or nothing does |
| `Tagging.UnmarshalNumber` | mobile/ios/Pods/libevent/event_tagging.c:524-578 | the number if tag and length are right; what is used up in each case |
| `Tagging.UnmarshalTimeval` | mobile/ios/Pods/libevent/event_tagging.c:583-609 | both fields, or failure; the payload is drained in both cases |
| `TokenRefresh.Client.Failed` | mobile/src/api/client.ts:91-111 | a refused request is passed on, waits at the end of the queue, or starts the one refresh there is |
| `TokenRefresh.Client.ProcessQueue` | mobile/src/api/client.ts:77-86 | everybody in the queue is settled with the same outcome, in order, and the queue is empty |
| `TokenRefresh.KeyChain.GetTokens` | mobile/src/utils/keychain.ts:28-48 | the pair in the key chain if it can be read and used, and otherwise what is kept in memory; the key chain is reset just in that case, unless it is empty |
| `TokenRefresh.KeyChain.SaveTokens` | mobile/src/utils/keychain.ts:50-66 | what is read afterwards are the new tokens if and only if neither is empty, and the key chain kept them or holds no older pair that can be used |
| `TokenRefresh.Client.TokensRead` | mobile/src/api/client.ts:113-115 | without stored tokens the refresh fails; otherwise the stored refresh token is what the server is asked with |
| `TokenRefresh.Client.Posted` | mobile/src/api/client.ts:117-129 | what the server says is what is stored next |
| `TokenRefresh.Client.Saved` | mobile/src/api/client.ts:129-134 | everybody who waited is given the new access token in order of arrival, before the flag falls; that is the one that is read next if and only if the tokens were stored, in the sense above |
| `TokenRefresh.Client.Fail` | mobile/src/api/client.ts:135-136 | everybody who waited is rejected with the error |
| `TokenRefresh.Client.Cleared` | mobile/src/api/client.ts:136-142 | the user is signed out and the flag falls; who came meanwhile still waits; no tokens are left if and only if the key chain could be reset, or held none |
| `TokenRefresh.PendingIsQueued` | mobile/src/api/client.ts:72-111 | in every reachable state those not settled are those in the queue, and each other one was told, once, what came of the refresh it waited for |
| `TokenRefresh.SettledInOrder` | mobile/src/api/client.ts:77-86 | over the whole run nobody is settled before somebody who came earlier |
| `TokenRefresh.StrandedIfLate` | mobile/src/api/client.ts:135-142 | while nothing is refreshed somebody waits if and only if they came after the last refresh failed and before its flag fell |
| `TokenRefresh.Stranded` | mobile/src/api/client.ts:135-142 | a run in which somebody waits although nothing is refreshed |

## Left out

- Evbuffers: pinned, immutable, reference, multicast and file chains, sendfile, freeing and reference counts, locks, and what
  the callbacks of the user do to the buffer; evbuffer_read and evbuffer_write are system calls around what is modelled.
- Evbuffers: a failed allocation, but for sizes that no chunk can have; two buffers are taken to fit one address space
  together; the counts of added and deleted bytes are not cut to size_t.
- Evbuffers: how much larger a new chunk is than it has to be, and when bytes are moved for room, is as in the original, but not
  stated; none of it can be seen in the contents.
- BufferReserve.ReserveSpace: a size of 0 with several vectors and a full last chunk gives no vector; there the original can
  meet an assertion of its own.
- DnsNameParse.NameParse: its test for a label of more than 63 bytes behind the test for a pointer can never be true, and is not
  a branch of the model.
- DnsRequests.DnsBase.SetMaxRequestsInflight: the limit is at most 65000, which the option parser sees to (evdns.c:3519);
  larger ones could use up the ids.
- DnsRequests: circular linked lists are sequences whose first element is the head, so that relinking in place is not shown;
  what sendto does and which random numbers come is left open; name search, with its ids that are picked too early; server
  ports, resolv.conf and hosts, clearing and resuming, how long to wait before a probe, events and timers of sockets.
- GetAddrInfo.Request.GotResolve: one step, although the lock is dropped after it was looked whether the user has cancelled
  (evdns.c:4490-4506); a cancel by another thread between that and the rest is not modelled, nor one while the timer's callback runs.
- GetAddrInfo.RunLoop: of the queues only what belongs to the request is there; the number of priorities, which all three
  callbacks take their place from, is not changed while a lookup is under way.
- GetAddrInfo: shutdown of the resolver, a failed allocation, canonical names, statistics, numeric and hosts-file names.
- DnsNameEncode.DnsnameToLabels: not for a name that would be written one byte past the buffer, which is said above; that
  memory is not part of the model.
- EvMap: edge-triggered events, signals, debug checks, descriptors closed behind the library's back and the retries of epoll.c for
  them; the array of changes grows as a sequence does.
- Events: the heap is a set from which a first timer is taken; signal events and their number of calls, persistent timeouts
  after a callback has run, waking the loop of another thread, blocking deletion, the running loop itself.
- BufferEvents: rate-limit groups; the effect of watermarks and lookups, of which only the suspend flags are there; a backend that
  fails to enable; a configuration whose tick is shorter than a millisecond, for which the original divides by zero.
- BufferEvents.BufferEvent.DecrementLimit: the new limit must fit a ssize_t; the original does not look.
- Tagging: evtag_unmarshal_fixed and evtag_unmarshal_string, which copy what is modelled; a buffer of more than SSIZE_MAX bytes or
  with a frozen end; the byte that is read and not used when the fifth byte of a tag asks for a sixth.
- TokenRefresh: requests, headers and logging but for the token; an error value that is false; that a key chain may store or
  read at any time during an await, of which the model has the last moment; a write that goes through after its time is up;
  the tokens of biometric sign-in.
- The WebSocket, HTTP, RPC, random-number and OpenSSL parts of libevent, the Go and Node servers, and the screens of the app.

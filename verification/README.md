# Verified models of a chat server and of the event library vendored with it

The repository is a small chat application. Its server is `node/server.js`; the native iOS build carries a
copy of libevent. This project states in Dafny what the most intricate parts of both do, and proves what
they promise.

- **Chained buffers** (`Chunks`, `Evbuffers`, `EvbufferMove`, `EvbufferReserve`, `EvbufferFill`, `EvbufferSearch`,
  `EvbufferLines`, `EvbufferRuns`). A list of partly filled, misaligned chunks behaves like one byte sequence.
  Every operation keeps the cached length, the last chunk and the link that designates the last chunk with
  data; bytes move between buffers without loss; search and line reading over chunks mean the same as on the
  flat bytes.
- **DNS names** (`DnsNames`, `DnsRoundTrip`, `DnsResponse`). Compression with a suffix table and the parser that
  follows pointers (section 4.1.4 of RFC 1035) are inverse to each other through whole responses, which hold their
  header, questions and records byte by byte, and the parser halts on every packet.
- **DNS requests** (`DnsRequests`, `DnsRuns`). In-flight buckets, waiting queue, server ring and all counters stay
  exact through submitting, sending, timing out, reissuing, finishing, probing and rehashing; no request is lost,
  none is sent more often than the limits allow, and none in flight is left without a timer or a socket to wait for.
- **Event base** (`EventQueues`, `EventLoop`, `EventRuns`). Active queues, the later queue, the timeout heap and the
  queues of common timeouts: every callback is where its flags say, and the loop never waits past a deadline nor
  wakes before one is reached.
- **Change list** (`EpollTable`, `EventMap`). Any number of adds and deletes per descriptor is merged into one
  backend operation that has the same effect; the 512 entries of the operation table follow their rule.
- **Rate limits** (`TokenBucket`, `RateLimits`, `RateLimitRuns`). Overflow-safe refilling, and a suspend and refill
  protocol with try-locks in which no suspension gets stuck and each ends after the ticks that its rate needs.
- **Tagged records** (`TagCodec`, `Tagging`). Integers, tags and record streams are read back as written, and their
  bytes are given by arithmetic on the numbers. The code stores the least significant half byte first, although its
  comment speaks of network order; the code is what is modelled.
- **Paired buffer events** (`BufferPair`). Each direction is first-in first-out, respects the high watermark and
  does not stall; a flush fills up to the watermark.
- **Addresses and time** (`Numerals`, `InetText`, `Inet`, `InetForms`, `InetRoundTrip`, `InetRead`, `SockaddrText`,
  `MonotonicClock`). The form printed for each address is stated on its bytes, every form of section 2.2 of RFC 4291
  is read, and so the two are inverse; the clock ratchet never steps back.
- **Chat server** (`ChatServer`, `ChatCache`, `ChatRuns`, `ChatDelivery`, `ChatRaces`). Each handler is a step machine,
  one step per database call; requests interleave and calls fail. The cached last messages are always justified by the
  message logs, and exact when requests do not overlap; a message goes into the log it belongs to and the answer tells
  what was done; ids and pairs of users are unique exactly in the runs without a race.

Objects whose fields the source updates in place are classes, loops are loops, and their contracts tie the new
state to functions of the old one; the properties are lemmas about those functions and invariants kept by every
method. A ghost parameter or result is a witness, such as the place of a chunk in its list.

Where the code does not do what its callers may expect, the exact condition is proved, and an input that fails is given:

- `EvbufferReserve.ReserveSpace`: reserving zero bytes in several vectors fails an assertion when the last chunk
  is full of data, and a reservation in one vector can be one that committing refuses.
  `EvbufferFill.AbortedReservation` and `EvbufferFill.SkippedReservation` get there from an empty buffer.
- `TokenBucket.RefillOverfull` and `TokenBucket.Overfilled`: a limit above its maximum is cut back only when the tokens
  to be added come to 2^64 less the excess.
- `DnsRoundTrip.EndThroughTable` and `DnsRoundTrip.EmptyLabel`: a name with an empty label in the part that is not
  replaced by a pointer is written in a form that is not read to its end.
- `DnsRoundTrip.TerminatorPastLimit` and `DnsRoundTrip.FilledBuffer`: the terminator of a name can lie behind the limit.
- `DnsResponse.ServerRequest.FormatResponse` and `DnsResponse.EarlyRefusal`: a response in which a record cannot be
  written is sent with bytes that were never written if and only if fewer than 512 bytes are written in front of them.
- `EventLoop.SameQueue`: a second given as 1000000 microseconds has a queue of common timeouts of its own.
- `BufferPair.Pipe.Flush` and `BufferPair.FlushStops`: a flush to a partner below its watermark can leave bytes behind.
- `Inet.CopyComplete` and `Inet.CutText`: an IPv6 text exactly as long as the buffer is returned without its
  last character, and can then be the text of another address.
- `SockaddrText.SockaddrRoundTrip`: port zero is printed and not read.
- `ChatDelivery.Serve`: a message to oneself, or the same text at the same time as before, goes into the log and is
  answered with an error.
- `ChatRuns.ResultNewChat` and `ChatRuns.OneSided`: a recipient found in the user list only up to case has no inbox.
- `ChatRaces.UniqueIds`, `ChatRaces.UniquePairs` and `ChatRaces.SameIdTwice`: overlapping requests can give two chats
  one id, and two users two chats.

`dafny verify dfyconfig.toml` checks the whole project.

## Model

| member | source | states |
|---|---|---|
| `Chunks.Capacity` | react/ios/Pods/libevent/buffer.c:156-193 | the storage is the least power-of-two multiple of the smallest allocation that holds the header and the data, or exactly the size asked for when doubling is no longer safe |
| `Chunks.CutTail` | react/ios/Pods/libevent/buffer.c:290-303 | cutting the empty chunks off the end keeps the bytes and the whole structural invariant, including what `last_with_datap` designates |
| `Chunks.PushLast` | react/ios/Pods/libevent/buffer.c:308-327 | a chunk linked behind the others appends its bytes; `last_with_datap` moves exactly when the chunk has data |
| `Evbuffers.Evbuffer.FreeTrailingEmptyChains` | react/ios/Pods/libevent/buffer.c:290-303 | the list ends behind the last chunk with data, the bytes stay, and the returned link is the one a next chunk is hung on |
| `Evbuffers.Evbuffer.ChainInsert` | react/ios/Pods/libevent/buffer.c:308-327 | empty chunks at the end make way for the new one; bytes, length, `last` and `last_with_datap` stay exact |
| `Evbuffers.Evbuffer.AdvanceLastWithData` | react/ios/Pods/libevent/buffer.c:703-721 | the link is moved forward to the last chunk with data |
| `Evbuffers.Evbuffer.Add` | react/ios/Pods/libevent/buffer.c:1729-1824 | the contents are the old ones followed by the data, or unchanged and a failure exactly when the length would not fit a size_t |
| `Evbuffers.Evbuffer.Prepend` | react/ios/Pods/libevent/buffer.c:1826-1910 | the contents are the data followed by the old ones, over all cases of free space in front, and `last_with_datap` is patched for a new first chunk |
| `Evbuffers.Evbuffer.Drain` | react/ios/Pods/libevent/buffer.c:1100-1166 | exactly the first min(len, length) bytes go and the invariant is re-established, also when `last_with_datap` pointed into what went |
| `Evbuffers.Evbuffer.CopyoutFrom` | react/ios/Pods/libevent/buffer.c:1189-1254 | the bytes copied are the window of the contents that starts at the position, as long as asked for or as there is data; -1 exactly for positions that would overflow |
| `Evbuffers.Evbuffer.Remove` | react/ios/Pods/libevent/buffer.c:1169-1181 | the bytes returned and the bytes left are the old contents, cut at min(datlen, length) |
| `Evbuffers.Evbuffer.Pullup` | react/ios/Pods/libevent/buffer.c:1349-1461 | afterwards the first chunk holds the bytes asked for in one piece, the contents are the same; refused exactly for sizes of zero or above the length |
| `Evbuffers.PullLink` | react/ios/Pods/libevent/buffer.c:1424-1455 | the case analysis on the two removed flags names the link that the merged list needs |
| `EvbufferMove.AppendChain` | react/ios/Pods/libevent/buffer.c:888-905 | the list of the source goes behind that of the destination, with `last_with_datap` rebased |
| `EvbufferMove.PrependChain` | react/ios/Pods/libevent/buffer.c:947-963 | the list of the source goes in front, with `last_with_datap` kept, moved or taken over |
| `EvbufferMove.AddBuffer` | react/ios/Pods/libevent/buffer.c:965-1009 | out++in, an empty source, both invariants, and no chunk in both lists |
| `EvbufferMove.PrependBuffer` | react/ios/Pods/libevent/buffer.c:1054-1098 | in++out, an empty source, both invariants, and no chunk in both lists |
| `EvbufferMove.RemoveBuffer` | react/ios/Pods/libevent/buffer.c:1259-1347 | exactly min(n, length) bytes move from the front of one buffer to the end of the other, whole chunks first and the rest by copying; the remainder stays |
| `EvbufferReserve.ExpandSinglechain` | react/ios/Pods/libevent/buffer.c:1938-2046 | the contents stay and the chunk returned has the room asked for; it can lie outside what a later commit accepts exactly in the case Skips describes |
| `EvbufferReserve.ExpandFast` | react/ios/Pods/libevent/buffer.c:2050-2158 | the contents stay and at least the room asked for lies within at most n chunks from the first with space |
| `EvbufferReserve.ReadSetupVecs` | react/ios/Pods/libevent/buffer.c:2224-2260 | the vectors name free space only, never run off the list, and add up to at least (exactly, if asked) the room wanted; nothing to start from exactly when no chunk has space |
| `EvbufferReserve.ReserveSpace` | react/ios/Pods/libevent/buffer.c:670-701 | the contents stay; an assertion of the source fails if and only if no bytes are reserved in several vectors on a list whose last chunk is full of data; a reservation is committable if and only if it is not one of the skipping kind in one vector |
| `EvbufferReserve.SingleVec` | react/ios/Pods/libevent/buffer.c:730-757 | one vector is accepted exactly for the last chunk or the first one with room |
| `EvbufferReserve.RefusedReservation` | react/ios/Pods/libevent/buffer.c:670-791 | a list on which a reservation in one vector is handed out and cannot be committed |
| `EvbufferReserve.FailedReservation` | react/ios/Pods/libevent/buffer.c:2224-2245 | a list on which reserving nothing in two vectors fails the assertion |
| `EvbufferFill.Fill` | react/ios/Pods/libevent/buffer.c:670-791 | writing into reserved room changes no contents, and leaves vectors cut to what was written |
| `EvbufferFill.AppendInPlace` | react/ios/Pods/libevent/buffer.c:670-791 | reserving room, filling it and committing appends exactly the bytes filled in, or nothing; it succeeds if and only if the reservation is neither the one that fails the assertion nor the one that cannot be committed |
| `EvbufferFill.SkippedReservation` | react/ios/Pods/libevent/buffer.c:670-791 | four calls from an empty buffer to a reservation that cannot be committed |
| `EvbufferFill.AbortedReservation` | react/ios/Pods/libevent/buffer.c:2224-2245 | two calls from an empty buffer to the assertion that fails |
| `EvbufferReserve.CommitSpace` | react/ios/Pods/libevent/buffer.c:723-791 | any in-bounds lengths append exactly the bytes in the vectors, also across empty chunks that are skipped; anything else is refused and changes nothing |
| `EvbufferRuns.Perform` | react/ios/Pods/libevent/buffer.c:874-1461 | each operation on a pair of buffers has the meaning its contract gives it on a pair of byte sequences |
| `EvbufferRuns.Run` | react/ios/Pods/libevent/buffer.c:670-2245 | after any run of operations on two buffers, among them reserving, filling and committing room, both satisfy the invariant and share no chunk; what they hold and what was removed comes from the start by one step per operation, each told by where the bytes go, with nothing lost, doubled or reordered |
| `EvbufferRuns.AfterDoes` | react/ios/Pods/libevent/buffer.c:874-1461 | each operation on two byte sequences, told by where each byte is afterwards |
| `EvbufferRuns.Conserved` | react/ios/Pods/libevent/buffer.c:965-1347 | in runs that neither add nor drain, no byte is lost or doubled between the two buffers and what was removed |
| `EvbufferSearch.PtrSet` | react/ios/Pods/libevent/buffer.c:2622-2672 | a pointer is set to the offset, which must lie in the contents, and designates the chunk that holds it |
| `EvbufferSearch.PtrMemcmp` | react/ios/Pods/libevent/buffer.c:2678-2712 | the comparison over chunks is memcmp on the flat window, -1 past the end |
| `EvbufferSearch.MemcmpSign` | react/ios/Pods/libevent/buffer.c:2678-2712 | the first bytes that differ decide the sign |
| `EvbufferSearch.SearchRange` | react/ios/Pods/libevent/buffer.c:2720-2782 | the position returned is the least match at or after the start that ends by the end, or not-found when there is none, for patterns that straddle any number of chunks; an empty pattern, or one longer than SSIZE_MAX, is found at the start |
| `EvbufferLines.SearchEol` | react/ios/Pods/libevent/buffer.c:1596-1684 | the first line end of each style at or after the start and its exact length, or none if there is none |
| `EvbufferLines.Readln` | react/ios/Pods/libevent/buffer.c:1686-1723 | exactly one line and its terminator are taken off the front, so line, terminator and rest are the old contents; without a line end nothing changes |
| `EvbufferLines.ReadLines` | react/ios/Pods/libevent/buffer.c:1686-1723 | any number of lines read one after the other: with their terminators and what is left they are the old contents, and reading stops early only where no line end is left |
| `EvbufferLines.LinesRejoin` | react/ios/Pods/libevent/buffer.c:1686-1723 | lines cut off a byte sequence one by one, joined with their terminators, are its beginning |
| `EvbufferLines.LinesUnique` | react/ios/Pods/libevent/buffer.c:1686-1723 | and the lines are determined: two ways to read as many lines read the same |
| `EvbufferLines.LineEndUnique` | react/ios/Pods/libevent/buffer.c:1596-1684 | what counts as the first line end is determined: place and length are unique |
| `EvbufferLines.LineEndMeaning` | react/ios/Pods/libevent/buffer.c:1596-1684 | what line, terminator and rest look like, style by style |
| `DnsNames.LabelTable.GetPos` | react/ios/Pods/libevent/evdns.c:1574-1583 | the position of the first entry for the suffix, or -1 |
| `DnsNames.LabelTable.Add` | react/ios/Pods/libevent/evdns.c:1586-1601 | an entry is appended, and true returned, unless there are 128 |
| `DnsNames.DnsnameToLabels` | react/ios/Pods/libevent/evdns.c:1614-1678 | the bytes written: in front of each label its length, below 64; in place of the first suffix that the table knows the 16-bit number 0xc000 plus its position; a zero byte at the end unless an empty label is there; the table gets the suffixes that start with the labels written, with their places. Refused only for more than 255 bytes, 64 bytes in a row without a dot, or want of room |
| `DnsNames.EncWire` | react/ios/Pods/libevent/evdns.c:1574-1678 | whatever the table, a name is written in that form, byte by byte, and the table gets those entries and no others |
| `DnsNames.NameParse` | react/ios/Pods/libevent/evdns.c:976-1030 | halts on every packet and finds what Parse defines: the text, and the offset behind the name where it was first read |
| `DnsRoundTrip.EncSpells` | react/ios/Pods/libevent/evdns.c:1574-1678 | writing a name through an exact table spells it: every length byte on the way is below 64, every pointer starts with two set bits and aims strictly backwards, and the new entries point at what they stand for |
| `DnsRoundTrip.ParseSpells` | react/ios/Pods/libevent/evdns.c:976-1030 | a spelled name is parsed to its labels; the bound on jumps never gets in the way |
| `DnsRoundTrip.ParseFollows` | react/ios/Pods/libevent/evdns.c:976-1030 | in any packet, sound or not: labels that are there, with no more pointers on the way than the packet has bytes and room for the text, are parsed |
| `DnsRoundTrip.ParseSound` | react/ios/Pods/libevent/evdns.c:976-1030 | and nothing else is parsed: a text that is returned is that of labels which are there |
| `DnsRoundTrip.NameReadBack` | react/ios/Pods/libevent/evdns.c:976-1030 | in a packet of any pieces in any order through one table, every name is read back where it was written, up to the offset at which its encoding ended, and spelled there with lengths below 64 and pointers with two set bits |
| `DnsRoundTrip.EndThroughTable` | react/ios/Pods/libevent/evdns.c:1574-1678 | through any table a name is read to its end if and only if it has no empty label up to the first suffix that the table knows |
| `DnsRoundTrip.EndExact` | react/ios/Pods/libevent/evdns.c:1614-1678 | without a table a name is read to its end if and only if it has no empty label |
| `DnsRoundTrip.EmptyLabel` | react/ios/Pods/libevent/evdns.c:1614-1678 | a..b is written in six bytes, of which three are read |
| `DnsRoundTrip.TerminatorPastLimit` | react/ios/Pods/libevent/evdns.c:1651-1678 | the terminator is written one byte behind the limit if and only if no suffix of the name is in the table, its last label is not empty and its labels end exactly at the limit; nothing is written further on |
| `DnsRoundTrip.FilledBuffer` | react/ios/Pods/libevent/evdns.c:1651-1678 | a name that does so |
| `DnsResponse.ServerRequest.FormatResponse` | react/ios/Pods/libevent/evdns.c:1906-2001 | 0 if and only if the error code is one of 0 to 15 and the name of every question reached can be written. Then the packet starts with id, flag word with response bit and error code, and counts, the high byte first. A response of at most 512 bytes is sent whole: from byte 12 on it holds the questions and then the records in order, with type, class, time to live, length and data, and nothing else. Any other is cut to 512 bytes with the truncated bit set, and goes on with what the buffer held before if and only if less was written |
| `DnsResponse.ResponseRead` | react/ios/Pods/libevent/evdns.c:1906-2001 | a response that fits, read from its first byte to its last, has the six numbers of its header, then exactly its questions and its records |
| `DnsResponse.SmallWhole` | react/ios/Pods/libevent/evdns.c:1906-2001 | names of at most 255 bytes with labels of at most 63 that come with everything else to at most 512 bytes are never refused and never cut |
| `DnsResponse.TruncatedReadBack` | react/ios/Pods/libevent/evdns.c:1906-2001 | every name that lies wholly in the part sent of a response that is cut is parsed where it starts, to its end, wherever the writing ended, and spelled there with lengths below 64 and pointers with two set bits |
| `DnsResponse.EarlyRefusal` | react/ios/Pods/libevent/evdns.c:1907-1990 | a first record whose name is too long, or starts with a label that is, leaves only the header written of the 512 bytes sent |
| `DnsResponse.ResponseReadBack` | react/ios/Pods/libevent/evdns.c:1906-2001 | every name in a response that is not truncated is parsed where it starts, to its end, through all compression, and spelled there with lengths below 64 and pointers with two set bits |
| `DnsRequests.DnsBase.Find` | react/ios/Pods/libevent/evdns.c:472-487 | looking into one bucket finds the request with the id among all requests in flight, or there is none |
| `DnsRequests.DnsBase.NameserverPick` | react/ios/Pods/libevent/evdns.c:1349-1382 | the head moves on behind the server picked, which is the first in turn that is up; when none is up it is the next in turn; the assertion in it cannot fail |
| `DnsRequests.DnsBase.SwapNs` | react/ios/Pods/libevent/evdns.c:548-557 | a request changes servers and both counts follow |
| `DnsRequests.DnsBase.NameserverFailed` | react/ios/Pods/libevent/evdns.c:561-619 | the server goes down and no other, the count of good ones follows, only requests not sent yet move, and while another server is up none of them stays |
| `DnsRequests.DnsBase.Transmit` | react/ios/Pods/libevent/evdns.c:2253-2303 | whether the request is attempted, whether it then counts as sent once more with its timeout running or stays marked, whether its server is choked or down, for each outcome; other requests change only if the attempt failed |
| `DnsRequests.DnsBase.TransmitAll` | react/ios/Pods/libevent/evdns.c:2361-2383 | after the walk over all buckets each request is sent at most once more, and one still marked is blocked by a choked server |
| `DnsRequests.DnsBase.TransactionIdPick` | react/ios/Pods/libevent/evdns.c:1332-1344 | an id no request in flight has |
| `DnsRequests.DnsBase.PutInflight` | react/ios/Pods/libevent/evdns.c:2754-2768 | the request is in the bucket that its id modulo the number of buckets names, and counted |
| `DnsRequests.DnsBase.Pump` | react/ios/Pods/libevent/evdns.c:746-774 | afterwards nothing waits that could be in flight, and no request is lost |
| `DnsRequests.DnsBase.Finish` | react/ios/Pods/libevent/evdns.c:652-710 | the request is gone from list, counters and server, only it, each other one is sent at most once more, and the queue has been pumped |
| `DnsRequests.DnsBase.Resolve` | react/ios/Pods/libevent/evdns.c:2857-2875 | a new request is in flight exactly when there is room and a server, and then attempted once; else it waits behind the others |
| `DnsRequests.DnsBase.SendProbe` | react/ios/Pods/libevent/evdns.c:2331-2356 | a probe is in flight and the server remembers it; it is attempted unless the server is choked, and goes to another server only if that attempt brings this one down |
| `DnsRequests.DnsBase.Cancel` | react/ios/Pods/libevent/evdns.c:2878-2911 | exactly the cancelled request is gone |
| `DnsRequests.DnsBase.NameserverUp` | react/ios/Pods/libevent/evdns.c:621-640 | the server is up, counted once, no other comes up, and exactly its probe is cancelled, if it was down and had one |
| `DnsRequests.DnsBase.Reissue` | react/ios/Pods/libevent/evdns.c:718-739 | the request goes to another server, to be sent there from the start, with one more reissue, or nothing changes; with a good server and a failed last one it always goes |
| `DnsRequests.DnsBase.Timeout` | react/ios/Pods/libevent/evdns.c:2176-2212 | a request is sent once more, to a server that is up if there is one, and counts as sent unless it is to be tried later; the server has one timeout more or has failed for too many; after too many sends the request is gone and its server has failed; no other request is lost |
| `DnsRequests.DnsBase.ReplyHandle` | react/ios/Pods/libevent/evdns.c:884-974 | an answer ends the request and brings its server up, which drops its probe; a bad server goes down and the request goes on elsewhere, with one more reissue, whenever it may and another server is up; a failed server counts as a timeout; no other request is lost |
| `DnsRequests.DnsBase.SetMaxInflight` | react/ios/Pods/libevent/evdns.c:3425-3454 | after the rehash every request in flight is in the bucket its id has among the new ones |
| `DnsRequests.DnsBase.AddServer` | react/ios/Pods/libevent/evdns.c:2501-2598 | a new server is up, counted and in the ring, unless one with its address is known, which is answered with 3, or its socket fails |
| `DnsRequests.DnsBase.Ready` | react/ios/Pods/libevent/evdns.c:1508-1524 | the server is not choked for what is sent next; what is still marked is blocked by a choked server |
| `DnsRuns.Run` | react/ios/Pods/libevent/evdns.c:506-2490 | in any run of users, timers and servers each request made is there or has ended, never both; it ends only through an operation that names it, unless it is the probe of a server; none is sent more than (maximum of reissues + 1) times the retransmissions; and none in flight is stuck: its timeout is running, or it is marked and a server waits for its socket |
| `DnsRuns.SendsBound` | react/ios/Pods/libevent/evdns.c:885-2218 | how often a request can be sent in all, over all servers |
| `EventQueues.EventBase.RemoveInserted` | react/ios/Pods/libevent/event.c:3223-3234 | flag and queues stay in step, and the count falls by one unless the event is internal |
| `EventQueues.EventBase.InsertInserted` | react/ios/Pods/libevent/event.c:3360-3374 | flag and queues stay in step, and the count rises by one unless the event is internal |
| `EventQueues.EventBase.RemoveActive` | react/ios/Pods/libevent/event.c:3235-3250 | the callback leaves the queue of its priority, and the counters follow |
| `EventQueues.EventBase.InsertActive` | react/ios/Pods/libevent/event.c:3376-3395 | the callback is at the end of the queue of its priority, once, and the counters follow |
| `EventQueues.EventBase.RemoveLater` | react/ios/Pods/libevent/event.c:3251-3265 | the callback leaves the later queue, and the counters follow |
| `EventQueues.EventBase.InsertLater` | react/ios/Pods/libevent/event.c:3397-3412 | the callback is in the later queue, once, unless it is active |
| `EventQueues.EventBase.RemoveTimeout` | react/ios/Pods/libevent/event.c:3266-3286 | the event leaves the heap or its common queue, whichever its timeout says |
| `EventQueues.EventBase.InsertTimeout` | react/ios/Pods/libevent/event.c:3414-3436 | the event is in the heap, or at its place in its common queue, which stays sorted |
| `EventQueues.EventBase.InsertInorder` | react/ios/Pods/libevent/event.c:3330-3358 | scanning from the end puts the event behind all that are not later |
| `EventQueues.EventBase.MakeLaterActive` | react/ios/Pods/libevent/event.c:3438-3451 | every callback due later is in the active queue of its priority, in order |
| `EventLoop.EventDel` | react/ios/Pods/libevent/event.c:2809-2898 | the event is in no queue any more; a finalizing one is left alone unless asked for; no queue of common timeouts gets an earlier head |
| `EventLoop.EventActive` | react/ios/Pods/libevent/event.c:2918-2967 | the event is active unless it is finalizing; a timeout is noted as a result, and one noted before stays if the event was still queued |
| `EventLoop.EventActiveLater` | react/ios/Pods/libevent/event.c:2977-2992 | the event is due later unless it is active |
| `EventLoop.CallbackActivate` | react/ios/Pods/libevent/event.c:3005-3034 | the callback is active exactly once, and 1 is returned exactly if it was not queued |
| `EventLoop.Schedule` | react/ios/Pods/libevent/event.c:1449-1456 | the internal event is in the heap for the head of its queue |
| `EventLoop.EventAdd` | react/ios/Pods/libevent/event.c:2596-2766 | which flags, deadline and queue the event has afterwards, on every branch including failure: a relative timeout counts from now, an absolute one is the deadline; every common queue is still driven |
| `EventLoop.UserDel` | react/ios/Pods/libevent/event.c:2809-2898 | deleting an event of a user leaves the others and all timers as they are |
| `EventLoop.UserActive` | react/ios/Pods/libevent/event.c:2918-2967 | activating an event of a user keeps every common queue driven |
| `EventLoop.UserActiveLater` | react/ios/Pods/libevent/event.c:3036-3047 | the same, for later |
| `EventLoop.CallbackCancel` | react/ios/Pods/libevent/event.c:3068-3096 | a cancelled callback is in no queue |
| `EventLoop.EventFinalize` | react/ios/Pods/libevent/event.c:2246-2258 | a finalizing event is in no queue of timeouts and is activated to be finalized |
| `EventLoop.CallbackFinalize` | react/ios/Pods/libevent/event.c:2288-2303 | the same for a bare callback |
| `EventLoop.TimeoutNext` | react/ios/Pods/libevent/event.c:3142-3177 | no time to wait if and only if the heap is empty; zero if and only if some deadline in it has come; otherwise the time to the deadline of an event of the heap, and no other is earlier |
| `EventLoop.NoTimeoutForgotten` | react/ios/Pods/libevent/event.c:3142-3177 | now plus that wait is not past the deadline of any event with a timeout, be it in the heap or in a common queue, unless the wait is zero |
| `EventLoop.TimeoutProcess` | react/ios/Pods/libevent/event.c:3180-3204 | terminates with nothing due left in the heap; exactly the events whose deadline has come are out of every queue, active, and have EV_TIMEOUT for a result |
| `EventLoop.CommonTimeoutCallback` | react/ios/Pods/libevent/event.c:1461-1482 | nothing due is left in the queue, which is scheduled again if it is not empty |
| `EventLoop.TakeActive` | react/ios/Pods/libevent/event.c:1633-1751 | the first active callback is dequeued or deleted before it runs; a timer that is taken counts as being called |
| `EventLoop.PersistClosure` | react/ios/Pods/libevent/event.c:1561-1624 | the next deadline is the last one plus the interval when the timeout ran off and that is not past, else now plus the interval; an event to be registered again first gets it only if that succeeds |
| `EventLoop.LaterToActive` | react/ios/Pods/libevent/event.c:3438-3451 | the later queue is emptied into the active ones in order |
| `EventLoop.WhereFlagsSay` | react/ios/Pods/libevent/event.c:3963-4020 | each callback is in the queues its flags say, exactly once, never in two active queues, and a finalizing one in no queue of timeouts |
| `EventLoop.NewEvent` | react/ios/Pods/libevent/event.c:2112-2161 | a new event is in no queue |
| `EventLoop.InitCommonTimeout` | react/ios/Pods/libevent/event.c:1486-1558 | one queue per duration in normal form, found again when it exists, refused when there are too many |
| `EventLoop.SameQueue` | react/ios/Pods/libevent/event.c:1487-1500 | two durations of the same length share a queue if and only if both or neither give a second as 1000000 microseconds |
| `EventRuns.Run` | react/ios/Pods/libevent/event.c:1450-3177 | after any run of what users and the loop do: the loop does not wait if some deadline has come, and now plus its wait is never past the deadline of an event with a timeout; it is not woken without a deadline in the heap that is reached |
| `EventRuns.OnTime` | react/ios/Pods/libevent/event.c:2532-3248 | an event added with a relative timeout of t at some time has expired at the next round of timeouts if and only if that is at least t later |
| `EventMap.EventMap.MakeSpace` | react/ios/Pods/libevent/evmap.c:204-232 | the slot exists, the entries are kept, and the size is the least doubling that reaches it |
| `EventMap.EventMap.GetOrConstruct` | react/ios/Pods/libevent/evmap.c:834-863 | one change entry per descriptor, with the back-index exact |
| `EventMap.EventMap.ChangelistAdd` | react/ios/Pods/libevent/evmap.c:865-893 | the entry, applied to what the backend has, now yields the kinds with the new ones |
| `EventMap.EventMap.ChangelistDel` | react/ios/Pods/libevent/evmap.c:895-946 | the entry, applied to what the backend has, now yields the kinds without the old ones |
| `EventMap.EventMap.IoAdd` | react/ios/Pods/libevent/evmap.c:272-349 | the event is on the list of its descriptor, the three counts are exact, 1 exactly if a kind is newly wanted, -1 exactly if a count would overflow or no array the source makes reaches the descriptor |
| `EventMap.EventMap.IoDel` | react/ios/Pods/libevent/evmap.c:353-417 | one occurrence is off the list, the counts are exact, 1 exactly if a kind is not wanted any more |
| `EventMap.EventMap.RemoveAll` | react/ios/Pods/libevent/evmap.c:778-797 | no change is left and every back-index is cleared |
| `EventMap.EventMap.Dispatch` | react/ios/Pods/libevent/evmap.c:778-946 | after any adds and deletes, one backend operation per changed descriptor leaves the backend with exactly the kinds that have events |
| `EventMap.CountsWanted` | react/ios/Pods/libevent/evmap.c:272-417 | a count is positive exactly when an event of its kind is on the list |
| `EventMap.FaithfulOperation` | react/ios/Pods/libevent/evmap.c:865-946 | a faithful change never selects an impossible table entry, and its operation is legal and turns the old set into the wanted one |
| `EpollTable.TableRule` | react/ios/Pods/libevent/epolltable-internal.h:40-130 | all 512 entries of the table are what the rule in its comment says |
| `TokenBucket.RefillMeaning` | react/ios/Pods/libevent/bufferevent_ratelim.c:73-111 | the overflow-safe update is min(maximum, limit + ticks * rate), and no intermediate value wraps |
| `TokenBucket.RefillOverfull` | react/ios/Pods/libevent/bufferevent_ratelim.c:73-111 | a limit above its maximum is cut back if and only if the tokens to be added reach the difference as it wraps around; below that the refill goes on adding |
| `TokenBucket.Overfilled` | react/ios/Pods/libevent/bufferevent_ratelim.c:73-111 | a bucket above its maximum that is refilled further |
| `TokenBucket.Bucket.Reinit` | react/ios/Pods/libevent/bufferevent_ratelim.c:49-71 | limits above the new maxima are cut down to them |
| `TokenBucket.Bucket.Update` | react/ios/Pods/libevent/bufferevent_ratelim.c:73-111 | both limits are refilled by the elapsed ticks, across wrap-around of the counter; no ticks or too many change nothing |
| `TokenBucket.RunBound` | react/ios/Pods/libevent/bufferevent_ratelim.c:73-111 | over any run the limit stays within its maximum and the bytes charged plus what is left are at most the first limit plus rate times elapsed ticks |
| `TokenBucket.ChargedBound` | react/ios/Pods/libevent/bufferevent_ratelim.c:73-111 | with a limit that is not negative in the end, the bytes charged are at most the first limit plus rate times elapsed ticks |
| `TokenBucket.Recovery` | react/ios/Pods/libevent/bufferevent_ratelim.c:73-111 | without traffic any level within the maximum is reached in as many ticks as the rate needs |
| `RateLimits.RateLimits.GetRlimMax` | react/ios/Pods/libevent/bufferevent_ratelim.c:197-258 | the least of the own limit, which has grown by rate times ticks passed within its maximum, and the share of the group, never negative; zero and suspended when the group is |
| `RateLimits.RateLimits.DecrementOwn` | react/ios/Pods/libevent/bufferevent_ratelim.c:272-346 | the limit falls by the bytes and the side is suspended exactly when it is used up, with the timer pending |
| `RateLimits.RateLimits.DecrementLimit` | react/ios/Pods/libevent/bufferevent_ratelim.c:968-993 | suspension follows the limit over zero in both directions |
| `RateLimits.RateLimits.RefillCallback` | react/ios/Pods/libevent/bufferevent_ratelim.c:393-439 | for n ticks passed each limit is min(maximum, limit + n * rate) and the last update is at this tick; a side with tokens is released, and the timer is pending again if one is still suspended |
| `RateLimits.RateLimits.SetRateLimit` | react/ios/Pods/libevent/bufferevent_ratelim.c:559-635 | a first configuration starts with the rates for limits at this tick, another one cuts the limits down to its maxima; either suspends exactly the sides without tokens, and none removes the suspensions |
| `RateLimits.RateLimits.GroupSuspend` | react/ios/Pods/libevent/bufferevent_ratelim.c:349-371 | the members that can be locked are suspended, the group is marked |
| `RateLimits.RateLimits.GroupUnsuspend` | react/ios/Pods/libevent/bufferevent_ratelim.c:487-504 | the members that can be locked are released; a missed one leaves the release pending |
| `RateLimits.SweepRandom` | react/ios/Pods/libevent/bufferevent_ratelim.c:441-485 | visiting the members in two parts from a random start reaches every member once |
| `RateLimits.RateLimits.DecrementGroup` | react/ios/Pods/libevent/bufferevent_ratelim.c:272-346 | the limit of the group falls and the group is suspended exactly when it is used up |
| `RateLimits.RateLimits.DecrementGroupLimit` | react/ios/Pods/libevent/bufferevent_ratelim.c:1024-1042 | suspension of the group follows its limit over zero in both directions |
| `RateLimits.RateLimits.GroupRefillCallback` | react/ios/Pods/libevent/bufferevent_ratelim.c:528-557 | for n ticks passed each limit of the group is min(maximum, limit + n * rate) and the last update is at this tick; the group is released when it has its minimum share again, or when a release is pending |
| `RateLimits.RateLimits.SetGroupCfg` | react/ios/Pods/libevent/bufferevent_ratelim.c:671-700 | limits within the new maxima, the minimum share within the new rates |
| `RateLimits.RateLimits.SetMinShare` | react/ios/Pods/libevent/bufferevent_ratelim.c:702-721 | the minimum share is the one configured, but within both rates |
| `RateLimits.RateLimits.Enter` | react/ios/Pods/libevent/bufferevent_ratelim.c:734-778 | the bufferevent is in the group and in no other, and is to be suspended if the group is; one that is in it already is left alone |
| `RateLimits.RateLimits.FinishJoin` | react/ios/Pods/libevent/bufferevent_ratelim.c:734-778 | the suspensions read from the group take effect |
| `RateLimits.RateLimits.Leave` | react/ios/Pods/libevent/bufferevent_ratelim.c:786-807 | the bufferevent is in no group and suspended for none |
| `RateLimits.NothingStuck` | react/ios/Pods/libevent/bufferevent_ratelim.c:349-807 | in every reachable state, whichever locks could not be had: a side suspended for its own bandwidth has its timer pending or firing, one suspended for its group is in a group that is suspended or has a release pending |
| `RateLimitRuns.Run` | react/ios/Pods/libevent/bufferevent_ratelim.c:272-807 | the same after any sequence of sections of code by any threads, whichever locks cannot be had |
| `RateLimits.GroupRecovers` | react/ios/Pods/libevent/bufferevent_ratelim.c:528-557 | without traffic a group is released after as many ticks as the rate needs to bring it to the minimum share |
| `RateLimits.ReleasedMembers` | react/ios/Pods/libevent/bufferevent_ratelim.c:487-523 | then no member is suspended for it |
| `RateLimits.UpdatedIs` | react/ios/Pods/libevent/bufferevent_ratelim.c:73-111 | the limit after n ticks, for a limit within its maximum: min(maximum, limit + n * rate), across the wrap-around of the tick counter |
| `RateLimits.ShareIs` | react/ios/Pods/libevent/bufferevent_ratelim.c:242-247 | the share of a group: no less than the minimum share, and above it the limit divided by the number of members |
| `RateLimitRuns.BevRecovers` | react/ios/Pods/libevent/bufferevent_ratelim.c:393-439 | calls of the refill callback a tick apart, without traffic: after k of them with limit + k * rate > 0 the suspension of that side is cleared |
| `RateLimitRuns.GroupRecovery` | react/ios/Pods/libevent/bufferevent_ratelim.c:528-557 | calls of the refill callback of a group a tick apart, without traffic and with no lock missed: as soon as limit + k * rate reaches the minimum share the group and all its members are released |
| `Tagging.EncodeIntInternal` | react/ios/Pods/libevent/event_tagging.c:121-148 | the bytes written, for a number of k hexadecimal digits: k - 1 in the high half of the first byte, the digits behind it, least significant first, no more bytes than they need |
| `Tagging.EncodeTag` | react/ios/Pods/libevent/event_tagging.c:177-198 | the bytes appended: byte i has digit i of the tag to the base 128 in its low bits, and its high bit set if and only if another byte follows; no more bytes than the tag needs |
| `Tagging.Marshal` | react/ios/Pods/libevent/event_tagging.c:260-267 | the bytes of the tag, of the length and the payload are appended as one record; when the buffer gets too long, exactly the parts that do not fit are missing |
| `Tagging.MarshalInt` | react/ios/Pods/libevent/event_tagging.c:280-289 | a record whose payload is the encoded integer is appended, with the parts missing that do not fit |
| `Tagging.MarshalBuffer` | react/ios/Pods/libevent/event_tagging.c:269-277 | the payload moves over and leaves its buffer empty, even if tag or length does not fit |
| `Tagging.DecodeTagInternal` | react/ios/Pods/libevent/event_tagging.c:200-246 | the tag ends at the first byte below 128, of five at most, a fifth of four bits at most; it is the number with the low bits for digits, and its width is returned, or -1; the bytes are drained if asked for |
| `Tagging.DecodeIntInternal` | react/ios/Pods/libevent/event_tagging.c:319-377 | the number whose digits are the half bytes behind the first, as many as that says, and its width; -1 exactly when there are too many digits for its type or too few bytes |
| `Tagging.Peek` | react/ios/Pods/libevent/event_tagging.c:399-403 | the tag, nothing consumed |
| `Tagging.PeekLength` | react/ios/Pods/libevent/event_tagging.c:405-421 | the full size of the record, nothing consumed |
| `Tagging.UnmarshalHeader` | react/ios/Pods/libevent/event_tagging.c:441-455 | the length and tag, or -1 with exactly the bytes gone that the source drains first |
| `Tagging.Consume` | react/ios/Pods/libevent/event_tagging.c:457-466 | the first record is gone and nothing else; a payload of 2^31 bytes and more has its length turned negative, and the bytes that go are those of the size it is then read as, or none when it reads as -1 |
| `Tagging.Unmarshal` | react/ios/Pods/libevent/event_tagging.c:470-484 | the payload of the first record is appended to the destination and the record is gone; a payload too long for an int or for the destination gives -1 with the header gone |
| `Tagging.UnmarshalInt` | react/ios/Pods/libevent/event_tagging.c:488-512 | the integer of the next record if its tag is the one needed, and what is left on each error |
| `Tagging.IntRoundTrip` | react/ios/Pods/libevent/event_tagging.c:280-301 | a marshalled integer of either width is unmarshalled as the same number and leaves what followed it |
| `TagCodec.DecEncInt` | react/ios/Pods/libevent/event_tagging.c:121-148 | decoding an encoded integer gives it back and takes exactly the encoded bytes, whatever follows |
| `TagCodec.DecEncTag` | react/ios/Pods/libevent/event_tagging.c:177-246 | the same for every 32-bit tag |
| `TagCodec.DecEncRecord` | react/ios/Pods/libevent/event_tagging.c:260-267 | the same for a record |
| `TagCodec.EncTagWire` | react/ios/Pods/libevent/event_tagging.c:177-198 | the bytes of every tag, by arithmetic on the tag alone |
| `TagCodec.DecTagWire` | react/ios/Pods/libevent/event_tagging.c:200-246 | which bytes are a tag, and which tag, in every byte sequence |
| `TagCodec.EncIntWire` | react/ios/Pods/libevent/event_tagging.c:121-148 | the bytes of every integer, by arithmetic on the integer alone |
| `TagCodec.DecIntWire` | react/ios/Pods/libevent/event_tagging.c:319-377 | which bytes are an integer, and which, in every byte sequence |
| `TagCodec.EncRecordWire` | react/ios/Pods/libevent/event_tagging.c:260-267 | a record is the bytes of its tag, the bytes of its length and its payload |
| `TagCodec.DecRecordWire` | react/ios/Pods/libevent/event_tagging.c:441-455 | which record is at the front of any byte sequence, and its size, or that there is none |
| `TagCodec.StreamRoundTrip` | react/ios/Pods/libevent/event_tagging.c:260-484 | any sequence of records is read back as the same sequence with nothing left |
| `Tagging.HeaderRecord` | react/ios/Pods/libevent/event_tagging.c:441-455 | a record can be read exactly when its header can and the payload is all there |
| `BufferPair.Transfer` | react/ios/Pods/libevent/bufferevent_pair.c:152-192 | bytes move in order, stop at the high watermark unless it is ignored, and never lift the input above it in a normal transfer |
| `BufferPair.Talk` | react/ios/Pods/libevent/bufferevent_pair.c:194-222 | afterwards data is left only if the partner is held back or one side does not want to talk |
| `BufferPair.WatermarkCallback` | react/ios/Pods/libevent/bufferevent.c:135-149 | reading is suspended exactly at the high watermark and resumed below it |
| `BufferPair.UnsuspendWatermark` | react/ios/Pods/libevent/bufferevent.c:77-86 | resuming lets the partner write until it stalls for a reason |
| `BufferPair.Pipe.Write` | react/ios/Pods/libevent/bufferevent_pair.c:204-222 | what is written is appended to the history; delivered, waiting and unsent bytes are that history, in order |
| `BufferPair.Pipe.Read` | react/ios/Pods/libevent/bufferevent.c:135-149 | the reader gets the next bytes in order, and room below the watermark lets more come |
| `BufferPair.Pipe.EnableReading` | react/ios/Pods/libevent/bufferevent_pair.c:224-250 | enabled reading lets what waits come over |
| `BufferPair.Pipe.EnableWriting` | react/ios/Pods/libevent/bufferevent_pair.c:224-250 | enabled writing lets what waits go over |
| `BufferPair.Pipe.Disable` | react/ios/Pods/libevent/bufferevent_pair.c:252-262 | exactly the flags asked for are cleared |
| `BufferPair.Pipe.Suspend` | react/ios/Pods/libevent/bufferevent.c:66-75 | exactly the holds asked for are set |
| `BufferPair.Pipe.UnsuspendReading` | react/ios/Pods/libevent/bufferevent.c:77-86 | lifting a hold does not leave data stalled |
| `BufferPair.Pipe.UnsuspendWriting` | react/ios/Pods/libevent/bufferevent.c:99-108 | lifting a hold does not leave data stalled |
| `BufferPair.Pipe.SetWatermark` | react/ios/Pods/libevent/bufferevent.c:593-638 | a new high mark suspends or resumes at once, and no byte is lost |
| `BufferPair.Pipe.Flush` | react/ios/Pods/libevent/bufferevent_pair.c:304-337 | a partner below its watermark gets bytes up to it, one at it or without one gets all; everything goes over if and only if there is no watermark, the partner is at it, or all fits below it |
| `BufferPair.Pair.Enable` | react/ios/Pods/libevent/bufferevent_pair.c:224-250 | both directions of a pair stay first-in first-out without a stall |
| `BufferPair.Pair.Flush` | react/ios/Pods/libevent/bufferevent_pair.c:304-337 | the directions asked for are flushed so; BEV_NORMAL returns 0 and moves nothing; -1 exactly when there is no partner |
| `BufferPair.FlushStops` | react/ios/Pods/libevent/bufferevent_pair.c:152-192 | a flush that leaves five of ten bytes behind |
| `BufferPair.Pair.Unlink` | react/ios/Pods/libevent/bufferevent_pair.c:264-274 | both sides lose their partner and keep their bytes |
| `InetText.QuadRoundTrip` | react/ios/Pods/libevent/evutil.c:1901-1914 | every IPv4 address is read back from its text |
| `Inet.FindGap` | react/ios/Pods/libevent/evutil.c:1943-1960 | the loop finds the first longest run of at least two zero words, or none |
| `Inet.PrintWords` | react/ios/Pods/libevent/evutil.c:1962-1979 | the printing loop writes the words with that run left out |
| `Inet.InetNtop` | react/ios/Pods/libevent/evutil.c:1895-1989 | the text of an address of either family, and exactly when it is refused for want of room |
| `Inet.CompressedRun` | react/ios/Pods/libevent/evutil.c:1943-1979 | in pure hexadecimal form the run left out is the first longest run of zero words if it has at least two; else all words are printed |
| `Inet.CopyComplete` | react/ios/Pods/libevent/evutil.c:1980-1983 | the text is returned whole if and only if it is shorter than the buffer: one of exactly that size is accepted and loses a character |
| `Inet.CutText` | react/ios/Pods/libevent/evutil.c:1980-1983 | so an address whose text just fits can be returned as the text of another address |
| `Inet.TextLength` | react/ios/Pods/libevent/evutil.c:1917-1921 | no text overflows the buffer it is put together in |
| `InetForms.TextForm` | react/ios/Pods/libevent/evutil.c:1895-1985 | what is printed for every IPv6 address, on its bytes: ten zero bytes followed by two more and two nonzero words, or by two bytes 0xff, give :: or ::ffff: and the last four bytes as a dotted quad; otherwise two colons stand for the first longest run of two or more zero words, and the other words, high byte first, are in lower-case hexadecimal without leading zeros between colons |
| `InetForms.DottedQuad` | react/ios/Pods/libevent/evutil.c:1901-1914 | what is printed for every IPv4 address: four decimal numbers without leading zeros, dots between them |
| `Numerals.HexNumeral` | react/ios/Pods/libevent/evutil.c:1962-1979 | a number in hexadecimal digit by digit: each beginning of the text spells 16 times the one before it plus the place of its last digit among 0 to f |
| `InetRead.ReadGroups` | react/ios/Pods/libevent/evutil.c:2079-2108 | the scanning loop reads the words and the gap that Groups defines |
| `InetRead.InetPton6` | react/ios/Pods/libevent/evutil.c:2045-2131 | 1 and the address a text stands for, or 0 and nothing stored; the answer -1 for this family never comes |
| `InetRead.InetPton` | react/ios/Pods/libevent/evutil.c:2026-2136 | the same for both families |
| `InetRoundTrip.ReadForms` | react/ios/Pods/libevent/evutil.c:2045-2136 | every text in one of the forms of section 2.2 of RFC 4291 is read as its address: words of up to four digits in either case, leading zeros or not, one run of zero words of any length left out anywhere, the last two words as a dotted quad |
| `InetRoundTrip.QuadBack` | react/ios/Pods/libevent/evutil.c:2033-2042 | every four decimal numbers up to 255 with dots between them are read as those bytes |
| `InetRoundTrip.TextRoundTrip` | react/ios/Pods/libevent/evutil.c:1895-2136 | for every IPv6 address the text printed is read as the same address, with the gap at the start, in the middle or at the end and in both dotted forms |
| `InetRoundTrip.TextInjective` | react/ios/Pods/libevent/evutil.c:1895-1989 | no two addresses have the same text |
| `SockaddrText.FormatSockaddrPort` | react/ios/Pods/libevent/evutil.c:2245-2272 | address and port in one text, cut to the buffer; a buffer of size zero is left alone |
| `SockaddrText.SockaddrForm` | react/ios/Pods/libevent/evutil.c:2245-2272 | what the text of a socket address is made of: the address in its form, in brackets for IPv6, a colon and the port in decimal; for another family its number |
| `SockaddrText.ParseV4` | react/ios/Pods/libevent/evutil.c:2138-2272 | every four decimal numbers up to 255 with dots between them are read as an IPv4 address with port zero, and with a colon and a port behind them exactly when that is one of 1 to 65535 |
| `SockaddrText.ParseV6` | react/ios/Pods/libevent/evutil.c:2138-2272 | every text of an IPv6 address is read alone and in brackets with port zero, and in brackets with a colon and a port exactly when that is one of 1 to 65535 |
| `SockaddrText.SockaddrRoundTrip` | react/ios/Pods/libevent/evutil.c:2138-2272 | the text of an address and port is read as the same if and only if the port is not zero and there is no scope |
| `MonotonicClock.MonotonicTimer.AdjustMonotonicTime` | react/ios/Pods/libevent/evutil_time.c:230-245 | the time shown is the later of the last one and the corrected reading, the correction is their difference, and both stay normalised |
| `MonotonicClock.RunProgress` | react/ios/Pods/libevent/evutil_time.c:230-245 | over any run the time shown is the latest reading plus the correction, and equals the sum of the steps forward of the source |
| `MonotonicClock.NeverBack` | react/ios/Pods/libevent/evutil_time.c:230-245 | no later reading shows an earlier time or a smaller correction |
| `MonotonicClock.Advance` | react/ios/Pods/libevent/evutil_time.c:230-245 | each reading advances by exactly max(0, change of the source) |
| `ChatServer.Server.Arrive` | node/server.js:101-107 | a request starts at the first database call of its handler |
| `ChatServer.Server.Call` | node/server.js:101-404 | one database call and the handler code up to the next one, for every outcome of the call; one that fails changes no collection, and any that is reported as failed ends the request with an error; the other requests stay as they are |
| `ChatDelivery.Serve` | node/server.js:101-404 | a request served alone on an exact database, told by the documents alone. A message of two users with a chat goes to the end of the log of that chat, which both then see, and nothing else changes; without one, a new message opens one with a new id and a log of that message. AddUser adds the user and an inbox. Refused requests change nothing. NoSuchUser exactly when no user has the name of the recipient up to case, Success exactly when both inboxes were written: not for a message to oneself, nor when the same text was sent at the same time before |
| `ChatDelivery.Delivers` | node/server.js:101-404 | the same for every request on every exact database |
| `ChatCache.NextJustified` | node/server.js:101-404 | every call of any request, whether it succeeds, fails, or fails after taking effect, keeps each cached entry backed by a logged message |
| `ChatCache.CacheJustified` | node/server.js:101-377 | in every interleaving, an entry of u for v shows the text and time of a logged message that u or v sent in a request between these two |
| `ChatRuns.ResultExact` | node/server.js:101-404 | a request served alone leaves ids and pairs unique and every inbox exact if and only if it does not start a chat with a user who has no inbox |
| `ChatRuns.RegisteredExact` | node/server.js:101-404 | any number of requests served one after the other, with new chats between registered users: chat ids and unordered pairs are unique, and both sides of each chat show the last message of its log and nothing else |
| `ChatRuns.ResultNewChat` | node/server.js:183-377 | the case-insensitive look at the user list does not suffice: a new chat keeps the inboxes exact if and only if both users have one under exactly that name |
| `ChatRuns.OneSided` | node/server.js:183-377 | three requests after which a chat has an inbox on one side only |
| `ChatRaces.UniqueIds` | node/server.js:262-276 | in every interleaving, whichever calls fail, chat ids are unique if and only if no chat of another request is inserted between reading the last id and inserting the own chat |
| `ChatRaces.UniquePairs` | node/server.js:183-276 | in every interleaving no two users have two chats if and only if no chat of the same two is inserted between looking for their chat and inserting it |
| `ChatRaces.UniqueBoth` | node/server.js:183-276 | ids and pairs are unique together if and only if there is no race of either kind |
| `ChatRaces.SameIdTwice` | node/server.js:262-276 | from an empty database: two requests both in front of reading the last id end with two chats 0 |

## Left out

- RemoveBuffer: what the destination holds is stated when both lengths together fit a size_t; beyond that the source's own copying is refused half way.
- SearchRange: for buffers of at most SIZE_MAX bytes, as the source's types have it.
- Capacity: a chunk of more than CHAIN_MAX - CHAIN_SIZE bytes (2^63 on 64-bit systems) is refused by the source; the model makes it, like every other chunk.
- Add: that refusal, which makes it fail with the contents unchanged, is not modelled.
- Prepend: that refusal, after which the bytes that fit in front of the first chunk stay, is not modelled.
- ReserveSpace: negative sizes, which the source turns into sizes no chunk can have and answers with -1.
- Readln: for buffers of at most SIZE_MAX bytes.
- GetRlimMax: the share of a group is the integer quotient by the number of members, and limits do not leave the range of ssize_t.
- RunBound: assumes that no charge takes a limit below the range of ssize_t, which the source does not check either.
- FormatResponse: the working buffer of the model has spare bytes behind its limit for the terminator that the source writes there, which it does exactly in the case of TerminatorPastLimit; what the buffer holds before is a parameter; that a packet is read back as a whole is stated for names without an empty label, as names with one are not (EndThroughTable).
- DnsnameToLabels: asks for that spare byte, so that the write behind the limit has a place in the model.
- AddServer: an address is a number that stands for address and port, and whether the socket can be set up is a parameter.
- TakeActive: the callback itself is the user's and runs between TakeActive and FinishCallback; it may call every operation meant for users.
- Run: the runs of buffers leave out searching and the reading of lines, whose contracts stand for themselves.
- Chain lists are sequences of chunk values that carry an address, not linked heap objects: aliasing of chunk storage, and a chunk reached after it was freed, cannot be expressed.
- Allocation is assumed to succeed throughout.
- Pinned, immutable, multicast and reference chains, file segments, freeze flags, callbacks and deferred callbacks of buffers.
- Sizes near SIZE_MAX passed to expand.
- Timevals, strings and fixed-size payloads in tagged records, which are records like the others; a tag wider than five bytes is refused without the read of a sixth byte that comes before the refusal in the source.
- DNS search domains, resolver configuration, getaddrinfo, TCP, the bytes of requests, and the randomness of transaction ids (any unused id may be picked).
- SendProbe: asks for fewer than 65535 requests in flight; with all ids in use the source would go on looking for one without end.
- Timers and sockets of the DNS base: a request knows whether its timeout is running, and a server whether it waits for its socket; that a timeout passes, a reply arrives or a socket can be written again is a call of the method that handles it; the limits on sends, reissues and timeouts are set before a run; evdns_base_clear_nameservers_and_suspend and disable_when_inactive.
- The heap is a set with a least element, as the minheap header is not part of this model; the same goes for the epoll backend beyond its table, whose system calls are taken to succeed.
- Edge-triggered and signal entries of the change list; event priorities set after an event is added.
- Signals, thread notification and waiting, event_continue, the limits on callbacks per loop round, debug checks; locks are critical sections around the methods.
- Rate limits: the traffic totals, and the timer of the group, which is always running.
- Bufferevent pairs: the two buffers of a direction are byte sequences, low watermarks, timeouts, callbacks of the user and destruction of one side are left out.
- IPv4 reading follows the C library's conversions as glibc does them on 64-bit systems; interface names are a map from names to numbers.
- Chat server: letters beyond ASCII in the case-insensitive comparison, HTTP, the read-only routes, and databases that answer a query with another than the first matching document.
- React components, Firebase, HTTP, RPC, filters, sockets, Windows code: no invariant to speak of, or foreign calls.

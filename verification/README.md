# Verified model of the RTSP/H.265 streaming server

The server plays a raw H.265 file to RTSP clients: it cuts an Annex B byte stream into NAL units, packetises each
for RTP, frames the packets for TCP interleaving or UDP, and writes them to the sessions that asked for them. This
project models that path from file bytes to wire bytes, the session list and the request handling that decide who
receives what, and the H.264 sender that shares the scanner and the RTP context.

`dafny verify dfyconfig.toml` checks everything.

## How it is organised

Code that changes things step by step is a class or a method with the same loops and in-place writes, proved
against a specification on values; the results about whole runs are lemmas about that specification.

| file | follows |
|---|---|
| `Bytes`, `Sequences`, `Wrappers` | big-endian writers of `src/Utils.cpp`; small facts |
| `StartCode` | the start-code scanner of `src/AVC.cpp` and the plain search it refines |
| `AnnexB` | Annex B of ITU-T H.265 and H.264; the splitting of the drivers in `src/RTPEnc.cpp` |
| `Units`, `H265`, `H264` | senders on values, receivers written from section 4.4 of RFC 7798 and section 5 of RFC 6184 |
| `Rtp` | RTP headers, interleaved frames, numbering |
| `RtpContext` | the context of `src/RTPEnc.h`, written in place |
| `RtpEnc` | the H.264 sender and driver of `src/RTPEnc.cpp` |
| `SessionRing` | the circular list of `src/LinkedListElement.h` |
| `FanOut`, `UdpTransport`, `Streamer` | `src/CStreamer.cpp`: delivery, the shared UDP sockets, the H.265 sender, the sweep over sessions |
| `RtspParser`, `RtspUrl`, `RtspRequest`, `RtspSession`, `RtspChunks`, `RtspStuck` | `src/CRtspSession.cpp`: the parser on values, the request lines it takes, requests as clients write them, the session class, requests in pieces, when the parser does not return |
| `RtspReplies`, `RtspMessages`, `Connection` | the replies of `src/CRtspSession.cpp`, and a client that reads them and the media between them off one connection |
| `SimStreamer`, `Worker`, `Viewer` | `src/SimStreamer.cpp`, `workerThread` of `main/main.cpp`, and what reaches a viewer |
| `Watching` | a client from the text of its requests to the units it gets |
| `Shortfalls` | inputs on which the program falls short |

Sockets are logs of what was written; what a socket delivers, which UDP ports are free, where the buffer lies in
memory, and the date and session number that replies mention are parameters. A session hands what it replies to the
sweep, which logs it at once, with the ports the streamer has after that call; replies and media on one socket thus
stand in the log in the order in which they were written.

Induction is written out: lemmas to which Dafny would apply its own say `{:induction false}`.

## Where the code falls short, and by how much

- The H.265 sender loses bytes exactly when a unit goes out alone while others are pending, or, sent whole, has type
  48 to 50; it changes a unit exactly when it fragments one whose F, LayerId or TID is not 0, 0, 1
  (`H265.RunConserves`, `Shortfalls.PendingUnitLost`, `Shortfalls.ReservedTypeLost`, `Shortfalls.HeaderLost`). The
  H.264 sender loses a unit that it sends whole with a type other than 1 to 23, or bytes that are pending with
  aggregation off, and the F bit of fragmented units (`H264.RunConserves`, `H264.NoneLossyExact`,
  `Shortfalls.OtherTypeLost`, `Shortfalls.LeftBehind`, `Shortfalls.ForbiddenBitLost`). Nothing in the repository sets
  `aggregation` after `src/RTPEnc.cpp:32` clears it, so in the shipped program nothing is ever pending.
- The player of `src/SimStreamer.cpp` assumes 4-byte start codes. A pass is right exactly when all but the last are
  (`SimStreamer.PassExact`, `Shortfalls.ShortCodeDrifts`); the driver loops of `src/RTPEnc.cpp` have no such limit
  (`AnnexB.SplitJoin`).
- A session destroyed without a UDP SETUP of its own, such as any TCP session, makes `m_udpRefCount` too small by
  one, and the next UDP SETUP then binds no socket (`UdpTransport.CountExact`, `UdpTransport.ReleaseFirst`).
- Where only the first port of a pair can be bound, `src/CStreamer.cpp:168` closes the RTCP socket that was not made,
  which is descriptor 0. The next socket made then gets that number, which reads as a failure, so that a port is
  passed over though its pair is free, and stays bound (`UdpTransport.SearchFinds`, `UdpTransport.LeastPair`,
  `UdpTransport.PairPassedOver`).
- A PLAY makes a session stream whether or not a SETUP came before it. Over UDP its units go to the viewer exactly
  while a UDP SETUP so far has bound a socket and the last accepted one has named a port; otherwise they are handed
  to a socket that is not there, or to port 0 (`Viewer.Joins`, `Viewer.ServeViewer`, `Shortfalls.NothingSetUp`).
- The parser is told the size of the last read only. For a request in several reads a CSeq or Content-Length line is
  refused exactly when that size ends between the line's name and the character after its number; if it ends before
  that, a number with no blank before it reads as 0, and one with a blank is refused
  (`RtspRequest.RequestAcceptance`, `RtspChunks.RequestInPieces`, `Shortfalls.SplitSetupRefused`,
  `Shortfalls.SplitSetupMisread`). Command type and flags do not depend on it (`RtspChunks.ChunkingIndependent`).
- A first read that does not hold a whole line is parsed as a request of the command before and dropped; a request cut
  within its command's name thus ends as a bad one (`RtspChunks.FirstPieceDropped`, `RtspChunks.CutNameRefused`).
- A line feed without CR ends a line as well, and the character before it is lost with it (`RtspRequest.LineFeedAlone`).
- In the Transport line of a SETUP, if the first CR after the protocol has no LF behind it, the parser loops forever,
  unless a client_port without digits in front of it makes it give up first; the model returns `Stuck` there. This is
  the only way not to return (`RtspStuck.ParserStuck`, `RtspStuck.HangingSetup`); a CR before the protocol does no
  harm (`RtspStuck.HarmlessCR`).
- The reply to a DESCRIBE of a stream that there is not (`src/CRtspSession.cpp:425-428`) lacks the empty line that
  ends its header, so a client takes what follows on the connection for more of it (`Connection.ReadsBack`,
  `Shortfalls.MediaAfterNotFound`).

## Model

| member | source | states |
|---|---|---|
| `StartCode.FindStartCodeInternal` | src/AVC.cpp:15-48 | for every buffer, every address of its first byte and every range: the least index below `to - 3` at which 00 00 01 starts, else `to`; every word load is at a multiple of four and the furthest byte read lies in the range |
| `StartCode.ZeroByteTest` | src/AVC.cpp:25-26 | the bit trick fires on a word if and only if one of its four bytes is zero |
| `StartCode.ClearWord` | src/AVC.cpp:25-39 | a word that passes the test or the four comparisons holds no start of a code at any of its four positions |
| `StartCode.FoundInWord` | src/AVC.cpp:27-38 | the first comparison that succeeds names the first code in the word, not merely some code |
| `StartCode.FindStartCode` | src/AVC.cpp:50-54 | the plain search, backed up by one byte when a zero precedes the code inside the range |
| `AnnexB.SkipStartCode` | src/RTPEnc.cpp:242-243 | the skipping loop stops just after the first non-zero byte, inside the stream when it starts at a code |
| `AnnexB.SkipStopsAtOne` | src/RTPEnc.cpp:242-243 | at a place where the scanner stopped, that byte is the 1 of the 3- or 4-byte code |
| `AnnexB.DriverTurn` | src/RTPEnc.cpp:239-255 | one turn of the loop hands on the next unit of the split of what is left, with `last` exactly when no code follows |
| `AnnexB.FindInBody` | src/RTPEnc.cpp:245 | after a unit followed by another, the scan stops at the unit's end if and only if the unit has no code inside and, before a 3-byte code, no zero at its end, and something follows that code |
| `AnnexB.SplitAtCodeExact` | src/RTPEnc.cpp:239-255 | the loop from a start code on returns the joined units if and only if they are recoverable |
| `AnnexB.SplitJoin` | src/RTPEnc.cpp:234-255 | splitting what was joined, with any mix of 3- and 4-byte codes, gives the same units in order with `last` on the final one only, if and only if all of them are recoverable: no code inside, no zero before a 3-byte code, final unit not empty |
| `Units.ParseEntry` | src/CStreamer.cpp:276-278 | a length-prefixed entry in front reads back as its unit, whatever follows |
| `Units.ParseAppend` | src/CStreamer.cpp:276-279 | appending an entry to a list that parses appends exactly its unit to what is read |
| `Bytes.Load16` | src/Utils.cpp:17-22 | writes the two big-endian bytes at the position, returns the next one, leaves every other byte |
| `Bytes.Load32` | src/Utils.cpp:24-29 | writes the four big-endian bytes at the position, returns the next one, leaves every other byte |
| `Bytes.Be16RoundTrip` | src/Utils.cpp:17-22 | the two bytes read back as the number |
| `Bytes.Be32RoundTrip` | src/Utils.cpp:24-29 | the four bytes read back as the number |
| `H265.FragmentShape` | src/CStreamer.cpp:332-364 | a fragmented unit of n bytes gives ceil((n-2)/1397) packets, all but the last exactly 1400 bytes, none with an empty payload, S on the first only, E on the last only |
| `H265.FragmentRoundTrip` | src/CStreamer.cpp:300-365 | a receiver of section 4.4.3 of RFC 7798 reassembles any unit over 1400 bytes, up to its F, LayerId and TID |
| `H265.AsReceivedExact` | src/CStreamer.cpp:332-333 | those header fields survive if and only if the unit has F = 0, LayerId = 0 and TID = 1, or is not fragmented |
| `H265.StepWellFormed` | src/CStreamer.cpp:231-286 | whatever is sent, the buffer stays empty or a type-48 aggregation packet of at least one unit that parses, at most 1400 bytes |
| `H265.StepReceived` | src/CStreamer.cpp:221-365 | a call that does not meet the lossy guard: what the receiver has plus what is pending grows by exactly the unit sent |
| `H265.StepBulk` | src/CStreamer.cpp:287-298 | a call that meets the lossy guard puts strictly less on the wire and in the buffer than went in, so no receiver can make it up |
| `H265.RunReceived` | src/CStreamer.cpp:221-365 | the same over whole runs, by induction |
| `H265.RunBulk` | src/CStreamer.cpp:221-365 | a run with one lossy call ends strictly short |
| `H265.RunConserves` | src/CStreamer.cpp:221-365 | over every run, from every well-formed buffer: the receiver's units followed by the pending ones are exactly the earlier ones followed by those submitted, if and only if no call meets the lossy guard and every fragmented unit has F = 0, LayerId = 0, TID = 1 |
| `H265.NoneLossyWithoutAggregation` | src/CStreamer.cpp:231-298 | with aggregation off the lossy guard comes down to the unit types: no unit of at most 1400 bytes has type 48, 49 or 50 |
| `H265.NoneLossyWithAggregation` | src/CStreamer.cpp:231-298 | with aggregation on no call is lossy if and only if every unit of 1397 to 1400 bytes has a type other than 48 to 50 and finds nothing waiting: no pending bytes before the first call, no smaller unit right before it that was not flushed |
| `H265.SendSmall` | src/CStreamer.cpp:221-365 | no packet and no buffer content exceeds 1400 bytes |
| `H265.WaitsWhileFits` | src/CStreamer.cpp:235-285 | with aggregation on, a call sends what is pending exactly when the unit does not fit behind it in 1400 bytes, and its own unit exactly when it is the last |
| `H264.FragmentShape` | src/RTPEnc.cpp:178-216 | number and sizes of the FU-A packets, S on the first only, E and the RTP marker on the last only |
| `H264.FragmentRoundTrip` | src/RTPEnc.cpp:163-217 | a receiver of section 5.8 of RFC 6184 reassembles any fragmented unit, up to its F bit |
| `H264.SummariseMore` | src/RTPEnc.cpp:123-137 | taking account of one more unit keeps the STAP-A header at type 24, NRI the maximum and F the OR of the units |
| `H264.Filled` | src/RTPEnc.cpp:104-143 | after any append the buffer is a STAP-A packet whose header summarises, and whose entries read back as, the units since the last flush |
| `H264.WaitsWhileFits` | src/RTPEnc.cpp:104-149 | the same for STAP-A packets |
| `H264.StepReceived` | src/RTPEnc.cpp:87-218 | a call that does not meet the lossy guard (with aggregation off: something pending, or a unit sent whole that is empty or not of type 1 to 23) adds exactly its unit to what the receiver has plus what is pending |
| `H264.StepBulk` | src/RTPEnc.cpp:151-161 | a call that meets the guard puts strictly less on the wire and in the buffer than went in |
| `H264.RunReceived` | src/RTPEnc.cpp:87-218 | over whole runs without a lossy call the receiver and the buffer have exactly the units submitted, up to the F bit of fragmented ones |
| `H264.RunConserves` | src/RTPEnc.cpp:87-218 | over every run, from every well-formed buffer, for which the buffer has room: conserved if and only if no call meets the lossy guard and no fragmented unit has its F bit set |
| `H264.NoneLossyExact` | src/RTPEnc.cpp:87-218 | with aggregation on no call is lossy; with aggregation off none if and only if all units sent whole have types 1 to 23 and, if something is pending, the first unit is fragmented |
| `H264.RunMarks` | src/RTPEnc.cpp:145-149 | a run whose final call alone is flagged `last` marks exactly its final packet and leaves the buffer empty |
| `Rtp.DatagramRoundTrip` | src/CStreamer.cpp:86-95 | header and payload read back as the packet (section 5.1 of RFC 3550) |
| `Rtp.FramesRoundTrip` | src/CStreamer.cpp:81-95 | the concatenated interleaved frames of any packets read back as exactly those packets (section 10.12 of RFC 2326) |
| `Rtp.DatagramsRoundTrip` | src/RTPEnc.cpp:61-71 | the same for datagrams |
| `Rtp.NumberedAppend` | src/CStreamer.cpp:132 | numbering continues across calls, modulo 2^16 |
| `Rtp.TimedRun` | main/main.cpp:39-40 | timestamps that advance between calls change neither payloads nor markers, and the k-th packet of the run carries (seq + k) mod 65536 |
| `Rtp.TimedClock` | src/RTPEnc.cpp:253 | in a run of calls with the clock advanced after each, every packet of the k-th call carries the first timestamp and k ticks, modulo 2^32 |
| `Rtp.Reordering` | src/CStreamer.cpp:90-132 | any permutation of at most 65536 consecutive packets, sorted by (seq - base) mod 65536, is the order they were sent in, wherever the numbers wrap |
| `RtpContext.RtpMuxContext.constructor` | src/RTPEnc.cpp:27-36 | the initial context: nothing pending, aggregation off, counters 0 |
| `RtpContext.RtpMuxContext.WriteHeader` | src/CStreamer.cpp:87-92 | the twelve header bytes in the cache, nothing in front of them touched |
| `RtpContext.RtpMuxContext.WritePacket` | src/CStreamer.cpp:86-95 | header and payload in the cache are the packet's datagram, in bounds |
| `RtpContext.RtpMuxContext.AppendEntry` | src/CStreamer.cpp:276-279 | what is pending grows by the length-prefixed unit |
| `RtpContext.RtpMuxContext.Finish` | src/CStreamer.cpp:128-132 | the first 1410 bytes of the cache are cleared and the last six kept, the buffer restarts, the number advances modulo 2^16 |
| `FanOut.DeliverAt` | src/CStreamer.cpp:103-119 | one packet, seen from one of several sessions: its frame over TCP, its datagram over UDP, nothing if inactive |
| `FanOut.BroadcastOne` | src/CStreamer.cpp:100-132 | sending one more payload adds exactly its packet, for every session, under the next number |
| `FanOut.LogViews` | src/CStreamer.cpp:100-119 | over any run of media writes, while sessions come and go: the connection, and each UDP port of the peer, of a session that is active, and reachable there, throughout gets every packet, and only those; datagrams count only if they leave from a bound socket to a port that is not 0 |
| `FanOut.FanOutAgrees` | src/CStreamer.cpp:100-119 | for two sessions active throughout, the datagrams that reach the port of the UDP one are the frames of the TCP session's media writes without the 4-byte prefix, same count and order |
| `FanOut.InactiveGetsNothing` | src/CStreamer.cpp:106 | a session throughout inactive, or on UDP without a bound socket or a client port, is sent no media, or none that reaches any port |
| `FanOut.Silent` | src/CStreamer.cpp:106 | no socket call is made for a session that does not stream or is stopped |
| `Streamer.CStreamer.Deliver` | src/CStreamer.cpp:100-119 | the traversal writes the cached packet to each active session of the list once, in order |
| `Streamer.CStreamer.RtpSendData` | src/CStreamer.cpp:59-134 | one payload goes out to all active sessions as the next numbered packet; the buffer restarts; no stale cache byte is sent |
| `Streamer.CStreamer.SendFragments` | src/CStreamer.cpp:353-364 | the loop that advances through the unit sends exactly the fragments of the specification |
| `Streamer.CStreamer.SendAggregated` | src/CStreamer.cpp:249-285 | the aggregation branch leaves in the buffer, and sends, what the specification says |
| `Streamer.CStreamer.RtpSendNalH265` | src/CStreamer.cpp:221-365 | the context's buffer, number and cache and the socket writes after the call are those of the specification that the conservation results are about |
| `Streamer.CStreamer.constructor` | src/CStreamer.cpp:6-30 | an empty list and a closed transport |
| `Streamer.CStreamer.AddSession` | src/CStreamer.cpp:44-51 | the new session is the last of the list, in its initial state; the others keep their order |
| `Streamer.CStreamer.AnySessions` | src/CStreamer.h:19 | true exactly if the list is not empty |
| `Streamer.CStreamer.Delete` | src/CRtspSession.cpp:35-39 | the session leaves the list, the others keep their order, and the transport is released once |
| `Streamer.CStreamer.HandleRequests` | src/CStreamer.cpp:194-213 | one sweep with deletion: every session is called exactly once with its own read, what each replies is written to its own socket in that order, exactly the stopped ones are removed and the others keep their order, the result is the conjunction, and the UDP transport is where the set-ups and releases of the steps, one after the other, leave it |
| `Streamer.OwnReply` | src/CStreamer.cpp:194-213 | in a sweep each connection gets its own session's reply, with the ports the streamer then has, and no other |
| `Streamer.SweepIsEvents` | src/CStreamer.cpp:194-213 | the set-ups and deletions of any series of sweeps, in order, are a history of the transport as the counting results are about |
| `Streamer.AllTogether` | src/CStreamer.cpp:196-212 | the result of a sweep is true exactly if every call returned true, and it hangs exactly if one of them does |
| `Streamer.Visit` | src/CStreamer.cpp:200-201 | one call changes its own session only |
| `SessionRing.Element.Head` | src/LinkedListElement.h:12-17 | a list head linked to itself |
| `SessionRing.Element.AtEnd` | src/LinkedListElement.h:24-32 | the ring grows by the element, before the head, and is a ring again |
| `SessionRing.Element.Unlink` | src/LinkedListElement.h:34-42 | the ring without the element is a ring |
| `SessionRing.LinksInverse` | src/LinkedListElement.h:24-42 | next and prev are inverse at every element |
| `SessionRing.WalkFrom` | src/CStreamer.cpp:197-203 | following the links n times reaches the n-th element, and the head after the last |
| `SessionRing.Traverse` | src/CStreamer.cpp:197-203 | a traversal meets the contents in order and is back at the head exactly at the end |
| `SessionRing.SweepStay` | src/CStreamer.cpp:203 | passing over a session that stays keeps the list and advances the position by one |
| `SessionRing.SweepDrop` | src/CStreamer.cpp:203-209 | deleting the session just visited leaves the position at the next one: none is skipped or met twice |
| `SessionRing.SweepDone` | src/CStreamer.cpp:197-210 | at the end of the sweep the list is the old one without the marked elements, in order |
| `UdpTransport.Transport.InitUdpTransport` | src/CStreamer.cpp:145-174 | the loop leaves fields and descriptor 0 as the search on values does: each bind that fails, each close of a socket that was never created, which closes descriptor 0, and each new socket that then gets that number; later users only count |
| `UdpTransport.Transport.ReleaseUdpTransport` | src/CStreamer.cpp:176-189 | the last user closes both sockets, which closes descriptor 0 if there were none; the others only count |
| `UdpTransport.SearchFinds` | src/CStreamer.cpp:153-171 | the search ends with both sockets of a free pair on an even port and the next one, whichever `FirstPair` names, or with none |
| `UdpTransport.LeastPair` | src/CStreamer.cpp:153-171 | the least free pair is found if no pair before it has only its first port free |
| `UdpTransport.SetUpBinds` | src/CStreamer.cpp:145-174 | a set-up on a closed transport, descriptor 0 in use, binds p and p + 1 for every even p from 6970 to 65532 if both are free and no even port from 6970 up to p is |
| `UdpTransport.PairPassedOver` | src/CStreamer.cpp:160-170 | otherwise it may not be: behind a half-free pair the only free pair is passed over, and its first port is left bound as descriptor 0 |
| `UdpTransport.InitHealthy` | src/CStreamer.cpp:145-174 | a set-up keeps the sockets open on an even port and the next one exactly while the count is positive; the first one if and only if the search finds a pair |
| `UdpTransport.ReleaseHealthy` | src/CStreamer.cpp:176-189 | a release keeps that too, and closes descriptor 0 exactly if it is the last one and a socket was never made |
| `UdpTransport.CountExact` | src/CStreamer.cpp:145-189 | the count of set-ups less destructions is the number of live set-up sessions throughout a run if and only if every session is set up over UDP exactly once before it is destroyed |
| `UdpTransport.EventsCounted` | src/CStreamer.cpp:145-189 | after any set-ups and destructions m_udpRefCount has changed by their difference; if every search finds a pair the sockets are open exactly while it is positive |
| `UdpTransport.OpenWhileHeld` | src/CStreamer.cpp:145-189 | where every session is set up once before it is destroyed and every search finds a pair, the sockets are open exactly while there are live set-up sessions |
| `UdpTransport.PlayEvents` | src/CStreamer.cpp:145-189 | the methods, called by any such history, leave the transport as it says |
| `UdpTransport.ReleaseFirst` | src/CRtspSession.cpp:35-39 | a session destroyed without a SETUP leaves -1, so that the next UDP SETUP makes no search and nothing is bound, whatever ports are free |
| `UdpTransport.UncountedSession` | src/CRtspSession.cpp:35-39 | the same in events: the count is 0 although a session is set up |
| `RtspSession.ReadLimit` | src/CRtspSession.cpp:558-566 | the read length is in 1..499 and never reaches past the buffer |
| `RtspSession.CRtspSession.HandleRequests` | src/CRtspSession.cpp:547-649 | one call takes the session from any state to the state of the value-level step: same buffer, header state, command, flags, fields, result and reply; the buffer position stays at most 499 |
| `RtspSession.EndStops` | src/CRtspSession.cpp:638-643 | a read that finds the connection closed stops the session in any state, reports it and says nothing |
| `RtspSession.StopsBy` | src/CRtspSession.cpp:624-643 | nothing else stops a session but a TEARDOWN |
| `RtspSession.StreamsBy` | src/CRtspSession.cpp:626-627 | nothing but a PLAY makes it stream |
| `RtspSession.FullBuffer` | src/CRtspSession.cpp:558-612 | 499 bytes without an end are thrown away at the next read; fewer are kept, and nothing is done, until the last four are CR LF CR LF |
| `RtspSession.CRtspSession.Receive` | src/CRtspSession.cpp:569-603 | the read is appended and the command recognised once a line is complete |
| `RtspSession.CRtspSession.StartOver` | src/CRtspSession.cpp:558-563 | an empty or full buffer starts over |
| `RtspSession.CRtspSession.InitTransport` | src/CRtspSession.cpp:471-480 | the client ports are taken over, and UDP brought up unless the transport is TCP |
| `RtspSession.CRtspSession.HandleRtspRequest` | src/CRtspSession.cpp:366-390 | an accepted request is replied to as its command has it (`Watching.Answered` says how), a refused one not at all; an accepted SETUP, and nothing else, takes over ports and transport |
| `RtspSession.CRtspSession.Answer` | src/CRtspSession.cpp:624-636 | PLAY sets m_streaming, TEARDOWN m_stopped, and the buffer is free for the next request |
| `RtspSession.ParseNumericHeader` | src/CRtspSession.cpp:56-87 | the loops read the number that the specification reads, or fail where it fails |
| `RtspSession.GlueLines` | src/CRtspSession.cpp:269-282 | the in-place edit of the buffer turns CR LF before a blank into two spaces, up to the first line that is not continued, and touches nothing before the line |
| `RtspSession.CopyPart` | src/CRtspSession.cpp:125-132 | a URL part is copied up to its end, or refused when it exceeds its limit |
| `RtspSession.ParseParams` | src/CRtspSession.cpp:311-348 | the loop over sub-parameters, with the NUL it writes and the character it restores, finds the ports that the specification finds |
| `RtspSession.ParseRequest` | src/CRtspSession.cpp:90-364 | the whole parser, loops and in-place edits, refines the specification on suffixes |
| `RtspUrl.TargetExact` | src/CRtspSession.cpp:106-190 | a request line is taken if and only if it has this shape: a name of at most 19 characters and white space, rtsp:// in upper or lower case, a host of at most 56 characters, a presentation of 1 to 50 and a stream of at most 50, at least one slash behind the first two and any number behind the third, white space that starts with a blank, RTSP/ and a version; the session then holds those three parts |
| `RtspRequest.RequestAcceptance` | src/CRtspSession.cpp:201-357 | a rendered request of any command, whatever size the parser is told, is accepted if and only if every CSeq and Content-Length line holds a number, in a SETUP every Transport line is RTP/AVP and every client_port has a port, and for each CSeq and Content-Length line that size reaches a character after the number, or, where no blank stands before the number, falls short of the line's name; accepted or not, the session holds exactly what was read up to the line refused |
| `RtspRequest.RequestRoundTrip` | src/CRtspSession.cpp:90-364 | told its true size, every rendered request of any command (any slashes and blanks in its first line, Transport and ignored headers folded over lines anywhere) is accepted if and only if no line is at fault, and gives back host, presentation, stream and what its lines say |
| `RtspRequest.RequestEnd` | src/CRtspSession.cpp:201-357 | a request may end with the line break after its first line, but neither before it nor within a header line, whatever that line holds |
| `RtspRequest.LineFeedAlone` | src/CRtspSession.cpp:201-209 | a line feed without CR ends a line too, and takes the character before it along |
| `RtspRequest.SetupFields` | src/CRtspSession.cpp:236-348 | the last CSeq line gives CSeq, the last Transport line the kind of transport, its last client_port=p gives p and p + 1 modulo 2^16 |
| `RtspRequest.GlueTransport` | src/CRtspSession.cpp:269-282 | a folded Transport line glued together is the unfolded one |
| `RtspRequest.TransportPassed` | src/CRtspSession.cpp:285-357 | in a request other than a SETUP a Transport line is passed over whole, folds included |
| `RtspRequest.NumberRead` | src/CRtspSession.cpp:56-87 | blanks and a number are read, refused, or read as 0 with the digits left over, according to how many characters the parser is told of |
| `RtspRequest.ValueOfDecimal` | src/CRtspSession.cpp:83 | decimal digits read back as the number |
| `RtspChunks.NotStuck` | src/CRtspSession.cpp:311-348 | where every CR is followed by LF, the parser returns, whatever size it is told |
| `RtspChunks.LineSeen` | src/CRtspSession.cpp:579 | a line is complete exactly when a CR LF has been received |
| `RtspStuck.ParamsStuck` | src/CRtspSession.cpp:311-348 | the loop over sub-parameters never ends if and only if the first CR it meets is not followed by LF and no client_port= before it lacks its digits |
| `RtspStuck.TransportStuck` | src/CRtspSession.cpp:287-305 | the same for a whole Transport line |
| `RtspStuck.LineStuck` | src/CRtspSession.cpp:236-357 | no header line but a Transport line of a SETUP hangs the parser, and that one exactly as said |
| `RtspStuck.ParserStuck` | src/CRtspSession.cpp:90-364 | the parser never returns if and only if the URL is in order and the line its loop over headers ends at is such a line |
| `RtspStuck.HangingSetup` | src/CRtspSession.cpp:322-347 | a SETUP request on which it never returns |
| `RtspStuck.HarmlessCR` | src/CRtspSession.cpp:288-289 | a CR without LF that does no harm |
| `RtspChunks.CommandSettled` | src/CRtspSession.cpp:579-596 | the command recognised from the first piece is that of the whole request |
| `RtspChunks.ChunkingIndependent` | src/CRtspSession.cpp:547-649 | a request whose only CR LF CR LF is at its end, cut into reads in any way that leaves the request line in the first, with timeouts anywhere, leaves the same command type, m_streaming and m_stopped as one read |
| `RtspChunks.RequestInPieces` | src/CRtspSession.cpp:547-649 | a request of any command that fits the buffer, in however many pieces, the first holding its request line, with timeouts anywhere: from the size of the last piece it follows whether it gets its command's reply and, if a SETUP, its ports and transport are taken over and UDP is brought up once, or there is no reply, no port changes and UDP stays as it was; a request of no known command gets a 400 |
| `RtspChunks.RenderWhole` | src/CRtspSession.cpp:605-612 | a rendered request holds no NUL, no lone CR, and its only empty line is at its end |
| `RtspChunks.RenderClassified` | src/CRtspSession.cpp:587-596 | its command is recognised by its name, whatever that is, and by nothing else |
| `RtspChunks.EmptyLineFirst` | src/CRtspSession.cpp:583-585 | an empty line in front of a request makes no difference to its command or to the parser |
| `RtspChunks.FirstPieceDropped` | src/CRtspSession.cpp:577-624 | a first piece without a full line is parsed as a request of the command before it, and dropped |
| `RtspChunks.CutNameRefused` | src/CRtspSession.cpp:577-649 | a request cut within the name of its command gets nothing for its first piece and a 400 for the rest, in any session, and no port or transport changes; but a session whose command before was a PLAY streams |
| `RtspReplies.ReplyProper` | src/CRtspSession.cpp:392-529 | every reply has a status line, header lines without line breaks and the length of its body in Content-Length, and all but the 404 end their header with an empty line |
| `RtspReplies.ReplyAnswers` | src/CRtspSession.cpp:392-529 | a client finds status 404 in the reply to a DESCRIBE of an unknown stream, 400 in that to an unknown command and 200 in all others, and in each the CSeq of the request |
| `RtspReplies.OptionsSays` | src/CRtspSession.cpp:396-399 | the commands in Public |
| `RtspReplies.DescribeSays` | src/CRtspSession.cpp:448-475 | the URL that was asked for in Content-Base, and a description with payload type 96 and a 90000 Hz clock, as the packets have them |
| `RtspReplies.SetupSays` | src/CRtspSession.cpp:488-511 | the session, and the transport agreed on: channels 0 and 1 of the connection, or the ports of the client and of the streamer |
| `RtspReplies.PlaySays` | src/CRtspSession.cpp:519-528 | the session and the range from 0 |
| `RtspMessages.MessageRead` | src/CRtspSession.cpp:401-528 | a client reads such a message back, whatever follows it, if and only if the empty line is there; otherwise it takes what follows for more of the header |
| `Connection.ReadsBack` | src/CStreamer.cpp:108-111 | a client of a connection that carries replies and interleaved packets (section 10.12 of RFC 2326) reads back every one of them if and only if all messages have their empty line |
| `RtpEnc.SummaryHeader` | src/RTPEnc.cpp:123-137 | the byte written to buf[0] keeps type 24, has the greater of the two NRI and F if either has it |
| `RtpEnc.SendFragmentsH264` | src/RTPEnc.cpp:206-216 | the loop sends exactly the FU-A packets of the specification |
| `RtpEnc.SendAggregatedH264` | src/RTPEnc.cpp:104-149 | the STAP-A branch leaves in the buffer, and sends, what the specification says |
| `RtpEnc.RtpSendNalH264` | src/RTPEnc.cpp:87-218 | the context and the datagrams after the call are those of the specification |
| `RtpEnc.RtpSendH264` | src/RTPEnc.cpp:220-256 | the driver sends every unit of the split of the stream, in order, the clock advanced by 3600 after each |
| `RtpEnc.StreamDelivered` | src/RTPEnc.cpp:220-256 | a recoverable stream sent with nothing pending: the datagrams read back as consecutively numbered packets, those sent for the k-th unit with the first timestamp and 3600 k ticks, the marker is on the final one only, nothing stays pending, and the receiver has exactly the units if and only if no fragmented one has its F bit set and, with aggregation off, all others have types 1 to 23 |
| `SimStreamer.SelectNextNal` | src/SimStreamer.cpp:19-43 | cursor, unit position and length after the call are those of the selection on values; with nothing to play they are unchanged |
| `SimStreamer.SelectAtCode` | src/SimStreamer.cpp:27-42 | from a code of either kind the unit behind it is selected, and `size` drops by 4 more than its length |
| `SimStreamer.SelectTooShort` | src/SimStreamer.cpp:27-38 | where no more than a start code is left the scanner finds none: the skipping loop would run on |
| `SimStreamer.DriftSpoils` | src/SimStreamer.cpp:42 | once a 3-byte code has moved the end, no pass returns the units that are left |
| `SimStreamer.PassExact` | src/SimStreamer.cpp:19-43 | one pass until `size <= 0` returns exactly the units of a joined stream if and only if they are recoverable and every code but the last is four bytes long |
| `SimStreamer.SelectUnit` | src/SimStreamer.cpp:19-43 | on a playable stream the i-th selection is the i-th unit; `size` is exhausted exactly after the last; `buf + size` stays the end of the stream at every 4-byte code |
| `SimStreamer.Replay` | main/main.cpp:29-51 | with the reset of workerThread the n-th unit played is unit n mod k, for every n, from every position |
| `Worker.NextNal` | main/main.cpp:36-51 | the next unit, and the cursor rewound at the end of the stream |
| `Worker.StreamNal` | src/SimStreamer.cpp:15-18 | a unit sent without the `last` flag |
| `Worker.PlayTurn` | main/main.cpp:36-51 | a turn without a request sends exactly the next unit to the session and advances the clock (`Viewer.TimeAfter`: by 3000) |
| `Worker.Streams` | src/CRtspSession.cpp:624-648 | a call never ends streaming, and a session is stopped only by a call that reports a request |
| `Worker.StreamingStays` | main/main.cpp:31-53 | once the session is streaming it is in all later turns, only the last call stops it, and no unit is sent to a stopped one |
| `Worker.EndOfTurns` | main/main.cpp:31-33 | the first read that finds the connection closed is in the last turn: the session is stopped, the call reports it, replies nothing and sets nothing up |
| `Worker.TurnsBy` | src/CRtspSession.cpp:624-643 | over a whole run: a session is stopped only by the end of its connection or a TEARDOWN, and streams only once there was a PLAY |
| `Worker.HungUp` | main/main.cpp:31-55 | after that read there is no turn, and in it nothing is sent |
| `Worker.WorkerLoop` | main/main.cpp:31-53 | for any sequence of reads: it hangs if and only if the parser does in one of the calls; otherwise in every turn the reply of the session goes out, then, if the call returned false, the next unit of the stream to the session as the requests so far left it, from the socket that they left; nothing after the session is gone |
| `Worker.WorkerThread` | main/main.cpp:24-55 | the same from the construction of the streamer and its one session on; the session is gone at the end exactly if the last call stopped it, and if the run gets to a read that finds the connection closed it ends there, with nothing more sent |
| `Viewer.WireViews` | src/CStreamer.cpp:100-119 | all bytes of the connection, and all datagrams that leave a bound socket for a given port, at its other end: the replies and, between them, the packets of the units that go there |
| `Viewer.SeenExactly` | src/CStreamer.cpp:59-134 | a viewer reads back every reply and every packet off the connection if and only if no reply is a 404; the datagrams that reach a port are exactly the packets of the units that go there, and it reads them back in any case |
| `Viewer.PacketsFrom` | src/CStreamer.cpp:59-134 | from the turn a session joins, its packets carry what sending the later units emits, consecutively numbered |
| `Viewer.TimeAfter` | main/main.cpp:40 | after any turns the timestamp is the first one and 3000 for each unit played, modulo 2^32, whoever got it |
| `Viewer.StampsFrom` | main/main.cpp:36-40 | with aggregation off, from the turn a session joins: its packets are those of the later units, in order, and those of the i-th unit played, counted from the start of the run, carry the first timestamp and 3000 i |
| `Viewer.Recovered` | src/CStreamer.cpp:59-134 | with aggregation off: from the packets that go to the viewer in some way the units sent while the session streams are recovered if and only if all of them go there and each is such as arrives |
| `Viewer.ReplyPlain` | src/CRtspSession.cpp:366-529 | no reply repeats anything from the request that breaks a line |
| `Viewer.TransportAt` | main/main.cpp:31-53 | in a run of one session: nothing is bound until the first UDP SETUP, and from then on the transport stays as that one has left it |
| `Viewer.TellsSource` | src/CRtspSession.cpp:494-500 | the replies to SETUPs announce the even port and the next one that the first UDP SETUP has bound, which is the port all datagrams leave from, if its search finds a pair |
| `Viewer.Joins` | main/main.cpp:31-53 | the session streams from one turn on; its units all go to the viewer in a given way, over TCP or to a UDP port, if and only if at each of them the session is on that transport and, over UDP, the last accepted SETUP named that port, it is not 0, and a UDP SETUP so far has bound a socket; how many units were played before and after follows from its calls |
| `Viewer.EndToEnd` | main/main.cpp:24-55 | stream to viewer: a viewer whose session streams from turn j on recovers exactly the units of a playable stream in a cycle, from where they had got to, if and only if all of them go where it looks, over TCP or at a UDP port, and each is such as arrives (type not 48 to 50 if sent whole; F = 0, LayerId = 0, TID = 1 if fragmented); if all go there it sees exactly their packets, consecutively numbered and 3000 ticks from unit to unit |
| `Viewer.ServeViewer` | main/main.cpp:24-55 | the same concluded for a run of workerThread, whose replies are those of the source: from the reads and the ports that can be bound follows whether it hangs, where the units go, and which are recovered from what it wrote |
| `Watching.RequestObeyed` | src/CRtspSession.cpp:547-649 | a request of a known command, read in one go, is carried out and replied to, whatever lines it has |
| `Watching.Answered` | src/CRtspSession.cpp:366-529 | any rendered request without a fault, in one read: OPTIONS, SETUP and PLAY are answered with their own reply and a DESCRIBE with its URL if it asks for /live/1 and with a 404 otherwise, each with the number of the request's last CSeq line or else the session's last one; TEARDOWN is not answered |
| `Watching.WatchTurns` | src/CRtspSession.cpp:547-649 | what each call does for a client that sends a SETUP, a PLAY and nothing more |
| `Watching.ServeWatcher` | main/main.cpp:24-55 | from request text to units: workerThread, given any rendered SETUP and PLAY without a fault and n turns without a request, does not hang, and the viewer recovers the first n units of the stream in a cycle if and only if each is such as arrives, over TCP, or at the port the SETUP named if the search binds a socket; what is sent for the i-th of them carries the first timestamp and 3000 i |
| `Shortfalls.PendingUnitLost` | src/CStreamer.cpp:231-298 | a unit of 1400 bytes after a small one that waits: not conserved |
| `Shortfalls.ReservedTypeLost` | src/CStreamer.cpp:297 | a unit of type 48 sent whole: not conserved |
| `Shortfalls.HeaderLost` | src/CStreamer.cpp:332-333 | a fragmented unit with TID 2: received with TID 1 |
| `Shortfalls.ForbiddenBitLost` | src/RTPEnc.cpp:190-191 | a fragmented H.264 unit with its F bit: received without |
| `Shortfalls.OtherTypeLost` | src/RTPEnc.cpp:160 | an H.264 unit of type 24 sent whole: not conserved |
| `Shortfalls.LeftBehind` | src/RTPEnc.cpp:160 | a small H.264 unit with aggregation off and a unit pending: not conserved |
| `Shortfalls.ShortCodeDrifts` | src/SimStreamer.cpp:42 | two units, the first after a 3-byte code: a pass does not return them, the driver loop does |
| `Shortfalls.SplitSetupRefused` | src/CRtspSession.cpp:216-266 | a SETUP in two reads is refused that is accepted in one |
| `Shortfalls.SplitSetupMisread` | src/CRtspSession.cpp:66-86 | a SETUP in two reads of which CSeq:7 reads as 0 |
| `Shortfalls.MediaAfterNotFound` | src/CRtspSession.cpp:425-430 | a packet after a 404 on the same connection is not read back |
| `Shortfalls.NothingSetUp` | src/CRtspSession.cpp:626-627 | a PLAY without a SETUP: n units are sent while the session streams, and none goes to the viewer in any way |

## Left out

- `rtpSendH265HEVC` and `rtpSendNALH265` of `src/RTPEnc.cpp`: the same driver loop as the H.264 one, and for H.265
  units an aggregation branch that writes an H.264 header and so has no meaning as H.265.
- Socket creation, accept, fork, file reading, sleeping, logging; dates and session numbers, which are parameters of the
  replies.
- `RtspReplies.ReplyProper`: the stream on offer is the default `live/1`, as nothing calls `setURI`; replies are
  never cut short, as with the numbers a C++ `unsigned` can hold none reaches the size of its buffer.
- `RtspSession.CRtspSession.HandleRequests`: the receive buffer, its position and header state are fields of the
  session, although they are static in the function; `main` serves one session per process.
- `RtspSession.ParseRequest`: a host of exactly 56 characters, or a path part of exactly 50, has its NUL written one
  byte past its field, which is not captured; numbers beyond the range of `int`, for which `atoi` is undefined, are
  read at full size; the NUL that is put behind a number in CSeq and Content-Length lines and taken away again is not
  written; bytes after the received text read as the end of the text.
- `UdpTransport.Transport.InitUdpTransport`: descriptor 0 is in use, and no UDP socket, when the program starts, and
  between calls nothing else takes its number or that of another closed socket; which ports can be bound does not
  change within a call, and is the same in all turns of `Worker.WorkerThread`.
- `FanOut.LogViews`: different connections are taken to have different peers, and datagrams that leave are taken to
  arrive, in order; `Rtp.Reordering` says what numbering is worth if they do not.
- `RtpEnc.RtpSendNalH264`: with aggregation on, units of 1398 to 1400 bytes do not fit the buffer and empty units
  have no header byte to read; both are excluded, since the C++ then writes past the buffer or reads past the unit.
- `RtpEnc.RtpSendH264`: excludes streams with such units, for the same reason.
- `RtpEnc.StreamDelivered`: likewise.
- `H264.RunConserves`: likewise.
- `Viewer.EndToEnd`: over TCP it is for viewers that get no 404; what can still be recovered after one depends on
  what the bytes that follow happen to hold.
- `Viewer.ServeViewer`: likewise, and with aggregation off, as in the shipped program.
- `H265.RunConserves`: units have at least their two header bytes; packets with PACI headers (section 4.4.4 of
  RFC 7798) are refused by the receiver, and the sender never makes them on purpose.
- `Worker.WorkerThread`: a run is a finite sequence of reads of any length.
- The timestamp wraps at 2^32; in C++ its increment goes through a double and is undefined beyond that.
- Payload pointers that the senders only read are sequences, so an alias between a unit and the context's own buffers
  is not captured.
- JPEG declarations, `streamImage`, width, height, `m_SequenceNumber`, `m_SendIdx` and the other unused fields.

# Verified model of the forwarding server

This project models the parts of the server whose correctness rests on state, order and concurrency,
and proves what they are for. It has four groups.

**The WebSocket inspector** (`wsinspect/`). `Frames` gives the meaning of a whole byte stream (RFC
6455 sections 5.2 to 5.5) as a recursive parse that never sees how the bytes arrived. `Wire` is the
sender's side: frames in all three length encodings, and messages cut into masked fragments with
control frames between them. `WsParser.Parser` is the push parser with its buffers and flags; its
invariant says that the fields are a function of the bytes fed so far. `Inflate` has the decoder of
RFC 7692 with its 32 KiB window; DEFLATE itself is a parameter, any function from a dictionary and
an input to a list of writes and a way of ending. `Messages` says what each event is shown as,
`Reading` what each message should say by the standards alone, without the decoder's state, and
`Cuts` what is kept of a compressed message, which depends on where the chunks begin.

**Forwards** (`sshmuxer/`, `utils/utils.go`, `utils/conn.go`). `ForwardModel` is a machine of
threads with program counters: request handlers, watchers, acceptors, cancellers and callers of
`CleanUp`, with calls of a connection's close and of a forward's cleanup on top of them. One step is
one access to shared state, but for the few that the head of `ForwardModel.dfy` names and justifies,
so a run of the machine is an interleaving. `ForwardOwners`, `ForwardSetup` and `ForwardRoutes` hold
the invariants and `ForwardTheorems`, `ForwardProgress`, `ForwardEnding` and `ForwardRouting` what
follows from them: no deadlock, and a measure that every step lowers, so that what holds when
nothing can step is what comes about in the end. `ForwardGone` says what a cleanup leaves behind and
what sets one off, and `ForwardTakeover` whom a force-connect request closes. `ForwardOverlap` is
the run that shows why a live forward may lose its route. `TargetLocks` is the reference-counted
lock registry that the machine's target locks stand for; `OpenHost` is the search for an address and
the registration of a holder as imperative code, proved to be a run of the machine's own steps;
`HostRequest` is how a request names its host; `PortRange` does the same job for TCP ports.

**The console history** (`utils/console_requests.go`). `HistoryModel` is the doubly bounded list of
one route as a value, `ConsoleHistory` the records and slices updated in place, and `HistoryRace`
the interleavings of recording with the removal of a route.

**Smaller pieces.** `Census` (last-good merge), `StableDirty` (a filter over polls), `CommandFlags`
(the exec command's tokenizer and its notes) and `ForwardIndex` (a socket index against a scan).
`Bytes`, `Slots`, `Sorting` and `Options` are shared.

Five results differ from what one might expect of the code:

- A live forward does not always stay routed. Teardown deletes the route by key, and a purge of
  the stale entry between the two halves of a teardown lets a replacement lose its route.
  `ForwardRouting.LiveRoutedIff` says exactly when a step does this,
  `ForwardOverlap.OverlapLosesRoute` gives a reachable state and a step, and
  `ForwardRouting.NoPurgeKeepsRouted` covers the runs without it.
- A request that insists on its address is refused whenever it carries credentials or a path,
  because the caller compares the host it got with the whole request.
  `HostRequest.RequestIsFrontOfHost` says for which requests that comparison succeeds, in both
  directions; `HostRequest.CredentialsAreTaken` is a family of requests for which it fails; and
  `OpenHost.Registry.HandleHttp` has the exact condition under which the handler gives an
  insisting request its address.
- A TCP listener can be left without backends: the listener is stored before the SNI name is
  looked for. `PortRange.TcpListeners.HandleTcp` says exactly when, and
  `PortRange.TcpListeners.FailedNameLeavesListener` is such a call.
- The size reported for a compressed message too large to buffer is what was kept of it. Each part
  that comes in one chunk is kept if it still fits and dropped whole otherwise, and a later part
  that fits is kept again, so the size depends on the cuts (`Cuts.OneCutKeepsOnePart`); only a
  buffer filled to the bound stays as it is (`Cuts.FullStaysFull`). `WsParser.ParseChunks` has the
  exact size for every stream and every way of cutting it, fragmented messages included, and
  `WsParser.ParseOversized` chunk by chunk for a message in one frame. It is the only thing that
  depends on how the bytes arrived (`WsParser.ParseTwice`).
- The filter over polls keeps rows apart by kind, name and issue joined with bars, so two rows with
  bars in them may be taken for one (`StableDirty.BarsCollide`); without bars they never are
  (`StableDirty.KeyIdentifiesRow`).

Things outside the model enter as parameters: the DEFLATE function, random names and ports, the
answer of a download or of listening on an address, the staleness of TCP holders, whether DNS or
configuration lets a request name a whole host, and the character class that trimming removes.

## Model

| member | source | states |
|---|---|---|
| `Frames.RunAppend` | wsinspect/parser.go:100-130 | parsing a stream in two goes, the second resuming from what the first left over, is parsing it whole: same events, state, leftover and error |
| `Frames.RestIsStuck` | wsinspect/parser.go:137-155 | what is left over never holds a complete frame, so nothing is delayed |
| `Bytes.MaskTwice` | wsinspect/parser.go:280-292 | unmasking with the same key and position undoes masking |
| `Bytes.MaskAppend` | wsinspect/parser.go:280-296 | masking in chunks with a running position is masking the whole |
| `Bytes.XorBitsBit` | wsinspect/parser.go:287 | a masked bit is set where exactly one of key and data has it |
| `Bytes.BigEndianRoundTrip` | wsinspect/parser.go:166-175 | reading a big-endian length undoes writing it |
| `Bytes.BigEndianFront` | wsinspect/parser.go:168-175 | in a length the first byte weighs most |
| `Wire.HeadRoundTrip` | wsinspect/parser.go:137-234 | a header written in any of the three length forms, masked or not, is read back as it was, whatever follows |
| `Wire.FrameRoundTrip` | wsinspect/parser.go:137-220 | the parse of an encoded frame is the frame: its own effect, its exact length, or the rule that it breaks |
| `Wire.FrameInverse` | wsinspect/parser.go:137-220 | a frame is taken only where encoding that frame gives exactly those bytes |
| `Wire.EncodeThenRun` | wsinspect/parser.go:100-130 | parsing any list of encoded frames is interpreting the frames, up to the first illegal one |
| `Wire.RunThenEncode` | wsinspect/parser.go:100-130 | every stream is a list of encoded frames and a leftover, and its parse is what those frames mean |
| `Wire.MessagesRoundTrip` | wsinspect/parser.go:137-343 | messages, compressed or not, survive any fragmentation, masks, length forms and control frames in between |
| `Wire.AcceptedIff` | wsinspect/parser.go:181-216 | a stream of frames is parsed without error if and only if each frame is legal by itself and a data frame goes on with a message exactly when one is open |
| `Wire.FirstRuleBroken` | wsinspect/parser.go:181-216 | a frame is refused for the first rule that it breaks, in the parser's order |
| `Wire.ReservedIsRefused` | wsinspect/parser.go:181-184 | a frame with one of the two bits that no extension here uses is refused |
| `Wire.ShortExamples` | wsinspect/parser.go:137-220 | the short examples of section 5.7 of RFC 6455, byte by byte and for any payload: text, ping, compressed text |
| `Wire.FragmentExample` | wsinspect/parser.go:137-220 | the same for a text in two fragments |
| `Wire.LongExamples` | wsinspect/parser.go:166-179 | the same for both longer length forms and for a masked text |
| `Inflate.HistoryIsAllOutput` | wsinspect/deflate.go:61-99 | under context takeover the history, whose last 32 KiB is the dictionary, is the concatenation of all earlier outputs |
| `Inflate.BrokenForever` | wsinspect/deflate.go:61-105 | once a decode fails under takeover, no later decode succeeds; `Messages.LostForever` adds overflow |
| `Inflate.DecodedFromWindow` | wsinspect/deflate.go:61-105 | each message of a list decodes to what DEFLATE gives from the last 32 KiB of the earlier outputs (from nothing without takeover) and the payload with its four-byte tail, if that does not fail and is within 64 MiB; under takeover to nothing once one failed |
| `Inflate.InflateOutput.Write` | wsinspect/deflate.go:116-137 | after any writes: the first limit bytes kept, the exact size, the last 32 KiB of dictionary and output |
| `Inflate.Inflater.Inflate` | wsinspect/deflate.go:61-99 | the result and the next state are those of the specification, however the decoder cuts up its writes |
| `Inflate.CopyLimited` | wsinspect/deflate.go:76-90 | copying stops one byte past the 64 MiB bound, and says whether the decoder's own ending was seen |
| `Messages.OnlySizeDiffers` | wsinspect/parser.go:250-262 | two message lists shown by the same events are equal but for the size of overflowed messages |
| `Messages.LostForever` | wsinspect/parser.go:319-338 | under context takeover, once a compressed message of a stream is lost, by a decode failure or by overflowing the buffer, every later one is, whatever control and plain messages come between |
| `Messages.StreamDecodesInOrder` | wsinspect/deflate.go:61-99 | while nothing overflows, the decoder after a stream is that of its compressed payloads in order, so its history is all they decoded to |
| `Reading.EveryMessageReads` | wsinspect/parser.go:299-343 | every list of events has a reading by section 7.2 of RFC 7692 and section 5.5 of RFC 6455, and the messages shown for it say what it says: texts cut to the limit with size and truncation flag, close codes and reasons, nothing for what cannot be read |
| `Reading.OneReading` | wsinspect/deflate.go:61-105 | and only one |
| `WsParser.Parser.constructor` | wsinspect/parser.go:89-91 | a new parser has been fed nothing and satisfies the invariant |
| `WsParser.Parser.Feed` | wsinspect/parser.go:100-130 | after any bytes the fields are what the whole stream so far and the places where chunks began determine; nothing emitted is lost or repeated |
| `WsParser.Parser.FeedSome` | wsinspect/parser.go:104-127 | one turn of the loop takes a non-empty front of the input and keeps the invariant |
| `WsParser.Parser.AppendUnmasked` | wsinspect/parser.go:280-292 | the chunk is appended unmasked at the running mask position |
| `WsParser.Parser.ConsumePlain` | wsinspect/parser.go:266-277 | the kept prefix, the full size and the truncation flag are exact after the chunk |
| `WsParser.Parser.ConsumeCompressed` | wsinspect/parser.go:256-263 | a chunk past 8 MiB is dropped whole and marks the message as overflowed |
| `WsParser.Parser.EndFrame` | wsinspect/parser.go:299-343 | the message emitted is what the finished frame's event is shown as |
| `WsParser.Parser.Meaning` | wsinspect/parser.go:94-130 | the messages so far and the error are those of one parse of all bytes fed |
| `WsParser.Parser.Books` | wsinspect/parser.go:250-262 | every message emitted that was not decoded reports what was kept of it between the cuts so far |
| `WsParser.Parser.PayloadSome` | wsinspect/parser.go:250-278 | a part of a payload that follows a cut or the header is kept or dropped as its place between the cuts says |
| `WsParser.ParseChunks` | wsinspect/parser.go:100-350 | for every stream and every way of cutting it, the error is that of the one-shot parse, and each message says what its event says in the one reading of the stream, except that a compressed message too large to buffer has as its size what was kept of it between the cuts; under takeover no compressed message after a lost one is decoded |
| `WsParser.ParseTwice` | wsinspect/parser.go:100-350 | two ways of cutting one stream agree in everything but the size of overflowed messages |
| `WsParser.ParseOversized` | wsinspect/parser.go:256-263 | a message too large to buffer, in one frame and any chunks: its size is the sum of what each chunk brought of the payload, but for those that did not fit when they came |
| `Cuts.MeasuredAppend` | wsinspect/parser.go:100-130 | after a part of a stream that holds whole frames, what is kept goes on from what that part left |
| `Cuts.KeptChunkByChunk` | wsinspect/parser.go:256-263 | what is kept of a payload, taking it from cut to cut, is what is kept taking the stream chunk by chunk |
| `Cuts.UncutKeepsNothing` | wsinspect/parser.go:256-263 | a payload past the bound that comes in one part leaves nothing in the buffer |
| `Cuts.OneCutKeepsOnePart` | wsinspect/parser.go:256-263 | with one cut the part before it is kept if it fits, otherwise the part after it if that fits, otherwise nothing |
| `Cuts.FullStaysFull` | wsinspect/parser.go:256-263 | a buffer at the bound stays there, however what follows is cut |
| `Cuts.WhatFitsIsKept` | wsinspect/parser.go:256-263 | what fits is kept whole, however it is cut |
| `WsParser.Transmit` | wsinspect/parser.go:137-343 | any list of messages, compressed or not, in any fragments with control frames between, encoded and fed in any chunks, comes out in order, each saying what was sent: plain texts as they are, compressed ones inflated from the window that the earlier ones leave, close frames with code and reason |
| `TargetLocks.KeyIdentifiesTarget` | sshmuxer/requests.go:37-39 | two requests get the same key exactly when type, normalised address and port agree |
| `TargetLocks.StepInv` | sshmuxer/requests.go:45-72 | what every critical section keeps: exact counts, a key mapped exactly while in use, one holder for each lock |
| `TargetLocks.RunInv` | sshmuxer/requests.go:22-72 | that holds in every interleaving of any number of threads |
| `TargetLocks.RunIsMutexPerKey` | sshmuxer/requests.go:41-72 | seen from outside, every interleaving is one of a plain mutex per target |
| `TargetLocks.OneLockPerTarget` | sshmuxer/requests.go:22-35 | threads at work on one target use one lock, and at most one holds it |
| `TargetLocks.BlockedOnlyByHolder` | sshmuxer/requests.go:45-72 | a queued thread is blocked exactly while another is inside the same target's critical section |
| `TargetLocks.NothingLeaks` | sshmuxer/requests.go:62-70 | the registry is empty whenever no thread uses it |
| `TargetLocks.Registry.Enqueue` | sshmuxer/requests.go:48-55 | the section that finds or makes the lock and counts the caller is that action of the machine |
| `TargetLocks.Registry.Take` | sshmuxer/requests.go:57 | the mutex is taken exactly when the machine's action can happen |
| `TargetLocks.Registry.Unlock` | sshmuxer/requests.go:62 | unlocking is that action of the machine |
| `TargetLocks.Registry.Leave` | sshmuxer/requests.go:64-69 | the last user out removes the entry; that is the machine's action |
| `Slots.StoreFree` | utils/utils.go:1724-1734 | storing an address that the availability check found free keeps host, path, user and password distinct, under any scheme |
| `Slots.ConflictsIff` | utils/utils.go:1724 | an entry stands in the way of every path that goes on from its own with the same host and credentials, and of no other; an alias of itself |
| `ForwardTheorems.StepInv` | sshmuxer/requests.go:352-626 | what every step of every thread keeps: who owns which lock, which references are live, who will clean up, where holders and routes stand |
| `ForwardTheorems.CleanupAtMostOnce` | sshmuxer/forward_lifecycle.go:55-143 | across all its triggers a forward's cleanup begins at most once |
| `ForwardTheorems.CountersMatch` | sshmuxer/requests.go:411-415 | created minus cleaned is always the number of forwards that their handler has counted and whose cleanup is not counted yet |
| `ForwardTheorems.OutstandingFlags` | sshmuxer/forward_lifecycle.go:139-142 | what is in one counter and not in the other, by where the threads are; the second counts only some of the first |
| `ForwardTheorems.RoutesWhenFree` | sshmuxer/requests.go:443-526 | whenever the bind lock is free every entry leads to a holder under its own key whose servers are exactly its sockets, and there is one, so no http or alias row lacks backends |
| `ForwardTheorems.DistinctAddresses` | utils/utils.go:1702-1771 | no two entries share host, path, user and password, although the key has the scheme too |
| `ForwardProgress.IncreasingRank` | utils/utils.go:1379-1398 | every thread takes target lock, close-once, cleanup-once and bind lock in increasing rank |
| `ForwardProgress.NoCleanupUnderBindLock` | sshmuxer/requests.go:443-588 | no thread begins or awaits a cleanup while it holds the bind lock |
| `ForwardProgress.SomeoneGoes` | sshmuxer/requests.go:352-626 | from any thread that is not at rest, following who waits for whom leads to a thread that can step |
| `ForwardProgress.NoDeadlock` | sshmuxer/requests.go:352-626 | in every reachable state, while some thread is not at rest some thread can step |
| `ForwardProgress.ClosedIsCleaned` | utils/conn.go:1059-1074 | when nothing can step, every forward of a closed connection is cleaned, also one it was closed in the middle of setting up |
| `ForwardProgress.AllCleaned` | sshmuxer/requests.go:588-609 | with all connections closed and nothing left to do, the two counters are equal |
| `ForwardGone.CleanedIsGone` | sshmuxer/forward_lifecycle.go:85-143 | a forward whose cleanup is over has its listener closed and unlisted, and neither a callback at its connection nor a place in any holder |
| `ForwardGone.ClosedListenerIsCleaned` | sshmuxer/requests.go:626-660 | when nothing can step, a forward whose listener is closed is cleaned, whoever closed it |
| `ForwardGone.CancelledIsCleaned` | sshmuxer/requests.go:104-148 | every run that cannot go on has cleaned what was cancelled, whatever its handler and connection did meanwhile |
| `ForwardTakeover.ForcedTakesStock` | sshmuxer/requests.go:352-366 | a forced request that makes its forward has first looked who has its target |
| `ForwardTakeover.StockTaken` | sshmuxer/requests.go:683-703 | it looks for exactly the other connections with a listener for the same target |
| `ForwardTakeover.TakeoverClosesExactly` | sshmuxer/requests.go:679-707 | in every run that brings it through its takeover it closes exactly those, each to the end |
| `ForwardTakeover.TakeoverFreesTarget` | sshmuxer/requests.go:679-707 | every run that cannot go on has cleaned and unlisted every forward of theirs |
| `ForwardTakeover.CloseRunsCleanups` | utils/conn.go:771-793 | a close runs to the end each cleanup that it finds before it is over |
| `ForwardEnding.MoveCosts` | sshmuxer/requests.go:352-626 | every step of every thread, also of one it starts, lowers the bound on the steps left |
| `ForwardEnding.EveryRunEnds` | utils/conn.go:771-793 | from any reachable state, without new work from outside, a run has a bounded number of steps |
| `ForwardEnding.QuietIsReached` | sshmuxer/requests.go:352-626 | and there is a run to a state in which nothing can step |
| `ForwardEnding.ClosedIsCleanedInTheEnd` | utils/conn.go:1059-1074 | every run that cannot go on has cleaned every forward of every connection that was closed, also those set up on it meanwhile |
| `ForwardRouting.PurgeIsOverlap` | utils/utils.go:1736-1742 | an entry is purged only while each of its forwards is between the two halves of its teardown |
| `ForwardRouting.LiveRoutedIff` | sshmuxer/requests.go:482-483 | a step leaves a live forward unrouted if and only if it deletes, by key, the entry of another holder with a live forward |
| `ForwardRouting.NoPurgeKeepsRouted` | sshmuxer/requests.go:470-526 | in every run that purges nothing, every live forward stays routed |
| `ForwardOverlap.OverlapLosesRoute` | sshmuxer/forward_lifecycle.go:105-128 | a reachable state with every live forward routed, and a step after which one is not |
| `HostRequest.RequestIsFrontOfHost` | sshmuxer/httphandler.go:22-26 | a lower-case request is the front of the host it asks for if and only if it has neither credentials nor a path and is not the root domain with the dot that is cut off |
| `HostRequest.CredentialsAreTaken` | utils/utils.go:1640-1677 | what a request with user and password asks for, and that its host never begins with it |
| `HostRequest.PartsAreTaken` | utils/utils.go:1636-1684 | written from credentials, name and path, a request asks for the name with what the server adds, the path with its slash and the credentials, each if the server uses it |
| `HostRequest.LowerIs` | utils/utils.go:1684 | capital letters become small ones and nothing else changes |
| `OpenHost.Registry.Scan` | utils/utils.go:1724-1743 | in any order of the walk: only stale entries in the way are purged; the answer is a live one in the way, and without one the address is free |
| `OpenHost.Registry.Look` | utils/utils.go:1812-1817 | the same for the one entry that an alias can have |
| `OpenHost.Registry.CheckHost` | utils/utils.go:1702-1756 | one attempt: the name is exchanged exactly when it may not be used, and what stands there decides |
| `OpenHost.Registry.GetOpenHost` | utils/utils.go:1615-1774 | for every policy: a request that nothing speaks against gets its own address at once; one that insists gets it or none, within two rounds; any other gets the first random name that is not passed over |
| `OpenHost.Registry.CheckAlias` | utils/utils.go:1800-1835 | one attempt for an alias |
| `OpenHost.Registry.GetOpenAlias` | utils/utils.go:1779-1848 | the same for aliases |
| `OpenHost.Registry.Register` | sshmuxer/httphandler.go:28-59 | the tables afterwards: a new holder with this socket alone, or the joined one with it added |
| `OpenHost.Registry.HandleHttp` | sshmuxer/httphandler.go:21-59 | from the words of the request: it gets a new holder at its own address, or one to share, exactly when nothing speaks against it and, if it insists, it is bare; otherwise an insisting one is refused and any other gets the first open random name; the tables are what the answer leads to, and the step machine allows the answer |
| `OpenHost.Registry.HandleSlot` | sshmuxer/httphandler.go:22-59 | the same from the parts of the request, for any comparison of the host with the request |
| `OpenHost.Registry.HandleAlias` | sshmuxer/aliashandler.go:20-52 | the same for aliases, whose comparison never fails |
| `OpenHost.OpeningIsARun` | sshmuxer/requests.go:443-460 | from every state with these tables the machine has a run of the handler's own steps to the tables that the methods leave |
| `OpenHost.SoleBackend` | sshmuxer/httphandler.go:28-59 | a created holder has exactly one backend and is all that stands at its address |
| `PortRange.CheckPort` | utils/utils.go:571-610 | accepts a port if and only if every entry parses and some entry contains it |
| `PortRange.AgreesIffSound` | utils/utils.go:489-610 | picker and checker agree on an entry exactly when its ends are in order and fit a port (or it starts at 0) |
| `PortRange.ReversedIsAlwaysRefused` | utils/utils.go:516-520 | whatever is picked from a reversed range is refused by the checker |
| `PortRange.GetRandomPortInRange` | utils/utils.go:489-566 | for any draws and any state of the network: the port of the first of 100 attempts that can be listened on, and 0 exactly for want of one or of an entry to pick from |
| `PortRange.PickIsAccepted` | utils/utils.go:489-610 | over sound entries whatever can be picked is accepted |
| `PortRange.EveryPortCanBePicked` | utils/utils.go:541-551 | every port of an entry can be picked, its ends in either order |
| `PortRange.PickableIffAccepted` | utils/utils.go:489-610 | over sound entries the ports that can be picked are those accepted |
| `PortRange.PickableIsDrawn` | utils/utils.go:541-551 | and each of them by some draw |
| `PortRange.TcpListeners.GetOpenPort` | utils/utils.go:1403-1502 | a requested port that is in the range, can be listened on where that is tried, and is free or shared is given at once; otherwise the port is 0 or one that can be picked, or the request insists and settles in two rounds; over a sound range it is 0 or accepted |
| `PortRange.TcpListeners.HandleTcp` | sshmuxer/tcphandler.go:22-122 | such a request is established on its port; a forward that is joins exactly one balancer of one listener, by name, and nothing else there changes; every listener is on a non-zero accepted port, the requested one if the request insists; one made here stays without backends exactly when its SNI name fails |
| `PortRange.TcpListeners.FailedNameLeavesListener` | sshmuxer/tcphandler.go:79-88 | a call that sets up nothing and leaves an empty listener |
| `HistoryModel.TrimFits` | utils/console_requests.go:182-205 | trimming keeps the newest requests within 8 MiB, and at least one |
| `HistoryModel.TrimDropsOnlyExcess` | utils/console_requests.go:190-193 | it drops no request that fits together with all that is newer |
| `HistoryModel.TrimKeepsEvents` | utils/console_requests.go:195-202 | only the last request left ever loses events to it |
| `HistoryModel.TrimEventsFacts` | utils/console_requests.go:195-202 | of that one the newest events are kept, as many as fit |
| `HistoryModel.FindNewest` | utils/console_requests.go:158-163 | eviction never sends an event to a different request |
| `HistoryModel.RunKeepsNewest` | utils/console_requests.go:121-205 | after any run the bounds hold and what is kept is a suffix of the requests made, each with a suffix of its events |
| `HistoryModel.RequestKeeps` | utils/console_requests.go:137-143 | a request that fits is recorded after the last ones before it, as many as the limit and 8 MiB allow, and no fewer |
| `HistoryModel.EventKeeps` | utils/console_requests.go:158-178 | an event goes to the last request with its ID, after the last of its events up to the limit; then the last requests that fit are kept, or the last events of the one left |
| `HistoryModel.RequestsAlone` | utils/console_requests.go:121-144 | after any run of requests alone exactly the longest tail of them that fits is kept |
| `HistoryModel.NothingIsLost` | utils/console_requests.go:121-205 | while all of it fits, after any run every request is kept with every event that it ever got |
| `ConsoleHistory.History.AddRequestHistory` | utils/console_requests.go:121-144 | in place: this route's list is the specified one, sizes stay exact, no other route is touched |
| `ConsoleHistory.History.AddRequestEvent` | utils/console_requests.go:148-178 | the same for an event |
| `ConsoleHistory.History.Trim` | utils/console_requests.go:182-205 | the same for trimming |
| `ConsoleHistory.Trimmed` | utils/console_requests.go:182-205 | the loops with their running total compute the specified list |
| `ConsoleHistory.AppendEvent` | utils/console_requests.go:165-173 | the eviction and the running size leave the specified record |
| `ConsoleHistory.History.RequestHistory` | utils/console_requests.go:209-221 | each request followed by its events, oldest first |
| `ConsoleHistory.FlatSnoc` | utils/console_requests.go:213-218 | one more request adds its message and then its events |
| `ConsoleHistory.History.RemoveRequestHistory` | utils/console_requests.go:224-229 | this route is forgotten and no other |
| `HistoryRace.RunInv` | utils/console_requests.go:121-178 | the invariant of every interleaving |
| `HistoryRace.HistoryNeedsToken` | utils/console.go:3636-3659 | a route has history only if it has a token or a removal is between deleting the one and the other |
| `HistoryRace.NothingOutlivesRoute` | utils/console.go:3647-3650 | with no removal under way, no history belongs to a removed route |
| `HistoryRace.SecondLookNeeded` | utils/console_requests.go:131-135 | without the look at the token under the lock there is a run that leaves history behind |
| `HistoryRace.RunIsSequential` | utils/console_requests.go:121-205 | in every interleaving a route keeps what recording the requests and events made since its last removal, one after another, would keep |
| `HistoryRace.RunKeepsNewest` | utils/console_requests.go:121-205 | so in every interleaving it is within its bounds and keeps the newest of those requests, each with the newest of its events |
| `HistoryRace.RunLosesNothing` | utils/console_requests.go:121-205 | and while all of it fits nothing is lost |
| `HistoryRace.StepRecords` | utils/console_requests.go:121-178 | what each step does to the history of each route |
| `HistoryRace.RequestGoesThrough` | utils/console_requests.go:121-144 | with nobody in the way, a request that fits and finds its route is added in five steps |
| `HistoryRace.EventGoesThrough` | utils/console_requests.go:148-178 | and an event in four |
| `HistoryRace.PresentIsRecorded` | utils/console_requests.go:127-144 | a request whose route is there under the lock is recorded before its thread is through, on top of what was kept when it looked |
| `Census.Cache.RefreshCache` | utils/census.go:206-351 | the merged cache is exactly two independent last-good caches: same IDs, flags and file lists, without duplicates; an ID has a note if and only if a refresh read it and it was kept since |
| `Census.Cache.IsIDCensed` | utils/census.go:432-443 | over every run of refreshes an ID is censed exactly when it was in the last successful load of a source that has since been neither off nor cleared; the list of IDs says the same |
| `Census.UrlIsLastLoad` | utils/census.go:240-266 | over every run, the last successful load of the URL since it was last off or cleared |
| `Census.FilesAreLastLoad` | utils/census.go:268-291 | the same for the directory, with the files that mention each ID |
| `Census.NoteIsLastRead` | utils/census.go:257-325 | over every run the note of an ID is the last that was read, if since then each refresh read none and kept the ID through a failed source |
| `Census.FilesInOrder` | utils/census.go:268-291 | the files of an ID are in the order in which they first mention it, all of them and once each |
| `Census.AppendUnique` | utils/census.go:353-360 | appends exactly what is not there |
| `Census.Restore` | utils/census.go:295-326 | each failed source keeps what it said before, and only that |
| `StableDirty.DirtyState.Filter` | utils/internal_status.go:837-874 | a row is reported exactly when the poll before had it too, and the total is the number of maximal runs that got to length two, however long they last |
| `StableDirty.RunsSnoc` | utils/state.go:493-511 | a poll adds exactly the runs that reach length two in it, each counted once |
| `StableDirty.ReportedIff` | utils/internal_status.go:855-865 | the reported rows are those of this poll whose key the poll before had |
| `StableDirty.RepeatedInOrder` | utils/internal_status.go:855-865 | the reported rows keep their order, each decided by itself |
| `StableDirty.KeyIdentifiesRow` | utils/internal_status.go:833-835 | two rows have one key only if they are equal, as long as no kind or name has a bar |
| `StableDirty.BarsCollide` | utils/internal_status.go:833-835 | two rows with bars that are taken for one |
| `CommandFlags.ParseCommandFlags` | sshmuxer/channels.go:707-762 | the loop computes the specified flags |
| `CommandFlags.WrittenFlagsComeBack` | sshmuxer/channels.go:707-762 | any flags come back from any mixture of plain, backslashed and quoted pieces, with backslashes inside quotes too, with any blanks and empty words around them |
| `CommandFlags.OpenEndsAreForgiven` | sshmuxer/channels.go:707-762 | a text may break off inside quotes, which count as closed, or after a backslash, which counts for nothing |
| `CommandFlags.BackslashedFlagsComeBack` | sshmuxer/channels.go:707-762 | in particular any non-empty flags, each backslashed, joined by spaces |
| `CommandFlags.NoEmptyFlags` | sshmuxer/channels.go:716-722 | no flag is ever empty |
| `CommandFlags.CoalesceNoteFlags` | sshmuxer/channels.go:765-793 | the loops compute the merged groups |
| `CommandFlags.GroupsKeepFlags` | sshmuxer/channels.go:765-793 | grouping loses nothing, and only notes take flags in |
| `CommandFlags.GroupsAreTheOnlyOnes` | sshmuxer/channels.go:774-782 | a note takes in exactly the flags up to the next with a '=' |
| `CommandFlags.CoalesceTwice` | sshmuxer/channels.go:765-793 | merging again changes nothing |
| `CommandFlags.JoinedIsSpaced` | sshmuxer/channels.go:774-784 | a merged note says its value and then the flags that it took, one space between |
| `CommandFlags.TrimIs` | sshmuxer/channels.go:784 | trimming cuts off blanks and leaves none at the ends |
| `CommandFlags.UnquotedNoteComesBack` | sshmuxer/channels.go:707-793 | a note typed without its quotes is put together again, up to the next flag with a '=' |
| `ForwardIndex.BuildForwardIndex` | utils/console.go:925-996 | the index holds a name under a socket exactly when a scan of all holders finds it there |
| `ForwardIndex.ForwardsForListeners` | utils/console.go:1000-1009 | the lookup gives what the scan finds, sorted and once each |
| `ForwardIndex.FinalizeActiveForwardList` | utils/console.go:297-320 | the names shown are the trimmed non-empty ones, sorted and once each |
| `ForwardIndex.OneListOnly` | utils/console.go:1000-1009 | there is no other list with these properties |
| `ForwardIndex.HttpNameComesBack` | utils/console.go:931-950 | the name an HTTP holder is shown under is a request for that very address |
| `ForwardIndex.TcpNameParts` | utils/console.go:952-975 | a TCP name is the address, with the balancer behind a dash for SNI |

## Left out

- SSH, TLS, HTTP and socket I/O, deadlines, logging and message text; a unix socket is a fresh name, and listening is a nondeterministic success.
- The denial paths of a forward request (disabled kinds, access checks) are one branch of the handler: close the connection and stop.
- The wait of up to two seconds for a target to be released changes no state and is no step of the forward machine; the machine goes on whether or not the target was released.
- The forward machine has no TCP tables: a TCP forward is bound in one step and its teardown takes and releases the bind lock only. A failed SNI name leaves a TCP holder without backends, so the claim about empty holders is made for HTTP and alias holders alone.
- The connection's own listener map (sshmuxer/requests.go:412) is not modelled; a cancel request names the forward.
- A forward machine handler that is refused after creating its socket closes and removes what it made; failures to make the temporary file or to listen happen before and are one branch.
- The route key is modelled as scheme and address; the escaping of the URL that the code uses as the key is not part of this model.
- `OpenHost.Registry.GetOpenHost`: the random names are a finite supply, and running out of them is an outcome; termination of the unforced retry loop depends on randomness and is not claimed.
- `OpenHost.Registry.GetOpenAlias`: the same finite supply of names.
- `PortRange.TcpListeners.GetOpenPort`: the same for its retry loop; staleness of TCP holders is a parameter.
- `PortRange.TcpListeners.HandleTcp`: the search for an SNI name among a listener's balancers (utils/utils.go:1507-1612) is an answer from outside, and so are the inactive balancers that it drops.
- `PortRange.GetRandomPortInRange`: range ends of 2^63 and more, whose width overflows a signed integer, are not modelled; parsing of numbers is an input.
- `WsParser.Parser.Feed`: sizes and the mask position are unbounded, so streams past 2^63 bytes are not modelled; buffers are sequences, their capacity and reuse are not modelled.
- `HostRequest.RequestIsFrontOfHost`: it is for servers whose domain and user extension have no '@' or '/'; lower-casing covers ASCII letters only, and the DNS and configuration tests that let a request name a whole host are one flag.
- `Wire.AcceptedIff`: a continuation may have the compression bit, which RFC 7692 forbids; the parser lets it stand.
- `ConsoleHistory.History.AddRequestHistory`: message lengths stand for sizes; slice capacity and the JSON form of messages are not modelled.
- `Census.Cache.RefreshCache`: YAML, download and the list of file names shown beside the cache; error texts and times.
- `StableDirty.DirtyState.Filter`: the counters by type, and the claim about the total is for polls without repeated keys, which is how the rows are built.
- `ForwardIndex.BuildForwardIndex`: nil holders, and base64 itself (a server decodes or does not).
- Idempotence of the lock release function under a second call (sshmuxer/requests.go:59-61) and the helper that wraps acquire and release.
- Queues, dropped-message notices and the sending of history to pages (utils/console_requests.go:231-280).
- Templates, console pages, bandwidth accounting, authentication, managed files and configuration.

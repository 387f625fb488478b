# A verified model of obs-osc

obs-osc is a plugin that lets OSC controllers drive OBS Studio and tells them what changes. This project
models, in Dafny 4.11, the parts of it that carry state, loops or arithmetic, and proves what they are for:

- **Glob** - the two-pointer wildcard matcher of `src/osc-util.cpp`.
- **OscCodec**, **OscRoundTrip**, **OscBundles**, **OscInbound** - the OSC 1.0 wire codec of `src/osc-message.cpp`.
- **ReplyBatch** - poll replies collected into one datagram, `src/osc-server.cpp`.
- **SendQueue** - the bounded send queue, its sender thread and its shutdown, `src/osc-server.cpp`.
- **WsFrame**, **WsServe**, **WsReassembly**, **WsConnections** - RFC 6455 framing, the serving loop, and all
  connections with their publishers and `shutdown_all`, `src/osc-ws.cpp`.
- **Subscriptions**, **SubscriptionMap** - the subscriber and LISTEN registries, the fan-out and the
  feedback gate, `src/osc-subscribe.cpp` and `src/osc-feedback.cpp`.
- **RateLimiter**, **FilterHooks** - the throttle and the filter hook table of `src/osc-feedback.cpp`.
- **FeedbackDelivery** - one feedback event from the message to every datagram and frame, across
  `src/osc-feedback.cpp`, `src/osc-subscribe.cpp`, the codec and the frame layer.
- **Routing**, **RouteMeanings** - address builders, route selection and selectors, `src/osc-addresses.*`, `src/osc-controls.cpp`
  and `src/osc-util.cpp`.
- **Bytes**, **Net**, **Runs** - bytes, masks, big-endian numbers, C strings, datagrams, runs of a system.

`dafny verify dfyconfig.toml` checks everything.

## How the source is rendered

Code that computes a value is a function; every loop and every in-place update of the source is a method or
a class whose postcondition equates it with such a function. The two concurrent parts are state machines whose
steps are the critical sections and the system calls between them; a run is any sequence of enabled steps, so
a statement about every run covers every interleaving. The methods of `SendQueue.Impl` and of
`WsServe.Connection` are those critical sections over the real fields, each proved to be its steps; what other
threads do to a connection while it is being served is the method `Others`. Whether `shutdown_all` is called
meanwhile is an input, and whether the socket ever refuses bytes is recorded by the socket itself.

Modelling decisions:

- A byte is an integer below 256. `& 3` and truncation to 32 bits are `Low2` and `Low32`; the mask `~3u` is a
  32-bit constant in the source, so a string's advance loses its high half here too. Floats are their 32-bit
  patterns. Text that is only compared is a sequence of characters, and its length stands for the final NUL.
- A socket delivers the bytes of its stream in pieces of any size, and accepts any part of what is written or
  fails; the postconditions of `Recv` and `Send` leave the choice open, so what is proved of their callers
  holds for every choice.
- `out` and `buf` parameters that the source appends to are passed in and returned.
- The clock, `obs_source_get_ref`, the parsed LISTEN command and the handshake are inputs.

Where the code does not do what its comments or documentation say, the model follows the code:

- The matcher compares characters before it looks for a star, so a star in the subject is consumed literally
  (`src/osc-util.cpp:32-35`). It agrees with its wildcards' meaning on every pattern exactly when the subject
  has no star: `Glob.AgreesIffNoStarInSubject`.
- "Closes the connection's socket exactly once" (`src/osc-ws.cpp:79-81`): a failed send clears `open`, and
  then nobody closes the socket. `WsConnections.FailedSendLeavesSocketOpen` is a run that shows it,
  `ClosedOnceIffNoSendFailed` the exact condition.
- "endpoints are unique in the registry" (`src/osc-subscribe.cpp:171`): a redirect overwrites the endpoint
  that identifies the subscriber. `SubscriptionMap.RepeatedRedirectDuplicates` shows it, `RunStaysUniqueIff`
  is the exact condition.
- "skip it entirely when no receiver could possibly exist" (`src/osc-feedback.cpp:25-30`): LISTEN peers are
  forgotten: `Subscriptions.GateLosesIffOnlyListeners`.
- "Splits at the last '/'" (`src/osc-controls.cpp:272-274`): it is the first one. `Routing.FirstSlashIsLastIff` says
  for which texts that makes no difference.

## Model

| member | source | states |
|---|---|---|
| Glob.GlobMatch | src/osc-util.cpp:26-49 | decides the declarative acceptance relation; true only if the wildcards describe the subject; equivalent to that for subjects without a star; at most \|s\|\*\|p\|+\|p\|+1 iterations |
| Glob.RestartLosesNothing | src/osc-util.cpp:38-40 | restarting from the last star only is enough: an attempt from further right cannot get past the aligned segment earlier |
| Glob.StarCoversLater | src/osc-util.cpp:35-37 | a star reached at a position covers every later way to reach it |
| Glob.AcceptsIsSound | src/osc-util.cpp:26-49 | whatever is accepted is described by the pattern, for every pattern and subject |
| Glob.AcceptsIsComplete | src/osc-util.cpp:26-49 | whatever is described is accepted, for every subject without a star |
| Glob.AgreesIffNoStarInSubject | src/osc-util.cpp:32-37 | acceptance and meaning agree on all patterns if and only if the subject holds no star |
| Glob.ExactNameIffNoWildcard | src/osc-util.cpp:51-54 | a pattern accepts itself and nothing else if and only if it has no wildcard: what the exact-name shortcuts rely on |
| Bytes.CStringIsLongest | src/osc-message.cpp:28 | a C string is the longest prefix without NUL |
| Bytes.Low32IsRemainder | src/osc-message.cpp:29 | what a 32-bit mask keeps is the remainder by 2 to the 32nd |
| OscCodec.WriteBe32 | src/osc-message.cpp:10-16 | appends the four big-endian bytes |
| OscCodec.WritePaddedString | src/osc-message.cpp:33-40 | appends the C string and one to four NULs up to a multiple of four |
| OscCodec.WriteBlob | src/osc-message.cpp:172-178 | appends size, bytes and zero padding of a blob |
| OscCodec.BuildMessage | src/osc-message.cpp:146-185 | appends the encoding of the message to the buffer |
| OscCodec.PositionsStayAligned | src/osc-message.cpp:19-31 | the reading position stays a multiple of four inside the packet, for packets of any size |
| OscCodec.ArgumentStaysAligned | src/osc-message.cpp:62-115 | the same for every typetag's payload |
| OscCodec.ParseMessageInto | src/osc-message.cpp:42-122 | every read stays in the buffer; appends exactly the parsed message, or nothing on failure |
| OscCodec.ParseArgumentList | src/osc-message.cpp:58-118 | the typetag loop reads what its recursive meaning says |
| OscCodec.ParsePacketInto | src/osc-message.cpp:124-144 | terminates; only appends; a false result appends nothing |
| OscCodec.ParseElementsInto | src/osc-message.cpp:132-139 | appends what each element yields; an element that fails is stepped over |
| OscRoundTrip.ReadsPadded | src/osc-message.cpp:19-40 | reading undoes writing of strings, wherever they lie in a packet |
| OscRoundTrip.ReadsArgument | src/osc-message.cpp:62-92 | reading undoes writing of i, f, s and b payloads |
| OscRoundTrip.BuildThenParse | src/osc-message.cpp:42-185 | parsing a built message gives back its address, tags and payloads and consumes the packet exactly |
| OscRoundTrip.CleanArrives | src/osc-message.cpp:42-185 | a message with NUL-free strings and nothing in its unused fields arrives exactly as it is |
| OscRoundTrip.PaddingIsNul | src/osc-message.cpp:33-40 | strings are padded with one to four NULs, blobs with up to three, to whole quads |
| OscRoundTrip.ExampleMessage | src/osc-message.cpp:146-185 | the message example of the OSC 1.0 specification |
| OscInbound.MessageIsUnderstood | src/osc-message.cpp:42-122 | every message with the twelve known typetags, in any mixture and with any padding, is read with its address, tags and values; true is one, false is zero, skipped types take their eight or four bytes and what follows them is unharmed |
| OscInbound.PacketIsUnderstood | src/osc-message.cpp:124-144 | and delivered by the packet that holds it |
| OscInbound.UnknownTagFails | src/osc-message.cpp:112-114 | any other typetag spoils the message |
| OscInbound.FixedSizeReadsIff | src/osc-message.cpp:62-111 | an argument of fixed size is read if and only if its bytes are there |
| OscInbound.StringReadsIff | src/osc-message.cpp:19-31 | a string is read if and only if there is a NUL, and up to the first one |
| OscInbound.MessageNeedsSlashAndComma | src/osc-message.cpp:48-56 | no message without a slash in front of the address and a comma in front of the tags |
| OscBundles.BundleParses | src/osc-message.cpp:129-140 | a bundle of arbitrary elements yields what the elements yield one by one; a broken one hides no other |
| OscBundles.BundleEnds | src/osc-message.cpp:132-139 | a length of zero, one that leads out of the bundle, or fewer than four bytes end it; the elements in front are kept |
| OscBundles.PacketFails | src/osc-message.cpp:126-143 | what is not understood yields nothing, and nothing is understood whose size is not a whole number of quads |
| OscBundles.TreeParses | src/osc-message.cpp:124-144 | every tree of nested bundles, empty ones included, parses to its leaves in depth-first order |
| OscBundles.RebuildIsCanonical | src/osc-message.cpp:42-185 | rebuilding a parsed message with outbound tags gives a packet as long as the prefix that was read, which parses to the same message, whatever the padding was |
| OscBundles.AddressesStartWithSlash | src/osc-message.cpp:50-51 | no packet, however nested, delivers a message whose address does not start with a slash |
| OscBundles.DeliveredIffSlash | src/osc-message.cpp:42-185 | a built message is delivered if and only if its address starts with a slash |
| ReplyBatch.Replier.BeginBatch | src/osc-server.cpp:323-330 | starts an empty batch for the endpoint |
| ReplyBatch.Replier.Answer | src/osc-server.cpp:369-387 | collects a reply to the batch's endpoint, sends any other at once |
| ReplyBatch.Replier.EndBatch | src/osc-server.cpp:332-367 | queues nothing, the lone reply verbatim, or one bundle, and clears the batch |
| ReplyBatch.BuildBundle | src/osc-server.cpp:345-362 | the bundle printer writes header, zero timetag and size-prefixed elements |
| ReplyBatch.BatchPacketParses | src/osc-server.cpp:340-364 | the datagram of any non-empty batch parses to exactly its messages, in order |
| ReplyBatch.AnswersAccumulate | src/osc-server.cpp:378-382 | the replies to the endpoint are collected in order, for any mixture of replies |
| ReplyBatch.OthersLeave | src/osc-server.cpp:384-386 | replies to other endpoints leave at once and in order |
| ReplyBatch.SessionDelivers | src/osc-server.cpp:323-387 | whole sessions: direct replies first, then one datagram with exactly the batch's replies, a single one verbatim and several in a bundle with a zero timetag, or none |
| ReplyBatch.WithoutBatch | src/osc-server.cpp:378-387 | outside a batch every reply leaves at once, in order, and nothing is collected |
| SendQueue.EveryRunIsSafe | src/osc-server.cpp:101-281 | on every run: the queue is a suffix of what was accepted, at most 1024 long; each accepted packet is exactly one of queued, in flight, sent, dropped; sending order; drops have 1024 newer packets; no lost wake-up; sends on the open socket |
| SendQueue.StepKeepsAccounts | src/osc-server.cpp:196-281 | every step keeps each accepted packet in exactly one place, and nothing is lost or discarded |
| SendQueue.StepKeepsOrder | src/osc-server.cpp:254-281 | every step keeps the packets handed to the socket in the order they were accepted |
| SendQueue.StepKeepsWakeups | src/osc-server.cpp:108-112 | a sleeping sender with work or a cleared flag always has a notification coming |
| SendQueue.PushKeepsSuffix | src/osc-server.cpp:202-210 | dropping the oldest keeps the bound, the suffix and the staleness of drops |
| SendQueue.StopDrains | src/osc-server.cpp:101-148 | when the sender has been joined, all that was queued when the flag was cleared has been sent, nothing was accepted since, and the final clear finds nothing |
| SendQueue.JoinComesToAnEnd | src/osc-server.cpp:113-114 | from any point of a run at which `stop` joins, the sender takes at most `StepsToExit` steps until it exits, whatever other threads do, and until then it can take one |
| SendQueue.PushedIsSentOrStale | src/osc-server.cpp:196-281 | a packet pushed while the flag is set is, at any later point, sent, in flight, queued, or has had 1024 newer ones; when `stop` has joined, sent or the last |
| SendQueue.EnqueueAccepts | src/osc-server.cpp:182-215 | while the server runs, `enqueue` gets every datagram with an address and data into the queue, as the newest, with a notification on its way |
| SendQueue.EnqueueRefuses | src/osc-server.cpp:185-200 | nothing passes without an address or data, without a socket, or once the flag is cleared |
| SendQueue.RoomForMore | src/osc-server.cpp:202-210 | nothing is dropped while fewer than 1024 are queued |
| SendQueue.LockExcludes | src/osc-server.cpp:196-275 | while the sender holds the lock with a packet nobody pushes, starts or stops; otherwise nobody waits for it |
| SendQueue.ControlGoesOn | src/osc-server.cpp:70-148 | `start` and `stop` go on from wherever they have got to, once they have the lock and the sender has exited, and can alternate for ever |
| SendQueue.SleeperLooks | src/osc-server.cpp:259-262 | a sleeping sender looks at the queue when it is notified, and may do so without |
| SendQueue.SenderDrains | src/osc-server.cpp:254-281 | left to itself, the sender sends everything that is queued, oldest first |
| SendQueue.DatagramGetsThrough | src/osc-server.cpp:70-281 | for every datagram with an address and data there is a run on which the server starts, takes it, sends it and stops |
| SendQueue.Impl.CheckSocketFor | src/osc-server.cpp:185-194 | the guards of `enqueue` before the lock; what passes them is admitted to it |
| SendQueue.Impl.PushLocked | src/osc-server.cpp:196-212 | the critical section of `enqueue` |
| SendQueue.Impl.WaitOrTake | src/osc-server.cpp:259-267 | the wait condition and the pop of `send_loop` |
| SendQueue.Impl.ReadSocket | src/osc-server.cpp:269-273 | the socket read for a popped packet is always the open one |
| SendQueue.Impl.ClearFlag | src/osc-server.cpp:108-111 | the critical section of `stop` |
| SendQueue.Impl.ClearQueue | src/osc-server.cpp:143-144 | the final clear has nothing to clear |
| WsFrame.Socket.SendAll | src/osc-ws.cpp:51-62 | a prefix is written, all of it exactly on success |
| WsFrame.Socket.RecvExact | src/osc-ws.cpp:65-77 | the next n bytes however they are cut up, exactly when there are n |
| WsFrame.MaskingTwice | src/osc-ws.cpp:183-186 | masking with the same key twice gives the data back |
| WsFrame.Unmask | src/osc-ws.cpp:183-186 | the in-place loop leaves, bit by bit, the exclusive or of each byte with the key's byte at its position modulo four: section 5.3 of RFC 6455 |
| WsFrame.XorBit | src/osc-ws.cpp:183-186 | the digits of `^=` are one exactly where the operands differ |
| WsFrame.MaskedIff | src/osc-ws.cpp:183-186 | masking is that exclusive or, and no other byte string is |
| WsFrame.BuildFrame | src/osc-ws.cpp:96-116 | the three length forms, for every payload a 64-bit length can count |
| WsFrame.ServerOverhead | src/osc-ws.cpp:96-116 | the shortest length form is used: two, four or ten bytes in front of the payload |
| WsFrame.ExampleFrames | src/osc-ws.cpp:96-116 | the unfragmented examples of section 5.7 of RFC 6455 |
| WsFrame.ExampleFragments | src/osc-ws.cpp:143-150 | its fragmented example |
| WsFrame.ExampleLengths | src/osc-ws.cpp:101-112 | its examples of 256 bytes and 64 KiB |
| WsFrame.LeadingDigit | src/osc-ws.cpp:110-111 | shifting from 56 down yields the big-endian length |
| WsFrame.ReadExtended | src/osc-ws.cpp:154-166 | the shifting loop reads the big-endian length without overflowing 64 bits |
| WsFrame.ReadHeader | src/osc-ws.cpp:143-171 | reads exactly the header at the position, or fails for a short stream or a length over 8192 |
| WsFrame.ReadMaskedPayload | src/osc-ws.cpp:173-188 | reads key and payload and unmasks |
| WsFrame.FrameReads | src/osc-ws.cpp:96-188 | a frame is read back with its own payload, whatever its key, length form and reserved bits |
| WsFrame.TooLongIsRefused | src/osc-ws.cpp:168-169 | a frame whose length is over 8192 is not read |
| WsFrame.CutFrameIsNoFrame | src/osc-ws.cpp:143-188 | a frame that was cut off, whoever sent it, is not taken for a frame |
| WsServe.Connection.SendFrame | src/osc-ws.cpp:118-132 | a whole frame on success, a prefix and never again on failure, nothing on a closed connection, as in the protocol |
| WsServe.Connection.CloseConn | src/osc-ws.cpp:82-91 | closes if and only if the connection is still open |
| WsServe.Connection.Others | src/osc-ws.cpp:325-356 | whatever publishers and `shutdown_all` do in between, the wire goes on carrying what the serving thread's events say, and no answer gets lost after the fact |
| WsServe.Connection.TakeFrame | src/osc-ws.cpp:269-311 | one turn of the switch: reassembly, pong, close, limits; the bytes written are those of the frames it sends, and only an answer on a connection that is no longer open can be lost |
| WsServe.TextStartsAnew | src/osc-ws.cpp:286-288 | a text frame forgets what was assembled before |
| WsServe.Connection.Serve | src/osc-ws.cpp:256-323 | for every chunking, every outcome of the sends and every interference of other threads, the loop does what its turns say; the answers on the wire are exactly the frames of its events, in order, but for a last one that is lost, and then the loop stops; none is lost if the socket takes all bytes and `shutdown_all` is not called; otherwise it goes on to the end of the stream or of the protocol; one close at the end if and only if no send failed |
| WsReassembly.ServesConversation | src/osc-ws.cpp:285-306 | from any point inside a conversation the loop does what it should and is left with the fragments of the unfinished message, if there is one |
| WsReassembly.TurnsServe | src/osc-ws.cpp:261-312 | reading frame by frame keeps done and to do together equal to the whole |
| WsReassembly.CutStreamIsSilent | src/osc-ws.cpp:261-267 | a stream that ends with a frame or inside one yields no further frame |
| WsReassembly.StopsIff | src/osc-ws.cpp:270-310 | the loop stops by itself exactly at a closing frame, a continuation of nothing or beyond 8192 bytes, and an unknown opcode; only the first is echoed |
| WsReassembly.ServeDelivers | src/osc-ws.cpp:261-312 | at every moment the events are an initial part of the expected ones, and in the end all of them, for every fragmentation, masking and interleaving, whether the stream ends after a frame, inside one, inside a message, with a closing frame or with a protocol error |
| WsReassembly.ServeClient | src/osc-ws.cpp:261-312 | serving such a stream, whatever fails: messages are handled once, unchanged and in order, the pongs on the wire carry the pings' payloads in order, up to some point, and the client reads exactly the frames sent whole; all of them if the socket takes all bytes and `shutdown_all` is not called |
| WsConnections.ConnStepKeeps | src/osc-ws.cpp:82-132 | every step keeps a connection's bytes, closes and failures consistent |
| WsConnections.EveryRunIsSafe | src/osc-ws.cpp:82-356 | the invariants hold in every interleaving |
| WsConnections.WholeFramesThenPartOfOne | src/osc-ws.cpp:118-132 | the bytes written are whole frames and at most part of one more |
| WsConnections.PeerReadsWholeFrames | src/osc-ws.cpp:118-188 | a peer reads exactly the completely written frames, and these are the frames begun, in lock order, but for one being written or cut off |
| WsConnections.SendNextIsSteps | src/osc-ws.cpp:118-132 | a whole `send_frame` is its steps under the write mutex, one after the other |
| WsConnections.NothingAfterTheEnd | src/osc-ws.cpp:82-132 | once a send failed or the connection was closed, nothing is written or closed any more, in whatever runs afterwards |
| WsConnections.FailedSendLeavesSocketOpen | src/osc-ws.cpp:79-132 | a run on which serving comes to its end and the socket was never closed |
| WsConnections.ClosedOnceIffNoSendFailed | src/osc-ws.cpp:79-91 | at most one close ever; one by the end of serving if and only if no send failed |
| WsConnections.NoListenerSurvives | src/osc-ws.cpp:314-356 | no registration of a connection outlives its serving thread's final removal |
| WsConnections.ListenersAreTheLive | src/osc-ws.cpp:201-222 | in every interleaving exactly those registrations are there whose LISTEN came when there was room and which nothing has removed since |
| WsConnections.RegistryIsRegistered | src/osc-ws.cpp:241-254 | the map of connections holds exactly those registered and not erased since, and none from before the last `shutdown_all` |
| WsConnections.ShutdownCloses | src/osc-ws.cpp:341-356 | whatever runs in between, once `shutdown_all` is done with a connection it found in the map, that is no longer open |
| WsConnections.ShutdownGoesOn | src/osc-ws.cpp:341-356 | and it can always go on, as soon as a send that holds the write mutex has come to its end, which it can |
| WsConnections.LifeIsARun | src/osc-ws.cpp:224-340 | every client can connect, listen, get a frame, stop, listen again and leave: registered meanwhile, sent exactly that frame, closed once |
| WsConnections.ServingThreadGoesOn | src/osc-ws.cpp:224-323 | a serving thread can go on from every phase to the next |
| WsConnections.OthersDoNotMatter | src/osc-ws.cpp:118-132 | what may happen to one connection, and does, depends on no other |
| Subscriptions.EndpointEqualIsIdentity | src/osc-subscribe.cpp:64-88 | equality is equality of identities, for addresses that have one |
| Subscriptions.RedirectChangesPort | src/osc-subscribe.cpp:90-97 | a redirect sets the port, modulo 2 to the 16th, and nothing else |
| Subscriptions.Registry.SubscribeAdd | src/osc-subscribe.cpp:105-144 | the vector after a subscribe, the count with it, the bounds kept |
| Subscriptions.Registry.SubscribeRemove | src/osc-subscribe.cpp:146-173 | the vector after an unsubscribe, the count with it, the bounds kept |
| Subscriptions.Registry.ListenAdd | src/osc-subscribe.cpp:182-198 | the table after a LISTEN |
| Subscriptions.ListenAddedIff | src/osc-subscribe.cpp:182-198 | afterwards exactly the old registrations are there, and the new one if and only if it was there or its path is valid and there is room |
| Subscriptions.Registry.ListenRemove | src/osc-subscribe.cpp:200-210 | erases that registration only |
| Subscriptions.ListenRemovedIff | src/osc-subscribe.cpp:200-210 | afterwards exactly the other registrations are there |
| Subscriptions.Registry.ListenRemovePeer | src/osc-subscribe.cpp:212-222 | erases exactly that peer's registrations |
| Subscriptions.WithoutPeerKeepsBounds | src/osc-subscribe.cpp:212-222 | what is left is exactly the others', still distinct and bounded |
| Subscriptions.Registry.Publish | src/osc-subscribe.cpp:258-287 | the endpoints that want the address, each subscriber once, their number, and the listening peers |
| Subscriptions.AnyMatch | src/osc-subscribe.cpp:267-272 | whether some pattern of a subscriber is accepted by the matcher |
| Subscriptions.Registry.FeedbackSend | src/osc-feedback.cpp:20-47 | what one event reaches behind the gate |
| Subscriptions.GateLosesIffOnlyListeners | src/osc-feedback.cpp:25-30 | the gate loses a delivery if and only if there is no UDP receiver and some peer listens to the address |
| Subscriptions.FeedbackRules | src/osc-feedback.cpp:20-47 | nobody gets anything while feedback is off or the gate is shut; otherwise the subscribers with an accepting pattern, the peers listening to the address, the fixed target, and the last sender if and only if nobody subscribes |
| Subscriptions.RemovedKeepsBounds | src/osc-subscribe.cpp:157-170 | an unsubscribe keeps 1 to 64 distinct patterns per subscriber |
| SubscriptionMap.AddRefines | src/osc-subscribe.cpp:105-144 | a subscribe does to the map what it should, limits and renaming by a redirect included, unless the redirect takes somebody else's endpoint |
| SubscriptionMap.RemoveRefines | src/osc-subscribe.cpp:146-173 | an unsubscribe does to the map what it should |
| SubscriptionMap.AddChanges | src/osc-subscribe.cpp:105-144 | who is subscribed with what after a subscribe: what was there, and the new pattern if and only if it is valid and within the limits |
| SubscriptionMap.RemoveChanges | src/osc-subscribe.cpp:146-173 | and after an unsubscribe: all but that pattern, or all but that endpoint's |
| SubscriptionMap.EveryRunIsBounded | src/osc-subscribe.cpp:24-28 | at most 32 subscribers with 1 to 64 distinct patterns of 1 to 256 characters on every run, redirects included |
| SubscriptionMap.EveryRunRefines | src/osc-subscribe.cpp:105-173 | on every run whose redirects take nobody else's endpoint the vector is a map from endpoints to non-empty pattern sets |
| SubscriptionMap.RunStaysUniqueIff | src/osc-subscribe.cpp:105-173 | endpoints stay unique throughout a run if and only if no redirect takes somebody else's |
| SubscriptionMap.NoRedirectsAreClear | src/osc-subscribe.cpp:118-119 | runs without redirects are among these |
| SubscriptionMap.PublishServesTheMap | src/osc-subscribe.cpp:258-287 | each endpoint is a target once if and only if one of its patterns is accepted |
| SubscriptionMap.RedirectKeepsUniqueIff | src/osc-subscribe.cpp:118-140 | a redirecting subscribe keeps endpoints unique if and only if no other subscriber has the redirected endpoint |
| SubscriptionMap.RepeatedRedirectDuplicates | src/osc-subscribe.cpp:118-140 | the same redirecting subscribe twice makes two equal endpoints |
| RateLimiter.Limiter.Throttled | src/osc-feedback.cpp:77-106 | the answer and the map after one call |
| RateLimiter.Limiter.Prune | src/osc-feedback.cpp:90-97 | erases exactly the entries over five seconds old |
| RateLimiter.MapsAgree | src/osc-feedback.cpp:77-106 | the pruned map is the never pruned one up to stale entries, on every run |
| RateLimiter.RefusedIffRecentlyAccepted | src/osc-feedback.cpp:75-106 | pruning is never observed, and a call is refused if and only if one for its key was accepted less than its window ago |
| RateLimiter.AcceptedCallsAreApart | src/osc-feedback.cpp:75-106 | accepted calls for a key are at least the later one's window apart |
| RateLimiter.PruningShowsIff | src/osc-feedback.cpp:90-106 | with windows of any length, pruning is never observed on a run if and only if no call's window reaches back to an accepted call of its key that has been pruned |
| FilterHooks.HookTable.HookFilter | src/osc-feedback.cpp:318-335 | hooks once; entries, references and connections stay in step, also when the reference fails |
| FilterHooks.HookTable.DropHookAt | src/osc-feedback.cpp:337-345 | drops one entry with its reference and its connection |
| FilterHooks.HookTable.UnhookFilter | src/osc-feedback.cpp:347-357 | drops exactly that entry |
| FilterHooks.HookTable.UnhookFiltersOfParent | src/osc-feedback.cpp:361-369 | erasing from the back drops exactly the parent's entries |
| FilterHooks.FiltersWithoutOne | src/osc-feedback.cpp:343-344 | one entry less is one reference less |
| FilterHooks.EntriesAreTheLiveHooks | src/osc-feedback.cpp:318-369 | on every run the entries are distinct and exactly the hooks that ought to be live |
| FilterHooks.DropKeepsOrder | src/osc-feedback.cpp:361-369 | the entries a parent drop leaves keep their order |
| Routing.SplitsJoined | src/osc-controls.cpp:275-284 | splitting undoes joining if and only if both sides are non-empty and the first has no slash |
| Routing.FirstSlashIsLastIff | src/osc-controls.cpp:272-284 | splitting at the first slash is splitting at the last one if and only if there is at most one, or there are slashes at both ends |
| Routing.BranchDispatches | src/osc-controls.cpp:653-773 | the branches exclude each other: text behind a branch's prefix is taken by that branch |
| Routing.ItemAddressesDispatchIff | src/osc-controls.cpp:683-721 | visible, locked and order feedback dispatches to the same scene and item if and only if the names are non-empty and the scene's has no slash |
| Routing.FilterAddressDispatchesIff | src/osc-controls.cpp:723-745 | filter feedback dispatches to the same filter if and only if, besides, its name does not split itself |
| Routing.TransformAddressDispatchesIff | src/osc-controls.cpp:747-760 | transform feedback dispatches to the same field if and only if neither name has a slash |
| Routing.SourceAddressesDispatchIff | src/osc-controls.cpp:653-668 | mute and volume feedback dispatches to the same source if and only if its name is non-empty |
| Routing.MediaAddressDispatchesIff | src/osc-controls.cpp:675-681 | media state addresses split into the name and the node if and only if the name is non-empty and has no slash |
| Routing.OutputAddressesDispatch | src/osc-controls.cpp:640-646 | every output in the table is reached under its own base with its own sub-action |
| RouteMeanings.DispatchesIffMeans | src/osc-controls.cpp:582-776 | the dispatcher decides for a route if and only if that is what the address means, written down independently for every command |
| RouteMeanings.OtherwiseUnhandled | src/osc-controls.cpp:582-777 | unhandled if and only if the address means nothing; subscriptions and what is no address never get there |
| Routing.IsIndexSegment | src/osc-util.cpp:56-66 | true exactly for non-empty strings of digits |
| Routing.NameSelectsItselfIff | src/osc-util.cpp:68-71 | a name selects exactly its equals if and only if it is neither all digits nor a pattern |
| Routing.DigitsSelectThePosition | src/osc-util.cpp:68-71 | the digits of a position select exactly what is at that position |
| Routing.LeadingZero | src/osc-util.cpp:68-71 | also with zeros in front |
| Routing.ItemsVisited | src/osc-util.cpp:146-161 | exactly the items that the selector accepts are visited |
| Routing.ScenesVisited | src/osc-util.cpp:188-197 | exactly the scenes that the pattern accepts are walked |
| Routing.ShortcutVisitsTheSame | src/osc-util.cpp:169-198 | looking an exact scene name up visits what walking all scenes would visit |
| Routing.FeedbackAddressesReachTheirItems | src/osc-util.cpp:146-198 | for plain names, the visible, locked, order and transform feedback addresses write to exactly the items of that name in the scene of that name, each once and in order |
| Routing.FeedbackAddressReachesItsFilters | src/osc-objects.cpp:236-275 | for plain names, the filter feedback address writes to exactly the filters of that name in the chain of the source of that name, each once and in order |
| Routing.FiltersVisited | src/osc-objects.cpp:249-258 | exactly the filters that the selector accepts, by name or by position, are visited |
| FeedbackDelivery.Send | src/osc-feedback.cpp:20-47 | the datagrams and frames that one event hands on, behind the gate |
| FeedbackDelivery.EventReachesExactly | src/osc-subscribe.cpp:258-287 | past the gate, every endpoint that wants the address gets exactly one datagram and nobody else any but the legacy receivers; each parses to exactly the message; each listening peer is sent exactly one frame with the same packet |
| FeedbackDelivery.NothingLeaves | src/osc-feedback.cpp:22-30 | nothing leaves while feedback is off or the gate is shut |
| FeedbackDelivery.TextIsTheBytes | src/osc-subscribe.cpp:258-282 | the address that patterns and paths are compared with is the one in the message |
| FeedbackDelivery.FrameIsRead | src/osc-ws.cpp:325-340 | from its frame a peer reads the packet |
| FeedbackDelivery.EventIsSentOrStale | src/osc-server.cpp:182-215 | a datagram of an event that the queue accepts is sent by the time `stop` has joined, and parses to the message, or has had 1024 newer ones |

## Left out

- Sockets beyond byte streams, address resolution, Winsock, Bonjour and the HTTP server: I/O.
- The Qt dialog, the locale files, loading and saving of settings: short branches.
- What a route does to OBS, the properties of filters and the OSCQuery tree: they live in libraries whose
  semantics are not part of this model.
- The handshake's accept key and the JSON of LISTEN and IGNORE commands: inputs here.
- Volume curves, decibels, and `atoi` beyond the range of `int`: rounding and undefined behaviour.
- Polls (`poll_dispatch`): the same tests and splits as the commands, with replies instead of effects.
- Patterns in `osc_visit_sources`: which sources the enumeration lists is up to libobs. Plain names, as in
  feedback addresses, are modelled.
- What writing an item's order does to a walk over the items that is still going on: up to libobs.
- The receiving thread, `set_feedback_target`, and two threads calling `start` and `stop` at once.
- Null `data` and `out` pointers of `osc_parse_packet`: a byte string is never null.
- Relaxed atomics are taken as sequentially consistent, and connection tokens as never reused.
- OscRoundTrip.BuildThenParse: covers the outbound typetags i, f, s, b and none, which is what the codec
  documents for sending; the builder writes a padded string under any other tag.
- SubscriptionMap.EveryRunRefines: covers endpoints that equal themselves, which IPv4 and IPv6 senders do; an
  endpoint of another family is never equal to itself and could subscribe again and again within the bounds.
- WsReassembly.ServeClient: covers conversations that keep to section 5.4 of RFC 6455 up to their end; a text
  frame in the middle of a message, for which the server forgets what it had, is in `Serve` only.
- WsConnections: a thread may send on any connection that was ever registered, which allows more than the
  source, where it has to find the connection in the map first.

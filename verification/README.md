# Verified model of a websocket pipe and its proxy protocol

The repository turns a websocket, which carries messages, into a sosistab byte-stream pipe
(`src/pipe.rs`), hands out such pipes from a listener (`src/listener.rs`), and runs a framed TCP
proxy called wsocks on top of multiplexed pipes (`src/bin.todo/wsocks.rs`). This project models
the three in Dafny 4.11 and proves what holds of every run. `dafny verify dfyconfig.toml` checks
everything.

**The pipe.** `PipeCode` has the pipe as a class with its poll functions, and the two background
loops as classes that are resumed and run until they wait. `PipeSpec` says on plain values what a
read, a step of the sending loop and a step of the receiving loop do; the classes are proved
against it. `PipeSystem` joins two endpoints by a websocket: callers write, read, close and drop
their handle, the loops step, a race between the loops of one endpoint is cancelled, and the network
delivers, injects other items and cuts, in any order. `PipeTheorems` states what holds of every such
run. `PipeRefinement` shows that a resumption of a coded loop is a run of the system, and
`PipeEndpoint` that the objects of an endpoint, the pipe and the race of its two loops, are
simulated by it: every call and every poll is a run, and the steps of all others leave them alone.

**The frames.** `Bincode` is the concrete encoding of a wsocks frame (bincode 1.3 with the settings
of its free functions: little-endian fixed-width integers, u32 variant tags, u64 lengths, trailing
bytes ignored). `Frames` puts the length prefix around it, sends and receives over streams cut into
arbitrary fragments, and has the two forwarding loops. `Tunnel` is the protocol of one proxied
connection between a client and a server.

**The sessions.** `Base64` (section 4 of RFC 4648) and `SessionKey` carry a session hash inside the
websocket key of a handshake (sections 4.1 and 4.2.1 of RFC 6455 ask for sixteen bytes). `Listener`
turns handshakes into pipes, and `Sessions` attaches each pipe to its session's multiplexer.

## Where the code falls short of its promise

A pipe is meant to be a lossless byte stream, and a successful write is meant to have been sent.
The code does not always keep that. The model follows the code, and the exact conditions are
proved:

- A read whose residual fits the buffer while no message is waiting copies the residual, forgets
  it, and answers that nothing is ready. `PipeTheorems.LossExactly`: the bytes lost in a run are
  exactly the residuals met by such reads, and none are lost if and only if there is no such read.
  `PipeTheorems.SecondHalfLost` gives the runs that lose bytes. `PipeSpec.RepairedRead` is the
  obvious repair; it is not what the pipe does, and only lemmas about the repair use it.
- A write on an open pipe reports success even when the channel refused the message.
  `PipeTheorems.WriteRefusedExactly`: this happens if and only if the channel is full.
  `PipeTheorems.FullChannelRefuses` gives a run that gets there.
- A reader can be told zero bytes, which callers take for the end of the stream, while the pipe is
  open. `PipeTheorems.FalseEndExactly`: a read into a non-empty buffer says so if and only if an
  empty message is next and no residual is left; an empty message behind a residual that fits the
  buffer is swallowed unnoticed. `PipeTheorems.EmptyWriteEndsReading` gives a run in which a
  zero-byte write does it, and by `PipeTheorems.NonEmptyWritesNoFalseEnd` nothing else can.
- Closing does not flush: a message answered with success and still queued when the pipe is closed
  is stranded (`PipeTheorems.CloseLosesQueued`). Losing the last handle does not do that by itself:
  the loop returns on an open pipe only with the whole backlog sent (`PipeSpec.TxRunFacts`).
- What is queued can always be read, but the bytes left as a residual that fits the buffer are lost
  by the read after (`PipeTheorems.QueuedIsReadable`; `PipeSpec.Leftover` is their number).
- After a failed dial an HTTP client reaches an unfinished branch and panics (`Tunnel.OfferTaken`;
  `Tunnel.HttpPanics` gives the runs).

One more panic is conditional. The server unwraps the sending of its offer, which is refused exactly
when the text of a dial error does not fit a frame (`Tunnel.DialAnswered`). `Tunnel.LongErrorPanics`
gives the run, given such a text; the text is the debug form of an error of the operating system,
about whose length nothing is known here.

`src/bin.todo/wsocks.rs` reads the key of a pipe through `peer_metadata`, which `src/pipe.rs` no
longer offers; it only exposes the address that ends in `#` and the key. The model proves that the
key can be recovered from that address and follows `wsocks.rs` in everything else.

## Model

| member | source | states |
|---|---|---|
| PipeCode.ObfsWsPipe.constructor | src/pipe.rs:90-136 | a new pipe is open and empty, with two channels of its own, and its address is the URL, `#` and the key |
| PipeCode.ObfsWsPipe.PollRead | src/pipe.rs:239-288 | the in-place copy through two phases is one `Read`: the bytes taken stand at the front of the buffer, the rest of it is untouched, and success reports their number |
| PipeCode.ObfsWsPipe.PollWrite | src/pipe.rs:193-212 | fails on a closed pipe; otherwise always reports the whole length, while the message joins the channel only if there is room and a receiver |
| PipeCode.ObfsWsPipe.PollFlush | src/pipe.rs:214-226 | fails exactly on a closed pipe |
| PipeCode.ObfsWsPipe.PollClose | src/pipe.rs:228-235 | closes the pipe and succeeds |
| PipeCode.ObfsWsPipe.RemoteAddr | src/pipe.rs:296-302 | a closed pipe has no address, an open one its own |
| PipeCode.ObfsWsPipe.Drop | src/pipe.rs:94-95 | when the last handle goes, one channel has no sender and the other no receiver any more |
| PipeCode.SendLoop.Resume | src/pipe.rs:142-161 | the loop, resumed, performs a run of `TxStep`, the websocket gets what that run emits, and it stops only to wait or because it returned: on a closed pipe, a failed send, or an empty channel that has no sender any more |
| PipeCode.RecvLoop.Resume | src/pipe.rs:162-190 | the loop, resumed, performs a run of `RxStep` over the items it took from the network, and stops only to wait or because it returned: on a closed pipe, the end of the stream, or a channel that has no receiver any more |
| PipeCode.LoopRace.PollSenderFirst | src/pipe.rs:103-116 | one poll of the race is a run of one loop and, unless that returned, a run of the other; as soon as either has returned the race is over and the channels lose the ends the loops held |
| PipeCode.LoopRace.PollReceiverFirst | src/pipe.rs:103-116 | the same with the other loop polled first |
| PipeSpec.TxRunFacts | src/pipe.rs:147-160 | in every run of the sending loop the backlog leaves from the front and in order, all but perhaps a last failed message reaches the wire; it returns on an open pipe only when all handles are gone and the whole backlog is on the wire; once closed at most one more message goes out |
| PipeSpec.TxRunEnds | src/pipe.rs:147-160 | over every run of the sending loop, only a failed send closes the pipe, and the loop has returned if and only if it found the pipe closed, a send failed, or no message can come any more |
| PipeSpec.RxRunFacts | src/pipe.rs:167-189 | in every run of the receiving loop exactly the binary payloads read reach the channel or the loop's hand, in order and within capacity, except for a last one read when all handles are gone; once closed at most one more is queued |
| PipeSpec.RxRunEnds | src/pipe.rs:167-189 | over every run of the receiving loop, only the end of the stream closes the pipe and other messages and errors are skipped: the loop has returned if and only if it found the pipe closed, the stream ended, or nobody can read any more; on a closed pipe at most one more item is read |
| PipeSpec.ReadConservesStream | src/pipe.rs:246-287 | a read removes a prefix of the flat byte stream (residual, then queued messages) and nothing else |
| PipeSpec.ReadLossExactly | src/pipe.rs:249-272 | an unreported removal happens exactly when a non-empty residual fits the buffer and the queue is empty, and then takes the whole residual; the repaired read differs exactly there and loses nothing |
| PipeSpec.ReadCount | src/pipe.rs:246-287 | how many bytes a successful read reports, that it makes progress, and that it reports none exactly for an empty message behind an empty residual |
| PipeSpec.DrainArithmetic | src/pipe.rs:250-256 | a residual of R bytes alone serves exactly (R-1)/k reads of k bytes |
| PipeSpec.ReaderAccounting | src/pipe.rs:246-287 | over every run of arrivals and reads each byte is delivered, lost or held, none is lost exactly in the runs without a lossy read, and then the output is a prefix of the input |
| PipeSpec.ReadSizeIndependence | src/pipe.rs:246-287 | two loss-free runs over one message sequence with any buffer sizes have comparable outputs, equal once drained |
| PipeSpec.QueueDrains | src/pipe.rs:246-287 | from any inbox, with a buffer of any size but zero, reads are answered until the queue is empty; what they report and a residual of `Leftover` bytes that fits the buffer are the whole stream, the next read loses exactly that residual, and the drain is lossless if and only if `Leftover` is zero |
| PipeSpec.LongBuffersDrain | src/pipe.rs:266-287 | with no residual and buffers that hold the longest message, one read a message reports everything and nothing is left over |
| PipeSpec.RepairLosesNothing | src/pipe.rs:257-272 | with the repaired read no run loses a byte, and loss-free runs of the real read are unchanged by the repair |
| PipeSystem.StepKeepsInv | src/pipe.rs:103-289 | every step of every party keeps message and byte conservation, the residual, capacity and closing invariants of both directions |
| PipeSystem.RunKeepsInv | src/pipe.rs:103-289 | the same over whole runs |
| PipeTheorems.Conservation | src/pipe.rs:142-289 | in every reachable state the accepted messages are, in order, those read, queued, in hand, on the wire, stranded, in hand and queued; the residual is the tail of the last message read; both queues are within capacity |
| PipeTheorems.PrefixDelivery | src/pipe.rs:142-289 | the bytes read, reported or lost, are a prefix of the bytes accepted; without a loss so are the reported ones, and they are all of them once nothing is under way |
| PipeTheorems.RunsAgree | src/pipe.rs:142-289 | any two loss-free runs over prefixes of one byte stream deliver comparable streams, whatever the interleaving, the network and the buffers |
| PipeTheorems.RefusalsOnly | src/pipe.rs:203-211 | the accepted messages are the ones answered with success exactly if none was refused |
| PipeTheorems.LossExactly | src/pipe.rs:249-272 | over every run the bytes lost are the residuals met by lossy reads, so nothing is lost if and only if there is no such read |
| PipeTheorems.LongBuffersLoseNothing | src/pipe.rs:266-287 | a reader whose buffers hold the longest message never loses a byte and never keeps a residual |
| PipeTheorems.QueuedIsReadable | src/pipe.rs:239-288 | in any state, closed or not, a side that still has its handle can read what is queued without a loss but for `Leftover` bytes, which one more read loses |
| PipeTheorems.FalseEndExactly | src/pipe.rs:266-287 | in every run a read into a non-empty buffer reports zero bytes if and only if it met an empty message next and no residual |
| PipeTheorems.NonEmptyWritesNoFalseEnd | src/pipe.rs:199-287 | a peer whose accepted messages are all non-empty never causes a zero-byte report |
| PipeTheorems.EmptyWriteEndsReading | src/pipe.rs:199-287 | a run in which a zero-byte write makes the reader of an open pipe report zero bytes |
| PipeTheorems.WriteRefusedExactly | src/pipe.rs:199-211 | in every reachable open state a write is silently dropped if and only if the channel is full |
| PipeTheorems.FullChannelRefuses | src/pipe.rs:94-211 | a run that leaves an open pipe with a full channel, where the next write is answered with success and dropped |
| PipeTheorems.AfterClose | src/pipe.rs:147-157 | closing is final; afterwards nothing is accepted, and at most one message goes out and at most one comes in, none if the loop was not past its test |
| PipeTheorems.ClosedExactly | src/pipe.rs:150-234 | in every run a pipe is closed if and only if its caller closed it, its peer's stream ended or a send of its own failed |
| PipeTheorems.OtherSkipped | src/pipe.rs:168-183 | for every message and every item of another kind in front of it there is a run in which the item is skipped, both pipes stay open and the message arrives |
| PipeTheorems.CloseLosesQueued | src/pipe.rs:147-235 | for every message there is a run in which it is answered with success, still queued when the pipe is closed, and never sent |
| PipeTheorems.CutStrands | src/pipe.rs:184-188 | for every message there is a run in which it is on the wire when that is cut, is lost, and the reader's pipe is closed by the end of the stream |
| PipeTheorems.TailStaysCut | src/pipe.rs:103-116 | errors, cuts, dropped handles and cancelled races cut off a tail only: once a message is stranded nothing behind it arrives in any continuation |
| PipeTheorems.SecondHalfLost | src/pipe.rs:249-272 | for every message that takes two reads there is a run that loses exactly the bytes of the second |
| PipeRefinement.SendLoopRefines | src/pipe.rs:142-161 | a resumption of the sending loop is a run of the system that adds to the wire what the loop put there |
| PipeRefinement.RecvLoopRefines | src/pipe.rs:162-190 | a resumption of the receiving loop is a run of the system that takes its items off the wire |
| PipeRefinement.ReadEventIsPollRead | src/pipe.rs:239-288 | a read event of the system leaves the inbox as `PollRead` does, records what was reported and taken, and touches nothing else |
| PipeEndpoint.Endpoint.Write | src/pipe.rs:193-212 | a call of `PollWrite` on the objects of an endpoint is the write event of the system they represent |
| PipeEndpoint.Endpoint.Read | src/pipe.rs:239-288 | a call of `PollRead` is the read event, whose history records exactly the bytes the caller finds in its buffer |
| PipeEndpoint.Endpoint.Close | src/pipe.rs:228-235 | a call of `PollClose` is the close event |
| PipeEndpoint.Endpoint.Drop | src/pipe.rs:94-95 | losing the last handle is the drop event |
| PipeEndpoint.Endpoint.PollSenderFirst | src/pipe.rs:103-190 | a poll of the background task is a run of the system, its end included, after which the objects represent the state reached; what the websocket was given has joined the wire |
| PipeEndpoint.Endpoint.PollReceiverFirst | src/pipe.rs:103-190 | the same with the receiving loop polled first |
| PipeEndpoint.Endpoint.OthersLeave | src/pipe.rs:103-289 | steps of the other endpoint and of the network leave the objects a representation of the new state |
| Bincode.FramePrinted | src/bin.todo/wsocks.rs:106-216 | decoding an encoded frame, whatever follows it, gives the frame back and leaves what follows |
| Bincode.DeserializeExactly | src/bin.todo/wsocks.rs:228-252 | a buffer decodes to a frame if and only if that frame's encoding stands at its front |
| Bincode.PaddingIrrelevant | src/bin.todo/wsocks.rs:212-224 | the decoded protocol value does not depend on the padding |
| Bincode.DataFrameSize | src/bin.todo/wsocks.rs:188-216 | the exact encoded size of a data frame |
| Bincode.ProtocolLayout | src/bin.todo/wsocks.rs:170-192 | where every field of a connect request and of a data frame stands, tag first |
| Bincode.GrantLayout | src/bin.todo/wsocks.rs:170-192 | the bytes of a granting offer |
| Bincode.DenialLayout | src/bin.todo/wsocks.rs:106-192 | the bytes of a denying offer: the index of its error in declaration order, and the text of the last |
| Bincode.FrameLayout | src/bin.todo/wsocks.rs:206-224 | the padding, behind its length, ends a frame |
| Bincode.LittleEndianLayout | src/bin.todo/wsocks.rs:228-229 | byte i of an encoded integer is its i-th from the low end |
| Bincode.Utf8Exactly | src/bin.todo/wsocks.rs:106-192 | a text field is accepted if and only if it encodes a sequence of Unicode scalar values |
| Frames.Send | src/bin.todo/wsocks.rs:227-241 | writes the length-prefixed frame, or the part of it the stream takes before failing, or refuses it and writes nothing exactly if it is over 65535 bytes |
| Frames.HeaderBytes | src/bin.todo/wsocks.rs:230-237 | the cast of an accepted length to sixteen bits loses nothing and reads back as the length |
| Frames.Recv | src/bin.todo/wsocks.rs:243-253 | however the stream is cut into fragments, one receive is `Receive` of the bytes |
| Frames.ReceiveSent | src/bin.todo/wsocks.rs:227-253 | a sent frame is received as it was, and the bytes behind it are untouched |
| Frames.ReceiveCut | src/bin.todo/wsocks.rs:243-253 | an incomplete frame is only ever the end of the stream |
| Frames.ReceiveEndsExactly | src/bin.todo/wsocks.rs:243-253 | a receive reports the end if and only if fewer bytes come than announced, and otherwise leaves what stands behind them |
| Frames.WireLayout | src/bin.todo/wsocks.rs:230-239 | the two bytes of the length, the high one first, stand in front of the encoding |
| Frames.ReceiveExactly | src/bin.todo/wsocks.rs:243-253 | exactly which bytes are received as a frame, including a length that covers trailing junk |
| Frames.StreamRoundTrip | src/bin.todo/wsocks.rs:226-254 | any sequence of sent frames comes back as it was, in order, with what follows untouched |
| Frames.ReceiveFront | src/bin.todo/wsocks.rs:243-253 | on any front part of a stream of frames a receive gives the next frame or the end, never a malformed one |
| Frames.DataFrameFits | src/bin.todo/wsocks.rs:859-874 | a forwarded chunk with its padding takes at most 60164 bytes and is never refused |
| Frames.UpLoop | src/bin.todo/wsocks.rs:858-876 | the bytes taken from the near socket are the chunks, one data frame each, in order, an empty one only once the input has ended; the stream has them all, or as much as it takes before failing in the last; the loop stops at the deadline, a failed read or a failed send and takes no turn more; the size error is never met |
| Frames.UpTurn | src/bin.todo/wsocks.rs:868-874 | one turn sends exactly what the next read of the near socket returns, at most a buffer full |
| Frames.DownLoop | src/bin.todo/wsocks.rs:830-856 | writes what `Forwarded` says, or as much of it as the near socket takes before failing |
| Frames.ForwardedExactly | src/bin.todo/wsocks.rs:836-854 | of data frames of its own connection, with anything behind them, the downward loop writes the payloads of the turns before the deadline and stops there, or else all of them and goes on with the rest |
| Frames.DeadlineCutsOff | src/bin.todo/wsocks.rs:837-841 | with every frame of some chunks arrived and a deadline after n turns, the first n chunks are written and no more; with a later deadline all of them |
| Frames.StrangerStops | src/bin.todo/wsocks.rs:844-853 | the first frame that is not data of this connection ends the loop in its own panic behind the data before it |
| Frames.TunnelTransport | src/bin.todo/wsocks.rs:824-879 | whatever part of the stream has arrived and whenever the deadline passes, the far side has a prefix of the bytes read at the near side to write, all of them at the end, and meets no panic |
| Frames.EmptyChunksIgnored | src/bin.todo/wsocks.rs:868-874 | the frames of empty chunks, any number and anywhere, change nothing of what the far side writes or how it ends |
| Tunnel.StepKeepsInv | src/bin.todo/wsocks.rs:415-434 | every step of client, server and streams keeps the shape of the traffic and the records of bytes read and written |
| Tunnel.ProtocolSafety | src/bin.todo/wsocks.rs:774-853 | in every run no side meets an unexpected, foreign, undecodable or oversized frame; traffic is one connect then data, one offer then data, under one id, to the address asked for |
| Tunnel.TunnelDelivers | src/bin.todo/wsocks.rs:824-879 | in every run each end has written a prefix of what the other end read, all of it once the stream is consumed |
| Tunnel.DialAnswered | src/bin.todo/wsocks.rs:786-817 | the single offer tells the outcome of the dial; it is not sent exactly for an error text that is too long |
| Tunnel.OfferTaken | src/bin.todo/wsocks.rs:424-432 | the client relays under the id granted exactly after a granting offer; after a denying one SOCKS learns the error and HTTP panics |
| Tunnel.RefusedExactly | src/bin.todo/wsocks.rs:230-233 | exactly which connect requests and error offers are too large to send |
| Tunnel.RequestAnswered | src/bin.todo/wsocks.rs:415-423 | a request goes out as one connect frame if it fits, and is given up without a trace if not |
| Tunnel.BreachEndsForwarding | src/bin.todo/wsocks.rs:836-854 | only data of its own connection keeps a forwarding task going; anything else ends it for its own reason with nothing written |
| Tunnel.BreachEndsOpening | src/bin.todo/wsocks.rs:424-788 | only an offer answers a request and only a request opens a connection |
| Tunnel.HttpPanics | src/bin.todo/wsocks.rs:592-609 | for every address that can be requested and every dial error that can be told there is a run in which an HTTP client panics |
| Tunnel.LongErrorPanics | src/bin.todo/wsocks.rs:803-815 | given a dial error with too long a text there is a run in which the server panics and the client is left waiting |
| Tunnel.DataFlows | src/bin.todo/wsocks.rs:774-879 | for every address, id and pair of chunks there is a run in which the request is granted and each chunk read at one end is written at the other |
| Base64.EncodeDecodes | src/bin.todo/wsocks.rs:317-321 | decoding an encoded byte string gives it back |
| Base64.DecodeCanonical | src/listener.rs:78 | a text is accepted only as the encoding of what it decodes to |
| Base64.DigitsAreStandard | src/bin.todo/wsocks.rs:317 | the digits are those of the standard alphabet in its order |
| Base64.QuadSpellsNumber | src/bin.todo/wsocks.rs:317 | three bytes and their four digits spell the same 24-bit number |
| SessionKey.ApplyKeystream | src/bin.todo/wsocks.rs:301 | the in-place loop masks every byte with its own keystream byte |
| SessionKey.XorBitwise | src/bin.todo/wsocks.rs:301 | every bit of a masked byte is the parity of the two bits it comes from |
| SessionKey.MaskedZeros | src/bin.todo/wsocks.rs:301 | masked zeros are the keystream itself |
| SessionKey.Generate | src/bin.todo/wsocks.rs:296-318 | the key text is `KeyText` of nonce and hash |
| SessionKey.KeyTextLayout | src/bin.todo/wsocks.rs:296-318 | decoded, a key text is the nonce in clear and then the hash, most significant byte first, each byte masked by the keystream byte of its position |
| SessionKey.ReadSession | src/bin.todo/wsocks.rs:320-342 | reads a session from a text or refuses it, as `SessionOf` does |
| SessionKey.SessionRoundTrip | src/bin.todo/wsocks.rs:296-342 | for every nonce, key and hash the server reads back the hash the client put in |
| SessionKey.SessionExactly | src/bin.todo/wsocks.rs:320-342 | a text names a session if and only if a client of that session can have sent it |
| SessionKey.CheckAgrees | src/listener.rs:77-83 | the listener accepts exactly the keys the server can read, and those are 24 visible characters without `#` |
| SessionKey.GeneratedPasses | src/listener.rs:77-83 | every generated key is accepted |
| SessionKey.PeerUrlSplits | src/pipe.rs:118-120 | the address of a pipe splits at its last `#` into its URL and its key |
| Listener.StepKeepsInv | src/listener.rs:44-64 | every step of every handshake keeps slots, pipes and queue consistent |
| Listener.PipesAreGenuine | src/listener.rs:41-98 | in every run the slot is empty when the callback sends, each pipe handed out has an accepted key and a connection of its own, and each finished connection made one pipe |
| Listener.PipesCarryTheirKeys | src/listener.rs:48-89 | in every run each pipe handed out carries the key its own client presented, in a handshake that went through; a connection is refused if and only if its key is not accepted or its handshake failed |
| Listener.PipesInOrder | src/listener.rs:59-98 | pipes are handed out in the order in which they were queued |
| Listener.PipeWaitsExactly | src/listener.rs:29-59 | a finished pipe waits if and only if a thousand others wait for the caller |
| Listener.HandshakeYieldsPipe | src/listener.rs:41-98 | for every accepted key there is a run in which its client's pipe is handed out under it |
| Sessions.OneLivePerHash | src/bin.todo/wsocks.rs:692-719 | in every registry the loop reaches, whatever dies, there is at most one live multiplexer per session hash, and cleaning leaves exactly those in the table |
| Sessions.TurnSettles | src/bin.todo/wsocks.rs:691-725 | a turn of the loop settles the fate of its pipe at a multiplexer of its session, in order, and keeps every live multiplexer registered under its hash |
| Sessions.DroppedExactly | src/bin.todo/wsocks.rs:691-722 | a turn finds the live multiplexer of the session, or makes one if there is none when the table is cleaned, and drops the pipe if and only if that one dies while the loop waits or is about to attach |
| Sessions.ReconnectsToSameMux | src/bin.todo/wsocks.rs:705-722 | a reconnecting client reaches its multiplexer again as long as that lives |
| Sessions.SessionSafety | src/bin.todo/wsocks.rs:684-725 | the loop goes on if and only if accepting succeeds and the listener would accept each key, and every pipe's session is the one its key was made for |
| Sessions.ListenerFeedsServer | src/bin.todo/wsocks.rs:688-722 | on the pipes a listener hands out in any run, with keys read back from their addresses, the loop never ends, no connection is served twice, and each is served under the session for which the key was made that its own client presented |
| Sessions.SessionServer.Retain | src/bin.todo/wsocks.rs:692-697 | removes exactly the entries of dead multiplexers |
| Sessions.SessionServer.RunTurn | src/bin.todo/wsocks.rs:691-725 | one pass through the loop body is one `Turn`, or ends at a failed accept or an unreadable key |
| Sessions.SessionServer.Serve | src/bin.todo/wsocks.rs:690-729 | the loop computes `Turns`, keeps the invariant, and ends exactly at a failed accept or an unreadable key |

## Left out

- Connecting, TLS, the HTTP upgrade and URI parsing (`src/pipe.rs:42-88`): network code of other libraries; a websocket is an in-order stream of binary messages, other items, errors and an end.
- Wake-ups and scheduling: the poll functions ignore their context, so nothing is claimed about progress; the relaxed flag is an ordinary shared boolean.
- Cloned pipe handles: a clone copies the residual and shares the queues; the model has one handle for each endpoint.
- Other parties during a poll: a resumption of a loop is one uninterrupted poll; what others do while it waits is the business of `PipeSystem`, whose steps interleave freely.
- The websocket library and the sosistab2 multiplexer and streams: a stream is a reliable in-order byte channel that may stop; frames are not claimed to ride on one pipe.
- The handshake library: its callback runs at most once for a connection, which its signature enforces by consuming it.
- Cryptography: the keystream is an arbitrary function of key, nonce and position, the session hash an arbitrary 64-bit number, the client's key hash an arbitrary byte string.
- SOCKS and HTTP front ends, mapping of error codes, options, key files, build information and logging: input and output, or table lookups; of the HTTP front end only its unfinished branch is modelled.
- The wall clock of a session (`src/bin.todo/wsocks.rs:738-766`): a multiplexer can die at any moment, and the turn at which a forwarding loop sees the deadline is a parameter.
- Randomness: the paddings of frames, nonces and offer ids are parameters.

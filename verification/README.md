# Verification of the SSH stack and the key checker

This is a Dafny model of the program and of the SSH library it carries under `Godeps/_workspace`. The program is an SSH
server that looks at the public keys a client offers; its hard parts are in the library. `dafny verify dfyconfig.toml`
checks all of it.

## What is modelled

* **Channels** (`channel.go`, `mux.go`, `buffer.go`, `window` in `common.go`). `ChannelFlow` runs one channel between two
  endpoints with any number of writers, readers and closers; its steps are the code's critical sections, so the gaps
  between reserving credit and sending, reading and crediting, and raising the window and telling the peer are visible;
  `ChannelInvariant` and `ChannelResults` hold its proofs, and `ChannelLife` says what such a channel can do.
  `ChannelIds` runs the opening and closing of any number of channels, whose numbers are reused; `ChannelViews`,
  `ChannelIdInvariant` and `ChannelIdResults` hold its proofs, and `ChannelIdLife` says that channels can be opened and
  closed. `Channel`, `ChanList`, `Window` and `Buffer` are the objects, with in-place updates, and `Channel` takes the steps of `ChannelFlow`.
  `ChannelPackets` ties its data messages to bytes.
* **Key exchange and transport** (`handshake.go`, `transport.go`, `kex.go`, negotiation in `common.go`, `cipher.go`).
  `Handshake` is one endpoint with its goroutines and mutex against an arbitrary peer; `Transport` is two endpoints over
  in-order links and follows sequence numbers, cipher epochs and session ids; `HandshakeObject` and `Connection` are the
  objects. `Negotiate` and `Kex` say when both ends get the same algorithms and keys; `Transport` takes these as functions of
  what each end has seen, `EarnedKeys` says that keys come only from exchanges that have succeeded, and `KeyExchange` puts
  these together; `KeyMaterial`, `StreamCipher` and `GcmCipher` go down to bytes.
* **The wire codec** (`messages.go`, `certs.go`, `keys.go`, `key.go`). `Wire` interprets a schema of field kinds as the
  reflective Marshal and Unmarshal do; `Mpint`, `Tuples`, `PublicKeys` and `Certs` build on it,
  and `KeyForms` has keys and certificates byte by byte.
* **Authentication** (`server.go` and `client_auth.go` of the library, `server.go` of the program): `ServerAuth`,
  `ClientAuth`, `KeyboardInteractive`, `AuthForms` with the messages byte by byte, `KeyConversations`, in which a client meets a
  server of the library, `AppServer`, and `AppConversation`, in which it meets this program.
* **The line editor** (`terminal/terminal.go`): `Editor` says what keys mean, `Screen` what a terminal makes of what it
  is sent, `History` is the ring buffer, and `Terminal` the object that edits in place and keeps the screen in step.

Cryptographic primitives are function parameters: the hash, the MAC, the key stream, Seal and Open, Sign and Verify, and the
test whether a point is on a curve. So are randomness, the callbacks of a configuration, and what a connection delivers.

A run of a state machine is a list of labels; a theorem about runs quantifies over all lists, so over every interleaving.
Waiting on a condition variable or a full channel is a step that is not possible yet.

## Where the code differs from its comments or from what one might expect

* `channel.go:163-165` says that decided is set when an answer has been sent on an outbound channel or received on an inbound
  one; the code does it the other way round, and the model follows the code.
* `writePacket` of `handshakeTransport` returns a recorded error without unlocking (`Handshake.FailureLeaksMutex`), and ignores
  the error of `sendKexInitLocked` (`Handshake.LossesReachBound`).
* When the KEXINIT itself could not be sent, data can still go out after the exchange has failed (`Handshake.DataAfterFailure`).
* `CloseWrite` does not wait for a running `Write`, whose data may follow the EOF (`ChannelResults.LateWriteOutlivesEof`).
* `dhGroup.Server` ignores the error of sending its reply and goes on to NEWKEYS, which `Handshake` allows for.
* Without random bytes for its padding `gcmCipher` has already given the length word to the buffered writer, in front of the next
  packet (`GcmCipher.Cipher.WritePacket`); to the sender this looks like any failure that leaves the connection usable.
* `serve` forgets a session's keys only after a successful handshake (`AppServer.Sessions.ServeAll`).
* A rejected channel is never taken out of the rejecting side's list (`ChannelIdResults.RejectedKeepsItsNumber`).
* The stream cipher's writer accepts packets its own reader refuses (`StreamCipher.RoundTripIff`); that of GCM has no limit.
* `findAgreedAlgorithms` calls client-to-server algorithms w at both ends, and the server does not swap them
  (`Transport.NextPacketInStep`, `KeyExchange.DifferentLists`, and for AES-GCM `KeyExchange.GcmIgnoresMacs`); no run notices
  as long as KEXINITs list the same ciphers and MACs both ways (`KeyExchange.LibraryRunsDoNotFail`).
* `parseString` adds in uint32 (`Wire.StringFaultsIff`); a name list of one empty name, or with a comma in a name, does not come
  back (`Wire.NamesRoundTripIff`).
* `advanceCursor` sends a bare line feed at the end of a row, which moves the cursor to the next row's start only where the tty
  adds a carriage return; `MakeRaw` of the same library leaves that output processing on (`terminal/util.go:47-49`), other
  ways to a raw terminal may not (`Terminals.Terminal.AdvanceCursor`, `Terminals.FilledRow`).
* The server's Challenge does not tell the client for which user it asks (`KeyboardInteractive.QuestionsArrive`).
* This program sees a client's keys only if the client tries them before keyboard-interactive (`AppConversation.KeyboardFirst`).
* `countToLeftWord` counts a space in column 0 as part of the word (`Editor.WordStartMeans`).

## Model

| member | source | states |
|---|---|---|
| ChannelInvariant.StepKeeps | Godeps/_workspace/src/golang.org/x/crypto/ssh/channel.go:230-380 | Every step of either endpoint, writer, reader, closer or packet loop, keeps the two-endpoint invariant (credit, window, stream order, EOF and CLOSE position), and none fails. |
| ChannelResults.NoRunFails | Godeps/_workspace/src/golang.org/x/crypto/ssh/channel.go:284-331 | In every interleaving of two endpoints of this code no packet is too large, overruns the window, makes the peer's window overflow, or arrives at a removed channel. |
| ChannelResults.SwapRuns | Godeps/_workspace/src/golang.org/x/crypto/ssh/channel.go:230-439 | A run of the channel with its two ends exchanged is the run with the ends exchanged, failures included; so what is stated for the first end holds for either. |
| ChannelResults.CreditIsConserved | Godeps/_workspace/src/golang.org/x/crypto/ssh/channel.go:333-366 | Both ways: sender's window + credit held by running writes + data in flight + grants in flight + credit owed or dropped = receiver's myWindow; and myWindow + buffered + read but uncredited + discarded = the full window. Before any CLOSE nothing is dropped. |
| ChannelResults.BlockedWriterHasReason | Godeps/_workspace/src/golang.org/x/crypto/ssh/common.go:329-349 | For either end: a writer that finds its window empty on an open channel is waiting for bytes the peer has not read, or for credit on its way, or for bytes the peer has discarded: these add up to the whole window. |
| ChannelResults.ReadsArePrefixOfWrites | Godeps/_workspace/src/golang.org/x/crypto/ssh/channel.go:230-282 | For each of streams 0 and 1 the bytes of all Reads are a prefix of the bytes of all Writes at the other end, however they are cut into packets and reads. |
| ChannelResults.EofMeansAllRead | Godeps/_workspace/src/golang.org/x/crypto/ssh/channel.go:405-410 | At either end: when Read reports io.EOF the reader has everything that was sent on the stream, unless a Write on it still had data left when CloseWrite was called; and everything that was written, if no Write failed. |
| ChannelResults.EofAfterCloseWriteIff | Godeps/_workspace/src/golang.org/x/crypto/ssh/channel.go:536-543 | On any reachable open channel the first CloseWrite has the effect that io.EOF always means that everything written has been read, in every continuation, if and only if no Write on the stream still has data left at that moment; otherwise some continuation reports EOF while that Write goes on. |
| ChannelResults.LateWriteOutlivesEof | Godeps/_workspace/src/golang.org/x/crypto/ssh/channel.go:536-543 | A whole run of the latter kind: a Write's data follows the EOF and the peer reports io.EOF in between. |
| ChannelResults.ReserveMakesProgressIff | Godeps/_workspace/src/golang.org/x/crypto/ssh/channel.go:132-137 | At either end a Write with data left and a non-empty window gets credit for at least one byte if and only if the number of bytes left is not a multiple of 2^32 (the truncation in min). |
| ChannelLife.TransferCompletes | Godeps/_workspace/src/golang.org/x/crypto/ssh/channel.go:230-366 | From every reachable state in which an open channel has nothing under way, data of any length below 2^32 can be written and read to its end, however often the window fills up: a run leads back to the same state but for the histories. |
| ChannelLife.EofArrives | Godeps/_workspace/src/golang.org/x/crypto/ssh/channel.go:536-543 | There CloseWrite leads to a state in which Read reports EOF on both streams. |
| ChannelLife.CloseCompletes | Godeps/_workspace/src/golang.org/x/crypto/ssh/channel.go:396-424 | There Close is answered, and both ends tear the channel down. |
| ChannelLife.OthersAreSent | Godeps/_workspace/src/golang.org/x/crypto/ssh/channel.go:206-216 | A request or its answer can be sent on an open channel for as long as no CLOSE has been, and is taken. |
| ChannelLife.DeliverFailsIff | Godeps/_workspace/src/golang.org/x/crypto/ssh/channel.go:284-439 | Whatever any peer sends: the connection ends exactly for a packet to a channel that is gone, data beyond 32768 bytes or the window, a confirmation out of place or with an invalid packet size, and an adjustment beyond uint32. |
| ChannelLife.DataIsBuffered | Godeps/_workspace/src/golang.org/x/crypto/ssh/channel.go:300-331 | Data that is taken goes to the end of the buffer of its stream and out of the window. |
| ChannelLife.ControlMeans | Godeps/_workspace/src/golang.org/x/crypto/ssh/channel.go:396-439 | What a confirmation, an adjustment, an EOF and a CLOSE from any peer do; a CLOSE is answered exactly if none has been sent. |
| ChannelLife.AnyPeerIsBounded | Godeps/_workspace/src/golang.org/x/crypto/ssh/channel.go:312-331 | However a peer behaves, no more than the window is ever buffered. |
| ChannelPackets.RoundTripIff | Godeps/_workspace/src/golang.org/x/crypto/ssh/channel.go:254-331 | A data packet as WriteExtended fills it reaches the channel with that number, and yields its code and bytes, unless it is empty (ignored) or longer than allowed (an error). |
| ChannelPackets.EncodeIsWire | Godeps/_workspace/src/golang.org/x/crypto/ssh/channel.go:254-268 | The packet is the message of section 5.2 of RFC 4254: 94, channel and string, or 95, channel, type and string. |
| ChannelPackets.DecodedIff | Godeps/_workspace/src/golang.org/x/crypto/ssh/channel.go:284-310 | handleData accepts exactly the packets of that form whose data is not empty, as long as they say and within the limit. |
| ChannelPackets.FillPacket | Godeps/_workspace/src/golang.org/x/crypto/ssh/channel.go:254-268 | The loop body's packet buffer: reused when large enough, filled in place, equal to the packet's encoding. |
| Channels.Channel.WriteExtended | Godeps/_workspace/src/golang.org/x/crypto/ssh/channel.go:230-282 | The loop sends exactly the first n bytes of data in order, in non-empty packets of at most maxRemotePayload bytes; all of it when it reports success; it waits only with data left and on an open empty window, its call then on record with the rest; it reports EOF only after CloseWrite, a CLOSE or the end of the window; and its steps are steps of ChannelFlow, beginning with the start of the call. |
| Channels.Channel.ReserveCredit | Godeps/_workspace/src/golang.org/x/crypto/ssh/channel.go:249-253 | The reservation in that loop: waits exactly on an open empty window, is refused exactly on a closed one, and otherwise takes the model's step; the credit granted fits the rest of the data and the packet size. |
| Channels.Channel.SendPacket | Godeps/_workspace/src/golang.org/x/crypto/ssh/channel.go:260-275 | The write in that loop sends exactly the bytes paid for, and nothing after a CLOSE. |
| Channels.Channel.WritePacket | Godeps/_workspace/src/golang.org/x/crypto/ssh/channel.go:206-216 | Sends a packet unless a CLOSE has been sent, and remembers a CLOSE. |
| Channels.Channel.TakeData | Godeps/_workspace/src/golang.org/x/crypto/ssh/channel.go:300-331 | handleData takes the model's step: same errors in the same order, the window reduced, the bytes appended to the stream of their code or discarded. |
| Channels.Channel.TakeClose | Godeps/_workspace/src/golang.org/x/crypto/ssh/channel.go:400-404 | The CLOSE case: one CLOSE is answered if none was sent, then both buffers end, and writers are refused. |
| Channels.Channel.TakeControl | Godeps/_workspace/src/golang.org/x/crypto/ssh/channel.go:405-439 | EOF, confirmation and window adjustment take the model's steps, with the errors of handlePacket. |
| Channels.Channel.ReadExtended | Godeps/_workspace/src/golang.org/x/crypto/ssh/channel.go:344-366 | Returns and removes exactly min(len, available) bytes of the stream, distinguishes EOF from waiting, and gives the same number of bytes back as credit. |
| Channels.Channel.AdjustWindow | Godeps/_workspace/src/golang.org/x/crypto/ssh/channel.go:333-342 | Raises myWindow first and sends the adjustment for the same amount afterwards. |
| Channels.ActsAreRun | Godeps/_workspace/src/golang.org/x/crypto/ssh/channel.go:230-439 | What a channel does, own steps and packets taken from its link in order, is a run of the two-endpoint model, so its invariants hold for the object. |
| Windows.Window.Add | Godeps/_workspace/src/golang.org/x/crypto/ssh/common.go:298-316 | Fails exactly if the window would leave uint32, and otherwise adds. |
| Windows.Window.Reserve | Godeps/_workspace/src/golang.org/x/crypto/ssh/common.go:329-349 | Waits only on an open empty window; takes no more than asked for and than there is, also from a closed window, where the caller gets io.EOF. |
| Buffers.Buffer.Write | Godeps/_workspace/src/golang.org/x/crypto/ssh/buffer.go:44-51 | The linked list's contents grow by exactly the bytes written; an empty element changes nothing. |
| Buffers.Buffer.Read | Godeps/_workspace/src/golang.org/x/crypto/ssh/buffer.go:65-98 | Returns and removes exactly min(len, available) bytes across elements, empty ones included; reports EOF only when closed and drained, waits only when open and empty; terminates by remaining request and remaining nodes. |
| ChanLists.ChanList.Add | Godeps/_workspace/src/golang.org/x/crypto/ssh/mux.go:36-47 | Gives the channel the first free number, which stood for none, and no other number changes its meaning, as long as there is room in uint32. |
| ChanLists.ChanList.GetChan | Godeps/_workspace/src/golang.org/x/crypto/ssh/mux.go:50-59 | Looks a number up in the map the list stands for, with the offset arithmetic of uint32. |
| ChanLists.ChanList.Remove | Godeps/_workspace/src/golang.org/x/crypto/ssh/mux.go:61-68 | Removes exactly that number from the map. |
| ChanLists.ChanList.DropAll | Godeps/_workspace/src/golang.org/x/crypto/ssh/mux.go:71-84 | Returns every listed channel once, in order, and empties the map. |
| ChannelIdInvariant.TakeKeeps | Godeps/_workspace/src/golang.org/x/crypto/ssh/mux.go:223-261 | The packet loop, taking any packet, never meets an unknown channel or a response out of place, and keeps the invariant of every channel. |
| ChannelIdLife.TakeFailsIff | Godeps/_workspace/src/golang.org/x/crypto/ssh/mux.go:223-261 | Whatever any peer sends, the packet loop ends exactly for a packet to a number that stands for no channel, or an answer to a channel that this end has not opened or that has been answered. |
| ChannelIdLife.TakeOpenIff | Godeps/_workspace/src/golang.org/x/crypto/ssh/mux.go:298-321 | An open request is taken exactly if its packet size is from 9 to 2^31: the channel is listed, inbound and undecided, under a number that stood for none, with the peer's number, and nothing is sent; otherwise all that happens is that one open failure goes to the opener. |
| ChannelIdResults.NoRunFails | Godeps/_workspace/src/golang.org/x/crypto/ssh/mux.go:223-321 | In every interleaving of opening, accepting, rejecting, using and closing channels at both ends, with numbers reused, no packet loop reports an error. |
| ChannelIdResults.ReachesItsOwnChannel | Godeps/_workspace/src/golang.org/x/crypto/ssh/mux.go:250-260 | The next packet for an endpoint always reaches the channel it was sent for: no packet of an earlier channel is under way when its number is reused. |
| ChannelIdResults.NothingFollowsClose | Godeps/_workspace/src/golang.org/x/crypto/ssh/channel.go:206-216 | In everything an endpoint ever sent, a CLOSE or open failure is the last message of its channel. |
| ChannelIdResults.FreedAfterPeersLastWord | Godeps/_workspace/src/golang.org/x/crypto/ssh/channel.go:400-423 | A number is free only after the peer's CLOSE or open failure has been taken; then nothing for it is under way, and the peer can send nothing more. |
| ChannelIdResults.ClosedChannelsAreFreed | Godeps/_workspace/src/golang.org/x/crypto/ssh/channel.go:396-424 | Once both links are empty and no teardown is under way, an accepted channel that either end closed is gone from both lists. |
| ChannelIdResults.RejectedKeepsItsNumber | Godeps/_workspace/src/golang.org/x/crypto/ssh/channel.go:508-520 | But a rejected channel stays in the list of the end that rejected it for good. |
| ChannelIdResults.OpenRequestsAreKept | Godeps/_workspace/src/golang.org/x/crypto/ssh/mux.go:332-356 | An open request without an answer is under way, waiting at the peer's application, or its answer is under way. |
| ChannelIdLife.OpenIsAnswered | Godeps/_workspace/src/golang.org/x/crypto/ssh/mux.go:298-356 | From every reachable state every open request under way can be answered: with a valid packet size and Accept both ends come to list the channel as decided, each with the other's number; otherwise the opener learns that it was rejected and gives its number back, and the other end lists the channel only if it was its application that rejected it. |
| ChannelIdLife.NewChannelOpens | Godeps/_workspace/src/golang.org/x/crypto/ssh/mux.go:332-356 | From every reachable state a new channel can be opened in this way. |
| ChannelIdLife.SpeaksToPeer | Godeps/_workspace/src/golang.org/x/crypto/ssh/channel.go:206-216 | In every reachable state a packet on a channel that may be used is one message, to the number that the peer's list has for that channel; closing it sends one CLOSE there. |
| ChannelIdLife.ClosingCompletes | Godeps/_workspace/src/golang.org/x/crypto/ssh/channel.go:396-424 | From every reachable state a channel that may be used can be closed: afterwards neither list has a number for it. |
| Handshake.SentFollowsGrammar | Godeps/_workspace/src/golang.org/x/crypto/ssh/handshake.go:146-278 | With any number of writers, other callers and the read loop, also where a Diffie-Hellman server overlooks that its reply was not sent, all that one endpoint ever sent is a prefix of (data* KEXINIT kex* NEWKEYS)*, so there is one KEXINIT per exchange whoever starts it. |
| Handshake.OneInConnection | Godeps/_workspace/src/golang.org/x/crypto/ssh/handshake.go:254-356 | The read loop writes the packets of an exchange without the mutex, and yet never while another goroutine is inside the connection's writePacket. |
| Handshake.NothingAfterFailureIff | Godeps/_workspace/src/golang.org/x/crypto/ssh/handshake.go:166-192 | In every reachable state in which an exchange has failed: no continuation sends anything any more, if and only if our KEXINIT was out, the connection is broken, or the failure is on record. |
| Handshake.DataAfterFailure | Godeps/_workspace/src/golang.org/x/crypto/ssh/handshake.go:166-171 | A run of the other kind: enterKeyExchange fails for want of random bytes before it has sent a KEXINIT, and a writer's data goes out before readOnePacket takes the mutex to record that. |
| Handshake.FailureLeaksMutex | Godeps/_workspace/src/golang.org/x/crypto/ssh/handshake.go:262-264 | And the first writer told of the failure keeps the mutex, after which no call of writePacket or requestKeyChange ever gets it. |
| Handshake.DataBetweenExchanges | Godeps/_workspace/src/golang.org/x/crypto/ssh/handshake.go:254-278 | In every reachable state at most RekeyThreshold + (W + L)*M bytes of data have gone out since the last KEXINIT, for W writers, packets of at most M bytes, and L KEXINITs that writers have since lost to a failure that leaves the connection usable. |
| Handshake.LossesReachBound | Godeps/_workspace/src/golang.org/x/crypto/ssh/handshake.go:254-278 | The bound is met exactly, for every number of writers and of losses, and for any threshold from 256 up to M: some run loses n KEXINITs, whose errors writePacket ignores, and sends RekeyThreshold + (W + n)*M bytes under the same keys. |
| Handshake.ReaderAsksFirst | Godeps/_workspace/src/golang.org/x/crypto/ssh/handshake.go:146-158 | With n the bytes of all packets read since the last successful exchange, below 2^64: the read loop reads on beyond RekeyThreshold only with a KEXINIT out, and at its top asks for an exchange exactly if n is above the threshold and none is out. |
| Handshake.ReadsAreCounted | Godeps/_workspace/src/golang.org/x/crypto/ssh/handshake.go:153-158 | In every run readSinceKex is the sum of the lengths of all packets read since the last successful exchange, modulo 2^64. |
| Handshake.LoopCanMove | Godeps/_workspace/src/golang.org/x/crypto/ssh/handshake.go:146-356 | What the read loop can do next outside the mutex, and that every outcome of a read or write is possible there. |
| Handshake.HoldersCanMove | Godeps/_workspace/src/golang.org/x/crypto/ssh/handshake.go:194-278 | In every state of the invariant a call of the connection's writePacket can end in any way its state allows, and with the mutex free the read loop, every waiting writer and every new caller can take it. |
| Handshake.OnlyWritesSend | Godeps/_workspace/src/golang.org/x/crypto/ssh/handshake.go:207-356 | What leaves is exactly what a call of the connection's writePacket was given, once and if the call succeeds. |
| HandshakeObjects.HandshakeTransport.ProceedLocked | Godeps/_workspace/src/golang.org/x/crypto/ssh/handshake.go:259-278 | The part of writePacket after its threshold test keeps the invariant: it uses the connection only where data is what may be sent next, waits exactly if a KEXINIT is out, and leaves with the mutex exactly if a failure is on record. |
| HandshakeObjects.HandshakeTransport.WritePacket | Godeps/_workspace/src/golang.org/x/crypto/ssh/handshake.go:254-261 | writePacket up to its first wait or write keeps the invariant, sends nothing by itself, holds the mutex only to send what the grammar allows next (a KEXINIT above the threshold, else its data), and keeps it for good exactly if a failure is on record. |
| HandshakeObjects.HandshakeTransport.DataWritten | Godeps/_workspace/src/golang.org/x/crypto/ssh/handshake.go:276-278 | The end of writePacket: the mutex is free, the writer idle, the packet is out exactly if the connection took it, and as long as there is no failure on record data may follow. |
| HandshakeObjects.HandshakeTransport.CheckThreshold | Godeps/_workspace/src/golang.org/x/crypto/ssh/handshake.go:146-152 | The top of readOnePacket: it reads on at once only within the threshold or with a KEXINIT out, and otherwise, exactly then, holds the mutex to send one. |
| HandshakeObjects.HandshakeTransport.PacketRead | Godeps/_workspace/src/golang.org/x/crypto/ssh/handshake.go:153-165 | readSinceKex grows by the length of the packet, whatever it is, and an exchange is entered exactly for a KEXINIT. |
| HandshakeObjects.HandshakeTransport.Woken | Godeps/_workspace/src/golang.org/x/crypto/ssh/handshake.go:259-278 | The return from cond.Wait does the same without another look at the threshold. |
| HandshakeObjects.HandshakeTransport.KexInitWritten | Godeps/_workspace/src/golang.org/x/crypto/ssh/handshake.go:245-278 | The end of sendKexInitLocked for each of its four callers keeps the invariant: a KEXINIT that has left opens an exchange and lets nobody else use the connection; one that a writer lost is counted, and that writer goes on to its data. |
| HandshakeObjects.HandshakeTransport.EnterKeyExchange | Godeps/_workspace/src/golang.org/x/crypto/ssh/handshake.go:285-292 | Entering an exchange goes on at once only with a KEXINIT of ours out; otherwise a KEXINIT, and no exchange message, is what may be sent next, and the mutex is held for it. |
| HandshakeObjects.HandshakeTransport.LeaveKeyExchange | Godeps/_workspace/src/golang.org/x/crypto/ssh/handshake.go:168-191 | Leaving a failed exchange, nothing is ever sent again in any continuation; leaving one that succeeded, both counts start from 0, data may follow, and every waiting writer can go on. |
| Transport.NoRunFails | Godeps/_workspace/src/golang.org/x/crypto/ssh/transport.go:82-157 | Two endpoints over an in-order link and any number of key changes: the only way for a run to fail is a packet that cannot be decrypted, and then some prefix of the run reaches a state with a completed exchange that settled on different algorithms for the two directions or gave the two ends different results. So no NEWKEYS ever comes without a cipher waiting, and no queue is full when a cipher is put into it. |
| Transport.NextPacketInStep | Godeps/_workspace/src/golang.org/x/crypto/ssh/transport.go:105-157 | The next packet is read with the sequence number, epoch and position that it was written with; and it is unreadable if and only if it comes after NEWKEYS and the exchange settled on different ciphers for the two directions, or on different MACs with a cipher other than AES-GCM, or the two ends got different results from it, or from the first one a different session id. |
| Transport.SequenceNumbersCountAll | Godeps/_workspace/src/golang.org/x/crypto/ssh/transport.go:109-147 | Sequence numbers count all packets ever sent or read modulo 2^32 and are never reset. |
| Transport.SessionIdIsFirstHash | Godeps/_workspace/src/golang.org/x/crypto/ssh/transport.go:83-87 | Once set, an end's session id is its hash of the first exchange for good; and it is set before its first NEWKEYS. |
| Transport.EachDirectionHasItsKeys | Godeps/_workspace/src/golang.org/x/crypto/ssh/transport.go:174-180 | In every reachable state what the client writes is under clientKeys at both ends and what the server writes under serverKeys, waiting ciphers and packets under way included; so no end has the same keys for both directions. |
| Transport.QueuesAlternate | Godeps/_workspace/src/golang.org/x/crypto/ssh/transport.go:89-99 | The one-slot queues are empty before prepareKeyChange, full when NEWKEYS is sent, and full when NEWKEYS is the next packet read. |
| Transport.SentFollowsGrammar | Godeps/_workspace/src/golang.org/x/crypto/ssh/handshake.go:285-356 | Both sides' packets follow (data* KEXINIT kex NEWKEYS)*, and the sides are never more than one exchange apart. |
| Transport.CanAct | Godeps/_workspace/src/golang.org/x/crypto/ssh/handshake.go:285-356 | A side that has not stopped and is not waiting for a packet can take its next step, if the exchanges of the run so far settled on one algorithm for both directions and gave both ends the same result. |
| Transport.ExchangesDoNotDeadlock | Godeps/_workspace/src/golang.org/x/crypto/ssh/handshake.go:285-356 | Two sides that both wait for a packet with nothing under way are between exchanges: no exchange gets stuck. |
| EarnedKeys.NoKeysWithoutSuccess | Godeps/_workspace/src/golang.org/x/crypto/ssh/handshake.go:294-356 | In every reachable state, every exchange that an end has changed its keys for, or has prepared to, has common algorithms and has succeeded at that end. |
| EarnedKeys.StopsForGood | Godeps/_workspace/src/golang.org/x/crypto/ssh/handshake.go:342-344 | An end whose exchange has not succeeded stops and never does anything again. |
| KeyExchange.LibraryRunsDoNotFail | Godeps/_workspace/src/golang.org/x/crypto/ssh/handshake.go:207-341 | With the library's negotiation and Diffie-Hellman as the rules, each end computing from its own secret: no run fails in which the ends send what they compute and every KEXINIT lists the same ciphers and MACs for both directions. |
| KeyExchange.BothEndsGetSameKeys | Godeps/_workspace/src/golang.org/x/crypto/ssh/kex.go:86-192 | In every reachable state of such a run, also where the directions differ, every completed exchange has given both ends the same K and H, and both have the same session id. |
| KeyExchange.HonestUnreadableIff | Godeps/_workspace/src/golang.org/x/crypto/ssh/transport.go:214-233 | Then a packet is unreadable if and only if it comes after NEWKEYS of an exchange whose directions differ in what is used. |
| KeyExchange.SameAlgIff | Godeps/_workspace/src/golang.org/x/crypto/ssh/transport.go:214-233 | What is used: the cipher, and the MAC unless the cipher is AES-GCM; compression never. |
| KeyExchange.OwnKexInitIsBothWays | Godeps/_workspace/src/golang.org/x/crypto/ssh/handshake.go:220-228 | The KEXINIT that this library builds, as it is parsed at the other end, is of that kind exactly if it was built from one list of ciphers and one of MACs for both directions, as sendKexInitLocked does. |
| KeyExchange.DifferentLists | Godeps/_workspace/src/golang.org/x/crypto/ssh/handshake.go:294-341 | With one cipher for one direction and another for the other in both KEXINITs, negotiation succeeds and what the writers use is not what the readers use. |
| KeyExchange.GcmIgnoresMacs | Godeps/_workspace/src/golang.org/x/crypto/ssh/transport.go:214-233 | With AES-GCM and two MACs negotiation gives two different sets, and yet both directions use the same. |
| KeyExchange.EndsNegotiateAlike | Godeps/_workspace/src/golang.org/x/crypto/ssh/handshake.go:294-319 | What each end negotiates from its own KEXINIT and the one it received is what the rules of the run say. |
| KeyExchange.ClientGetsResult | Godeps/_workspace/src/golang.org/x/crypto/ssh/kex.go:86-192 | In an exchange in which the client sends its public number and the server its reply, the client gets from its own secret the K and H that the server got from its own, for g = 2 and an odd p. |
| KeyExchange.ClientAcceptsBeforeKeys | Godeps/_workspace/src/golang.org/x/crypto/ssh/handshake.go:370-394 | A client never changes keys, or prepares to, before its check of the server's key and of the signature over its own hash has accepted that very exchange. |
| KeyExchange.EncryptionKeys | Godeps/_workspace/src/golang.org/x/crypto/ssh/transport.go:190-233 | In every reachable state the key of what the client sends begins with the hash of K, H, the letter C and the session id, at both ends, and that of what the server sends with D. |
| Connections.Connection.Process | Godeps/_workspace/src/golang.org/x/crypto/ssh/transport.go:109-157 | What reading and writing share: the packet is counted, and the waiting cipher takes over on NEWKEYS and only then, with a fresh position. |
| Connections.Connection.ReadPacket | Godeps/_workspace/src/golang.org/x/crypto/ssh/transport.go:109-133 | readPacket counts every packet, also one that its cipher refuses; it succeeds exactly for a non-empty packet that its cipher accepts and, for NEWKEYS, with a cipher waiting; and no error changes the keys. |
| Connections.Connection.WritePacket | Godeps/_workspace/src/golang.org/x/crypto/ssh/transport.go:139-157 | writePacket counts only packets that cipher and connection have taken, and changes keys only on a NEWKEYS. |
| Connections.Conn.PrepareKeyChange | Godeps/_workspace/src/golang.org/x/crypto/ssh/transport.go:82-107 | Puts a cipher into each queue, made from r and w, K, H, the session id and the direction's keys (clientKeys for what a client writes and a server reads), fails exactly if a queue is full, and sets the session id to the hash only if there is none. |
| Kex.Client | Godeps/_workspace/src/golang.org/x/crypto/ssh/kex.go:101-131 | dhGroup.Client computes the specified result from the reply, the hash fed write by write. |
| Kex.Server | Godeps/_workspace/src/golang.org/x/crypto/ssh/kex.go:134-192 | dhGroup.Server computes the specified result and reply. |
| Kex.ExchangeHash | Godeps/_workspace/src/golang.org/x/crypto/ssh/kex.go:116-123 | The hash state after the successive writes is the encoding of versions, KEXINITs, host key, public numbers and secret. |
| Kex.HashedBytes | Godeps/_workspace/src/golang.org/x/crypto/ssh/kex.go:56-61 | What is hashed is, in this order, V_C, V_S, I_C, I_S and K_S as strings and e, f and K as mpints (section 8 of RFC 4253). |
| Kex.InitBytes | Godeps/_workspace/src/golang.org/x/crypto/ssh/kex.go:97-103 | The client's message is 30 and g^x mod p. |
| Kex.ClientMeans | Godeps/_workspace/src/golang.org/x/crypto/ssh/kex.go:86-142 | For every number in a reply, negative ones included: refused exactly outside 1 to p - 1, and otherwise K is that number to the power of x, and the client's number is hashed before the server's. |
| Kex.ServerMeans | Godeps/_workspace/src/golang.org/x/crypto/ssh/kex.go:144-192 | For every number the client sends likewise; the reply is 31, the host key, g^y mod p and the signature of the hash. |
| Kex.HonestRunAgrees | Godeps/_workspace/src/golang.org/x/crypto/ssh/kex.go:79-192 | For g = 2 and any odd p > 1, all secrets: an honest run fails no range check, and the client's H, K, host key and signature are the server's. |
| Kex.HonestServerIsExpected | Godeps/_workspace/src/golang.org/x/crypto/ssh/kex.go:134-192 | For any group: the server's range check fails exactly if g^x is 0 mod p, and otherwise its K is g^(xy) and its H hashes exactly this run. |
| Kex.HonestRunAgreesIff | Godeps/_workspace/src/golang.org/x/crypto/ssh/kex.go:86-132 | And the client's result is the server's, unless g^y is 0 mod p. |
| Kex.SharedSecret | Godeps/_workspace/src/golang.org/x/crypto/ssh/kex.go:79-84 | (g^x)^y = (g^y)^x = g^(xy) modulo p. |
| Kex.PowerOfTwoNotMultiple | Godeps/_workspace/src/golang.org/x/crypto/ssh/kex.go:79-84 | No power of 2 is 0 modulo an odd p > 1. |
| Kex.HashInputIsInjective | Godeps/_workspace/src/golang.org/x/crypto/ssh/kex.go:56-61 | The hashed bytes determine versions, KEXINITs, host key, both public numbers and the secret. |
| KeyMaterial.GenerateKeyMaterial | Godeps/_workspace/src/golang.org/x/crypto/ssh/transport.go:237-260 | Terminates and fills out, whatever its length, with exactly the first bytes of K1 and then K2 and then ... |
| KeyMaterial.MaterialIsBlocks | Godeps/_workspace/src/golang.org/x/crypto/ssh/transport.go:235-262 | The material is the beginning of K1, K2 and so on, where K1 hashes K, H, the tag and the session id, and each further block K, H and all blocks before it. |
| KeyMaterial.BlocksAreUnique | Godeps/_workspace/src/golang.org/x/crypto/ssh/transport.go:235-262 | There is one such list of blocks. |
| KeyMaterial.FirstBlock | Godeps/_workspace/src/golang.org/x/crypto/ssh/transport.go:235-262 | In particular it begins with the hash of K, H, the tag and the session id. |
| KeyMaterial.GenerateKeys | Godeps/_workspace/src/golang.org/x/crypto/ssh/transport.go:197-209 | generateKeys fills IV, key and MAC key with the material of the direction's three tags. |
| KeyMaterial.SixKeys | Godeps/_workspace/src/golang.org/x/crypto/ssh/transport.go:190-209 | The six keys of a connection begin with the hashes of six different strings, with the letters A, C and E for the client's direction and B, D and F for the server's. |
| KeyMaterial.Sizes | Godeps/_workspace/src/golang.org/x/crypto/ssh/cipher.go:94-116 | The sizes of IV, key and MAC key for each cipher. |
| KeyMaterial.ShorterIsPrefix | Godeps/_workspace/src/golang.org/x/crypto/ssh/transport.go:237-260 | A shorter key is a prefix of a longer one. |
| Negotiate.FindCommon | Godeps/_workspace/src/golang.org/x/crypto/ssh/common.go:87-108 | The nested loops find the first of the client's names that the server lists and that is allowed. |
| Negotiate.FirstMeans | Godeps/_workspace/src/golang.org/x/crypto/ssh/common.go:87-108 | That name exists exactly if the common names are not empty, and is then the client's first choice among them. |
| Negotiate.FirstIff | Godeps/_workspace/src/golang.org/x/crypto/ssh/common.go:87-108 | A name is the one found if and only if it is the client's first choice among the common names. |
| Negotiate.FindAgreedAlgorithms | Godeps/_workspace/src/golang.org/x/crypto/ssh/common.go:123-167 | The eight searches one after the other give the specified result. |
| Negotiate.AgreedMeans | Godeps/_workspace/src/golang.org/x/crypto/ssh/common.go:123-167 | nil exactly if one of the eight intersections is empty (ciphers limited to those with a mode); otherwise each algorithm is the client's first choice that the server lists. |
| Negotiate.PacketForm | Godeps/_workspace/src/golang.org/x/crypto/ssh/messages.go:56-72 | The KEXINIT is 20, the cookie, the eight lists in the order of section 7.1 of RFC 4253, two empty lists, no guess, and the reserved word. |
| Negotiate.BothEndsAgree | Godeps/_workspace/src/golang.org/x/crypto/ssh/handshake.go:294-319 | Each end, from its own KEXINIT and the other's as received, settles on the same algorithms, if the lists can be carried by a name list. |
| Negotiate.SameBothWays | Godeps/_workspace/src/golang.org/x/crypto/ssh/handshake.go:220-228 | Two KEXINITs that each list the same ciphers and MACs for both directions give the same cipher and MAC in w and r. |
| StreamCipher.PaddingFits | Godeps/_workspace/src/golang.org/x/crypto/ssh/cipher.go:194-199 | 4 to 19 bytes of padding, and length word plus packet a multiple of 16. |
| StreamCipher.RoundTripIff | Godeps/_workspace/src/golang.org/x/crypto/ssh/cipher.go:136-238 | What was written is read back, consuming exactly its own bytes, if and only if it has 1 to 262135 bytes; an empty packet is too small, a longer one too large for the reader although the writer takes up to 262144. |
| StreamCipher.SequenceNumberIsChecked | Godeps/_workspace/src/golang.org/x/crypto/ssh/cipher.go:145-183 | A reader with another sequence number rejects the packet, unless the two MACs coincide. |
| StreamCipher.WrittenIs | Godeps/_workspace/src/golang.org/x/crypto/ssh/cipher.go:189-244 | Every byte of length word, padding length, packet and padding goes out under the key stream, followed by the MAC of the sequence number and these bytes in the clear. |
| StreamCipher.WriteFailsIff | Godeps/_workspace/src/golang.org/x/crypto/ssh/cipher.go:189-205 | A packet is refused exactly if it is longer than 256 KiB or there are not enough random bytes for its padding. |
| StreamCipher.AcceptedIff | Godeps/_workspace/src/golang.org/x/crypto/ssh/cipher.go:136-186 | readPacket accepts exactly the frames of nonempty packets under the key stream, with any padding, followed by the right MAC; it returns that packet and leaves what follows. |
| StreamCipher.PositionIsChecked | Godeps/_workspace/src/golang.org/x/crypto/ssh/cipher.go:136-186 | A reader at another place of the key stream takes the bytes for the same packet if and only if what it sees has the same length word, padding length and packet and the same MAC. |
| StreamCipher.PacketInStream | Godeps/_workspace/src/golang.org/x/crypto/ssh/transport.go:109-157 | The i-th packet of a stream is written with the sequence number i further on and the key stream where the frames before it have left it. |
| StreamCipher.ManyRoundTrip | Godeps/_workspace/src/golang.org/x/crypto/ssh/cipher.go:136-238 | A reader that starts in step stays in step over any number of packets, key stream position and wrapping sequence number included. |
| StreamCipher.StreamPacketCipher.WritePacket | Godeps/_workspace/src/golang.org/x/crypto/ssh/cipher.go:189-238 | Encrypts prefix, packet and padding in place, and sends exactly the specified bytes. |
| StreamCipher.StreamPacketCipher.ReadPacket | Godeps/_workspace/src/golang.org/x/crypto/ssh/cipher.go:136-186 | Decrypts in place and returns the specified packet or error. |
| GcmCipher.RoundTripIff | Godeps/_workspace/src/golang.org/x/crypto/ssh/cipher.go:266-344 | The same for AES-GCM: 1 to 262139 bytes. |
| GcmCipher.WrittenIs | Godeps/_workspace/src/golang.org/x/crypto/ssh/cipher.go:266-298 | What goes out is the length word, and padding length, packet and padding sealed under the IV with the length word as additional data. |
| GcmCipher.AcceptedIff | Godeps/_workspace/src/golang.org/x/crypto/ssh/cipher.go:309-344 | readPacket accepts exactly a length word up to 256 KiB and sealed text of that length that opens under the IV, with the length word as additional data, to 4 to 19, a nonempty packet and so much padding. |
| GcmCipher.PacketInStream | Godeps/_workspace/src/golang.org/x/crypto/ssh/cipher.go:296-307 | The i-th packet of a stream is sealed under the IV after i steps. |
| GcmCipher.ManyRoundTrip | Godeps/_workspace/src/golang.org/x/crypto/ssh/cipher.go:266-344 | Both ends' IVs stay equal over any number of packets. |
| GcmCipher.IncIVCounts | Godeps/_workspace/src/golang.org/x/crypto/ssh/cipher.go:300-307 | The last eight bytes count up by one modulo 2^64, the first four stay. |
| GcmCipher.IvCounts | Godeps/_workspace/src/golang.org/x/crypto/ssh/cipher.go:300-307 | After n packets the IV has counted n; it comes back only after 2^64. |
| GcmCipher.Cipher.IncIv | Godeps/_workspace/src/golang.org/x/crypto/ssh/cipher.go:300-307 | The loop over the IV array, with its carry, does that. |
| GcmCipher.Cipher.WritePacket | Godeps/_workspace/src/golang.org/x/crypto/ssh/cipher.go:266-298 | Sends the specified bytes and moves the IV on exactly once if it succeeds; without random bytes the length word is in the buffered writer all the same. |
| GcmCipher.Cipher.ReadPacket | Godeps/_workspace/src/golang.org/x/crypto/ssh/cipher.go:309-344 | Returns the specified packet or error; the IV moves on exactly when Open succeeds, whatever comes of the padding. |
| Mpint.LengthIsExact | Godeps/_workspace/src/golang.org/x/crypto/ssh/messages.go:556-579 | intLength is the number of bytes marshalInt writes, for every integer. |
| Mpint.ContentRoundTrip | Godeps/_workspace/src/golang.org/x/crypto/ssh/messages.go:518-540 | parseInt of what marshalInt writes is the integer. |
| Mpint.CanonicalIsContent | Godeps/_workspace/src/golang.org/x/crypto/ssh/messages.go:591-636 | A byte string is what marshalInt writes for its value exactly if it has no redundant leading 0x00 or 0xff byte. |
| Mpint.ContentIsShortest | Godeps/_workspace/src/golang.org/x/crypto/ssh/messages.go:591-636 | It is the only shortest string that parseInt maps to that integer. |
| Mpint.TwosComplement | Godeps/_workspace/src/golang.org/x/crypto/ssh/messages.go:518-540 | The value is the big-endian number, less 2^(8n) if the first bit is set. |
| Mpint.Examples | Godeps/_workspace/src/golang.org/x/crypto/ssh/messages.go:556-634 | The five examples of section 5 of RFC 4251. |
| Mpint.MarshalInt | Godeps/_workspace/src/golang.org/x/crypto/ssh/messages.go:591-636 | The in-place writes into the caller's buffer, magnitude first and length last, give that form and touch nothing else. |
| Wire.Marshal | Godeps/_workspace/src/golang.org/x/crypto/ssh/messages.go:394-478 | The loop over the fields appends exactly the specified encoding. |
| Wire.Unmarshal | Godeps/_workspace/src/golang.org/x/crypto/ssh/messages.go:285-388 | The loop over the fields gives the specified values or error. |
| Wire.StringRoundTrip | Godeps/_workspace/src/golang.org/x/crypto/ssh/messages.go:482-499 | parseString recovers a string and what follows it, if all of it is shorter than 2^32 bytes. |
| Wire.StringFaultsIff | Godeps/_workspace/src/golang.org/x/crypto/ssh/messages.go:482-499 | The uint32 addition makes the slice expression fault exactly for lengths of 2^32-4 and above. |
| Wire.NamesRoundTripIff | Godeps/_workspace/src/golang.org/x/crypto/ssh/messages.go:501-508 | A name list survives exactly if no name has a comma and it is not the list of one empty name. |
| Wire.FieldRoundTripIff | Godeps/_workspace/src/golang.org/x/crypto/ssh/messages.go:285-478 | The same for one field of any kind. |
| Wire.WireForms | Godeps/_workspace/src/golang.org/x/crypto/ssh/messages.go:399-480 | Each kind of field has the form of section 5 of RFC 4251, stated by the values of its bytes. |
| Wire.UnmarshalMarshal | Godeps/_workspace/src/golang.org/x/crypto/ssh/messages.go:285-478 | Unmarshal of Marshal gives the value back if and only if the encoding is not empty and all name lists survive. |
| Wire.MarshalUnmarshal | Godeps/_workspace/src/golang.org/x/crypto/ssh/messages.go:285-478 | Marshal of an accepted input gives the same bytes if and only if its bools are 0 or 1 and its mpints have no redundant byte. |
| Wire.OneWireForm | Godeps/_workspace/src/golang.org/x/crypto/ssh/messages.go:285-478 | So message types without bool and mpint have one wire form per value. |
| Wire.MarshalInjective | Godeps/_workspace/src/golang.org/x/crypto/ssh/messages.go:394-478 | Different surviving values have different encodings. |
| Wire.SignedDataIsInjective | Godeps/_workspace/src/golang.org/x/crypto/ssh/common.go:229-250 | The data signed for publickey authentication determines session, user, service, method, algorithm and key. |
| Wire.SignedBytes | Godeps/_workspace/src/golang.org/x/crypto/ssh/common.go:229-250 | These bytes are the session id, 50, user, service, method, 1, algorithm and key, as section 7 of RFC 4252 has them. |
| Tuples.MarshalTuples | Godeps/_workspace/src/golang.org/x/crypto/ssh/certs.go:88-101 | Sorting the keys and writing them out gives the specified encoding of the map. |
| Tuples.ParseTuples | Godeps/_workspace/src/golang.org/x/crypto/ssh/certs.go:103-130 | The loop with its lexical-order test gives the specified map or error. |
| Tuples.ParseOfMarshalled | Godeps/_workspace/src/golang.org/x/crypto/ssh/certs.go:88-130 | parseTuples of marshalTuples is the map. |
| Tuples.MarshalOfParsed | Godeps/_workspace/src/golang.org/x/crypto/ssh/certs.go:88-130 | marshalTuples of an accepted input is the input. |
| Tuples.AcceptedIffMarshalled | Godeps/_workspace/src/golang.org/x/crypto/ssh/certs.go:88-130 | parseTuples accepts exactly the images of marshalTuples. |
| Tuples.ListOfParsed | Godeps/_workspace/src/golang.org/x/crypto/ssh/certs.go:79-86 | The principals list of an accepted encoding is written back byte for byte. |
| Tuples.LessIff | Godeps/_workspace/src/golang.org/x/crypto/ssh/certs.go:88-101 | The order of the names is that of Go's strings: the smaller byte at the first difference, and a prefix first. |
| Tuples.ParseOfList | Godeps/_workspace/src/golang.org/x/crypto/ssh/certs.go:79-86 | And parsing a written list gives the list. |
| PublicKeys.PlainRoundTrip | Godeps/_workspace/src/golang.org/x/crypto/ssh/keys.go:222-470 | Parsing what Marshal writes for a valid RSA, DSA or ECDSA key gives the key and the rest. |
| PublicKeys.PlainRemarshalIff | Godeps/_workspace/src/golang.org/x/crypto/ssh/keys.go:222-470 | A parsed key is valid, and is written back byte for byte exactly if its integers are canonical and, for an ECDSA key, the curve identifier agrees with the algorithm name. |
| PublicKeys.SignatureRoundTrip | Godeps/_workspace/src/golang.org/x/crypto/ssh/certs.go:446-461 | A signature survives Marshal and parseSignatureBody. |
| PublicKeys.SignatureRemarshal | Godeps/_workspace/src/golang.org/x/crypto/ssh/certs.go:446-461 | And an accepted one has only that form. |
| PublicKeys.SignatureIs | Godeps/_workspace/src/golang.org/x/crypto/ssh/certs.go:446-470 | A signature is its format and its blob as strings. |
| KeyForms.RsaForm | Godeps/_workspace/src/golang.org/x/crypto/ssh/keys.go:222-258 | An RSA key is its name, e and n, and is accepted exactly with an odd e from 3 to 2^24 - 1; the other errors are stated. |
| KeyForms.DsaForm | Godeps/_workspace/src/golang.org/x/crypto/ssh/keys.go:299-332 | A DSA key is its name, p, q, g and y. |
| KeyForms.EcdsaForm | Godeps/_workspace/src/golang.org/x/crypto/ssh/keys.go:424-470 | An ECDSA key is its name, the curve's identifier and the point, which must be on the curve of the identifier. |
| Certs.KeyRoundTrip | Godeps/_workspace/src/golang.org/x/crypto/ssh/keys.go:164-175 | ParsePublicKey of Marshal of a valid key or certificate is that key or certificate. |
| Certs.KeyRemarshalIff | Godeps/_workspace/src/golang.org/x/crypto/ssh/keys.go:164-175 | Marshal of a parsed key or certificate gives the input exactly if all its mpints, nested certificates' included, are canonical and the curve identifier of every ECDSA key agrees with its algorithm name. |
| Certs.CertRemarshalIff | Godeps/_workspace/src/golang.org/x/crypto/ssh/certs.go:400-430 | The same for a certificate by itself. |
| KeyForms.CertForm | Godeps/_workspace/src/golang.org/x/crypto/ssh/certs.go:400-430 | A certificate is its name, the nonce, the key without its name, and the eleven fields of genericCertData in order. |
| KeyForms.CertNameForm | Godeps/_workspace/src/golang.org/x/crypto/ssh/certs.go:371-377 | A certificate's name is that of its key with the ending -cert-v01@openssh.com. |
| KeyForms.StringListForm | Godeps/_workspace/src/golang.org/x/crypto/ssh/certs.go:79-86 | Principals are strings one after the other. |
| KeyForms.TuplesForm | Godeps/_workspace/src/golang.org/x/crypto/ssh/certs.go:88-101 | Options are pairs of name and value as strings, each name once, in ascending order. |
| Certs.SignedBytesAreReceivedBytesIff | Godeps/_workspace/src/golang.org/x/crypto/ssh/certs.go:390-398 | bytesForSigning of a parsed certificate is the received bytes up to the signature field exactly if its mpints are canonical and an ECDSA key's curve identifier agrees with its algorithm name. |
| Certs.RsaKeyLengthIsModulusLength | key.go:44-58 | The length reported for a parsed RSA key is the bit length of its modulus. |
| Certs.DsaKeyLengthIsPrimeLength | key.go:60-72 | The length reported for a parsed DSA key is the bit length of its prime. |
| Certs.WeakKeyIff | server.go:122-125 | The reported length of an RSA key is below k exactly if its modulus is below 2^(k-1); the program calls a key weak with k = 2048. |
| ServerAuth.ServerAuthenticate | Godeps/_workspace/src/golang.org/x/crypto/ssh/server.go:262-434 | The authentication loop, with its cache updated in place, has the specified outcome, messages and callback calls. |
| ServerAuth.PubKeyCache.Get | Godeps/_workspace/src/golang.org/x/crypto/ssh/server.go:109-116 | Finds the first entry for that user and key. |
| ServerAuth.PubKeyCache.Add | Godeps/_workspace/src/golang.org/x/crypto/ssh/server.go:119-123 | The cache never holds more than 16 entries; everything found before is found as before, and the new entry is found too unless there were 16 or the pair was there already. |
| ServerAuth.SuccessIsAcceptable | Godeps/_workspace/src/golang.org/x/crypto/ssh/server.go:262-434 | Success comes only from a request of the client that the configuration accepts; for publickey with a valid signature over this session, request and key, by a key the callback accepted for the user logged in. |
| ServerAuth.GrantIffAcceptable | Godeps/_workspace/src/golang.org/x/crypto/ssh/server.go:284-408 | With a deterministic callback a request is granted if and only if it is acceptable in that sense. |
| ServerAuth.FailsIff | Godeps/_workspace/src/golang.org/x/crypto/ssh/server.go:295-393 | Which requests end the connection: a password payload of another form, a publickey payload that does not come apart, and with a known algorithm a key that does not parse, a query with something after the key, a proof without a well-formed signature, or with one of a known format that does not verify; whatever the callbacks say. |
| ServerAuth.KeyOkIff | Godeps/_workspace/src/golang.org/x/crypto/ssh/server.go:357-372 | A query gets the OK message, for its own algorithm and key, exactly if it is well-formed and the callback's verdict accepts the key. |
| ServerAuth.NoAnswerIff | Godeps/_workspace/src/golang.org/x/crypto/ssh/server.go:257-420 | A request gets no answer exactly if it is malformed, for another service, or of that kind. |
| ServerAuth.PasswordMeans | Godeps/_workspace/src/golang.org/x/crypto/ssh/server.go:295-303 | A password payload is accepted exactly if it is a zero byte and the password as a string, and nothing else. |
| ServerAuth.ProofMeans | Godeps/_workspace/src/golang.org/x/crypto/ssh/server.go:319-380 | A publickey proof is accepted as such exactly if it is a non-zero byte, the algorithm, the key and one signature, and nothing else. |
| ServerAuth.CacheIsTransparent | Godeps/_workspace/src/golang.org/x/crypto/ssh/server.go:345-356 | With a deterministic callback the bounded cache changes neither the outcome nor any message. |
| ServerAuth.CallbackAskedOnce | Godeps/_workspace/src/golang.org/x/crypto/ssh/server.go:345-356 | Whatever the client sends, the callback is asked only once about each of the first sixteen pairs of user and key that it is asked about. |
| ServerAuth.AskedAgainIff | Godeps/_workspace/src/golang.org/x/crypto/ssh/server.go:345-356 | About a pair just judged it is asked again exactly if the cache is full without that pair. |
| ClientAuth.ClientAuthenticate | Godeps/_workspace/src/golang.org/x/crypto/ssh/client_auth.go:29-65 | The client's loop has the specified outcome, with nil and an empty list of methods told apart, and terminates by the number of untried methods. |
| ClientAuth.EachMethodOnce | Godeps/_workspace/src/golang.org/x/crypto/ssh/client_auth.go:29-65 | It attempts none first, then only its own methods, each at most once. |
| ClientAuth.EmptyListEnds | Godeps/_workspace/src/golang.org/x/crypto/ssh/client_auth.go:45-48 | A failure message without methods ends authentication: its list is empty but not nil, so the previous one is not used again. |
| ClientAuth.NextMethod | Godeps/_workspace/src/golang.org/x/crypto/ssh/client_auth.go:50-62 | The two inner loops find the first of the client's methods that is untried and offered. |
| ClientAuth.FindNextMeans | Godeps/_workspace/src/golang.org/x/crypto/ssh/client_auth.go:50-62 | Which is the first one in the client's own order. |
| ClientAuth.HandleAuthResponse | Godeps/_workspace/src/golang.org/x/crypto/ssh/client_auth.go:306-330 | Skips banners and classifies the first other packet as specified; a failure carries a list that is never nil, success carries nil. |
| ClientAuth.ResponseCases | Godeps/_workspace/src/golang.org/x/crypto/ssh/client_auth.go:306-330 | What each kind of packet comes to: success only for 52, failure only for a well-formed 51, and errors for all others. |
| ClientAuth.BannersAreSkipped | Godeps/_workspace/src/golang.org/x/crypto/ssh/client_auth.go:262-330 | Any number of banners before an answer makes no difference to it. |
| ClientAuth.ConfirmKeyAck | Godeps/_workspace/src/golang.org/x/crypto/ssh/client_auth.go:262-289 | Skips banners and accepts only the acknowledgement of this algorithm and key. |
| ClientAuth.RunPublicKeyAuth | Godeps/_workspace/src/golang.org/x/crypto/ssh/client_auth.go:179-242 | The query loop and the proof loop have the specified outcome and messages; the list stays nil if no key was acknowledged. |
| ClientAuth.ValidatedIff | Godeps/_workspace/src/golang.org/x/crypto/ssh/client_auth.go:189-198 | One query goes out for every key, in order, and a key goes on to be signed with if and only if the answer to its own query, read after the answers to the earlier ones, acknowledged it. |
| ClientAuth.SignsOnlyAcknowledged | Godeps/_workspace/src/golang.org/x/crypto/ssh/client_auth.go:179-242 | All that the method ever sends are queries about its keys, and signatures over this session with keys that were acknowledged in that sense. |
| ClientAuth.ProvesInOrder | Godeps/_workspace/src/golang.org/x/crypto/ssh/client_auth.go:206-239 | The proofs go out in the order of the keys, one after the other for as long as the answers are failures, and without success all of them do. |
| ClientAuth.AckMeans | Godeps/_workspace/src/golang.org/x/crypto/ssh/client_auth.go:262-289 | An acknowledgement is the OK message for exactly this algorithm and key, after banners only. |
| ClientAuth.HonestClientIsGranted | Godeps/_workspace/src/golang.org/x/crypto/ssh/client_auth.go:206-228 | A client that signs with a key the callback accepts is let in: the server recovers algorithm, key and signature and rebuilds exactly the signed data. |
| ClientAuth.Conversation | Godeps/_workspace/src/golang.org/x/crypto/ssh/client_auth.go:29-65 | A whole conversation of this client with one key and this server, each fed with what the other sends: both end the same way, with success if and only if the callback admits the key, about which it is asked once. |
| KeyConversations.FirstAdmittedKeyWins | Godeps/_workspace/src/golang.org/x/crypto/ssh/client_auth.go:179-242 | The same with any number of keys and a callback that judges by user and key: the client asks about all of them, proves the first that was admitted and no other, and both ends succeed if and only if there is one, with the permissions of that one. |
| KeyboardInteractive.RunAuth | Godeps/_workspace/src/golang.org/x/crypto/ssh/client_auth.go:351-441 | The dialogue loop has the specified outcome and messages: banners skipped, every request for information answered, success and failure as they come. |
| KeyboardInteractive.UnpackPrompts | Godeps/_workspace/src/golang.org/x/crypto/ssh/client_auth.go:398-414 | The loop over the prompts reads exactly that many pairs of a question and an echo flag, and nothing may follow. |
| KeyboardInteractive.AnswerRequest | Godeps/_workspace/src/golang.org/x/crypto/ssh/client_auth.go:393-436 | One request: unmarshalled, its prompts read, the callback asked, and its answers written one after the other, with the errors in the order of the code. |
| KeyboardInteractive.QuestionsArrive | Godeps/_workspace/src/golang.org/x/crypto/ssh/client_auth.go:392-422 | The client's callback is asked exactly what the server asks, instruction and prompts with their echo flags in order, and answers go back only if there is one for every prompt; the user name that it is given is empty. |
| KeyboardInteractive.PackPrompts | Godeps/_workspace/src/golang.org/x/crypto/ssh/server.go:447-451 | Challenge's loop over its questions writes each question and its echo flag, in order. |
| KeyboardInteractive.TakeAnswers | Godeps/_workspace/src/golang.org/x/crypto/ssh/server.go:461-488 | What Challenge does with the packet that comes back: the number checked first, then exactly that many answers, and nothing after them. |
| KeyboardInteractive.AnswersArriveIff | Godeps/_workspace/src/golang.org/x/crypto/ssh/server.go:461-488 | The server reads the client's answers as they are if and only if there is one for every question. |
| KeyboardInteractive.ChallengeRoundTrip | Godeps/_workspace/src/golang.org/x/crypto/ssh/server.go:442-489 | A question of the server's and the client's answer: the server has in the end exactly what the client's callback returns for exactly what was asked, and the client goes on to the next packet. |
| AuthForms.NoneForm | Godeps/_workspace/src/golang.org/x/crypto/ssh/client_auth.go:92-99 | The request of method none byte by byte. |
| AuthForms.PublicKeyForm | Godeps/_workspace/src/golang.org/x/crypto/ssh/client_auth.go:157-170 | The query and the proof of the publickey method byte by byte (section 7 of RFC 4252). |
| AuthForms.RequestIsRead | Godeps/_workspace/src/golang.org/x/crypto/ssh/messages.go:120-128 | The server reads user, service and method from these places. |
| AuthForms.AnswerForms | Godeps/_workspace/src/golang.org/x/crypto/ssh/messages.go:130-134 | The failure and the OK message byte by byte. |
| AuthForms.InitiateForm | Godeps/_workspace/src/golang.org/x/crypto/ssh/client_auth.go:351-368 | The initial message of keyboard-interactive. |
| AuthForms.QuestionForm | Godeps/_workspace/src/golang.org/x/crypto/ssh/messages.go:139-145 | The server's question byte by byte (section 3.2 of RFC 4256). |
| AuthForms.AnswersForm | Godeps/_workspace/src/golang.org/x/crypto/ssh/client_auth.go:424-436 | The client's answers byte by byte. |
| AppConversation.EveryKeyIsRecorded | server.go:170-185 | A client with any list of keys and then a keyboard-interactive method, and this program, each fed with what the other sends: both succeed if and only if the server can parse every key of an algorithm it knows; nothing is ever signed, the permissions are empty, and the record is the fold of the keys offered, in order, up to the one that cannot be parsed. |
| AppConversation.RecordIsOffersIff | Godeps/_workspace/src/golang.org/x/crypto/ssh/server.go:345-356 | That record is exactly the keys offered, in order, if and only if none of them repeats an earlier one among the first sixteen. |
| AppConversation.KeyboardFirst | Godeps/_workspace/src/golang.org/x/crypto/ssh/client_auth.go:50-62 | The same client with its two methods in the other order is let in too, and none of its keys is recorded. |
| AppServer.AppRecordsAllOffers | server.go:170-185 | This program lets a client in only at its first keyboard-interactive request, never by a key; by then its record holds exactly the keys offered, the first sixteen once each. |
| AppServer.Sessions.PublicKeyCallback | server.go:170-178 | Appends the key to its own session's list, leaves all others, and refuses it. |
| AppServer.Sessions.Forget | server.go:33-38 | Removes exactly one session's list. |
| AppServer.Sessions.Serve | server.go:25-39 | serve leaves an entry for its session exactly if the client offered keys and was then not let in, and touches no other session. |
| AppServer.Sessions.ServeAll | server.go:25-39 | After any number of sessions the entries left are those of exactly the sessions that offered keys and failed; they stay for good. |
| History.StRingBuffer.Add | Godeps/_workspace/src/golang.org/x/crypto/ssh/terminal/terminal.go:865-877 | The ring keeps the last hundred lines added. |
| History.StRingBuffer.NthPreviousEntry | Godeps/_workspace/src/golang.org/x/crypto/ssh/terminal/terminal.go:883-892 | The n-th previous line added, exactly if it is among the last hundred. |
| Editor.WordStartMeans | Godeps/_workspace/src/golang.org/x/crypto/ssh/terminal/terminal.go:365-386 | Where the word to the left begins: after it one word and then only spaces; a space in column 0 belongs to the word. |
| Editor.WordEndMeans | Godeps/_workspace/src/golang.org/x/crypto/ssh/terminal/terminal.go:390-405 | Where the next word begins: before it first no space and then only spaces, and it is no space itself. |
| Editor.MovesKeepText | Godeps/_workspace/src/golang.org/x/crypto/ssh/terminal/terminal.go:442-473 | The cursor keys leave the text alone. |
| Editor.MovesTo | Godeps/_workspace/src/golang.org/x/crypto/ssh/terminal/terminal.go:442-473 | And put the cursor where each of them should. |
| Editor.UndoTyping | Godeps/_workspace/src/golang.org/x/crypto/ssh/terminal/terminal.go:436-441 | Backspace undoes typing a character. |
| Editor.UndoMoves | Godeps/_workspace/src/golang.org/x/crypto/ssh/terminal/terminal.go:450-461 | Left and Right undo each other where the cursor can move, Left then delete is Backspace, and Right then Backspace is delete. |
| Editor.WordAndLineDeletion | Godeps/_workspace/src/golang.org/x/crypto/ssh/terminal/terminal.go:511-532 | Deleting a word or the line to the left is that many backspaces. |
| Editor.UpsThenDowns | Godeps/_workspace/src/golang.org/x/crypto/ssh/terminal/terminal.go:474-500 | Up n times shows the n-th previous line; as many Downs bring the unfinished line back. |
| Editor.HistoryEnds | Godeps/_workspace/src/golang.org/x/crypto/ssh/terminal/terminal.go:474-500 | Up does nothing exactly at the oldest of the last hundred lines, and Down nothing on the user's own line. |
| Editor.TypingIff | Godeps/_workspace/src/golang.org/x/crypto/ssh/terminal/terminal.go:541-563 | A character is inserted before the cursor exactly if it is printable and the line has not 4096 characters. |
| Editor.DeletingBothWays | Godeps/_workspace/src/golang.org/x/crypto/ssh/terminal/terminal.go:511-532 | Deleting to the end of the line is that many deletes, and with deleting to its start leaves nothing. |
| Screens.MovesTo | Godeps/_workspace/src/golang.org/x/crypto/ssh/terminal/terminal.go:266-295 | The escape sequences for up, down, left and right take the cursor to the wanted cell. |
| Screens.PlayText | Godeps/_workspace/src/golang.org/x/crypto/ssh/terminal/terminal.go:583-594 | Text is written cell after cell across row ends; after a glyph in the last column the cursor stays there until the next glyph. |
| Screens.LineFeed | Godeps/_workspace/src/golang.org/x/crypto/ssh/terminal/terminal.go:324-336 | The line feed sent at the end of a row takes the cursor to the start of the next row where it returns to column 0, and otherwise leaves it in the last column of that row. |
| Screens.BackFromEdge | Godeps/_workspace/src/golang.org/x/crypto/ssh/terminal/terminal.go:266-295 | After a line feed that has kept the column, the moves back over n cells of the filled row end in the right place if and only if n is 1: the row above is reached, and at its right edge the moves to the right do nothing. |
| Screens.AfterFullPrompt | Godeps/_workspace/src/golang.org/x/crypto/ssh/terminal/terminal.go:304-315 | After a prompt that fills its row and such a line feed, the line is shown right only if it is a single space in two columns with the cursor before it. |
| Screens.Rewritten | Godeps/_workspace/src/golang.org/x/crypto/ssh/terminal/terminal.go:304-315 | Writing new text and enough spaces over old text leaves the new text and nothing else on the screen. |
| Terminals.Terminal.HandleKey | Godeps/_workspace/src/golang.org/x/crypto/ssh/terminal/terminal.go:430-563 | Each key does to the line what it means to the zipper editor. With echo on, on any terminal, cursorY*width + cursorX = prompt length + pos afterwards. While no key has brought the output to the end of a row, or where the line feed returns to column 0 or the width is 1, the screen shows prompt and line and nothing else, with the cursor at that cell; and the next key leaves it so, if and only if one of the latter holds or the key is none of these: a character that fills the row, unless exactly one character follows the cursor; Up or Down to a line that fills the row; keyClearScreen after a prompt that fills its row, unless the width is 2 and the line is one space with the cursor before it. Enter starts a new row. |
| Terminals.Terminal.AddKeyToLine | Godeps/_workspace/src/golang.org/x/crypto/ssh/terminal/terminal.go:567-581 | Inserts in the growing buffer in place, and redraws the rest. Anywhere in the line, the display stays right if and only if the line feed returns to column 0, the width is 1, the character does not fill the row, or exactly one character follows the cursor. |
| Terminals.Terminal.ClearScreenKey | Godeps/_workspace/src/golang.org/x/crypto/ssh/terminal/terminal.go:533-541 | Whatever the screen was, it shows prompt and line afterwards, with the cursor in its place, unless the line feed keeps the column and prompt or line come to the end of a row; after such a prompt it comes out right only for two columns and a line of one space with the cursor before it. |
| Terminals.StopsMeans | Godeps/_workspace/src/golang.org/x/crypto/ssh/terminal/terminal.go:430-563 | While prompt and line stay in one row, no other keys than characters, Up, Down and keyClearScreen make the output come to the end of a row, and for those it is said when. |
| Terminals.FilledRow | Godeps/_workspace/src/golang.org/x/crypto/ssh/terminal/terminal.go:317-338 | A terminal whose line feed keeps the column: the first character typed after a prompt of two fills a row of three, and the cursor is left two cells from where the editor has it. |
| Terminals.Terminal.EraseNPreviousChars | Godeps/_workspace/src/golang.org/x/crypto/ssh/terminal/terminal.go:340-361 | Deletes in place at most n characters before the cursor, and blanks what is left over on the screen; the display stays right unless the line feed keeps the column and the output comes to the end of a row. |
| Terminals.Terminal.SetLine | Godeps/_workspace/src/golang.org/x/crypto/ssh/terminal/terminal.go:304-315 | Replaces the line, and under the same condition its display, whatever was shown before. |
| Terminals.Terminal.MoveCursorToPos | Godeps/_workspace/src/golang.org/x/crypto/ssh/terminal/terminal.go:232-264 | cursorX and cursorY become the cell of that position, and the cursor goes there if it was where they said. |
| Terminals.Terminal.AdvanceCursor | Godeps/_workspace/src/golang.org/x/crypto/ssh/terminal/terminal.go:317-338 | Accounts for glyphs written; at the end of a row it sends a line feed, after which the cursor is where cursorX and cursorY say if and only if the line feed returns to column 0 or there is only one column. |
| Terminals.Terminal.WriteLine | Godeps/_workspace/src/golang.org/x/crypto/ssh/terminal/terminal.go:583-594 | Writes text row by row; the cursor is in its place afterwards if and only if the line feed returns to column 0, the width is 1, or the text does not come to the end of a row. |
| Terminals.Terminal.CountToLeftWord | Godeps/_workspace/src/golang.org/x/crypto/ssh/terminal/terminal.go:365-386 | Counts to the start of the word on the left. |
| Terminals.Terminal.CountToRightWord | Godeps/_workspace/src/golang.org/x/crypto/ssh/terminal/terminal.go:390-405 | Counts to the start of the next word. |
| Terminals.Terminal.NewRow | Godeps/_workspace/src/golang.org/x/crypto/ssh/terminal/terminal.go:501-510 | Enter leaves the cursor at the start of a row below which the screen is blank. |
| Terminals.Terminal.Remember | Godeps/_workspace/src/golang.org/x/crypto/ssh/terminal/terminal.go:717-720 | With echo on an entered line becomes the newest history entry. |

## Left out

- Windows.Window.Reserve: does not model the condition variable and writeWaiters; where the code would wait it reports Wait and changes nothing.
- Buffers.Buffer.Read: reports Wait where the code would wait for the producer.
- Channels.Channel.WriteExtended: a call that would wait ends with Waiting, with the call still on record; its goroutine going on later is the Reserve step of ChannelFlow. Data of 2^32 bytes and more is left to ChannelResults.ReserveMakesProgressIff.
- Channels.Channel.TakeData: gets the code and bytes of a packet; taking the packet apart, with its errors, is ChannelPackets.RoundTripIff.
- ChannelResults.CreditIsConserved: extended data of codes above 1 is debited and never credited, and appears in the sum as discarded.
- ChannelResults.EofMeansAllRead: one sequential writer per stream, as the code demands of its callers.
- ChannelIdResults.NoRunFails: steps that would list more than 2^32-1 channels are not possible in the model; ids have no debugging offset (ChanLists.ChanList has it); Accept and Reject are one step each.
- Handshake.DataBetweenExchanges: needs RekeyThreshold + (W + L)*M below 2^64, L counting all lost KEXINITs of the run, so that the count of bytes does not wrap around.
- HandshakeObjects.HandshakeTransport.WritePacket: each method is one critical section, called when the mutex is free; that goroutines interleave is in Handshake. The exchange between EnterKeyExchange and LeaveKeyExchange, which does not take the mutex, is only there.
- Transport.NoRunFails: one message each way per exchange, as in Diffie-Hellman; no guessed first packet (the library never sends one), no failing connection, no failing construction of a cipher. A side whose negotiation or exchange fails stops, as the code closes the connection.
- Connections.Conn.ReadPacket: for packets that the reader's cipher fits; an empty packet is an error of the code that the two-endpoint model, which sends none, does not have.
- KeyExchange.LibraryRunsDoNotFail: the client's check of the server's signature and HostKeyCallback are one parameter; an end whose check fails stops, as in Transport.
- Negotiate.BothEndsAgree: one way only; lists that a name list cannot carry may still happen to lead to the same choice.
- Kex.HonestRunAgrees: messages shorter than 2^32 bytes. ECDH follows the same pattern over opaque points.
- KeyMaterial.GenerateKeyMaterial: needs a hash whose digests are not empty; with an empty digest the loop would not end.
- GcmCipher.RoundTripIff: for packets whose length word does not wrap around.
- ChannelIdLife.OpenIsAnswered: as long as lists and histories are short of 2^28, so that numbers do not run out; the size in a confirmation is ChannelFlow's.
- KeyConversations.FirstAdmittedKeyWins: keys of algorithms that the server knows and can parse.
- Wire.UnmarshalMarshal: encodings shorter than 2^32 bytes, and a rest field only in last place, as the source demands.
- ServerAuth.ServerAuthenticate: sending always succeeds, AuthLogCallback is not called, and a length word that makes parseString fault counts as a malformed request; the source-address test is a parameter.
- ClientAuth.ClientAuthenticate: methods other than none, publickey and keyboard-interactive are arbitrary functions of the server's packets.
- Terminals.Terminal.HandleKey: no paste mode, no AutoCompleteCallback, a fixed width, no escape characters in the prompt, every rune one cell wide, a screen with as many rows as are needed and no scrolling, and runes that survive the conversion to a string and back. Where setLine keeps the caller's slice the model copies it.
- Terminals.Terminal.MoveCursorToPos: where the line feed keeps the column, nothing is said about the screen after a key that has brought the output to the end of a row, until keyClearScreen.
- Terminals.Terminal.SetLine: SetSize, SetPrompt and Write, which repaint, are not modelled.
- AppServer.Sessions.Serve: one session after the other; each touches only its own entry, under the mutex. Session ids are taken to be distinct.
- ClientAuth.Conversation: a client with one key and no other method; the sends succeed. KeyConversations.FirstAdmittedKeyWins has any keys, and AppConversation.EveryKeyIsRecorded two methods, against this program only.
- KeyboardInteractive.ChallengeRoundTrip: questions and echo flags come as pairs, so that Challenge's test of their numbers has nothing to do; messages are shorter than 2^32 bytes.
- The teardown of a mux after a connection error, global requests, and the goroutine plumbing of session.go, tcpip.go and client.go.
- CertChecker, the agent, authorized_keys lines, PEM and private keys.
- The program's report text, its timer and its blacklist file.
- Fairness and scheduling: nothing here says that a step that is possible is ever taken.

# USMP, modelled and proved

USMP is a small secure-session protocol: a four-message handshake under a pre-shared key, then
encrypted frames over TCP or over UDP with its own stop-and-wait reliability layer. This project is
a Dafny model of its session engine, UDP transport, handshake, server admission, frame codec and key
derivation, with proofs of what they guarantee over every input, every schedule and every network.

`dafny verify dfyconfig.toml` checks everything.

## How the model is laid out

| file | models |
|---|---|
| `Bits.dfy`, `Wire.dfy`, `Reals.dfy` | bit operators on unbounded integers; constants, errors, little-endian packing; real arithmetic, oldest entry |
| `Crc.dfy`, `CrcRemainder.dfy`, `FrameCodec.dfy` | the CRC loop, the checksum as a polynomial remainder, the frame printer and parser, reading from a stream |
| `Crypto.dfy` | key derivation, associated data and encryption, with the primitives as free constructors |
| `ReplayWindow.dfy` | the 64-entry bitmap and the UDP transport's stale-frame filter |
| `Session.dfy` | `USMPSession`: sealing, fragmenting, one turn of the receive loop, `send`, `recv`, `rekey`, `bye` |
| `SendSchedule.dfy`, `SendRuns.dfy` | every interleaving of calls on one session's send lock, with failing and cancelled writes; what one call puts on the wire |
| `Transfer.dfy`, `TcpPairing.dfy`, `RecvCalls.dfy` | two sessions over TCP: in step, through any rekeys; whole `recv` calls |
| `RecvTurns.dfy` | what every turn of `recv` does and with what a call ends, over either transport; UDP calls as runs of reassembly |
| `Reassembly.dfy`, `Interruptions.dfy` | what `recv` can return over UDP, whatever arrives; what becomes of messages whose transfer is interrupted |
| `RetransmissionTimer.dfy`, `UdpLimits.dfy`, `UdpStream.dfy` | the timer; `UDPStream` with its byte buffer, acknowledgements and `drain` |
| `UdpDelivery.dfy`, `UdpProgress.dfy`, `UdpBytes.dfy` | end-to-end delivery over a losing, duplicating, reordering network, that it can always be completed, and its bytes |
| `UdpReplay.dfy`, `UdpRekey.dfy` | frames of a former key epoch against those of a new one; one REKEY over such a network |
| `Handshake.dfy`, `HandshakeLimiter.dfy` | any number of concurrent handshakes; the table of failed handshakes |
| `TcpAdmission.dfy`, `UdpAdmission.dfy`, `CookieLimiter.dfy` | connection counts, handshake and session tables, the token bucket |

Code that updates fields in place is a class whose methods are proved against functions of the old
state; the code between two suspension points is one step of a state machine, and the whole-run
theorems are about every sequence of such steps. A session's plaintext, keys and nonces appear in a
sealed payload as they were given, so two payloads are equal exactly when they were made alike, and
a payload opens only under the key, nonce and header it was made with.

## What the proofs found

- A rekey over UDP endangers the messages after it in two ways. The transport's filter is not reset: frames
  of the new epoch are discarded although the session would take them, exactly when the last
  authenticated number L had reached 64 (`ReplayWindow.RekeyUnmasksPrefilter`), and frames 0 to L - 64 are
  acknowledged all the same, so every `send` returns. And the transport acknowledges by type and number
  under the new key before anything is authenticated: a repeated frame of a former epoch releases the sender
  of the new frame with its type and number, which may never arrive. Over all runs, every frame from
  L - 63 on gets through if and only if no frame of a former epoch has the type and number of one of
  them (`UdpReplay.GetThroughExactly`); then the receiver gets the tail of the message that lies across number
  L - 63 and the messages after it (`UdpDelivery.RekeyLosesMessages`). For a list of messages, all of them
  arrive whole in every run if and only if, besides, none begins below that number
  (`UdpReplay.MessagesExactly`). A sender can check both: it knows what it has sealed before.
- A rekey over UDP can leave the ends with different keys. Once the responder has read the REKEY its
  acknowledgements are signed with the new key and release nobody, so if those it made before are lost, the
  initiator's `rekey` fails while the responder has changed (`UdpRekey.ReleasedExactly`,
  `UdpRekey.LostAckStrands`, `UdpRekey.KeysCross`). The other way round, the initiator changes alone if the
  REKEY's number is stale to the filter or an earlier REKEY with the same number is repeated; a `rekey` that
  returned means that the responder has the REKEY if and only if neither is the case
  (`UdpRekey.ReceivedExactly`, `UdpRekey.StaleRekeyStrands`).
- Reassembly goes by sequence number alone, and whatever it returns is a tail of one sent message
  (`Reassembly.UdpDeliversTails`) but not always the whole. Two things cut off the head of a message whose
  `send` returned: a `recv` given up, by its timeout, after k of its frames
  (`Interruptions.GivenUpTruncates`), and the filter after a rekey (`Interruptions.LostHeadTruncates`); the
  rest is returned as a complete message, whole if and only if k is zero. Neither can happen in a first
  epoch with one reader, no `recv` given up part-way, no `send` failed so far and the control budget kept,
  on a network that does not alter datagrams (`UdpDelivery.DeliveredIsPrefix`,
  `UdpDelivery.ReturnedMeansQueued`).
- The same over TCP: a `recv` given up after k frames of a message makes the next one return the rest
  (`RecvCalls.GivenUpOverTcp`), and one given up between a header and its payload leaves the stream in the
  middle of a frame, which the next read takes for a header (`FrameCodec.CancelledReadDerails`).
- A `send` abandoned part-way harms a message that is the next operation exactly when one of its fragments
  has arrived. If all have, and the two make at most four frames, the next message comes with them spliced before it; if
  they make more, TCP ends with an error and UDP delivers the tail of the next message. Over UDP the last
  fragment sealed may be lost: then the next message is unharmed if that was the only one, and otherwise
  loses its first frame, vanishing without an error if it had no other
  (`Interruptions.AbandonedSendSplices`). If that fragment arrives late, in the middle of the next message,
  at most a proper tail of that message is delivered (`Interruptions.LateFragmentTruncates`); if it arrives
  after it, the message after that one loses its first frame (`Interruptions.LateAfterNext`). A PING or PONG as
  the next operation clears the fragments over UDP and is an error over TCP
  (`Interruptions.ControlBetween`).
- Rekeying over TCP needs a discipline the code does not enforce. A rekey strands everything on its
  way to the initiator (`TcpPairing.RekeyStrandsInbound`), a responder that writes before reading the
  REKEY is refused (`TcpPairing.SealingBeforeReadingStrands`), an initiator that reads before its
  own write returns refuses a responder that has already switched (`TcpPairing.ReadingMidRekeyFails`),
  and a message the responder is in the middle of is broken (`TcpPairing.RekeyMidMessageFails`).
  Under that discipline the ends stay paired through any number of rekeys, pipelined and crossing ones
  included.
- A handshake frame that finds the buffer full has been taken for new all the same: its repeats are acknowledged,
  so that the sender is released, and never queued (`UdpStream.UDPStream.FeedPacket`, `UdpStream.TakenIsNeverNew`).
- A HELLO with a valid cookie from the address of a live session diverts that session's datagrams to the new
  handshake until it ends (`UdpAdmission.HelloDiverts`, `UdpAdmission.SessionReached`).
- Failed handshakes do not simply add up to a growing lockout: once a lockout has passed, a failure of
  any other address prunes the entry and the count starts again
  (`HandshakeLimiter.OthersResetTheCount`). Pruning never ends a lockout early
  (`HandshakeLimiter.NeverUnlockedEarly`).
- A failure locks an address out if and only if its count is between 5 and 1028. From the 1029th on the
  float power overflows and raises before anything is written, so the address is not locked out again
  (`HandshakeLimiter.LockoutLength`, `HandshakeLimiter.NeverLockedAgain`).
- The timer follows rule 2.3 of RFC 6298 but not rule 2.2: the first measurement is blended with the
  defaults, and no measurement makes the two agree (`RetransmissionTimer.FollowsRfc6298`).
- The comment at `src/usmp/_session.py:195-202` says a violation drops the partial message and keeps
  reading on UDP. The code does the same for a PONG that cannot be sealed because the sequence is
  spent, and the model follows the code.

## Model

| member | source | states |
|---|---|---|
| `Crc.Crc16` | src/usmp/_frame.py:15-25 | the nested loop computes the checksum function, and the result fits 16 bits |
| `Crc.ByteStepLinear` | src/usmp/_frame.py:18-24 | one byte step is linear under exclusive or, in the register and in the byte together |
| `Crc.ByteStepInjective` | src/usmp/_frame.py:18-24 | distinct 16-bit registers stay distinct through a byte step |
| `Crc.ByteStepOnto` | src/usmp/_frame.py:18-24 | every 16-bit register is reached by a byte step, so the step is a bijection |
| `Crc.NeighbourChangeDetected` | src/usmp/_frame.py:15-25 | replacing any two neighbouring bytes of data of any length by a different pair changes the checksum |
| `CrcRemainder.ChecksumIsRemainder` | src/usmp/_frame.py:15-25 | the checksum read backwards is the one and only remainder of the message, its bytes taken low bit first, with sixteen ones before it, modulo x^16 + x^15 + x^2 + 1 |
| `FrameCodec.Encode` | src/usmp/_frame.py:42-57 | encoding succeeds exactly for payloads of at most 480 bytes and fields that fit their width; the payload follows a 12-byte header |
| `FrameCodec.EncodedFields` | src/usmp/_frame.py:55-57 | where the parser will find each header field of an encoded frame |
| `FrameCodec.HeaderBytes` | src/usmp/_frame.py:42-57 | the value of each byte of an encoded frame: magic, version, type number, number and length low byte first, checksum of the rest |
| `FrameCodec.DecodeEncode` | src/usmp/_frame.py:42-106 | decoding an encoded frame recovers type, sequence number and payload, with or without the checksum test |
| `FrameCodec.DecodeExactly` | src/usmp/_frame.py:60-106 | byte by byte, exactly which datagrams do not decode, and with which error each |
| `FrameCodec.EncodeDecode` | src/usmp/_frame.py:60-106 | a datagram of exactly the declared length that decodes with the checksum test is, byte for byte, what the encoder prints |
| `FrameCodec.DamageRejected` | src/usmp/_frame.py:60-96 | changing any one byte outside the length field, or any two neighbouring bytes within the fields before it, within the checksum or within the payload, never decodes, for frames of any length; from the type byte on it is a checksum error |
| `FrameCodec.ReadTakesOneFrame` | src/usmp/_frame.py:109-126 | reading from a whole frame followed by anything takes exactly that frame without waiting, whatever the decoder says of it |
| `FrameCodec.ReadsExactly` | src/usmp/_frame.py:109-126 | a read waits if and only if its bytes are not all there; otherwise it takes the header, and the payload only if magic and length are good, and comes to the same whatever follows |
| `FrameCodec.CancelledReadDerails` | src/usmp/_frame.py:114-124 | a read cancelled while waiting for a payload has taken the header; the next read of an encrypted frame's payload is a magic error if and only if the low half of its number is not the magic |
| `FrameCodec.ReadAllConcat` | src/usmp/_frame.py:109-126 | reading a concatenation of whole frames gives the decoder's outcome on each, in order, one for one |
| `FrameCodec.ReadBack` | src/usmp/_frame.py:109-138 | reading back any list of written frames yields that list |
| `Crypto.DeriveSessionKeys` | src/usmp/_crypto.py:25-61 | refuses exactly low-order peer keys, and the two directional keys differ |
| `Crypto.SessionKeysAgree` | src/usmp/_crypto.py:47-61 | client and server derive the same pair of keys |
| `Crypto.SessionKeysDetermined` | src/usmp/_crypto.py:25-61 | two derivations give the same keys if and only if the nonce, both public keys and the pair of public keys behind the secret are the same |
| `Crypto.SessionKeysFromHkdf` | src/usmp/_crypto.py:47-61 | the client-to-server key is the lower and the server-to-client key the upper half of HKDF over the shared secret, with the nonce, the label "usmp-v2" and both public keys |
| `Crypto.DeriveRekeyKeys` | src/usmp/_crypto.py:68-92 | both new keys lie strictly further down the derivation than both old ones, so no key ever recurs, and they differ |
| `Crypto.RekeyDetermined` | src/usmp/_crypto.py:68-92 | in the same role two rekeys give the same keys if and only if both old keys, the session id and the salt are the same |
| `Crypto.RekeyFromHkdf` | src/usmp/_crypto.py:80-92 | whichever end derives them, the initiator's sending key is the lower and its receiving key the upper half of HKDF over its old sending and receiving key, with the salt, the label "usmp-rekey" and the session id |
| `Crypto.RekeyCrosses` | src/usmp/_crypto.py:80-92 | crossed keys before a rekey give crossed keys after it |
| `Crypto.AadInjective` | src/usmp/_crypto.py:95-113 | the associated data determines type, sequence number and length |
| `Crypto.NonceInjective` | src/usmp/_session.py:346 | within a session distinct sequence numbers give distinct nonces |
| `Crypto.NonceBytes` | src/usmp/_session.py:346 | the nonce byte by byte: the number, low byte first, and the first eight bytes of the session id |
| `Crypto.OpensExactly` | src/usmp/_crypto.py:116-174 | a box opens exactly under the suite, key, nonce, type and number it was made with, to its plaintext |
| `ReplayWindow.DecidesExactly` | src/usmp/_session.py:123-129 | the bitmap admits a number if and only if it was never accepted and is within 64 of everything accepted, computed from the full history |
| `ReplayWindow.AcceptExtends` | src/usmp/_session.py:164-177 | the update turns the bitmap of a history into the bitmap of the history with the new number: bit i set if and only if the number i below the highest was accepted, and below 2^64 |
| `ReplayWindow.BitmapRefinesSet` | src/usmp/_session.py:121-177 | over any arrivals the bitmap and the exact set make the same decisions and stay each other's image |
| `ReplayWindow.NothingAcceptedTwice` | src/usmp/_session.py:126-129 | no number is accepted twice in an epoch |
| `ReplayWindow.MirrorKept` | src/usmp/transport/udp.py:192-194 | the transport's last number is -1 before the first acceptance and the session's highest afterwards |
| `ReplayWindow.PrefilterInvisible` | src/usmp/transport/udp.py:170-179 | whatever the transport discards as too old the session would drop now and after any further arrivals |
| `ReplayWindow.RekeyUnmasksPrefilter` | src/usmp/_session.py:237-243 | after a rekey the filter discards a frame the session would take if and only if the last number had reached 64; `UdpDelivery.RekeyLosesMessages` carries this to the messages |
| `Session.Seal` | src/usmp/_session.py:338-364 | sealing fails exactly for a frame other than BYE at the last sequence number |
| `Session.FragmentShape` | src/usmp/_session.py:94-104 | the chunks of a message joined are the message; all but the last are full fragments, the last is DATA |
| `Session.FragmentCount` | src/usmp/_session.py:95-104 | how many chunks a message of a given length takes, exactly |
| `Session.LimitsMeet` | src/usmp/_session.py:84-88 | the length `send` accepts is exactly the length that fits the receiver's four fragments, and every sealed chunk fits 480 bytes |
| `Session.ChunkKinds` | src/usmp/_session.py:97-99 | the frame type of every chunk of every operation, the plaintext of those that are not messages, and that a message has at most four chunks which join to it |
| `Session.SealedOpens` | src/usmp/_session.py:131-193 | a frame sealed by the peer at the number due, or admitted by the window, is accepted with its plaintext |
| `Session.WrongKeyRefused` | src/usmp/_session.py:132-153 | a frame under any other key is refused on TCP and ignored on UDP |
| `Session.AcceptedIsAuthentic` | src/usmp/_session.py:121-193 | a frame is accepted if and only if its payload was sealed under the receiving key for this very type, number and length, its number is not the last, and it is the next one on TCP or an admissible one on UDP |
| `Session.USMPSession.constructor` | src/usmp/_session.py:65-72 | a new session is open, has written nothing, and its transport works with its keys |
| `Session.USMPSession.SendEncryptedLocked` | src/usmp/_session.py:338-364 | the sequence number is spent and the frame handed over even when the write fails; a refused seal changes nothing |
| `Session.USMPSession.Send` | src/usmp/_session.py:82-104 | the loop writes exactly the chunks of the message in order up to the first failure, as `SendRuns.SealRunFrames` and `SendRuns.SealRunEnds` tell; a message over the limit changes nothing |
| `Session.USMPSession.Ping` | src/usmp/_session.py:286-288 | one PING frame, its number spent |
| `Session.USMPSession.RotateKeys` | src/usmp/_session.py:297-310 | both keys are replaced, both counters and the bitmap start again at zero, and the transport gets the new keys |
| `Session.USMPSession.Rekey` | src/usmp/_session.py:290-311 | keys and counters change, in the session and in the transport, only if the REKEY frame was written |
| `Session.USMPSession.Bye` | src/usmp/_session.py:313-328 | closes always, writes at most one BYE ever, never fails, and closes the transport whether or not the BYE was written |
| `Session.USMPSession.ReceiveTurn` | src/usmp/_session.py:117-276 | one pass of the loop body is the turn function, whose effect `RecvTurns.TurnDoes` states; the transport learns the number of a frame accepted over UDP and the keys of a REKEY, and nothing else |
| `Session.USMPSession.InformTransport` | src/usmp/_session.py:179 | the transport is told the number of a frame accepted over UDP, and the new keys after a REKEY |
| `Session.USMPSession.RespondTo` | src/usmp/_session.py:212-223 | the PONG, the charge to the budget, and each way this can end the call |
| `Session.KeysStay` | src/usmp/_session.py:225-245 | only a turn that reads a REKEY changes the keys |
| `Session.USMPSession.Recv` | src/usmp/_session.py:106-276 | the loop is the run of the turn function over the arrivals, which `RecvTurns.CallExactly` describes, and uses exactly as many as that run; the transport keeps the session's keys through every REKEY |
| `SendSchedule.NonceNeverReused` | src/usmp/_session.py:290-364 | in every schedule of calls, failures, cancellations and incoming rekeys no two frames share key and nonce, the clamped BYE included |
| `SendSchedule.MessagesAtomic` | src/usmp/_session.py:90-104 | in every schedule the frames of one call are one unbroken stretch of the wire carrying its chunks in order, all of them if it returned, and no other call's frame lies in it |
| `SendSchedule.SequenceGapFree` | src/usmp/_session.py:338-364 | while keys stay, the numbers on the wire have no gap and only a BYE carries the last one |
| `SendSchedule.ByeOnce` | src/usmp/_session.py:315-319 | a call about to seal a BYE finds none on the wire |
| `SendRuns.SealExactly` | src/usmp/_session.py:338-364 | sealing gives the frame with the next number, sealed under the sending key for this type, number and length, and spends the number; at the last number it is refused unless it is a BYE |
| `SendRuns.SealRunFrames` | src/usmp/_session.py:82-104 | writing a list of chunks puts each on the wire under the next number, and spends exactly the numbers used |
| `SendRuns.SealRunEnds` | src/usmp/_session.py:82-104 | how it ends: well if and only if all are written, otherwise at the first write that fails or at the last number |
| `SendRuns.CallCompletes` | src/usmp/_session.py:82-104 | in the schedule any call that finds the lock free can run to its end, and the whole state it leaves: its frames, the free lock, and new keys after a rekey only |
| `SendRuns.CallFails` | src/usmp/_session.py:290-311 | any write of such a call may fail, and the whole state that leaves: the frames so far, their numbers spent, the free lock, the old keys |
| `SendRuns.FromOutside` | src/usmp/_session.py:225-245 | a REKEY read from the peer gives the session a responder's keys and fresh counters whoever holds the lock; a call abandoned while it waits has done nothing |
| `Transfer.ChunkInStep` | src/usmp/_session.py:203-264 | an authentic chunk that meets a receiver in step yields the verdict due, completes a message exactly at its last chunk, and leaves the ends in step |
| `TcpPairing.StaysPaired` | src/usmp/_session.py:225-245 | at every moment of every run, reading what is in flight succeeds and leaves the ends with crossed keys and matching counters, through any number of rekeys by either side |
| `TcpPairing.EveryReadSucceeds` | src/usmp/_session.py:180-193 | no read ever raises |
| `TcpPairing.MessagesRoundTrip` | src/usmp/_session.py:94-104 | messages received are a prefix of messages sent, in both directions, and all of them once nothing is in flight, as long as no `recv` is given up part-way; `RecvCalls.GivenUpOverTcp` states what happens then |
| `TcpPairing.LagIsInFlight` | src/usmp/_session.py:192-193 | a sender's counter is the peer's plus the frames in flight |
| `TcpPairing.AnyOperationPasses` | src/usmp/_session.py:94-104 | at every moment of every run with nothing under way, any operation but a BYE can be carried out, and its message then has arrived |
| `TcpPairing.RekeyStrandsInbound` | src/usmp/_session.py:304-308 | after a rekey the frames on their way to the initiator can be read if and only if there are none |
| `TcpPairing.SealingBeforeReadingStrands` | src/usmp/_session.py:225-245 | a frame the peer seals before reading the REKEY is refused |
| `TcpPairing.ReadingMidRekeyFails` | src/usmp/_session.py:295-308 | an initiator that reads before switching keys refuses what the switched peer sends |
| `TcpPairing.RekeyMidMessageFails` | src/usmp/_session.py:250-252 | a rekey while the peer has sealed k chunks of a message makes its next chunk a sequence error if and only if k is not zero |
| `RecvCalls.ControlsThenMessage` | src/usmp/_session.py:207-261 | any control frames and then a message: the call returns the message if and only if the budget, restarted whenever a second has passed, pays for the control frames; otherwise it ends the connection at the first it cannot pay for |
| `RecvCalls.CallsReturnMessages` | src/usmp/_session.py:106-276 | for any list of messages with any control frames before each, at any times, successive calls return exactly those messages if and only if each call's budget pays for its control frames |
| `RecvCalls.GivenUpOverTcp` | src/usmp/_session.py:278-284 | over TCP a `recv` given up after k frames of a message goes on reading until then, and the next one returns the rest as a message, whole if and only if k is zero |
| `RecvCalls.ControlSpends` | src/usmp/_session.py:207-223 | a PING is answered by exactly one PONG and a PONG by nothing, either is charged to the budget, and the call ends when that exceeds eight |
| `RecvCalls.BudgetExact` | src/usmp/_session.py:214-222 | control frames alone leave the call reading if and only if the budget pays for them, and otherwise end it at the first it cannot pay for |
| `RecvCalls.AffordableInOneWindow` | src/usmp/_session.py:218-219 | within one second of the window's start the budget pays for exactly what is left of eight |
| `RecvCalls.NoBurstAffordable` | src/usmp/_session.py:214-219 | over any length of time it pays for any number of control frames of which no nine in a row come within a second |
| `RecvTurns.OpenExactly` | src/usmp/_session.py:121-193 | what becomes of a frame before it is interpreted: ignored or refused if it is not genuine or not admissible, an error at the last number or out of turn on TCP, and otherwise accepted with its number booked |
| `RecvTurns.TurnDoes` | src/usmp/_session.py:117-276 | what one turn does on either transport, told without the functions it is written with: skipped, ended, partial message dropped, message returned, fragment added, keys changed, PONG written, budget charged |
| `RecvTurns.TurnEnds` | src/usmp/_session.py:117-276 | with what a turn ends the call: over UDP only with a message, on a BYE, on the last number, over the budget, on a PONG that cannot be written, or on a dead stream |
| `RecvTurns.CallExactly` | src/usmp/_session.py:106-276 | over any arrivals a call takes each as told, up to the first that ends it, and ends with what that one ends it with; the transport is told the highest number accepted |
| `RecvTurns.CallFollows` | src/usmp/_session.py:106-276 | a call over UDP is a run of `Reassembly` on the frames it has read, and returns the message that run delivers, if any |
| `RecvTurns.CallsFollow` | src/usmp/_session.py:106-284 | any calls over UDP, returned, failed or given up, return together exactly what one such run delivers |
| `RecvTurns.RecvReturnsTails` | src/usmp/_session.py:106-284 | all that `recv` ever returns over UDP from a fresh session are tails of messages sent, whatever else arrives and however the calls end |
| `Reassembly.ReassemblySound` | src/usmp/_session.py:203-276 | whatever arrives in whatever order, through any calls returned or given up, each payload returned joins at most four accepted frames with consecutive numbers, fragments closed by a DATA |
| `Reassembly.ViolationAbsorbed` | src/usmp/_session.py:203-276 | over UDP a frame is a violation if and only if it is authentic and breaks a rule of reassembly, and it leaves a fresh assembly; the loop ends if and only if an authentic frame is a BYE or has the last sequence number |
| `Reassembly.DeliveredIsTail` | src/usmp/_session.py:250-261 | such a payload is the tail of one sent message from a fragment boundary, whole exactly if it starts at the first frame |
| `Reassembly.UdpDeliversTails` | src/usmp/_session.py:106-284 | the same for every payload delivered from a fresh session, for any operations sent whole, any frames that arrive, genuine payloads under altered headers included, and any calls given up in between |
| `Interruptions.LostHeadTruncates` | src/usmp/_session.py:250-261 | if the first k frames of a message are kept from the session, as the filter does after a rekey, the rest is returned as a message, whole if and only if k is zero |
| `Interruptions.AbandonedSendSplices` | src/usmp/_session.py:250-276 | a `send` abandoned after j frames, all of which arrived or over UDP all but the last: what is returned of a message of any length that is the next operation, in each case, spliced, cut, dropped or refused; it is unharmed if and only if nothing had arrived |
| `Interruptions.ControlBetween` | src/usmp/_session.py:207-211 | if the next operation is a PING or PONG, over UDP the message after it is unharmed, and over TCP it is a sequence error exactly if anything had arrived |
| `Interruptions.LateFragmentTruncates` | src/usmp/_session.py:250-276 | if the last fragment arrives in the middle of the next message instead, exactly which proper tail of that message is returned, or none |
| `Interruptions.LateAfterNext` | src/usmp/_session.py:250-276 | if it arrives after the whole next message, the message after that one loses its first frame, vanishing if it had no other |
| `Interruptions.GivenUpTruncates` | src/usmp/_session.py:278-284 | a `recv` given up after k frames of a message that all arrive in order: the next `recv` returns the rest as a message, whole if and only if k is zero |
| `Interruptions.InOrderRun` | src/usmp/_session.py:117-276 | frames that arrive in order are read as their chunks: no chunk is dropped, and no number held against it |
| `RetransmissionTimer.EstimatesBounded` | src/usmp/transport/udp.py:239-244 | samples between lo and hi keep the mean there and the deviation at most the larger of 0.1 and their distance; the timeout stays in [0.1, 5] |
| `RetransmissionTimer.EstimatesNonNegative` | src/usmp/transport/udp.py:62-65 | over any non-negative samples the estimates stay non-negative and the timeout in [0.1, 5] |
| `RetransmissionTimer.FollowsRfc6298` | src/usmp/transport/udp.py:239-244 | the update is rule 2.3 of RFC 6298 with gains 1/8 and 1/4, the deviation taken against the old mean, and the timeout is 0.1 below that and 5 above; rule 2.2 for the first measurement is met by none |
| `RetransmissionTimer.MeanConverges` | src/usmp/transport/udp.py:243 | on a steady round-trip time the distance of the mean shrinks by 7/8 per sample, exactly |
| `RetransmissionTimer.TimeoutsGrow` | src/usmp/transport/udp.py:232-233 | the 0.05 clamp never binds and waits never shrink |
| `UdpStream.UDPStream.constructor` | src/usmp/transport/udp.py:46-65 | a new stream has an empty queue, no keys and no number, and the timer at 0.2, 0.1 and 0.5 |
| `UdpStream.UDPStream.FeedPacket` | src/usmp/transport/udp.py:101-190 | any datagram keeps the buffer a queue of whole frames of at most 4096 bytes; a frame is queued if and only if it is new and fits, a handshake frame being new if the types taken so far and its own come in a lawful order; it is acknowledged if it is queued or not new; an acknowledgement only ever releases the frame it names |
| `UdpStream.RepeatsExactly` | src/usmp/transport/udp.py:154-168 | the test on the last type decides exactly whether the order stays lawful: increasing on a server, on a client no type twice running and no CHALLENGE right after SESSION_OK, HELLO_RETRY only as the first |
| `UdpStream.TakenIsNeverNew` | src/usmp/transport/udp.py:154-168 | a handshake frame once taken for new, even if it found no room, is never new again on a server, and on a client not before another type |
| `UdpStream.UDPStream.ConfirmAuthenticated` | src/usmp/transport/udp.py:192-194 | the last number becomes the larger of the two |
| `UdpStream.UDPStream.SetSessionKeys` | src/usmp/transport/udp.py:79-87 | installs both keys and touches nothing else, in particular not the last number |
| `UdpStream.UDPStream.ReadExactly` | src/usmp/transport/udp.py:196-205 | takes n bytes if there are as many, otherwise nothing, and then waits with the event cleared |
| `UdpStream.UDPStream.ReadFrame` | src/usmp/_frame.py:109-126 | each read takes exactly one queued frame, error or not, and waits only on an empty queue, never between header and payload |
| `UdpStream.UDPStream.Write` | src/usmp/transport/udp.py:207-216 | remembers the datagram and the type and number to wait for; refused on a closed stream |
| `UdpStream.UDPStream.Drain` | src/usmp/transport/udp.py:218-258 | at most five copies; the first wait is the timer's, each further one twice the one before up to five seconds, together at most 25; fails exactly when all five run out; only an acknowledged first attempt moves the timer |
| `UdpStream.UDPStream.SendUntilAcked` | src/usmp/transport/udp.py:230-258 | the loop of attempts: one copy and one wait each, until the first acknowledgement or the fifth |
| `UdpStream.UDPStream.Close` | src/usmp/transport/udp.py:260-264 | closed for good, a waiting reader is woken, and a client's socket is closed |
| `UdpStream.UtackReleasesItsFrame` | src/usmp/transport/udp.py:94-126 | the acknowledgement a peer builds releases the sender of that type and number and no other |
| `UdpStream.UtackBytes` | src/usmp/transport/udp.py:94-99 | the acknowledgement byte by byte, with the MAC for session frames once there is a key |
| `UdpStream.ReleasesExactly` | src/usmp/transport/udp.py:101-126 | a datagram releases a waiting sender if and only if it begins with the acknowledgement of the pending frame under the sender's key; a session frame needs the key |
| `UdpStream.OtherKeyNeverReleases` | src/usmp/transport/udp.py:113-123 | a session acknowledgement under another key releases nobody if the MAC of its header tells the keys apart |
| `UdpDelivery.DeliveredIsPrefix` | src/usmp/transport/udp.py:101-258 | at every reachable state the messages received are a prefix of the messages sent: each once, unaltered, in order |
| `UdpDelivery.ReturnedMeansQueued` | src/usmp/transport/udp.py:229-245 | when a `send` has returned every frame sealed so far has been queued at the peer, and once the queue is read every message has arrived |
| `UdpProgress.CanAlwaysFinish` | src/usmp/transport/udp.py:229-245 | from every state a first epoch can reach, if the pending write has been acknowledged or has been sent fewer than five times, some continuation completes its operation and delivers every message begun |
| `UdpDelivery.NothingLostInTheQueue` | src/usmp/transport/udp.py:181-190 | the buffer is never overfilled; while no former frame has the type and number of a new one, the session accepts the oldest queued frame if and only if it is of this epoch and the next one |
| `UdpDelivery.RekeyStartsEpoch` | src/usmp/_session.py:297-310 | a rekey leaves both directions at the start of an epoch |
| `UdpDelivery.RekeyLosesMessages` | src/usmp/transport/udp.py:170-179 | in every run of an epoch with a past, the filter at L and former frames on the network, in which none of these has the type and number of a new one from L - 63 on: exactly the frames from there on get through; the messages received are a prefix of the tail of the message across that number and those after it, and exactly these once all is read; that is everything if and only if no message begins below it |
| `UdpDelivery.BelowFloorAcknowledged` | src/usmp/transport/udp.py:172-179 | a frame below that number is acknowledged whenever it arrives and never queued |
| `UdpDelivery.ShadowDelivers` | src/usmp/_session.py:203-264 | what a reader gets who sees every frame from a given number on: the tail of the message across it and every later message |
| `UdpDelivery.WholeFrom` | src/usmp/_session.py:94-104 | that is everything that was sent if and only if no message begins below the number |
| `UdpReplay.GetThroughExactly` | src/usmp/transport/udp.py:181-190 | over all runs of given operations every frame from L - 63 on has been queued when its operation returns, if and only if no former frame has the type and number of one of them |
| `UdpReplay.MessagesExactly` | src/usmp/transport/udp.py:94-126 | over all runs all messages arrive whole if no message begins below L - 63 and no former frame has the type and number of a new one, only if none begins below and none strikes a message; for lists of messages an if and only if |
| `UdpReplay.StrikeLoses` | src/usmp/transport/udp.py:186-190 | for any operations and any former frame with the type and number of a frame of a message, a run in which every `send` returns and the messages received are not those sent |
| `UdpRekey.KeysCross` | src/usmp/_session.py:290-311 | in every run of one REKEY over UDP the keys are crossed if and only if both ends have changed them or neither has; otherwise neither end opens anything the other seals |
| `UdpRekey.ReleasedExactly` | src/usmp/transport/udp.py:94-126 | at every reachable state some continuation lets `rekey` return if and only if an acknowledgement under the old key has been heard, is in flight or can still be made, by the REKEY or by a former frame with its type and number |
| `UdpRekey.LostAckStrands` | src/usmp/_session.py:237-243 | from every start a lost acknowledgement leads to a state in which the responder has changed its keys and the initiator can never return |
| `UdpRekey.ReceivedExactly` | src/usmp/transport/udp.py:170-190 | in every run a `rekey` that returned means that the responder has read the REKEY or holds it, if and only if its number is not stale to the filter and no former frame has its type and number |
| `UdpRekey.StaleRekeyStrands` | src/usmp/transport/udp.py:170-179 | a REKEY the filter holds for stale is never read, so in every run the keys stay crossed if and only if the initiator has not returned |
| `UdpRekey.FailsAfterFive` | src/usmp/transport/udp.py:229-258 | in every run `rekey` fails only after five copies of which none was acknowledged, returns only after an acknowledgement, and the initiator has new keys if and only if it returned |
| `UdpBytes.DatagramFields` | src/usmp/transport/udp.py:128-150 | the datagram of a session frame is a whole frame with the model's size, type and number, and decodes to it |
| `UdpBytes.BufferedBytes` | src/usmp/transport/udp.py:181-190 | the byte buffer holding the model's queue has the size the model computes |
| `UdpBytes.FeedAgrees` | src/usmp/transport/udp.py:170-190 | on its datagram the stream's staleness and room tests are the delivery model's |
| `UdpBytes.AckAgrees` | src/usmp/transport/udp.py:94-126 | the bytes of an acknowledgement release the sender exactly when the delivery model's acknowledgement does: under the sender's own key and, if the MAC tells keys apart, under no other |
| `UdpBytes.AadIsHeader` | src/usmp/_crypto.py:130-132 | the associated data of a payload is the first ten bytes of the frame that carries it |
| `Handshake.ClientTagFields` | src/usmp/_handshake.py:195-198 | the bytes under the HELLO_ACK tag determine nonce, device id and both public keys |
| `Handshake.ServerTagFields` | src/usmp/_handshake.py:211-214 | the bytes under the SESSION_OK tag determine nonce, session id and both public keys |
| `Handshake.TagKindsDiffer` | src/usmp/_handshake.py:330-354 | a tag of one kind is never a tag of the other |
| `Handshake.ClientAgreement` | src/usmp/_handshake.py:291-372 | in every run a client that finishes under an unleaked key has exactly one server agreeing on nonce, both public keys, session id and device id, with crossed keys |
| `Handshake.ServerAgreement` | src/usmp/_handshake.py:126-234 | in every run a server that finishes under an unleaked key has exactly one client agreeing on nonce, public keys, device id and crossed keys |
| `Handshake.HonestCompletes` | src/usmp/_handshake.py:126-372 | an honest handshake finishes, with and without a cookie, and both ends have the same device and session id and crossed keys |
| `Handshake.ServerChecksExactly` | src/usmp/_handshake.py:126-223 | exactly which HELLO and HELLO_ACK a server takes, and what it then holds |
| `Handshake.ClientChecksExactly` | src/usmp/_handshake.py:299-372 | exactly which HELLO_RETRY, CHALLENGE and SESSION_OK a client takes, and what it then holds |
| `HandshakeLimiter.FailureTable.constructor` | src/usmp/_handshake.py:28-30 | starts with no failures |
| `HandshakeLimiter.FailureTable.Record` | src/usmp/_handshake.py:33-63 | raises exactly when the count passes 1028 and then writes nothing; otherwise the entry, the eviction of the oldest at the cap, and the pruning |
| `HandshakeLimiter.FailureTable.Forgive` | src/usmp/_handshake.py:225 | a completed handshake removes the address and nothing else |
| `Reals.Oldest` | src/usmp/_handshake.py:51 | the key chosen for eviction has a value no younger than any other's; the cookie limiter sorts by the same order |
| `HandshakeLimiter.TableBounded` | src/usmp/_handshake.py:49-54 | over any history the table holds at most a thousand addresses |
| `HandshakeLimiter.NeverUnlockedEarly` | src/usmp/_handshake.py:56-63 | over any history a lockout lasts its time unless the address completes a handshake or is evicted at the cap |
| `HandshakeLimiter.LockoutLength` | src/usmp/_handshake.py:41-47 | a failure locks the address out if and only if its count is between 5 and 1028: for 1, 2, 4, 8, 16, 32 seconds and from the eleventh for a minute; beyond that the table stays as it was |
| `HandshakeLimiter.NeverLockedAgain` | src/usmp/_handshake.py:42-45 | an address at the last count is never locked out again by its own failures |
| `HandshakeLimiter.OthersResetTheCount` | src/usmp/_handshake.py:56-63 | a failure of another address resets this one's count if and only if its entry is ten minutes old or its lockout has passed, and that failure does not itself raise |
| `HandshakeLimiter.DroppedExactly` | src/usmp/_handshake.py:33-63 | a failure drops another address's record if and only if it is ten minutes old, past its lockout, or the oldest of a thousand; the others stay as they are |
| `HandshakeLimiter.BackoffGrows` | src/usmp/_handshake.py:43-45 | up to the 1028th failure, more failures never lock out for less, between one second and a minute |
| `TcpAdmission.Connections.constructor` | src/usmp/_server.py:75 | starts with no connections |
| `TcpAdmission.Connections.Sum` | src/usmp/_server.py:177 | the sum of the counts |
| `TcpAdmission.Connections.Connect` | src/usmp/_server.py:175-204 | admits exactly below both caps, then adds one to the address and changes no other |
| `TcpAdmission.Connections.Disconnect` | src/usmp/_server.py:306-311 | takes one from the address and drops its entry at zero |
| `TcpAdmission.CountsAreHandlers` | src/usmp/_server.py:175-204 | in every interleaving an address's entry is the number of its admitted handlers not yet cleaned up, no entry is zero or negative, and neither cap is exceeded |
| `TcpAdmission.AdmittedExactly` | src/usmp/_server.py:175-204 | in every interleaving a connection is admitted if and only if fewer handlers than the cap are running in all, and fewer than the cap of an address from its address |
| `UdpAdmission.Registry.constructor` | src/usmp/_server.py:80-82 | starts with empty tables |
| `UdpAdmission.Registry.OnHello` | src/usmp/transport/udp.py:446-474 | starts a handshake exactly when the address is free, not locked out and below both limits |
| `UdpAdmission.Registry.Decrement` | src/usmp/_server.py:217-221 | takes one from the counter and drops it at zero |
| `UdpAdmission.Registry.OnHandshakeDone` | src/usmp/_server.py:216-252 | promotes exactly below both session caps, replacing and reporting an earlier session of the address |
| `UdpAdmission.Registry.CleanUp` | src/usmp/_server.py:312-322 | removes only entries that name its own stream |
| `UdpAdmission.CountsAreHandshakes` | src/usmp/transport/udp.py:446-474 | in every interleaving an address's counter is the number of its handshake entries and of its handshaking handlers, at most three, never lingering at zero; all session and handshake caps hold |
| `UdpAdmission.HelloStartsExactly` | src/usmp/transport/udp.py:446-474 | in every interleaving a HELLO past its cookie starts a handshake if and only if its address is not locked out, no handler is handshaking with it, fewer than three are with its IP address and fewer than twice the session limit in all |
| `UdpAdmission.PromotedExactly` | src/usmp/_server.py:216-252 | in every interleaving a completed handshake becomes the session of its address if and only if both session limits leave room, and otherwise ends without a trace |
| `UdpAdmission.EndSparesOthers` | src/usmp/_server.py:319-322 | a handler that ends leaves every entry naming another stream, in either table, where it is |
| `UdpAdmission.EntriesStay` | src/usmp/_server.py:245-252 | in every interleaving a handshake entry goes exactly when its own handler ends or completes, and a session entry exactly when its own handler ends or a later handshake at that address replaces it |
| `UdpAdmission.SessionReached` | src/usmp/transport/udp.py:476-480 | in every interleaving a session datagram reaches the stream of the session at its address if and only if no handshake is in progress there |
| `UdpAdmission.HandshakeRouted` | src/usmp/transport/udp.py:394-403 | in every interleaving a datagram of a handshake type reaches the handshake in progress at its address or nobody, never a session |
| `UdpAdmission.HelloDiverts` | src/usmp/transport/udp.py:446-480 | a HELLO let in from the address of a live session takes over its datagrams at once, through every step until the new handler ends or completes |
| `CookieLimiter.Evict` | src/usmp/_server.py:150-154 | removes as many as exceed a thousand, none younger than one it keeps |
| `CookieLimiter.Limiter.constructor` | src/usmp/_server.py:84 | starts with no buckets |
| `CookieLimiter.Limiter.Allow` | src/usmp/_server.py:125-156 | the decision and the new table, pruning and eviction included |
| `CookieLimiter.TableBounded` | src/usmp/_server.py:140-154 | over any history the table holds at most a thousand entries; a refused call cannot add one |
| `CookieLimiter.LazyRefinesIdeal` | src/usmp/_server.py:131-149 | every decision on an address that eviction never hits is that of a bucket that forgets nothing, so pruning changes none |
| `CookieLimiter.RateBounded` | src/usmp/_server.py:127-138 | after any history, in any interval, such an address is allowed at most ten times plus five per second |
| `CookieLimiter.PacedAlwaysServed` | src/usmp/_server.py:131-138 | an address calling at most five times a second is never refused, whatever the others do |
| `CookieLimiter.AllowedExactly` | src/usmp/_server.py:125-156 | over any history in which eviction does not hit it, a call of an address is allowed if and only if, counting it, no interval from one of its calls has seen more than ten allowed calls and five per second |
| `CookieLimiter.BurstServed` | src/usmp/_server.py:127-138 | so an address whose calls in every interval number at most ten plus five per second is never refused |
| `CookieLimiter.FewNeverEvicted` | src/usmp/_server.py:140-154 | eviction hits nobody in a history in which at most a thousand addresses call |
| `CookieLimiter.KeptExactly` | src/usmp/_server.py:140-154 | which entries a call leaves: all, unless it is allowed and the table exceeds a thousand; then the full ones go and as many of the rest as still exceed it, oldest first |

## Left out

- Cryptographic primitives: X25519, HKDF, HMAC and the two ciphers are free constructors with the laws the protocol relies on; key lengths and secrecy of plaintext are not modelled.
- Sockets, listeners, event loop, signals, `stop`, client and transport wrappers, logging and the legacy reader/writer overloads: no logic of their own.
- The choice of PSK source: the handshake takes the resolved key or its absence.
- Cookies and their time buckets: one keyed hash compared in one branch; a HELLO that starts a handshake is taken to have passed it.
- Watchdog, receive timeouts and user callbacks: a `send` or `recv` may be given up at a suspension point, but no clock decides when.
- Suspension inside a method: the classes run each call to its end with write outcomes, arrivals, clock readings and acknowledgements as inputs; interleavings are the subject of the state machines.
- Where `oldest` entries tie, the choice among them is left open in both limiters.
- UdpDelivery.DeliveredIsPrefix: covers one direction of a first key epoch, with one reader, no abandoned `recv`, the control budget not exceeded and nothing after a `drain` that gives up. Altered or injected datagrams are excluded, because acknowledgements precede authentication; an epoch that follows a rekey is the subject of RekeyLosesMessages.
- UdpProgress.CanAlwaysFinish: speaks of a first epoch; for later ones `UdpReplay` gives runs that complete any list of operations.
- TcpPairing.AnyOperationPasses: starts where nothing is in flight; what a BYE does is stated by `RecvTurns.TurnDoes`.
- UdpDelivery.ReturnedMeansQueued: a BYE at the very last sequence number is not part of these runs.
- TcpPairing.StaysPaired: holds for runs without a BYE in which whoever rekeys has nothing on its way to it and a peer at a message boundary, nobody writes while a REKEY is on its way to it or reads inside its own rekey, no `send` is abandoned half-way and no `recv` given up half-way. A lemma shows for each of these six conditions what is lost without it: RekeyStrandsInbound, RekeyMidMessageFails, SealingBeforeReadingStrands, ReadingMidRekeyFails, in Interruptions AbandonedSendSplices, and in RecvCalls GivenUpOverTcp.
- UdpRekey.ReleasedExactly: follows a single REKEY, with no other frame of its own epoch in the responder's buffer.
- UdpReplay.MessagesExactly: if control frames are among the operations, a former frame with the type and number of one of them may or may not do harm; whether it does depends on where the delayed control frame then arrives, and is not characterised further.
- SendSchedule.SequenceGapFree: speaks of runs without a key change; numbers restart at zero after one.
- RecvCalls.CallsReturnMessages: every PONG it calls for is taken to be written, and the receiver's own sequence numbers to suffice for them.
- Handshake.ServerAgreement: a server counts as finished once it has installed its keys, just before it writes SESSION_OK.
- RetransmissionTimer.EstimatesBounded: over the reals, without floating-point rounding; the same holds for the token bucket and the lockout times, except that the overflow of the lockout's float power is modelled.

# ssh2, verified

This project models the parts of ssh2 whose correctness depends on the order in which things
happen: packets, callbacks, chunks of a stream, completions of reads and writes. Each part of the
code is written twice. A function says what one call or one message does to a value that holds the
object's fields; a class with those fields and methods does it step by step, with the loops, the
branches and the in-place updates of the JavaScript, and its contracts say that it does what the
function says. The theorems are about the functions, over every run.

- **Key exchange** (`KexModel`, `KexSafety`, `KexInvariant`, `KexDelivery`, `KexTheorems`,
  `KexAnyPeer`, `KexEndpoint`). Two ends that may both ask for new keys at any time, including at once; a FIFO
  stream in each direction; a host verifier that may answer late. A key is represented by what it
  is derived from. `KexAnyPeer` puts anything at all at the other end of a client.
- **Packets** (`Padding`, `Packets`, `FrameSpec`, `FrameChaCha`, `FrameGcm`, `FrameGeneric`,
  `CipherModes`, `FrameSwitch`, `FrameIntegrity`). Packets as the three native cipher classes write them, the
  incremental deciphers that put them together again from any chunks, and the change from one
  decipher to the next in the middle of a chunk. `FrameIntegrity` is about bytes that are not all the
  peer's. The cryptographic primitives are function parameters
  with inverse laws; `CipherModes` shows that any block cipher, in CBC mode or block by block,
  and any keystream with its beginning thrown away meet those of the generic classes.
- **Channels** (`ChannelModel`, `ChannelSafety`, `ChannelTheorems`, `ChannelStderr`, `ChannelClose`,
  `ChannelEndpoint`). Two `Channel` objects, windows, stalled writes, EOF and CLOSE. An application that gets control inside
  `push` may do anything there.
- **Channel ids and global requests** (`ChannelIds`, `GlobalRequests`, `ClientRequests`).
- **SFTP** (`SftpSend`, `SftpReceive`, `SftpStream`, `SplitIo`, `FastXfer`, `ReadPool`, `Attrs`). The
  send buffer behind the channel window, re-assembly of packets, large reads and writes in pieces,
  `fastXfer`, the buffer pool of `ReadStream`, attributes and NAME packets.
- **Agent** (`AgentReply`). The reader of an agent's answer, byte by byte.
- **Agreement** (`Negotiation`, `KeyDerivation`). KEXINIT payloads, the algorithms both ends agree
  on, the exchange hash and the keys derived from it.

`Common` holds bytes, optional values and 32-bit counters. Applications, the network, timers and
random values are parameters or nondeterministic steps.

`dafny verify dfyconfig.toml` checks everything.

## What does not hold

Where the code does not do what is wanted of it, the model keeps the code's behaviour; a lemma names
the input and another says exactly when it does hold.

- `rekey()` or any message sent before the other side's identification line has been read ends the
  connection at the peer (`KexTheorems.PrematureRekeyIsFatal`, `KexTheorems.PrematureSendIsFatal`).
  `KexSafety.Timely` excludes exactly these calls, and under it nothing of the kind happens.
- On a server channel a stderr write that stalls while the chunk of an earlier, completed stdout
  write is still kept makes the next window adjustment send stdout bytes again
  (`ChannelTheorems.StaleStallRepeats`, reached in `ChannelTheorems.StaleStallHappens`). It is the
  only event that disturbs the stream (`ChannelTheorems.KeepsWriter`).
- A stderr write that stalls while stdout keeps a chunk (which it does for good once a stdout write
  has stalled) is never taken up again (`ChannelStderr.ResumedUnlessChunk`,
  `ChannelStderr.NeverResumed`, reached in `ChannelStderr.StuckHappens`). What stderr the peer has
  got is still a prefix of what was written.
- The SFTP drain is not armed when the channel opens with no window, and a grant of nothing while the
  window is used up disarms it; then a later request overtakes the one that waits
  (`SftpSend.OpenedOk`, `SftpSend.GrantKeeps`, `SftpSend.OvertakenFromTheStart`,
  `SftpSend.OvertakenAfterNothingGranted`).
- `SFTP.write` reports the end of the data in its buffer, which is the number of bytes written only
  for data at offset 0 (`SplitIo.ReportedLength`).
- The client's handler of global requests lacks a parameter, so it answers by whether the request
  has a name rather than by whether a reply is wanted. The other end's callbacks are then called
  with the answers to their own requests exactly if the requests that want a reply are those with a
  name (`ClientRequests.AnswersMatch`); a keepalive that wants none takes the next callback
  (`ClientRequests.KeepaliveTakesTheNextCallback`).
- The channel manager can hand out the maximum id, which it then refuses to give back
  (`ChannelIds.QuickWaysAgree`, `ChannelIds.MaximumIsHandedOut`, `ChannelIds.MaximumStays`, reached in
  `ChannelIds.MaximumIsReached`).
- A name-list comes through KEXINIT unchanged exactly if no name has a comma in it and it is not one
  empty name (`Negotiation.NamesRoundTrip`).
- Of file attributes, an owner without a group (or the reverse) and one time without the other are
  dropped (`Attrs.NothingElseLost`).
- The part of the pool reserved for a read that fails is never used again (`ReadPool.FailedIsLost`).
- An agent's keys come out back to front (`AgentReply.ListIsReversed`), and a list is complete
  exactly if no key in it is empty (`AgentReply.CompleteUnlessEmptyKey`). A refusal counts only once
  another byte follows it (`AgentReply.RefusalNeedsAnotherByte`). A signature the agent breaks off is
  given to the caller as if it were whole (`AgentReply.CutSignatureIsPassedOn`).

## Model

| member | source | states |
|---|---|---|
| KexTheorems.NoProtocolError | lib/protocol/kex.js:1730-1776 | in every run of both ends, with rekeys asked for by either at any time, the only fault there can be is a denied host key: never an unexpected packet, an extra KEXINIT, a bad MAC or a bad signature |
| KexTheorems.NextPacketDecrypts | lib/protocol/kex.js:857-880 | whatever packet an end meets next was encrypted under the key and the sequence number (mod 2^32, never reset) its decipher is at, with the payload behind the header |
| KexTheorems.NothingLostOrRepeated | lib/protocol/Protocol.js:139-167 | payloads delivered, in flight and queued are together exactly the payloads submitted, in order and once each, over any number of exchanges |
| KexTheorems.ExchangesFinish | lib/protocol/kex.js:781-792 | once both ends have begun, nothing is in flight and no host verifier is still to answer, both ends are out of the exchange with matching keys and the same session id, and everything submitted has been delivered |
| KexTheorems.SessionIdNeverChanges | lib/protocol/kex.js:794-796 | the session id of an end, once set, is never replaced |
| KexTheorems.NothingOrdinaryInsideAnExchange | lib/protocol/utils.js:343-355 | over a whole run nothing ordinary is written between an end's own KEXINIT and its NEWKEYS |
| KexTheorems.RekeyBringsNewKeys | lib/protocol/Protocol.js:320-328 | an end that asks for new keys outside of an exchange, and in any continuation is outside of one again without an error, has written its KEXINIT and after it NEWKEYS |
| KexTheorems.PrematureRekeyIsFatal | lib/protocol/Protocol.js:320-328 | a rekey asked for before the peer's identification line has been read makes the peer fail with an extra KEXINIT |
| KexTheorems.PrematureSendIsFatal | lib/protocol/kex.js:1761-1769 | an ordinary message sent that early makes the peer fail with an unexpected packet |
| KexTheorems.RunGood | lib/protocol/kex.js:1209-1235 | the joint invariant of both ends and both streams holds after every run of timely steps |
| KexInvariant.KeepsQueued | lib/protocol/utils.js:343-355 | a message queued during an exchange keeps the joint invariant and is appended to what waits |
| KexInvariant.KeepsSentByClient | lib/protocol/utils.js:343-355 | a message sent at once keeps the joint invariant |
| KexInvariant.KeepsRekey | lib/protocol/Protocol.js:320-328 | a rekey by either end keeps the joint invariant, whatever the other is doing |
| KexDelivery.ClientTakesInit | lib/protocol/kex.js:471-482 | the peer's KEXINIT at a client, which may or may not have sent its own, keeps the joint invariant |
| KexDelivery.ServerTakesInit | lib/protocol/kex.js:471-482 | the same at a server |
| KexDelivery.ServerTakesDhInit | lib/protocol/kex.js:695-792 | the server's reply and NEWKEYS keep it |
| KexDelivery.ClientTakesReply | lib/protocol/kex.js:1092-1207 | the client's handling of the reply keeps it, for each verdict of the host verifier |
| KexDelivery.ClientTakesNewKeys | lib/protocol/kex.js:1209-1235 | NEWKEYS at the client keeps it: the keys are switched, or the verifier is waited for |
| KexDelivery.ServerTakesNewKeys | lib/protocol/kex.js:794-965 | NEWKEYS at the server keeps it: the keys are switched and the queue is drained |
| KexDelivery.KeepsAnswer | lib/protocol/kex.js:1164-1207 | a late acceptance of the host verifier keeps it |
| KexDelivery.EndFinishes | lib/protocol/kex.js:944-965 | what a client writes when it finishes: NEWKEYS under the old key, then all queued payloads under the new one, numbered on |
| KexAnyPeer.OnlyTheAcceptedHost | lib/protocol/kex.js:1160-1233 | whatever the peer and the network send and whenever the verifier answers, a client writes NEWKEYS only if the last ruling on the host key of this very exchange was an acceptance, NEWKEYS has come, and the signature is over its own KEXINIT, the one it read, the public key it sent and the one in the reply; its keys are then derived from that hash |
| KexAnyPeer.ExchangeEnds | lib/protocol/kex.js:1037-1242 | and an exchange ends exactly then: a refusal, at once or late, or a signature over anything else ends the connection with nothing written, and until either there is no NEWKEYS |
| KexAnyPeer.LateRefusal | lib/protocol/kex.js:1164-1176 | with both ends in order, a late refusal ends the client's connection with nothing written and changes nothing else |
| KexAnyPeer.FinishedMeansAccepted | lib/protocol/kex.js:1185-1207 | in every run of both ends a client outside of an exchange has accepted the host key in the last one, and its keys are derived from the hash the host signed |
| KexAnyPeer.NothingDeliveredInside | lib/protocol/kex.js:1761-1769 | an end in any state hands on exactly the ordinary payloads that decipher outside of an exchange; one within an exchange is fatal |
| KexAnyPeer.OutOfPlaceIsFatal | lib/protocol/kex.js:1037-1242 | within an exchange exactly the messages that are not the next of it are fatal, a second KEXINIT included |
| KexSafety.DrainPayloads | lib/protocol/Protocol.js:142-163 | draining writes exactly the queued payloads, in order |
| KexSafety.DrainStamped | lib/protocol/Protocol.js:142-163 | each drained payload is put at offset 5 under the new key with consecutive sequence numbers |
| KexEndpoint.Protocol.Send | lib/protocol/utils.js:343-355 | a message goes out or to the queue, as the function says |
| KexEndpoint.Protocol.Rekey | lib/protocol/Protocol.js:320-328 | nothing during an exchange, otherwise a new queue and KEXINIT |
| KexEndpoint.Protocol.DrainQueue | lib/protocol/Protocol.js:142-163 | the loop over the old queue is the recursive drain |
| KexEndpoint.Protocol.HandleKexInit | lib/protocol/kex.js:471-482 | its own KEXINIT first if need be, then a new exchange and, on a client, the first message of it |
| KexEndpoint.Protocol.Parse | lib/protocol/kex.js:1037-1242 | the three steps of an exchange |
| KexEndpoint.Protocol.ClientFinish | lib/protocol/kex.js:530-963 | signature, NEWKEYS, new keys, queue |
| KexEndpoint.Protocol.ServerFinish | lib/protocol/kex.js:530-965 | reply, NEWKEYS, and completion left for later |
| KexEndpoint.Protocol.OnKexPayload | lib/protocol/kex.js:1730-1776 | which message is let through during an exchange |
| KexEndpoint.Protocol.Receive | lib/protocol/Protocol.js:1938-1990 | one packet: decrypted under the current key and number, then handled |
| Padding.PaddingIsLeast | lib/protocol/crypto.js:419-436 | for every payload length and every power of two from 8 on, the padding aligns what is encrypted, is at least 4 and at most three more than a block, and no smaller padding does |
| Padding.AndMask | lib/protocol/crypto.js:179-194 | masking with a power of two less one leaves the remainder |
| Padding.PacketsPassTheirCheck | lib/protocol/crypto.js:1160-1175 | a packet passes the matching decipher's length check exactly if it is within the size limit, for every cipher class and for encrypt-then-MAC |
| Packets.PacketFits | lib/protocol/crypto.js:296-311 | a packet made by `allocPacket` has packet form, holds its payload at offset 5 and fits the receiver exactly within the limit |
| Packets.AllocPacket | lib/protocol/crypto.js:179-194 | length, padding length and padding of the allocated packet |
| Packets.MakePacket | lib/protocol/zlib.js:207-225 | the allocated packet with the payload from offset 5 on is the packet of that payload |
| Packets.SendGeneric | lib/protocol/crypto.js:419-482 | allocating, filling and encrypting with a generic cipher writes the packet sealed, whole blocks as the cipher needs them |
| Packets.PayloadComesThrough | lib/protocol/crypto.js:419-482 | a payload within the size limit is delivered under any cipher, and both ends have moved on alike |
| FrameSpec.ChunksDoNotMatter | lib/protocol/crypto.js:644-758 | feeding a stream chunk by chunk gives the same payloads, state and unread bytes as feeding it at once, for any chunks |
| FrameSpec.FeedInTwo | lib/protocol/crypto.js:644-758 | the same for one cut |
| FrameSpec.RoundTrip | lib/protocol/crypto.js:195-236 | sealed packets are delivered in order, and both ends' states and sequence numbers stay in step |
| FrameSpec.StopsAfter | lib/protocol/crypto.js:749-757 | when the handler returns false, exactly the bytes after that packet are left unread |
| FrameSpec.PayloadIsFramed | lib/protocol/crypto.js:740-742 | a deciphered packet has a payload exactly if it ends in as much padding as its first byte says, and the payload is what is between |
| FrameChaCha.CipherMatchesDecipher | lib/protocol/crypto.js:195-236 | the ChaCha20-Poly1305 cipher and decipher are inverse, length, tag and body |
| FrameChaCha.ChaChaPolyCipher.Encrypt | lib/protocol/crypto.js:195-236 | what is written for a packet is that packet sealed |
| FrameChaCha.ChaChaPolyDecipher.Decrypt | lib/protocol/crypto.js:644-758 | whatever has arrived before, the loop delivers, keeps and returns what feeding earlier and new bytes together gives |
| FrameGcm.CipherMatchesDecipher | lib/protocol/crypto.js:312-341 | the same pair for AES-GCM |
| FrameGcm.IncrementCounts | lib/protocol/crypto.js:1452-1462 | the counter in the IV counts and wraps around exactly when all its bytes are 255 |
| FrameGcm.IvsRepeat | lib/protocol/crypto.js:1452-1462 | two packets at most 2^64 apart are encrypted with the same IV exactly if they are that far apart |
| FrameGcm.IvIncrement | lib/protocol/crypto.js:1452-1462 | the carry loop over the bytes in place is that increment |
| FrameGcm.AESGCMCipher.Encrypt | lib/protocol/crypto.js:312-341 | the packet sealed, and the IV moved on |
| FrameGcm.AESGCMDecipher.Decrypt | lib/protocol/crypto.js:882-997 | as for ChaCha20-Poly1305, with the IV in step |
| FrameGeneric.EncryptThenDecrypt | lib/protocol/crypto.js:437-482 | whole blocks encrypted in the middle of a connection are deciphered to what they were |
| FrameGeneric.CipherMatchesDecipher | lib/protocol/crypto.js:437-482 | the generic cipher and decipher are inverse with either kind of MAC |
| CipherModes.CbcIsLawful | lib/protocol/crypto.js:62-69 | any block cipher in CBC mode, which puts out a block only when all of it has been fed, with any MAC long enough, is what the generic classes need |
| CipherModes.StreamIsLawful | lib/protocol/crypto.js:406-415 | so is any keystream of which both ends throw away the same number of bytes, and they are then in step |
| CipherModes.BlockwiseIsLawful | lib/protocol/crypto.js:73-75 | so is a block cipher applied to each block on its own |
| FrameGeneric.LengthOkIsTheCheck | lib/protocol/crypto.js:1168-1175 | the masked check is divisibility, negative numbers included |
| FrameGeneric.GenericCipher.Encrypt | lib/protocol/crypto.js:437-482 | the packet sealed, and the next packet is sealed for a decipher that has been fed this one |
| FrameGeneric.GenericDecipher.Decrypt | lib/protocol/crypto.js:1139-1279 | as for ChaCha20-Poly1305, through first block, body and MAC |
| FrameSwitch.ChunksDoNotMatterAcrossKeys | lib/protocol/Protocol.js:277-280 | any cut into chunks gives the same, however often the decipher is replaced in the middle of one |
| FrameSwitch.StreamRoundTrip | lib/protocol/Protocol.js:277-280 | a sender that changes its cipher after each NEWKEYS is read payload for payload |
| FrameSwitch.Conversation | lib/protocol/Protocol.js:277-280 | both together: any number of key changes, any chunks, every payload once and in order, no byte lost or read twice, both ends finishing with the same cipher state and sequence number |
| FrameSwitch.Protocol.Parse | lib/protocol/Protocol.js:277-280 | the loop hands the rest of a chunk to the new decipher and does what feeding says |
| FrameIntegrity.DeliveredIsPrefixOfSent | lib/protocol/crypto.js:725-757 | if no stretch of the bytes received has a right tag but the packets sent, each at its own place, then whatever else the bytes are and however they are cut, what is delivered is a prefix of what was sent, across any number of key changes |
| FrameIntegrity.WaitsForOnePacket | lib/protocol/crypto.js:660-673 | a receiver never waits with more than one packet of the permitted size: a longer one, or a whole one with a wrong tag, ends the connection |
| FrameIntegrity.SealedIsCovered | lib/protocol/crypto.js:195-236 | what is on the wire for a packet has the right tag, and each part of the packet the cipher covers is there encrypted |
| ChannelTheorems.CreditConserved | lib/Channel.js:156-198 | in every run the reader's window is the writer's plus data and grants on their way (at least that once the writer is gone), and both are between 0 and the maximum |
| ChannelTheorems.NoDataDropped | lib/client.js:497-517 | data never arrives at a closed id or without window for all of it, so the branch that drops it is never taken |
| ChannelTheorems.KeepsWriter | lib/Channel.js:156-198 | every event keeps sent bytes and kept chunk adding up to what was written, except exactly a stderr stall over a stale chunk |
| ChannelTheorems.ReceivedIsPrefixOfWritten | lib/Channel.js:186-193 | what the reader has is a prefix of what was written, and the chunk is exactly the unsent rest |
| ChannelTheorems.EverythingBeforeTheEnd | lib/Channel.js:200-212 | a reader that has seen EOF or CLOSE has everything, if the last write was completed |
| ChannelTheorems.OnlyTheReaderIsWaitedFor | lib/Channel.js:148-154 | a stalled writer with nothing in flight waits for the reader alone, whose next read grants the whole window and sets the write going from the first unsent byte |
| ChannelTheorems.LowWindowIsRemembered | lib/Channel.js:148-154 | in every run an end that has not sent and seen CLOSE and whose window is low has it remembered, so that its next read opens the whole window |
| ChannelTheorems.GrantsAreLarge | lib/Channel.js:278-286 | in every run each window adjustment gives back at least half of the window |
| ChannelTheorems.StaleStallRepeats | lib/client.js:542-565 | after a stderr stall over a stale chunk the next grant sends old stdout bytes again |
| ChannelTheorems.StaleStallHappens | lib/Channel.js:40-83 | such a stall is reachable |
| ChannelStderr.ErrIsPrefixOfWritten | lib/Channel.js:40-83 | in every run, whatever happens on stdout, the stderr bytes received are a prefix of those written, the kept rest is exactly the unsent one, and a reader that has seen EOF or CLOSE has all of a completed write |
| ChannelStderr.ResumedUnlessChunk | lib/server.js:757-782 | a grant takes up a stalled stderr write exactly if stdout keeps no chunk, and then as far as it reaches |
| ChannelStderr.OnlyTheClientIsWaitedFor | lib/Channel.js:148-154 | without a chunk of stdout and with nothing in flight, a stalled stderr write waits for the client's reader alone, whose next read grants the whole window and sets it going from the first unsent byte |
| ChannelStderr.NeverResumed | lib/server.js:757-782 | otherwise nothing of it is sent and it is not completed in any continuation of the run |
| ChannelStderr.StuckHappens | lib/Channel.js:71-78 | such a stall is reachable |
| ChannelStderr.KeepsErr | lib/Channel.js:40-83 | every event keeps sent bytes and kept rest adding up to what was written to stderr |
| ChannelTheorems.WalkMeansOrderly | lib/Channel.js:200-212 | the automaton of sent messages accepts exactly: no empty data, no data or second EOF after EOF, nothing but window adjustments after CLOSE |
| ChannelTheorems.CloseHandshake | lib/utils.js:28-61 | in every run each end keeps to that order, answers every CLOSE, and gives its id back exactly when it has seen CLOSE, having sent its own |
| ChannelClose.SentWhenAsked | lib/Channel.js:200-212 | in every run an end has sent CLOSE exactly if its application has closed the channel or the peer's CLOSE has arrived, EOF only if its application has ended what it writes, and after that EOF or CLOSE |
| ChannelClose.GivenBackWhenClosed | lib/utils.js:28-61 | in every run with nothing in flight an id has been given back exactly if one of the applications has closed the channel |
| ChannelSafety.PiecesFit | lib/Channel.js:169-182 | no message is empty or larger than the peer's packet size, and all but the last of a write are full |
| ChannelEndpoint.Channel.Write | lib/Channel.js:156-198 | the loop over position and window, the kept chunk and the callback |
| ChannelEndpoint.Channel.WriteErr | lib/Channel.js:40-83 | the same for stderr |
| ChannelEndpoint.Channel.AdjustWindow | lib/Channel.js:278-286 | when and by how much the window is opened |
| ChannelEndpoint.Channel.Reads | lib/Channel.js:148-154 | a read opens the window only after back-pressure and only when it is low |
| ChannelEndpoint.Channel.HandleData | lib/client.js:497-510 | the data handler up to `push` |
| ChannelEndpoint.Channel.HandleExtData | lib/client.js:518-541 | the same for stderr data, which a server ignores |
| ChannelEndpoint.Channel.PushReturned | lib/client.js:510-517 | the data handler after `push` |
| ChannelEndpoint.Channel.HandleAdjust | lib/client.js:542-565 | the window grows and a stalled write goes on |
| ChannelEndpoint.Channel.HandleEof | lib/client.js:613-626 | EOF counts once |
| ChannelEndpoint.Channel.HandleClose | lib/utils.js:28-61 | the answer, the states and the id |
| ChannelIds.NeverALiveId | lib/utils.js:127-160 | after any calls the count is that of the live ids, none is beyond the last one handed out, the next id is not live, and there is none exactly when all below the maximum are |
| ChannelIds.EachIdOnItsOwn | lib/utils.js:127-184 | after any calls, each id is registered with what the calls that name it or were given it have left there, whatever happened to the others |
| ChannelIds.QuickWaysAgree | lib/utils.js:131-152 | the fast paths agree with the search, except exactly when only the maximum is left |
| ChannelIds.MaximumIsHandedOut | lib/utils.js:131-133 | when the id handed out is one that can be given back |
| ChannelIds.MaximumStays | lib/utils.js:175-184 | the maximum, once handed out, stays live |
| ChannelIds.MaximumIsReached | lib/utils.js:127-160 | opening one channel after another comes to the states the two above are about |
| ChannelIds.ChannelManager.Add | lib/utils.js:127-160 | the three ways to an id, with the search loop |
| ChannelIds.ChannelManager.Remove | lib/utils.js:175-184 | when it throws, and what it changes |
| ChannelIds.ChannelManager.Cleanup | lib/utils.js:185-198 | everything is forgotten and what was registered handed on |
| GlobalRequests.EachCallbackOnce | lib/client.js:440-447 | in every run callbacks are called in the order of the requests, each once, with the outcome decided for its own request; with nothing on its way and everything decided, all have been |
| GlobalRequests.RequestsGoOut | lib/client.js:1068-1090 | in every run the requests on their way are the last ones made, without a gap, whether they want a reply or not |
| GlobalRequests.NobodyWaits | lib/client.js:724-729 | after the connection is gone every callback has been called |
| GlobalRequests.Server.SendReplies | lib/server.js:1243-1252 | exactly the replies ready at the front leave, in order |
| GlobalRequests.Server.OnRequest | lib/server.js:1132-1190 | a request that wants a reply takes its place in the queue, decided or not |
| GlobalRequests.Server.Decide | lib/server.js:1138-1142 | a decision fills its own place and lets go what is ready |
| GlobalRequests.Client.OnClose | lib/client.js:724-729 | the loop calls every waiting callback with the error |
| GlobalRequests.Client.OnReply | lib/client.js:440-447 | an answer calls the first waiting callback, if there is one |
| ClientRequests.AnswersMatch | lib/client.js:448-453 | in every run every answer goes to the callback of its own request if the requests that want a reply are those with a name; and once everything has arrived, they have and no callback is left exactly if so |
| ClientRequests.KeepaliveTakesTheNextCallback | lib/client.js:448-453 | a keepalive that wants no reply gets one, with which the callback of the next request is called |
| SftpSend.NothingLostOrReordered | lib/protocol/SFTP.js:2300-2369 | for any schedule of requests and positive grants, sent bytes and buffer are what was submitted, the buffer is empty unless the window is used up, and then the drain is armed |
| SftpSend.NoMoreThanAllowed | lib/protocol/SFTP.js:2309-2349 | on any schedule the bytes sent and the window left are together what the peer has allowed |
| SftpSend.GrantKeeps | lib/client.js:542-565 | a grant keeps this exactly if it leaves some window |
| SftpSend.OpenedOk | lib/protocol/SFTP.js:164-175 | it holds from the start exactly if the channel opens with some window |
| SftpSend.Overtaken | lib/protocol/SFTP.js:2309-2320 | what happens otherwise: a later request overtakes one that waits |
| SftpSend.OvertakenFromTheStart | lib/protocol/SFTP.js:164-175 | a schedule that does it on every channel opened with no window |
| SftpSend.OvertakenAfterNothingGranted | lib/client.js:542-565 | and one on every other, with a grant of nothing |
| SftpSend.SFTP.TryWritePayload | lib/protocol/SFTP.js:2309-2349 | the loop, the flags and what is returned |
| SftpSend.SFTP.SendOrBuffer | lib/protocol/SFTP.js:2300-2307 | sent whole or the rest buffered |
| SftpSend.SFTP.DrainBuffer | lib/protocol/SFTP.js:2351-2369 | the loop by index is draining from the front |
| SftpReceive.SFTP.Push | lib/protocol/SFTP.js:182-274 | whatever has arrived before, the packets in earlier and new bytes together are dispatched |
| SftpReceive.FramesRoundTrip | lib/protocol/SFTP.js:182-274 | framed packets come out as they went in |
| SftpReceive.WhatWasRead | lib/protocol/SFTP.js:182-274 | any bytes at all are the packets dispatched, each of a permitted length, framed, followed by part of one more, or by what was refused, or by a length that is not permitted |
| SftpStream.EndToEnd | lib/protocol/SFTP.js:182-274 | send buffer and re-assembly together: for any schedule, fragmentation and cut, and the channel closed at any point or not, the peer has dispatched a prefix of the requests made, and all of them once everything has been sent on an open channel and has arrived |
| SplitIo.WriteIsOneWrite | lib/protocol/SFTP.js:415-486 | the WRITE requests tile the data, each fits, they end, and the file is as after one write |
| SplitIo.FailureEndsWrite | lib/protocol/SFTP.js:461-479 | for any answers, the first failure is the result and nothing is sent after it; otherwise the write is as with good answers only |
| SplitIo.ReadIsOneRead | lib/protocol/SFTP.js:1762-1843 | a read that reports N bytes has the first N bytes of the file in their place and has changed nothing else; its requests tile and fit |
| SplitIo.FullRead | lib/protocol/SFTP.js:1762-1843 | from a server that gives all there is or says that there is nothing, a read of any size gets and reports the smaller of what was asked for and what the file has from there on |
| SplitIo.LastAnswer | lib/protocol/SFTP.js:1808-1828 | the end of the file ends a read with what the earlier requests asked for, all of which has come; an error is its result |
| SplitIo.OnlyErrorsFail | lib/protocol/SFTP.js:1808-1810 | for any answers a read fails only because of one that is an error |
| SplitIo.ReportedLength | lib/protocol/SFTP.js:474-477 | exactly when the length reported for a write is the number of bytes written |
| SplitIo.RequestsFit | lib/protocol/SFTP.js:435-450 | full pieces fit a packet exactly for handles of at most 2027 bytes |
| SplitIo.Writer.OnStatus | lib/protocol/SFTP.js:461-479 | the next request, the result or the error |
| SplitIo.Reader.OnAnswer | lib/protocol/SFTP.js:1792-1828 | data put into its place and the next request, the result or the error |
| FastXfer.TransferIsCorrect | lib/protocol/SFTP.js:1978-2049 | for any order of completions and any short reads the transfer never gets stuck, ends, is completed exactly once, and then the destination is the source |
| FastXfer.ReadKeeps | lib/protocol/SFTP.js:1978-1984 | a read keeps slots apart and in bounds, ranges disjoint, and what other slots hold |
| FastXfer.WriteKeeps | lib/protocol/SFTP.js:1986-2015 | a write keeps them, and every byte of the destination is unwritten exactly while it is still some slot's business or not taken yet |
| FastXfer.Transfer.constructor | lib/protocol/SFTP.js:1950-1960 | the buffer is shrunk and the first reads are started so that all of this holds, as many of them as were asked for or as there are full chunks |
| FastXfer.Transfer.StartReads | lib/protocol/SFTP.js:2036-2047 | the loop fills slots that are apart and in bounds |
| FastXfer.Transfer.WriteCb | lib/protocol/SFTP.js:1986-2015 | the rest of the chunk, completion, nothing, or the next chunk |
| ReadPool.NothingShared | lib/protocol/SFTP.js:3276-3345 | in every interleaving the memory of reads under way, reusable fragments, chunks consumers hold and the free tail is pairwise disjoint and allocated |
| ReadPool.DeliveredStays | lib/protocol/SFTP.js:3335-3343 | a chunk pushed to a consumer keeps its bytes for good |
| ReadPool.EveryAnswerIsDelivered | lib/protocol/SFTP.js:3335-3343 | in every run the data pushed to consumers is exactly that of the answers that had any, in order |
| ReadPool.EveryReadGetsRoom | lib/protocol/SFTP.js:3284-3300 | in every run a read that wants something is started, with all it wants or at least the least a pool is kept for |
| ReadPool.FragmentsFirst | lib/protocol/SFTP.js:3164-3170 | new memory is taken only when the pool is used up and no fragment is left |
| ReadPool.LittleIsLost | lib/protocol/SFTP.js:3318-3333 | of what a read had reserved and did not use, only bytes at either end go to alignment, unless the whole rest is too small to keep |
| ReadPool.FailedIsLost | lib/protocol/SFTP.js:3311-3316 | what a failed read had reserved is nobody's afterwards |
| ReadPool.CompleteOwners | lib/protocol/SFTP.js:3318-3333 | completing a read gives no byte an owner it did not have |
| ReadPool.Streams.StartRead | lib/protocol/SFTP.js:3276-3345 | reservation from the pool, a fragment or new memory |
| ReadPool.Streams.OnRead | lib/protocol/SFTP.js:3311-3343 | rewinding, or giving the rest back as a fragment |
| ReadPool.Streams.AllocNewPool | lib/protocol/SFTP.js:3164-3170 | the last fragment first, otherwise new memory |
| Attrs.NameRoundTrip | lib/protocol/SFTP.js:2550-2599 | any list of names with any attributes comes through a NAME packet, each entry with its own attributes |
| Attrs.AttrsRoundTrip | lib/protocol/SFTP.js:2230-2298 | attributes are read back as written, with anything after them untouched |
| Attrs.ReadsWhatIsThere | lib/protocol/SFTP.js:2230-2298 | from any bytes, attributes are read exactly if all the parts the flags promise are there, and each is what stands at its place |
| Attrs.NothingElseLost | lib/protocol/SFTP.js:2132-2165 | exactly what is lost: lone owners, groups and times |
| Attrs.DigitsOfU64 | lib/protocol/utils.js:60-80 | the eight bytes by division are what the 64-bit reader adds up, below 2^53 |
| Attrs.EncodeOffset | lib/protocol/SFTP.js:460-463 | dividing by 256 and masking writes the same eight bytes |
| Attrs.SFTP.AttrsToBytes | lib/protocol/SFTP.js:2111-2172 | flags and bytes left in the shared buffer |
| Attrs.SFTP.WriteName | lib/protocol/SFTP.js:1601-1711 | both loops, with every entry's attributes copied out of the shared buffer in time |
| Negotiation.BothEndsAgree | lib/protocol/kex.js:138-469 | each end handling the other's KEXINIT comes to the same: the same algorithms or a failure in the same category |
| Negotiation.NegotiatedRight | lib/protocol/kex.js:222-469 | what is agreed, stated without the procedure: the client's first choice the server has, a MAC left out exactly for AEAD ciphers; and a failure means that category is not left out and its lists share nothing, while all before it have a right choice |
| Negotiation.MacsFitCiphers | lib/protocol/kex.js:341-403 | in either direction a MAC is left out exactly for an AEAD cipher, and a missing common MAC is a failure only for a cipher that is none |
| Negotiation.InitRoundTrip | lib/protocol/kex.js:138-200 | the offer as the peer reads it, and exactly when that is the offer as it was |
| Negotiation.CutIsMalformed | lib/protocol/kex.js:165-190 | a KEXINIT cut off anywhere before the end of its lists is refused as malformed |
| Negotiation.NamesRoundTrip | lib/protocol/utils.js:101-106 | exactly which name-lists come through |
| Negotiation.FindAgreeable | lib/protocol/kex.js:233-246 | the search finds the first common name or that there is none |
| Negotiation.Handle | lib/protocol/kex.js:138-469 | the categories in turn, for either role |
| KeyDerivation.GenerateKexVal | lib/protocol/kex.js:1700-1728 | the loop gives the first bytes of K1, K2, ... as section 7.2 of RFC 4253 defines them, as many as asked for |
| KeyDerivation.AnyEnough | lib/protocol/kex.js:1700-1728 | however many blocks are made, if they are enough |
| KeyDerivation.ThreeBlocks | lib/protocol/kex.js:1700-1728 | the first three blocks, each hashed over all before it |
| KeyDerivation.ShorterIsPrefix | lib/protocol/kex.js:1700-1728 | a shorter key is the beginning of a longer one |
| KeyDerivation.ViewsPair | lib/protocol/kex.js:540-593 | mirrored views hash the same bytes and derive the same keys, with a MAC exactly for ciphers that do not authenticate |
| KeyDerivation.HashInputReads | lib/protocol/kex.js:551-593 | read as strings, what either end hashes is V_C, V_S, I_C, I_S, K_S, the client's and the server's public key and K, as section 8 of RFC 4253 has them |
| KeyDerivation.HashInputTellsApart | lib/protocol/kex.js:551-593 | a client and a server hash the same bytes exactly if all parts of their exchanges are the same |
| KeyDerivation.KeysAsSpecified | lib/protocol/kex.js:797-855 | each end in its own role derives IV, key and MAC key of either direction with the letters of section 7.2 of RFC 4253, as long as asked for, and none for the MAC of a cipher that authenticates |
| KeyDerivation.FinishedFromTranscript | lib/protocol/kex.js:794-880 | in a run of exchanges, both ends hash the same transcript with each part at the place of the side it is from, and finish from it |
| KeyDerivation.KeysPair | lib/protocol/kex.js:794-880 | over any number of exchanges, each end negotiating in its own role and using its own private key and session id: what one sends with is what the other receives with every time, the session id is the first exchange's hash for good, and an exchange fails at both ends in the same category or at neither |
| AgentReply.ReadInTwo | lib/agent.js:85-86 | however an agent's answer is cut, it is read the same |
| AgentReply.ListIsReversed | lib/agent.js:113-174 | a list of non-empty keys is complete with the last byte of the last key; every key is whole, and the first is in the last place |
| AgentReply.CompleteUnlessEmptyKey | lib/agent.js:113-174 | a whole answer with a list of keys is ever complete exactly if no key in it is empty |
| AgentReply.SignatureComesThrough | lib/agent.js:93-112 | a signature that is not empty is read as it was sent, whatever follows it |
| AgentReply.OtherKindsAreIgnored | lib/agent.js:85-185 | an answer that is no list, signature or refusal is never complete |
| AgentReply.RefusalNeedsAnotherByte | lib/agent.js:175-182 | exactly when a refusal is reported as one |
| AgentReply.CutSignatureIsPassedOn | lib/agent.js:187-196 | of a signature cut off, the caller is given the bytes that have arrived and others behind them |
| AgentReply.AgentSocket.OnData | lib/agent.js:85-185 | the loop over a chunk continues what earlier chunks have come to |

## Left out

- Sockets, DNS, timers, keepalive intervals, Node's streams and event emitters: back-pressure, reads and the order of callbacks are nondeterministic steps.
- OpenSSL, the native binding, the wasm Poly1305 and the zlib engine: uninterpreted functions with inverse laws; only the native cipher classes are modelled, compression is none.
- The unencrypted decipher: its packet is allocated again for every chunk (lib/protocol/crypto.js:585), so a packet cut into three pieces is not read back.
- The identification line: lib/protocol/Protocol.js:1932 keeps only the first fragment of one that arrives in several.
- In the key exchange model the algorithms are taken as agreed (Negotiation models the agreement), computing the secret succeeds, and the messages IGNORE, DEBUG, UNIMPLEMENTED and DISCONNECT are not sent during an exchange.
- Group exchange, the estimate of its size, the removal of it for old peers, and a first exchange packet that follows KEXINIT.
- A run ends with the first fatal error of either end.
- SftpReceive.SFTP.Push: a length of 2^31 or more, which comes out negative, is refused at once; the source throws one byte later.
- FastXfer.TransferIsCorrect: chunk size and concurrency are whole numbers, the file has at least one byte and does not shrink, and nothing fails; the error path is not modelled.
- SplitIo.ReadIsOneRead: the third argument of the callback (lib/protocol/SFTP.js:1821-1825) is not modelled; the server answers with bytes of one file.
- SplitIo.OnlyErrorsFail: `readFile` asks to be told of the end of the file as an error (lib/protocol/SFTP.js:581), which other reads do not.
- SplitIo.WriteIsOneWrite: the caller does not change its buffer while the write is under way.
- ChannelTheorems.ReceivedIsPrefixOfWritten: about stdout; `ChannelStderr` has the same for stderr.
- Session objects of the server, which stand in front of a channel, and SFTP objects in the close handshake, which lib/utils.js:52 exempts from answering.
- Channel requests and their replies, opening a channel, terminal modes.
- ReadPool: memory is handed out at ever new addresses, as Node hands out buffers still in use by someone.
- Attrs.NameRoundTrip: strings are bytes already in UTF-8; extended attributes and 64-bit integers beyond 2^53 are not written.
- AgentReply.ListIsReversed: for lengths and counts below 2^31; a larger one is negative in the source, where allocating throws.
- User authentication, host key and agent key formats, signature conversion, the agent's requests, HTTP agents, Pageant.
- The remaining SFTP requests and responses, which are encoded in the same way.

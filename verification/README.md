# Quick Share for BB10: protocol and discovery proofs

This project models the two halves of the application that carry its promises and proves them.

**The transfer protocol.** `ProtoWire` is the protobuf codec, `Framing` the length-prefixed frames over a
byte stream with short reads, `Keys` and `KeyAgreement` the UKEY2 key arithmetic, `SecureChannel` the sealed
message layer, `Frames` and `FrameBuilders` the frames inside it. `Receiver` and `Sender` describe, on values,
one step of each program; `ReceiverSession` and `SenderSession` hold the classes whose methods update their
fields in place and are proved to take exactly those steps. What the steps do is then said on the bytes that
arrive: `FrameReading` tells for each parser which bytes it accepts, `FrameForms` what each frame says,
`ReceiverOutcomes` and `SenderOutcomes` how each kind of frame ends a turn. On top of the step functions stand
the results over whole runs: what the receiver leaves on disk (`ReceiverSafety`, `ReceiverContents`,
`ReceiverRuns`), which chunks it takes (`ReceiverChunks`), what it answers (`ReceiverAnswers`), what it must have
seen to have keys (`HandshakeRuns`), reassembly (`Interleaving`), what an unreliable channel can do
(`PrefixRuns`), every interleaving of the two handshakes (`HandshakeFrames`, `HandshakeStates`, `HandshakeSteps`,
`Handshake`), the delivery of the files (`Exchange`, `Announcement`, `Delivery`), and all of it together, for a
yes and for a no (`Transfer`).

**mDNS discovery.** `DnsName` is the name writer and the pointer-following reader, `DnsPacket` the walk over a
packet and the response builder, `DnsReading` what the walk reads byte by byte, `DnsResponse` the round trip of
the two, `DiscoveryStore` the cache as one store of records, `DiscoveryCache` the class with the nine parallel
maps that refines it, `DiscoveryRuns` and `DiscoveryHistory` the results over histories of packets, expiries and
scans, `DeviceList` the deduplicated list shown to the user, and `Base64` the encoding of the endpoint
information.

Conventions. The crypto library is a record of functions (`Primitives`) with the laws the protocol needs
(`Lawful`): decryption undoes encryption, ECDH agrees, hashes have their sizes; `Crypto.LawsAreConsistent` shows
that the laws can be met, and `Possible.EndsExist` that all conditions of the end-to-end result can be met at
once. Random draws, clocks, the order in which hash tables are walked, reads that return less than asked for,
full disks and broken links are parameters or arbitrary choices, so that every lemma holds for all of them. Byte
strings are `seq<byte>`; 64-bit fields, 32-bit casts and truncating division are written out where the programs
rely on them.

Three results say that the code does something other than one may expect:

* The redraw loop for payload identifiers (`PickPayloadId`) never clears its flag. It ends if and only if the
  first draw does not collide, however good the later draws are; `Sender.RedrawDoesNotHelp` is such a case.
* `appendRecord` passes the 32-bit TTL through a 16-bit variable and writes four bytes from there. On a
  little-endian host the first two are the high half of the TTL and the other two come from beyond the variable.
  The round trip of responses holds for any four bytes; an instance resolves if and only if the service, text and
  address records got TTLs other than zero (`DiscoveryRuns.AdvertisementResolves`, which has a second condition for
  a host with a cached address), and `DiscoveryRuns.ZeroTtlDoesNotResolve` is a response for which it does not.
* A truncated packet changes the cache but is not published: `DiscoveryStore.ParseMeaning` gives the exact
  condition for publishing, and `DiscoveryRuns.TruncatedUnpublished` is such a packet.

## Model

| member | source | states |
|---|---|---|
| ProtoWire.ParseEncode | src/ProtoWire.cpp:10-137 | Reading what the append functions wrote yields exactly the fields written, in order, and the reader stays valid. |
| ProtoWire.BytesAt | src/ProtoWire.cpp:90-101 | On written data the lookup returns the first bytes field of its number, whatever comes before or after under other numbers. |
| ProtoWire.VarintAt | src/ProtoWire.cpp:77-88 | The same for varints, for every 64-bit value: first match wins. |
| ProtoWire.EncodeSize | src/ProtoWire.cpp:115-137 | Each field costs at most twenty bytes beyond its contents, and never less than its contents. |
| ProtoWire.VarintMeaning | src/ProtoWire.cpp:10-23 | On arbitrary bytes a varint is read exactly where at most ten groups end, and as their number, low group first, cut to 64 bits. |
| ProtoWire.GroupsMeaning | src/ProtoWire.cpp:115-124 | What is written for a number are groups that denote it, with none to spare. |
| ProtoWire.FixedSkipped | src/ProtoWire.cpp:43-60 | A field of eight or four bytes changes no lookup behind it. |
| ProtoWire.Unreadable | src/ProtoWire.cpp:36-74 | Wire types 3, 4, 6 and 7, and a length beyond the data, turn the reader invalid at once. |
| ProtoWire.Reader.ReadVarint | src/ProtoWire.cpp:10-23 | The shifting loop over arbitrary bytes reads the little-endian groups of seven up to ten of them, never leaves the data, and turns the reader invalid exactly when there is no varint. |
| ProtoWire.Reader.Next | src/ProtoWire.cpp:25-75 | On arbitrary bytes the reader takes the next well-formed field or turns invalid; once invalid it stays so, and it never moves back. |
| ProtoWire.Reader.ReadContent | src/ProtoWire.cpp:36-74 | Each wire type consumes its own content and nothing out of bounds; unknown wire types are refused. |
| ProtoWire.FindVarint | src/ProtoWire.cpp:77-88 | The loop over a reader returns the first varint field of the number before the end or the first malformed field; it terminates on every input. |
| ProtoWire.FindBytes | src/ProtoWire.cpp:90-101 | The same for length-delimited fields. |
| ProtoWire.FindAll | src/ProtoWire.cpp:103-113 | All length-delimited fields of the number, in order. |
| ProtoWire.RawVarint | src/ProtoWire.cpp:115-124 | Appends the groups of seven bits, least significant first. |
| ProtoWire.AppendVarint | src/ProtoWire.cpp:126-130 | Appends one field to the encoded message. |
| ProtoWire.AppendBytes | src/ProtoWire.cpp:132-137 | Appends one length-delimited field to the encoded message. |
| Framing.StreamRoundTrip | src/QuickShareSession.cpp:163-186 | From the stream of any frames the reader recovers exactly those before the first of size 0 or above 5 MiB; all of them if and only if all are acceptable. |
| Framing.FrameMeaning | src/QuickShareSession.cpp:163-175 | On arbitrary streams a frame is taken exactly if its size stands before it in four bytes, high one first, and is between 1 byte and 5 MiB; another size is refused. |
| Framing.SizeWritten | src/QuickShareSession.cpp:177-186 | So the size is written. |
| Framing.Socket.ReadFrame | src/QuickShareSession.cpp:163-175 | However the stream is cut into short reads, one frame is taken as from the whole stream. |
| Framing.Socket.SendFrame | src/QuickShareSession.cpp:177-186 | However the socket cuts the writes, the length and the frame go out in full. |
| Framing.Socket.ReceiveExact | src/QuickShareSession.cpp:126-143 | Succeeds if and only if so many bytes will come, and returns exactly those. |
| Framing.Socket.SendAll | src/QuickShareSession.cpp:145-161 | Every byte goes out, in order. |
| Keys.ComputeHkdf | src/QuickShareSession.cpp:198-212 | The counter loop computes extract-and-expand (sections 2.2 and 2.3 of RFC 5869) for every size up to 255 blocks; the one-byte counter does not wrap before that. |
| Keys.HkdfSize | src/QuickShareSession.cpp:198-212 | The result has the size asked for. |
| Keys.HkdfMeaning | src/QuickShareSession.cpp:198-212 | The result is the beginning of T(1), T(2), ... of section 2.3 of RFC 5869, for any sequence of blocks that obeys its equations. |
| Keys.PinHashMeaning | src/QuickShareSession.cpp:688-697 | Under truncating remainder the hash stays within 9972 either way and is congruent to the sum of signed byte i times 31 to the i, modulo 9973. |
| Keys.ComputePinHash | src/QuickShareSession.cpp:688-697 | The loop computes that hash, and its int arithmetic never overflows. |
| Keys.ComputePin | src/QuickShareSession.cpp:688-697 | The PIN is the absolute hash in four digits. |
| Keys.PinMeaning | src/QuickShareSession.cpp:688-697 | The four characters are decimal digits and denote the absolute hash. |
| Keys.NormalizeMeaning | src/QuickShareSession.cpp:384-389 | A received coordinate is accepted exactly when its value fits in 32 bytes, and keeps that value. |
| Keys.CoordinateRoundTrip | src/QuickShareSession.cpp:279-287 | Sign byte, stripping and padding cancel out for every coordinate of the curve's field size, zero included. |
| Keys.NormalizeCoordinate | src/QuickShareSession.cpp:384-389 | The stripping loop and the padding compute the normal form. |
| KeyAgreement.ComputeAgreement | src/QuickShareSession.cpp:407-436 | From the shared secret to the PIN and the four keys. |
| KeyAgreement.AgreementMeaning | src/QuickShareSession.cpp:391-436 | An agreement exists exactly with a point on the curve whose ECDH succeeds; PIN and keys are then the stated nestings of single HMACs over the padded, hashed secret. |
| KeyAgreement.PublicRoundTrip | src/QuickShareSession.cpp:349-356 | The peer reads back the very point a side put into its GenericPublicKey. |
| KeyAgreement.AgreementsMatch | src/QuickShareSender.cpp:386-441 | Each side, from its own secret and the other's point, derives the same PIN and the same two directions of keys. |
| SecureChannel.SealOffline | src/QuickShareSession.cpp:483-510 | Builds the SecureMessage under IV, sequence number and HMAC. |
| SecureChannel.DecryptOffline | src/QuickShareSession.cpp:512-532 | Opens a message exactly when `Open` does, whose meaning is the next row; the counter moves exactly when the number inside was compared. |
| SecureChannel.OpenMeaning | src/QuickShareSession.cpp:512-532 | A message opens, and to this plaintext, if and only if its field 2 is the HMAC of its field 1 under the direction's key, the ciphertext beside the header in field 1 decrypts under the IV named there, and what comes out holds the plaintext and the next sequence number. |
| SecureChannel.OnlyAuthentic | src/QuickShareSender.cpp:508-522 | Whatever else it holds, a message with another MAC does not open. |
| SecureChannel.SealOpen | src/QuickShareSession.cpp:483-532 | The message sealed under number n opens if and only if n - 1 have been accepted, and then to what was sealed. |
| SecureChannel.PrefixSafety | src/QuickShareSession.cpp:512-532 | If every delivered message whose field 2 is the MAC of its field 1 has a field 1 that the peer built, the accepted plaintexts are a prefix of those sent, whatever is dropped, repeated, reordered, rewrapped or inserted. |
| SecureChannel.ChannelDelivers | src/QuickShareSession.cpp:483-532 | A faithful channel delivers every message. |
| PrefixRuns.ReceiverPrefix | src/QuickShareSession.cpp:925-1023 | Prefix safety of the receiver's whole event loop: what it acts on in any run is a prefix of what the sender sealed. |
| PrefixRuns.SenderPrefix | src/QuickShareSender.cpp:508-572 | The same for the sender's run. |
| HandshakeRuns.ForgedEndsReceiver | src/QuickShareSession.cpp:925-943 | In any run, a frame whose MAC is wrong is not acted on: the run returns false with the session as it was, unless the user's answer or the timeout ends it first. |
| HandshakeRuns.ForgedEndsSender | src/QuickShareSender.cpp:557-572 | Nor does the sender act on one, in the handshake or between two chunks. |
| HandshakeRuns.OnlyCommitted | src/QuickShareSession.cpp:438-449 | Over every run and whoever the peer is: a session with a PIN, keys or sealed traffic got as third frame a ClientFinish whose SHA-512 is the commitment for cipher 100 in the second, and its PIN and keys are those agreed with the point in that frame. |
| HandshakeRuns.SubstituteRefused | src/QuickShareSession.cpp:446-447 | In any run, a third frame that the second has not committed to ends it with false; no PIN, no keys, nothing sent. |
| HandshakeRuns.SenderKeyed | src/QuickShareSender.cpp:386-441 | The sender goes past ServerInit exactly on cipher 100 with a point on the curve, with the PIN and keys agreed over its own ClientInit and that frame. |
| Frames.DataFrameFits | src/QuickShareSender.cpp:798-812 | A file-data frame with a chunk of up to 64 KiB and a name of almost 5 MiB is, after every layer, between 1 byte and 5 MiB. |
| Frames.DataFrameCarries | src/QuickShareSender.cpp:524-546 | What the receiver parses out of a data frame is the packet put in. |
| Frames.LastFrameCarries | src/QuickShareSender.cpp:547-555 | What the receiver parses out of a closing frame is an empty last packet at its offset. |
| FrameBuilders.MakeSharingFrames | src/QuickShareSession.cpp:534-570 | The two offline frames of a byte payload. |
| FrameBuilders.ReadPublic | src/QuickShareSession.cpp:375-389 | Reads the point of a GenericPublicKey or refuses it. |
| FrameReading.RequestMeaning | src/QuickShareSession.cpp:289-309 | The connection requests accepted, on arbitrary bytes, field by field. |
| FrameReading.CommitmentMeaning | src/QuickShareSession.cpp:323-332 | The commitment taken is the first in the list that is for cipher 100 and present; none if there is none. |
| FrameReading.InitMeaning | src/QuickShareSession.cpp:311-335 | The ClientInit frames accepted: kind, version, a nonce of 32 bytes, the one protocol, and a commitment of 64 bytes. |
| FrameReading.FinishMeaning | src/QuickShareSession.cpp:438-445 | The ClientFinish frames accepted and the key they carry. |
| FrameReading.PublicMeaning | src/QuickShareSession.cpp:375-389 | An EC key is accepted exactly if it is of kind 1 and both coordinates, leading zeros dropped, fit in 32 bytes; it is then that point. |
| FrameReading.ResponseMeaning | src/QuickShareSession.cpp:464-468 | The connection responses accepted. |
| FrameReading.SharingMeaning | src/QuickShareSession.cpp:785-790 | Kind and body of a sharing frame. |
| FrameReading.OfferMeaning | src/QuickShareSender.cpp:386-404 | The ServerInit frames accepted: kind, version, cipher 100 and a readable key. |
| FrameReading.VerdictMeaning | src/QuickShareSender.cpp:461-480 | The receiver agrees if its decision is 1, or if it has none and the legacy status is present and zero; it promises a safe disconnection if field 7 is positive. |
| FrameReading.DecisionMeaning | src/QuickShareSender.cpp:745-755 | The user's yes is a response of kind 2 with status 1. |
| FrameReading.CancelMeaning | src/QuickShareSender.cpp:757-782 | Between two chunks exactly kind 6, and what has no kind, stops the sender. |
| FrameReading.OfflineMeaning | src/QuickShareSession.cpp:925-943 | An offline frame is told apart by its kind: 3 for a transfer, 5 for a keep-alive, 6 for a disconnection. |
| FrameReading.PacketMeaning | src/QuickShareSession.cpp:865-889 | The packets accepted, field by field; the body may be missing. |
| FrameReading.ControlMeaning | src/QuickShareSender.cpp:574-600 | The same for the sender, which does not ask for the payload kind. |
| FrameForms.SealSays | src/QuickShareSession.cpp:483-510 | A sealed message names its schemes, IV and metadata, carries the right MAC, and holds frame and number. |
| FrameForms.ServerInitSays | src/QuickShareSession.cpp:349-372 | ServerInit names version, nonce and cipher 100 and presents the receiver's own point. |
| FrameForms.ClientFramesSay | src/QuickShareSender.cpp:346-384 | ClientFinish presents the sender's own point; ClientInit carries the nonce and commits to ClientFinish. |
| FrameForms.ConnectionResponsesSay | src/QuickShareSender.cpp:448-459 | The fields of both ends' connection responses. |
| FrameForms.PairedSays | src/QuickShareSession.cpp:572-597 | The fields of the paired-key frames, the same at both ends. |
| FrameForms.PayloadHeaderSays | src/QuickShareSender.cpp:784-840 | Identifier, kind, size and name in the header of a payload. |
| Destination.SafeDestination | src/QuickShareSession.cpp:653-677 | Ends for every finite set of taken paths and returns the plain name or the first free numbered one, neither on disk nor reserved, and reserves it. |
| Destination.Pigeonhole | src/QuickShareSession.cpp:665-676 | The numbered candidates are injective, so more candidates than taken paths cannot all be taken. |
| Destination.ChosenInside | src/QuickShareSession.cpp:653-677 | Whatever name the peer announces, the destination is a plain leaf of the download directory. |
| Destination.FirstFreeName | src/QuickShareSession.cpp:653-677 | A leaf that is free keeps its name; else it gets the first free number from 1 on, all before it being taken. |
| Destination.NumberedName | src/QuickShareSession.cpp:664-671 | The number stands in brackets before the last dot and what follows it, or at the end if there is no dot. |
| Destination.DecimalValue | src/QuickShareSession.cpp:668-669 | The digits of the number denote it. |
| Destination.LeafOnly | src/QuickShareSession.cpp:656 | Only what follows the last slash of the announced name counts. |
| Interleaving.PayloadIsItsChunks | src/QuickShareSession.cpp:890-922 | For any interleaving under many identifiers, a completed payload is the concatenation of its own chunks, of the declared size, and its buffer is free again. |
| Interleaving.BuffersArePending | src/QuickShareSession.cpp:890-922 | After any interleaving each buffer holds exactly its own pending bodies. |
| Interleaving.OthersDoNotMatter | src/QuickShareSession.cpp:890-922 | Chunks of other payloads make no difference to a payload. |
| Interleaving.SharingFrameIsItsChunks | src/QuickShareSender.cpp:601-629 | The same for the sender's control payloads. |
| ReceiverSafety.StepKeeps | src/QuickShareSession.cpp:961-1024 | Every turn of the loop and every answer of the user keep the invariants of memory, disk and counters. |
| ReceiverContents.StepFollowed | src/QuickShareSession.cpp:819-863 | Every event keeps open and finished files equal to the bodies accepted for them so far. |
| ReceiverRuns.FinalDisk | src/QuickShareSession.cpp:98-110 | After any run and the destructor: the disk is the initial one plus exactly the files whose declared size was received in full, each equal to the bodies accepted for it in order, each body lying at the offset that its frame named; no partial file is left and none that was there before has changed. |
| ReceiverRuns.CountersHold | src/QuickShareSession.cpp:819-923 | The buffered-bytes counter is the sum of the buffers, each at most 5 MiB and at most 8 MiB together; received bytes plus bytes still due are the total from the question on. |
| ReceiverRuns.ConsentGate | src/QuickShareSession.cpp:970-997 | Nothing is created or written unless accept ran while this session's question was pending. |
| ReceiverRuns.TrueMeansComplete | src/QuickShareSession.cpp:961-1024 | The run returns true only when declined or timed out with nothing written, or with every introduced byte received. |
| ReceiverChunks.FilePayloadTaken | src/QuickShareSession.cpp:819-863 | In any run, a sealed chunk of a file goes on if and only if it names the declared total and the offset where the file on disk ends, fits into size and disk, and, if marked last, completes the file; any other makes the run return false, and one at another offset writes nothing. |
| ReceiverAnswers.AcceptanceNeedsConsent | src/QuickShareSession.cpp:970-997 | Over every run, a sharing frame that would make the peer send is among the messages sealed only if accept ran while this session's question was pending. |
| ReceiverOutcomes.NoFrameOutcome | src/QuickShareSession.cpp:998-1023 | A poll that times out ends the run only when files have been silent too long; the end of the stream always does, with true exactly if files were coming in and none is missing. |
| ReceiverOutcomes.FrameOutcome | src/QuickShareSession.cpp:925-943 | How a turn ends on a frame that opens, for every kind of offline frame, malformed ones included. |
| ReceiverOutcomes.OtherPackets | src/QuickShareSession.cpp:879-889 | A packet that is neither of a file nor of bytes, or whose offset has 64 bits, is refused. |
| ReceiverOutcomes.BytesOutcome | src/QuickShareSession.cpp:890-922 | A packet of bytes that does not fit its buffer, its payload or the memory is refused and touches neither files nor disk; one that fits is kept, and the last hands the payload to the announced text of its identifier or else to the sharing frames. |
| ReceiverOutcomes.SharingOutcome | src/QuickShareSession.cpp:785-817 | In every state: no kind or a cancellation ends the run, so does the awaited frame without its field, and a frame that is not awaited is passed over. |
| ReceiverOutcomes.IntroductionMeaning | src/QuickShareSession.cpp:699-783 | An introduction leads to the question if and only if all entries are readable with new and different identifiers, no text is above 5 MiB, the sizes do not overflow, there is an entry, the disk has room, and no other question is pending; exactly those entries are then listed with their sizes. |
| ReceiverSession.QuickShareSession.Run | src/QuickShareSession.cpp:961-1024 | The event loop takes the steps of the state machine. |
| ReceiverSession.QuickShareSession.CheckConsent | src/QuickShareSession.cpp:970-997 | The consent check at the top of the loop: opens in hash order, answers, or declines. |
| ReceiverSession.QuickShareSession.ProcessEncryptedFrame | src/QuickShareSession.cpp:925-943 | Decrypts and dispatches one frame. |
| ReceiverSession.QuickShareSession.ProcessPayloadTransfer | src/QuickShareSession.cpp:865-923 | Parses a transfer and acts on it. |
| ReceiverSession.QuickShareSession.TakeChunk | src/QuickShareSession.cpp:890-922 | One chunk of a byte payload: the buffers, the counter and the outcome. |
| ReceiverSession.QuickShareSession.ProcessIncomingFile | src/QuickShareSession.cpp:819-863 | One chunk of a file: offset and size checks, the write, the counters, the end of the file. |
| ReceiverSession.QuickShareSession.ProcessSharingFrame | src/QuickShareSession.cpp:785-817 | The sharing states from paired encryption to introduction. |
| ReceiverSession.QuickShareSession.ProcessIntroduction | src/QuickShareSession.cpp:699-783 | Builds the pending files with distinct destinations, sums their sizes without overflow, and asks. |
| ReceiverSession.QuickShareSession.ProcessConnectionRequest | src/QuickShareSession.cpp:289-309 | Accepts exactly the well-formed requests. |
| ReceiverSession.QuickShareSession.ProcessClientInit | src/QuickShareSession.cpp:311-373 | Records the commitment and answers with ServerInit. |
| ReceiverSession.QuickShareSession.ProcessClientFinish | src/QuickShareSession.cpp:438-449 | Checks the commitment and derives the keys. |
| ReceiverSession.QuickShareSession.DeriveKeys | src/QuickShareSession.cpp:375-436 | The receiver's directions of the agreement. |
| ReceiverSession.QuickShareSession.ProcessClientConnectionResponse | src/QuickShareSession.cpp:464-481 | Answers in the clear and opens the sealed channel. |
| ReceiverSession.QuickShareSession.SendEncryptedOffline | src/QuickShareSession.cpp:483-510 | Seals under the next sequence number and sends. |
| ReceiverSession.QuickShareSession.SendSharingFrame | src/QuickShareSession.cpp:534-570 | A data chunk and an empty last chunk. |
| ReceiverSession.QuickShareSession.BeginConsent | src/ShareService.cpp:1216-1227 | Refuses exactly while a question is pending, and otherwise makes it pending. |
| ReceiverSession.QuickShareSession.AcceptTransfer | src/ShareService.cpp:1244-1249 | Has an effect only on a pending question. |
| ReceiverSession.QuickShareSession.RejectTransfer | src/ShareService.cpp:1251-1256 | Has an effect only on a pending question. |
| ReceiverSession.QuickShareSession.FinishConsent | src/ShareService.cpp:1235-1242 | Leaves no question pending. |
| ReceiverSession.QuickShareSession.Destroy | src/QuickShareSession.cpp:98-110 | Closes and removes what is still open, and resets the slot. |
| Sender.WithIdsDistinct | src/QuickShareSender.cpp:713-725 | When no first draw collides the identifiers are pairwise distinct. |
| Sender.RedrawDoesNotHelp | src/QuickShareSender.cpp:713-725 | A concrete case in which the loop never ends although every later draw is free. |
| SenderSession.QuickShareSender.PickPayloadId | src/QuickShareSender.cpp:713-725 | The do-while loop ends, within any number of turns, if and only if its first draw does not collide. |
| SenderSession.QuickShareSender.SendIntroduction | src/QuickShareSender.cpp:697-743 | Numbers the files in place and sends the introduction, or hangs exactly when some first draw collides. |
| SenderSession.QuickShareSender.Open | src/QuickShareSender.cpp:322-384 | The two opening frames, ClientFinish being built first and committed to. |
| SenderSession.QuickShareSender.ProcessServerInit | src/QuickShareSender.cpp:386-459 | Derives the keys from ServerInit and sends ClientFinish and ConnectionResponse. |
| SenderSession.QuickShareSender.ProcessConnectionResponse | src/QuickShareSender.cpp:461-480 | A decision wins over the legacy status; with neither, the connection is refused. |
| SenderSession.QuickShareSender.SendEncryptedOffline | src/QuickShareSender.cpp:482-506 | Seals under the next sequence number and sends. |
| SenderSession.QuickShareSender.TakeControlChunk | src/QuickShareSender.cpp:601-629 | One chunk of a control payload. |
| SenderSession.QuickShareSender.ProcessReceivedOffline | src/QuickShareSender.cpp:574-630 | One offline frame of the receiver. |
| SenderSession.QuickShareSender.React | src/QuickShareSender.cpp:949-984 | What the run does with each frame it waits for, in order: the files stay unnumbered until the introduction, which numbers them or hangs, exactly on a collision. |
| SenderSession.QuickShareSender.Run | src/QuickShareSender.cpp:918-984 | The whole run on any frames: it opens, takes frames until it may send, sends the files and the goodbye, or stops where the step functions say; it succeeds only if no first draw collides, and hangs only if one does. |
| SenderSession.QuickShareSender.CheckPeerControl | src/QuickShareSender.cpp:757-782 | Takes the frames that have arrived, any number of them, and stops on a fault or a cancellation only. |
| SenderSession.QuickShareSender.SendFilePayload | src/QuickShareSender.cpp:784-840 | Whatever the reads return and whatever arrives between the chunks, the frames sent are the chunk frames of reads that together are the file, closed by a last frame; it fails only if a message cannot be sent, a frame that arrived stops it, or a read returns nothing. |
| SenderSession.QuickShareSender.SendFiles | src/QuickShareSender.cpp:842-885 | The chunk frames of all files in order, and the goodbye, whatever arrives meanwhile. |
| Sender.QuietActs | src/QuickShareSender.cpp:757-782 | If nothing arrives, polling between the messages changes nothing. |
| SenderSession.ListSeals | src/QuickShareSender.cpp:482-506 | What sending a list leaves on the wire is the list sealed under consecutive numbers. |
| SenderOutcomes.ResponseOutcome | src/QuickShareSender.cpp:461-480 | A connection response that agrees is followed by the paired key, any other ends the run with nothing more said. |
| SenderOutcomes.SealedOutcome | src/QuickShareSender.cpp:574-600 | What each kind of offline frame does to the sender: a transfer is collected, a keep-alive acknowledged, everything else is a fault. |
| SenderOutcomes.CancelStops | src/QuickShareSender.cpp:757-840 | Wherever in its run the sender polls: a cancellation, or a sharing frame that cannot be read, ends the run right there, whatever was still to be sent; any other sharing frame is passed over. |
| SenderOutcomes.ControlsHold | src/QuickShareSender.cpp:601-629 | Over a whole run on any frames, no control payload is collected beyond 5 MiB. |
| SenderOutcomes.RequestSays | src/QuickShareSender.cpp:296-344 | The connection request names the endpoint, its medium and a name of at most 45 bytes, which its information repeats behind its length. |
| SenderOutcomes.MetadataSays | src/QuickShareSender.cpp:700-729 | An announced file carries name, size and MIME type of the file, its identifier twice, and the kind that its MIME type stands for. |
| SenderOutcomes.GoodbyeMeaning | src/QuickShareSender.cpp:879-885 | The goodbye asks for an acknowledgement exactly if one was promised. |
| Exchange.ReceiverTakesPair | src/QuickShareSession.cpp:865-943 | The receiver collects the first frame of a sealed sharing frame and acts on the second as on the whole. |
| Exchange.SenderTakesPair | src/QuickShareSender.cpp:557-630 | The sender likewise. |
| Announcement.IntroductionTaken | src/QuickShareSession.cpp:699-783 | From the sender's introduction the receiver makes a list with every announced file and asks for their total. |
| Announcement.Announced | src/QuickShareSession.cpp:706-734 | Each file is on the list with its own size, nothing received yet. |
| Announcement.OnlyAnnounced | src/QuickShareSession.cpp:706-734 | And nothing else is. |
| Announcement.PathsUnused | src/QuickShareSession.cpp:653-677 | The destination of each is not on disk when chosen. |
| Announcement.PathsDiffer | src/QuickShareSession.cpp:653-677 | Destinations handed out in one session are pairwise distinct. |
| HandshakeFrames.ConnectionRequestRead | src/QuickShareSender.cpp:322-344 | The receiver accepts every connection request the sender builds. |
| HandshakeFrames.InitRead | src/QuickShareSender.cpp:346-384 | From ClientInit the receiver takes the commitment to ClientFinish. |
| HandshakeFrames.ServerInitRead | src/QuickShareSession.cpp:349-372 | From ServerInit the sender takes the receiver's point. |
| HandshakeFrames.ConnectionResponseRead | src/QuickShareSender.cpp:461-480 | The sender reads the receiver's response as an acceptance. |
| HandshakeFrames.DecisionRead | src/QuickShareSender.cpp:745-755 | The sender goes on if and only if the receiver's user accepted. |
| HandshakeSteps.SenderAgrees | src/QuickShareSender.cpp:949-955 | The sender's step on ServerInit, up to the frames it sends. |
| HandshakeSteps.ReceiverAgrees | src/QuickShareSession.cpp:438-449 | The receiver's step on ClientFinish. |
| Handshake.MoveOnTrack | src/QuickShareSession.cpp:961-967 | Each move of either end keeps both ends where their numbers of frames say they are. |
| Handshake.NoDeadlock | src/QuickShareSender.cpp:943-979 | Short of the end some frame can always be taken; at the end both ends wait for the user. |
| Handshake.EveryHandshake | src/QuickShareSender.cpp:918-979 | For every list of files with distinct identifiers whose introduction fits in a frame: every interleaving over FIFO channels is free of failure and deadlock, makes progress to a fixed end, and there the PINs are equal and the keys fit crosswise. |
| Delivery.FileDelivered | src/QuickShareSession.cpp:819-863 | Any reads that make up the rest of a file bring it home: the destination equals the source, the file leaves the list. |
| Delivery.FilesDelivered | src/QuickShareSender.cpp:784-877 | A run over all frames of all files, with polls timing out in between and anything behind them, returns true with every destination equal to its source, nothing else changed and nothing said. |
| Delivery.WrittenAt | src/QuickShareSession.cpp:842-861 | The k-th destination holds the k-th file's bytes. |
| Delivery.OnlyFramesCount | src/QuickShareSession.cpp:970-1023 | While files come in, polls that time out and the consent timer change nothing. |
| Transfer.AcceptanceBegins | src/QuickShareSession.cpp:970-988 | After the user's yes one turn opens every destination empty and answers. |
| Transfer.SenderStarts | src/QuickShareSender.cpp:745-755 | That answer makes the sender start with the files. |
| Transfer.EndsInRefusal | src/QuickShareSession.cpp:988-996 | Every handshake that gets to the question, followed by a no or by the timeout: the receiver's run returns true with the disk as it was, and its answer makes the sender give up before the first file, with nothing more sent. |
| Transfer.EndToEnd | src/QuickShareSender.cpp:918-985 | Every handshake that gets to the question, with the files numbered by draws that do not collide, followed by a yes: the sender takes the answer and may send; and when the receiver gets what the sender, sending all files and the goodbye, has put on the wire, with any timeouts in between, its run returns true with each file byte for byte at a new place of its own, the rest of the disk unchanged and not a word said. |
| DnsName.DnsName | src/ShareService.cpp:229-244 | The writer's loop, with its length cut to a byte. |
| DnsName.ReadDnsName | src/ShareService.cpp:265-294 | The reader stays in bounds, stops within 32 turns, and on success moves strictly forward. |
| DnsName.ReaderFollowsPointers | src/ShareService.cpp:265-294 | On arbitrary bytes it succeeds exactly on the names that expand by labels and pointers within 32 visits (section 4.1.4 of RFC 1035), and returns that expansion. |
| DnsName.OneExpansion | src/ShareService.cpp:265-294 | A name has one expansion at most. |
| DnsName.CyclesFail | src/ShareService.cpp:265-294 | Every name that leads into a cycle of pointers and labels is refused. |
| DnsName.NameRoundTrip | src/ShareService.cpp:229-294 | Anywhere in a packet, names of labels of 1 to 63 bytes come back in lower case if and only if they have at most 31 labels. |
| DnsPacket.AppendRecord | src/ShareService.cpp:641-654 | One record behind the packet, with any four TTL bytes. |
| DnsPacket.BuildResponse | src/ShareService.cpp:656-717 | The two passes build the header, the question, the answers and then the additionals. |
| DnsReading.RecordMeaning | src/ShareService.cpp:518-532 | On arbitrary bytes a record is read exactly if its name can be, its ten fixed bytes and its data are there; kind, TTL and data are big-endian behind the name. |
| DnsReading.RecordsMeaning | src/ShareService.cpp:518-532 | The records of a walk stand one behind the other, up to the first that cannot be read. |
| DnsReading.PacketMeaning | src/ShareService.cpp:501-532 | A packet is whole exactly if it has as many records as the three counts of its header say together, behind its questions. |
| DnsReading.UnderMeaning | src/ShareService.cpp:552-570 | A name is under the service type exactly if it is labels, a dot and the lower-case type. |
| DnsReading.TextMeaning | src/ShareService.cpp:574-586 | A text record's value is what follows "n=" in the last of its fitting entries that begins so. |
| DnsReading.HeaderSays | src/ShareService.cpp:706-716 | The header of a response: identifier, flags and the four counts, big-endian. |
| DnsReading.EntrySays | src/ShareService.cpp:641-654 | Type, class with the flush bit, TTL, size and data behind a record's owner. |
| DnsReading.EntryStands | src/ShareService.cpp:685-717 | Every record stands in the packet, and all but PTR records with the flush asked for. |
| DnsResponse.ResponseRoundTrip | src/ShareService.cpp:501-717 | For every choice of answers and question the walk finds exactly the records written, counts exact, and ends at the last byte (sections 4.1.1 and 4.1.3 of RFC 1035). |
| DnsResponse.EachOnce | src/ShareService.cpp:685-704 | SRV, TXT and A appear once each, PTR exactly when asked for. |
| DiscoveryStore.NothingStale | src/ShareService.cpp:365-410 | After one expiry a second one at the same time changes nothing. |
| DiscoveryStore.ExpiryKeeps | src/ShareService.cpp:365-410 | Exactly what an expiry keeps, unchanged: an instance or address whose deadline is later, a service or text whose deadline and whose instance's are later. |
| DiscoveryStore.ParseMeaning | src/ShareService.cpp:501-617 | A packet is its records, one after the other, on the cache without stale entries; it is published exactly when it was whole and a record was taken or something had expired. |
| DiscoveryCache.ShareContext.Expire | src/ShareService.cpp:365-410 | On the nine maps: companions keep the same keys, the store expires, and the flag is true exactly when something was removed. |
| DiscoveryCache.ShareContext.Reset | src/ShareService.cpp:1071-1085 | A new scan starts from the empty store. |
| DiscoveryCache.ShareContext.TakePtr | src/ShareService.cpp:533-551 | A pointer record, or its goodbye, on seven maps at once. |
| DiscoveryCache.ShareContext.TakeSrv | src/ShareService.cpp:552-568 | A service record on its three maps. |
| DiscoveryCache.ShareContext.TakeTxt | src/ShareService.cpp:569-590 | The last "n=" entry before the first that does not fit. |
| DiscoveryCache.ShareContext.TakeAddress | src/ShareService.cpp:591-612 | An address is replaced only by the first on the interface's network. |
| DiscoveryCache.ShareContext.TakeRecords | src/ShareService.cpp:518-614 | The record loop, up to the first record that cannot be read. |
| DiscoveryCache.ShareContext.ParseDiscoveryPacket | src/ShareService.cpp:501-617 | The nine maps refine the store through a whole packet, companions stay aligned, and follow-up questions stay a second apart. |
| DiscoveryCache.ShareContext.SendFollowupQuery | src/ShareService.cpp:476-483 | A question goes out unless the same one went out less than a second ago. |
| DiscoveryCache.ShareContext.SendResolutionQueries | src/ShareService.cpp:485-499 | Only what is missing is asked for, and all of it within the last second. |
| DiscoveryCache.PacedMore | src/ShareService.cpp:476-483 | One more question keeps all questions of the same type and name, over the whole history, at least 1000 ms apart. |
| DiscoveryRuns.AddressesStick | src/ShareService.cpp:591-612 | After any packets, expiries and scans a host has an address exactly if one was advertised since its last removal: the first on the interface's network, or else the first. |
| DiscoveryRuns.KeptMeaning | src/ShareService.cpp:597-610 | Kept is the first address that shares its first three bytes with the interface, or, when none does, the first of all. |
| DiscoveryHistory.CacheHistory | src/ShareService.cpp:365-617 | After any packets, expiries and scans: an instance is held exactly while its last announcement stands, with that one's deadline and time; a service while the last record that located it stands, a text while the last that had one stands; each is ended by a scan, its own deadline, a goodbye, or the end of its instance by expiry. |
| DiscoveryHistory.GoodbyeClears | src/ShareService.cpp:538-545 | A pointer record with a zero TTL leaves no instance, service or text of its target. |
| DiscoveryHistory.PublishMeaning | src/ShareService.cpp:501-617 | A packet is published exactly if it was whole and the cache held something stale or took one of its records, as told from the records alone. |
| DiscoveryRuns.AdvertisementListed | src/ShareService.cpp:533-551 | Parsing any response of the service: if a PTR record was asked for under the service type, the instance is held as seen now and until its TTL, a day at most, has passed, or with a zero TTL is gone; no other instance changes. |
| DiscoveryRuns.AdvertisementResolves | src/ShareService.cpp:501-717 | Parsing any response of the service, on any cache and whatever the TTL bytes, makes its instance resolve to the advertised host, port, text and address if and only if the service, text and address records were written with TTLs other than zero and the host's cached address gives way to the advertised one. |
| DiscoveryRuns.NewHostResolves | src/ShareService.cpp:501-717 | For a host that the cache does not know, or knows by this address, the TTLs alone decide. |
| DiscoveryRuns.ZeroTtlDoesNotResolve | src/ShareService.cpp:641-654 | A response with four zero bytes for the service record's TTL leaves the instance unresolved, whatever the cache held. |
| DiscoveryRuns.TruncatedUnpublished | src/ShareService.cpp:501-617 | A packet that announces two records and ends after one: the address is cached, nothing is published. |
| DeviceList.CollectInstances | src/ShareService.cpp:414-418 | The keys of the hash table, each once. |
| DeviceList.SortStrings | src/ShareService.cpp:419 | The same strings in strictly increasing order. |
| DeviceList.BeforeMeaning | src/ShareService.cpp:419 | The order is that of the first byte that differs, a prefix coming first. |
| DeviceList.OneOrder | src/ShareService.cpp:414-419 | The cache's instances have one order only. |
| DeviceList.MakeRows | src/ShareService.cpp:421-460 | Rows, instances and index stay aligned through in-place replacement: one row for each identity, in the order of first appearance, made from the instance seen last, ties to the first. |
| DeviceList.PublishDiscoveredDevices | src/ShareService.cpp:412-460 | The rows are made from exactly the cached instances in sorted order. |
| DeviceList.ListMeaning | src/ShareService.cpp:412-460 | Rows differ in name or address; each is the port, four-byte address and name that an instance of the cache stands for, not at our own address and not at port 0; and every instance that stands for a device is shown by the row of its name and address, which is the one seen last or, of those seen last, the first in the order of bytes. |
| DeviceList.RowOrder | src/ShareService.cpp:419-456 | The rows stand in the order of the first instances of their devices: replacing a row does not move it. |
| DeviceList.OneList | src/ShareService.cpp:412-460 | These rules leave no choice: rows and their order are determined by the cache. |
| DeviceList.IdentityInjective | src/ShareService.cpp:446 | The identity string tells names and addresses apart. |
| Base64.UrlSafeB64 | src/ShareService.cpp:190-205 | The loop encodes groups of three. |
| Base64.EncodedDigits | src/ShareService.cpp:190-205 | Three bytes are written as the four base-64 digits of their number, two or one with zero bits behind. |
| Base64.EncodedAppend | src/ShareService.cpp:190-205 | Longer data are written three bytes by three, independently. |
| Base64.DecodeEndpoint | src/ShareService.cpp:350-357 | Replacement, padding and decoding. |
| Base64.EndpointRoundTrip | src/ShareService.cpp:190-205 | Every byte string comes back; the encoding has ceil(4n/3) symbols, all URL-safe (section 5 of RFC 4648). |

## Left out

- Sockets, poll, connect, pthreads, BLE callbacks and timers: only their meaning is kept, a byte stream with short reads, a step trigger, a clock value.
- The crypto library's internals, and failures of its allocation and key generation: AES, SHA, HMAC and P-256 are functions with laws.
- Several sessions sharing the consent slot: the slot, the disk and the reserved names are fields of one session, so consent and destinations are stated for one session at a time.
- Other writers to the download directory: between choosing a destination and opening it, the disk changes by the session's own writes only.
- Sequence counters beyond 2^31: the programs count in a 32-bit int, and runs of that many messages are excluded from the delivery and prefix results.
- QFile's own buffering: a write that reports success has reached the disk, so that the unchecked flush before a file counts as complete cannot lose data in the model.
- IncomingFile as a heap object: the pending files are values in the session's map, and a file handle is the flag that says it was created.
- Transfer.EndToEnd: is about a sender that hears nothing while it sends; this receiver says nothing then.
- The end of the stream as seen by checkPeerControl, the safe-disconnect wait, and so the sender's own report of success: it may fail after the receiver has succeeded, so delivery is stated on the receiver's side.
- A source file that disappears or changes size between the introduction and its sending.
- SenderSession.QuickShareSender.PickPayloadId: cut off after a given number of turns, because the loop itself does not end after a collision.
- QByteArray sizes beyond the range of int, except that the builders require what they append to stay below it.
- DnsName.NameRoundTrip: lower case is that of Latin-1, byte by byte; that the library stops at a NUL byte is not modelled.
- Answering queries (handlePacket), announcements, goodbyes, identity probing: which flags a response is built with is arbitrary in the results about responses.
- The signature that suppresses republishing an unchanged list: the result is about the list that is computed.
- The display name of an endpoint: an arbitrary function of its decoded information.
- User interface, history, translations, status texts, progress, opening of received files.

# Verification of BaseLib's byte pipeline, containers and ciphers

BaseLib is the network layer of a game server. This project models the parts of it whose correctness is hard to see
from the code and proves what they are for. Everything that changes state in the source is a class or a method on
arrays here, proved against a specification on values; the laws are then proved about the specification.

**Receiving.** A ring of `Q` bytes with a tail of `E` bytes behind it, three cursors, a kernel that writes behind the
push cursor, a worker thread that cuts packets and mirrors wrapped bytes into the tail, and a processor thread that
pops them at any time. `Framing` says what the packets of a byte stream are. `ReceiveProtocol` is the pipeline as a
state machine with one invariant. `Receiving` is the code, with the processor thread and a possible disconnect running
between any two statements of the worker. The end result is `Receiving.Run`: whatever the pieces and the interleaving,
what is popped is the framing of the bytes taken. `ReceiveRuns` has the runs of the protocol from a fresh connection
and `ReceiveRaces` what the worker thread may read of the ring while a release is half done.

**Sending.** `Sending` has the send buffer, the send queue and the flag that says a send is under way. Bytes on the
wire are a prefix of the packets in the order they entered the buffer, each packet is in one place and passes the
encoder once. As long as no packet is longer than the tail, an active connection with anything to send is sending,
unless the latest SendEx failed (`Sending.Run`). Both conditions are needed: `FailedSendWitness` and `StallWitness`
are connections with something to send that are idle, and `AlwaysFits` gives the exact limit on the length. `EndToEnd`
joins a sender to a receiver, with all threads of both running: at every moment, what is popped on one side are the
first of the packets that entered the buffer on the other, in order.

**The packet encoder.** `RandomGenerator` (the shift register that seeds the lagged generator, its recurrence and its
rank over GF(2)), `PacketCipher` and `PacketEncoding` (headers and bodies, in place), `Checksums` (the table as that
of a cyclic redundancy check, and which changes it shows), `EncoderLockstep` (two encoders with their seeds swapped
stay in step over any run in both directions).

**Containers.** `LinkArray` (an index-linked allocator; two lists in one array) and `LinkList` (an intrusive list).

**The acceptor.** `AcceptProtocol` is the counter protocol as a state machine with its bound, `AcceptLeaks` and
`AcceptSilence` what failed accepts and failed associations do to it, `Acceptor` the code with its lock sections.

**Digest and ciphers.** MD5 against RFC 1321 (`Md5Standard`, `CipherMd5`); DES against the bit-level algorithm of FIPS
46-3 (`DesStandard`, `DesBits`, `DesRefinement`, `DesCipher`); Blowfish and Twofish against their designers'
descriptions (`BlowfishStandard`, `CipherBlowfish`, `BlowfishGlobals`, `TwofishStandard`, `CipherTwofish`).
`BlockMode` has what the block ciphers share: buffers processed block by block and padding with zeros. The functions
that code and standard have in common are fixed by laws of their own: bit by bit in `WordBits` and `Md5Bits`, the
selection functions by their design criteria in `DesBoxes`, and whole algorithms by published answers, derived step by
step, in `Md5KnownAnswer` and `DesKnownAnswer`.

## What the code does not do

Properties that turned out false of the code are kept false here, with the exact condition under which they hold.

- A packet as long as the tail is accepted for sending and never framed by the receiver, which refuses it
  (`SendHistory.FramedIfShorter`).
- A packet of more than `E` bytes can leave the sender stalled with an empty buffer until another packet enters the
  buffer (`Sending.AlwaysFits`, `Sending.StallWitness`); `Sending.Sender.PushPacket` says exactly when a stall begins
  and ends. A packet that fits may overtake a queued one (`Sending.OvertakingWitness`).
- PushPacket returns the error of SendEx and leaves the connection open, so that a filled buffer and queue can stand
  idle with every packet within the tail (`Sending.FailedSendWitness`). The next packet that fits starts a send again.
- The free space is read twice before a receive is posted. The length can be zero with the test passed if and only if
  the ring was full and an announced packet had not been released yet (`ReceiveRaces.ZeroLengthPost`), and every
  connection can come to that (`ReceiveRaces.FullWithPacket`). CompleteRecv takes a receive of no bytes for the end of
  the connection.
- A size read between the `+=` and the `-=` of the pop cursor is the size after the release
  (`ReceiveRaces.TornPopRead`), and stays right until another receive is posted (`ReceiveRaces.TornWithoutPosting`).
  After that it is right if and only if the bytes held do not go round the end of the ring
  (`ReceiveRaces.TornReadExact`). A connection can come to a wrong reading if and only if a packet may have three
  bytes or the ring is of odd size (`ReceiveRaces.TornExactly`, with the run in `ReceiveRaces.TornGoesRound`).
- A header is restored if and only if its encryption bit was clear (`PacketCipher.HeaderRestored`).
- Removing a position that is not live from a `LinkArray_Static` leaves a structure that describes no lists at all
  (`LinkArray.LinkArrayStatic.Remove`).
- The guard of MD5's `Update` wraps in 32 bits and then runs past the input under the exact condition of
  `CipherMd5.GuardStops`; such inputs exist if and only if the buffer holds some bytes already
  (`CipherMd5.GuardRunsOn`).
- A DES key string of sixteen bytes folds to the zero key if and only if its halves are equal
  (`DesCipher.RepeatedKeyCancels`, `DesCipher.RepeatedKeySchedule`); the length argument of `SetKey` is only compared
  with 40.
- DES and Blowfish given one buffer as input and output clear it before they read it, so that zeros are processed
  (`BlockMode.FillFrom`).
- A Blowfish key length is cut to a short, and the schedule divides by zero if and only if the length is a multiple of
  65536, 0 among them (`CipherBlowfish.ShortIsZero`, `CipherBlowfish.CipherBlowfish.SetKey`). A negative short counts
  by its magnitude.
- MD5's wrapper writes 16 bytes whatever the output size, so it writes behind the output size if and only if that is
  below 16, and outside memory if the output has fewer bytes or the input length is negative (`CipherMd5.Encrypt`).
- The acceptor can have more sessions than its maximum if and only if maximum, minimum, posting limit and worker
  threads are all positive, and then by one for each worker (`AcceptProtocol.ExceedsExactly`,
  `AcceptProtocol.BoundIsTight`), as long as no session whose AcceptEx failed is destroyed. Destroying one takes it
  off the accepting count a second time, and then either there is no bound at all or the maximum holds, by an exact
  condition on the limits (`AcceptLeaks.LeaksExactly`).
- The acceptor stops accepting for good exactly when the failed associations, less the sessions of a failed AcceptEx,
  reach the minimum or the posting limit, or the maximum leaves no room even with everybody gone
  (`AcceptSilence.SilentExactly`); every acceptor has such a run (`AcceptSilence.FallsSilent`).

## Model

| member | source | states |
|---|---|---|
| Framing.LengthRead | BaseLib/Packet.h:30-34 | Every length of fifteen bits, written with its low-order byte first, is the length read from the header |
| Framing.MarkIgnored | BaseLib/Packet.h:30-34 | The encryption bit, set or clear, is no part of the length read |
| Framing.PacketOf | BaseLib/Packet.h:30-43 | A body behind the two bytes of its length is one packet for exactly the receivers whose limit is larger than both together |
| Framing.FrameSound | BaseLib/Connections.h:239-293 | The framing of a stream is its packets followed by a rest: the packets are whole and shorter than the limit, their bytes and the rest are the stream, and the rest holds no whole packet, unless a packet is too long |
| Framing.FrameComplete | BaseLib/Connections.h:239-293 | Conversely any stream made of packets within the limit frames to exactly those packets |
| Framing.FrameExtends | BaseLib/Connections.cpp:426-487 | Framing a stream in two parts is framing it at once: the packets of the first part stand and the rest goes on |
| CircularQueue.CircularQueue.IncreasePushPos | BaseLib/CircularQueue.h:111-128 | Refuses exactly when the block would fill the ring; otherwise the block joins what is held, and the bytes that ran into the tail are copied to the front |
| CircularQueue.CircularQueue.IncreasePopPos | BaseLib/CircularQueue.h:130-139 | The first bytes held are released, across the end of the ring too |
| CircularQueue.CircularQueue.IncreaseWorkPos | BaseLib/CircularQueue.h:141-150 | The work cursor passes over more of what is held |
| CircularQueue.CircularQueue.GetCurSize | BaseLib/CircularQueue.h:152-161 | The cursor distance is the number of bytes held |
| CircularQueue.CircularQueue.GetPushAvailableSize | BaseLib/CircularQueue.h:174-181 | The bytes that may be written behind the push cursor without leaving the array or filling the ring |
| CircularQueue.PushHolds | BaseLib/CircularQueue.h:117-125 | The held bytes followed by the block are what the ring holds after the wrap copy |
| Views.FramesKept | BaseLib/CircularQueue.h:112-128 | Contiguous views of the frames ahead of the pop cursor survive any change outside them |
| Views.WriteAfterPush | BaseLib/Connections.cpp:247-288 | Bytes written behind the push cursor, in the tail as well, change neither what is held nor any view of a frame |
| ReceiveProtocol.DeliverKeeps | BaseLib/Connections.cpp:247-288 | The kernel's write keeps the invariant of the pipeline |
| ReceiveProtocol.CompleteKeeps | BaseLib/Connections.cpp:426-470 | So does taking the received bytes into the ring with the wrap copy |
| ReceiveProtocol.MirrorKeeps | BaseLib/Connections.h:252-287 | So does mirroring bytes from the front of the ring into the tail, as long as no announced packet uses the tail |
| ReceiveProtocol.OnlyOneGoesRound | BaseLib/Connections.h:252-287 | When the packet in work goes round the end of the ring, no announced packet does: the tail is free for it |
| ReceiveProtocol.MirrorExtends | BaseLib/Connections.h:252-287 | Mirroring the next bytes makes that much more of the packet contiguous |
| ReceiveProtocol.AnnounceKeeps | BaseLib/Connections.cpp:470-487 | Announcing a whole contiguous packet keeps the invariant |
| ReceiveProtocol.ReleaseKeeps | BaseLib/NetworkProcessor.cpp:123-148 | The processor releases exactly the packet it was attached to, and the invariant stays |
| ReceiveProtocol.FrontIntact | BaseLib/Connections.cpp:658-678 | In every state the oldest announced packet stands whole and contiguous at the pop cursor and its header gives its size |
| ReceiveProtocol.AttachedIntact | BaseLib/NetworkProcessor.cpp:123-148 | Mirror safety: the packet the processor is attached to still has every byte it had, and is the next packet of the stream's framing |
| ReceiveProtocol.AnnouncedIsFraming | BaseLib/Connections.cpp:426-487 | In every state the popped and announced packets, followed by the framing of what is not yet cut, are the framing of all bytes received |
| ReceiveProtocol.QuiescentFraming | BaseLib/Connections.cpp:426-487 | Once nothing more can be cut, the popped and announced packets are the framing itself |
| ReceiveProtocol.RoomFor | BaseLib/Connections.cpp:247-288 | However much was popped meanwhile, the size posted stays inside the array and leaves the ring short of full |
| ReceiveProtocol.RoomAfter | BaseLib/Connections.cpp:259-264 | Of two readings of the free space with pops between, the first still fits; the second is zero only if the ring was full, and the first alone only if there also was a packet to release |
| ReceiveRuns.RunKeeps | BaseLib/Connections.cpp:426-487 | Every run of kernel, worker and processor in any order keeps the invariant |
| ReceiveRuns.ReachableFrames | BaseLib/Connections.cpp:426-487 | In every state a fresh connection can reach, the packets popped begin the framing of all bytes received, and the packet attached is the next one |
| ReceiveRaces.TornPopRead | BaseLib/CircularQueue.h:130-139 | In every state of the pipeline, the size computed between the two writes of a release is the size after the release |
| ReceiveRaces.TornReadExact | BaseLib/CircularQueue.h:130-139 | While the correction is outstanding the size is right if and only if the bytes held do not go round the end of the ring |
| ReceiveRaces.TornWithoutPosting | BaseLib/CircularQueue.h:130-139 | In every state that the worker and the kernel come to before the correction without posting a receive, completing the one under way among it, the size is right |
| ReceiveRaces.TornGoesRound | BaseLib/CircularQueue.h:130-139 | If a packet can end behind the end of the ring, a run from a fresh connection to a release in which a receive posted and completed before the correction makes the size wrong |
| ReceiveRaces.TornExactly | BaseLib/CircularQueue.h:130-139 | A fresh connection can come to a wrong reading if and only if packets may have three bytes or the ring is of odd size |
| ReceiveRaces.ZeroLengthPost | BaseLib/Connections.cpp:247-288 | Read with the processor running before and in between, the free space can be zero for the length and positive for the test if and only if the ring is full and an announced packet has not been released |
| ReceiveRaces.FullWithPacket | BaseLib/Connections.cpp:247-288 | Every connection can come to such a state, with the next receive about to be posted |
| Receiving.Receiver.constructor | BaseLib/NetBuffer.h:20-29 | The ring has room for the given number of packets of the greatest size and the tail for one; nothing is received yet |
| Receiving.Receiver.MakeSureCompletedPacket | BaseLib/Connections.h:239-293 | Returns by the classification of the uncut bytes: too few, too long, or a whole packet that is now contiguous, while the processor pops and a thread may disconnect |
| Receiving.Receiver.PostRecv | BaseLib/Connections.cpp:247-288 | Posts a receive unless closed, of the free space at some moment of the call; nothing of the stream changes; it fails for lack of room only if the ring was full, and posts a length of zero only if it was full with a packet announced |
| Receiving.Receiver.CompleteRecv | BaseLib/Connections.cpp:426-496 | The arrived bytes are taken; announced are exactly the packets of the framing so far, the rest is uncut, an oversized packet ends the connection, otherwise the next receive is posted |
| Receiving.Receiver.PopPacket | BaseLib/Connections.cpp:658-678 | One message is taken and the packet at the pop cursor is attached |
| Receiving.Receiver.ReleasePacket | BaseLib/NetworkProcessor.cpp:147-148 | The packet released is byte for byte the one that was attached |
| Receiving.Run | BaseLib/Connections.cpp:426-496 | For any input, any receives and pieces, and any interleaving with the processor, the packets popped are the framing of the bytes taken; the outcome says oversized if and only if that framing is, and otherwise that all was taken, the connection closed, the ring was full, or RecvEx failed |
| SendHistory.PeerOpens | BaseLib/Connections.cpp:723-781 | What the encoder wrote packet by packet is opened in the same order by a peer with the same keys |
| SendHistory.WrittenPlain | BaseLib/Connections.cpp:723-781 | Without an encoder the bytes of the entries are their packets |
| SendHistory.ReceiverFrames | BaseLib/Connections.cpp:290-314 | A receiver that has seen a prefix of what was sent frames a prefix of the packets, and all of them once it has seen all |
| SendHistory.FramedIfShorter | BaseLib/Connections.cpp:708-721 | A packet is framed by the receiver if and only if it is shorter than the limit; the sender admits one of exactly the limit |
| Sending.AlwaysFits | BaseLib/Connections.cpp:723-745 | A packet fits an empty buffer at every push position if and only if it is no longer than the tail |
| Sending.Sender.PostSend | BaseLib/Connections.cpp:290-333 | Sends all bytes pending, or all up to the end of the ring, whichever is less, and nothing else; at most one send is under way |
| Sending.Sender.PushPacket | BaseLib/Connections.cpp:699-786 | The packet is refused, queued or encrypted into the buffer, exactly one of them, by which test it meets; a send, of all bytes pending or all up to the end of the ring, is started unless one is under way, and an error of SendEx is returned with the connection as it was; a stall begins if and only if a packet is queued with none under way, and ends if and only if a packet enters the buffer |
| Sending.Sender.CompleteSend | BaseLib/Connections.cpp:498-568 | The transferred bytes leave the buffer for the wire, queued packets follow in order, and the next send, of all bytes pending or all up to the end of the ring, is posted if anything is left; a failure of it disconnects; the connection stalls only on a packet that does not fit an empty buffer |
| Sending.Sender.DrainQueue | BaseLib/Connections.cpp:516-546 | Queued packets enter the buffer from the front of the queue until one does not fit |
| Sending.Run | BaseLib/Connections.cpp:498-568 | With packets no longer than the tail, for pushes and completed sends in any order, SendEx failing at any time: every packet is in the buffer or wire, in the queue or refused, in order, and an active connection with anything to send is sending if and only if the latest SendEx has not failed |
| Sending.StallWitness | BaseLib/Connections.cpp:708-745 | An active connection with one longer packet that is stalled: a packet is queued, the buffer is empty, no send is under way and none has failed |
| Sending.FailedSendWitness | BaseLib/Connections.cpp:763-773 | An active connection, not disconnected, with every packet within the tail, that is idle with both buffer and queue filled because SendEx failed in PushPacket |
| Sending.OvertakingWitness | BaseLib/Connections.cpp:723-781 | An active connection where a packet pushed later entered the buffer before a queued one |
| EndToEnd.WireFrames | BaseLib/Connections.cpp:290-314 | Whatever part of the wire a receiver has seen frames to the first of the packets that entered the buffer, and to all of them when it has seen everything |
| EndToEnd.JoinedFrames | BaseLib/Connections.cpp:426-786 | In every state that the two connections keep, the packets popped begin those announced, which begin those that entered the buffer |
| EndToEnd.SendAndReceive | BaseLib/Connections.cpp:426-786 | With pushes, completed and failing sends, receives in any pieces and pops in any order: at every moment the packets popped are the first of those that entered the sender's buffer, unchanged and in order, all of them if nothing is on its way any more, and never an oversized one |
| LinkArray.ApplyKeepsPartition | BaseLib/LinkArray.h:479-587 | Every allocation and every removal of a live position keeps the live and free lists a partition of all slots |
| LinkArray.RunKeepsPartition | BaseLib/LinkArray.h:479-587 | So does every run of them, with no more live slots than the maximum |
| LinkArray.FreeIsQueue | BaseLib/LinkArray.h:479-587 | The free list is a queue: the slot at place k moves up by one with each allocation, whatever is removed |
| LinkArray.ReuseIsDelayed | BaseLib/LinkArray.h:570-582 | A removed position is next to be handed out after exactly the number of free slots less one further allocations, more than the extra size allows to go by first |
| LinkArray.LiveCount | BaseLib/LinkArray.h:479-516 | The number of buckets flagged as used is the length of the live list |
| LinkArray.LinkArrayStatic.Create | BaseLib/LinkArray.h:357-437 | All slots free in the order of the array |
| LinkArray.LinkArrayStatic.Begin | BaseLib/LinkArray.h:440-446 | The newest live position, or the end |
| LinkArray.LinkArrayStatic.RBegin | BaseLib/LinkArray.h:448-454 | The oldest live position, or the end |
| LinkArray.LinkArrayStatic.Next | BaseLib/LinkArray.h:468-475 | Walking goes through the live list from the newest on and ends behind the oldest |
| LinkArray.LinkArrayStatic.Prev | BaseLib/LinkArray.h:458-465 | And back |
| LinkArray.LinkArrayStatic.Alloc | BaseLib/LinkArray.h:478-516 | Fails exactly when the maximum is reached; otherwise the first free slot becomes the newest live one, by relinking the array; the high-water mark follows; no data changes |
| LinkArray.LinkArrayStatic.Insert | BaseLib/LinkArray.h:530-544 | The same, with the data stored at the position handed out and nowhere else |
| LinkArray.LinkArrayStatic.Remove | BaseLib/LinkArray.h:547-588 | A live position goes to the end of the free list and the position behind it is returned; afterwards the array describes two lists if and only if the position was live or the call returned early |
| LinkList.InsertLinks | BaseLib/LinkList.h:85-141 | An object linked both ways between two neighbours makes the list with the object inserted there |
| LinkList.RemoveLinks | BaseLib/LinkList.h:143-171 | Neighbours linked to each other make the list without the object |
| LinkList.LinkList.Append | BaseLib/LinkList.h:61-71 | The object becomes the last of the sequence; head, tail, count, both links and the high-water mark agree |
| LinkList.LinkList.Prepend | BaseLib/LinkList.h:73-83 | The object becomes the first |
| LinkList.LinkList.InsertBefore | BaseLib/LinkList.h:85-112 | Inserted just before the given member, or first if there is none |
| LinkList.LinkList.InsertAfter | BaseLib/LinkList.h:114-141 | Inserted just behind the given member, or last if there is none |
| LinkList.LinkList.Remove | BaseLib/LinkList.h:143-171 | The member is taken out and its links are cleared |
| LinkList.LinkList.RemoveAll | BaseLib/LinkList.h:173-179 | Ends with the empty list, every former member unlinked |
| LinkList.LinkList.Find | BaseLib/LinkList.h:181-196 | True if and only if the object is a member |
| LinkList.LinkList.Pop | BaseLib/LinkList.h:198-225 | Takes the last object, or the first on request; NULL on the empty list |
| LinkList.LinkList.Push | BaseLib/LinkList.h:227-230 | Adds in front, or at the end on request |
| LinkList.DefaultIsFifo | BaseLib/LinkList.h:222-230 | Under any mix of default Push and Pop the objects come out in the order they went in |
| LinkList.FrontIsLifo | BaseLib/LinkList.h:222-230 | After any run of Push and Pop in front that pops exactly what it pushes, the next Pop gives back the object pushed before that run, and the list is as it was |
| LinkList.PushesThenPops | BaseLib/LinkList.h:222-230 | Objects pushed one after the other come out in reverse order |
| RandomGenerator.GeneratorIsLagged | BaseLib/Encoder.cpp:213-223 | From any table, with the cursors at 0 and 103, the outputs are the sequence x(n) = x(n-250) xor x(n-147) over that table, forever |
| RandomGenerator.SeededIsLagged | BaseLib/Encoder.cpp:200-239 | From every seed the outputs are, forever, that sequence over the table drawn and planted for the seed |
| RandomGenerator.ShiftMoves | BaseLib/Encoder.cpp:241-252 | A step of the shift register moves every bit but the lowest down by one and the lowest to the top |
| RandomGenerator.ShiftTaps | BaseLib/Encoder.cpp:241-252 | The bit that comes in at the bottom is the parity of the bits 0, 1, 2, 3, 5 and 7 |
| RandomGenerator.DrawnInTurn | BaseLib/Encoder.cpp:225-239 | Each word drawn is the register 32 steps after the word behind it, the last word 32 steps after the seed |
| RandomGenerator.PlantedWord | BaseLib/Encoder.cpp:225-239 | In every seventh word from the fourth on, the next lower bit is set, none above it, and those below it stay as drawn |
| RandomGenerator.NotPlanted | BaseLib/Encoder.cpp:225-239 | All other words stay as drawn |
| RandomGenerator.AdvanceKeepsRank | BaseLib/Encoder.cpp:213-223 | One call keeps the rank: every non-zero mask still has odd parity with some table word |
| RandomGenerator.PlantedFullRank | BaseLib/Encoder.cpp:225-239 | The triangular basis planted in any table gives it full rank |
| RandomGenerator.SeededRank | BaseLib/Encoder.cpp:200-239 | From every seed, after any number of calls, the table has full rank |
| RandomGenerator.RandomGen.constructor | BaseLib/Encoder.cpp:185-205 | The generator stands at the seeded state |
| RandomGenerator.RandomGen.Assign | BaseLib/Encoder.cpp:190-198 | The copy goes on exactly as the original would, and resets to the same seed |
| RandomGenerator.RandomGen.Reset | BaseLib/Encoder.cpp:207-211 | Back to the seeded state of its seed |
| RandomGenerator.RandomGen.Generate | BaseLib/Encoder.cpp:213-223 | Returns the next word and advances the state by one |
| RandomGenerator.RandomGen.GenerateSeeds | BaseLib/Encoder.cpp:225-239 | The table drawn from the shift register with the basis planted in it, and the cursors at its start and 103 words on |
| RandomGenerator.RandomGen.GenerateSimple | BaseLib/Encoder.cpp:241-252 | Thirty-two steps of the shift register |
| PacketCipher.CryptTwice | BaseLib/Encoder.cpp:34-109 | The stream cipher undoes itself for every length and key |
| PacketCipher.Encrypt | BaseLib/Encoder.cpp:34-70 | In place: whole words with the whole key, the remaining bytes with its lowest byte; the checksum of the plain bytes |
| PacketCipher.Decrypt | BaseLib/Encoder.cpp:72-109 | The same bytes back and the checksum of the bytes that come out |
| Checksums.EntryIsCrc | BaseLib/Encoder.cpp:14-32 | Every entry of the table is the remainder of its index in the cyclic redundancy check with the polynomial x^8 + x^5 + x^4 + 1, low-order bit first |
| Checksums.EntryLinear | BaseLib/Encoder.cpp:14-32 | The table is linear under exclusive or, and no two entries are equal |
| Checksums.ChangeNoticed | BaseLib/Encoder.cpp:34-70 | Another value for one byte changes the checksum if and only if the byte is the lowest one of its word or left over behind the whole words |
| PacketCipher.HeaderRestored | BaseLib/Encoder.cpp:129-150 | Opening a sealed header gives it back if and only if its encryption bit was clear |
| PacketCipher.OpenSeal | BaseLib/Encoder.cpp:129-183 | A packet with a clear bit, of any length, is opened to exactly what was sealed |
| PacketEncoding.PacketEncoder.constructor | BaseLib/Encoder.cpp:111-127 | Four generators with the default seeds, or with those of the two directions exchanged |
| PacketEncoding.PacketEncoder.TxEncrypt | BaseLib/Encoder.cpp:169-183 | Seals header and body in place, leaves the rest of the buffer and the receiving keys alone, and returns the checksum of the plain body |
| PacketEncoding.PacketEncoder.RxDecrypt | BaseLib/Encoder.cpp:152-167 | Opens header and body in place and returns the checksum of the opened body |
| EncoderLockstep.SendKeeps | BaseLib/Encoder.cpp:169-183 | Sending keeps a direction synchronized: the receiver's keys are as far behind as there are packets under way |
| EncoderLockstep.ReceiveKeeps | BaseLib/Encoder.cpp:152-167 | Receiving opens the next packet under way to what was sent, with the checksum it was sent with, and keeps the direction synchronized |
| EncoderLockstep.AlwaysSynchronized | BaseLib/Encoder.cpp:111-183 | In every state reached from a fresh pair with exchanged seeds, both directions are synchronized |
| EncoderLockstep.QuietLink | BaseLib/Encoder.cpp:111-183 | When nothing is under way, everything sent was received unchanged, both ends computed the same checksums, and all four pairs of generators agree |
| AcceptProtocol.StepKeeps | BaseLib/Acceptor.cpp:191-242 | Every step of any thread keeps the counters' sum true, but for sessions taken off twice, and within the maximum plus the workers |
| AcceptProtocol.AcceptBound | BaseLib/Acceptor.cpp:22-40 | Over every run, accepting, accepted and in between never exceed the maximum by more than the worker threads that may be inside OnAccepted; the sessions there are, by that and the sessions taken off the count twice; with OnAccepted atomic and no failed AcceptEx, never at all |
| AcceptProtocol.BoundIsTight | BaseLib/Acceptor.h:95-101 | With maximum, minimum, posting limit and workers all positive, a run with no accept taken as one step reaches a state with one accept posted and as many sessions as make the maximum plus the workers |
| AcceptProtocol.ExceedsExactly | BaseLib/Acceptor.cpp:22-40 | A run without a session taken off twice that exceeds the maximum exists if and only if maximum, minimum, posting limit and workers are all positive |
| AcceptLeaks.LeaksExactly | BaseLib/Connections.cpp:355-373 | With sessions destroyed after a failed AcceptEx, the accepts posted at once are unbounded if and only if the limits allow posting at all, by a condition on the four of them; otherwise no run exceeds the maximum |
| AcceptSilence.DriftIsFailures | BaseLib/Connections.cpp:592-606 | The accepting counter overstates the posted accepts by the number of associations that ever failed, less the sessions taken off twice |
| AcceptSilence.RecoversExactly | BaseLib/Acceptor.cpp:228-242 | With nothing posted, the next reading posts something if and only if the drift is below the minimum and the posting limit, and there is room below the maximum |
| AcceptSilence.FailuresDeafen | BaseLib/Acceptor.cpp:228-242 | After as many failed associations as the minimum, beyond the sessions of a failed AcceptEx, with nothing else posted, no accept is ever posted again |
| AcceptSilence.SilentExactly | BaseLib/Acceptor.cpp:228-242 | With nothing posted, no run ever posts again if and only if the failed associations, less the sessions of a failed AcceptEx, reach the minimum or the posting limit, or the maximum and those sessions leave no room with everybody gone |
| AcceptSilence.FallsSilent | BaseLib/Connections.cpp:592-606 | For every setting of the limits there is a run of failed associations after which the acceptor has no session and never accepts again |
| AcceptProtocol.LifetimeBound | BaseLib/Session.cpp:35-41 | If no session is ever destroyed, as Release leaves it, the maximum and the workers bound all accepts of the acceptor's life |
| Acceptor.Acceptor.GetReserveAcceptCount | BaseLib/Acceptor.cpp:228-242 | That many more accepts keep accepting and accepted within the maximum and accepting within the posting limit; when fewer than the minimum are accepting, one more would break a limit; otherwise nothing is to be posted |
| Acceptor.Acceptor.PostAccept | BaseLib/Connections.cpp:335-376 | The accept is posted with the count raised, or AcceptEx fails and the count is as it was |
| Acceptor.Acceptor.ReserveAccept | BaseLib/Acceptor.cpp:191-226 | Posts the accepts one by one with other threads between them, as a run of the protocol; the result is zero if and only if there is a network and as many were posted as asked for; otherwise it is the error of the session that could not be created, initialized or posted, which ends the run |
| Acceptor.Acceptor.OnAccepted | BaseLib/Acceptor.h:95-101 | A run of the protocol that begins with the first lock section and ends with the second, with other threads between them |
| Acceptor.Acceptor.Run | BaseLib/Acceptor.cpp:18-44 | For any number of turns and any interleaving the counters stay within the bound, and the sessions but for those taken off twice |
| Md5Bits.FChooses | BaseLib/CipherMD5.cpp:64-64 | Each bit of F is that of y where x has it, and that of z elsewhere |
| Md5Bits.GChooses | BaseLib/CipherMD5.cpp:65-65 | Each bit of G is that of x where z has it, and that of y elsewhere |
| Md5Bits.HIsParity | BaseLib/CipherMD5.cpp:66-66 | Each bit of H is the parity of the three |
| Md5Bits.ITurnsOver | BaseLib/CipherMD5.cpp:67-67 | Each bit of I is that of y, turned over where x has it or z has not |
| Md5Bits.InitialBytes | BaseLib/CipherMD5.cpp:208-214 | The initial words written out are the bytes of section 3.3 of RFC 1321 |
| WordBits.RotationMoves | BaseLib/CipherMD5.cpp:71-71 | A rotation by n moves bit i to i + n, counted modulo 32 |
| CipherMd5.FF | BaseLib/CipherMD5.cpp:76-80 | The macro's two additions and the rotation between them are the operation of the first round |
| CipherMd5.GG | BaseLib/CipherMD5.cpp:81-85 | The same for the second round |
| CipherMd5.HH | BaseLib/CipherMD5.cpp:86-90 | The same for the third |
| CipherMd5.II | BaseLib/CipherMD5.cpp:91-95 | The same for the fourth |
| Md5KnownAnswer.KnownAnswer | BaseLib/CipherMD5.cpp:113-323 | "abc" has the digest that section A.5 of RFC 1321 gives |
| Md5Standard.FoldedPrefix | BaseLib/CipherMD5.cpp:113-145 | The state after some blocks does not depend on what follows |
| Md5Standard.IndexStrides | BaseLib/CipherMD5.cpp:243-313 | The words of the block are used in order, then in strides of 5, 3 and 7 |
| CipherMd5.MD5Transform | BaseLib/CipherMD5.cpp:237-323 | The 64 steps written out are those of section 3.4 of RFC 1321, added to the state |
| CipherMd5.GuardStops | BaseLib/CipherMD5.cpp:135-136 | At the last block boundary the loop goes on past the input if and only if adding 63 to it wraps |
| CipherMd5.GuardRunsOn | BaseLib/CipherMD5.cpp:135-136 | Inputs for which it does exist if and only if the buffer holds some bytes already, for example 2^32 - 1 bytes behind one |
| CipherMd5.CountAdds | BaseLib/CipherMD5.cpp:123-126 | The two 32-bit additions with the carry seen from wrap-around are one addition to the bit length modulo 2^64 |
| CipherMd5.Md5Context.Update | BaseLib/CipherMD5.cpp:113-145 | The context of a message becomes that of the longer message: state the fold over whole blocks, buffer the remainder, count the bit length modulo 2^64 |
| CipherMd5.Md5Context.Final | BaseLib/CipherMD5.cpp:150-176 | The digest of the message padded by sections 3.1 and 3.2 of RFC 1321, into 16 bytes and no more |
| CipherMd5.EncodeCount | BaseLib/CipherMD5.cpp:328-338 | The 64 bits of the length, low-order byte first |
| CipherMd5.Decode | BaseLib/CipherMD5.cpp:343-350 | Sixteen little-endian words |
| CipherMd5.Encrypt | BaseLib/CipherMD5.cpp:189-222 | The result codes in the order of the checks, an access outside memory exactly for a negative input length or fewer than 16 bytes of output, and otherwise the digest of up to 1023 bytes; bytes behind the output size stay as they were if that is at least 16, and are overwritten by the digest's end otherwise |
| CipherMd5.DigestInPieces | BaseLib/CipherMD5.cpp:113-176 | However a message is split into updates, the digest is that of the whole message |
| DesStandard.InitialAt | BaseLib/CipherDes.cpp:4-14 | The initial permutation reads the block by columns, even ones first, each from its last row up |
| DesStandard.Choice1At | BaseLib/CipherDes.cpp:29-40 | Permuted choice 1 reads the key by columns from the last row up: three and half of the fourth, then from the seventh down to the fifth and the rest of the fourth; the eighth is not read |
| DesBoxes.EntryIs | BaseLib/CipherDes.cpp:57-99 | Every entry of the selection functions is the digit at its place in the rows written in hexadecimal |
| DesBoxes.RowIsPermutation | BaseLib/CipherDes.cpp:57-99 | No row of a selection function has an entry twice, so each is a permutation of 0 to 15 |
| DesBoxes.OneBitFlipped | BaseLib/CipherDes.cpp:57-99 | Turning over one of the six input bits of a selection function turns over at least two of the four output bits |
| DesBoxes.MiddleBitsFlipped | BaseLib/CipherDes.cpp:57-99 | So does turning over the two middle ones |
| DesKnownAnswer.KnownAnswer | BaseLib/CipherDes.cpp:369-392 | Key 07A7137045DA2A16 takes 3BDD119049372802 to DFD64A815CAF1A0F, as in NBS Special Publication 500-20 |
| DesKnownAnswer.ObjectAnswers | BaseLib/CipherDes.cpp:369-467 | The object, given that key as a terminated string, enciphers that block to the same result |
| DesStandard.PermutationsInverse | BaseLib/CipherDes.cpp:4-26 | The final permutation is the inverse of the initial one, on both sides |
| DesStandard.IterateBack | BaseLib/CipherDes.cpp:254-272 | Whatever the cipher function is, one iteration on the exchanged halves undoes one iteration |
| DesStandard.DecipherUndoes | BaseLib/CipherDes.cpp:369-418 | Deciphering undoes enciphering for all sixteen keys and every block |
| DesStandard.HalfIsRotated | BaseLib/CipherDes.cpp:43-43 | Shifting a half of the key step by step is one rotation by the tabled total |
| DesRefinement.TakeNibble | BaseLib/CipherDes.cpp:135-151 | Joining the mask of the next input nibble decides exactly the output bits that come from it |
| DesRefinement.ExpandIsExpansion | BaseLib/CipherDes.cpp:179-209 | The shifts and masks are the E table of FIPS 46-3 |
| DesRefinement.ContractIsBoxes | BaseLib/CipherDes.cpp:212-230 | The lookups by twelve bits are the eight selection functions on six bits each |
| DesRefinement.RoundKeyIsRotated | BaseLib/CipherDes.cpp:310-319 | Selecting from the once rotated bits is the round key of the schedule |
| DesCipher.PermInit | BaseLib/CipherDes.cpp:346-366 | For any table of 64 places the masks of every nibble position and value are filled in |
| DesCipher.Permute | BaseLib/CipherDes.cpp:135-151 | With the masks of any such table, output bit k is input bit p[k] |
| DesCipher.Perm32Init | BaseLib/CipherDes.cpp:322-342 | The masks of the permutation P by bytes |
| DesCipher.PairInit | BaseLib/CipherDes.cpp:283-291 | Every pair of selection function entries in one byte |
| DesCipher.RepeatedKeyCancels | BaseLib/CipherDes.cpp:443-449 | Folding the first sixteen bytes of a key string gives the zero key if and only if the second eight equal the first eight |
| DesCipher.RepeatedKeySchedule | BaseLib/CipherDes.cpp:437-458 | So for a terminated key string of sixteen bytes: its length is found to be 16 and its schedule is that of the zero key when its halves are equal |
| DesCipher.CipherDes.Contract32 | BaseLib/CipherDes.cpp:212-230 | The selection functions through the table |
| DesCipher.CipherDes.Perm32 | BaseLib/CipherDes.cpp:154-175 | The permutation P through its masks |
| DesCipher.CipherDes.F | BaseLib/CipherDes.cpp:232-251 | The cipher function of FIPS 46-3 |
| DesCipher.CipherDes.Iter | BaseLib/CipherDes.cpp:254-272 | One iteration |
| DesCipher.CipherDes.EnDes | BaseLib/CipherDes.cpp:369-392 | The enciphering of FIPS 46-3 under the round keys in the object |
| DesCipher.CipherDes.DeDes | BaseLib/CipherDes.cpp:395-418 | The deciphering |
| DesCipher.CipherDes.KInit | BaseLib/CipherDes.cpp:295-320 | The round keys are the schedule of FIPS 46-3 for the 64-bit key |
| DesCipher.CipherDes.DesKeyInit | BaseLib/CipherDes.cpp:437-458 | All tables in place, the schedule that of the key string folded by eights up to its terminator or 40 bytes |
| DesCipher.CipherDes.SetKey | BaseLib/CipherDes.cpp:460-467 | Refuses NULL and a length over 40 and changes nothing then; otherwise the schedule of the key string, whatever the length says |
| DesCipher.CipherDes.ProcessBlocks | BaseLib/CipherDes.cpp:420-435 | In place, the whole blocks among the first len bytes, each replaced by its image; nothing for a negative length |
| DesCipher.ImageIs | BaseLib/CipherDes.cpp:420-435 | The image of a block is its enciphering, and back its deciphering |
| DesCipher.CipherDes.Encrypt | BaseLib/CipherDes.cpp:469-501 | The result codes in the order of the checks; otherwise the data, or zeros if the output is the input buffer, with 1 to 8 zeros, enciphered block by block, zeros behind it, the rest of the buffer as it was |
| DesCipher.CipherDes.Decrypt | BaseLib/CipherDes.cpp:503-519 | The result codes; otherwise the whole blocks of the data, or of zeros if the output is the input buffer, deciphered, a remainder copied, zeros behind it |
| DesCipher.CipherDes.RoundTrip | BaseLib/CipherDes.cpp:469-519 | Decrypting what was encrypted gives the data followed by zeros, for every length and all sufficient sizes |
| BlockMode.ProcessedBack | BaseLib/CipherDes.cpp:420-435 | If one relation undoes another on every block, it undoes it on every buffer of blocks |
| BlockMode.PaddedRoundTrip | BaseLib/CipherDes.cpp:469-519 | Padded data processed and processed back is the data and zeros |
| BlockMode.FillFrom | BaseLib/CipherDes.cpp:513-515 | ZeroMemory and memcpy leave the data with zeros behind it, or only zeros if both buffers are one |
| BlowfishStandard.QuarterOf | BaseLib/CipherBlowfish.cpp:693-694 | The boxes are entered by the bytes of the word, the first one by the most significant |
| BlowfishStandard.OneBox | BaseLib/CipherBlowfish.cpp:693-694 | If three of the four entries are zero, the fourth is the result |
| BlowfishStandard.FInOrder | BaseLib/CipherBlowfish.cpp:693-694 | Entries that show the order of the operations: addition, exclusive or, addition |
| BlowfishStandard.SubkeysOnly | BaseLib/CipherBlowfish.cpp:697-718 | With S-boxes of zeros, the left half takes the nine even subkeys and the right half the nine odd ones, and the halves change places |
| BlowfishStandard.ScheduleChain | BaseLib/CipherBlowfish.cpp:673-689 | The schedule is a chain of 521 encipherments from a block of zeros under the mixed key, each with the tables as they are by then |
| BlowfishStandard.ScheduleIsChain | BaseLib/CipherBlowfish.cpp:673-689 | The blocks of the chain are, in order, the final subkeys and the final S-box entries |
| BlowfishStandard.DecipherUndoes | BaseLib/CipherBlowfish.cpp:697-741 | Deciphering undoes enciphering for all subkeys and S-boxes and every block |
| BlowfishStandard.RepeatedKey | BaseLib/CipherBlowfish.cpp:662-672 | A key written twice gives the same tables |
| CipherBlowfish.BlowfishMatrix.Encipher | BaseLib/CipherBlowfish.cpp:697-718 | The rounds written out on two words are the sixteen Feistel rounds with the exchanges |
| CipherBlowfish.BlowfishMatrix.Decipher | BaseLib/CipherBlowfish.cpp:720-741 | The same with the subkeys in reverse order |
| CipherBlowfish.BlowfishMatrix.ProcessBlocks | BaseLib/CipherBlowfish.cpp:743-764 | In place, each whole block replaced by its image, and the number of bytes in whole blocks returned |
| CipherBlowfish.ImageIs | BaseLib/CipherBlowfish.cpp:743-764 | The image of a block, as two little-endian words, is its enciphering, and back its deciphering |
| CipherBlowfish.MixKey | BaseLib/CipherBlowfish.cpp:662-672 | Each subkey combined with the next four key bytes, taken in a circle by the remainder of C, for a length of either sign |
| CipherBlowfish.BlowfishMatrix.Initialize | BaseLib/CipherBlowfish.cpp:649-691 | The whole schedule for as many key bytes as the magnitude of the length, whatever the matrix held before; a length of zero fails with only the initial tables in place |
| CipherBlowfish.BufferRoundTrip | BaseLib/CipherBlowfish.cpp:743-764 | The two buffer loops undo each other for every length |
| BlowfishGlobals.BlowfishGlobals.Encipher | BaseLib/CipherBlowfish.cpp:542-563 | The same rounds on the global tables |
| BlowfishGlobals.BlowfishGlobals.Decipher | BaseLib/CipherBlowfish.cpp:565-586 | The same with the subkeys in reverse order |
| BlowfishGlobals.BlowfishGlobals.Initialize | BaseLib/CipherBlowfish.cpp:606-647 | The whole schedule on the global tables |
| BlowfishGlobals.TwoInitializers | BaseLib/CipherBlowfish.cpp:606-691 | The two initializers build identical tables from every key, and a block enciphered with the global tables is deciphered with the matrix |
| CipherBlowfish.ShortIsZero | BaseLib/CipherBlowfish.cpp:779-789 | The short of a length is zero if and only if the length is a multiple of 65536, and its magnitude never asks for more key bytes than the length |
| CipherBlowfish.CipherBlowfish.SetKey | BaseLib/CipherBlowfish.cpp:779-789 | The result codes, a division by zero exactly for multiples of 65536, and otherwise the schedule of as many key bytes as the magnitude of the length as a short |
| CipherBlowfish.CipherBlowfish.Decrypt | BaseLib/CipherBlowfish.cpp:821-845 | The result codes; otherwise the whole blocks of the data, or of zeros if the output is the input buffer, deciphered, a remainder copied, zeros behind it, and the bytes in whole blocks counted |
| TwofishStandard.IndexOf | BaseLib/CipherTwofish.cpp:549-551 | The boxes are entered by the bytes of the word, the first one by the least significant |
| TwofishStandard.GBits | BaseLib/CipherTwofish.cpp:549-551 | Each bit of g is the parity of that bit in the four entries |
| TwofishStandard.Rotations | BaseLib/CipherTwofish.cpp:561-572 | The sums of shifts are rotations by one to the left and to the right, and by eight to the left |
| TwofishStandard.TransformOf | BaseLib/CipherTwofish.cpp:561-572 | Beside the round subkeys, a value of g that is alone reaches both outputs, the second one doubled in the second output; values 5 and 7 together show both counts |
| TwofishStandard.WhiteningOnly | BaseLib/CipherTwofish.cpp:710-740 | With S-boxes and round subkeys of zeros, the whitening, eight rotations of each word by one bit and the exchange of the halves are left |
| TwofishStandard.RotatedIndices | BaseLib/CipherTwofish.cpp:549-555 | The rotation by a byte inside g is a rotation of the order of the boxes |
| TwofishStandard.DecipherUndoes | BaseLib/CipherTwofish.cpp:710-819 | Deciphering undoes enciphering for all S-boxes, whitening and round subkeys and every block |
| CipherTwofish.SumsAreHadamard | BaseLib/CipherTwofish.cpp:561-572 | The sums of both round macros are the pseudo-Hadamard transform with the subkey |
| CipherTwofish.TwofishContext.HalfCycle | BaseLib/CipherTwofish.cpp:561-572 | The macro on the buffer in place is one round with its exchange, or the round undone |
| CipherTwofish.TwofishContext.EncryptByBlock | BaseLib/CipherTwofish.cpp:710-740 | The block written is the image of the block read; nothing else is written |
| CipherTwofish.TwofishContext.DecryptByBlock | BaseLib/CipherTwofish.cpp:782-819 | The same for deciphering |
| CipherTwofish.ImageIs | BaseLib/CipherTwofish.cpp:710-819 | The image of a block, as four little-endian words, is its enciphering, and back its deciphering |
| CipherTwofish.TwofishContext.Encrypt | BaseLib/CipherTwofish.cpp:742-780 | The result codes; otherwise the data with zeros up to a multiple of 16, enciphered block by block, and nothing written behind it |
| CipherTwofish.TwofishContext.Decrypt | BaseLib/CipherTwofish.cpp:821-854 | The result codes; otherwise the whole blocks deciphered and nothing written behind them |
| CipherTwofish.RoundTrip | BaseLib/CipherTwofish.cpp:742-854 | Decrypting what was encrypted gives the data with zeros up to a multiple of 16 |

## Left out

- Sockets, completion ports, events and CryptoAPI: completions and failures are nondeterministic steps or parameters.
- `_IoPostCount` and the shutdown it times, session lists, serializers, logging, configuration, game tables and formulas.
- The path where `IsValidPacket` is false on receive: the header at the pop cursor always gives the attached size, so it cannot be taken.
- Framing of encrypted headers, and the branch of `CompleteRecv` that looks at the opcode before decrypting: framing is proved without an encoder, the encoder on its own.
- The step of `CompleteRecv` that moves the work cursor and posts the message is one step of the model.
- CircularQueue.CircularQueue.IncreasePopPos: one step of the model, though the source writes the cursor twice; `ReceiveRaces` says when a size read in between is right.
- Integer widths of the ring cursors and buffer lengths: sizes below 2^31 are taken for granted. MD5's 32-bit arithmetic is modelled.
- Allocation failures and NULL arguments of internal calls; NULL arguments of the cipher interfaces are modelled.
- LinkArray.LinkArrayStatic.Remove: the early return for a position out of range or an empty list is modelled; for any other position that is not live only the outcome is stated, not the pointers.
- `LinkArray::Precreate` and `LinkArray_Static::Clear`, which name an undeclared member, `GetPosition`'s pointer arithmetic and the inserted object's own copy.
- DES blocks and key chunks held in local arrays of 4 to 8 characters, and the local words of the other ciphers, are values here; tables, contexts and buffers are arrays. Masks and shifts of non-negative integers are written as division and remainder.
- CipherMd5.Md5Context.Update: the two count words are fields, not an array of two.
- The digits of pi in Blowfish's initial tables: the schedule is proved for every initial table.
- Published answers of Blowfish and Twofish: they need those digits and Twofish's key schedule. The round functions are fixed by laws instead.
- BlowfishStandard.RepeatedKey: on keys of at least one byte; for none the schedule divides by zero, as `CipherBlowfish.CipherBlowfish.SetKey` says.
- The buffer loops on the global Blowfish tables, which repeat those on the matrix. Input and output buffers that overlap in part.
- `CipherBlowfish::Encrypt`, which clears its own pointer before it writes through it.
- `CipherTwofish::SetKey`: the blocks are proved for every expanded key.
- AcceptProtocol.AcceptBound: a negative maximum is not considered. `_TotalAcceptCount`, which is raised outside the lock, is left out.
- RSA, Triple DES and random keys through CryptoAPI.
- Packet reading and writing operators, which would add easy members only.

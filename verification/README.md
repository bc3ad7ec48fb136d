# BoaVoice in Dafny

BoaVoice is a self-hosted voice, screen-share and chat system. This project models its small state machines and proves
what they are for, for every input, every run and every reachable state:

- `Ring`, `RingInterleaving`: the lock-free single-producer single-consumer ring, first as a class on its array, then
  at the granularity of single loads and stores, every interleaving.
- `Annexb`, `AnnexbRoundTrip`, `Pacer`, `Wire`: the streaming Annex-B parser that survives any chunking, the round trip
  with a writer, the pacer as a token bucket, and a picture's way through both onto the wire.
- `Media`, `Reassembler`, `LossyNetwork`, `Tap`: packet headers and fragments, reassembly with bounded memory, and what
  comes out of it over a network that loses, reorders and duplicates.
- `Control`, `Hub`, `HubInvariant`, `Session`, `ClientVoice`, `Replica`, `KeyEpochs`: voice membership. The hub mutates
  one state and broadcasts deltas, each client folds a snapshot and deltas into a replica, and keys live as long as a
  channel is occupied.
- `ClientState`, `History`: the client's logs, and paging backwards through a channel.
- `Resampler`, `Sequence`, `Playback`: the way of a voice packet to the loudspeaker.
- `Governor`, `Packer`: bitrate control, and re-blocking a pipe's bytes into packets.
- `Blobs`: content-addressed attachments and the janitor that may die between any two of its calls.
- `Coverage`, `Icon`, `Png`: area-averaging, and undoing PNG filters in place.
- `Arith`, `Common`: shared arithmetic and types.

What changes state in the system is a class here, or a method with loops; its contract equates the whole new state with
a function of the old one, and the theorems are about those functions. `dafny verify dfyconfig.toml` checks everything.

Assumptions that shape the theorems:

- A handler, and a connection's arrival with its first frame, is one atomic step (`Replica.Next`). The hub's lock is in
  fact released between the change and the broadcast (crates/boa-server/src/session.rs:445-457) and between the
  snapshot and its queueing (crates/boa-server/src/session.rs:294-300); replica agreement is proved under atomicity.
- A join needs two free stream ids, because the second is taken before the first is entered
  (crates/boa-server/src/hub.rs:232-235): `Hub.SecondIdDiffers` gives the exact condition and `Hub.RoomForTwo` a bound
  under which it holds. Random keys are never drawn twice.
- The loads and stores of the ring are taken in one order, as release and acquire give to a single producer and a
  single consumer.
- Floating point is exact: real numbers for `f32` and `f64`.
- SQL queries are comprehensions, and the order of their answers is arbitrary where the query does not say.

Findings. `Governor`: an encoder told only of worthwhile changes stays within a twentieth of its own bitrate of the
target, but not within a twentieth of the target (`Governor.ATwentiethOfTheTarget` says for which shares), and a share
configured below the floor is never told to rise to it (`Governor.BelowTheFloor`). `Playback`: the slack of eight frames
is enough for every device rate, not only for usual ones.

Functions that a method and its specification share (`Hub.StateOf`, `Annexb.NalType`, `Media.IsScreen`,
`Resampler.Between`, `Playback.Taken` and the like) each have a theorem that says what they mean without naming them.

## Model

| member | source | states |
|---|---|---|
| `Ring.MaskIsRemainder` | crates/boa-client/src/audio/ring.rs:36-50 | Masking with one less than a power of two is the remainder by it, on all naturals, so the ring's `& mask` arithmetic is arithmetic modulo the capacity. |
| `Ring.BitOfAnd` | crates/boa-client/src/audio/ring.rs:57-61 | The mask is taken bit by bit: one exactly where both numbers have one. |
| `Ring.Occupied` | crates/boa-client/src/audio/ring.rs:57-61 | The occupancy computed by 64-bit wrapping subtraction and masking is the true distance from the read to the write index. |
| `Ring.Ring.constructor` | crates/boa-client/src/audio/ring.rs:42-50 | The capacity is a power of two that is at least what was asked for, and the ring starts empty. |
| `Ring.Ring.Len` | crates/boa-client/src/audio/ring.rs:57-61 | With nobody interfering, the length is the number of waiting samples, always below the number of cells. |
| `Ring.Ring.Push` | crates/boa-client/src/audio/ring.rs:72-83 | With nobody interfering, everything that fits is appended in order and the overflow, exactly, is dropped. |
| `Ring.Ring.Pop` | crates/boa-client/src/audio/ring.rs:89-99 | The oldest waiting samples come out in order; the tail of the caller's buffer is left alone. |
| `Ring.Ring.Clear` | crates/boa-client/src/audio/ring.rs:106-108 | Everything waiting goes, and only the read index moves. |
| `RingInterleaving.StoreMissesUnread` | crates/boa-client/src/audio/ring.rs:72-83 | The cell a push stores into, chosen from index snapshots that may be stale, is none of the cells holding unread samples. |
| `RingInterleaving.EveryInterleaving` | crates/boa-client/src/audio/ring.rs:72-108 | For every interleaving of single loads and stores of a producer's pushes with a consumer's pops and clears: the pops and clears walk the accepted samples in order from the first, and the occupancy from the two words is the true one and at most the capacity less one. |
| `RingInterleaving.UnreadNeverOverwritten` | crates/boa-client/src/audio/ring.rs:72-108 | Whichever thread acts next at any point of any interleaving, every unread sample stays in its cell. |
| `RingInterleaving.PushAlone` | crates/boa-client/src/audio/ring.rs:72-83 | A push nobody interrupts, taken step by step, does what `Ring.Push` promises. |
| `RingInterleaving.PopAlone` | crates/boa-client/src/audio/ring.rs:89-99 | A pop nobody interrupts, taken step by step, does what `Ring.Pop` promises. |
| `RingInterleaving.ClearAlone` | crates/boa-client/src/audio/ring.rs:106-108 | A clear nobody interrupts, taken step by step, goes past everything waiting. |
| `RingInterleaving.LenByProducer` | crates/boa-client/src/audio/ring.rs:57-61 | Asked by the producer's thread, with anything the consumer does between the two loads of `len`, the length is the true one at the second load. |
| `RingInterleaving.LenByConsumer` | crates/boa-client/src/audio/ring.rs:57-61 | Asked by the consumer's thread, with anything the producer does in between, the length is the true one at the first load. |
| `Annexb.StartCodes` | crates/boa-client/src/screen/send.rs:963-975 | The scan finds the payload offset of every start code that scanning on from the last one meets, in order. |
| `Annexb.NalEnd` | crates/boa-client/src/screen/send.rs:950-956 | The end found for a unit is the last non-zero byte before the next start code. |
| `Annexb.SliceIsTrimmed` | crates/boa-client/src/screen/send.rs:950-956 | A unit's end never falls below its start, and the slice between them is the unit without its trailing zeros. |
| `AnnexbRoundTrip.TypeIsOfType` | crates/boa-client/src/screen/send.rs:977-983 | A unit's type is `t` exactly when its first byte that is not zero is `32 * h + t` with `t` below 32, whatever `h` is and whatever follows. |
| `Annexb.Parser.Take` | crates/boa-client/src/screen/send.rs:899-923 | A slice completes a picture made of the waiting units and itself; parameter sets set its keyframe flag; a unit without a type byte is ignored. |
| `Annexb.Parser.TakeAll` | crates/boa-client/src/screen/send.rs:889-931 | Cutting at the offsets takes exactly the units of the buffer and leaves exactly what follows the last start code. |
| `Annexb.Parser.Feed` | crates/boa-client/src/screen/send.rs:883-931 | One call computes `Fed`: the pictures and the whole new parser state as a function of the old state and the bytes. |
| `Annexb.FeedTwice` | crates/boa-client/src/screen/send.rs:883-931 | From any state at all, two reads give the pictures and the state of one read of both. |
| `Annexb.FeedSettles` | crates/boa-client/src/screen/send.rs:883-931 | No call leaves a complete unit waiting, and a call with nothing then changes nothing. |
| `Annexb.ChunkInvariance` | crates/boa-client/src/screen/send.rs:869-931 | However a pipe cuts a stream, the pictures, in order, and the final state are those of reading it whole. |
| `AnnexbRoundTrip.AbsorbGroups` | crates/boa-client/src/screen/send.rs:899-942 | The parser groups units so that parameter sets and everything else ride with the next slice, and the group's flag is set by a parameter set or an IDR slice. |
| `AnnexbRoundTrip.RoundTrip` | crates/boa-client/src/screen/send.rs:881-983 | Any clean units (clauses B.1.1 and 7.4.1 of ITU-T H.264), written with start codes of either length and any zero padding and read in any chunks, come back as pictures holding exactly those units in order; what follows the last slice is kept for the next picture. |
| `AnnexbRoundTrip.PicturesAreTheUnits` | crates/boa-client/src/screen/send.rs:881-983 | The same in bytes alone: what is written is cut after each unit whose first byte that counts is `32 * h + 1` or `32 * h + 5` and nowhere else; picture by picture the bytes are those units, each behind `0, 0, 0, 1`, and a picture is a keyframe exactly when it is closed by a `32 * h + 5` or holds a `32 * h + 7` or `32 * h + 8`. |
| `AnnexbRoundTrip.PictureReparses` | crates/boa-client/src/screen/send.rs:881-983 | Parsing the bytes of a picture of clean units, closed by a start code, gives that picture and no other. |
| `AnnexbRoundTrip.PicturesOfAnyStream` | crates/boa-client/src/screen/send.rs:881-983 | Whatever bytes are fed, in whatever chunks, the pictures that come out are those of the groups of some clean units. |
| `AnnexbRoundTrip.EveryPictureReparses` | crates/boa-client/src/screen/send.rs:881-983 | So every picture the parser ever returns, on any bytes at all, parses to itself again. |
| `Pacer.PerByteIsTheCeiling` | crates/boa-client/src/screen/send.rs:717-720 | The price of a byte is within one nanosecond of its time at one and a half times the bitrate with the 3 Mbit/s floor, and never zero. |
| `Pacer.PerByteIsAntitone` | crates/boa-client/src/screen/send.rs:717-720 | A share configured for more bits never pays more for a byte. |
| `Pacer.HalfAgain` | crates/boa-client/src/screen/send.rs:717-720 | The ceiling is half as much again as the bitrate from 2000 kbit/s on, and 3 Mbit/s below. |
| `Pacer.Pacer.constructor` | crates/boa-client/src/screen/send.rs:698-700 | A pacer starts with no debt and no credit, at the price of its bitrate. |
| `Pacer.Pacer.AimAt` | crates/boa-client/src/screen/send.rs:723-728 | The price follows the bitrate; the schedule is left alone. |
| `Pacer.Pacer.Take` | crates/boa-client/src/screen/send.rs:731-749 | The call returns no earlier than a sleep would allow, and charges the datagram from the later of the schedule and now. |
| `Pacer.TokenBucket` | crates/boa-client/src/screen/send.rs:731-749 | For any clock, oversleeping, idling and price changes: what is charged in any stretch of calls is at most the time the stretch took plus 100 microseconds. |
| `Pacer.NextIsAccountedFor` | crates/boa-client/src/screen/send.rs:731-749 | And nothing is held back without cause: the schedule is always some earlier call's time, or the start, plus exactly what was charged since. |
| `Pacer.NeverOutrunsTheCeiling` | crates/boa-client/src/screen/send.rs:717-749 | In bits: a share that keeps its bitrate never outruns one and a half times it by more than the rounding of the price and the 100 microseconds. |
| `Wire.DatagramsFit` | crates/boa-client/src/screen/send.rs:781-787 | Every datagram of a picture fits 1200 bytes with header and tag, and the receiver reads its piece of the picture out of it, as long as the pieces can be counted in 16 bits. |
| `Wire.Wire.Put` | crates/boa-client/src/screen/send.rs:764-796 | A picture goes out as one datagram for each fragment, in order, with one kind and timestamp and rising numbers modulo 2^32; each is charged its whole size at the bitrate of the moment, on an unbroken schedule. |
| `Wire.PictureIsSpread` | crates/boa-client/src/screen/send.rs:780-787 | By the time a picture's last datagram goes, all before it have been paid for in time, but for 100 microseconds. |
| `Media.HeaderRoundTrip` | crates/boa-proto/src/media.rs:181-210 | Decoding an encoded header gives the header back, whatever follows it. |
| `Media.HeaderInverse` | crates/boa-proto/src/media.rs:192-210 | Only the encoding of a header decodes: sixteen bytes that decode are the encoding of what they decode to. |
| `Media.HeaderLayout` | crates/boa-proto/src/media.rs:181-210 | What every sixteen bytes decode to, byte by byte: the magic 0xB0A1, version 1, the five kinds 0 to 4, and three 32-bit numbers with the most significant byte first; and which error every other input gives, the first that applies. |
| `Media.Encode` | crates/boa-proto/src/media.rs:181-190 | Filling the buffer field by field gives the header's bytes, big-endian. |
| `Media.ChunksConcat` | crates/boa-proto/src/media.rs:392-398 | The chunks of a frame, put together in order, are the frame. |
| `Media.FullChunks` | crates/boa-proto/src/media.rs:384-398 | Every chunk but the last is 1164 bytes, which with both headers and the tag is 1200. |
| `Media.FragmentRoundTrip` | crates/boa-proto/src/media.rs:401-421 | A written fragment reads back as its index, count and bytes. |
| `Media.FragmentLayout` | crates/boa-proto/src/media.rs:401-421 | A fragment is read from any bytes exactly when they start with two 16-bit numbers, most significant byte first, the first below the second; the rest is the piece. |
| `Media.FragmentsArrive` | crates/boa-proto/src/media.rs:392-421 | Every fragment of a frame reads back with its place and its bytes exactly when the frame has at most 65535 fragments. |
| `Reassembler.SortByAge` | crates/boa-client/src/screen/recv.rs:413-429 | Sorting the part-built pictures by their distance behind the newest gives each key once, nearest first. |
| `Reassembler.KeptBySorting` | crates/boa-client/src/screen/recv.rs:418-428 | Dropping all but the first two after sorting keeps exactly the pictures with fewer than two nearer ones, so the map's iteration order makes no difference. |
| `Reassembler.Assembler.NoteNewest` | crates/boa-client/src/screen/recv.rs:413-429 | The newest timestamp follows the circle, exactly the pictures with two nearer ones go, and each is counted. |
| `Reassembler.Assembler.Feed` | crates/boa-client/src/screen/recv.rs:367-410 | One call computes `Fed`: state, picture and losses, for nonsense, single fragments, contradictory counts, duplicates and completions alike. |
| `LossyNetwork.FeedIsHealthy` | crates/boa-client/src/screen/recv.rs:367-429 | For any bytes at any moment at most two pictures stay part-built, and a picture that is complete is returned in that very step with nothing given up. |
| `LossyNetwork.OneOfThreeGoes` | crates/boa-client/src/screen/recv.rs:413-429 | Of three part-built pictures exactly the one farthest behind the newest on the circle is abandoned. |
| `LossyNetwork.NewestIsLatest` | crates/boa-client/src/screen/recv.rs:413-418 | With timestamps inside half the circle, the newest is the one stamped later in true time. |
| `LossyNetwork.OnlyTheOldestGoes` | crates/boa-client/src/screen/recv.rs:413-429 | With timestamps inside half the circle, a picture stays exactly when fewer than two part-built ones are newer in true time. |
| `LossyNetwork.EveryEntryIsAccountedFor` | crates/boa-client/src/screen/recv.rs:367-429 | Over any sequence of payloads, entries created are entries completed, dropped and in flight. |
| `LossyNetwork.EveryPictureIsExact` | crates/boa-client/src/screen/recv.rs:367-429 | Under any loss, reordering, duplication and interleaving of the fragments of pictures with distinct timestamps, every picture returned is byte for byte the one sent under its timestamp. |
| `LossyNetwork.LastFragmentDelivers` | crates/boa-client/src/screen/recv.rs:367-429 | A picture that never has two newer ones part-built beside it is returned, whole, by the delivery of its last missing fragment, in whatever order and however often the others came. |
| `LossyNetwork.ArrivesBesideOneNewer` | crates/boa-client/src/screen/recv.rs:367-429 | In particular, while what arrives is of at most one newer picture of several fragments, and of any number of older pictures or single fragments, a picture comes out with its last missing fragment. |
| `Tap.Tap.Feed` | crates/boa-client/src/screen/recv.rs:153-179 | A packet of another stream, or not of video, changes nothing; otherwise a picture assembled is queued whole exactly when there is room, and the books balance: lost is incomplete or had no room, assembled is taken, waiting or had no room. |
| `Tap.Tap.Receive` | crates/boa-client/src/screen/recv.rs:304-308 | The decoder gets the pictures in the order they were assembled. |
| `Hub.FreeFrom` | crates/boa-server/src/hub.rs:466-477 | Counting up through zero ends, on a usable id, whenever one is free, and on the nearest. |
| `Hub.SecondIdDiffers` | crates/boa-server/src/hub.rs:228-236 | The second id of a join, taken before the first is entered, differs from it exactly when another is free. |
| `Hub.RoomForTwo` | crates/boa-server/src/hub.rs:466-477 | As long as two of the 4294967295 ids are unused there are two to hand out. |
| `Hub.SuccessorIsOneStep` | crates/boa-server/src/hub.rs:466-477 | Counting up goes on by one, all the way round through zero. |
| `Hub.Hub.TakeSsrc` | crates/boa-server/src/hub.rs:466-477 | The loop ends whenever a non-zero id is free, across wrap-around, with an id nobody has. |
| `Hub.Hub.RemoveMember` | crates/boa-server/src/hub.rs:481-497 | A member's stream ids, subscriptions and, when the last leaves, the channel's key go with them. |
| `Hub.Hub.JoinVoice` | crates/boa-server/src/hub.rs:228-267 | A join leaves any previous channel, hands out two ids, and uses the channel's key or, for the first one in, a fresh one. |
| `Hub.Hub.SetVoiceFlags` | crates/boa-server/src/hub.rs:274-280 | Mute and deafen change that member's flags only. |
| `Hub.Hub.StartScreen` | crates/boa-server/src/hub.rs:283-300 | A share is announced on the member's own screen stream; without a call there is none. |
| `Hub.Hub.StopScreen` | crates/boa-server/src/hub.rs:306-317 | The member's share ends and every subscription to the member goes, whether or not a share was running; somebody who is no member stops nothing. |
| `Hub.Hub.Watch` | crates/boa-server/src/hub.rs:320-332 | A subscription is recorded exactly between two members of one channel. |
| `Hub.Hub.Unwatch` | crates/boa-server/src/hub.rs:334-338 | Only that subscription goes. |
| `Hub.Hub.BindMediaAddress` | crates/boa-server/src/hub.rs:448-457 | The member's address becomes the one given, which is also what is returned; nothing comes back for somebody who is no member. |
| `HubInvariant.JoinedIsSound` | crates/boa-server/src/hub.rs:228-267 | A join keeps the whole invariant: ids, keys, subscriptions, shares. |
| `HubInvariant.RemovedIsSound` | crates/boa-server/src/hub.rs:481-497 | Leaving keeps the whole invariant. |
| `HubInvariant.NotSharingIsSound` | crates/boa-server/src/hub.rs:306-317 | Stopping a share keeps the whole invariant. |
| `HubInvariant.StoppedIsForgotten` | crates/boa-server/src/hub.rs:306-317 | After a share stops nobody is subscribed to its owner; after somebody leaves neither ids nor subscriptions name them. |
| `HubInvariant.ForwardedToThoseItIsFor` | crates/boa-server/src/hub.rs:385-444 | A datagram is forwarded exactly to the other members of the sender's channel with an address who are not deafened (voice) or have asked for it (screen), and only from the sender's registered address on the sender's own stream. |
| `HubInvariant.OwnStreamIsRouted` | crates/boa-server/src/hub.rs:385-444 | Nothing is dropped that should not be: a member's media on their own stream always goes out, and a keepalive on a live stream always leads to a check under the channel's key. |
| `HubInvariant.SharesReachWatchers` | crates/boa-server/src/hub.rs:385-444 | `VideoKey`, `VideoDelta` and `DesktopAudio` from the owner's address, on the screen stream, go to exactly the others with an address who have asked, each at their own; on the voice stream, or from elsewhere, they are dropped. |
| `HubInvariant.VoiceReachesListeners` | crates/boa-server/src/hub.rs:385-444 | `Voice` from the speaker's address, on the voice stream, goes to exactly the others of the channel with an address who are not deafened; on the screen stream, or from elsewhere, it is dropped. |
| `HubInvariant.KeepalivesRegister` | crates/boa-server/src/hub.rs:385-444 | `Keepalive` on either stream of a member, from any address, leads to the check under the channel's key. |
| `HubInvariant.StrangersAreDropped` | crates/boa-server/src/hub.rs:385-444 | A datagram that names no member's stream is dropped, whatever its kind. |
| `HubInvariant.DeafenedHearNothing` | crates/boa-server/src/hub.rs:274-280 | After somebody sets their flags they are forwarded what a speaker in their channel says exactly when the flag set is not the deafening one, muted or not. |
| `HubInvariant.AskingIsReceiving` | crates/boa-server/src/hub.rs:320-338 | Between two members with addresses, asking for a share leads to being sent it exactly when they are in one channel, and no longer asking leads to not being sent it; pictures and sound alike. |
| `HubInvariant.RebindingMovesTheMember` | crates/boa-server/src/hub.rs:448-457 | After an address is registered what the member says is forwarded from there and from nowhere else, and whatever is forwarded to them goes there. |
| `HubInvariant.StoppedReachesNobody` | crates/boa-server/src/hub.rs:306-317 | Packets of a share that still come after it has stopped reach nobody. |
| `HubInvariant.GoneFromTheRelay` | crates/boa-server/src/hub.rs:481-497 | Whoever has left is sent nothing, and what still comes on their old streams is dropped. |
| `Session.Session.Join` | crates/boa-server/src/session.rs:428-458 | What a join sends and to whom: a leave for the previous channel, credentials to the joiner alone, the new state to all; for a channel that is unknown, of the wrong kind, or cannot be looked up, an error to the joiner alone. |
| `Session.Session.LeaveCall` | crates/boa-server/src/session.rs:460-468 | A member who leaves is announced twice, in order: that their share has ended, whether or not there was one, and that they have left. Nobody else's leaving is announced. |
| `Session.Session.Handle` | crates/boa-server/src/session.rs:428-511 | Each voice and screen request changes the hub and queues its frames as `Handled` says, error paths and a failing database included. |
| `Session.Session.SetFlags` | crates/boa-server/src/session.rs:470-475 | New flags go to everybody as `Replica.EverybodySeesTheRequest` says they are seen; somebody who is in no call gets an error, alone. |
| `Session.Session.Share` | crates/boa-server/src/session.rs:486-497 | A share that is allowed is announced to everybody on the member's own screen stream; otherwise an error goes to the asker alone. |
| `Session.RefusedWithAReason` | crates/boa-server/src/session.rs:428-511 | Exactly the requests that are refused, and why: a channel that cannot be looked up, is unknown or carries text; flags or a share outside a call; a share of no size, of more than 16384 either way, of no or more than 240 frames a second, or of no bitrate; watching somebody in another channel or none. Such a request changes nothing and its sender alone gets that one error; no other request gets an error. |
| `Session.Session.TearDown` | crates/boa-server/src/session.rs:154-167 | The last connection's end leaves the call and announces it in order; an earlier connection's end announces nothing. |
| `ClientState.Search` | crates/boa-client/src/state.rs:339-344 | Binary search finds the id, or the one place it belongs. |
| `ClientState.InsertInto` | crates/boa-client/src/state.rs:339-344 | The result is sorted and holds the message and everything else with another id; there is only one such list. |
| `ClientState.SortedUnique` | crates/boa-client/src/state.rs:339-344 | A log sorted by id is determined by its messages. |
| `ClientState.State.Apply` | crates/boa-client/src/state.rs:200-325 | One frame: the voice map follows `ClientVoice.Applied`, every log stays strictly sorted, one's own confirmed message leaves the pending list. |
| `ClientState.State.Insert` | crates/boa-client/src/state.rs:327-330 | A message goes into its channel's log, which is made if there is none. |
| `ClientState.ConfirmedGoes` | crates/boa-client/src/state.rs:221-227 | A confirmed nonce takes the pending copies with it away and leaves all others, in their order. |
| `ClientState.NothingKnownYet` | crates/boa-client/src/state.rs:221-249 | Of a channel nothing has come from no message is known, and not that there is none. |
| `Replica.ReplicasAgree` | crates/boa-server/src/session.rs:155-167 | In every reachable state of any number of connections, every client that applies the frames still queued for it has exactly the hub's voice states, across joins, moves, rejoins, mutes, shares, disconnects and reconnects. |
| `Replica.ReplicasShowTheMembers` | crates/boa-server/src/hub.rs:500-511 | So in every reachable state every client comes to see exactly the members, each with their own channel, voice stream, mute, deafening and share: the muted as muted and the deafened as deafened. |
| `Replica.StaleIsReplaced` | crates/boa-server/src/session.rs:282-301 | Whatever a client had left from before, once its connection's first frame is taken it sees exactly the members. |
| `Replica.EverybodySeesTheRequest` | crates/boa-server/src/session.rs:428-511 | After any request at any point of any run every client comes to see of its sender what was asked for, field by field: the channel joined, unmuted, undeafened and sharing nothing; nothing after leaving; the two flags as sent; the share as described, or none; all else and everybody else as before. |
| `Replica.NextAgrees` | crates/boa-server/src/session.rs:282-301 | One step of anybody keeps every replica in agreement; a connection's first frame brings any stale replica into it. |
| `Replica.AnswerIsTheChange` | crates/boa-server/src/session.rs:428-511 | The frames a request sends to everybody, folded into the voice states before it, give exactly the hub's voice states after it. |
| `KeyEpochs.EveryRunIsSound` | crates/boa-server/src/hub.rs:228-317 | Over all runs the hub's invariant holds, every member was last handed the channel's current key, and the keys in use are distinct and none was given up before. |
| `KeyEpochs.GivenUpForGood` | crates/boa-server/src/hub.rs:228-267 | With random keys never drawn twice, no key spans two occupancy periods of a channel, or is ever used for another. |
| `KeyEpochs.TargetsHoldTheKey` | crates/boa-server/src/hub.rs:385-444 | Everybody the relay forwards to was last handed the very key the sender was, the channel's own, and nobody who is now in another channel was. |
| `KeyEpochs.RegisteredFromThenOn` | crates/boa-server/src/hub.rs:448-457 | At any point of any run, registering an address moves the member's sending and receiving there. |
| `KeyEpochs.AskedFromThenOn` | crates/boa-server/src/session.rs:505-511 | At any point of any run, a request to watch leads to being sent the share exactly when its owner is in the sender's channel, and a request to stop watching to not being sent it. |
| `KeyEpochs.FlaggedFromThenOn` | crates/boa-server/src/session.rs:470-475 | At any point of any run, who sets their flags is from then on sent what is said in their channel exactly when not deafened. |
| `KeyEpochs.JoinSendsTheKey` | crates/boa-server/src/session.rs:428-458 | The credentials a join queues, with exactly the key the channel then has and the joiner's stream id, go to the joiner's connection and to no other. |
| `KeyEpochs.KeyHolders` | crates/boa-server/src/hub.rs:228-267 | Over all runs, somebody has ever been handed the key a channel now uses if and only if they have joined since it last stood empty, so those who moved away still hold it, and nobody else does. |
| `History.ReadHistory` | crates/boa-server/src/db.rs:389-420 | One extra row, truncation and reversal give the newest messages before the cursor, oldest first and without nonces, and `complete` exactly when there were no more. |
| `History.LimitsWithinReason` | crates/boa-server/src/db.rs:389-395 | A limit from 1 to 200 is kept, none is taken for one, and more for 200. |
| `History.PagesAreTheChannel` | crates/boa-server/src/db.rs:389-420 | Asking for what is before the oldest id received comes to an end; the pages are the channel cut up, nothing twice and nothing missing; and `complete` is on the last page and no other. |
| `History.NewMessagesDoNotDisturb` | crates/boa-server/src/db.rs:389-420 | Messages stored after the first page was read do not change what a later query finds. |
| `History.GrowingTableSamePages` | crates/boa-server/src/db.rs:389-420 | Paging through a table that grows before every request but the first gives the same pages as one that stands still. |
| `History.StripInserted` | crates/boa-client/src/state.rs:339-344 | Putting a copy that carries a nonce into a log, and looking past nonces, commute. |
| `History.OnlyNoncesAside` | crates/boa-server/src/db.rs:587-598 | Nothing but the nonce is looked past: two messages are the same so exactly when id, channel, author and content are. |
| `History.LogIsTheChannel` | crates/boa-client/src/state.rs:221-249 | Whatever order pages and live messages come in, however often, one's own copies with their nonces among them, the client's log is, nonces aside, the channel once each message has come once. |
| `History.FetchedAndLive` | crates/boa-client/src/state.rs:221-249 | Fetching back to the beginning of a channel that keeps growing, while its messages, one's own included, arrive live, leaves the log sorted, without duplicates, known to be complete and, nonces aside, equal to the channel as it then is. |
| `Resampler.ClosedForm` | crates/boa-client/src/audio/resample.rs:48-64 | The output has `n * to / from` samples, rounded up, and sample `j` is the linear interpolation of the input at `j * from / to`, with silence before the first. |
| `Resampler.LineAtWholeTimes` | crates/boa-client/src/audio/resample.rs:48-64 | The line is the input at whole times: silence at zero, sample `k` at `k + 1`. |
| `Resampler.LineIsStraight` | crates/boa-client/src/audio/resample.rs:48-64 | Between neighbouring whole times it is straight: at a part `t` of the way, `1 - t` of the one value and `t` of the other. |
| `Resampler.Interpolated` | crates/boa-client/src/audio/resample.rs:48-64 | Output sample `j` with `j * from = k * to + d`, `d` below `to`, is `to - d` parts of one input sample and `d` parts of the next, in `to` parts; with `d` zero it is the input sample itself. |
| `Resampler.Resampler.constructor` | crates/boa-client/src/audio/resample.rs:32-40 | Rates of zero count as one, and equal rates pass through. |
| `Resampler.Resampler.Process` | crates/boa-client/src/audio/resample.rs:48-64 | A call appends exactly what turns the conversion of all earlier input into the conversion of all input so far. |
| `Resampler.AnyChunking` | crates/boa-client/src/audio/resample.rs:48-64 | However the input is cut into buffers, the output, and its length, are those of the whole. |
| `Sequence.Incoming.Receive` | crates/boa-client/src/audio/pipeline.rs:820-837 | A packet plays after its concealed frames, each counted if the decoder gives one, or is dropped; the expected number moves past what was played whether or not anything decodes. |
| `Sequence.WireDecidesAsIdeal` | crates/boa-client/src/audio/pipeline.rs:701-715 | Within half the circle of what is expected, 32-bit numbers decide and advance exactly as numbers that never wrap. |
| `Sequence.PlaysInOrderOnce` | crates/boa-client/src/audio/pipeline.rs:701-715 | Across any number of wraps the true numbers played are strictly increasing, so each is played at most once. |
| `Sequence.PlaysWhatCame` | crates/boa-client/src/audio/pipeline.rs:820-837 | Nothing is played that did not come. |
| `Sequence.DroppedOnlyWhenLate` | crates/boa-client/src/audio/pipeline.rs:701-715 | A packet is dropped exactly when it, or a later one, has been played. |
| `Sequence.TimelineKept` | crates/boa-client/src/audio/pipeline.rs:820-837 | Frames played and concealed are never more than the numbers from the first to the last, and are exactly as many if and only if every gap was at most five. |
| `Playback.Shared.SlotFor` | crates/boa-client/src/audio/pipeline.rs:197-218 | A stream gets the slot it has, or a free one emptied and unprimed, or none exactly when all are taken by others; no stream has two slots. |
| `Playback.Shared.Mix` | crates/boa-client/src/audio/pipeline.rs:1019-1059 | The block is everybody's next samples times their volume, summed, scaled and clamped; everybody heard moves on by as much, whoever ran out primes again and is counted as an underrun; deafened, it is silence and nobody moves. |
| `Playback.BlockIsTaken` | crates/boa-client/src/audio/pipeline.rs:1019-1052 | Who can fill a block plays their oldest samples times their volume; those are gone, what was played and what waits are what waited, and sample `k` afterwards is sample `n + k` before. |
| `Playback.RunningOut` | crates/boa-client/src/audio/pipeline.rs:1035-1042 | Who cannot plays what there is, then silence; nothing waits then and they are no longer primed. |
| `Playback.NotHeard` | crates/boa-client/src/audio/pipeline.rs:1023-1034 | A free slot, or who is not primed, adds nothing and loses nothing. |
| `Playback.EachSampleOnce` | crates/boa-client/src/audio/pipeline.rs:1019-1052 | Over any run of blocks, with samples coming in between and whatever happens to everybody else, a speaker heard throughout is mixed sample by sample, each once, in order, times their volume. |
| `Playback.SumFromTheFront` | crates/boa-client/src/audio/pipeline.rs:1044-1051 | The mix adds up everybody's part, in whichever order. |
| `Playback.MixedSample` | crates/boa-client/src/audio/pipeline.rs:1054-1059 | A sample of the mix is that sum times the volume set, and full scale of its sign where it is beyond it; to the deafened, silence. |
| `Playback.MadeIsEnough` | crates/boa-client/src/audio/pipeline.rs:1011-1017 | Eight frames of slack are enough at every device rate and every fractional position: at least the frames asked for, and at most one more and nine frames' worth of the device's. |
| `Playback.Deinterleave` | crates/boa-client/src/audio/pipeline.rs:1067-1072 | Each channel's buffer is every other sample of the mix. |
| `Playback.Interleave` | crates/boa-client/src/audio/pipeline.rs:1075-1079 | The queue grows by the two channels' samples in pairs. |
| `Playback.WholeGrows` | crates/boa-client/src/audio/pipeline.rs:1064-1079 | The two resamplers stay in step: they give equally many samples, and their weaving is what is new in the whole. |
| `Playback.Output.Fill` | crates/boa-client/src/audio/pipeline.rs:1004-1080 | When too little waits, a block of the mix of the room as it is goes through both converters, the room moves on by exactly that block, and what is new in the whole is queued; a queue long enough is left alone, and so is the room. |
| `Playback.Output.Callback` | crates/boa-client/src/audio/pipeline.rs:880-893 | What the device gets are the oldest pairs of the queue after `Fill`, each left sample with its right one; what was written and what waits are together the converted mix. |
| `Playback.EveryRun` | crates/boa-client/src/audio/pipeline.rs:880-893 | Over any run of callbacks, whatever becomes of the room in between: exactly the pairs asked for were written, with what waits they are the two channels of everything mixed, each converted by itself and woven together, and after each callback at most as many pairs wait as a callback may ask for and nine frames' worth. |
| `Playback.NeverMoreWaits` | crates/boa-client/src/audio/pipeline.rs:1004-1017 | At no moment of such a run does the queue hold more than twice what a callback may ask for and nine frames' worth. |
| `Playback.MixIsTheRooms` | crates/boa-client/src/audio/pipeline.rs:1004-1059 | In any run, everything mixed is the speakers' own: a callback that mixes adds the block of that moment's room and moves that room on, and no other callback mixes anything. |
| `Governor.Governor.constructor` | crates/boa-client/src/screen/governor.rs:80-87 | A share starts at what was asked for, or the floor. |
| `Governor.Governor.Report` | crates/boa-client/src/screen/governor.rs:100-109 | A report counts by the worst loss worth measuring, and keyframe wishes add up. |
| `Governor.Governor.Decide` | crates/boa-client/src/screen/governor.rs:112-129 | The target stays between the floor and the ceiling, the decision says whether the change is worth reporting, and the round starts again. |
| `Governor.LossIsHundredths` | crates/boa-client/src/screen/governor.rs:100-109 | As long as nothing wraps, the loss of a report is its lost pictures in whole hundredths of all; fewer than five in all do not count. |
| `Governor.StepsInWholeNumbers` | crates/boa-client/src/screen/governor.rs:112-121 | In whole numbers: seven tenths at a tenth lost or more, a twentieth and one more at a fiftieth or less, nothing in between; not below 400, nor up beyond the ceiling. |
| `Governor.WorstIsTheMaximum` | crates/boa-client/src/screen/governor.rs:100-109 | What a round remembers is the maximum of its qualifying losses. |
| `Governor.SameReportsSameDecision` | crates/boa-client/src/screen/governor.rs:100-129 | Neither the order nor the number of reports matters to a decision: not to its bitrate, its flag or its keyframe. |
| `Governor.TargetInRange` | crates/boa-client/src/screen/governor.rs:112-129 | Over any run the target is between the floor and what was asked for, or the floor if that is more. |
| `Governor.UnreportedStepsNeverAccumulate` | crates/boa-client/src/screen/governor.rs:123-128 | After any run of rounds an encoder told only of `changed` decisions is within a twentieth of its own bitrate of the target, exactly when the share was configured at 381 kbit/s or more. |
| `Governor.BelowTheFloor` | crates/boa-client/src/screen/governor.rs:80-87 | A share configured below the floor is never told of a change: the target stays at the floor and the encoder where it was. |
| `Governor.ATwentiethOfTheTarget` | crates/boa-client/src/screen/governor.rs:123-128 | Measured by the target instead, an encoder stays within a twentieth over every run exactly for shares configured at 380 to 420 kbit/s. |
| `Governor.TooFar` | crates/boa-client/src/screen/governor.rs:112-129 | Any share above 420 kbit/s, backed off to the floor, grown once and backed off again, stands at 421 with a target of 400. |
| `Governor.CleanRoundsReachTheCeiling` | crates/boa-client/src/screen/governor.rs:118-121 | From any target, fifteen clean rounds for each doubling that is missing reach the ceiling, and it stays there. |
| `Governor.TwoBadRoundsHalve` | crates/boa-client/src/screen/governor.rs:114-117 | Two bad rounds halve the target, down to the floor. |
| `Governor.NothingOverflows` | crates/boa-client/src/screen/governor.rs:112-129 | With every bitrate the settings allow, no sum or product leaves 32 bits. |
| `Packer.SamplesAreGroups` | crates/boa-client/src/screen/audio.rs:451-460 | Sample `k` is made of the stream's bytes `4k` to `4k + 3`, and fewer than four bytes are held back. |
| `Packer.LowestByteFirst` | crates/boa-client/src/screen/audio.rs:451-460 | Of a sample's four bytes the first is the lowest and the last the highest. |
| `Packer.CutAnywhere` | crates/boa-client/src/screen/audio.rs:442-460 | A cut between two reads makes no difference as long as the odd bytes are carried over it. |
| `Packer.Split` | crates/boa-client/src/screen/audio.rs:442-460 | The carry, one sample from it, and the exact groups of four give the whole samples of the carry and the read together, and the new carry. |
| `Packer.Pump.Read` | crates/boa-client/src/screen/audio.rs:433-463 | After any read the packer has been fed exactly the samples of everything read, and the rest is carried. |
| `Packer.Pump.Run` | crates/boa-client/src/screen/audio.rs:420-465 | The loop feeds every read until the first empty one, or until it is told to stop, whichever comes first, and nothing after. |
| `Packer.Packer.Feed` | crates/boa-client/src/screen/audio.rs:235-266 | Whatever is fed in whatever pieces, what has been sent is a function of the samples alone, and the counters stand for how much that is. |
| `Packer.PacketsAreBlocks` | crates/boa-client/src/screen/audio.rs:235-266 | Packet `i` is block `i` of 1920 samples, none lost, repeated or spliced; numbers rise by one and timestamps by 960 modulo 2^32; fewer than 1920 samples are held back. |
| `Packer.PacketsAreTheStream` | crates/boa-client/src/screen/audio.rs:235-266 | From end to end, sample `j` of packet `i` is the stream's group of four bytes number `1920 i + j`. |
| `Blobs.Server.Store` | crates/boa-server/src/blobs.rs:65-87 | Cut off after any write, what is under a final name is the whole content its name is the hash of; nothing stored before changes; storing the same again is a no-op. |
| `Blobs.Server.RemoveFile` | crates/boa-server/src/blobs.rs:107-114 | A file goes, and being gone already counts as removed. |
| `Blobs.Server.MarkRows` | crates/boa-server/src/db.rs:556-561 | Every row of the hash is marked, and nothing else about it changes. |
| `Blobs.Server.Sweep` | crates/boa-server/src/blobs.rs:171-202 | A pass is a sequence of justified steps, in any order the queries give their answers, cut off after any number of them; left alone it removes and marks exactly the expired, removes exactly the orphans, and counts them. |
| `Blobs.EveryPointIsSafe` | crates/boa-server/src/blobs.rs:171-202 | Wherever a pass stops, also between a file and its rows, every unexpired attachment still has its row and its bytes, and a row says its bytes are gone only once they are. |
| `Blobs.StoppedAndRunAgain` | crates/boa-server/src/blobs.rs:171-202 | A pass broken off anywhere and another at any later time end in the rows and files the later pass alone would have ended in, shared hashes included. |
| `Blobs.LeftBehind` | crates/boa-server/src/db.rs:538-575 | What a whole pass leaves that nobody needs is exactly the files whose every row is already marked as having none. |
| `Coverage.DotsAddUp` | scripts/make-icon.py:260-271 | When every source pixel is given out whole, what all destination pixels take is what there was. |
| `Coverage.BoxesAddUp` | scripts/make-icon.py:244-273 | In two dimensions the boxes of all destination pixels take, together, the whole mask. |
| `Icon.WeightIsTheScale` | scripts/make-icon.py:254-271 | A destination pixel's weights along one axis add up to the source pixels there are to one. |
| `Icon.SharesAreWhole` | scripts/make-icon.py:254-271 | The shares of a source pixel among all destination pixels add up to one. |
| `Icon.SliverIsHarmless` | scripts/make-icon.py:254-258 | Up to a size of 10^9, taking 1e-9 off the far edge cuts no pixel short. |
| `Icon.BoxDownscale` | scripts/make-icon.py:244-273 | The nested loops give every destination pixel the exact area average of the rectangle behind it, fractional edges included. |
| `Icon.MeanOfBlock` | scripts/make-icon.py:244-273 | Scaled down by whole factors each pixel is the plain mean of its own block of the mask. |
| `Icon.CoverageIsConserved` | scripts/make-icon.py:244-273 | Each pixel counted for the area it stands for, the picture's total is the mask's. |
| `Icon.MeanIsPreserved` | scripts/make-icon.py:244-273 | The mean coverage is the same before and after. |
| `Icon.StaysInRange` | scripts/make-icon.py:244-273 | No pixel is darker than the darkest or lighter than the lightest of the mask; coverage in 0 to 1 stays there. |
| `Png.Unfilter` | scripts/make-icon.py:175-199 | In place, each byte becomes its code plus the prediction from the bytes already rebuilt; an unknown filter touches nothing. |
| `Png.WhatFiltersPredict` | scripts/make-icon.py:175-199 | What each filter predicts from left, above and upper left (section 9.2 of the PNG specification): nothing, left, above, half their sum rounded down, or the one nearest to left plus above less upper left, ties going in that order; with nothing left of the first pixel. |
| `Png.UnfilterInvertsFilter` | scripts/make-icon.py:175-199 | For each of the five filters, undoing it gives back the filtered line and nothing else does. |
| `Png.FilterInvertsUnfilter` | scripts/make-icon.py:175-199 | Filtering a rebuilt line again gives the coded bytes. |

## Left out

- Cryptography, Opus, openh264, RNNoise, VideoToolbox, ffmpeg, sockets, tokio, cpal and SQLite's own workings: opaque,
  or parameters.
- The interface, settings, devices, file transfer, HTTP and authentication: input and output, or one-branch facts.
- `net/mod.rs`: reconnecting is an arrival with a stale replica in `Replica`; its timing is not part of this model.
- Interleaving of handlers finer than one message: see the assumptions above.
- Ring.Ring.Clear: is not modelled from a third thread; the code calls it from the receive thread
  (crates/boa-client/src/audio/pipeline.rs:204,224), where only the consumer may.
- Left and right alignment through a full ring: the capacity is odd and a push truncates.
- At-most-once delivery of pictures: a fully duplicated picture is rebuilt, and the model rebuilds it.
- LossyNetwork.EveryPictureIsExact: takes distinct timestamps as given, because the wire stamps milliseconds.
- Nonces: the packet counters restart with each share while the stream id stays.
- Tap.Tap.Feed: keeps the books of the tap alone; the decoder thread also adds to the dropped counter
  (crates/boa-client/src/screen/recv.rs:250,302), which is not part of this model. A lost picture counts as a keyframe
  by the kind of the packet that caused the count, as in the code.
- The `Ready` frame carries the voice states as a map; their order in the list, users, channels and presence are left
  out, and so is a `Ready` that the database fails to provide.
- The routing table's targets carry whose address each is, which the code does not keep.
- Speaking, typing, profile changes, screen reports and file offers: relayed frames without state.
- Attachments of messages, and the idempotent resend of a message already stored.
- History.FetchedAndLive: pages and live messages only; edits and deletions while fetching are not part of this model.
- History.ReadHistory: takes a database that answers.
- Wire.Wire.Put: the preview's copy, the counters and a send that fails are left out; the sequence number rises whether
  or not sending works, as in the code.
- Pacer.Pacer.Take: the moment of return is a parameter, as late as the scheduler likes.
- Playback.Output.Callback: takes buffers that are whole frames, and stops at pairs; spreading a pair over the
  device's channels is left out. Atomic flags are plain fields.
- Playback.Shared.Mix: a speaker's ring is a sequence here; `Ring` and `RingInterleaving` model the ring.
- Governor.Governor.Report: totals wrap at 32 bits as in release builds; debug builds would stop.
- Packer.Packer.Feed: whether a block encodes is a parameter; a send that fails is counted as sent, as in the code.
- Blobs.Server.Store: a hash is any function; that different contents have different hashes is a hypothesis where it
  is needed. Validating the shape of a hash, directories and sizes are left out.
- Blobs.Server.Sweep: no upload or deletion happens during a pass.
- Icon.BoxDownscale: takes destination sizes from 1 to 10^9, for which the 1e-9 in the code is meant; a size of zero
  stops the code with a division by zero.
- Png.Unfilter: the line and the one above have equal length, as the reader makes them.
- Drawing, tiling and composing the icon, and writing PNG and other containers.

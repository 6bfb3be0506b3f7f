# Entropy Key daemon: a verified model

The Entropy Key is a USB device that sends random bytes to a daemon, `ekeyd`. This project models the parts of the
daemon and of the code it shares with the device whose correctness is not visible from one function at a time, and
proves what they are for.

**The session between device and host.** Bytes arrive in arbitrary pieces. `Framer` cuts them into 64-byte frames in a
buffer it compacts in place; its reference is a declarative one: the leftmost greedy selection of windows that start
with "* " and end in CR LF, which is proved unique. `Packets` checks a frame's MAC and decodes it, and is proved inverse
to the device's own encoder in `DeviceFrames`. `Protocol` is the machine of 8 states by 10 packet types; `SessionRuns`
proves what holds over all its runs; `Connections` is the same machine as an object whose handlers update fields, write
to streams and decode a buffer in place. `Session` puts an honest device, a byte channel and the host together:
`Session.EndToEnd` says that over any interleaving, any chunking and any number of re-keys the host's output is the
device's plaintext, and that both sides hold one session key. Its runs may start with a host of any past and with any
bytes on the line that do not form a frame, as long as the two agree on where they are. `Recovery` shows that this is
where every reset ends, with any frames still under way and a device that answers each reset by itself. The three keyed
hashes are arbitrary deterministic functions there. The device is the one that doc/README.protocol describes, with the
repository's encoder.

**Skein-256.** `Threefish` and `SlidingSchedule` show that the looping key schedule, where two windows slide through one
array and one of the writes lands on a cell of the other window, is the modular schedule of "The Skein Hash Function
Family" version 1.1, section 3.3, in an array of exactly the right size; and that the cipher as coded is a permutation.
`Chaining` and `Skein` show that the buffering context computes the UBI of section 3.4 on the concatenation of
everything it has been fed. `KnownAnswers` evaluates the model: it yields the initial value that the repository has
precomputed. `DocumentedFrame` does so for the whole way from `PrepareSkein` to the frame: what the model makes for the
example device of doc/README.protocol is the line printed there, MAC included.

**The EGD server.** `EgdPool`, `EgdClient`, `EgdWorld` and `EgdRuns` model the shared pool, the incremental parser and
the blocking reads, for any number of clients in any interleaving. Entropy is conserved byte for byte, and every client's
input and output are accounted for. `EgdAnswers` proves exactly when all answers are right, and `EgdCommands` when no
complete command is left lying. `EgdLimits` shows runs in which the server falls short of its protocol document, and
`EgdServer` is the Lua code's own form, on tables that are updated.

**Smaller parts.** `Crc8` and `MasterKey`: a checked master key in which one character is replaced by another of the 64
is refused, unless the two mean the same. `Keyring` and `KeyList`: the linked list refines a map, and its text form
reads back. `PollSet` and `PollTable`: callbacks that remove themselves from the arrays being walked.

Where the repository updates state in place, the model does too, and each such method is proved against a specification
function whose properties are then proved as lemmas. What C leaves uninitialised is arbitrary here: the lemmas hold for
every old content of those buffers.

Points where code and documentation differ, and the model follows the code:

- doc/README.protocol:41-48 feeds 96 personalisation characters to the hash. The code switches the block type back while
  the last 32 of them are still buffered, which drops them (`Skein.PersonalisationTailIgnored`). Two of the five strings
  differ only there, so that the MACs of packets and those of long-term re-keying, different uses of the hash in
  doc/README.protocol:20-23, start from one state (`Skein.MacPurposesCoincide`).
- host/keydb.h says that `write_keyring` returns the number of entries; it returns 0 (host/keydb.c:145), which is right
  for an empty keyring only (`KeyList.KeyDb.WriteKeyring`).
- doc/README.protocol describes frames of the types 'B' and 'l', and tells a host that has received a 'B' to wait for an
  information frame. The host does not know these two types and closes the connection
  (`SessionRuns.UnknownTypeCloses`).
- doc/README.egd-protocol promises that a blocking read is served in full. All answers are right if and only if every
  spread-write covers what is owed or runs out exactly between two clients (`EgdAnswers.AnswersRightIff`). With at most
  4112 clients blocked whenever entropy arrives that is always so (`EgdAnswers.FewBlockedFair`). The bound is tight for
  the functions taken alone (`EgdLimits.OneTooMany`), but the daemon stays below it: it polls at most 256 descriptors,
  and with no more clients than that every answer is right (`EgdAnswers.PolledAnswered`).
- After an ADDENTROPY without payload a client is not served at all (`EgdLimits.StuckForever`).
- Of the commands that queue up behind a blocking read only one is tried when the read is over
  (`EgdLimits.QueueStaysBehind`). What is left then is exactly what stood complete behind the first
  (`EgdCommands.UnblockedIff`), and a client that sends nothing while it is blocked never suffers from it
  (`EgdCommands.PatientClientServed`).
- The decoder takes '=' for zero in the first half of a quad, which RFC 4648 does not allow (`MasterKey.FillerAccepted`),
  and `ekey-setkey` decodes any text into a buffer of 33 bytes. It overruns exactly if the good quads at the front of the
  text, at three bytes each less one for each filler at their ends, exceed it (`MasterKey.OverrunsIff`), as they do for
  the encoding of any 34 bytes (`MasterKey.LongKeyOverruns`).
- `ekeyfd_rm` does not look again at the entry it has moved into a gap, so that a descriptor registered more than once
  can survive its removal (`PollSet.RemoveIff`).

Verify with `dafny verify dfyconfig.toml`.

## Model

| member | source | states |
|---|---|---|
| Pem.RoundTrip | device/frames/pem.c:48-124 | decoding what has been encoded gives the bytes back, for every byte string (section 4 of RFC 4648) |
| Pem.RoundTripConcat | device/frames/pem.c:48-124 | two encoded pieces sent back to back decode to the concatenation of the originals, even when the first one ends in fillers |
| Pem.EncodeShape | device/frames/pem.c:42-90 | the encoding has 4*ceil(n/3) characters and the decoder accepts all of them |
| Pem.Reencode | device/frames/pem.c:48-124 | the other way round: whole quads of dictionary characters are what their decoding encodes to |
| Pem.DocumentedFillers | doc/README.protocol:77-80 | one, two and three zero bytes are "AA==", "AAA=" and "AAAA" |
| Pem.DecodeConcat | device/frames/pem.c:92-124 | decoding is compositional behind whole good quads |
| Pem.DecodeStopsAtBadQuad | device/frames/pem.c:107-108 | nothing behind the first bad or incomplete quad is decoded |
| Pem.SplitAtBadQuad | device/frames/pem.c:92-124 | every text splits at its first bad quad, so decoding is determined everywhere |
| Pem.DecodeLength | device/frames/pem.c:92-124 | never more than 3*(n/4) bytes |
| Pem.DecodedLength | device/frames/pem.c:92-124 | exactly three bytes for each quad before the first bad one, less one for each filler in a third or fourth place |
| Pem.EncodeBytes | device/frames/pem.c:48-90 | the encoding loop writes exactly the encoding of its input at its offset, and nothing else |
| Pem.DecodeBytes | device/frames/pem.c:92-124 | the decoding loop writes exactly the decoded bytes at the start of the output, which needs room for these only, and leaves the rest as it was |
| Pem.RoundTrip12 | device/frames/pem.c:126-145 | a sub-code comes back as its low twelve bits |
| Pem.LowBitsFirst | device/frames/pem.c:126-145 | the first character of a pair has the low six bits |
| Threefish.CodedRefinesReference | device/skein/skein_block.c:103-146 | after every injection the coded rounds, which swap the roles of words 1 and 3, are at the state of the standard's mix-and-permute rounds |
| Threefish.CodedCipherIsReference | device/skein/skein_block.c:92-146 | 72 coded rounds and 19 injections are Threefish-256 as in section 3.3 of the Skein standard |
| Threefish.RoundInverse | device/skein/skein_block.c:103-105 | every coded round has a two-sided inverse |
| Threefish.InjectedInverse | device/skein/skein_block.c:92-146 | so has the cipher up to any injection, for every key and tweak |
| Threefish.EncryptIsPermutation | device/skein/skein_block.c:92-146 | for every key and tweak `Decrypt` is a two-sided inverse of the cipher |
| Threefish.EncryptInjective | device/skein/skein_block.c:92-146 | distinct blocks give distinct states before the feed-forward |
| Threefish.KeyParity | device/skein/skein_block.c:84 | the five key words of the schedule cancel up to 0x5555555555555555 |
| SlidingSchedule.WindowSlides | device/skein/skein_block.c:128-129 | the two writes of an injection slide both windows by one, although the tweak write lands on a key cell |
| SlidingSchedule.SlidingIsModular | device/skein/skein_block.c:28-32 | for every state size and round count, the windows at injection q hold the key words modulo W+1 and the tweak words modulo 3 |
| SlidingSchedule.ArrayIsExact | device/skein/skein_block.c:62 | all writes of a block fit an array if and only if it has W+4+2*RCNT cells |
| Skein.Inject | device/skein/skein_block.c:123-130 | one injection adds the subkey the windows show and moves both windows |
| Skein.StepIsModular | device/skein/skein_block.c:119-148 | a turn of the loop makes the injection that the modular schedule prescribes |
| Skein.CipherBlock | device/skein/skein_block.c:92-197 | the loop on the filled-in array computes the reference cipher and leaves the two tweak words alone |
| Skein.WalkKeepsTweak | device/skein/skein_block.c:128-132 | the walk never comes back to the first three cells |
| Skein.Context.ProcessBlock | device/skein/skein_block.c:75-208 | one block is absorbed: position advanced, cipher, feed-forward, FIRST cleared |
| Skein.Context.ProcessBlocks | device/skein/skein_block.c:42-211 | absorbs consecutive blocks in order |
| Skein.Context.StartNewType | device/skein/skein.h:234-236 | a new block type starts with an empty message; what was buffered is dropped |
| Skein.Context.DrainBlocks | device/skein/skein.c:140-166 | fills and flushes the buffer, takes whole blocks, and always leaves 1 to 32 bytes over |
| Skein.Context.Update | device/skein/skein.c:133-177 | the context depends only on the concatenation of everything fed since the type was started, however it was cut up |
| Skein.Context.FinalPad | device/skein/skein.c:626-638 | the chaining value is the UBI of the whole message, and that is what is written |
| Skein.Context.Final | device/skein/skein.c:181-212 | the output is counter-mode output of that UBI value, truncated to the hash length |
| Skein.Context.InitExt | device/skein/skein.c:75-129 | key stage and configuration block give the initial value of the standard; ready for the message |
| Skein.PrepareSkein | device/skeinwrap.c:14-29 | leaves a context ready for a message whose start depends on serial number, secret and personalisation as coded |
| Skein.PersonalisationTailIgnored | device/skeinwrap.c:26-28 | two personalisation strings with the same first 64 characters prepare the same state |
| Skein.MacPurposesCoincide | device/skeinwrap.h:27-33 | for every serial number and secret, the strings for packet MACs and for long-term re-keying MACs, although different, prepare the same state |
| KnownAnswers.EightRounds | device/skein/skein_block.c:103-148 | eight rounds and two injections, written out as word operations with literal rotations, are the cipher's |
| KnownAnswers.PrecomputedValue | device/skein/skein_iv.h:51-57 | the model's initial value for 256 bits of output is the precomputed one, word for word |
| DocumentedFrame.DocumentedAnnouncement | doc/README.protocol:141 | with the hash of the repository and the default key, the serial-number frame of the device NwBvBlg3OTBJORFD is the documented line, MAC included |
| DocumentedFrame.DocumentedAccepted | doc/README.protocol:141 | that line is accepted, with or without the default key installed, and gives the serial number |
| DocumentedFrame.ComputePacketMac | device/skeinwrap.c:14-29 | `PrepareSkein`, one update and `Skein_256_Final_Pad` make that MAC, for every serial number, secret and content |
| Chaining.RunningState | device/skein/skein_block.c:77-206 | after k blocks the state is UBI's, the position word counts the absorbed bytes modulo 2^64, and FIRST is up only before the first block |
| Chaining.FeedForwardUndone | device/skein/skein_block.c:199-202 | without the message block, which is what has been fed forward, a compressed block decrypts to it |
| Chaining.TypeNumbers | device/skein/skein.h:164-175 | the block types have the numbers 0, 4, 8, 48 and 63 |
| Chaining.ConfigFields | device/skein/skein.c:109-126 | the configuration block is "SHA3", version 1, the output length, the tree parameters and zeros, in this order |
| Chaining.FirstOutput | device/skein/skein.c:181-212 | 32 bytes of output are one block of eight zero bytes compressed under type 63, first and last |
| Chaining.FinalBlockCompletesUbi | device/skein/skein.c:626-638 | padding the buffered bytes and absorbing them under FINAL completes the UBI call of section 3.4 |
| Chaining.SingleBlock | device/skein/skein.c:109-126 | a one-block call with both flags set is a whole UBI call |
| Chaining.AbsorbAppend | device/skein/skein_block.c:75-208 | absorbing in two goes is absorbing at once |
| Framer.FramesAreGreedy | host/frame.c:71-149 | the frames found are frames of the stream, in order, not overlapping, and every frame not taken starts inside one taken |
| Framer.GreedyUnique | host/frame.c:71-149 | there is only one such selection |
| Framer.StepContinues | host/frame.c:90-149 | after every read, whatever follows, what is delivered plus what the kept bytes lead to is the greedy selection of the whole stream |
| Framer.DeliveredSoFar | host/frame.c:71-149 | nothing decided is held back: what has been delivered is all there is so far |
| Framer.FrameReader.Read | host/frame.c:71-149 | a read of any size keeps the buffer the undecided suffix, delivers exactly the next frame, and reports end, error and a frame not yet taken as the code does |
| Framer.FrameReader.Accept | host/frame.c:90-149 | counters and the offset of the last frame are those of the stream |
| Framer.FrameReader.Resync | host/frame.c:96-148 | a full buffer is kept if it is a frame, and otherwise moved down to its next SOF0; a buffer that begins like a frame and is none is counted as a framing error |
| Framer.BadFrameIff | host/frame.c:96-148 | the buffers counted as errors are those that begin with '*' and are no frame |
| Framer.FrameReader.Clear | host/packet.c:247-249 | taking a frame leaves a reader that goes on behind it |
| Framer.NoFalseFrame | host/frame.c:96-143 | no window that starts in junk ends inside or across a frame whose only CR is its end marker |
| Framer.SelfSynchronising | host/frame.c:96-143 | after any junk without a frame of its own, a run of clean frames is delivered in full, with nothing false before it |
| DeviceFrames.FillFrame | device/frames/frame.c:38-52 | fills type, class, the payload up to its NUL, the space padding and the MAC, and leaves the markers alone |
| DeviceFrames.ComputeMac | device/frames/frame.c:27-36 | writes the first and last three digest bytes as eight characters |
| DeviceFrames.CopyPayload | device/frames/frame.c:45-48 | copies the payload's characters up to its NUL or fifty of them |
| Packets.Letters | host/packet.c:154-185 | each type has its one letter |
| Packets.FilledFrameAccepted | host/packet.c:81-109 | a frame filled in under a key passes the MAC check under it, whatever the receive buffer held before |
| Packets.BinaryFrameRoundTrip | host/packet.c:196-233 | for every type, sub-code and up to 36 bytes, reading back a filled frame gives the same type, sub-code and bytes; padding decodes to nothing |
| Packets.TextFrameRoundTrip | host/packet.c:196-226 | text comes back without its trailing spaces, and unchanged if and only if it does not end in one |
| Packets.PacketReader.SetSessionKey | host/packet.c:59-74 | nothing happens while the serial number is unknown |
| Packets.OnlyTagDecodes | host/packet.c:81-109 | of MAC fields of dictionary characters just the tag of the device decodes to the first and last three bytes of a digest |
| Packets.PacketReader.VerifyMac | host/packet.c:81-109 | accepts if and only if the decoded field, over what the buffer held, is the first and last three bytes of the MAC under the installed key; for a field of dictionary characters, if and only if it is the device's tag; only that field must be 7-bit |
| Packets.PacketReader.VerifyPacket | host/packet.c:116-145 | only SNUM passes without a key; a failed check turns the packet into KEYREJECTED; an unknown class is an error |
| Packets.PacketReader.DecodePacket | host/packet.c:196-226 | the buffer starts with the packet's data and the sub-code is the frame's; text may hold any bytes |
| Packets.PacketReader.Read | host/packet.c:236-265 | one read tells the session layer exactly what the frame completed by it says, whatever bytes the stream holds outside the fields decoded |
| Protocol.HandlerShape | host/connection.c:500-531 | which handler can be called in which state and for which packet type |
| Protocol.RunKeepsInv | host/connection.c:577-609 | every step keeps: MAC and pad state of a keyed connection are the same, its key counter is at most 5 (50 after a bad key), and a trusted connection has serial number, keys and MAC state |
| SessionRuns.StepState | host/connection.c:577-609 | every transition into a trusted state: SESSION needs an accepted serial number with a known key, SESSION_SENT a fresh nonce, KEYED_FIRST an authentic key packet that reports twelve nonce bytes, and the key installed is derived from long-term key, its entropy and the nonce; UNTRUSTED leads only to CLOSE, and a keyed state keeps its key |
| SessionRuns.StepCauses | host/connection.c:577-609 | every other change has its cause: INIT and KEYED_BAD are entered by resets, trust is lost over a serial number or for want of randomness, a connection closes exactly when its stream is broken, the device is sent nothing but resets and nonces, and the MAC key changes only with those events |
| SessionRuns.InitReacts | host/connection.c:438-531 | in INIT a serial number of twelve bytes opens a session if it is the known one and in the keyring and loses trust otherwise; every other frame resets |
| SessionRuns.SessionReacts | host/connection.c:500-531 | in SESSION authentic information is ignored, an authentic request is answered, and everything else resets |
| SessionRuns.SentReacts | host/connection.c:299-371 | while a key is awaited, authentic information is ignored, requests are counted up to five, a key for twelve bytes of nonce is installed, and everything else resets |
| SessionRuns.FirstReacts | host/connection.c:99-108 | with a new key, authentic information is ignored, authentic entropy goes through the pad to the output, a failed MAC means a bad key, and everything else resets |
| SessionRuns.KeyedReacts | host/connection.c:382-427 | in KEYED authentic information is ignored, authentic entropy goes through the pad, byte by byte, with a nonce behind number 4095, a request is answered, and everything else resets |
| SessionRuns.BadReacts | host/connection.c:120-138 | after a bad key only genuine requests count, up to fifty, and the next one resets; a host without trust ignores everything |
| SessionRuns.OutputSafety | host/connection.c:382-427 | bytes reach the output only from an ENTROPY frame whose MAC passed in a keyed state, and they are its data through the pad of the same key |
| SessionRuns.OutputOnlyAfterKeying | host/connection.c:338-427 | over runs: output is preceded by serial number, nonce and key packet since the last reset, and uses the key installed then |
| SessionRuns.KeyedHistory | host/connection.c:338-371 | a keyed state goes back to those three steps, in this order, without a reset in between |
| SessionRuns.TrustedHistory | host/connection.c:438-479 | a trusted state goes back to a serial number accepted in INIT, without a reset in between |
| SessionRuns.UntrustedForever | host/connection.c:485-496 | an untrusted connection never puts out a byte again; a closed one never changes |
| SessionRuns.CountersCount | host/connection.c:282-360 | over every run the two 32-bit counters are the numbers of nonces sent and of keys installed, modulo 2^32 |
| SessionRuns.KeysNeedNonces | host/connection.c:249-371 | over every run, keys installed, plus the one awaited, never outnumber nonces sent; nor do the counters before 2^32 nonces |
| SessionRuns.NoncesEqualIff | host/connection.c:272-282 | two nonces of a run are equal if and only if a multiple of 2^32 nonces lies between them and the random source repeats |
| SessionRuns.NoncesFresh | host/connection.c:272-282 | in a run of any length that sends up to 2^32 nonces all are distinct, whatever the random source does |
| SessionRuns.LowByteFirst | host/connection.c:272-280 | the counter in a nonce has its lowest byte first |
| SessionRuns.RequestsCounted | host/connection.c:120-138 | while a key is awaited, and after a rejected key, nothing changes but the counter, which is the number of key requests since, whatever comes between them and however they are cut into reads, and never exceeds 5 or 50 |
| SessionRuns.RepeatedRequests | host/connection.c:120-138 | a key request resets the connection if and only if the limit has been reached (so the sixth, or the fifty-first) or, while a key is awaited, there is no memory for a log string |
| SessionRuns.RequestWithoutMemory | host/connection.c:304-316 | a repeated request that finds no memory for a log string resets at once and is not counted |
| SessionRuns.UnknownTypeCloses | host/packet.c:154-185 | of the documented frame types 'B' and 'l' are unknown, and a frame of an unknown type closes the connection, whatever its class and MAC |
| Connections.InitStates | host/connection.c:500-531 | filling rows and then exceptions gives exactly the handler table |
| Connections.Connection.constructor | host/connection.c:539-569 | a new connection is in INIT with nothing received, sent or put out |
| Connections.Connection.SetSnum | host/connection.c:638-643 | for any text the buffer has twelve bytes, of which only what the text decodes to is set and counted as the length |
| Connections.Connection.ResetPacket | host/connection.c:75-88 | sends ^C, goes back to the default key if the serial number is known, counts the reset |
| Connections.Connection.BadKeyPacket | host/connection.c:99-108 | is the specified step into KEYED_BAD with a fresh counter |
| Connections.Connection.CountPacket | host/connection.c:120-138 | is the specified counting step, with both limits |
| Connections.Connection.KeyReqCountPacket | host/connection.c:299-327 | counts up to the limit of 5, or resets without counting when there is no memory for a log string |
| Connections.Connection.KeyReqPacket | host/connection.c:249-286 | sends the nonce with the counter in front, or gives up trust when there is no randomness, with what has come of it in the nonce buffer |
| Connections.Connection.KeyPacketHandler | host/connection.c:338-371 | installs the derived key for MACs and pads together, or resets when the sub-code is not 12 |
| Connections.Connection.XorPad | host/connection.c:401-404 | the in-place loop decodes the first 32 bytes and leaves the others |
| Connections.Connection.EntropyPacketHandler | host/connection.c:382-427 | puts out the decoded bytes and asks for a new key at sequence number 4095 |
| Connections.Connection.SnumPacketHandler | host/connection.c:438-479 | accepts, compares or rejects the serial number and looks up the long-term key |
| Connections.Connection.Dispatch | host/connection.c:599-604 | the call through the table is the specified handler |
| Connections.Connection.RunOnce | host/connection.c:577-609 | one call is one step of the state machine, for all inputs, errors and contents of uninitialised buffers, and for all bytes outside the fields decoded |
| Session.StaleIrrelevant | host/connection.c:577-609 | as long as the random source does not fail, what uninitialised buffers held makes no difference to a frame of the device |
| Session.CommandIsNonce | doc/README.protocol:437-452 | the device finds exactly the host's nonce in its input, and only once it is complete |
| Session.CommandComplete | doc/README.protocol:437-452 | and as soon as it is complete it does |
| Session.AnnounceAgrees | host/connection.c:438-479 | a serial-number frame takes the host into a session with the device |
| Session.AskAgrees | host/connection.c:249-327 | key requests, first or repeated, leave host and device waiting for the same nonce |
| Session.RekeyAgrees | host/connection.c:338-371 | a key frame, still under the old key, leaves both with the same new key |
| Session.EmitAgrees | host/connection.c:382-427 | an entropy frame appends the device's plaintext to the output, and the last one before a re-key makes the host send a nonce |
| Session.StepKeeps | host/connection.c:577-609 | every step of device or host keeps the two in agreement up to the frames in flight |
| Session.FrontIsJunk | host/frame.c:96-148 | a full buffer that is no frame begins with junk: what is dropped of it costs none of the frames in flight |
| Session.EndToEnd | host/connection.c:577-609 | in every run from where both agree the host never resets or loses trust, its output is always what it was plus a prefix of the plaintext the device has sent since and all of it when no frame is in flight, and then both hold the same session key |
| Session.RestartSettles | host/connection.c:539-569 | host and device agree when the device has come up again, has heard everything and sent nothing, and the host waits for it with any past |
| Session.BeginningIsRestart | host/connection.c:539-569 | a fresh connection and a device that has just been plugged in are such a restart |
| Session.ResetRestarts | host/connection.c:75-88 | a reset into INIT, from any state, and a device that has heard it, in whatever phase it was, are such a restart when no frame is left on the line |
| Session.AlwaysForward | host/connection.c:577-609 | in every world of every run the host can read or the device can take the step that leads on, so that a device waiting for a nonce gets it |
| Recovery.SentIsLate | doc/README.protocol:205-350 | every frame of the device other than a serial number is one of those that the next rows allow to be under way |
| Recovery.LateEffect | host/connection.c:500-531 | under whatever key it was sent, such a frame is answered in INIT by a reset, in SESSION by a reset or not at all unless it is a key request, and in KEYED_BAD it is counted if it is a genuine key request and ignored otherwise |
| Recovery.AnnouncementEffect | host/connection.c:438-479 | a serial number opens a session in INIT, resets in SESSION, and is ignored in KEYED_BAD |
| Recovery.ResetBegins | host/connection.c:75-108 | every reset, from any state, into INIT or over a rejected key, with any such frames and serial numbers under way and any junk before them, begins a recovery |
| Recovery.ReplugBegins | host/connection.c:486-511 | the announcement of a restarted device, passing for authentic or not, resets a host in any trusted state and begins a recovery |
| Recovery.RecoveryEnds | host/connection.c:577-609 | however reads, further frames, and the hearing of single resets, each answered by a serial number, interleave: the host puts out nothing, the arrivals and hearings are bounded by what was under way and sent, and when all is quiet both agree on a session, or the host has rejected a key and not yet seen the device's fifty-first request since |
| Recovery.HasteNeverEnds | host/connection.c:75-88 | a device that asks for a key as soon as it has heard two resets is reset for ever |
| EgdPool.TakeConserves | host/control.lua:285-302 | a request for n bytes gets exactly min(n, total) of them; those and the rest are the old pool, byte for byte |
| EgdPool.TakeIsFront | host/control.lua:285-302 | what is taken is the front of the pool read from its youngest block, and what is left is the rest of it |
| EgdPool.Pool.Enqueue | host/control.lua:277-283 | a block is stored whole or not at all, the total is the sum of the blocks and never above MAX_ENTROPY |
| EgdPool.Pool.Dequeue | host/control.lua:285-302 | the loop terminates, takes from the end, and conserves |
| EgdClient.PackedValue | host/control.lua:330-340 | four bytes, most significant first, are the number modulo 2^32 |
| EgdClient.Pack32 | host/control.lua:330-340 | the digit loop yields those four bytes |
| EgdClient.ExecuteAccounted | host/control.lua:365-427 | a command taken off the buffer keeps the client's account: input consumed, answer right, blocked amounts exact |
| EgdClient.ExecuteConserves | host/control.lua:376-400 | a command moves bytes from the pool to its client and nowhere else |
| EgdClient.ServeAccounted | host/control.lua:342-427 | one attempt, for any buffer: bytes sent are the commands executed followed by the read buffer, and the client is doomed exactly if one of them was unknown |
| EgdClient.IncompleteWaits | host/control.lua:363-411 | an incomplete command leaves client and pool as they are |
| EgdClient.ParseIff | host/control.lua:363-427 | a command is taken from a buffer if and only if the buffer begins with its bytes |
| EgdClient.NothingParsed | host/control.lua:363-427 | nothing is taken if and only if it begins with no command |
| EgdClient.PayloadParsed | host/control.lua:402-415 | a payload goes along if and only if it is not empty and all there |
| EgdClient.DiscardEnds | host/control.lua:349-359 | the payload of ADDENTROPY is done with exactly when it is not empty and all there |
| EgdClient.RefillAccounted | host/control.lua:449-456 | paying what is owed finishes the pending answer |
| EgdWorld.EntropyConserved | host/control.lua:277-302 | over every run, accepted bytes are pool bytes plus bytes handed to clients, and the pool is bounded |
| EgdWorld.NeverTwice | host/control.lua:285-302 | a byte is never handed to two clients, twice to one, or while it is still in the pool |
| EgdWorld.PendingOrderFree | host/control.lua:433-434 | the total owed does not depend on the order in which the table is walked |
| EgdRuns.SpreadAllOrNothing | host/control.lua:429-465 | if no more is owed than the pool can ever hold, a spread-write changes nothing or pays everybody exactly and unblocks everybody |
| EgdRuns.HonouredIff | host/control.lua:445-460 | the walk honours all blocked clients if and only if the pool covers them all or runs out exactly between two of them |
| EgdRuns.FeedSize | host/control.lua:445-460 | the walk takes what is owed, or everything |
| EgdRuns.EveryClientAccounted | host/control.lua:342-465 | over every run and for every client: input is executed commands plus read buffer, output is their answers, blocked amounts are what is missing |
| EgdAnswers.AnswersRightIff | host/control.lua:429-465 | over every run, all answers to all clients have been right if and only if every spread-write was fair |
| EgdAnswers.FewBlockedFair | host/control.lua:435-443 | a run in which at most 4112 clients, or any smaller number, are blocked whenever entropy arrives, however many have connected, is fair |
| EgdAnswers.FewBlockedAnswered | host/control.lua:342-465 | then all answers are right |
| EgdAnswers.PolledAnswered | host/fds.c:14-22 | so it is, and all answers are right, with no more clients than the daemon polls descriptors |
| EgdAnswers.EveryAnswerRight | host/control.lua:342-465 | in a fair run every command of every client is answered as the protocol says, blocking reads exactly |
| EgdCommands.PatientClientServed | host/control.lua:342-498 | over every run, a client that sends nothing while entropy is owed to it never has a complete command lying in its read buffer |
| EgdCommands.UnblockedIff | host/control.lua:445-464 | a client unblocked by a spread-write is left with nothing complete if and only if nothing complete stood behind its first command |
| EgdCommands.EveryCommandServed | host/control.lua:342-427 | in particular a client that never asked for a blocking read has nothing complete lying there |
| EgdCommands.ByteServed | host/control.lua:489-498 | one more byte completes at most one command, and nothing is left of it, a blocking read included |
| EgdLimits.OneTooMany | host/control.lua:435-456 | 4112 is tight for these functions alone: a run with 4113 clients unblocks one of them with 1 byte of 255 |
| EgdLimits.StuckForever | host/control.lua:349-358 | a client waiting for an empty payload never gets another answer in any continuation |
| EgdLimits.EmptyPayloadSticks | host/control.lua:402-415 | the four bytes 3 0 0 0 lead there |
| EgdLimits.QueueStaysBehind | host/control.lua:462-464 | a run after which a client that is no longer blocked has a complete command waiting |
| EgdServer.Server.GetBytes | host/control.lua:309-318 | takes all the bytes asked for or none, and returns nothing for none |
| EgdServer.Server.TryCmd | host/control.lua:342-427 | parsing with push-back is one attempt of the model, and touches no other client |
| EgdServer.Server.AddEntropy | host/control.lua:402-415 | header and payload are consumed together when both are there, otherwise the payload becomes due |
| EgdServer.Server.Receive | host/control.lua:489-498 | a command is tried after every byte |
| EgdServer.Server.TotalPending | host/control.lua:433-434 | the loop adds up what is owed, in whatever order it walks |
| EgdServer.Server.FeedAll | host/control.lua:444-460 | the loop feeds every blocked client once and remembers whom it unblocked |
| EgdServer.Server.SpreadWrite | host/control.lua:429-465 | is the spread-write of the model for the orders it happened to walk in |
| EgdServer.Server.Entropy | host/control.lua:812-815 | is an arrival event of the model |
| EgdServer.Server.Connect | host/control.lua:467-481 | is a connect event of the model |
| Crc8.Compute | host/crc8.c:16-35 | the nested loops compute the specified register |
| Crc8.Anchors | host/crc8.c:16-35 | the generator is 0x31 and the register starts from 0xff |
| Crc8.CheckValue | host/crc8.c:16-35 | the digits "123456789" have the check value 0xf7 |
| Crc8.BitsLinear | host/crc8.c:25-30 | a byte step is linear over exclusive-or and only zero goes to zero |
| Crc8.FromInjective | host/crc8.c:16-35 | what follows a difference cannot undo it |
| Crc8.TwoBytes | host/crc8.c:16-35 | a difference in two neighbouring bytes is missed exactly when the second is the first one shifted out |
| Crc8.CheckByte | host/ekey-setkey.c:165-168 | a message followed by a byte leaves zero if and only if the byte is its check value |
| MasterKey.ExtractMasterKey | host/ekey-setkey.c:154-184 | for every text whose decoding fits the buffer: accepts exactly 33 bytes with the right check byte or 32 bytes, and returns the key |
| MasterKey.OverrunsIff | host/ekey-setkey.c:154-165 | for every text: it overruns the 33 bytes if and only if its good quads, less their fillers at the end, come to more; no text below 48 characters does |
| MasterKey.LongKeyOverruns | host/ekey-setkey.c:154-165 | an encoding overruns if and only if it encodes more than 33 bytes; that of 34 bytes has 48 characters, and not every quad of it decodes in full |
| MasterKey.StripSpaces | host/ekey-setkey.c:286-296 | the in-place loop leaves the text without its spaces, NUL-terminated |
| MasterKey.OneStripped | host/ekey-setkey.c:286-296 | of single characters just the space goes |
| MasterKey.TypedKey | host/ekey-setkey.c:286-298 | spaces anywhere and the newline at the end make no difference, for a key of any length |
| MasterKey.PromptedKey | host/ekey-setkey.c:278-298 | a key of any length typed with spaces is read as without them if the line has up to 54 characters, with or without a newline at its end, whatever follows |
| MasterKey.KeyRoundTrip | host/ekey-setkey.c:154-184 | the 44 characters made from a key and its check byte give the key back |
| MasterKey.ExtractIff | host/ekey-setkey.c:165-183 | of all encodings just those of the key, with or without its check byte, are accepted for it |
| MasterKey.TypoSeen | device/frames/pem.c:92-124 | in a text of any length, changing one character changes the check value if and only if it changes the sextet |
| MasterKey.FullIff | device/frames/pem.c:104-118 | which texts decode to three bytes for every four characters |
| MasterKey.TypoRejected | host/ekey-setkey.c:154-184 | a checked key with any one character replaced by another dictionary character is refused, unless a filler was replaced by what it stands for |
| MasterKey.PrintedKeyTypo | host/ekey-setkey.c:154-184 | for a key as it is printed, any other dictionary character at any place is refused |
| MasterKey.FillerAccepted | device/frames/pem.c:104-118 | for every key whose first byte is below 4 a text that begins with '=' is accepted as that key |
| Keyring.PutIsUpdate | host/keydb.c:80-97 | adding a key is a map update and keeps one entry per serial number |
| Keyring.PutPlaces | host/keydb.c:80-97 | a new serial number comes first, and a known one keeps its place |
| Keyring.KeyLineShape | host/keydb.c:67-77 | a line is sixteen characters, a space, forty-four characters and a newline, and the two fields decode to serial number and key |
| Keyring.KeyLineScans | host/keydb.c:176-181 | a key line is scanned into exactly its two fields |
| Keyring.OneFieldIgnored | host/keydb.c:176-191 | a line with a single field adds nothing |
| Keyring.KeyringRoundTrip | host/keydb.c:100-194 | the text written for a keyring, comment line included, reads back as the same map, and the count is its size |
| KeyList.KeyDb.FindLtkey | host/keydb.c:36-47 | finds the entry the map has, or none |
| KeyList.KeyDb.SnumToLtkey | host/keydb.c:50-64 | looks up in the map |
| KeyList.KeyDb.AddLtkey | host/keydb.c:80-97 | overwrites in place or prepends, and as a map it is an update |
| KeyList.KeyDb.WriteKeyring | host/keydb.c:119-145 | the list walk writes exactly the keyring text, and the 0 returned is the number of entries if and only if there are none |
| KeyList.KeyDb.ReadKeyring | host/keydb.c:162-194 | replaces the list by what the text says, buffers keeping what earlier lines left in them |
| KeyList.DecodeField | host/keydb.c:183-185 | decodes the scanned field over the buffer's old content |
| KeyList.NulStops | host/keydb.c:154-184 | nothing behind a short field's NUL is decoded |
| KeyList.OutputKey | host/keydb.c:67-77 | the two encodings, laid out in one buffer, are the key line |
| PollSet.RemoveOne | host/fds.c:38-54 | of distinct descriptors exactly the one asked for goes; the others keep events and callbacks |
| PollSet.RemoveIff | host/fds.c:38-54 | for every set, duplicates included, a descriptor is still registered after its removal if and only if its entries outnumber those behind the last of them by two or more |
| PollSet.OthersStay | host/fds.c:38-54 | for every set, duplicates included, removal keeps each entry of any other descriptor exactly as often as it was there |
| PollSet.ReadyOnce | host/fds.c:95-103 | the calls due are for distinct descriptors |
| PollSet.MissedStays | host/fds.c:95-103 | a ready descriptor whose turn did not come is still registered with its own callback |
| PollSet.SetClear | host/fds.c:56-78 | setting events and then clearing them is just clearing them |
| PollSet.SetsAndClears | host/fds.c:56-78 | setting sets all events asked for, clearing clears them, and neither touches others |
| PollTable.Table.Add | host/fds.c:26-35 | appends a registration |
| PollTable.Table.Rm | host/fds.c:38-54 | the loop, which goes on behind the moved entry, is the specified removal; the stored results stay where they are |
| PollTable.Table.Change | host/fds.c:56-78 | of each registration with that descriptor the events asked for are set or cleared and all others kept, and nothing else changes |
| PollTable.Table.Poll | host/fds.c:82-108 | although callbacks move entries, each call is one that was due, once, with its own descriptor, results and data; every ready entry up to the final size is called; and exactly those that left are gone |

## Left out

- The hash behind MACs, pads and session keys in the session model is arbitrary, so its results hold for the repository's;
  no claim of cryptographic strength is made.
- Session.EndToEnd: the device is honest, sends no more than five extra key requests in a row, text without CR that is
  not blank, and the host's random source, memory and keyring do not fail; what a host does otherwise is in
  `SessionRuns`.
- Recovery.RecoveryEnds: no key request is sent behind a serial number that the host has still to look at or has just
  accepted, until all is quiet; with such requests the exchange need not end (`Recovery.HasteNeverEnds`).
- Session.EndToEnd: a configured serial number must be the device's twelve bytes, as any other ends in UNTRUSTED or is
  compared in part only. Fairness is not assumed: `Session.AlwaysForward` says which step can be taken, not that it is.
- SessionRuns.NoncesFresh: for a little-endian host, as the counter is stored in memory order.
- Framer.FrameReader.Read: the 64-bit byte counters do not wrap.
- Packets.PacketReader.Read: the fields it decodes are 7-bit, as the inverse table has 128 entries: the MAC of a frame
  that is checked, and the payload of a binary one. The same holds for `Pem.DecodeBytes`, which reads the table.
- Writes to the device and to the output always succeed in full; what is counted is what was submitted.
- Statistics from information packets, and the packet and byte counters of a connection, do not influence the protocol.
- The 512- and 1024-bit variants of Skein, the precomputed values for fewer than 256 bits, and tree hashing.
- Skein.PrepareSkein: that strings which differ in their first 64 characters give different states would be a claim of
  cryptographic strength.
- EgdServer.Server.Receive: closing a connection, receive errors other than a timeout, the socket table, and draining of
  write buffers. As with all of the EGD server, calls that end before the instruction hook stops them (see below).
- EgdRuns.SpreadAllOrNothing: spread-writes that end before the hook of host/control.lua:829-837, which counts Lua
  instructions and raises an error after some ten thousand of them, stops them. It can cut a walk over many blocked
  clients short in the middle of a turn.
- EgdRuns.EveryClientAccounted: the same, as a client in the middle of its turn may have been paid and still be blocked.
- EgdWorld.EntropyConserved: the same, as what a stopped turn has taken from the pool may be lost.
- EgdAnswers.PolledAnswered: the same, and likewise for the other results about runs.
- EgdServer.Server.SpreadWrite: the same.
- EgdServer.Server.Entropy: the same.
- EgdLimits.OneTooMany: not a run of the daemon, because of that hook and of the 256 entries of its poll table.
- EgdWorld.NeverTwice: entropy sent by a client with ADDENTROPY is thrown away by the code and is not entropy here.
- The branch of the spread-write for a partly paid client (host/control.lua:457-458) cannot be reached.
- MasterKey.TypoRejected: replacing a character by '=', which can drop a byte and with it the check, is not covered.
- MasterKey.ExtractMasterKey: what happens once a text has overrun the buffer.
- KeyList.KeyDb.ReadKeyring: files are texts; opening, renaming and permissions of files are left out, and the C
  library's line reading and scanning are taken as specified functions.
- PollTable.Table.Add: there must be room; the code does not look.
- PollTable.Table.Poll: callbacks may change events of any descriptor but remove at most their own, as those of
  host/ekeyd.c do; adding descriptors from inside a callback is left out.
- The Lua binding, the control socket commands, the USB bridge, the kernel and pipe outputs, and all scripts.

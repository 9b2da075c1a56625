# Let's Play, verified

A Dafny model of the parts of the Let's Play server that carry state, arithmetic or interleaving, with
proofs of what they promise. Each part is modelled in the form its source has: loops and classes where the
C++ updates things in place, functions where it computes values, transition systems where two threads meet.

| files | part |
|---|---|
| `Bits.dfy` | powers of two, bitwise or, and machine words read as numbers |
| `Rfc1321.dfy`, `KnownAnswer.dfy`, `Md5.dfy` | MD5 as RFC 1321 states it, one digest of its test suite derived step by step, and the streaming class proved to compute MD5 for every way of cutting the input |
| `Sse.dfy`, `Frame.dfy` | the vector intrinsics, and the frame conversion proved equal to a loop over single pixels |
| `Turns.dfy`, `TurnInvariant.dfy`, `TurnTheorems.dfy`, `TurnAdmission.dfy`, `TurnServer.dfy` | the turn protocol as a transition system, what every step keeps, what every run guarantees, who is admitted and who is dropped, and the handlers as code |
| `RetroPad.dfy`, `Combos.dfy` | the joypad, and the forbidden combinations under interleaved reads, resets and writes |
| `ChatLimit.dfy`, `ChatSize.dfy` | the per-address rate limit with its mute, and the size check on chat bodies |
| `Streams.dfy`, `Decimal.dfy`, `Wire.dfy` | words and numbers on a stream, and the length-prefixed wire protocol |
| `Scheduler.dfy` | the periodic task runner and its pool of futures |
| `History.dfy` | save-state rotation |
| `Usernames.dfy` | username changes, their cooldown, and guest names |

## Results where code and intent differ

* `MD5::update` counts its block index in 32 bits. `Md5.BlockLoopStops` shows that the block loop stops if and
  only if no index wraps (`IndexFits`, implied by a length below 2^32 - 64), and `Update` requires that;
  `Md5.BlockLoopHangs` is a length at which it never stops.
* `SetPixelFormat` describes 0RGB1555 with masks and shifts that leave six-bit values, so a channel can exceed a
  byte. `Frame.Rgb1555Exact` gives the exact condition per channel: the five-bit field is at most 18. With RGB565
  nothing is lost, but full scale is 217 or 189, not 255 (`Frame.Rgb565Exact`).
* A task's next run is computed from the clock cut to milliseconds, so a period is kept to the nanosecond exactly
  when the cut does not fall before the moment of the launch (`Scheduler.PeriodExact`); otherwise some run launches
  the task early, as in `Scheduler.ShortGap`. `Scheduler.PeriodApart` bounds the shortfall by one millisecond, and
  `include/Scheduler.h:103-104` promises the period only approximately.
* `decode(encode(xs))` gives `xs` back exactly when every item is shorter than 1000 bytes and free of NUL bytes
  (`Wire.RoundTrip`), although `include/LetsPlayProtocol.h` names no such limits. A chat body the handler accepts on
  size is never refused by the decoder if and only if `maxMessageSize` is at most 111 (`ChatSize.SizeLimitsAgree`;
  the default is 100).
* Save files sort by name, not by time. For times a < b the older file sorts first exactly when a is at most b
  without the digits it has more than a (`History.NameOrder`). For increasing times the directory is the expected one
  after every save if and only if this holds wherever a file has to go (`History.RotationExact`), so times of one
  width suffice (`OneWidthRotates`); at 9999999999 and 10000000000 the newer file is removed (`NewerFileGoes`).
* While an address cools down after a username change, a newcomer from it gets no name at all, not even a guest
  name: `Usernames.FirstName` says exactly when a user stays nameless.
* The permission test of a button command is skipped when its sender's object has expired. `TurnTheorems.ButtonPermitted`
  states exactly who may write, `ExpiredSenderPresses` is a run in which nobody ever asked for a turn and a button
  is pressed, and the ownership theorem `JoypadOwned` therefore names the exception.
* The decoder reads its lengths with a stream: white space, a sign and leading zeros are accepted in front, and
  `-18446744073709551615` states the length 1 (`Wire.DecodedExact`).
* The table of renames starts every address at the clock's epoch, so nobody gets a name before the clock itself has
  passed the cooldown (`Usernames.CoolingDownIs`).
* `src/Emulator/EmulatorController.cpp:796` excludes a file called `current` from the rotation, but the current state
  is called `current.state`; the test excludes nothing, and the current state is spared only because it has been
  renamed by then. The model keeps the test as it is.

## Model

| member | source | states |
|---|---|---|
| Rfc1321.RotateLeftValue | src/md5.cpp:78-81 | the two shifts and the or are x * 2^n reduced to 32 bits plus the n bits that left, x / 2^(32 - n) |
| Rfc1321.FBits | src/md5.cpp:61-63 | bit k of F is bit k of y where x has a one and bit k of z where it has none |
| Rfc1321.GBits | src/md5.cpp:65-67 | bit k of G is bit k of x where z has a one and bit k of y where it has none |
| Rfc1321.HBits | src/md5.cpp:69-71 | bit k of H is the parity of the three bits |
| Rfc1321.IBits | src/md5.cpp:73-75 | bit k of I differs from bit k of y exactly where x has a one or z has none |
| Md5.FF | src/md5.cpp:84-86 | a round-1 step with a 32-bit addition at every plus sign is the RFC operation with F and one reduction |
| Md5.GG | src/md5.cpp:88-90 | the same for round 2 and G |
| Md5.HH | src/md5.cpp:92-94 | the same for round 3 and H |
| Md5.II | src/md5.cpp:96-98 | the same for round 4 and I |
| Md5.Round1 | src/md5.cpp:160-176 | the sixteen written-out steps equal steps 0 to 15 of the table-driven loop of RFC 1321 section 3.4, for every block and registers |
| Md5.Round2 | src/md5.cpp:178-194 | the same for steps 16 to 31 |
| Md5.Round3 | src/md5.cpp:196-212 | the same for steps 32 to 47 |
| Md5.Round4 | src/md5.cpp:214-230 | the same for steps 48 to 63 |
| Md5.MD5.Transform | src/md5.cpp:156-239 | transform is the RFC compression of the registers with the block |
| Md5.MD5.constructor | src/md5.cpp:118-129 | a new object has absorbed nothing and holds the initial registers |
| Md5.MD5.Decode | src/md5.cpp:134-138 | bytes to words, low-order byte first |
| Md5.MD5.Encode | src/md5.cpp:144-151 | words to bytes, low-order byte first, and nothing beyond them changes |
| Rfc1321.DecodeEncode | src/md5.cpp:134-151 | decoding the encoding of any words gives the words back |
| Rfc1321.DecodeAt | src/md5.cpp:134-138 | word k is the sum of bytes 4k to 4k + 3 times 1, 2^8, 2^16 and 2^24 |
| Rfc1321.EncodeAt | src/md5.cpp:144-151 | bytes 4k to 4k + 3 are the digits of word k in base 256, the lowest first |
| Md5.CountAddCorrect | src/md5.cpp:249-252 | shift, carry and top bits keep the two words equal to 8 times the byte count modulo 2^64 |
| Md5.CountsBitLength | src/md5.cpp:296-298 | the counter is the 64-bit length that RFC 1321 section 3.2 appends |
| Md5.CountIndex | src/md5.cpp:246-247 | count[0] / 8 % 64 is always the number of buffered bytes |
| Md5.BlockLoopStops | src/md5.cpp:266-267 | the 32-bit block loop stops if and only if no index wraps around |
| Md5.BlockLoopHangs | src/md5.cpp:266-267 | at length 2^32 - 64 on an empty buffer every index passes the loop's test |
| Md5.ShortInputFits | src/md5.cpp:266-267 | any length below 2^32 - 64 is safe |
| Rfc1321.Padded | src/md5.cpp:300-306 | a padded message is whole blocks and starts with the message |
| Rfc1321.PaddedMeans | src/md5.cpp:288-306 | behind the message come the byte 0x80, zeros only, and in the last eight bytes the bit length modulo 2^64 |
| Md5.PaddingLength | src/md5.cpp:300-302 | the two-way padLen is one byte plus the least number of zeros that reach 56 modulo 64 |
| Rfc1321.ProcessBlock | src/md5.cpp:265-267 | processing one more whole block compresses it into the registers |
| Rfc1321.ProcessPartial | src/md5.cpp:273-274 | bytes of an incomplete block do not reach the registers |
| Md5.MD5.TakeBlocks | src/md5.cpp:260-269 | after the block part the registers are those of everything up to the last block boundary |
| Md5.MD5.Update | src/md5.cpp:245-275 | update appends its input to what was absorbed: registers, buffer and counter stay those of the whole |
| Md5.MD5.Finalize | src/md5.cpp:288-319 | the digest is the RFC digest of everything absorbed; buffer and counter are cleared; a second call changes nothing |
| Md5.HexSpells | src/md5.cpp:328-331 | digits 2k and 2k+1 of the hexadecimal text spell byte k |
| Md5.MD5.HexDigest | src/md5.cpp:324-334 | the hexadecimal digest after finalize and the empty string before |
| Md5.HashString | src/md5.cpp:344-348 | md5 of a string is the hexadecimal RFC digest |
| KnownAnswer.AlphabetDigest | src/md5.cpp:53-239 | the standard as modelled gives the digest that RFC 1321 section A.5 lists for the lower-case alphabet, derived through all 64 steps, so no constant, rotation, word index or step can differ |
| Md5.HashChunks | src/md5.cpp:245-319 | for every list of chunks, empty ones included, update on each and finalize give the digest of the concatenation |
| Sse.AndLane | src/Emulator/EmulatorController.cpp:629 | the byte-wise AND acts on 16-bit lanes |
| Sse.SrliLane | src/Emulator/EmulatorController.cpp:630 | the lane shift, counts above 15 included |
| Sse.MulloLowByte | src/Emulator/EmulatorController.cpp:632 | byte 2k of the lane product is the low byte of product k |
| Sse.MulLow | src/Emulator/EmulatorController.cpp:632 | the lane product is the product of the two integers modulo 2^16 |
| Sse.JoinValue | src/Emulator/EmulatorController.cpp:623 | a lane loaded from memory is its low byte plus 256 times its high byte, as integers |
| Frame.ChannelLane | src/Emulator/EmulatorController.cpp:628-644 | mask, shift and multiply on eight pixels equal the scalar product pixel by pixel |
| Frame.PackAt | src/Emulator/EmulatorController.cpp:646-669 | the two shuffles put the low bytes of sixteen lanes side by side |
| Frame.InterleaveAt | src/Emulator/EmulatorController.cpp:676-702 | broadcast, spread and OR give 0, R, G, B for each of four pixels |
| Frame.BlockByteIsScalar | src/Emulator/EmulatorController.cpp:620-747 | all 64 bytes from sixteen pixels are those of the one-pixel-at-a-time conversion |
| Frame.Video.Convert | src/Emulator/EmulatorController.cpp:620-749 | the 64 bytes go to the right place and nothing else in the buffer changes |
| Frame.Video.ConvertRow | src/Emulator/EmulatorController.cpp:619-749 | a row equals the scalar row and both indices end behind it, within bounds |
| Frame.ScalarFrameAt | src/Emulator/EmulatorController.cpp:618-753 | quadruple (row, col) of the frame is 0, R, G, B of the pixel at row * pitch + 2 * col |
| Frame.Video.GetFrame | src/Emulator/EmulatorController.cpp:593-756 | null, pass-through and converted frames; the converted buffer equals the scalar frame, all accesses in bounds |
| Frame.Video.OnVideoRefresh | src/Emulator/EmulatorController.cpp:463-479 | the size follows the callback, the format stays, and the buffer is fresh or the old one |
| Frame.Video.BufferHoldsFrame | src/Emulator/EmulatorController.cpp:474-475 | the buffer can hold the frame exactly when the frame's size does not wrap in 32 bits |
| Frame.Video.SetPixelFormat | src/Emulator/EmulatorController.cpp:541-591 | masks and shifts belong to the 16-bit format in force |
| Frame.Rgb565Exact | src/Emulator/EmulatorController.cpp:571-585 | with RGB565 the bytes are 7, 3 and 7 times the integer fields px / 2^11, px / 2^5 % 2^6 and px % 2^5; no channel is cut |
| Frame.Rgb1555Exact | src/Emulator/EmulatorController.cpp:547-563 | with the 0RGB1555 settings every byte is 14 times the five bits of its channel modulo 256, and a channel survives the cut exactly when these are at most 18 |
| Frame.Rgb1555Overflows | src/Emulator/EmulatorController.cpp:550-558 | a concrete pixel whose red product is 434 and is cut to 178 |
| Frame.Rgb565Frame | src/Emulator/EmulatorController.cpp:593-756 | every byte of a converted RGB565 frame as an integer product of a field of the two input bytes of its pixel |
| Frame.Rgb1555Frame | src/Emulator/EmulatorController.cpp:593-756 | the same for 0RGB1555, with the cut to eight bits |
| Frame.PixelValue | src/Emulator/EmulatorController.cpp:623-624 | a pixel is its first byte plus 256 times its second, as integers |
| TurnInvariant.ServeTurnInv | src/LetsPlayServer.cpp:699-729 | admitting a request keeps the invariant: nobody waits twice |
| TurnInvariant.ServeButtonInv | src/LetsPlayServer.cpp:809-882 | a button command keeps the invariant: values belong to the head or to a privileged sender |
| TurnInvariant.ServeConnectInv | src/LetsPlayServer.cpp:732-808 | connecting keeps the invariant: the emulator is set once |
| TurnInvariant.CloseInv | src/LetsPlayServer.cpp:161-206 | a closed connection keeps the invariant |
| TurnInvariant.DrainInv | src/Emulator/EmulatorController.cpp:368-402 | draining a work command keeps the invariant and everybody's place |
| TurnInvariant.CheckInv | src/Emulator/EmulatorController.cpp:328-365 | the turn check keeps the invariant in each of its branches |
| TurnInvariant.RunInv | src/Emulator/EmulatorController.cpp:328-402 | every state of every run keeps it |
| TurnTheorems.WaitsAtMostOnce | src/LetsPlayServer.cpp:712-722 | in every reachable state a live user waits at most once over all turn queues and pending requests, exactly when requestedTurn is set |
| TurnTheorems.OneHolder | src/Emulator/EmulatorController.cpp:330-355 | in every reachable state at most one live user of an emulator has the turn, the head of its queue |
| TurnTheorems.JoypadOwned | src/LetsPlayServer.cpp:812-878 | in every reachable state a nonzero joypad value was written by the current head holding the turn, unless an admin or expired sender wrote it |
| TurnTheorems.ButtonPermitted | src/LetsPlayServer.cpp:812-815 | a button command is carried out exactly when its sender holds the turn, is an admin or has expired |
| TurnTheorems.ExpiredSenderPresses | src/LetsPlayServer.cpp:812-815 | a run from an initial state that ends with a button pressed although nobody asked for a turn |
| TurnTheorems.FirstComeFirstServed | src/Emulator/EmulatorController.cpp:504-511 | whoever waits at position k is at k - r after r removals and leaves as number k + 1, over every run |
| TurnTheorems.RevokedOnlyWhenOver | src/Emulator/EmulatorController.cpp:336-355 | a live holder loses the turn only to a check later than grant plus turnLength with somebody else waiting |
| TurnTheorems.TurnLasts | src/Emulator/EmulatorController.cpp:336-355 | over every run whose clock stays within the turn a live holder keeps it and stays the head |
| TurnTheorems.BoundedWait | src/Emulator/EmulatorController.cpp:330-364 | position k becomes the head within k * (turnLength + 3) + turnLength + 2 checks at later times, whatever all threads do |
| TurnTheorems.HeadIsGranted | src/Emulator/EmulatorController.cpp:336-344 | a connected head without the turn gets it at the next check, for the full length |
| TurnAdmission.OpenServed | src/LetsPlayServer.cpp:92-112 | a new user is connected, without emulator, turn, request or admin rights, and nobody else changes |
| TurnAdmission.ReceiveServed | src/LetsPlayServer.cpp:354-386 | a message joins the end of the inbox with its sender's emulator at that moment |
| TurnAdmission.TurnServed | src/LetsPlayServer.cpp:699-729 | a turn request is admitted, behind everybody who waits, if and only if its sender is alive, connected to an emulator and has no request pending; otherwise nothing changes |
| TurnAdmission.ConnectServed | src/LetsPlayServer.cpp:732-808 | a user gets the emulator asked for exactly when alive, not refused and without one; nobody waits more or less by it |
| TurnAdmission.AdminServed | src/LetsPlayServer.cpp:903-932 | only the sender of an admin message that is not refused gains admin rights |
| TurnAdmission.ButtonServed | src/LetsPlayServer.cpp:809-882 | a button command writes its value to its control, or does nothing, and who is noted as its writer |
| TurnAdmission.NoEmulatorServed | src/LetsPlayServer.cpp:717-843 | a turn or button message that arrived while its sender had no emulator, or one that does not exist, changes nothing |
| TurnAdmission.CheckServed | src/Emulator/EmulatorController.cpp:328-365 | the head leaves exactly when it has expired or its turn is over with somebody waiting; the joypad is released exactly then, and the turn is given exactly to a connected head that stays |
| TurnAdmission.EmptyCheckServed | src/Emulator/EmulatorController.cpp:328-331 | with nobody in the queue a check only notes the time |
| TurnAdmission.ClosedServed | src/LetsPlayServer.cpp:161-206 | closing tells the user's emulator, behind what waits in its work queue, and takes the user off the table |
| TurnAdmission.DrainServed | src/Emulator/EmulatorController.cpp:368-402 | what the first command of a work queue does: a request joins the turn queue, a disconnect clears connected, another command does neither |
| TurnAdmission.DisconnectTakesEffect | src/Emulator/EmulatorController.cpp:531-535 | over every run, once a work queue has been drained past a disconnect, its user is not connected any more and stays so |
| TurnAdmission.RequestBecomesHead | src/LetsPlayServer.cpp:699-729 | from every state that keeps the invariant, a turn request of a live user of an emulator is followed by a run that ends with that user as the head |
| TurnServer.TurnServer.constructor | include/LetsPlayServer.h:211-235 | the empty user table and the emulators at rest, each with its turn length, are an initial state of the protocol |
| TurnServer.TurnServer.OnConnect | src/LetsPlayServer.cpp:92-112 | a new user has no turn, no request and no emulator |
| TurnServer.TurnServer.OnMessage | src/LetsPlayServer.cpp:354-386 | a message captures the emulator its sender is connected to at that moment |
| TurnServer.TurnServer.OnDisconnect | src/LetsPlayServer.cpp:161-206 | tell the emulator, then drop the user from the table |
| TurnServer.TurnServer.QueueStep | src/LetsPlayServer.cpp:438-984 | one command is the protocol's Serve step and keeps the invariant |
| TurnServer.TurnServer.DrainWork | src/Emulator/EmulatorController.cpp:368-402 | one work command is the protocol's DrainOne step and keeps the invariant |
| TurnServer.TurnServer.CheckTurn | src/Emulator/EmulatorController.cpp:328-365 | the turn check is the protocol's Check step and keeps the invariant |
| RetroPad.RetroPad.UpdateValue | src/Emulator/RetroPad.cpp:21-31 | exactly one button or axis changes, or none, and when the access throws |
| RetroPad.RetroPad.AnalogValue | src/Emulator/RetroPad.cpp:8-19 | the value read for every index and id, and when the access throws |
| RetroPad.RetroPad.ResetValues | src/Emulator/RetroPad.cpp:33-42 | all sixteen buttons and four axes are zero |
| RetroPad.RetroPad.GetPressedState | src/Emulator/RetroPad.cpp:3-51 | bit i is set exactly when the value of button i is at most -16384 or at least 16384 |
| Combos.LoadEntry | src/Emulator/EmulatorController.cpp:249-263 | the words of an entry, in lower case, give exactly the named buttons, and the entry is bad exactly when a name is unknown |
| Combos.ButtonNames | src/Emulator/EmulatorController.cpp:165-182 | the sixteen names in the order of their identifiers, and no others |
| Streams.WordsOfSpaced | src/Emulator/EmulatorController.cpp:251-253 | splitting an entry at white space loses, cuts and merges no word |
| Streams.SpacesAre | src/Emulator/EmulatorController.cpp:251-253 | the six white-space characters of the "C" locale, which delimit words |
| Streams.SkipGap | src/Emulator/EmulatorController.cpp:251-253 | white space in front of a stream does not change its words |
| Streams.WordThenGap | src/Emulator/EmulatorController.cpp:251-253 | a word ends at white space or at the end of the stream, and what follows is split by itself |
| Combos.LoadCombos | src/Emulator/EmulatorController.cpp:247-266 | the list holds the combination of every entry that names at least one button and nothing unknown, and nothing else; none is empty |
| Combos.ForbiddenMeans | src/LetsPlayServer.cpp:860-866 | a state is forbidden exactly when every button of some combination is set in it |
| Combos.NextInv | src/LetsPlayServer.cpp:850-870 | each single read, decision, write and single-button reset keeps the joypad safe and the snapshot an over-approximation |
| Combos.NeverForbidden | src/LetsPlayServer.cpp:850-870 | no reachable joypad state holds a forbidden combination, however the handler and the reset interleave |
| Combos.ReleasedIsSafe | src/Emulator/EmulatorController.cpp:264-265 | the released joypad is a safe start if and only if no combination is empty |
| Combos.LoadedListIsSafe | src/Emulator/EmulatorController.cpp:246-266 | for every configured list and every run from the released joypad, no entry that names buttons ever has all its buttons beyond half of their range |
| Combos.AloneWrites | src/LetsPlayServer.cpp:850-870 | without interruption the handler reads all sixteen buttons, decides and writes exactly when no combination would be complete |
| Combos.AloneResets | src/Emulator/RetroPad.cpp:33-42 | without interruption the reset releases every button |
| Combos.HandleButton | src/LetsPlayServer.cpp:852-870 | with nothing in between, the write is blocked exactly when it would complete a combination |
| ChatLimit.ChatInv | src/LetsPlayServer.cpp:468-520 | the list stays the newest timestamps and any N + 1 broadcasts in a row span the interval |
| ChatLimit.WindowLimit | src/LetsPlayServer.cpp:481-520 | over every run every window of the interval's length holds at most messagesPerInterval broadcasts |
| ChatLimit.RetainedDecides | src/LetsPlayServer.cpp:494-520 | counting over the retained timestamps gives the count over the whole history, for any clock reads that do not go back |
| ChatLimit.DecidedByHistory | src/LetsPlayServer.cpp:471-507 | a message is refused exactly when a mute is running; otherwise it is sent when fewer than N messages of the whole history are recent, and mutes when not |
| ChatLimit.CountIsNumber | src/LetsPlayServer.cpp:494-498 | the count is the number of messages less than the interval old at their clock reads |
| ChatLimit.OutcomeMeans | src/LetsPlayServer.cpp:471-520 | what each outcome does to the data: only a broadcast adds to the history and ends a mute, only a mute sets its end |
| ChatLimit.MuteEnds | src/LetsPlayServer.cpp:471-480 | after a message that mutes, and any messages during the mute, the next one is refused if and only if its first clock read is before the mute's start plus the mute time |
| ChatLimit.MuteLasts | src/LetsPlayServer.cpp:471-506 | after a message that mutes, over every run nothing is broadcast for the whole mute time |
| ChatLimit.CountIf | src/LetsPlayServer.cpp:496-498 | the counting loop with a clock read per timestamp |
| ChatLimit.AddressData.HandleChat | src/LetsPlayServer.cpp:468-520 | the new data and outcome of one message are those of the specification, and the invariant is kept |
| Wire.Encode | src/LetsPlayProtocol.cpp:3-15 | the loop that overwrites its last comma yields the encoded list |
| Wire.EncodeImpl | include/LetsPlayProtocol.h:65-94 | every template step appends one item and a comma |
| Wire.EncodeVariadic | include/LetsPlayProtocol.h:48-54 | the variadic form agrees with the vector form |
| Wire.RenderedMeans | include/LetsPlayProtocol.h:65-72 | a number is rendered as its digits, a minus sign in front of negative ones only, and a flag as 1 or 0 |
| Wire.DocumentedExample | include/LetsPlayProtocol.h:22 | connect and emu1 encode to the message that the documentation shows |
| Wire.ReadPrinted | src/LetsPlayProtocol.cpp:24-34 | the stream extraction reads a printed length back and stops at the period, or fails above 2^64 - 1 |
| Wire.ReadNumeral | src/LetsPlayProtocol.cpp:24-34 | white space, an optional sign and digits in front of a period are read as the number they state, a minus sign counting down from 2^64 |
| Wire.NumeralRead | src/LetsPlayProtocol.cpp:24-34 | whatever number is read was written like that, and what is left of the stream follows it |
| Wire.Decode | src/LetsPlayProtocol.cpp:17-52 | the stream loop computes the recursive decoding |
| Wire.DecodedExact | src/LetsPlayProtocol.cpp:17-52 | input is accepted if and only if it ends with a semicolon and begins with well-formed parts, separated by commas and ended by a semicolon, each as long as its numeral states and shorter than 1000; the result is their bytes up to the first NUL |
| Wire.DecodeEncoded | src/LetsPlayProtocol.cpp:17-52 | an encoded list decodes to its items cut at NUL bytes, or to nothing if one is too long, whatever follows it |
| Wire.RoundTrip | src/LetsPlayProtocol.cpp:3-52 | decode(encode(xs)) is xs if and only if every item is shorter than 1000 and NUL-free |
| Wire.Normalises | src/LetsPlayProtocol.cpp:17-52 | whatever decode accepts, encoding and decoding it again gives the same list |
| Wire.PrefixFree | src/LetsPlayProtocol.cpp:3-15 | no encoding is a prefix of another's, so encoding is injective on arbitrary nonempty lists |
| ChatSize.EscapedSize | src/LetsPlayServer.cpp:1186-1192 | the raw size is at most nine times the escaped size |
| ChatSize.EscapeIs | src/LetsPlayServer.cpp:1186-1189 | an escape sequence at the start of a string is a backslash with x and two, u and four, or u, a brace, 1, four and a brace, of lower-case hexadecimal digits |
| ChatSize.EscapeCounts | src/LetsPlayServer.cpp:1190-1192 | an escape sequence counts for one character, whatever follows it |
| ChatSize.CharacterCounts | src/LetsPlayServer.cpp:1190-1192 | so does a character where none begins |
| ChatSize.SizeLimitsAgree | src/LetsPlayServer.cpp:459-466 | every body the handler's checks accept gets through decode if and only if maxMessageSize is at most 111 |
| Scheduler.PeriodApart | src/Scheduler.cpp:5-9 | over every run two launches of a task are at least its period apart in whole milliseconds |
| Scheduler.PeriodExact | src/Scheduler.cpp:5-46 | every later launch in every run is a full period after this one, in nanoseconds, exactly when cutting the clock does not cut away the launch |
| Scheduler.ShortGap | src/Scheduler.cpp:5-9 | a run in which they are one nanosecond apart for a period of one millisecond |
| Scheduler.LeadDrops | src/Scheduler.cpp:30-45 | a launch of a task that is due no later uses up one of the launches it has ahead |
| Scheduler.Fair | src/Scheduler.cpp:15-61 | every task is among the next Backlog + 1 launches, whatever the clock does |
| Scheduler.MinElement | src/Scheduler.cpp:30-33 | the first of the tasks due earliest |
| Scheduler.NextDue | src/Scheduler.cpp:5-9 | the next run is the last whole millisecond that is no later than a period from now |
| Scheduler.Scheduler.RunOnce | src/Scheduler.cpp:20-46 | one iteration launches the earliest task at the later of the present and its next run plus the lateness of the thread, reschedules only that task and puts its future into the pool; without tasks it sleeps 100 ms |
| Scheduler.Scheduler.CollectFutures | src/Scheduler.cpp:48-59 | at most every ten seconds exactly the finished futures leave the pool; no unfinished one is ever dropped |
| History.DigitsOrder | src/Emulator/EmulatorController.cpp:803-806 | among numbers of one width lexicographic order is numeric order |
| History.NameOrder | src/Emulator/EmulatorController.cpp:803-806 | the name of an earlier time sorts first if and only if the time is at most the later one cut to its width |
| Decimal.CutDivides | src/Emulator/EmulatorController.cpp:782-784 | cutting n digits off is dividing by the n-th power of ten |
| Decimal.PrintAt | src/Emulator/EmulatorController.cpp:782-784 | the digit at position k from the right is that of the number at the k-th power of ten |
| History.FileNames | src/Emulator/EmulatorController.cpp:782-784 | the file names of the last time of ten digits and the first of eleven, spelled out |
| History.Oldest | src/Emulator/EmulatorController.cpp:803-810 | the front of the sorted names |
| History.FirstIsOldest | src/Emulator/EmulatorController.cpp:803-810 | the file of the earliest time is the one that goes if and only if it sorts before all later ones |
| History.Retention | src/Emulator/EmulatorController.cpp:774-817 | the expected directory is the latest save plus the newest min(n - 1, maxHistorySize) before it, nothing else |
| History.RotationExact | src/Emulator/EmulatorController.cpp:774-817 | for increasing times the directory is the expected one after every save if and only if the right file sorts first wherever one has to go |
| History.OneWidthRotates | src/Emulator/EmulatorController.cpp:774-817 | it is whenever all times have the same number of digits |
| History.NewerFileGoes | src/Emulator/EmulatorController.cpp:799-811 | three saves across the step from ten digits to eleven, after which the older file is kept and the newer one gone |
| History.DirectoryBounded | src/Emulator/EmulatorController.cpp:774-817 | whatever the times, repeated and decreasing ones included, at most maxHistorySize files lie beside the current state |
| History.SaveHistory.Save | src/Emulator/EmulatorController.cpp:758-817 | every save, at whatever time and failed ones included, is one step of the rotation; the directory is the expected one while the names sort as the times |
| History.SaveHistory.Load | src/Emulator/EmulatorController.cpp:870-883 | load gives the latest successful save |
| Usernames.TakenGuests | src/LetsPlayServer.cpp:1063-1081 | n taken guest names need n other users |
| Usernames.FreeGuest | src/LetsPlayServer.cpp:1063-1081 | with fewer than 100000 other users some guest name is free |
| Usernames.RenameUnique | src/LetsPlayServer.cpp:617-639 | giving a user a name nobody reachable has keeps names unique |
| Usernames.NextInv | src/LetsPlayServer.cpp:526-669 | connecting, leaving and every branch of a username command keep names unique and well-formed and accepted changes spaced |
| Usernames.AlwaysUnique | src/LetsPlayServer.cpp:617-639 | over every run no two reachable users share a name, and every name is none yet, acceptable or a guest name |
| Usernames.CooldownApart | src/LetsPlayServer.cpp:538-553 | over every run two accepted changes from one address are at least the cooldown apart |
| Usernames.NameStays | src/LetsPlayServer.cpp:555-669 | no run takes a name away from a user who stays |
| Usernames.FirstName | src/LetsPlayServer.cpp:542-632 | when a username command leaves a user without a name |
| Usernames.Accepted | src/LetsPlayServer.cpp:526-669 | a user gets the name asked for, and the change is noted, if and only if the address has not changed a name within the cooldown, the name is new to the user, within the length limits, made of printable words with one space between them, and no other reachable user has it; otherwise names stay, except for the first free guest name drawn by a nameless user |
| Usernames.CoolingDownIs | src/LetsPlayServer.cpp:538-553 | an address cools down from the clock's epoch and from each of its accepted changes |
| Usernames.GoodContentIs | src/LetsPlayServer.cpp:600-602 | the tests on spaces accept exactly printable words with one space between them |
| Usernames.OutcomeMeans | src/LetsPlayServer.cpp:542-640 | what each outcome of the command says about names and changes |
| Usernames.GuestMeans | src/LetsPlayServer.cpp:1066-1069 | a guest name is the word guest and a number without leading zeros |
| Usernames.ComeAndGo | src/LetsPlayServer.cpp:92-206 | whoever connects has no name yet and can be reached; leaving changes nothing but that, and nobody else changes |
| Usernames.Directory.UsernameTaken | src/LetsPlayServer.cpp:1083-1095 | the loop finds another reachable user of that name exactly when there is one |
| Usernames.Directory.DrawGuest | src/LetsPlayServer.cpp:1063-1081 | the first drawn number whose guest name is free decides, and nothing else changes |
| Usernames.Directory.HandleUsername | src/LetsPlayServer.cpp:526-669 | a username command, with its look-up of the address, its cooldown and its two clock reads, is one step of the system and keeps the invariant |
| Usernames.Directory.OnLeave | src/Emulator/EmulatorController.cpp:531-535 | a user who leaves, expires or is erased is one step of the system and keeps the invariant |
| Usernames.Directory.OnConnect | src/LetsPlayServer.cpp:92-112 | a newcomer without a name is one step of the system and keeps the invariant |

The turn invariant is the hypothesis of `FirstComeFirstServed`, `RevokedOnlyWhenOver`, `TurnLasts`, `BoundedWait`
and `HeadIsGranted`; `InitialInv` and `RunInv` give it for every reachable state.

## Left out

- Websocket, asio and HTTP handling, broadcasts, logging, random numbers, identifiers and configuration lookup: library calls; configuration values are parameters, clock reads and random draws are arguments.
- libretro core loading, core callbacks, JPEG compression and previews: foreign calls.
- Mutexes and condition variables: every handler is one atomic step, except in `Combos.dfy`, where the single reads and writes interleave.
- Md5.MD5.Update: takes an array and a length where the source takes a pointer, and requires that the input is not the object's own buffer and that the object is not finalized, since the source's result is meaningless there. Lengths at which the block loop does not stop are excluded here and in Md5.HashString.
- Md5.HashChunks: every chunk is shorter than 2^32 - 64 bytes, which never wraps whatever is buffered.
- Rfc1321: the auxiliary functions F, G, H, I and the rotation are pure expressions, so they are defined once, for the standard and for the class; Rfc1321.FBits to Rfc1321.RotateLeftValue say what they compute.
- Md5: no claim about cryptographic strength, and no derivation of the constants from the sine function; KnownAnswer.AlphabetDigest ties them to a published digest.
- Frame.Video.OnVideoRefresh: requires a width that is a multiple of 16, because otherwise the stride is a negative floating-point value converted to an unsigned integer; the core's pitch is at least twice the width.
- Frame.Video.GetFrame: requires that the core's buffer holds every row and that the output size does not wrap in 32 bits, which is exactly when the output buffer holds the frame (Frame.Video.BufferHoldsFrame).
- TurnServer.TurnServer.QueueStep: whether a button is refused by a forbidden combination, a connect by an empty username, or an admin by a wrong password is an argument; the emulator table never gains entries.
- TurnServer.TurnServer.DrainWork: one command a step; the time check of the drain loop and the commands that do not touch turns have no effect in the model.
- Combos.HandleButton: starts after the parameters were parsed as 16-bit integers and the id was checked.
- ChatLimit.AddressData.HandleChat: starts after the checks on username, emulator, characters and size, with fixed limits for the address and clock reads that never go back.
- Wire.Decode: the empty input, where the source's back() has no meaning, is excluded, as is encoding an empty list.
- Scheduler.Fair: periods are positive, as in Scheduler.PeriodExact; a task of period zero is always due.
- Scheduler.Scheduler.RunOnce: the set of tasks is fixed, because adding one while the runner sleeps invalidates the iterator it holds.
- History.RotationExact: times increase; for two saves in one second, the second of which overwrites a file, only the bound of History.DirectoryBounded is proved. The directory starts empty and holds nothing else.
- Backup's recursive copy and fast-forwarding.
- Usernames.Directory.HandleUsername: the minimum length is positive, since the source reads the first character of the name; addresses are never forgotten.
- Usernames.Directory.DrawGuest: the drawing ends with the given list of draws, where the source draws until it succeeds.

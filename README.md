# Discord voice test client: binary transport core

This project models the byte-level core of a Discord voice test client written in TypeScript, and
proves properties of that model. The core covers:

- two byte cursors that every codec is built on:
  - a write cursor with bounds-checked big- and little-endian writes and a buffer it grows, shrinks and resets;
  - a read cursor with bounds-checked reads.
- the RTP packetiser:
  - the fixed 12-byte header of section 5.1 of RFC 3550 (version 2, payload type 0x78);
  - the per-session sequence, timestamp and rollover counters;
  - the assembly of header, ciphertext and nonce trailer into one voice packet.
- the xsalsa20-poly1305 encryption strategy, with its `normal`, `suffix` and `lite` nonce
  policies, and the table from negotiated mode names to strategies.
- the pacing loop of the frame sender:
  - the speaking/silence state machine with its five-frame trailing-silence budget and the 3-byte Opus silence frame;
  - the op-5 speaking notifications;
  - the absolute 20 ms deadlines.
- the frame pollers: a stream poller, the millisecond position counter, and the loopback echo queue capped at ten frames.
- IP discovery: the 74-byte hole-punch request and the parse of its response.
- the DCA container reader: header magic and version, and the length-prefixed packets.

Cursors, the packet provider, the nonce strategies, the pollers and the echo queue change state in
place. They are classes, with `modifies` frames, whose methods are proved against specification
functions. The header arithmetic, the tick logic, the name table and the parsers are pure functions with lemmas.

Crypto is opaque. `crypto_secretbox_easy` is a `Sealer`: any function whose output is 16 bytes longer
than its input, which the buffer sizing of `encrypt_rtp` relies on. `crypto_secretbox_open_easy` is an
`Opener`. `randombytes_buf(24)` is a 24-byte argument.

Time is an input. Each tick gives the nanoseconds elapsed when it sleeps. A Node `Readable` is
modelled by its `readable` flag and its buffered chunks.

The model follows the code and keeps its quirks:

- The wrap test is `sequence > 65565` (src/packet/rtp.ts:13), not the 16-bit limit of the sequence field in section 5.1 of RFC 3550.
- The timestamp is never reduced modulo 2^32, although section 5.1 of RFC 3550 makes it a 32-bit field.
- Because `+` binds tighter than `===`, the poly1305 strategy's `name` is always `"_" + policy`
  (src/secure/poly1305.ts:16). The lemma `Encryption.StrategyNameIsNoModeName` shows it is never a negotiable mode name.
- The suffix and lite `strip` never reset their cursor, and the suffix one copies from offset
  `24 - 24 = 0`.
- `is_exhausted` holds only one past the end, so a write at the end stores nothing but advances.
- The echo queue drops its newest frame when full.
- `read_uint16_le`/`read_uint32_le`, which the DCA reader calls but the read cursor does not define,
  are modelled as `read_uint_le(2)`/`read_uint_le(4)`.

Node semantics are those of Buffer:

- `copy` clamps its range, and only throws for a source start past the end once the range is non-empty.
- `writeUIntBE/LE` check the value before the offset.
- `subarray` counts negative indices from the end.
- `read_bytes(n)` copies into a fresh zero-filled buffer.

An exception becomes an `Err` of the `Errors.Result` type. It is returned at the point where the
source would throw, and the state changes made before it are kept.

The packet provider takes a `CounterRule`. `AsWritten` is the header arithmetic of the code.
`Intended` is the corrected arithmetic of the findings below: a 16-bit wrap and a 32-bit timestamp.

## Model

| member | source | states |
|---|---|---|
| `Bytes.BigEndianRoundTrip` | src/tools/mutable_cursor.ts:115-119 | a value below 256^n written big-endian in n bytes reads back as itself |
| `Bytes.FromBigEndianRoundTrip` | src/tools/readonly_cursor.ts:42-47 | re-encoding the value read from n bytes gives those bytes back |
| `Bytes.LittleEndianRoundTrip` | src/tools/mutable_cursor.ts:126-130 | the little-endian write of a value below 256^n reads back as itself |
| `Bytes.FromLittleEndianRoundTrip` | src/tools/readonly_cursor.ts:55-60 | re-encoding a little-endian read gives the bytes back |
| `Bytes.Subarray` | src/tools/mutable_cursor.ts:35-37 | `subarray` of an in-range pair is the slice; a start past the end index gives the empty buffer |
| `Bytes.CopyBytes` | src/tools/mutable_cursor.ts:98-100 | `Buffer.copy`: throws exactly when the target start is in range, the range non-empty and the source start past the end; otherwise lengths are kept and a range that fits is copied verbatim |
| `Bytes.Resized` | src/tools/mutable_cursor.ts:60-74 | the new buffer has length n, keeps the first min(old, n) bytes and is zero beyond them |
| `MutableCursor.UintCheck` | src/tools/mutable_cursor.ts:115-141 | Node's `writeUIntBE/LE` succeeds iff the value fits the width and the write fits the buffer |
| `MutableCursor.BufferCursor.constructor` | src/tools/mutable_cursor.ts:1-5 | the cursor wraps the given buffer at position 0 |
| `MutableCursor.BufferCursor.WithSize` | src/tools/mutable_cursor.ts:12-14 | a fresh all-zero buffer of the given length at position 0 |
| `MutableCursor.BufferCursor.UsePosition` | src/tools/mutable_cursor.ts:29-31 | the position becomes the value; the buffer is untouched |
| `MutableCursor.BufferCursor.View` | src/tools/mutable_cursor.ts:35-37 | an in-range view is exactly `data[start..end)`, and no view is longer than the buffer |
| `MutableCursor.BufferCursor.Reset` | src/tools/mutable_cursor.ts:42-44 | the position is 0 and the buffer is the same object |
| `MutableCursor.BufferCursor.Resize` | src/tools/mutable_cursor.ts:60-74 | reallocates iff the buffer is shorter or `ifSmaller`, and then holds `Resized`; returns whether it did; the position never changes |
| `MutableCursor.BufferCursor.Grow` | src/tools/mutable_cursor.ts:51-53 | afterwards the buffer holds at least position + k bytes; the data is kept and the position is unchanged |
| `MutableCursor.BufferCursor.IsExhausted` | src/tools/mutable_cursor.ts:19-21 | exhausted only at exactly one past the end: a cursor at or before the end, or two or more past it, is not exhausted |
| `MutableCursor.BufferCursor.Write` | src/tools/mutable_cursor.ts:81-86 | throws iff the position is one past the end; otherwise stores the byte when in range and advances by exactly 1 |
| `MutableCursor.BufferCursor.CopyFrom` | src/tools/mutable_cursor.ts:98-100 | the Buffer branch of `write_bytes`: the buffer becomes the `CopyBytes` result and the position advances by the end index, or the copy throws and nothing changes |
| `MutableCursor.BufferCursor.WriteEach` | src/tools/mutable_cursor.ts:101-105 | the typed-array loop of `write_bytes`: fails iff it meets the exhausted position; each byte passed lands at its offset; nothing else changes |
| `MutableCursor.BufferCursor.WriteBytes` | src/tools/mutable_cursor.ts:96-108 | both branches as above; with the default arguments and room, `bytes` lands at the position and the position advances by its length |
| `MutableCursor.BufferCursor.WriteUint` | src/tools/mutable_cursor.ts:115-141 | fails exactly as `UintCheck` says, with nothing changed; otherwise writes the width's BE or LE bytes at the position and advances by the width |
| `MutableCursor.BufferCursor.WriteUint16BE` | src/tools/mutable_cursor.ts:115-119 | 2 big-endian bytes at the position, advance by 2, or the Node error with nothing changed |
| `MutableCursor.BufferCursor.WriteUint32LE` | src/tools/mutable_cursor.ts:126-130 | 4 little-endian bytes, advance by 4, or the Node error with nothing changed |
| `MutableCursor.BufferCursor.WriteUint32BE` | src/tools/mutable_cursor.ts:137-141 | 4 big-endian bytes, advance by 4, or the Node error with nothing changed |
| `ReadonlyCursor.BytesRead` | src/tools/readonly_cursor.ts:28-34 | `read_bytes(n)` yields n bytes whenever the start is in range: the slice, zero-padded past the end; a negative size or a non-empty read from past the end is an error |
| `ReadonlyCursor.UintReadCheck` | src/tools/readonly_cursor.ts:72-76 | an integer read succeeds iff the bytes are there and the width is 1 to 6 |
| `ReadonlyCursor.ReadonlyBufferCursor.constructor` | src/tools/readonly_cursor.ts:1-5 | the cursor wraps the buffer at position 0 |
| `ReadonlyCursor.ReadonlyBufferCursor.Remaining` | src/tools/readonly_cursor.ts:10-12 | position + remaining = length |
| `ReadonlyCursor.ReadonlyBufferCursor.Read` | src/tools/readonly_cursor.ts:18-20 | the byte at the position (or `undefined` past the end), advancing by 1 with no bounds check |
| `ReadonlyCursor.ReadonlyBufferCursor.ReadBytes` | src/tools/readonly_cursor.ts:28-34 | returns `BytesRead` and advances by n whenever that succeeds |
| `ReadonlyCursor.ReadonlyBufferCursor.ReadRest` | src/tools/readonly_cursor.ts:28-31 | the default argument reads the rest exactly and leaves nothing remaining |
| `ReadonlyCursor.ReadonlyBufferCursor.ReadUintBE` | src/tools/readonly_cursor.ts:42-47 | the big-endian value of the next n bytes, advancing by n; fails iff `UintReadCheck` does, position unchanged |
| `ReadonlyCursor.ReadonlyBufferCursor.ReadUintLE` | src/tools/readonly_cursor.ts:55-60 | the little-endian value of the next n bytes, advancing by n; fails iff `UintReadCheck` does, position unchanged |
| `ReadonlyCursor.ReadonlyBufferCursor.Resize` | src/tools/readonly_cursor.ts:62-70 | succeeds iff start >= 0 and end <= length, then the data is that subarray; otherwise no change; never moves the position |
| `Rtp.HeaderLayout` | src/packet/rtp.ts:46-52 | bytes 0 and 1 are 0x80 and 0x78, and sequence, timestamp and ssrc read back from bytes 2-3, 4-7 and 8-11 |
| `Rtp.HeaderBytesInjective` | src/packet/rtp.ts:46-52 | two encodable headers with the same bytes are equal |
| `Rtp.WriteRtpHeader` | src/packet/rtp.ts:46-52 | succeeds iff the fields fit and 12 bytes of room remain, then writes exactly the 12 header bytes and advances by 12; never touches anything outside those 12 bytes |
| `Rtp.NextHeader` | src/packet/rtp.ts:12-26 | the header carries the ssrc and the old timestamp, its sequence is the old one or 0 after a wrap, the next sequence is one more, roc rises by at most one; under the corrected rule every sequence fits 16 bits and the timestamp stays below 2^32 |
| `Rtp.NextHeaderStep` | src/packet/rtp.ts:12-26 | each header carries the ssrc and the old timestamp; a wrap resets the sequence to 0 and raises roc by exactly 1, otherwise roc stays; roc never decreases |
| `Rtp.AsWrittenCounters` | src/packet/rtp.ts:10-24 | as written, after k headers the timestamp is 960 k, and up to the wrap limit the counters are (k, 960 k, 0) |
| `Rtp.AsWrittenHeaderAt` | src/packet/rtp.ts:18-25 | before any wrap the k-th header is (k, 960 k, ssrc) |
| `Rtp.SequenceOverflowAsWritten` | src/packet/rtp.ts:13-16 | header 65536 carries sequence 65536, which does not fit BE16 |
| `Rtp.TimestampOverflowAsWritten` | src/packet/rtp.ts:18-19 | header 4473925 carries timestamp 4294968000, which does not fit BE32 |
| `Rtp.IntendedCounters` | src/packet/rtp.ts:12-26 | with a 16-bit wrap and a 32-bit timestamp, the roc, timestamp and sequence after k headers in closed form |
| `Rtp.IntendedHeaderAt` | src/packet/rtp.ts:12-26 | the corrected k-th header is (k mod 2^16, 960 k mod 2^32, ssrc), sent under roc k div 2^16, and always encodable |
| `PacketProvider.Packet` | src/packet/rtp.ts:28-42 | a provided packet is 12 + frame + 16 + nonce-length bytes and starts with the header bytes |
| `PacketProvider.PacketProvider.constructor` | src/packet/rtp.ts:4-10 | counters (0, 0, 0) over a fresh zeroed 2048-byte scratch buffer |
| `PacketProvider.PacketProvider.GetRtpHeader` | src/packet/rtp.ts:12-26 | the header and the new counters are `NextHeader` of the old ones, so the k-th call returns `HeaderAt(k)` |
| `PacketProvider.PacketProvider.ClearScratch` | src/packet/rtp.ts:30-32 | position 0 and an all-zero buffer of at least the requested size, never shrunk |
| `PacketProvider.PacketProvider.Provide` | src/packet/rtp.ts:29-42 | one header is used up; the buffer ends up holding at least 12 + frame + 40 bytes; it fails iff the header or the lite counter does not fit; otherwise it returns exactly header ++ seal(frame, nonce) ++ trailer; whenever the header encodes, `encrypt_rtp` is handed the roc after the wrap |
| `PacketProvider.PacketProvider.Assemble` | src/packet/rtp.ts:35-41 | on a cleared buffer, the view is the header followed by what `encrypt_rtp` appended, and `encrypt_rtp` is called with the provider's roc exactly when the header was written |
| `Poly1305.StrategyName` | src/secure/poly1305.ts:16 | the name is `"_" + policy` for every policy, never the intended mode name |
| `Poly1305.Trailer` | src/secure/poly1305.ts:20-22 | the trailer's length is the policy's `nonce_length` |
| `Poly1305.TrailerCarriesNonce` | src/secure/poly1305.ts:35-76 | normal: nonce = header ++ 12 zeros, no trailer; suffix: trailer = nonce = the random bytes; lite: nonce = trailer ++ 20 zeros and the trailer decodes to the counter |
| `Poly1305.NormalDecryptNonce` | src/secure/poly1305.ts:25-26 | the normal decrypt nonce is 24 bytes |
| `Poly1305.NormalNonceRoundTrip` | src/secure/poly1305.ts:25-26 | a packet that starts with the header's bytes gives back, on decrypt, the nonce it was sealed under |
| `Poly1305.NonceAfterGenerate` | src/secure/poly1305.ts:14-19 | on the zero-tailed 24-byte nonce cursor, `generate` at 0 leaves exactly `Nonce` |
| `Poly1305.NonceStrategy.constructor` | src/secure/poly1305.ts:35-76 | each policy starts with counter 0 and its own fresh zeroed 24-byte cursor |
| `Poly1305.NonceStrategy.Generate` | src/secure/poly1305.ts:40-69 | the lite counter is pre-incremented; with room, it succeeds iff the head fits and writes exactly the policy's head at the position |
| `Poly1305.NonceStrategy.Write` | src/secure/poly1305.ts:41-70 | normal writes nothing; with room, suffix and lite write exactly the trailer, lite failing iff the counter passes 32 bits |
| `Poly1305.NonceStrategy.Strip` | src/secure/poly1305.ts:42-74 | normal rewrites the header at 0 and fails iff it does not fit; suffix and lite never fail: they copy the packet from 0, or its last 4 bytes, at the unreset position and return the whole buffer |
| `Poly1305.Poly1305Strategy.constructor` | src/secure/poly1305.ts:10-15 | a fresh zeroed 24-byte nonce cursor beside the given nonce strategy |
| `Poly1305.Poly1305Strategy.Name` | src/secure/poly1305.ts:16 | the strategy's name as the expression evaluates |
| `Poly1305.Poly1305Strategy.EncryptRtp` | src/secure/poly1305.ts:17-23 | fails with the packet untouched iff generate fails; with room, appends exactly seal(payload, nonce) ++ trailer; the roc is recorded as handed over and otherwise ignored |
| `Poly1305.Poly1305Strategy.GenerateNonce` | src/secure/poly1305.ts:18-19 | the nonce cursor holds `Nonce` for the header and counter after generate |
| `Poly1305.Poly1305Strategy.DecryptRtp` | src/secure/poly1305.ts:24-31 | normal opens with header ++ 12 zeros, leaving the strip cursor alone; suffix and lite copy the whole payload or its last 4 bytes into the strip cursor at its unreset position, advance it by that length, and open with the cursor's whole buffer |
| `Encryption.ModeFromName` | src/secure/encryption.ts:13-22 | a name selects a mode iff it is one of the four names, and that mode has that name |
| `Encryption.ModeNameRoundTrip` | src/secure/encryption.ts:29 | each mode's name is in the set and selects that mode |
| `Encryption.PolicyFor` | src/secure/encryption.ts:13-22 | every mode but AES selects a poly1305 policy |
| `Encryption.PolicyForName` | src/secure/encryption.ts:16-21 | the poly1305 mode names are `xsalsa20_poly1305` plus the policy's suffix (none for normal) |
| `Encryption.StrategyNameIsNoModeName` | src/secure/poly1305.ts:16 | the strategy's name is never a negotiable mode name |
| `Encryption.CreateStrategy` | src/secure/encryption.ts:13-22 | AES yields no strategy here; each poly1305 mode yields a fresh valid strategy with its policy and counter 0 |
| `Sender.Start` | src/frame/sender.ts:31 | the loop starts not speaking but with the full budget of 5 silence frames, at the given deadline |
| `Sender.SetSpeaking` | src/frame/sender.ts:32-47 | only the speaking flag changes, and switching on refills the budget to 5; the op-5 payload carries the ssrc, delay 0, and a non-zero `speaking` exactly when switching on |
| `Sender.Tick` | src/frame/sender.ts:64-86 | a frame is handed on iff one was polled or budget remains, a polled frame unchanged and otherwise the silence frame at the cost of one unit; a notification is sent exactly on a switch of the speaking state; the budget never exceeds 5; the deadline steps by 20 000 000 and the sleep is never negative |
| `Sender.TickCases` | src/frame/sender.ts:64-86 | a frame while silent notifies `speaking: 5` and refills the budget; no frame while speaking with budget 0 notifies `speaking: 0`; no frame with budget substitutes F8 FC FE and spends one; a frame while speaking passes through and keeps the budget; a frame is provided iff one was polled or budget remained; the deadline steps by 20 000 000; the sleep is never negative |
| `Sender.Trace` | src/frame/sender.ts:60-87 | one output per tick |
| `Sender.DeadlineAfter` | src/frame/sender.ts:85-86 | after k ticks the deadline is next0 + 20 000 000 k |
| `Sender.BudgetBounded` | src/frame/sender.ts:72-86 | the budget never exceeds 5 and no sleep is negative |
| `Sender.QuietTail` | src/frame/sender.ts:65-75 | once silent with the budget spent, empty ticks provide and notify nothing |
| `Sender.EmptySource` | src/frame/sender.ts:65-75 | from a silent state an empty source yields min(k, budget) silence frames and no notification |
| `Sender.EmptySourceFromStart` | src/frame/sender.ts:31-75 | from the start, an empty source gives exactly 5 silence packets and no notification |
| `Sender.ThreeFrames` | src/frame/sender.ts:60-82 | frames on ticks 1-3: `speaking: 5` on tick 1, silence on 4-8, `speaking: 0` on 9, two notifications and eight packets in all |
| `Sender.SpeakingFrames` | src/frame/sender.ts:65-69 | while speaking, frames pass unchanged, nothing is notified and the budget stays |
| `Sender.TrailingSilence` | src/frame/sender.ts:72-75 | after speech each empty tick sends one silence frame and spends one unit |
| `Sender.QuietTailNothing` | src/frame/sender.ts:72-82 | in a quiet tail no tick provides or notifies |
| `Sender.RunTick` | src/frame/sender.ts:64-82 | one loop body: the pure tick, and `provide` exactly when the tick yields a frame; that call's result is the provider's packet for this tick's header and fails iff the header or the nonce head does not fit; a tick that provides nothing leaves the counters and the nonce counter unchanged |
| `Sender.Run` | src/frame/sender.ts:60-87 | the ticks run are a prefix of the trace of all inputs (all of it without a failure); each tick provides at most one packet; every provided frame but a failing last one is sent |
| `Poller.StreamPoll` | src/frame/poller.ts:15-19 | null iff the stream is not readable or holds nothing, otherwise the next chunk |
| `Poller.StreamedFramePoller.constructor` | src/frame/poller.ts:3-7 | `reading` starts false over the given stream state |
| `Poller.StreamedFramePoller.Poll` | src/frame/poller.ts:10-20 | sets `reading`; returns `StreamPoll` of the stream state, whatever `reading` was, and consumes the chunk it returns |
| `Poller.StreamedFramePoller.OnClose` | src/frame/poller.ts:5-7 | `close` clears `reading` and nothing else |
| `Poller.StreamedFramePoller.Destroy` | src/frame/poller.ts:21 | the stream is no longer readable |
| `Poller.LengthTrackingPoller.constructor` | src/frame/poller.ts:25-27 | the position starts at 0 |
| `Poller.LengthTrackingPoller.Poll` | src/frame/poller.ts:28-34 | returns the inner frame unchanged; a frame adds 20 to `position` and null adds nothing, so `position` stays 20 times the frames returned |
| `Poller.LengthTrackingPoller.Destroy` | src/frame/poller.ts:35 | destroys the inner stream |
| `Poller.DrainInOrder` | src/frame/poller.ts:10-20 | n polls of a readable stream yield its first min(n, buffered) chunks in order |
| `Echo.StripExtension` | src/frame/echo.ts:35-39 | only with the extension bit and no marker; throws iff the payload is under 4 bytes; otherwise a suffix that differs only when exactly `4 + 4 BE16(opus[2..4))` bytes are dropped from a longer payload |
| `Echo.ExtensionRoundTrip` | src/frame/echo.ts:35-39 | a payload behind an n-word extension block comes out exactly |
| `Echo.Received` | src/frame/echo.ts:13-39 | a datagram is dropped iff it is under 13 bytes, from another address, of another user or undecryptable; otherwise it queues the stripped payload or throws in the strip |
| `Echo.Enqueue` | src/frame/echo.ts:41-45 | the new frame is last; below 10 the queue grows by one; at 10 its newest element is replaced |
| `Echo.ArrivalsBelowCap` | src/frame/echo.ts:41-45 | up to the cap, frames queue in arrival order |
| `Echo.ArrivalsBounded` | src/frame/echo.ts:41-45 | the queue never exceeds 10 |
| `Echo.ArrivalsWhenFull` | src/frame/echo.ts:41-45 | once full, the nine oldest stay and only the latest arrival survives behind them |
| `Echo.EleventhReplacesTenth` | src/frame/echo.ts:41-45 | of eleven frames into an empty queue the tenth is lost |
| `Echo.EchoFramePoller.constructor` | src/frame/echo.ts:12 | the queue starts empty |
| `Echo.EchoFramePoller.HandleMessage` | src/frame/echo.ts:13-46 | the queue changes exactly as `Received` and `Enqueue` say and stays within the cap; it throws iff the strip does |
| `Echo.EchoFramePoller.Poll` | src/frame/echo.ts:50 | returns and removes the oldest frame, or null when empty |
| `Udp.BuildHolepunchPacket` | src/packet/udp.ts:6-10 | 74 bytes: BE16 1, BE16 70, the ssrc as BE32, 66 zeros; fails iff the ssrc does not fit 32 bits |
| `Udp.IndexOf` | src/packet/udp.ts:18 | -1 iff no such byte at or after the start, otherwise the first such index |
| `Udp.ParseHolepunchResponse` | src/packet/udp.ts:18-21 | throws iff under 2 bytes; the port is the BE16 of the last two bytes; the ip runs from offset 8 to the first zero and never holds a zero |
| `Udp.NoTerminatorSlice` | src/packet/udp.ts:18 | with no zero after offset 8, the -1 end index makes the ip run to the second-last byte |
| `Udp.ParseRoundTrip` | src/packet/udp.ts:18-21 | `x[0..8) ++ ip ++ 0 ++ rest ++ BE16(port)` with a NUL-free ip parses to exactly that ip and port |
| `Dca.PacketRead` | src/frame/dca.ts:10-14 | fails iff the LE16 length is missing; otherwise the length prefix and exactly that many bytes (the data when present), ending 2 + length later |
| `Dca.ReadDcaPacket` | src/frame/dca.ts:10-14 | the cursor method returns `PacketRead` and ends at its position |
| `Dca.PacketRoundTrip` | src/frame/dca.ts:10-14 | a packet written as LE16 length and bytes reads back as itself, and the next starts right after it |
| `Dca.DcaVersionNumber` | src/frame/dca.ts:24 | `+String.fromCharCode(b)` is 1 exactly for `'1'`; digits are their value |
| `Dca.HeaderRead` | src/frame/dca.ts:16-33 | an error leaves the position where it was or after the 4 version bytes; a success consumes at least them; DCA1 metadata needs the magic and `'1'`, and ends 8 + its LE32 length later |
| `Dca.ReadDcaHeader` | src/frame/dca.ts:16-33 | the cursor method, with its byte-by-byte magic loop, returns the header read and ends at its position |
| `Dca.HeaderConsumesVersionBytes` | src/frame/dca.ts:17 | the 4 version bytes are always consumed first, unless the cursor is past the end |
| `Dca.NoMagicIsVersion0` | src/frame/dca.ts:18-22 | without the magic the result is version 0 after exactly 4 bytes |
| `Dca.MagicVersion` | src/frame/dca.ts:24-31 | with the magic, success needs `'1'`, any other byte throws "Unknown DCA version" with its number, and `'1'` with a length succeeds |
| `Dca.Dca1RoundTrip` | src/frame/dca.ts:24-29 | `DCA1`, an LE32 length and the JSON read back to that JSON, ending 8 + length later |

## Left out

- Sockets, WebSocket gateway handling, heartbeats, environment-based test selection and process exit
  (src/voice.ts, src/gateway.ts, src/tools/ws.ts) are I/O plumbing and are not part of this model.
- Clocks and timers (src/tools/time.ts, `performance.now`, `await sleep`) are replaced by the elapsed
  time given per tick. The division of the sleep by 1 000 000 is not modelled; neither is the mix of
  `performance.now()` milliseconds with nanosecond deadlines.
- src/tools/units.ts (floating-point formatting) and src/frame/ffmpeg.ts (an external process) are not part of this model.
- The AES-GCM strategy and SRTP key derivation (`./aes.js`, src/secure/srtp.ts) are not part of this
  model; the `aead_aes256_gcm` entry of the table yields no strategy here.
- libsodium is opaque. Nothing is proved about the cipher beyond its 16-byte overhead, so there is no
  decryption round-trip for any policy. The lite and suffix `strip` never reset their cursor and the
  whole trailer-bearing payload is opened, so such a round-trip would not hold as written either.
- Sender telemetry (frame times, the progress line, dayjs) and the `end` event that stops the loop.
  The loop runs over a finite sequence of polled frames.
- `Sender.Run`: states how many packets are sent, not that each is the provider's packet for its tick.
  That fact is `Sender.RunTick`'s contract, tick by tick.
- `Sender.Run`: the poller and the socket are given as the sequence of polled frames and the sent packets. The random nonces are a sequence argument.
- `Poly1305.NonceStrategy.Generate`: its result is stated only when the cursor has room for the nonce head. The nonce cursor always has room.
- `Poly1305.NonceStrategy.Write`: stated only when the packet buffer has room for the trailer, as `provide` guarantees.
- `Poly1305.Poly1305Strategy.EncryptRtp`: the packet written is stated only when the buffer has room. `provide` sizes it first.
- `Poly1305.NonceStrategy.Strip`: its returned buffer is stated through `Buffer.copy` in general. It is stated outright only for a cursor at 0 (lite) or a packet of at most 24 bytes (suffix).
- `Echo.EchoFramePoller.HandleMessage`: two inputs are given rather than computed.
  - The parsed header fields come in as a record. `read_rtp_packet`, which is imported at src/frame/echo.ts:3 but not present in src/packet/rtp.ts, is not part of this model.
  - The result of `decrypt_rtp` comes in as an argument, so the strip-cursor update it causes for lite and suffix is not part of this call.
- Echo: the registration and removal of the socket listener (src/frame/echo.ts:48-51) and the `cannot decrypt` log line.
- `Udp.ParseHolepunchResponse`: the ip is the raw byte string; its UTF-8 decoding is not modelled. The Promise and `sock.once` wiring of `holepunch` is not modelled.
- Dca: `JSON.parse` of the DCA1 metadata; the raw JSON bytes are returned instead.
- Dca: the stream pipeline (`Readable.from`, `DcaTransform`, the Opus decoder and encoder) and the file read of `create_dca_file_frame_poller`.
- `Poller.StreamedFramePoller.Poll`: the stream is in object mode (`read()` returns one buffered chunk), as the Opus encoder's output is. A byte-mode stream would return all of its buffered bytes at once.
- Buffers returned by `view`, `subarray` and `strip` are copies here, so later writes through an alias are
  not reflected in them. Within the core every such buffer is consumed before its source is written again.
- Negative cursor positions, and fractional or out-of-range numbers where the source takes a JavaScript
  number, are not modelled; positions, lengths and counters are natural numbers.

## Findings

| source | as written | input that shows it | evidently intended | confidence | as-written member | corrected member |
|---|---|---|---|---|---|---|
| src/packet/rtp.ts:13 | the sequence wraps only once it exceeds 65565 | the 65537th header (k = 65536) gets sequence 65536; `write_uint16_be` rejects it, so `provide` throws; in the sender that first throw rejects `start()` and ends the loop (src/frame/sender.ts:78-80), and only a caller that keeps calling `provide` sees the 30 throws up to sequence 65565 | wrap once the sequence passes 65535, the largest 16-bit value | not executed | `Rtp.SequenceOverflowAsWritten` | `Rtp.IntendedHeaderAt` |
| src/packet/rtp.ts:19 | the timestamp grows by 960 with no reduction | header k = 4473925 (about 24.9 hours of audio) gets timestamp 4294968000 ≥ 2^32; `write_uint32_be` rejects it and every later `provide` throws; this is reachable only by a caller that keeps calling `provide` after the sequence overflow above, which ends the sender first | the 32-bit RTP timestamp wraps modulo 2^32 (section 5.1 of RFC 3550) | not executed | `Rtp.TimestampOverflowAsWritten` | `Rtp.IntendedCounters` |

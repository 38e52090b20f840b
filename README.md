# CastScreen: sender and receivers, modelled in Dafny

CastScreen mirrors an Android screen to a receiver on the local network.

**The sender (the Android app)**
- `MainActivity` keeps a directory of receivers. It fills the directory by broadcasting `hello` over UDP and entering each JSON reply.
- `CastService` streams the screen. It either connects to the chosen receiver (client mode) or listens for a receiver that asks for `mirror` (listen mode).
- On a new connection it writes an HTTP-shaped request with `X-WIDTH`/`X-HEIGHT`, then codec bytes:
  - for H.264, one of two fixed 48-byte init blobs;
  - for VP8, an IVF file header.
- After the handshake, `drainEncoder` polls the encoder every 10 ms. It forwards each encoded buffer (raw, or as an IVF frame record) and releases it.
- `IvfWriter` lays out IVF headers little-endian. `Utils` computes the directed broadcast address.

**The receivers**
- `cs_receiver.c` answers discovery datagrams that start with `hello`. It accepts one client at a time, and reads the size from the handshake's header lines. It forwards the bytes after the blank line to a decoder process, and tears the client down after repeated empty reads or idle timeouts.
- `cs_receiver.py` and `cs_receiver_conn.py` answer only an exact `hello`. They skip the first chunk's header and pipe everything else to a player.

**The model, file by file**

| file | what it holds |
|---|---|
| `bytes.dfy` | octets and the little-endian layout |
| `text.dfy` | `find`/`strstr`, `strtok`, `%d` and `atoi` |
| `streams.dfy` | the sender's stream and socket objects, as classes |
| `media_codec.dfy` | the encoder as a queue of poll results |
| `ivf.dfy` | the IVF muxer: in-place `lay*` methods over arrays, and the writer class |
| `cast_service.dfy` | the handshake, the drain pass as a function plus the imperative loop proved against it, and the service class with its fields |
| `utils.dfy` | the broadcast address and its octets |
| `main_activity.dfy` | the discovery loop and the selection listeners |
| `cs_receiver.dfy` | the C receiver's event loop, as a function of its wake-ups and as a class proved against it |
| `py_receiver.dfy` | both Python receivers |
| `interop.dfy` | what each receiver makes of the bytes the sender writes |

**Behaviour the model takes from the code**
- Codec-config buffers are forwarded like any other buffer. The lines that would blank them are commented out (`CastService.java:335-337`).
- `drainEncoder` reschedules itself only after a pass that ends normally (`CastService.java:387`). A write that throws stops capture and returns at `CastService.java:352-356`, before that buffer is released (`CastService.java:379`) and before the next pass is posted.
- The IVF file header carries the writer's current frame count (`IvfWriter.java:93`). Every header the handshake writes comes from a new writer, so its count is 0.
- The presentation time is a signed Java `long`. Its 64-bit field holds the value modulo 2^64.
- A connection the peer drops makes every later write on it throw. Each write is modelled as going through or throwing, so a frame or a handshake can be cut between its two writes (`IvfWriter.java:103-104`, `CastService.java:476-493`, `CastService.java:525-540`).

**Quirks the model keeps, each proved as stated**
- The C receiver compares a datagram shorter than five bytes against what its broadcast buffer held before (`CsReceiver.StaleBufferCompletesHello`).
- The C receiver starts a decoder at accept and starts a second one at the handshake, without killing the first (`CsReceiver.AcceptedDecoderOrphaned`).
- The Python receivers drop a first chunk that has no header terminator, or has it at index 0 (`PyReceiver.FirstChunkWithoutHeaderDropped`).
- When a VP8 client start's IVF header write throws, only the socket and its stream are forgotten (`CastService.java:553-557`); the IvfWriter stays until `releaseEncoders`. A later AVC client start then sends its frames, IVF-framed, to the old stream, and the new connection receives the handshake alone (`CastService.Service.ClientMode`). The old stream, whose peer already dropped the connection, receives nothing from the pass (`CastService.PassOnDeadChannel`).

## Model

| member | source | states |
|---|---|---|
| Bytes.LeBytes | app/src/main/java/com/yschi/castscreen/IvfWriter.java:163-196 | the lay helpers write exactly n octets, octet i being (value >> 8i) & 0xFF |
| Bytes.LeRoundTrip | app/src/main/java/com/yschi/castscreen/IvfWriter.java:163-196 | reading back the n little-endian octets laid for v gives v modulo 256^n |
| Bytes.LeBytesPeriodic | app/src/main/java/com/yschi/castscreen/IvfWriter.java:177-196 | the octets laid depend only on the value modulo 256^n, so Java's int and long wrap-around changes nothing on the wire |
| Text.IndexOf | receiver/cs_receiver.py:47-48 | `find`/`strstr`: the first index where the pattern occurs, or -1, and no earlier occurrence |
| Text.CString | receiver/cs_receiver.c:333-343 | what `strstr`/`strtok` see of the buffer: the prefix before the first NUL, which holds no NUL |
| Text.Tokens | receiver/cs_receiver.c:343-354 | the strings successive `strtok(.., "\r\n")` calls return: each non-empty and without CR or LF |
| Text.TokensKeepText | receiver/cs_receiver.c:343-354 | the tokens strtok returns, one after another, are the input with its CR and LF octets removed and nothing else lost |
| Text.TokensLine | receiver/cs_receiver.c:343-354 | a line followed by a delimiter, or by nothing, is the next token, and the rest are tokenised after it |
| Text.DigitPrefix | receiver/cs_receiver.c:347 | the digits `atoi` reads: the longest prefix of decimal digits, ended by a non-digit |
| Text.NatDigits | app/src/main/java/com/yschi/castscreen/CastService.java:63-64 | `%d` of a natural number: a non-empty string of decimal digits |
| Text.Decimal | app/src/main/java/com/yschi/castscreen/CastService.java:63-64 | Java's `%d`: the decimal digits of n, led by a minus sign when n is negative; the text is ASCII, and Text.AtoiDecimal reads it back as n |
| Text.DigitsValueOfDecimal | receiver/cs_receiver.c:347 | the digits `%d` prints for n have the value n |
| Text.Atoi | receiver/cs_receiver.c:347 | C's `atoi`: leading white space skipped, an optional sign, then the value of the digits that follow and no more; what it returns for a blank-led, signed or decimal text is stated by Text.AtoiBlankDigits, Text.AtoiBlankMinusDigits, Text.AtoiNegative, Text.AtoiNonNegative and Text.AtoiDecimal |
| Text.AtoiBlankDigits | receiver/cs_receiver.c:347 | `atoi` after a blank reads a digit run up to the first non-digit |
| Text.AtoiBlankMinusDigits | receiver/cs_receiver.c:347 | `atoi` after a blank reads a minus sign and digits as the negative value |
| Text.AtoiNegative | receiver/cs_receiver.c:347 | `atoi` reads back a negative number that `%d` wrote after a blank |
| Text.AtoiNonNegative | receiver/cs_receiver.c:347 | `atoi` reads back a non-negative number that `%d` wrote after a blank |
| Text.AtoiDecimal | receiver/cs_receiver.c:351 | round trip: `atoi(" " + %d of n)` is n, whatever non-digit follows |
| Utils.Broadcast | app/src/main/java/com/yschi/castscreen/Utils.java:39 | broadcast & netmask == ip & netmask, and broadcast \| netmask is all ones |
| Utils.BroadcastBoundaries | app/src/main/java/com/yschi/castscreen/Utils.java:39 | an all-ones mask gives the ip itself; a zero mask gives all ones |
| Utils.BroadcastUnique | app/src/main/java/com/yschi/castscreen/Utils.java:39 | any value keeping the network bits and setting every host bit is the broadcast address |
| Utils.BroadcastIdempotent | app/src/main/java/com/yschi/castscreen/Utils.java:39 | recomputing with the broadcast address as the ip gives it back |
| Utils.QuadsRoundTrip | app/src/main/java/com/yschi/castscreen/Utils.java:40-43 | the four octets, least significant first, put back together give the value |
| Utils.CombineRoundTrip | app/src/main/java/com/yschi/castscreen/Utils.java:40-43 | four octets combined and split again come back unchanged |
| Utils.SplitQuads | app/src/main/java/com/yschi/castscreen/Utils.java:40-43 | the quads loop yields octet k == (broadcast >> 8k) & 0xFF, quad 0 the least significant |
| Utils.GetBroadcastAddress | app/src/main/java/com/yschi/castscreen/Utils.java:32-45 | a null lease gives a null address; otherwise the four octets of (ip & mask) \| ~mask |
| Utils.DatagramSocket.constructor | app/src/main/java/com/yschi/castscreen/MainActivity.java:420 | a new socket has sent nothing, does not broadcast, and has the given send outcomes |
| Utils.DatagramSocket.SetBroadcast | app/src/main/java/com/yschi/castscreen/Utils.java:54 | sets the broadcast flag and sends nothing |
| Utils.DatagramSocket.Send | app/src/main/java/com/yschi/castscreen/Utils.java:57 | a send goes through exactly when its outcome says so and then appends exactly that datagram; every send uses one outcome |
| Utils.SendBroadcastMessage | app/src/main/java/com/yschi/castscreen/Utils.java:47-63 | without an address: false, nothing sent and no outcome used; otherwise broadcast enabled, one send tried, and true exactly when it goes through, with the datagram to the broadcast address sent |
| Utils.BroadcastDatagram | app/src/main/java/com/yschi/castscreen/Utils.java:55-56 | the datagram carries the message's octets to the four-octet broadcast address and the given port |
| Ivf.Lay16Bits | app/src/main/java/com/yschi/castscreen/IvfWriter.java:163-166 | writes the two low octets of value at index, little-endian, and leaves every other array element unchanged |
| Ivf.Lay32Bits | app/src/main/java/com/yschi/castscreen/IvfWriter.java:177-181 | writes exactly four octets at index, least significant first, and leaves every other element unchanged |
| Ivf.Lay64Bits | app/src/main/java/com/yschi/castscreen/IvfWriter.java:192-196 | writes exactly eight octets at index, least significant first, and leaves every other element unchanged |
| Ivf.MakeIvfHeader | app/src/main/java/com/yschi/castscreen/IvfWriter.java:119-138 | the 32-byte header: "DKIF", version 0, size 32, "VP80", width, height, then rate before scale, frame count, reserved 0 |
| Ivf.HeaderLaid | app/src/main/java/com/yschi/castscreen/IvfWriter.java:120-136 | the array states makeIvfHeader goes through, each field laid at its offset after the ones before it, end with exactly the file header |
| Ivf.MakeIvfFrameHeader | app/src/main/java/com/yschi/castscreen/IvfWriter.java:146-151 | 12 bytes: the frame size as a 32-bit field, then the timestamp as a 64-bit field |
| Ivf.IvfWriter.constructor | app/src/main/java/com/yschi/castscreen/IvfWriter.java:53-65 | keeps the stream and the stream parameters, with the frame count at 0 |
| Ivf.IvfWriter.Microseconds | app/src/main/java/com/yschi/castscreen/IvfWriter.java:76-78 | the three-argument constructor: scale 1 and rate 1000000 |
| Ivf.IvfWriter.WriteHeader | app/src/main/java/com/yschi/castscreen/IvfWriter.java:92-94 | appends the header with the current frame count, or throws and appends nothing |
| Ivf.TornFrame | app/src/main/java/com/yschi/castscreen/IvfWriter.java:102-106 | a frame record goes through exactly when the channel takes two writes; otherwise the stream keeps nothing, or the 12-byte frame header alone |
| Ivf.IvfWriter.WriteFrame | app/src/main/java/com/yschi/castscreen/IvfWriter.java:102-106 | the frame header, then the frame, each a write on the stream's channel; one more frame is counted only when both go through, and a drop between them leaves the header on the stream |
| Ivf.IvfWriter.Close | app/src/main/java/com/yschi/castscreen/IvfWriter.java:83-89 | closes the stream without rewriting the header |
| Ivf.ParseIvfHeader | app/src/main/java/com/yschi/castscreen/IvfWriter.java:119-138 | the reference reader of the file header: it checks "DKIF" and header size 32 and reads every other field as laid; Ivf.IvfHeaderRoundTrip and Ivf.IvfHeaderPrefix state what it makes of the writer's output |
| Ivf.IvfHeaderPrefix | app/src/main/java/com/yschi/castscreen/IvfWriter.java:92-94 | the reader reads the header off the front of the whole stream: whatever frames follow the 32 header octets, it gives the same fields |
| Ivf.IvfHeaderRoundTrip | app/src/main/java/com/yschi/castscreen/IvfWriter.java:119-138 | a reader recovers "VP80", width and height modulo 2^16, and rate, scale and frame count modulo 2^32 |
| Ivf.FrameRecordSplit | app/src/main/java/com/yschi/castscreen/IvfWriter.java:146-151 | a reader splits one frame record off the front of the frame section and carries on after it |
| Ivf.ParseFrames | app/src/main/java/com/yschi/castscreen/IvfWriter.java:102-106 | a reader's split of what writeFrame emits into frames, a truncated record being an error; Ivf.FramesRoundTrip states that it gives back every frame written, in order, payload intact and timestamp modulo 2^64 |
| Ivf.FramesRoundTrip | app/src/main/java/com/yschi/castscreen/IvfWriter.java:102-106 | reading back the records writeFrame wrote gives every frame, in order, with its timestamp modulo 2^64 |
| MediaCodec.Payload | app/src/main/java/com/yschi/castscreen/CastService.java:340-346 | a ready buffer's bytes are exactly [offset, offset + size) of its contents |
| MediaCodec.Encoder.constructor | app/src/main/java/com/yschi/castscreen/CastService.java:282-306 | a started encoder will return the given results, in order |
| MediaCodec.Encoder.DequeueOutputBuffer | app/src/main/java/com/yschi/castscreen/CastService.java:311 | the next pending result, or INFO_TRY_AGAIN_LATER when none is pending |
| MediaCodec.Encoder.ReleaseOutputBuffer | app/src/main/java/com/yschi/castscreen/CastService.java:379 | records the released index and changes nothing else |
| MediaCodec.Encoder.StopAndRelease | app/src/main/java/com/yschi/castscreen/CastService.java:402-434 | the encoder stops, and its results and releases are unchanged |
| Streams.DeliverSent | app/src/main/java/com/yschi/castscreen/IvfWriter.java:102-106 | a run of writes goes through exactly when the channel takes every one of them; the stream then holds their concatenation, and otherwise a prefix of it |
| Streams.OutputStream.constructor | app/src/main/java/com/yschi/castscreen/CastService.java:523 | a new stream has written nothing, is open, and takes the given number of writes before the peer drops it |
| Streams.OutputStream.Write | app/src/main/java/com/yschi/castscreen/CastService.java:350 | goes through exactly when the stream is open and the peer has not dropped the connection, appending the bytes; otherwise throws and appends nothing; every attempt counts toward the drop |
| Streams.OutputStream.Close | app/src/main/java/com/yschi/castscreen/CastService.java:535 | closes without changing what was written |
| Streams.Socket.constructor | app/src/main/java/com/yschi/castscreen/CastService.java:522 | a connected socket with what the peer sends and its output stream |
| Streams.Socket.Close | app/src/main/java/com/yschi/castscreen/CastService.java:579 | closing the socket also closes its output stream |
| Streams.ServerSocket.constructor | app/src/main/java/com/yschi/castscreen/CastService.java:441 | a new listening socket is open |
| Streams.ServerSocket.Close | app/src/main/java/com/yschi/castscreen/CastService.java:587 | the listening socket is closed |
| CastService.NalUnitType | app/src/main/java/com/yschi/castscreen/CastService.java:71-73 | nal_unit_type is the low five bits, between 0 and 31 |
| CastService.Layout1280x720 | app/src/main/java/com/yschi/castscreen/CastService.java:68-74 | 48 bytes: 0x21, fourteen zeros, 0x01, SPS header 0x67 (type 7), then start code and PPS header 0x68 (type 8) at 29-33 |
| CastService.Layout800x480 | app/src/main/java/com/yschi/castscreen/CastService.java:77-83 | the 800x480 blob has the same layout |
| CastService.H264Header | app/src/main/java/com/yschi/castscreen/CastService.java:479-490 | a blob exists exactly for 1280x720 and 800x480, and every blob has the Annex B layout |
| CastService.InitBlobsDiffer | app/src/main/java/com/yschi/castscreen/CastService.java:68-83 | the two blobs agree everywhere except octets 21 to 28, and differ at each of those |
| CastService.HttpMessage | app/src/main/java/com/yschi/castscreen/CastService.java:61-65 | the request text: request line, Connection header, X-WIDTH and X-HEIGHT lines with the decimal size, then an empty line; Interop.HandshakeIsLines states that it is exactly those four CRLF-ended lines and a blank line |
| CastService.CodecPrologue | app/src/main/java/com/yschi/castscreen/CastService.java:479-497 | what follows the request text: the 48-byte init blob for H.264 at 1280x720 or 800x480, an IVF file header with frame count 0 and timebase 1/1000000 for VP8, nothing (the connection is closed) for any other format or H.264 size; CastService.H264Header states when the blob exists and its layout |
| CastService.HandshakeBytes | app/src/main/java/com/yschi/castscreen/CastService.java:474-497 | the request text followed by the codec prologue; CastService.CompletedHandshake states that a completed handshake puts exactly these octets on the stream |
| CastService.ReadLine | app/src/main/java/com/yschi/castscreen/CastService.java:467-468 | readLine: null exactly at end of stream, otherwise the bytes up to the first line break |
| CastService.IsMirrorRequest | app/src/main/java/com/yschi/castscreen/CastService.java:467-470 | the first line, up to the first line break, is "mirror" without regard to letter case; CastService.MirrorRequestAnyCase and CastService.MirrorRequestNeedsSixLetters state both directions |
| CastService.MirrorRequestAnyCase | app/src/main/java/com/yschi/castscreen/CastService.java:467-473 | "mirror" in any mix of case, ended by a line break or the end of input, is accepted |
| CastService.MirrorRequestNeedsSixLetters | app/src/main/java/com/yschi/castscreen/CastService.java:467-473 | a first line of any other length is refused |
| CastService.Pass | app/src/main/java/com/yschi/castscreen/CastService.java:310-385 | the results a pass takes, no more than the encoder holds; a write failure needs an attached stream |
| CastService.Send | app/src/main/java/com/yschi/castscreen/CastService.java:344-351 | one frame's writes on the channel: the payload, or through an IvfWriter the frame header and then the payload, a throw leaving what went out before it; CastService.SendIsDeliver states that it is the run of those writes |
| CastService.Step | app/src/main/java/com/yschi/castscreen/CastService.java:340-358 | one ready buffer: skipped and released when empty or no stream is attached, otherwise sent and released unless a write throws; CastService.StepSends states what the stream receives in each case |
| CastService.Handle | app/src/main/java/com/yschi/castscreen/CastService.java:316-358 | one dequeue result: a status code is passed over, a buffer index is stepped; CastService.PassContinues states how the pass is made of it |
| CastService.SendIsDeliver | app/src/main/java/com/yschi/castscreen/CastService.java:344-351 | sending a frame is its writes in turn: a raw buffer one write, an IVF frame two; it goes through exactly when the channel takes them all |
| CastService.StepSends | app/src/main/java/com/yschi/castscreen/CastService.java:340-358 | a forwarded buffer whose writes go through puts its whole frame on the stream and counts one frame; one that throws counts none and leaves nothing, or the frame header alone |
| CastService.PassContinues | app/src/main/java/com/yschi/castscreen/CastService.java:316-327 | a result that does not end the pass adds only its own step, and the pass goes on with the next result |
| CastService.PassReleases | app/src/main/java/com/yschi/castscreen/CastService.java:340-343 | every ready buffer handled is released exactly once, in order, including size-0 buffers and those seen with no stream; status codes and a failed write release nothing |
| CastService.PassCounts | app/src/main/java/com/yschi/castscreen/CastService.java:340-351 | the pass counts exactly the frames of the buffers it forwarded and finished |
| CastService.PassSends | app/src/main/java/com/yschi/castscreen/CastService.java:335-351 | unless a write throws, the stream receives exactly the non-empty ready buffers handled, in order, one frame each, codec-config buffers included |
| CastService.PassTears | app/src/main/java/com/yschi/castscreen/CastService.java:344-356 | when a write throws, the stream holds the frames handled before that buffer, whole, and at most the frame header of that buffer |
| CastService.PassOnDeadChannel | app/src/main/java/com/yschi/castscreen/CastService.java:344-356 | a stream whose peer has already dropped the connection, such as the one a stale IvfWriter keeps, receives nothing from a pass and no frame is counted |
| CastService.PassWithoutDrop | app/src/main/java/com/yschi/castscreen/CastService.java:344-356 | on an open stream whose peer never drops the connection no write fails, so a pass ends only at try-later, end-of-stream or the last result |
| CastService.PassStops | app/src/main/java/com/yschi/castscreen/CastService.java:313-315 | a pass stops only at try-later, at end-of-stream after the release, at a failed write, or when the encoder runs dry |
| CastService.EmitIvf | app/src/main/java/com/yschi/castscreen/CastService.java:347-348 | through an IvfWriter the stream receives exactly the IVF frame records |
| CastService.SinkOf | app/src/main/java/com/yschi/castscreen/CastService.java:343-350 | frames go to the socket's stream, through the IvfWriter when there is one; there is no sink without a stream |
| CastService.SendFrame | app/src/main/java/com/yschi/castscreen/CastService.java:344-351 | one buffer as Send prescribes on the stream's channel: the IVF frame record through the writer or the raw bytes when the writes go through; nothing, or the frame header alone, when one throws |
| CastService.HandleReady | app/src/main/java/com/yschi/castscreen/CastService.java:340-358 | the ready-buffer branch does what the pass's step prescribes to the stream and the frame count |
| CastService.Round | app/src/main/java/com/yschi/castscreen/CastService.java:311-384 | one dequeue and its branch: the first step of the pass over the pending results |
| CastService.DrainOne | app/src/main/java/com/yschi/castscreen/CastService.java:310-385 | one loop turn keeps the loop's running total in step with the pass, and the pending queue shrinks |
| CastService.DrainLoop | app/src/main/java/com/yschi/castscreen/CastService.java:310-385 | the while loop releases, writes and consumes exactly what the pass over the pending results does |
| CastService.HandshakeRun | app/src/main/java/com/yschi/castscreen/CastService.java:474-497 | how far the handshake gets on the channel: the request text in one write, the prologue in a second, a throw leaving nothing or the request text; CastService.HandshakeRunIsDeliver states that it is the run of those writes and completes exactly when there is a prologue and the channel takes two writes |
| CastService.HandshakeRunIsDeliver | app/src/main/java/com/yschi/castscreen/CastService.java:525-540 | the handshake is its writes in turn, the request text then the codec prologue; it completes exactly when there is a prologue and the channel takes both writes |
| CastService.CompletedHandshake | app/src/main/java/com/yschi/castscreen/CastService.java:525-540 | a completed handshake has put the whole request text and prologue on the stream and used two writes |
| CastService.RunHandshake | app/src/main/java/com/yschi/castscreen/CastService.java:521-549 | request text then codec prologue, as the handshake run on the stream's channel prescribes; an unknown size or format closes after the text; a drop after the text leaves the text on the stream; for VP8 a new IvfWriter (scale 1, rate 1000000, count 0) on the same stream |
| CastService.Service.constructor | app/src/main/java/com/yschi/castscreen/CastService.java:85-106 | no sockets, encoder or writer, and nothing posted |
| CastService.Service.CloseSocket | app/src/main/java/com/yschi/castscreen/CastService.java:572-596 | always nulls mSocket and mSocketOutputStream; closes and nulls mServerSocket only when asked; nothing else changes |
| CastService.Service.ReleaseEncoders | app/src/main/java/com/yschi/castscreen/CastService.java:402-434 | cancels the drain, stops the encoder and nulls it, the IvfWriter and the projection |
| CastService.Service.StopScreenCapture | app/src/main/java/com/yschi/castscreen/CastService.java:391-400 | releaseEncoders, closeSocket(false), then the virtual display; the listening socket stays |
| CastService.Service.DrainEncoder | app/src/main/java/com/yschi/castscreen/CastService.java:308-389 | the pass's writes and releases, on the stream's channel; on success rescheduled; on a write failure capture stopped and not rescheduled |
| CastService.Service.CreateSocket | app/src/main/java/com/yschi/castscreen/CastService.java:516-570 | true exactly when the connection exists and the handshake completed on its channel; the stream kept then, forgotten otherwise, with whatever the handshake wrote; for VP8, once the request text went through, a new IvfWriter on the connection's stream with frame count 0 and timebase 1/1000000 replaces the service's writer, which is kept as it was in every other case |
| CastService.Service.CreateServerSocket | app/src/main/java/com/yschi/castscreen/CastService.java:436-455 | true in every case; a fresh open listening socket when the viewer port can be bound, and otherwise the old listening socket (or none) kept, since the bind failure is caught on the thread; nothing else changed |
| CastService.Service.ServeClient | app/src/main/java/com/yschi/castscreen/CastService.java:464-473 | no answer and the client closed with nothing written unless the first line asks for a mirror stream; for an answered request, the handshake, start request and IvfWriter that CastService.Service.Answer states |
| CastService.Service.Answer | app/src/main/java/com/yschi/castscreen/CastService.java:474-503 | the handshake bytes and a posted start when it completes; after an unknown format or size the text only and a closed, forgotten stream; after a drop whatever got through and a forgotten stream; for VP8, once the request text went through, a new IvfWriter on the client's stream with frame count 0 and timebase 1/1000000 replaces the service's writer, which is kept as it was in every other case |
| CastService.Service.StartRecording | app/src/main/java/com/yschi/castscreen/CastService.java:259-280 | a new running encoder over the given results and a first drain pass run; a write failure in it stops capture again |
| CastService.Service.StartScreenCapture | app/src/main/java/com/yschi/castscreen/CastService.java:248-257 | starts recording exactly when the result code is non-zero and result data is present |
| CastService.Service.OnStartCommand | app/src/main/java/com/yschi/castscreen/CastService.java:180-221 | no intent or no receiver: NOT_STICKY; "" is listen mode, STICKY whether or not the port could be bound (a fresh listener only when it could); otherwise STICKY exactly when the handshake and capture start both succeed, with the stream contents of ClientMode, even if the first drain pass then loses the connection |
| CastService.Service.ClientMode | app/src/main/java/com/yschi/castscreen/CastService.java:209-219 | STICKY exactly when createSocket and startScreenCapture both succeed. The new stream then holds the handshake followed by the first pass's bytes, unless an IvfWriter left by an earlier VP8 start (one whose header write threw, CastService.java:541-542, 553-557) survives an AVC start: then the new stream holds only the handshake and the pass goes, IVF-framed, to that writer's old stream. A write failure in the pass leaves no socket |
| CsReceiver.DiscoverPrefixMatch | receiver/cs_receiver.c:246 | a datagram of five bytes or more is answered exactly when it starts with "hello" |
| CsReceiver.DiscoverLongerHello | receiver/cs_receiver.c:246 | "hello" followed by anything is answered: a prefix match |
| CsReceiver.StaleBufferCompletesHello | receiver/cs_receiver.c:224-246 | a shorter datagram is matched against what the buffer held before: "hell" after a "hello" is answered |
| CsReceiver.DiscoverReply | receiver/cs_receiver.c:252-254 | the reply is at most 511 bytes, as the 512-byte buffer allows |
| CsReceiver.DiscoverReplyWhole | receiver/cs_receiver.c:39 | the reply is the template with port 53515 and the address in both name and id |
| CsReceiver.DiscoverReplyCut | receiver/cs_receiver.c:252-254 | an over-long text is cut to its first 511 bytes |
| CsReceiver.ValueAfterBlank | receiver/cs_receiver.c:347 | `atoi(strstr(info, " "))` has a value exactly when the line holds a blank |
| CsReceiver.ScanLinesAppend | receiver/cs_receiver.c:343-355 | the strtok loop over one more line is one more step of the loop |
| CsReceiver.ScanLinesUnmentioned | receiver/cs_receiver.c:346-353 | lines that mention neither key leave the size as it was |
| CsReceiver.ControlDefaults | receiver/cs_receiver.c:334-335 | without size lines the decoder gets 800x480 |
| CsReceiver.LastWidthWins | receiver/cs_receiver.c:346-349 | a later "X-WIDTH:" line overrides earlier ones and leaves the height |
| CsReceiver.LastHeightWins | receiver/cs_receiver.c:350-353 | a later "X-HEIGHT:" line overrides earlier ones and leaves the width |
| CsReceiver.ControlCaps | receiver/cs_receiver.c:333-355 | the size the control parse of the handshake chunk arrives at; CsReceiver.ControlDefaults states 800x480 when no line names a size, CsReceiver.LastWidthWins and CsReceiver.LastHeightWins that the last such line decides |
| CsReceiver.ParseControl | receiver/cs_receiver.c:333-355 | the strtok loop computes the size the control parse defines |
| CsReceiver.AfterControl | receiver/cs_receiver.c:337-342 | forwards the bytes after the first "\r\n\r\n" (len minus its offset plus 4), none without it |
| CsReceiver.AcceptOnlyWhenIdle | receiver/cs_receiver.c:261-267 | a connection attempt while a client is active changes nothing |
| CsReceiver.AcceptStartsDecoder | receiver/cs_receiver.c:261-300 | an accepted client becomes the client, awaits its handshake and gets a decoder |
| CsReceiver.TornDown | receiver/cs_receiver.c:314-328 | the teardown: close the client, kill the decoder, close the fifo, each only when open, and mark each gone with -1; CsReceiver.ReadErrorTearsDown and CsReceiver.IdleTimeoutsClose state when it happens |
| CsReceiver.AfterRead | receiver/cs_receiver.c:305-432 | one read on the client socket; CsReceiver.DataResetsCount, CsReceiver.EmptyReadCounts, CsReceiver.ReadErrorTearsDown, CsReceiver.ThreeEmptyReadsClose and CsReceiver.LaterChunkForwardedWhole state its cases |
| CsReceiver.AfterHandshake | receiver/cs_receiver.c:333-411 | the handshake chunk: parse the size, start the decoder, forward what follows the header; CsReceiver.ControlChunkForwards states what is launched and piped |
| CsReceiver.AfterTimeout | receiver/cs_receiver.c:433-458 | a select timeout: counted only while a decoder runs, teardown past the limit; CsReceiver.TimeoutsCount and CsReceiver.IdleTimeoutsClose state it |
| CsReceiver.Next | receiver/cs_receiver.c:221-458 | one turn of the loop, by the branch select woke; CsReceiver.Receiver.Wake is proved against it |
| CsReceiver.Run | receiver/cs_receiver.c:195-460 | the loop over a run of wake-ups: final variables and every effect in order; CsReceiver.CrashIsFinal, CsReceiver.FifoNeverOpened and CsReceiver.Serve are stated over it |
| CsReceiver.DataResetsCount | receiver/cs_receiver.c:309-310 | a read with data resets no_data_count to 0 and keeps the client |
| CsReceiver.EmptyReadCounts | receiver/cs_receiver.c:311-314 | an empty read adds one to no_data_count and closes the client when the count exceeds 2 |
| CsReceiver.ReadErrorTearsDown | receiver/cs_receiver.c:314-328 | a failed read closes the client, kills the decoder and resets every descriptor to -1 |
| CsReceiver.ThreeEmptyReadsClose | receiver/cs_receiver.c:309-317 | from a fresh count, two empty reads keep the client and the third closes it |
| CsReceiver.TimeoutsCount | receiver/cs_receiver.c:434-437 | while a decoder runs, each timeout adds one to the count and does nothing else |
| CsReceiver.IdleTimeoutsClose | receiver/cs_receiver.c:438-455 | the eleventh timeout closes the client, kills the decoder and resets every descriptor to -1 |
| CsReceiver.ControlChunkForwards | receiver/cs_receiver.c:333-411 | the handshake chunk starts a decoder with the parsed size, clears just_connect and forwards what follows the header |
| CsReceiver.LaterChunkForwardedWhole | receiver/cs_receiver.c:413-430 | after the handshake every chunk goes to the decoder whole |
| CsReceiver.AcceptedDecoderOrphaned | receiver/cs_receiver.c:357-390 | the handshake's decoder replaces the one started at accept, which is never killed |
| CsReceiver.CrashIsFinal | receiver/cs_receiver.c:347 | after the crash of `atoi(NULL)` nothing more happens |
| CsReceiver.FifoNeverOpened | receiver/cs_receiver.c:30 | with USE_FIFO 0 the fifo descriptor stays -1 whatever happens |
| CsReceiver.Receiver.constructor | receiver/cs_receiver.c:113-133 | main's locals start with no client, no decoder and a zero count |
| CsReceiver.Receiver.StartDecoder | receiver/cs_receiver.c:275 | popen2 records the pid and pipe ends and launches one decoder |
| CsReceiver.Receiver.CloseAll | receiver/cs_receiver.c:314-328 | the teardown, as the loop's teardown function defines it |
| CsReceiver.Receiver.OnDiscovery | receiver/cs_receiver.c:221-259 | the discovery branch leaves the locals alone and emits one reply per local address when the datagram matches |
| CsReceiver.Receiver.OnListen | receiver/cs_receiver.c:260-304 | the listening branch, as the loop function defines it |
| CsReceiver.Receiver.OnClientData | receiver/cs_receiver.c:305-432 | the client branch, as the loop function defines it |
| CsReceiver.Receiver.OnHandshake | receiver/cs_receiver.c:333-411 | the handshake part of the client branch, as the loop function defines it |
| CsReceiver.Receiver.OnTimeout | receiver/cs_receiver.c:433-458 | the idle branch, as the loop function defines it |
| CsReceiver.Receiver.Wake | receiver/cs_receiver.c:221-458 | one turn of the loop changes the locals and emits the effects the step function gives |
| CsReceiver.Serve | receiver/cs_receiver.c:195-460 | the `for (;;)` loop over the wake-ups ends in the state and effects of the run function |
| PyReceiver.MetaData | receiver/cs_receiver.py:31 | the JSON reply with port and fixed address; PyReceiver.MetaDataFields and PyReceiver.MetaDataPort state where the address and the port 53515 sit in it |
| PyReceiver.MetaDataFields | receiver/cs_receiver.py:31 | the reply carries IP both in name and in id |
| PyReceiver.MetaDataPort | receiver/cs_receiver.py:31 | the reply announces port 53515 |
| PyReceiver.AnswersExactHello | receiver/cs_receiver.py:77-79 | exactly one reply, meta_data to the sender's (ip, port), when the datagram is exactly "hello"; none otherwise |
| PyReceiver.LongerHelloIgnored | receiver/cs_receiver.py:77 | "hello" with anything after it gets no reply |
| PyReceiver.Responses | receiver/cs_receiver.py:67-79 | meta_data sent back to the sender of each exact "hello", in order; PyReceiver.AnswersExactHello and PyReceiver.LongerHelloIgnored state it, PyReceiver.HandleDiscovery is proved against it |
| PyReceiver.HandleDiscovery | receiver/cs_receiver.py:67-79 | the loop sends exactly the replies the exact-match rule gives, in order |
| PyReceiver.FirstChunk | receiver/cs_receiver.py:47-51 | with the terminator at an index > 0, the bytes from index + 4 on; otherwise nothing |
| PyReceiver.Relayed | receiver/cs_receiver.py:40-58 | what reaches the player: the first chunk after its header, every later chunk whole, up to end of stream; PyReceiver.RelayedAfterFirst, PyReceiver.LaterChunksVerbatim and PyReceiver.EndOfStreamStops state it, PyReceiver.RelayStream is proved against it |
| PyReceiver.RelayedAfterFirst | receiver/cs_receiver.py:55-56 | once the header is skipped, chunks are piped verbatim and in order |
| PyReceiver.LaterChunksVerbatim | receiver/cs_receiver.py:41-58 | the player gets the first chunk's tail, then every later chunk whole |
| PyReceiver.FirstChunkWithoutHeaderDropped | receiver/cs_receiver.py:45-54 | a first chunk without a terminator, or with it at index 0, is dropped; the flag is set anyway |
| PyReceiver.EndOfStreamStops | receiver/cs_receiver.py:42-44 | nothing after the first empty recv reaches the player |
| PyReceiver.RelayStream | receiver/cs_receiver.py:40-58 | the recv loop pipes exactly what the relay function gives |
| PyReceiver.ConnectToServer | receiver/cs_receiver_conn.py:28-58 | sends exactly "mirror\n", then relays the stream with the same skip rule |
| MainActivity.Take | app/src/main/java/com/yschi/castscreen/MainActivity.java:429-431 | a datagram longer than the buffer is cut to the buffer's length |
| MainActivity.BufferAfter | app/src/main/java/com/yschi/castscreen/MainActivity.java:428-431 | the buffer holds the received bytes, then zeros from Arrays.fill |
| MainActivity.ReceiveInto | app/src/main/java/com/yschi/castscreen/MainActivity.java:428-431 | fills the array in place with that content and returns the received length |
| MainActivity.Upsert | app/src/main/java/com/yschi/castscreen/MainActivity.java:432-443 | an accepted reply maps its name to the packet's source address and leaves the other entries; any other round leaves the map unchanged |
| MainActivity.Directory | app/src/main/java/com/yschi/castscreen/MainActivity.java:432-457 | the receiver list after a run of replies; MainActivity.DirectoryLatest and MainActivity.DirectoryUntouched state it, MainActivity.Activity.Discover is proved against it |
| MainActivity.DirectoryLatest | app/src/main/java/com/yschi/castscreen/MainActivity.java:443 | a name maps to the address of the last accepted reply carrying it |
| MainActivity.DirectoryUntouched | app/src/main/java/com/yschi/castscreen/MainActivity.java:434-457 | a name no accepted reply carried keeps its entry, or stays absent |
| MainActivity.Activity.constructor | app/src/main/java/com/yschi/castscreen/MainActivity.java:152-172 | the directory starts with the server-mode entry mapped to "", with the first format, bitrate and resolution selected |
| MainActivity.Activity.SelectReceiver | app/src/main/java/com/yschi/castscreen/MainActivity.java:160-167 | the receiver becomes the address the tapped name maps to |
| MainActivity.Activity.EnterReceiverIp | app/src/main/java/com/yschi/castscreen/MainActivity.java:177-188 | a non-empty typed address replaces the receiver |
| MainActivity.Activity.SelectFormat | app/src/main/java/com/yschi/castscreen/MainActivity.java:198-207 | row i, or row 0 when nothing is selected |
| MainActivity.Activity.SelectResolution | app/src/main/java/com/yschi/castscreen/MainActivity.java:218-231 | (width, height, dpi) = RESOLUTION_OPTIONS[i], or row 0; every row has an H.264 init blob |
| MainActivity.Activity.SelectBitrate | app/src/main/java/com/yschi/castscreen/MainActivity.java:242-251 | BITRATE_OPTIONS[i], or row 0 |
| MainActivity.Broadcasts | app/src/main/java/com/yschi/castscreen/MainActivity.java:424-427 | the datagrams the discovery rounds send; MainActivity.BroadcastsAreHello, MainActivity.BroadcastsReliable and MainActivity.BroadcastsNeedLease state it, MainActivity.Activity.Discover is proved against it |
| MainActivity.BroadcastsAreHello | app/src/main/java/com/yschi/castscreen/MainActivity.java:424-427 | every datagram discovery sends is "hello" to port 53515 at a four-octet address, at most one per round |
| MainActivity.BroadcastsReliable | app/src/main/java/com/yschi/castscreen/MainActivity.java:424-427 | with a lease every round and no send that throws, round k broadcasts once, to the broadcast address of its own lease |
| MainActivity.BroadcastsNeedLease | app/src/main/java/com/yschi/castscreen/Utils.java:34-37 | with no lease in any round nothing is sent and no send is tried |
| MainActivity.Activity.DiscoveryRound | app/src/main/java/com/yschi/castscreen/MainActivity.java:425-457 | broadcasts "hello" to the broadcast address of the lease read now, when there is one and the send goes through, and enters the reply by the upsert rule |
| MainActivity.Activity.Discover | app/src/main/java/com/yschi/castscreen/MainActivity.java:418-470 | the loop's directory is the fold of the upsert over its rounds, and the socket sends the concatenation of what each round broadcasts with its own lease and send outcome |
| MainActivity.ServerModeEntry | app/src/main/java/com/yschi/castscreen/MainActivity.java:171-172 | the server-mode entry maps to "" (listen mode) unless a receiver takes its name |
| Interop.TokensLines | receiver/cs_receiver.c:343-354 | `strtok` gives back the lines of a CRLF-terminated block, then the tokens of what follows |
| Interop.HeaderEnd | receiver/cs_receiver.c:337 | "\r\n\r\n" is first found at the blank line that ends a block of good lines |
| Interop.HandshakeIsLines | app/src/main/java/com/yschi/castscreen/CastService.java:61-65 | the handshake text is four CRLF lines and an empty line: request line, Connection, X-WIDTH, X-HEIGHT |
| Interop.HandshakeLinesGood | app/src/main/java/com/yschi/castscreen/CastService.java:61-65 | each handshake line is non-empty and free of CR, LF and NUL |
| Interop.PyReceiverSkipsRequest | receiver/cs_receiver.py:47-51 | the Python receivers pipe exactly what the sender wrote after its request text |
| Interop.CsReceiverSkipsRequest | receiver/cs_receiver.c:337-342 | the C receiver forwards exactly what the sender wrote after its request text |
| Interop.HandshakeTokens | receiver/cs_receiver.c:343-355 | `strtok` over the handshake gives its four lines, then the tokens of the codec bytes |
| Interop.CsReceiverReadsSize | receiver/cs_receiver.c:333-355 | the C receiver parses the width and height the sender wrote |
| Interop.ScanLinesConcat | receiver/cs_receiver.c:343-355 | the strtok loop over two blocks of lines is the loop over the first, then the second |
| Interop.H264HandshakeUnderstood | app/src/main/java/com/yschi/castscreen/CastService.java:474-490 | for either H.264 size, the C receiver reads that size and both receivers forward exactly the 48-byte blob |
| Interop.DiscoveryAnswered | app/src/main/java/com/yschi/castscreen/MainActivity.java:425-427 | the sender's "hello" is answered by the C receiver and by the Python receiver |
| Interop.DiscoveryPortsAgree | app/src/main/java/com/yschi/castscreen/Common.java:27 | both receivers listen on the port the sender broadcasts to, 53515 |
| Interop.ConnSendsMirror | receiver/cs_receiver_conn.py:35-37 | what cs_receiver_conn.py sends first is a mirror request for the listener |

## Left out

- Threads, the accept loop, per-connection threads, the `createSocket` join and AsyncTask cancellation. Each body is run sequentially on its inputs. The listener's connections are served one at a time (`ServeClient`).
- CastService.Service.ServeClient: stops where the IOException handler's retry would begin. After an IOException, lines 510-511 of `CastService.java` set `mClientSocket` to null and the loop goes round again, so line 467 dereferences the null `mClientSocket`. The uncaught NullPointerException crashes the app process, which the model does not represent.
- CastService.MirrorRequestAnyCase: `equalsIgnoreCase` is modelled on ASCII letters only. Java's Unicode case folding is not modelled.
- MediaCodec.Payload: gives no bytes for a ready buffer whose range lies outside the buffer. The encoder never produces such a buffer, so the Java exception for it is not modelled.
- `String.getBytes` and Python 2 `str` are modelled as ASCII octets. The constant texts ("hello", "mirror", the request lines) are ASCII; the digits inside the request are covered by the CastService.HttpMessage line below.
- CastService.HttpMessage: `String.format` with `%d` uses the default locale's digits (`CastService.java:476`, `CastService.java:525`). The model writes ASCII digits, as a locale with Latin digits does.
- CastService.MirrorRequestNeedsSixLetters: the line is compared as octets, ASCII letters case-folded. Java decodes the line and folds Unicode case, so it also accepts a line such as "mırror" (dotless i, seven octets in UTF-8), which the model refuses.
- Text.Atoi: reads unbounded integers. A digit run beyond the range of a C `int`, which is undefined behaviour for `atoi`, is not modelled.
- Streams.OutputStream.Write: a single write goes through whole or not at all. A write that throws after part of its bytes reached the peer is not modelled.
- Utils.DatagramSocket.SetBroadcast: never throws. A SocketException from `setBroadcast`, which `sendBroadcastMessage` would also turn into false, is not modelled.
- A null buffer from `getOutputBuffer` and the RuntimeException it raises (`CastService.java:329-331`). The encoder model always has a buffer for a ready index.
- org.json parsing is a parameter: a function from the receive buffer to an optional map of string members. `new String(buf)` decoding is part of that parameter.
- Sleeps, socket timeouts, `select` timeouts, the 3 s discovery cadence and the 10 ms reschedule delay. They are inputs (`Timeout`, `SelectTimedOut`) or a recorded flag (`drainScheduled`).
- MediaProjection, VirtualDisplay and MediaCodec configuration, which are Android framework calls. The encoder is a queue of poll results given to `StartRecording`.
- When the C control parse finds "\r\n" but not "\r\n\r\n", the C code does pointer arithmetic on NULL. The model gives the usual result of that arithmetic: nothing is forwarded.
- `strtok`'s in-place NUL writes and its stop at a NUL byte. The parse runs on the C string of the chunk, and the forwarded bytes are the received ones.
- The control parse over a 1024-byte chunk holding no NUL, which `strstr` would read past. The model stops at the chunk's end.
- `atoi(NULL)` for a size line without a blank is modelled as a crash (`crashed`), after which nothing happens.
- The C receiver's stale 128-byte broadcast buffer is an input, not state carried between datagrams.
- CsReceiver.Next and CsReceiver.Wakeup: a wake-up names the one branch the loop takes, and any branch may be given. The priority of the `select` branches (the UDP socket first, then the listening socket, then the client, `cs_receiver.c:222`, `:260`, `:305`) is not modelled. So the model does not capture this starvation: while a client is connected, a second pending connection keeps the listening socket readable and is never accepted (`cs_receiver.c:261`, `:302-303`). Every wake-up then takes the listening branch, and the connected client's data and the idle timeouts are never handled.
- The CLIENT_MODE, VPUDEC and USE_FIFO builds of `cs_receiver.c`. The default build is modelled: server mode, decoder fed through a pipe.
- Re-creating the UDP socket, `sendto` failures, `recvmsg` control-message walking, `p.kill`, `waitpid` and SAVE_TO_FILE.
- The Python receivers' `select` loop, `serve_forever` and the TCP server thread.
- `cs_receiver_conn.py` connects to localhost:53516, while the sender listens on 53515. The forwarding between the two ports is outside both programs.
- Interop.PyReceiverSkipsRequest: assumes the request text arrives in the first chunk the receiver reads. A handshake split across reads is not modelled.
- Interop.CsReceiverSkipsRequest: makes the same first-chunk assumption.
- Interop.H264HandshakeUnderstood: makes the same first-chunk assumption.
- Notifications, Messenger IPC, broadcast receivers, the spinner and list adapters, and SharedPreferences. The saved receiver address is a constructor parameter.
- Common.java is not modelled as a file. Its constants are written where they are used, and `Interop.DiscoveryPortsAgree` checks that the copies agree.

/** The sender's streaming service (CastService.java): the handshake it writes on a new
    connection, the drain loop that forwards encoded frames, and the connection state that
    the handshake bodies, closeSocket and releaseEncoders set and clear. */
module CastService {
  import opened Bytes
  import opened Text
  import opened Wrappers
  import opened Streams
  import opened Ivf
  import opened MediaCodec

  const MIMETYPE_VIDEO_AVC := "video/avc"
  const MIMETYPE_VIDEO_VP8 := "video/x-vnd.on2.vp8"

  lemma MimeTypesDiffer()
    ensures MIMETYPE_VIDEO_AVC != MIMETYPE_VIDEO_VP8
  {
    assert MIMETYPE_VIDEO_AVC[6] != MIMETYPE_VIDEO_VP8[6];
  }

  const START_STICKY := 1
  const START_NOT_STICKY := 2

  const DEFAULT_SCREEN_WIDTH := 1280
  const DEFAULT_SCREEN_HEIGHT := 720
  const DEFAULT_SCREEN_DPI := 320
  const DEFAULT_VIDEO_BITRATE := 6144000

  /** Delay, in milliseconds, before the next drain pass runs. */
  const DRAIN_DELAY_MS := 10

  // ---------------------------------------------------------------------------------------
  // Handshake bytes

  /** The fixed parts of HTTP_MESSAGE_TEMPLATE. */
  const RequestLine: string := "POST /api/v1/h264 HTTP/1.1\r\n"
  const ConnectionHeader: string := "Connection: close\r\n"
  const WidthName: string := "X-WIDTH: "
  const HeightName: string := "X-HEIGHT: "
  const Crlf: string := "\r\n"

  /** HTTP_MESSAGE_TEMPLATE formatted with the selected width and height. */
  function HttpMessage(width: int, height: int): string
  {
    RequestLine + ConnectionHeader + WidthName + Decimal(width) + Crlf + HeightName + Decimal(height) + Crlf + Crlf
  }

  /** H264_PREDEFINED_HEADER_1280x720. */
  const H264Header1280x720: seq<byte> :=
    [0x21, 0x00, 0x00, 0x00, 0x00, 0x00, 0x00, 0x00] +
    [0x00, 0x00, 0x00, 0x00, 0x00, 0x00, 0x00, 0x01] +
    [0x67, 0x42, 0x80, 0x20, 0xda, 0x01, 0x40, 0x16] +
    [0xe8, 0x06, 0xd0, 0xa1, 0x35, 0x00, 0x00, 0x00] +
    [0x01, 0x68, 0xce, 0x06, 0xe2, 0x32, 0x24, 0x00] +
    [0x00, 0x7a, 0x83, 0x3d, 0xae, 0x37, 0x00, 0x00]

  /** H264_PREDEFINED_HEADER_800x480. */
  const H264Header800x480: seq<byte> :=
    [0x21, 0x00, 0x00, 0x00, 0x00, 0x00, 0x00, 0x00] +
    [0x00, 0x00, 0x00, 0x00, 0x00, 0x00, 0x00, 0x01] +
    [0x67, 0x42, 0x80, 0x20, 0xda, 0x03, 0x20, 0xf6] +
    [0x80, 0x6d, 0x0a, 0x13, 0x50, 0x00, 0x00, 0x00] +
    [0x01, 0x68, 0xce, 0x06, 0xe2, 0x32, 0x24, 0x00] +
    [0x00, 0x7a, 0x83, 0x3d, 0xae, 0x37, 0x00, 0x00]

  /** nal_unit_type of an H.264 NAL unit header octet (ITU-T H.264 section 7.3.1). */
  function NalUnitType(header: byte): (t: int)
    ensures 0 <= t < 32
  {
    header as int % 32
  }

  /** The layout both init blobs share: a lead octet 0x21, then an Annex B start code
      00 00 00 01 at 12..15 opening a sequence parameter set (NAL header 0x67, type 7) and a
      second start code at 29..32 opening a picture parameter set (NAL header 0x68, type 8). */
  predicate InitBlobLayout(b: seq<byte>)
  {
    |b| == 48 && b[0] == 0x21
    && (forall i :: 1 <= i < 15 ==> b[i] == 0) && b[15] == 1
    && b[16] == 0x67 && NalUnitType(b[16]) == 7
    && b[29..33] == [0, 0, 0, 1]
    && b[33] == 0x68 && NalUnitType(b[33]) == 8
  }

  lemma Layout1280x720()
    ensures InitBlobLayout(H264Header1280x720)
  {
  }

  lemma Layout800x480()
    ensures InitBlobLayout(H264Header800x480)
  {
  }

  /** The init blob the service sends for an H.264 stream: defined for 1280x720 and 800x480 only. */
  function H264Header(width: int, height: int): (r: Option<seq<byte>>)
    ensures r.Some? <==> (width == 1280 && height == 720) || (width == 800 && height == 480)
    ensures r.Some? ==> InitBlobLayout(r.value)
  {
    if width == 1280 && height == 720 then Layout1280x720(); Some(H264Header1280x720)
    else if width == 800 && height == 480 then Layout800x480(); Some(H264Header800x480)
    else None
  }

  /** The two blobs differ only in octets 21 to 28, inside the sequence parameter set. */
  lemma InitBlobsDiffer()
    ensures forall i :: 0 <= i < 48 && !(21 <= i <= 28) ==> H264Header1280x720[i] == H264Header800x480[i]
    ensures forall i :: 21 <= i <= 28 ==> H264Header1280x720[i] != H264Header800x480[i]
  {
  }

  /** The codec bytes that follow the request text: the init blob for H.264, an IVF file header
      (frame count 0, microsecond timebase) for VP8, nothing for any other pair. */
  function CodecPrologue(format: string, width: int, height: int): Option<seq<byte>>
  {
    if format == MIMETYPE_VIDEO_AVC then H264Header(width, height)
    else if format == MIMETYPE_VIDEO_VP8 then Some(IvfHeader(0, width, height, 1, 1000000))
    else None
  }

  /** What a successful handshake puts on the stream. */
  function HandshakeBytes(format: string, width: int, height: int): seq<byte>
    requires CodecPrologue(format, width, height).Some?
  {
    Ascii(HttpMessage(width, height)) + CodecPrologue(format, width, height).value
  }

  // ---------------------------------------------------------------------------------------
  // The listener's trigger line

  /** BufferedReader.readLine over the octets the peer sent: null at end of stream, otherwise
      everything up to the first line feed or carriage return. */
  function ReadLine(s: seq<byte>): (r: Option<seq<byte>>)
    ensures r.None? <==> s == []
    ensures r.Some? ==> r.value <= s && (forall i :: 0 <= i < |r.value| ==> !IsDelim(r.value[i]))
    ensures r.Some? && |r.value| < |s| ==> IsDelim(s[|r.value|])
  {
    if s == [] then None else Some(s[..TokenEnd(s)])
  }

  function ToLower(b: byte): byte
  {
    if 65 <= b <= 90 then b + 32 else b
  }

  /** String.equalsIgnoreCase restricted to ASCII: same length, letters compared without case. */
  predicate EqualsIgnoreCase(a: seq<byte>, b: seq<byte>)
  {
    |a| == |b| && forall i :: 0 <= i < |a| ==> ToLower(a[i]) == ToLower(b[i])
  }

  /** The first line asks for a mirror stream. */
  predicate IsMirrorRequest(input: seq<byte>)
  {
    var line := ReadLine(input);
    line.Some? && EqualsIgnoreCase(line.value, Ascii("mirror"))
  }

  /** "mirror" in any mix of letter case, ended by a line break, is a mirror request. */
  lemma MirrorRequestAnyCase(line: seq<byte>, rest: seq<byte>)
    requires |line| == 6
    requires forall i :: 0 <= i < 6 ==> line[i] == Ascii("mirror")[i] || line[i] as int + 32 == Ascii("mirror")[i] as int
    requires rest == [] || IsDelim(rest[0])
    ensures IsMirrorRequest(line + rest)
  {
    MirrorIsLowerCase();
    LowerCaseMatch(line, Ascii("mirror"));
    assert NoDelim(line);
    TokenEndAt(line, rest);
    assert ReadLine(line + rest) == Some(line);
  }

  lemma MirrorIsLowerCase()
    ensures |Ascii("mirror")| == 6 && forall i :: 0 <= i < 6 ==> 97 <= Ascii("mirror")[i] <= 122
  {
    assert Ascii("mirror") == [109, 105, 114, 114, 111, 114];
  }

  /** Letters that are those of a lower-case word, or their capitals, equal it ignoring case. */
  lemma LowerCaseMatch(line: seq<byte>, word: seq<byte>)
    requires |line| == |word|
    requires forall i :: 0 <= i < |word| ==> 97 <= word[i] <= 122
    requires forall i :: 0 <= i < |word| ==> line[i] == word[i] || line[i] as int + 32 == word[i] as int
    ensures EqualsIgnoreCase(line, word)
  {
  }

  /** A first line that differs from "mirror" in length is refused, whatever its letters. */
  lemma MirrorRequestNeedsSixLetters(input: seq<byte>)
    requires input != [] && TokenEnd(input) != 6
    ensures !IsMirrorRequest(input)
  {
  }

  // ---------------------------------------------------------------------------------------
  // One drain pass, as a function of the encoder's results

  /** What one pass of drainEncoder did: the octets it put on the stream, how many frames they
      hold, the buffer indices it released, how many results it took from the encoder, whether
      it ended on a failed write, and the channel the stream is left with. */
  datatype PassResult = PassResult(bytes: seq<byte>, frames: nat, released: seq<int>, consumed: nat,
                                   writeFailed: bool, after: Channel)

  function Then(bytes: seq<byte>, frames: nat, released: seq<int>, consumed: nat, r: PassResult): PassResult
  {
    PassResult(bytes + r.bytes, frames + r.frames, released + r.released, consumed + r.consumed, r.writeFailed, r.after)
  }

  /** A ready buffer whose write is attempted: it is not empty and a stream is attached. */
  predicate Forwards(p: Poll, attached: bool)
  {
    p.index >= 0 && p.info.size != 0 && attached
  }

  /** What the stream receives for one frame: an IVF frame record when an IvfWriter is in
      use, the bare payload otherwise. */
  function Piece(f: Frame, ivf: bool): seq<byte>
  {
    if ivf then FrameRecord(f.data, f.timestamp) else f.data
  }

  /** The writes one frame takes: the frame header and then the frame through an IvfWriter,
      a single write of the payload otherwise. */
  function Writes(f: Frame, ivf: bool): seq<seq<byte>>
  {
    if ivf then [FrameHeader(|f.data|, f.timestamp), f.data] else [f.data]
  }

  /** What sending one frame does on channel c: the payload in one write; through an
      IvfWriter the frame header and then the payload, so that a drop after the first write
      leaves the frame header alone on the stream. */
  function Send(c: Channel, f: Frame, ivf: bool): Delivery
  {
    if !c.Takes() then Delivery([], false, c.Next())
    else if !ivf then Delivery(f.data, true, c.Next())
    else if !c.Next().Takes() then Delivery(FrameHeader(|f.data|, f.timestamp), false, c.Next().Next())
    else Delivery(Piece(f, true), true, c.Next().Next())
  }

  /** Sending a frame is the run of its writes, each taking its turn on the channel; it goes
      through exactly when the channel takes as many writes as the frame needs. */
  lemma SendIsDeliver(c: Channel, f: Frame, ivf: bool)
    ensures Send(c, f, ivf) == Deliver(c, Writes(f, ivf))
    ensures Send(c, f, ivf).ok <==> Clear(c, |Writes(f, ivf)|)
  {
    DeliverSent(c, Writes(f, ivf));
    if ivf {
      DeliverPair(c, FrameHeader(|f.data|, f.timestamp), f.data);
    } else {
      DeliverOne(c, f.data);
    }
  }

  /** The frame a ready buffer carries: its payload and presentation time. */
  function FrameOf(p: Poll): Frame
  {
    Frame(Payload(p), p.info.presentationTimeUs)
  }

  /** What handling one ready buffer does: its writes are attempted when it is not empty and a
      stream is attached; unless one of them throws, the buffer is released. */
  function Step(p: Poll, attached: bool, c: Channel, ivf: bool): (s: PassResult)
  {
    if !Forwards(p, attached) then PassResult([], 0, [p.index], 1, false, c)
    else
      var d := Send(c, FrameOf(p), ivf);
      if !d.ok then PassResult(d.sent, 0, [], 1, true, d.after)
      else PassResult(d.sent, 1, [p.index], 1, false, d.after)
  }

  /** What handling one result does: a status code is skipped, a ready buffer is stepped. */
  function Handle(p: Poll, attached: bool, c: Channel, ivf: bool): PassResult
  {
    if p.index < 0 then PassResult([], 0, [], 1, false, c) else Step(p, attached, c, ivf)
  }

  /** The pass over the encoder's pending results, with a stream attached or not, meeting the
      channel c, through an IvfWriter or not. */
  function Pass(polls: seq<Poll>, attached: bool, c: Channel, ivf: bool): (r: PassResult)
    ensures r.consumed <= |polls|
    ensures r.writeFailed ==> attached && r.consumed > 0
    decreases |polls|
  {
    if polls == [] then PassResult([], 0, [], 0, false, c)
    else
      var p := polls[0];
      if p.index == INFO_TRY_AGAIN_LATER then PassResult([], 0, [], 1, false, c)
      else if p.index < 0 then Then([], 0, [], 1, Pass(polls[1..], attached, c, ivf))
      else
        var s := Step(p, attached, c, ivf);
        if s.writeFailed || p.info.flags & BUFFER_FLAG_END_OF_STREAM != 0 then s
        else Then(s.bytes, s.frames, s.released, 1, Pass(polls[1..], attached, s.after, ivf))
  }

  /** The results a pass handled to the end: all it took, except a buffer whose write failed. */
  function Handled(r: PassResult): nat
  {
    if r.writeFailed && r.consumed > 0 then r.consumed - 1 else r.consumed
  }

  /** The indices of the ready buffers among the first n results. */
  function ReadyIndices(polls: seq<Poll>, n: nat): seq<int>
  {
    if n == 0 || polls == [] then []
    else (if polls[0].index >= 0 then [polls[0].index] else []) + ReadyIndices(polls[1..], n - 1)
  }

  /** The frames of the buffers among the first n results whose write is attempted, whatever
      their flags. */
  function Forwarded(polls: seq<Poll>, n: nat, attached: bool): seq<Frame>
  {
    if n == 0 || polls == [] then []
    else (if Forwards(polls[0], attached) then [FrameOf(polls[0])] else []) + Forwarded(polls[1..], n - 1, attached)
  }

  /** Stream contents for a run of frames. */
  function Emit(frames: seq<Frame>, ivf: bool): seq<byte>
  {
    if frames == [] then [] else Piece(frames[0], ivf) + Emit(frames[1..], ivf)
  }

  lemma EmitCons(f: Frame, rest: seq<Frame>, ivf: bool)
    ensures Emit([f] + rest, ivf) == Piece(f, ivf) + Emit(rest, ivf)
  {
    assert ([f] + rest)[1..] == rest;
  }

  /** Through an IvfWriter, the stream receives exactly the IVF frame records of the frames. */
  lemma {:induction false} EmitIvf(frames: seq<Frame>)
    ensures Emit(frames, true) == Records(frames)
  {
    if frames != [] {
      EmitIvf(frames[1..]);
    }
  }

  /** A result that ends a pass on its own: try-later, or a ready buffer flagged end-of-stream. */
  predicate EndsPass(p: Poll)
  {
    p.index == INFO_TRY_AGAIN_LATER || (p.index >= 0 && p.info.flags & BUFFER_FLAG_END_OF_STREAM != 0)
  }

  /** A result after which the pass goes on to the next one. */
  predicate Continues(p: Poll, attached: bool, c: Channel, ivf: bool)
  {
    !EndsPass(p) && !Handle(p, attached, c, ivf).writeFailed
  }

  /** How a pass that goes on past its first result is made up. */
  lemma PassContinues(polls: seq<Poll>, attached: bool, c: Channel, ivf: bool)
    requires polls != [] && Continues(polls[0], attached, c, ivf)
    ensures var s := Handle(polls[0], attached, c, ivf);
      var r, rr := Pass(polls, attached, c, ivf), Pass(polls[1..], attached, s.after, ivf);
      r == Then(s.bytes, s.frames, s.released, 1, rr) && Handled(r) == 1 + Handled(rr)
  {
  }

  /** Every ready buffer the pass handled is released exactly once, in order; status codes
      release nothing, and neither does a buffer whose write failed. */
  lemma {:induction false} PassReleases(polls: seq<Poll>, attached: bool, c: Channel, ivf: bool)
    ensures var r := Pass(polls, attached, c, ivf); r.released == ReadyIndices(polls, Handled(r))
    decreases |polls|
  {
    if polls != [] && Continues(polls[0], attached, c, ivf) {
      PassContinues(polls, attached, c, ivf);
      PassReleases(polls[1..], attached, Handle(polls[0], attached, c, ivf).after, ivf);
    }
  }

  /** One forwarded buffer: when its writes go through, the stream receives its whole frame;
      when one throws, nothing or, through an IvfWriter, the frame header alone. */
  lemma StepSends(p: Poll, attached: bool, c: Channel, ivf: bool)
    requires Forwards(p, attached)
    ensures var s, f := Step(p, attached, c, ivf), FrameOf(p);
      (!s.writeFailed ==> s.bytes == Piece(f, ivf) && s.frames == 1)
      && (s.writeFailed ==> s.frames == 0 && (s.bytes == [] || (ivf && s.bytes == FrameHeader(|f.data|, f.timestamp))))
  {
  }

  /** Every frame the pass wrote whole is counted, and only those. */
  lemma {:induction false} PassCounts(polls: seq<Poll>, attached: bool, c: Channel, ivf: bool)
    ensures var r := Pass(polls, attached, c, ivf); r.frames == |Forwarded(polls, Handled(r), attached)|
    decreases |polls|
  {
    if polls != [] {
      var p := polls[0];
      var s := Handle(p, attached, c, ivf);
      if Continues(p, attached, c, ivf) {
        PassContinues(polls, attached, c, ivf);
        PassCounts(polls[1..], attached, s.after, ivf);
        if Forwards(p, attached) {
          StepSends(p, attached, c, ivf);
        }
      } else if Forwards(p, attached) {
        StepSends(p, attached, c, ivf);
      }
    }
  }

  /** The stream receives the non-empty ready buffers the pass handled, in order and as they
      came from the encoder (codec-config buffers are not held back), one whole frame each. */
  lemma {:induction false} PassSends(polls: seq<Poll>, attached: bool, c: Channel, ivf: bool)
    ensures WholeFrames(polls, attached, c, ivf)
    decreases |polls|
  {
    if polls != [] {
      if Continues(polls[0], attached, c, ivf) {
        PassSends(polls[1..], attached, Handle(polls[0], attached, c, ivf).after, ivf);
        SendsOn(polls, attached, c, ivf);
      } else {
        SendsEnd(polls, attached, c, ivf);
      }
    }
  }

  /** Unless a write failed, the pass put exactly the frames of the buffers it forwarded on the
      stream. */
  predicate WholeFrames(polls: seq<Poll>, attached: bool, c: Channel, ivf: bool)
  {
    var r := Pass(polls, attached, c, ivf);
    !r.writeFailed ==> r.bytes == Emit(Forwarded(polls, Handled(r), attached), ivf)
  }

  /** PassSends for a pass that ends at its first result. */
  lemma SendsEnd(polls: seq<Poll>, attached: bool, c: Channel, ivf: bool)
    requires polls != [] && !Continues(polls[0], attached, c, ivf)
    ensures WholeFrames(polls, attached, c, ivf)
  {
    var p := polls[0];
    if Forwards(p, attached) && !Handle(p, attached, c, ivf).writeFailed {
      StepSends(p, attached, c, ivf);
      assert Forwarded(polls, 1, attached) == [FrameOf(p)];
      EmitCons(FrameOf(p), [], ivf);
    }
  }

  /** PassSends for a pass that goes on past its first result, given it for the rest. */
  lemma SendsOn(polls: seq<Poll>, attached: bool, c: Channel, ivf: bool)
    requires polls != [] && Continues(polls[0], attached, c, ivf)
    requires WholeFrames(polls[1..], attached, Handle(polls[0], attached, c, ivf).after, ivf)
    ensures WholeFrames(polls, attached, c, ivf)
  {
    var p := polls[0];
    var s := Handle(p, attached, c, ivf);
    PassContinues(polls, attached, c, ivf);
    var r, rr := Pass(polls, attached, c, ivf), Pass(polls[1..], attached, s.after, ivf);
    var rest := Forwarded(polls[1..], Handled(rr), attached);
    if Forwards(p, attached) {
      StepSends(p, attached, c, ivf);
      assert Forwarded(polls, Handled(r), attached) == [FrameOf(p)] + rest;
      EmitCons(FrameOf(p), rest, ivf);
    } else {
      assert Forwarded(polls, Handled(r), attached) == rest;
    }
  }

  /** When a write throws, the buffer it carried leaves nothing behind it, or through an
      IvfWriter possibly its 12-byte frame header: the stream holds the frames handled before
      it, whole, and at most that header. */
  lemma {:induction false} PassTears(polls: seq<Poll>, attached: bool, c: Channel, ivf: bool)
    ensures var r := Pass(polls, attached, c, ivf);
      var sent := Forwarded(polls, Handled(r), attached);
      r.writeFailed ==> var f := FrameOf(polls[r.consumed - 1]);
        r.bytes == Emit(sent, ivf) || (ivf && r.bytes == Emit(sent, ivf) + FrameHeader(|f.data|, f.timestamp))
    decreases |polls|
  {
    if polls != [] {
      var p := polls[0];
      var s := Handle(p, attached, c, ivf);
      if Continues(p, attached, c, ivf) {
        PassContinues(polls, attached, c, ivf);
        PassTears(polls[1..], attached, s.after, ivf);
        var r, rr := Pass(polls, attached, c, ivf), Pass(polls[1..], attached, s.after, ivf);
        if rr.writeFailed {
          var rest := Forwarded(polls[1..], Handled(rr), attached);
          var f := FrameOf(polls[r.consumed - 1]);
          assert polls[1..][rr.consumed - 1] == polls[r.consumed - 1];
          if Forwards(p, attached) {
            StepSends(p, attached, c, ivf);
            assert Forwarded(polls, Handled(r), attached) == [FrameOf(p)] + rest;
            EmitCons(FrameOf(p), rest, ivf);
            assert r.bytes == Piece(FrameOf(p), ivf) + rr.bytes;
            AppendAssoc(Piece(FrameOf(p), ivf), Emit(rest, ivf), FrameHeader(|f.data|, f.timestamp));
          } else {
            assert Forwarded(polls, Handled(r), attached) == [] + rest == rest;
            assert r.bytes == [] + rr.bytes == rr.bytes;
          }
        }
      }
    }
  }

  /** Where a pass stops: at the first try-later or end-of-stream result, at the first write
      that throws, or when the encoder has nothing more; nothing before that point stops it. */
  lemma {:induction false} PassStops(polls: seq<Poll>, attached: bool, c: Channel, ivf: bool)
    ensures var r := Pass(polls, attached, c, ivf);
      (forall j :: 0 <= j < r.consumed - 1 ==> !EndsPass(polls[j]))
      && (r.writeFailed ==> Forwards(polls[r.consumed - 1], attached))
      && (!r.writeFailed && r.consumed < |polls| ==> r.consumed > 0 && EndsPass(polls[r.consumed - 1]))
    decreases |polls|
  {
    if polls != [] && Continues(polls[0], attached, c, ivf) {
      var s := Handle(polls[0], attached, c, ivf);
      PassContinues(polls, attached, c, ivf);
      PassStops(polls[1..], attached, s.after, ivf);
    }
  }

  /** A channel whose peer never drops the connection. */
  predicate Dependable(c: Channel)
  {
    c.open && c.writesLeft.None?
  }

  lemma {:induction false} DeliverDependable(c: Channel, parts: seq<seq<byte>>)
    requires Dependable(c)
    ensures Deliver(c, parts).ok && Dependable(Deliver(c, parts).after)
    decreases |parts|
  {
    if parts != [] {
      DeliverDependable(c.Next(), parts[1..]);
    }
  }

  /** A pass fails only where the peer drops the connection: on an open stream whose peer
      takes every write, it ends at try-later, end-of-stream or the last result. */
  lemma {:induction false} PassWithoutDrop(polls: seq<Poll>, attached: bool, c: Channel, ivf: bool)
    requires Dependable(c)
    ensures !Pass(polls, attached, c, ivf).writeFailed && Dependable(Pass(polls, attached, c, ivf).after)
    decreases |polls|
  {
    if polls != [] {
      var p := polls[0];
      if Forwards(p, attached) {
        SendIsDeliver(c, FrameOf(p), ivf);
        DeliverDependable(c, Writes(FrameOf(p), ivf));
      }
      PassWithoutDrop(polls[1..], attached, Handle(p, attached, c, ivf).after, ivf);
    }
  }

  /** A stream whose peer has already dropped the connection, such as the one an IvfWriter
      keeps after its header write threw, receives nothing from a pass: the first buffer sent
      to it fails, and the pass stops there. */
  lemma {:induction false} PassOnDeadChannel(polls: seq<Poll>, c: Channel, ivf: bool)
    requires !c.Takes()
    ensures var r := Pass(polls, true, c, ivf); r.bytes == [] && r.frames == 0
    decreases |polls|
  {
    if polls != [] && Continues(polls[0], true, c, ivf) {
      var s := Handle(polls[0], true, c, ivf);
      assert s.after == c && s.bytes == [];
      PassContinues(polls, true, c, ivf);
      PassOnDeadChannel(polls[1..], s.after, ivf);
    }
  }

  lemma ThenThen(bytes: seq<byte>, frames: nat, rels: seq<int>, k: nat,
                 here: seq<byte>, n: nat, rel: seq<int>, c: nat, r: PassResult)
    ensures Then(bytes, frames, rels, k, Then(here, n, rel, c, r)) == Then(bytes + here, frames + n, rels + rel, k + c, r)
  {
    assert bytes + (here + r.bytes) == (bytes + here) + r.bytes;
    assert rels + (rel + r.released) == (rels + rel) + r.released;
  }

  /** The stream drainEncoder writes frames to: the socket's stream, through the IvfWriter
      (and so to the writer's own stream) when there is one. */
  function SinkOf(out: OutputStream?, writer: IvfWriter?): (sink: OutputStream?)
    ensures sink == null <==> out == null
    ensures sink != null && writer != null ==> sink == writer.out
  {
    if out == null then null else if writer != null then writer.out else out
  }

  /** Frames go through `writer` when there is one; it writes to `sink`. */
  predicate Route(sink: OutputStream?, writer: IvfWriter?)
  {
    writer != null ==> sink != null && writer.out == sink
  }

  /** The channel frames meet on the stream `sink`; with no stream none is met. */
  function ChannelOf(sink: OutputStream?): Channel
    reads sink
  {
    if sink == null then Channel(false, None) else sink.Now()
  }

  /** One non-empty buffer to the stream: a frame record through the IvfWriter when there is
      one, the bare bytes otherwise. */
  method SendFrame(sink: OutputStream, writer: IvfWriter?, f: Frame) returns (wrote: bool)
    requires Route(sink, writer)
    modifies writer, sink
    ensures var d := Send(old(sink.Now()), f, writer != null);
      wrote == d.ok && sink.written == old(sink.written) + d.sent && sink.Now() == d.after
    ensures writer != null ==> writer.frameCount == old(writer.frameCount) + if wrote then 1 else 0
  {
    SendIsDeliver(sink.Now(), f, writer != null);
    if writer != null {
      wrote := writer.WriteFrame(f.data, f.timestamp);
    } else {
      DeliverOne(sink.Now(), f.data);
      wrote := sink.Write(f.data);
    }
  }

  /** The body of drainEncoder's loop for a ready buffer: send it if it is not empty and a
      stream is attached, then release it. A failed write returns before the release. */
  method HandleReady(enc: Encoder, sink: OutputStream?, writer: IvfWriter?, p: Poll) returns (failed: bool)
    requires p.index >= 0 && WellFormed(p) && Route(sink, writer)
    modifies enc, writer, sink
    ensures var s := Step(p, sink != null, old(ChannelOf(sink)), writer != null);
      failed == s.writeFailed
      && enc.released == old(enc.released) + s.released
      && (sink != null ==> sink.written == old(sink.written) + s.bytes)
      && (writer != null ==> writer.frameCount == old(writer.frameCount) + s.frames)
      && ChannelOf(sink) == s.after
    ensures enc.pending == old(enc.pending) && enc.running == old(enc.running)
  {
    if p.info.size != 0 && sink != null {
      var wrote := SendFrame(sink, writer, Frame(p.buffer[p.info.offset .. p.info.offset + p.info.size], p.info.presentationTimeUs));
      if !wrote {
        return true;
      }
    }
    enc.ReleaseOutputBuffer(p.index);
    failed := false;
  }

  /** A pass that has already produced `acc` and goes on with `r`. */
  function Resume(acc: PassResult, r: PassResult): PassResult
  {
    Then(acc.bytes, acc.frames, acc.released, acc.consumed, r)
  }

  /** How far a drain loop has got: `acc` is what it has done to `enc` and `sink` since they held
      `polls0`, `released0`, `written0` and `count0`, and the channel it has left the stream with. */
  ghost predicate Progress(enc: Encoder, sink: OutputStream?, writer: IvfWriter?, polls0: seq<Poll>,
                           released0: seq<int>, written0: seq<byte>, count0: int, acc: PassResult)
    reads enc, sink, writer
  {
    acc.consumed <= |polls0| && enc.pending == polls0[acc.consumed..]
    && enc.released == released0 + acc.released
    && (sink != null ==> sink.written == written0 + acc.bytes)
    && (writer != null ==> writer.frameCount == count0 + acc.frames)
    && ChannelOf(sink) == acc.after
  }

  /** One round of drainEncoder's loop: take the next result from the encoder and handle it.
      `s` is what the round contributes to the pass; `stop` says whether the loop ends here. */
  method Round(enc: Encoder, sink: OutputStream?, writer: IvfWriter?)
    returns (failed: bool, stop: bool, ghost s: PassResult)
    requires enc.Valid() && Route(sink, writer)
    modifies enc, writer, sink
    ensures enc.Valid() && enc.running == old(enc.running)
    ensures var pass := Pass(old(enc.pending), sink != null, old(ChannelOf(sink)), writer != null);
      (stop ==> pass == s.(writeFailed := failed))
      && (!stop ==> s.consumed == 1 && pass == Then(s.bytes, s.frames, s.released, 1, Pass(enc.pending, sink != null, s.after, writer != null)))
    ensures s.consumed <= |old(enc.pending)| && enc.pending == old(enc.pending)[s.consumed..]
    ensures enc.released == old(enc.released) + s.released
    ensures sink != null ==> sink.written == old(sink.written) + s.bytes
    ensures writer != null ==> writer.frameCount == old(writer.frameCount) + s.frames
    ensures ChannelOf(sink) == s.after
  {
    ghost var before := enc.pending;
    var p := enc.DequeueOutputBuffer();
    if p.index == INFO_TRY_AGAIN_LATER {
      s := PassResult([], 0, [], |before| - |enc.pending|, false, ChannelOf(sink));
      failed, stop := false, true;
    } else if p.index == INFO_OUTPUT_FORMAT_CHANGED || p.index < 0 {
      // format change or any other status: nothing to forward or release
      s := PassResult([], 0, [], 1, false, ChannelOf(sink));
      failed, stop := false, false;
    } else {
      s := Step(p, sink != null, ChannelOf(sink), writer != null);
      failed := HandleReady(enc, sink, writer, p);
      stop := failed || p.info.flags & BUFFER_FLAG_END_OF_STREAM != 0;
    }
  }

  /** The running total after a round that contributed `s`. */
  function Extend(acc: PassResult, s: PassResult): PassResult
  {
    PassResult(acc.bytes + s.bytes, acc.frames + s.frames, acc.released + s.released, acc.consumed + s.consumed, false, s.after)
  }

  /** Folding one round into the running total keeps the pass's outcome `r0` accounted for. */
  lemma Account(r0: PassResult, acc: PassResult, rest: PassResult, s: PassResult, next: PassResult, stop: bool, failed: bool)
    requires r0 == Resume(acc, rest)
    requires stop ==> rest == s.(writeFailed := failed)
    requires !stop ==> rest == Then(s.bytes, s.frames, s.released, 1, next) && s.consumed == 1
    ensures stop ==> r0 == Extend(acc, s).(writeFailed := failed)
    ensures !stop ==> r0 == Resume(Extend(acc, s), next)
  {
    if !stop {
      ThenThen(acc.bytes, acc.frames, acc.released, acc.consumed, s.bytes, s.frames, s.released, 1, next);
    }
  }

  /** drainEncoder's loop body with its bookkeeping: `acc` is what the loop has done so far; the
      round either ends the pass, whose outcome `r0` then is, or leaves it at `acc'`. */
  method DrainOne(enc: Encoder, sink: OutputStream?, writer: IvfWriter?,
                  ghost polls0: seq<Poll>, ghost released0: seq<int>, ghost written0: seq<byte>, ghost count0: int,
                  ghost r0: PassResult, ghost acc: PassResult)
    returns (failed: bool, stop: bool, ghost acc': PassResult)
    requires enc.Valid() && Route(sink, writer)
    requires Progress(enc, sink, writer, polls0, released0, written0, count0, acc)
    requires r0 == Resume(acc, Pass(enc.pending, sink != null, acc.after, writer != null))
    modifies enc, writer, sink
    ensures enc.Valid() && enc.running == old(enc.running)
    ensures Progress(enc, sink, writer, polls0, released0, written0, count0, acc')
    ensures stop ==> r0 == acc'.(writeFailed := failed)
    ensures !stop ==> r0 == Resume(acc', Pass(enc.pending, sink != null, acc'.after, writer != null))
    ensures !stop ==> |enc.pending| < |old(enc.pending)|
  {
    ghost var rest := Pass(enc.pending, sink != null, acc.after, writer != null);
    ghost var s;
    failed, stop, s := Round(enc, sink, writer);
    Account(r0, acc, rest, s, Pass(enc.pending, sink != null, s.after, writer != null), stop, failed);
    AppendAssoc(released0, acc.released, s.released);
    AppendAssoc(written0, acc.bytes, s.bytes);
    acc' := Extend(acc, s);
  }

  /** The `while (true)` loop of drainEncoder, over the encoder and the stream frames go to
      (null when no receiver is attached), through the IvfWriter if there is one. */
  method DrainLoop(enc: Encoder, sink: OutputStream?, writer: IvfWriter?) returns (failed: bool)
    requires enc.Valid() && Route(sink, writer)
    modifies enc, writer, sink
    ensures var r := Pass(old(enc.pending), sink != null, old(ChannelOf(sink)), writer != null);
      failed == r.writeFailed
      && enc.released == old(enc.released) + r.released
      && enc.pending == old(enc.pending)[r.consumed..]
      && (sink != null ==> sink.written == old(sink.written) + r.bytes)
      && (writer != null ==> writer.frameCount == old(writer.frameCount) + r.frames)
      && ChannelOf(sink) == r.after
    ensures enc.Valid() && enc.running == old(enc.running)
  {
    ghost var polls0 := enc.pending;
    ghost var written0 := if sink != null then sink.written else [];
    ghost var released0 := enc.released;
    ghost var count0 := if writer != null then writer.frameCount else 0;
    ghost var r0 := Pass(polls0, sink != null, ChannelOf(sink), writer != null);
    ghost var acc := PassResult([], 0, [], 0, false, ChannelOf(sink));
    assert Resume(acc, r0) == r0;
    while true
      invariant enc.Valid() && enc.running == old(enc.running)
      invariant Progress(enc, sink, writer, polls0, released0, written0, count0, acc)
      invariant r0 == Resume(acc, Pass(enc.pending, sink != null, acc.after, writer != null))
      decreases |enc.pending|
    {
      var stop;
      failed, stop, acc := DrainOne(enc, sink, writer, polls0, released0, written0, count0, r0, acc);
      if stop {
        return;
      }
    }
  }

  // ---------------------------------------------------------------------------------------
  // The service

  /** The values onStartCommand reads from its intent; a missing extra is None. */
  datatype Intent = Intent(receiverIp: Option<string>, resultCode: Option<int>, resultData: bool,
                           width: Option<int>, height: Option<int>, dpi: Option<int>,
                           bitrate: Option<int>, format: Option<string>)

  /** The service's settings: mReceiverIp, mResultCode, whether mResultData is present, and the
      selected format, resolution, density and bitrate. */
  datatype Config = Config(receiverIp: Option<string>, resultCode: int, resultData: bool,
                           format: string, width: int, height: int, dpi: int, bitrate: int)

  /** How the handshake body ended. */
  datatype Handshake = Streaming | Unsupported | WriteFailed

  /** The writes of the handshake body: the request text, then the codec prologue when the
      format and resolution have one. */
  function HandshakeWrites(format: string, width: int, height: int): seq<seq<byte>>
  {
    var prologue := CodecPrologue(format, width, height);
    [Ascii(HttpMessage(width, height))] + if prologue.Some? then [prologue.value] else []
  }

  /** How far the handshake body gets on channel c: the request text in one write, then the
      prologue in another when there is one. When a write throws, what went out before it
      stays on the stream: nothing, or the request text. */
  function HandshakeRun(c: Channel, format: string, width: int, height: int): Delivery
  {
    var text := Ascii(HttpMessage(width, height));
    var prologue := CodecPrologue(format, width, height);
    if !c.Takes() then Delivery([], false, c.Next())
    else if prologue.None? then Delivery(text, true, c.Next())
    else if !c.Next().Takes() then Delivery(text, false, c.Next().Next())
    else Delivery(text + prologue.value, true, c.Next().Next())
  }

  /** The handshake on channel c gets as far as streaming. */
  predicate Completes(c: Channel, format: string, width: int, height: int)
  {
    CodecPrologue(format, width, height).Some? && HandshakeRun(c, format, width, height).ok
  }

  /** The handshake is the run of its writes, each taking its turn on the channel; it
      completes exactly when there is a prologue and the channel takes both writes. */
  lemma HandshakeRunIsDeliver(c: Channel, format: string, width: int, height: int)
    ensures HandshakeRun(c, format, width, height) == Deliver(c, HandshakeWrites(format, width, height))
    ensures Completes(c, format, width, height) <==> CodecPrologue(format, width, height).Some? && Clear(c, 2)
  {
    var text := Ascii(HttpMessage(width, height));
    var prologue := CodecPrologue(format, width, height);
    DeliverSent(c, HandshakeWrites(format, width, height));
    if prologue.Some? {
      assert HandshakeWrites(format, width, height) == [text, prologue.value];
      DeliverPair(c, text, prologue.value);
    } else {
      assert HandshakeWrites(format, width, height) == [text];
      DeliverOne(c, text);
    }
  }

  /** A completed handshake has put the whole request text and codec prologue on the stream,
      and the channel has taken its two writes. */
  lemma CompletedHandshake(c: Channel, format: string, width: int, height: int)
    requires Completes(c, format, width, height)
    ensures HandshakeRun(c, format, width, height).sent == HandshakeBytes(format, width, height)
    ensures HandshakeRun(c, format, width, height).after == c.Next().Next() && c.Takes()
  {
  }

  /** The handshake body createSocket and the listener share, on a new connection: the request
      text, then the codec prologue. An unknown resolution or format closes the connection after
      the text; a write that throws ends the body where it stands, with what went out before
      it left on the stream. For VP8 the IvfWriter is made before its header is written, and is
      returned even when that write throws. */
  method RunHandshake(conn: Socket, format: string, width: int, height: int)
    returns (outcome: Handshake, writer: IvfWriter?)
    modifies conn, conn.output
    ensures var d := HandshakeRun(old(conn.output.Now()), format, width, height);
      (outcome == Streaming <==> Completes(old(conn.output.Now()), format, width, height))
      && (outcome == Unsupported <==> d.ok && CodecPrologue(format, width, height).None?)
      && conn.output.written == old(conn.output.written) + d.sent
      && conn.output.writesLeft == d.after.writesLeft
      && (outcome != Unsupported ==> conn.output.Now() == d.after)
    ensures outcome == Unsupported ==> conn.closed && conn.output.closed
    ensures outcome != Unsupported ==> conn.closed == old(conn.closed)
    ensures writer != null <==> format == MIMETYPE_VIDEO_VP8 && old(conn.output.Writable())
    ensures writer != null ==> (fresh(writer) && writer.out == conn.output && writer.frameCount == 0
      && writer.width == width && writer.height == height && writer.scale == 1 && writer.rate == 1000000)
  {
    MimeTypesDiffer();
    writer := null;
    ghost var before := conn.output.written;
    var text := Ascii(HttpMessage(width, height));
    var ok := conn.output.Write(text);
    if !ok {
      return WriteFailed, null;
    }
    if format == MIMETYPE_VIDEO_AVC {
      var blob := H264Header(width, height);
      if blob.Some? {
        ok := conn.output.Write(blob.value);
        AppendAssoc(before, text, blob.value);
        outcome := if ok then Streaming else WriteFailed;
      } else {
        conn.output.Close();
        conn.Close();
        outcome := Unsupported;
      }
    } else if format == MIMETYPE_VIDEO_VP8 {
      writer := new IvfWriter.Microseconds(conn.output, width, height);
      ok := writer.WriteHeader();
      AppendAssoc(before, text, IvfHeader(0, width, height, 1, 1000000));
      outcome := if ok then Streaming else WriteFailed;
    } else {
      conn.output.Close();
      conn.Close();
      outcome := Unsupported;
    }
  }

  class Service {
    var config: Config
    var serverSocket: ServerSocket?
    var socket: Socket?
    var socketOut: OutputStream?
    var ivfWriter: IvfWriter?
    var encoder: Encoder?
    /** mMediaProjection (with its input surface) is held. */
    var projection: bool
    /** mVirtualDisplay is held. */
    var virtualDisplay: bool
    /** mDrainEncoderRunnable is posted. */
    var drainScheduled: bool
    /** mStartEncodingRunnable was posted by the listener. */
    var startEncodingPosted: bool

    predicate Valid()
      reads this, encoder
    {
      encoder != null ==> encoder.Valid()
    }

    function SocketObjects(): set<object>
      reads this
    {
      if socket == null then {} else {socket, socket.output}
    }

    constructor ()
      ensures Valid() && serverSocket == null && socket == null && socketOut == null
      ensures ivfWriter == null && encoder == null && !drainScheduled && !startEncodingPosted
    {
      config := Config(None, -1, false, MIMETYPE_VIDEO_AVC, DEFAULT_SCREEN_WIDTH, DEFAULT_SCREEN_HEIGHT,
                       DEFAULT_SCREEN_DPI, DEFAULT_VIDEO_BITRATE);
      serverSocket := null;
      socket := null;
      socketOut := null;
      ivfWriter := null;
      encoder := null;
      projection := false;
      virtualDisplay := false;
      drainScheduled := false;
      startEncodingPosted := false;
    }

    /** closeSocket(closeServerSocket): closes and forgets the connection; the listening socket
        only when asked to. */
    method CloseSocket(closeServerSocket: bool)
      modifies this, SocketObjects(), if closeServerSocket then {serverSocket} else {}
      ensures socket == null && socketOut == null
      ensures old(socket) != null ==> old(socket).closed && old(socket).output.closed
      ensures old(socket) != null ==> old(socket).output.written == old(socket.output.written)
      ensures old(socket) != null ==> old(socket).output.writesLeft == old(socket.output.writesLeft)
      ensures serverSocket == if closeServerSocket then null else old(serverSocket)
      ensures closeServerSocket && old(serverSocket) != null ==> old(serverSocket).closed
      ensures config == old(config) && encoder == old(encoder) && ivfWriter == old(ivfWriter)
      ensures projection == old(projection) && virtualDisplay == old(virtualDisplay)
      ensures drainScheduled == old(drainScheduled) && startEncodingPosted == old(startEncodingPosted)
    {
      if socket != null {
        socket.Close();
      }
      if closeServerSocket {
        if serverSocket != null {
          serverSocket.Close();
        }
        serverSocket := null;
      }
      socket := null;
      socketOut := null;
    }

    /** releaseEncoders: cancels the pending drain and releases the encoder, the projection and
        the IvfWriter; the connection is left as it is. */
    method ReleaseEncoders()
      modifies this, encoder
      ensures encoder == null && ivfWriter == null && !projection && !drainScheduled
      ensures old(encoder) != null ==> !old(encoder).running && old(encoder).released == old(encoder.released)
      ensures old(encoder) != null ==> old(encoder).pending == old(encoder.pending)
      ensures config == old(config) && serverSocket == old(serverSocket)
      ensures socket == old(socket) && socketOut == old(socketOut)
      ensures virtualDisplay == old(virtualDisplay) && startEncodingPosted == old(startEncodingPosted)
    {
      drainScheduled := false;
      if encoder != null {
        encoder.StopAndRelease();
        encoder := null;
      }
      projection := false;
      ivfWriter := null;
    }

    /** stopScreenCapture: releaseEncoders, closeSocket(false), then the virtual display. */
    method StopScreenCapture()
      modifies this, encoder, SocketObjects()
      ensures encoder == null && ivfWriter == null && !projection && !virtualDisplay && !drainScheduled
      ensures socket == null && socketOut == null && serverSocket == old(serverSocket)
      ensures old(encoder) != null ==> !old(encoder).running && old(encoder).released == old(encoder.released)
      ensures old(encoder) != null ==> old(encoder).pending == old(encoder.pending)
      ensures old(socket) != null ==> old(socket).closed && old(socket).output.closed
      ensures old(socket) != null ==> old(socket).output.written == old(socket.output.written)
      ensures old(socket) != null ==> old(socket).output.writesLeft == old(socket.output.writesLeft)
      ensures config == old(config) && startEncodingPosted == old(startEncodingPosted)
    {
      ReleaseEncoders();
      CloseSocket(false);
      virtualDisplay := false;
    }

    /** drainEncoder: cancels the pending pass, takes the encoder's results until it has none
        ready or a buffer is flagged end-of-stream, sends each non-empty ready buffer to the
        stream (through the IvfWriter if there is one) and releases it, then reschedules itself
        DRAIN_DELAY_MS later. A failed write stops the capture at once: that buffer is not
        released and no pass is rescheduled. */
    method DrainEncoder() returns (ok: bool)
      requires Valid() && encoder != null
      modifies this, encoder, ivfWriter, SinkOf(socketOut, ivfWriter), SocketObjects()
      ensures var sink := old(SinkOf(socketOut, ivfWriter));
        var ivf := sink != null && old(ivfWriter) != null;
        var r := old(Pass(encoder.pending, sink != null, ChannelOf(sink), ivf));
        ok == !r.writeFailed
        && old(encoder).released == old(encoder.released) + r.released
        && old(encoder).pending == old(encoder.pending)[r.consumed..]
        && (sink != null ==> sink.written == old(sink.written) + r.bytes && sink.writesLeft == r.after.writesLeft)
        && (ivf ==> old(ivfWriter).frameCount == old(ivfWriter.frameCount) + r.frames)
      ensures Valid() && config == old(config) && serverSocket == old(serverSocket)
      ensures startEncodingPosted == old(startEncodingPosted)
      ensures ok ==> encoder == old(encoder) && ivfWriter == old(ivfWriter) && drainScheduled
      ensures ok ==> socket == old(socket) && socketOut == old(socketOut)
      ensures ok ==> projection == old(projection) && virtualDisplay == old(virtualDisplay)
      ensures !ok ==> encoder == null && !old(encoder).running && ivfWriter == null && !drainScheduled
      ensures !ok ==> socket == null && socketOut == null && !projection && !virtualDisplay
      ensures var sink := old(SinkOf(socketOut, ivfWriter));
        old(socket) != null && old(socket).output != sink ==> old(socket).output.written == old(socket.output.written)
    {
      var sink := SinkOf(socketOut, ivfWriter);
      var failed := DrainLoop(encoder, sink, if sink == null then null else ivfWriter);
      drainScheduled := false;
      if failed {
        StopScreenCapture();
        return false;
      }
      drainScheduled := true;
      ok := true;
    }

    /** createSocket, with the connection its thread opens (null when the address does not
        resolve or the connection is refused): the handshake runs on it, and the service keeps
        the connection only when the handshake completed, which is what it returns. */
    method CreateSocket(conn: Socket?) returns (ok: bool)
      modifies this, if conn == null then {} else {conn, conn.output}
      ensures ok <==> conn != null && Completes(old(conn.output.Now()), config.format, config.width, config.height)
      ensures conn != null ==> var d := HandshakeRun(old(conn.output.Now()), config.format, config.width, config.height);
        conn.output.written == old(conn.output.written) + d.sent && conn.output.writesLeft == d.after.writesLeft
        && (ok ==> socket == conn && socketOut == conn.output && conn.output.Now() == d.after)
        && (!ok && d.ok ==> conn.closed && conn.output.closed)
      ensures !ok ==> socket == null && socketOut == null
      ensures var made := conn != null && config.format == MIMETYPE_VIDEO_VP8 && old(conn.output.Writable());
        (made ==> (fresh(ivfWriter) && ivfWriter.out == conn.output && ivfWriter.frameCount == 0
                   && ivfWriter.width == config.width && ivfWriter.height == config.height
                   && ivfWriter.scale == 1 && ivfWriter.rate == 1000000))
        && (!made ==> ivfWriter == old(ivfWriter))
      ensures config == old(config) && serverSocket == old(serverSocket) && encoder == old(encoder)
      ensures projection == old(projection) && virtualDisplay == old(virtualDisplay)
      ensures drainScheduled == old(drainScheduled) && startEncodingPosted == old(startEncodingPosted)
    {
      if conn == null {
        socket, socketOut := null, null;
        return false;
      }
      socket, socketOut := conn, conn.output;
      var outcome, writer := RunHandshake(conn, config.format, config.width, config.height);
      if writer != null {
        ivfWriter := writer;
      }
      if outcome != Streaming {
        socket, socketOut := null, null;
      }
      ok := socket != null && socketOut != null;
    }

    /** createServerSocket, with whether its thread can bind the viewer port: opens the
        listening socket; accepting connections is the job of ServeClient. A failed bind is
        caught on the thread, leaves the old listening socket (if any) in place, and true is
        returned all the same. */
    method CreateServerSocket(bound: bool) returns (ok: bool)
      modifies this
      ensures ok
      ensures bound ==> fresh(serverSocket) && !serverSocket.closed
      ensures !bound ==> serverSocket == old(serverSocket)
      ensures config == old(config) && socket == old(socket) && socketOut == old(socketOut)
      ensures encoder == old(encoder) && ivfWriter == old(ivfWriter) && drainScheduled == old(drainScheduled)
      ensures projection == old(projection) && virtualDisplay == old(virtualDisplay)
      ensures startEncodingPosted == old(startEncodingPosted)
    {
      if bound {
        serverSocket := new ServerSocket();
      }
      ok := true;
    }

    /** One connection of listen mode: the accept loop records the client as the service's
        socket, then CommunicationThread.run reads the first line. Anything but "mirror" (in any
        letter case) closes the client with nothing written; otherwise the handshake runs on the
        client's stream. The outcome is None when the request was refused. */
    method ServeClient(client: Socket) returns (outcome: Option<Handshake>)
      modifies this, client, client.output
      ensures socket == client
      ensures outcome.None? <==> !IsMirrorRequest(client.input)
      ensures outcome.None? ==> (client.closed && client.output.closed
        && client.output.written == old(client.output.written)
        && socketOut == old(socketOut) && ivfWriter == old(ivfWriter)
        && startEncodingPosted == old(startEncodingPosted))
      ensures outcome.Some? ==> Answered(client, outcome.value)
      ensures outcome.Some? ==> var made := config.format == MIMETYPE_VIDEO_VP8 && old(client.output.Writable());
        (made ==> (fresh(ivfWriter) && ivfWriter.out == client.output && ivfWriter.frameCount == 0
                   && ivfWriter.width == config.width && ivfWriter.height == config.height
                   && ivfWriter.scale == 1 && ivfWriter.rate == 1000000))
        && (!made ==> ivfWriter == old(ivfWriter))
      ensures config == old(config) && serverSocket == old(serverSocket) && encoder == old(encoder)
      ensures projection == old(projection) && virtualDisplay == old(virtualDisplay)
      ensures drainScheduled == old(drainScheduled)
    {
      socket := client;
      if !IsMirrorRequest(client.input) {
        client.Close();
        return None;
      }
      var result := Answer(client);
      outcome := Some(result);
    }

    /** What the listener's answer to a mirror request left behind: the handshake bytes and a
        request to start capture when it completed; the stream forgotten otherwise. */
    twostate predicate Answered(client: Socket, result: Handshake)
      reads this, client, client.output
    {
      var d := HandshakeRun(old(client.output.Now()), config.format, config.width, config.height);
      (result == Streaming <==> Completes(old(client.output.Now()), config.format, config.width, config.height))
      && (result == Unsupported <==> d.ok && CodecPrologue(config.format, config.width, config.height).None?)
      && client.output.written == old(client.output.written) + d.sent && client.output.writesLeft == d.after.writesLeft
      && (result == Streaming ==> socketOut == client.output && startEncodingPosted && client.output.Now() == d.after)
      && (result == Unsupported ==> socketOut == null && client.closed && client.output.closed)
      && (result == WriteFailed ==> socketOut == null)
      && (result != Streaming ==> startEncodingPosted == old(startEncodingPosted))
    }

    /** The rest of CommunicationThread.run once the first line asked for a mirror stream: the
        handshake on the client's stream, then a request to start capture if the stream is
        still held. */
    method Answer(client: Socket) returns (result: Handshake)
      modifies this, client, client.output
      ensures Answered(client, result)
      ensures var made := config.format == MIMETYPE_VIDEO_VP8 && old(client.output.Writable());
        (made ==> (fresh(ivfWriter) && ivfWriter.out == client.output && ivfWriter.frameCount == 0
                   && ivfWriter.width == config.width && ivfWriter.height == config.height
                   && ivfWriter.scale == 1 && ivfWriter.rate == 1000000))
        && (!made ==> ivfWriter == old(ivfWriter))
      ensures socket == old(socket)
      ensures config == old(config) && serverSocket == old(serverSocket) && encoder == old(encoder)
      ensures projection == old(projection) && virtualDisplay == old(virtualDisplay)
      ensures drainScheduled == old(drainScheduled)
    {
      ghost var c := client.output.Now();
      var format, width, height := config.format, config.width, config.height;
      ghost var d := HandshakeRun(c, format, width, height);
      ghost var done := Completes(c, format, width, height);
      ghost var refused := d.ok && CodecPrologue(format, width, height).None?;
      ghost var made := format == MIMETYPE_VIDEO_VP8 && client.output.Writable();
      socketOut := client.output;
      assert client.output.Now() == c;
      var writer;
      result, writer := RunHandshake(client, format, width, height);
      assert (result == Streaming <==> done) && (result == Unsupported <==> refused);
      assert writer != null <==> made;
      if writer != null {
        ivfWriter := writer;
      }
      if result != Streaming {
        socketOut := null;
      }
      if socketOut != null {
        startEncodingPosted := true;
      }
    }

    /** setUpMediaProjection and startRecording, with the results the new encoder will return:
        takes the projection, starts the encoder and the virtual display, and runs a first
        drain pass. */
    method StartRecording(outputs: seq<Poll>)
      requires Valid() && AllWellFormed(outputs)
      modifies this, ivfWriter, SinkOf(socketOut, ivfWriter), SocketObjects()
      ensures Valid() && config == old(config) && serverSocket == old(serverSocket)
      ensures startEncodingPosted == old(startEncodingPosted)
      ensures var sink := old(SinkOf(socketOut, ivfWriter));
        var ivf := sink != null && old(ivfWriter) != null;
        var r := Pass(outputs, sink != null, old(ChannelOf(sink)), ivf);
        (sink != null ==> sink.written == old(sink.written) + r.bytes)
        && (!r.writeFailed ==> (encoder != null && fresh(encoder) && encoder.pending == outputs[r.consumed..]
              && encoder.released == r.released && drainScheduled && projection && virtualDisplay
              && socket == old(socket) && socketOut == old(socketOut) && ivfWriter == old(ivfWriter)))
        && (r.writeFailed ==> (encoder == null && socket == null && socketOut == null && !projection
              && !virtualDisplay && !drainScheduled))
      ensures var sink := old(SinkOf(socketOut, ivfWriter));
        old(socket) != null && old(socket).output != sink ==> old(socket).output.written == old(socket.output.written)
    {
      ghost var sink := SinkOf(socketOut, ivfWriter);
      ghost var r := Pass(outputs, sink != null, ChannelOf(sink), sink != null && ivfWriter != null);
      projection := true;
      encoder := new Encoder(outputs);
      virtualDisplay := true;
      assert SinkOf(socketOut, ivfWriter) == sink && encoder.pending == outputs;
      assert Pass(encoder.pending, sink != null, ChannelOf(sink), sink != null && ivfWriter != null) == r;
      var drained := DrainEncoder();
      assert drained == !r.writeFailed;
    }

    /** startScreenCapture: only with a result code other than 0 and result data present does
        it start recording. */
    method StartScreenCapture(outputs: seq<Poll>) returns (ok: bool)
      requires Valid() && AllWellFormed(outputs)
      modifies this, ivfWriter, SinkOf(socketOut, ivfWriter), SocketObjects()
      ensures ok == (old(config.resultCode) != 0 && old(config.resultData))
      ensures Valid() && config == old(config) && serverSocket == old(serverSocket)
      ensures startEncodingPosted == old(startEncodingPosted)
      ensures !ok ==> (encoder == old(encoder) && ivfWriter == old(ivfWriter) && socket == old(socket)
        && socketOut == old(socketOut) && projection == old(projection) && virtualDisplay == old(virtualDisplay)
        && drainScheduled == old(drainScheduled))
      ensures ok ==> var sink := old(SinkOf(socketOut, ivfWriter));
        var ivf := sink != null && old(ivfWriter) != null;
        var r := Pass(outputs, sink != null, old(ChannelOf(sink)), ivf);
        (sink != null ==> sink.written == old(sink.written) + r.bytes)
        && (!r.writeFailed ==> (encoder != null && fresh(encoder) && encoder.pending == outputs[r.consumed..]
              && encoder.released == r.released && drainScheduled && projection && virtualDisplay
              && socket == old(socket) && socketOut == old(socketOut) && ivfWriter == old(ivfWriter)))
        && (r.writeFailed ==> (encoder == null && socket == null && socketOut == null && !projection
              && !virtualDisplay && !drainScheduled))
      ensures var sink := old(SinkOf(socketOut, ivfWriter));
        old(socket) != null && old(socket).output != sink ==> old(socket).output.written == old(socket.output.written)
    {
      if config.resultCode != 0 && config.resultData {
        StartRecording(outputs);
        ok := true;
      } else {
        ok := false;
      }
    }

    /** onStartCommand, with the connection client mode would open and the results the encoder
        would return. No intent, or no receiver address, refuses the start; otherwise the
        settings are read with their defaults, an empty address selects listen mode, and client
        mode needs both a completed handshake and a started capture. */
    method OnStartCommand(intent: Option<Intent>, bound: bool, conn: Socket?, outputs: seq<Poll>) returns (code: int)
      requires Valid() && AllWellFormed(outputs)
      modifies this, ivfWriter, if ivfWriter == null then {} else {ivfWriter.out}
      modifies if conn == null then {} else {conn, conn.output}
      ensures Valid()
      ensures code == START_STICKY || code == START_NOT_STICKY
      ensures intent.None? ==> code == START_NOT_STICKY && config == old(config)
      ensures intent.Some? ==> (config.receiverIp == intent.value.receiverIp
        && config.resultCode == GetOr(intent.value.resultCode, -1) && config.resultData == intent.value.resultData)
      ensures intent.Some? && intent.value.receiverIp.None? ==> (code == START_NOT_STICKY
        && config == old(config).(receiverIp := None, resultCode := GetOr(intent.value.resultCode, -1),
                                   resultData := intent.value.resultData))
      ensures intent.Some? && intent.value.receiverIp.Some? ==> var i := intent.value;
        config == Config(i.receiverIp, GetOr(i.resultCode, -1), i.resultData, GetOr(i.format, MIMETYPE_VIDEO_AVC),
                         GetOr(i.width, DEFAULT_SCREEN_WIDTH), GetOr(i.height, DEFAULT_SCREEN_HEIGHT),
                         GetOr(i.dpi, DEFAULT_SCREEN_DPI), GetOr(i.bitrate, DEFAULT_VIDEO_BITRATE))
      ensures intent.Some? && intent.value.receiverIp == Some("") ==> (code == START_STICKY
        && (bound ==> fresh(serverSocket) && !serverSocket.closed) && (!bound ==> serverSocket == old(serverSocket))
        && socket == old(socket) && socketOut == old(socketOut) && encoder == old(encoder))
      ensures intent.Some? && intent.value.receiverIp.Some? && intent.value.receiverIp != Some("") ==>
        (code == START_STICKY <==> (conn != null
          && Completes(old(conn.output.Now()), config.format, config.width, config.height)
          && config.resultCode != 0 && config.resultData))
      ensures intent.Some? && intent.value.receiverIp != Some("") && code == START_STICKY ==>
        conn != null && CodecPrologue(config.format, config.width, config.height).Some?
        && var stale := old(ivfWriter) != null && config.format != MIMETYPE_VIDEO_VP8;
        var sink := if stale then old(ivfWriter).out else conn.output;
        var d := HandshakeRun(old(conn.output.Now()), config.format, config.width, config.height);
        var r := Pass(outputs, true, if sink == conn.output then d.after else old(sink.Now()),
                      config.format == MIMETYPE_VIDEO_VP8 || stale);
        (sink == conn.output ==>
          conn.output.written == old(conn.output.written) + HandshakeBytes(config.format, config.width, config.height) + r.bytes)
        && (sink != conn.output ==>
          conn.output.written == old(conn.output.written) + HandshakeBytes(config.format, config.width, config.height)
          && sink.written == old(sink.written) + r.bytes)
        && (!r.writeFailed ==> socket == conn && socketOut == conn.output && encoder != null && drainScheduled)
        && (r.writeFailed ==> socket == null && socketOut == null && encoder == null && !drainScheduled)
    {
      if intent.None? {
        return START_NOT_STICKY;
      }
      var i := intent.value;
      config := config.(receiverIp := i.receiverIp, resultCode := GetOr(i.resultCode, -1), resultData := i.resultData);
      if i.receiverIp.None? {
        return START_NOT_STICKY;
      }
      config := config.(width := GetOr(i.width, DEFAULT_SCREEN_WIDTH), height := GetOr(i.height, DEFAULT_SCREEN_HEIGHT),
                        dpi := GetOr(i.dpi, DEFAULT_SCREEN_DPI), bitrate := GetOr(i.bitrate, DEFAULT_VIDEO_BITRATE),
                        format := GetOr(i.format, MIMETYPE_VIDEO_AVC));
      if |i.receiverIp.value| <= 0 {
        var listening := CreateServerSocket(bound);
        if !listening {
          return START_NOT_STICKY;
        }
      } else {
        code := ClientMode(conn, outputs);
        if code == START_NOT_STICKY {
          return;
        }
      }
      code := START_STICKY;
    }

    /** The client-mode branch of onStartCommand: createSocket, then startScreenCapture. */
    method ClientMode(conn: Socket?, outputs: seq<Poll>) returns (code: int)
      requires Valid() && AllWellFormed(outputs)
      modifies this, ivfWriter, if ivfWriter == null then {} else {ivfWriter.out}
      modifies if conn == null then {} else {conn, conn.output}
      ensures Valid() && config == old(config)
      ensures code == START_STICKY || code == START_NOT_STICKY
      ensures code == START_STICKY <==> (conn != null
          && Completes(old(conn.output.Now()), config.format, config.width, config.height)
          && config.resultCode != 0 && config.resultData)
      ensures code == START_STICKY ==>
        conn != null && CodecPrologue(config.format, config.width, config.height).Some?
        && var stale := old(ivfWriter) != null && config.format != MIMETYPE_VIDEO_VP8;
        var sink := if stale then old(ivfWriter).out else conn.output;
        var d := HandshakeRun(old(conn.output.Now()), config.format, config.width, config.height);
        var r := Pass(outputs, true, if sink == conn.output then d.after else old(sink.Now()),
                      config.format == MIMETYPE_VIDEO_VP8 || stale);
        (sink == conn.output ==>
          conn.output.written == old(conn.output.written) + HandshakeBytes(config.format, config.width, config.height) + r.bytes)
        && (sink != conn.output ==>
          conn.output.written == old(conn.output.written) + HandshakeBytes(config.format, config.width, config.height)
          && sink.written == old(sink.written) + r.bytes)
        && (!r.writeFailed ==> socket == conn && socketOut == conn.output && encoder != null && drainScheduled)
        && (r.writeFailed ==> socket == null && socketOut == null && encoder == null && !drainScheduled)
    {
      ghost var writer0 := ivfWriter;
      ghost var c := if conn == null then Channel(false, None) else conn.output.Now();
      ghost var before := if conn == null then [] else conn.output.written;
      ghost var stale := writer0 != null && config.format != MIMETYPE_VIDEO_VP8;
      ghost var staleNow := if writer0 == null then Channel(false, None) else writer0.out.Now();
      ghost var staleWritten := if writer0 == null then [] else writer0.out.written;
      var connected := CreateSocket(conn);
      if !connected {
        return START_NOT_STICKY;
      }
      ghost var d := HandshakeRun(c, config.format, config.width, config.height);
      CompletedHandshake(c, config.format, config.width, config.height);
      ghost var shaken := conn.output.written;
      assert shaken == before + HandshakeBytes(config.format, config.width, config.height);
      ghost var sink := if stale then writer0.out else conn.output;
      ghost var ivf := config.format == MIMETYPE_VIDEO_VP8 || stale;
      ghost var r := Pass(outputs, true, if sink == conn.output then d.after else staleNow, ivf);
      assert SinkOf(socketOut, ivfWriter) == sink && (ivfWriter != null <==> ivf);
      assert sink != conn.output ==> sink.Now() == staleNow && sink.written == staleWritten;
      assert ChannelOf(sink) == if sink == conn.output then d.after else staleNow;
      var capturing := StartScreenCapture(outputs);
      if !capturing {
        return START_NOT_STICKY;
      }
      assert sink == conn.output ==> conn.output.written == shaken + r.bytes;
      AppendAssoc(before, HandshakeBytes(config.format, config.width, config.height), r.bytes);
      code := START_STICKY;
    }
  }
}

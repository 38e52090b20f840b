/** The IVF muxer used for VP8 streams (IvfWriter.java): a 32-byte file header followed by
    frames, each preceded by a 12-byte frame header; every integer little-endian. */
module Ivf {
  import opened Bytes
  import opened Streams
  import opened Wrappers

  /** Writes the octets `b` over s starting at index `at`, leaving every other octet as it was. */
  function Overwrite(s: seq<byte>, at: nat, b: seq<byte>): (r: seq<byte>)
    requires at + |b| <= |s|
    ensures |r| == |s|
  {
    seq(|s|, j requires 0 <= j < |s| => if at <= j < at + |b| then b[j - at] else s[j])
  }

  /** "DKIF", the IVF signature. */
  const DKIF: seq<byte> := [0x44, 0x4B, 0x49, 0x46]
  /** "VP80", the fourcc of a VP8 stream. */
  const VP80: seq<byte> := [0x56, 0x50, 0x38, 0x30]

  /** The IVF file header as the format lays it out: signature "DKIF", version 0, header size 32,
      fourcc "VP80", width and height (16 bits), then the timebase and the frame count (32 bits)
      and 4 unused octets. As in IvfWriter.java, the rate is laid before the scale. */
  function IvfHeader(frameCount: int, width: int, height: int, scale: int, rate: int): seq<byte>
  {
    DKIF + LeBytes(0, 2) + LeBytes(32, 2) + VP80
    + LeBytes(width, 2) + LeBytes(height, 2)
    + LeBytes(rate, 4) + LeBytes(scale, 4) + LeBytes(frameCount, 4) + LeBytes(0, 4)
  }

  /** The 12-byte frame header: the frame size (32 bits), then the timestamp (64 bits). */
  function FrameHeader(size: int, timestamp: int): seq<byte>
  {
    LeBytes(size, 4) + LeBytes(timestamp, 8)
  }

  /** What writeFrame puts on the stream for one frame. */
  function FrameRecord(frame: seq<byte>, timestamp: int): seq<byte>
  {
    FrameHeader(|frame|, timestamp) + frame
  }
  /** What writeFrame leaves on the stream: the whole frame record when both writes go
      through; when one throws, nothing or exactly the 12-byte frame header. */
  lemma TornFrame(c: Channel, frame: seq<byte>, timestamp: int)
    ensures var d := Deliver(c, [FrameHeader(|frame|, timestamp), frame]);
      (d.ok <==> Clear(c, 2))
      && (d.ok ==> d.sent == FrameRecord(frame, timestamp))
      && (!d.ok ==> d.sent == [] || d.sent == FrameHeader(|frame|, timestamp))
  {
    DeliverPair(c, FrameHeader(|frame|, timestamp), frame);
    DeliverSent(c, [FrameHeader(|frame|, timestamp), frame]);
  }


  /** Laying `b` right after the octets `laid` already at the front of `before` makes
      `laid + b` the front of the result. */
  lemma LaidFront(before: seq<byte>, after: seq<byte>, laid: seq<byte>, b: seq<byte>)
    requires |laid| + |b| <= |before| && before[..|laid|] == laid
    requires after == Overwrite(before, |laid|, b)
    ensures after[..|laid| + |b|] == laid + b
  {
  }

  /** lay16Bits: the low 16 bits of value at buf[index], buf[index + 1]. */
  method Lay16Bits(buf: array<byte>, index: nat, value: int)
    requires index + 2 <= buf.Length
    modifies buf
    ensures buf[..] == Overwrite(old(buf[..]), index, LeBytes(value, 2))
  {
    buf[index] := ByteAt(value, 0);
    buf[index + 1] := ByteAt(value, 1);
  }

  /** lay32Bits: the four octets of a Java int, least significant first. */
  method Lay32Bits(buf: array<byte>, index: nat, value: int)
    requires index + 4 <= buf.Length
    modifies buf
    ensures buf[..] == Overwrite(old(buf[..]), index, LeBytes(value, 4))
  {
    for i := 0 to 4
      invariant forall j :: 0 <= j < buf.Length ==>
        buf[j] == if index <= j < index + i then ByteAt(value, j - index) else old(buf[j])
    {
      buf[index + i] := ByteAt(value, i);
    }
  }

  /** lay64bits: the eight octets of a Java long, least significant first. */
  method Lay64Bits(buf: array<byte>, index: nat, value: int)
    requires index + 8 <= buf.Length
    modifies buf
    ensures buf[..] == Overwrite(old(buf[..]), index, LeBytes(value, 8))
  {
    for i := 0 to 8
      invariant forall j :: 0 <= j < buf.Length ==>
        buf[j] == if index <= j < index + i then ByteAt(value, j - index) else old(buf[j])
    {
      buf[index + i] := ByteAt(value, i);
    }
  }

  /** The states makeIvfHeader takes its array through, each field laid right after the ones
      before it, end with the file header. */
  lemma HeaderLaid(s0: seq<byte>, s1: seq<byte>, s2: seq<byte>, s3: seq<byte>, s4: seq<byte>,
                   s5: seq<byte>, s6: seq<byte>, s7: seq<byte>, s8: seq<byte>, s9: seq<byte>,
                   frameCount: int, width: int, height: int, scale: int, rate: int)
    requires |s0| == 32 && s0[..4] == DKIF
    requires s1 == Overwrite(s0, 4, LeBytes(0, 2)) && s2 == Overwrite(s1, 6, LeBytes(32, 2))
    requires s3 == s2[8 := 0x56][9 := 0x50][10 := 0x38][11 := 0x30]
    requires s4 == Overwrite(s3, 12, LeBytes(width, 2)) && s5 == Overwrite(s4, 14, LeBytes(height, 2))
    requires s6 == Overwrite(s5, 16, LeBytes(rate, 4)) && s7 == Overwrite(s6, 20, LeBytes(scale, 4))
    requires s8 == Overwrite(s7, 24, LeBytes(frameCount, 4)) && s9 == Overwrite(s8, 28, LeBytes(0, 4))
    ensures s9 == IvfHeader(frameCount, width, height, scale, rate)
  {
    var laid := DKIF;
    LaidFront(s0, s1, laid, LeBytes(0, 2));
    laid := laid + LeBytes(0, 2);
    LaidFront(s1, s2, laid, LeBytes(32, 2));
    laid := laid + LeBytes(32, 2);
    assert s3[..12] == laid + VP80 by {
      assert s3[..8] == s2[..8];
      assert s3[..12] == s3[..8] + s3[8..12];
    }
    laid := laid + VP80;
    LaidFront(s3, s4, laid, LeBytes(width, 2));
    laid := laid + LeBytes(width, 2);
    LaidFront(s4, s5, laid, LeBytes(height, 2));
    laid := laid + LeBytes(height, 2);
    LaidFront(s5, s6, laid, LeBytes(rate, 4));
    laid := laid + LeBytes(rate, 4);
    LaidFront(s6, s7, laid, LeBytes(scale, 4));
    laid := laid + LeBytes(scale, 4);
    LaidFront(s7, s8, laid, LeBytes(frameCount, 4));
    laid := laid + LeBytes(frameCount, 4);
    LaidFront(s8, s9, laid, LeBytes(0, 4));
    laid := laid + LeBytes(0, 4);
    assert s9 == s9[..32];
  }

  /** makeIvfHeader: fills a fresh 32-byte array field by field. */
  method MakeIvfHeader(frameCount: int, width: int, height: int, scale: int, rate: int)
    returns (header: seq<byte>)
    ensures header == IvfHeader(frameCount, width, height, scale, rate)
  {
    var ivfHeader := new byte[32];
    ivfHeader[0] := 0x44;  // "DKIF"
    ivfHeader[1] := 0x4B;
    ivfHeader[2] := 0x49;
    ivfHeader[3] := 0x46;
    assert ivfHeader[..4] == DKIF;
    ghost var s0 := ivfHeader[..];
    Lay16Bits(ivfHeader, 4, 0);  // version
    ghost var s1 := ivfHeader[..];
    Lay16Bits(ivfHeader, 6, 32);  // header size
    ghost var s2 := ivfHeader[..];
    ivfHeader[8] := 0x56;  // "VP80"
    ivfHeader[9] := 0x50;
    ivfHeader[10] := 0x38;
    ivfHeader[11] := 0x30;
    ghost var s3 := ivfHeader[..];
    Lay16Bits(ivfHeader, 12, width);
    ghost var s4 := ivfHeader[..];
    Lay16Bits(ivfHeader, 14, height);
    ghost var s5 := ivfHeader[..];
    Lay32Bits(ivfHeader, 16, rate);  // rate before scale, as laid
    ghost var s6 := ivfHeader[..];
    Lay32Bits(ivfHeader, 20, scale);
    ghost var s7 := ivfHeader[..];
    Lay32Bits(ivfHeader, 24, frameCount);
    ghost var s8 := ivfHeader[..];
    Lay32Bits(ivfHeader, 28, 0);  // unused
    header := ivfHeader[..];
    HeaderLaid(s0, s1, s2, s3, s4, s5, s6, s7, s8, header, frameCount, width, height, scale, rate);
  }

  /** makeIvfFrameHeader. */
  method MakeIvfFrameHeader(size: int, timestamp: int) returns (header: seq<byte>)
    ensures header == FrameHeader(size, timestamp)
  {
    var frameHeader := new byte[12];
    Lay32Bits(frameHeader, 0, size);
    Lay64Bits(frameHeader, 4, timestamp);
    header := frameHeader[..];
  }

  class IvfWriter {
    const out: OutputStream
    const width: int
    const height: int
    const scale: int
    const rate: int
    /** mFrameCount. Java's int wraps after 2^31 frames; the count is only ever laid as its
        low 32 bits (see LeBytesPeriodic), so the unbounded count lays the same octets. */
    var frameCount: int

    constructor (outputStream: OutputStream, width: int, height: int, scale: int, rate: int)
      ensures out == outputStream && this.width == width && this.height == height
      ensures this.scale == scale && this.rate == rate && frameCount == 0
    {
      out := outputStream;
      this.width := width;
      this.height := height;
      this.scale := scale;
      this.rate := rate;
      frameCount := 0;
    }

    /** The three-argument constructor: a microsecond timebase, scale 1 and rate 1000000. */
    constructor Microseconds(outputStream: OutputStream, width: int, height: int)
      ensures out == outputStream && this.width == width && this.height == height
      ensures scale == 1 && rate == 1000000 && frameCount == 0
    {
      out := outputStream;
      this.width := width;
      this.height := height;
      scale := 1;
      rate := 1000000;
      frameCount := 0;
    }

    /** writeHeader: the header with the frame count as it is now, in one write. */
    method WriteHeader() returns (ok: bool)
      modifies out
      ensures ok == old(out.Writable())
      ensures out.written == old(out.written) + if ok then IvfHeader(frameCount, width, height, scale, rate) else []
      ensures out.Now() == old(out.Now()).Next()
    {
      var header := MakeIvfHeader(frameCount, width, height, scale, rate);
      ok := out.Write(header);
    }

    /** writeFrame: the frame header, then the frame, then one more frame counted. Either write
        may throw; the count is kept then, and a frame header already written stays on the
        stream (see TornFrame). */
    method WriteFrame(frame: seq<byte>, timeStamp: int) returns (ok: bool)
      modifies this, out
      ensures var d := Deliver(old(out.Now()), [FrameHeader(|frame|, timeStamp), frame]);
        ok == d.ok && out.written == old(out.written) + d.sent && out.Now() == d.after
      ensures frameCount == old(frameCount) + if ok then 1 else 0
    {
      ghost var before := out.written;
      ghost var c := out.Now();
      DeliverPair(c, FrameHeader(|frame|, timeStamp), frame);
      var header := MakeIvfFrameHeader(|frame|, timeStamp);
      ok := out.Write(header);
      if !ok {
        return;
      }
      ok := out.Write(frame);
      if !ok {
        return;
      }
      AppendAssoc(before, header, frame);
      frameCount := frameCount + 1;
    }

    /** close(): closes the stream; the header already sent is not rewritten. */
    method Close()
      modifies out
      ensures out.closed && out.written == old(out.written)
    {
      out.Close();
    }
  }

  /** The fields a reader of the file header recovers. */
  datatype FileHeader = FileHeader(fourcc: seq<byte>, width: nat, height: nat, rate: nat, scale: nat, frameCount: nat)

  /** A reference reader of the IVF file header, the partner makeIvfHeader is checked against:
      the sender never reads a header back. Like the usual IVF readers it checks the signature
      "DKIF" and the header size 32 and takes every other field as it stands. */
  function ParseIvfHeader(h: seq<byte>): Option<FileHeader>
  {
    if |h| < 32 || h[..4] != DKIF || ReadLeAt(h, 6, 2) != 32 then None
    else Some(FileHeader(h[8..12], ReadLeAt(h, 12, 2), ReadLeAt(h, 14, 2),
                         ReadLeAt(h, 16, 4), ReadLeAt(h, 20, 4), ReadLeAt(h, 24, 4)))
  }

  /** The reader looks at the first 32 octets only, so it reads the header off the front of
      the whole stream, whatever frames follow it. */
  lemma IvfHeaderPrefix(h: seq<byte>, tail: seq<byte>)
    requires |h| >= 32
    ensures ParseIvfHeader(h + tail) == ParseIvfHeader(h)
  {
    var s := h + tail;
    assert s[..4] == h[..4];
    assert s[6..8] == h[6..8] && s[8..12] == h[8..12] && s[12..14] == h[12..14] && s[14..16] == h[14..16];
    assert s[16..20] == h[16..20] && s[20..24] == h[20..24] && s[24..28] == h[24..28];
  }

  /** A reader gets back every field makeIvfHeader laid, truncated to the width of its field. */
  lemma IvfHeaderRoundTrip(frameCount: int, width: int, height: int, scale: int, rate: int)
    ensures ParseIvfHeader(IvfHeader(frameCount, width, height, scale, rate))
         == Some(FileHeader(VP80, width % Pow256(2), height % Pow256(2),
                            rate % Pow256(4), scale % Pow256(4), frameCount % Pow256(4)))
  {
    var h := IvfHeader(frameCount, width, height, scale, rate);
    assert h[..4] == DKIF;
    assert h[6..8] == LeBytes(32, 2);
    assert h[8..12] == VP80;
    assert h[12..14] == LeBytes(width, 2);
    assert h[14..16] == LeBytes(height, 2);
    assert h[16..20] == LeBytes(rate, 4);
    assert h[20..24] == LeBytes(scale, 4);
    assert h[24..28] == LeBytes(frameCount, 4);
    LeRoundTrip(32, 2);
    LeRoundTrip(width, 2);
    LeRoundTrip(height, 2);
    LeRoundTrip(rate, 4);
    LeRoundTrip(scale, 4);
    LeRoundTrip(frameCount, 4);
  }

  /** One frame as handed to writeFrame, and as a reader gets it back. */
  datatype Frame = Frame(data: seq<byte>, timestamp: int)

  /** The octets writeFrame emits for a run of frames. */
  function Records(frames: seq<Frame>): (r: seq<byte>)
  {
    if frames == [] then [] else FrameRecord(frames[0].data, frames[0].timestamp) + Records(frames[1..])
  }

  /** A reader's split of the frame section: a 12-byte frame header, then as many octets as it
      announces, repeated to the end; a truncated record is an error. */
  function ParseFrames(s: seq<byte>): (r: Option<seq<Frame>>)
    decreases |s|
  {
    if s == [] then Some([])
    else if |s| < 12 || 12 + ReadLeAt(s, 0, 4) > |s| then None
    else
      var size := ReadLeAt(s, 0, 4);
      match ParseFrames(s[12 + size..])
      case None => None
      case Some(rest) => Some([Frame(s[12..12 + size], ReadLeAt(s, 4, 8))] + rest)
  }

  /** A frame as a reader sees it after the timestamp went through its 64-bit field. */
  function Received(f: Frame): Frame
  {
    Frame(f.data, f.timestamp % Pow256(8))
  }

  predicate FitsSizeField(frames: seq<Frame>)
  {
    forall i :: 0 <= i < |frames| ==> |frames[i].data| < Pow256(4)
  }

  /** The frames a reader gets back for a run of frames written. */
  function ReceivedAll(frames: seq<Frame>): (r: seq<Frame>)
    ensures |r| == |frames|
  {
    if frames == [] then [] else [Received(frames[0])] + ReceivedAll(frames[1..])
  }

  /** Where the fields of a frame record followed by more octets lie. */
  lemma FrameFields(size: seq<byte>, time: seq<byte>, data: seq<byte>, tail: seq<byte>)
    requires |size| == 4 && |time| == 8
    ensures var s := size + time + data + tail;
      12 + |data| <= |s| && s[0..4] == size && s[4..12] == time
      && s[12..12 + |data|] == data && s[12 + |data|..] == tail
  {
    var s := size + time + data + tail;
    assert s[0..4] == size;
    assert s[4..12] == time;
    assert s[12..12 + |data|] == data;
    assert s[12 + |data|..] == tail;
  }

  /** A frame header announcing `size` octets, followed by at least that many: the reader takes
      them as one frame and goes on after them. */
  lemma ParseFramesFront(s: seq<byte>, size: nat, time: nat)
    requires 12 + size <= |s| && ReadLeAt(s, 0, 4) == size && ReadLeAt(s, 4, 8) == time
    ensures ParseFrames(s) == match ParseFrames(s[12 + size..])
            case None => None
            case Some(rest) => Some([Frame(s[12..12 + size], time)] + rest)
  {
  }

  /** A reader splits one record off the front of the frame section and carries on after it. */
  lemma FrameRecordSplit(f: Frame, tail: seq<byte>)
    requires |f.data| < Pow256(4)
    ensures ParseFrames(FrameRecord(f.data, f.timestamp) + tail)
         == match ParseFrames(tail)
            case None => None
            case Some(rest) => Some([Received(f)] + rest)
  {
    var size := |f.data|;
    FrameFields(LeBytes(size, 4), LeBytes(f.timestamp, 8), f.data, tail);
    LeRoundTrip(size, 4);
    LeRoundTrip(f.timestamp, 8);
    ParseFramesFront(FrameRecord(f.data, f.timestamp) + tail, size, f.timestamp % Pow256(8));
  }

  /** Reading the frame section back yields every frame written, in order, each with its
      payload intact and its timestamp modulo 2^64, provided every size fits its 32-bit field. */
  lemma {:induction false} FramesRoundTrip(frames: seq<Frame>)
    requires FitsSizeField(frames)
    ensures ParseFrames(Records(frames)) == Some(ReceivedAll(frames))
    decreases |frames|
  {
    if frames != [] {
      assert |frames[0].data| < Pow256(4);
      FrameRecordSplit(frames[0], Records(frames[1..]));
      FramesRoundTrip(frames[1..]);
    }
  }
}

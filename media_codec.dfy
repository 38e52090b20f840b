/** The video encoder as the sender's drain loop sees it: a queue of results that successive
    `dequeueOutputBuffer` calls return, and a log of the buffers handed back with
    `releaseOutputBuffer`. What the encoder produces is an input of the model. */
module MediaCodec {
  import opened Bytes

  /** Status codes `dequeueOutputBuffer` returns instead of a buffer index. */
  const INFO_TRY_AGAIN_LATER := -1
  const INFO_OUTPUT_FORMAT_CHANGED := -2

  const BUFFER_FLAG_CODEC_CONFIG: bv32 := 2
  const BUFFER_FLAG_END_OF_STREAM: bv32 := 4

  /** MediaCodec.BufferInfo: where the encoded bytes lie in the output buffer, and their flags and
      presentation time. */
  datatype BufferInfo = BufferInfo(offset: nat, size: nat, flags: bv32, presentationTimeUs: int)

  /** One result of `dequeueOutputBuffer`: a negative status code, or the index of a ready output
      buffer together with its info and its contents. */
  datatype Poll = Poll(index: int, info: BufferInfo, buffer: seq<byte>)

  /** The encoder's guarantee: a ready buffer's [offset, offset + size) lies inside the buffer. */
  predicate WellFormed(p: Poll)
  {
    p.index >= 0 ==> p.info.offset + p.info.size <= |p.buffer|
  }

  predicate AllWellFormed(polls: seq<Poll>)
  {
    forall i :: 0 <= i < |polls| ==> WellFormed(polls[i])
  }

  /** The encoded bytes a ready buffer holds, [offset, offset + size) of its contents (empty for
      a result the encoder never returns, whose range lies outside its buffer). */
  function Payload(p: Poll): (b: seq<byte>)
    ensures WellFormed(p) && p.index >= 0 ==> b == p.buffer[p.info.offset .. p.info.offset + p.info.size]
  {
    if p.info.offset + p.info.size <= |p.buffer| then p.buffer[p.info.offset .. p.info.offset + p.info.size] else []
  }

  class Encoder {
    /** The results the encoder will still return, in order. */
    var pending: seq<Poll>
    /** The indices handed back through releaseOutputBuffer, in order. */
    var released: seq<int>
    /** Cleared by stop() and release(). */
    var running: bool

    predicate Valid()
      reads this
    {
      AllWellFormed(pending)
    }

    constructor (outputs: seq<Poll>)
      requires AllWellFormed(outputs)
      ensures Valid() && pending == outputs && released == [] && running
    {
      pending := outputs;
      released := [];
      running := true;
    }

    /** dequeueOutputBuffer with a zero timeout: the next result, or INFO_TRY_AGAIN_LATER when
        nothing is ready. */
    method DequeueOutputBuffer() returns (p: Poll)
      requires Valid()
      modifies this
      ensures Valid() && WellFormed(p)
      ensures old(pending) == [] ==> p.index == INFO_TRY_AGAIN_LATER && pending == []
      ensures old(pending) != [] ==> p == old(pending)[0] && pending == old(pending)[1..]
      ensures released == old(released) && running == old(running)
    {
      if pending == [] {
        p := Poll(INFO_TRY_AGAIN_LATER, BufferInfo(0, 0, 0, 0), []);
      } else {
        p := pending[0];
        pending := pending[1..];
      }
    }

    method ReleaseOutputBuffer(index: int)
      modifies this
      ensures released == old(released) + [index]
      ensures pending == old(pending) && running == old(running)
    {
      released := released + [index];
    }

    /** stop() followed by release(). */
    method StopAndRelease()
      modifies this
      ensures !running && pending == old(pending) && released == old(released)
    {
      running := false;
    }
  }
}

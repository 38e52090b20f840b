/** The transport objects the sender shares between its components: a socket's output stream
    (the byte sink the handshake, the codec init data and the frames go to), the socket that
    owns it, and the listening socket of listen mode. The network itself is not modelled: what
    the peer has received is the sequence of bytes written, and a connection the peer drops is
    a stream whose writes throw from then on. */
module Streams {
  import opened Bytes
  import opened Wrappers

  /** What decides the writes on a connection: whether the stream is still open, and how many
      more writes the peer takes before it drops the connection (None when it never does).
      Once the peer has dropped it, every write throws an IOException. */
  datatype Channel = Channel(open: bool, writesLeft: Option<nat>)
  {
    /** The next write goes through. */
    predicate Takes()
    {
      open && (writesLeft.None? || writesLeft.value > 0)
    }

    /** The channel once one more write has been tried. */
    function Next(): Channel
    {
      if writesLeft.Some? && writesLeft.value > 0 then Channel(open, Some(writesLeft.value - 1)) else this
    }
  }

  /** The next n writes on c all go through. */
  predicate Clear(c: Channel, n: nat)
  {
    c.open && (c.writesLeft.None? || n <= c.writesLeft.value)
  }

  /** The outcome of a run of writes: the octets that reached the peer, whether every write
      went through, and the channel afterwards. */
  datatype Delivery = Delivery(sent: seq<byte>, ok: bool, after: Channel)

  /** Writing `parts` in order on c, as a method body that lets the first IOException
      propagate does: the run stops at the first write that throws. */
  function Deliver(c: Channel, parts: seq<seq<byte>>): Delivery
    decreases |parts|
  {
    if parts == [] then Delivery([], true, c)
    else if !c.Takes() then Delivery([], false, c.Next())
    else var d := Deliver(c.Next(), parts[1..]); Delivery(parts[0] + d.sent, d.ok, d.after)
  }

  /** A run of writes goes through exactly when none of its writes meets a dropped peer, and
      then delivers every part; otherwise what reached the peer is a run of whole leading
      parts, a prefix of the whole. The stream stays open or closed as it was. */
  lemma {:induction false} DeliverSent(c: Channel, parts: seq<seq<byte>>)
    ensures var d := Deliver(c, parts);
      (d.ok <==> parts == [] || Clear(c, |parts|))
      && (d.ok ==> d.sent == Concat(parts))
      && d.sent <= Concat(parts)
      && d.after.open == c.open
    decreases |parts|
  {
    if parts != [] && c.Takes() {
      DeliverSent(c.Next(), parts[1..]);
    }
  }

  /** A single write: it goes through exactly when the channel takes it. */
  lemma DeliverOne(c: Channel, a: seq<byte>)
    ensures Deliver(c, [a]) == Delivery(if c.Takes() then a else [], c.Takes(), c.Next())
  {
    assert [a][1..] == [];
    assert Deliver(c.Next(), []) == Delivery([], true, c.Next());
    assert a + [] == a;
  }

  /** Two writes in a row: both go through, only the first does, or neither. */
  lemma DeliverPair(c: Channel, a: seq<byte>, b: seq<byte>)
    ensures var d := Deliver(c, [a, b]);
      d.ok == (c.Takes() && c.Next().Takes())
      && d.sent == (if !c.Takes() then [] else if !c.Next().Takes() then a else a + b)
      && d.after == (if !c.Takes() then c.Next() else c.Next().Next())
  {
    var n := c.Next();
    assert [a, b][1..] == [b];
    assert [b][1..] == [];
    assert Deliver(n.Next(), []) == Delivery([], true, n.Next());
    if n.Takes() {
      assert Deliver(n, [b]) == Delivery(b + [], true, n.Next());
    } else {
      assert Deliver(n, [b]) == Delivery([], false, n.Next());
    }
  }

  class OutputStream {
    /** Everything that reached the peer so far, in order. */
    var written: seq<byte>
    var closed: bool
    /** How many more writes the peer takes (see Channel). */
    var writesLeft: Option<nat>

    constructor (writesLeft: Option<nat>)
      ensures written == [] && !closed && this.writesLeft == writesLeft
    {
      written := [];
      closed := false;
      this.writesLeft := writesLeft;
    }

    /** The channel the next write meets. */
    function Now(): Channel
      reads this
    {
      Channel(!closed, writesLeft)
    }

    predicate Writable()
      reads this
    {
      Now().Takes()
    }

    /** OutputStream.write(b): appends b, or throws (ok == false) and appends nothing. Each
        write, whatever its outcome, counts against the writes the peer still takes. */
    method Write(b: seq<byte>) returns (ok: bool)
      modifies this
      ensures ok == old(Writable())
      ensures written == if ok then old(written) + b else old(written)
      ensures Now() == old(Now()).Next()
    {
      ok := Writable();
      if ok {
        written := written + b;
      }
      writesLeft := Now().Next().writesLeft;
    }

    method Close()
      modifies this
      ensures closed && written == old(written) && writesLeft == old(writesLeft)
    {
      closed := true;
    }
  }

  /** A connected TCP socket: what the peer sends on it, and the stream towards the peer. */
  class Socket {
    const input: seq<byte>
    const output: OutputStream
    var closed: bool

    constructor (input: seq<byte>, output: OutputStream)
      ensures this.input == input && this.output == output && !closed
    {
      this.input := input;
      this.output := output;
      closed := false;
    }

    /** Socket.close() also closes the socket's output stream. */
    method Close()
      modifies this, output
      ensures closed && output.closed
      ensures output.written == old(output.written) && output.writesLeft == old(output.writesLeft)
    {
      closed := true;
      output.Close();
    }
  }

  class ServerSocket {
    var closed: bool

    constructor ()
      ensures !closed
    {
      closed := false;
    }

    method Close()
      modifies this
      ensures closed
    {
      closed := true;
    }
  }
}

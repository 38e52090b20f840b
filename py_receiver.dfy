/** The two Python receivers: cs_receiver.py (discovery responder plus a TCP server the sender
    connects to) and cs_receiver_conn.py (which connects to a sender listening on port 53516
    and asks for the stream). Both hand the video to a player through a pipe after skipping
    the sender's handshake header in the first chunk. */
module PyReceiver {
  import opened Bytes
  import opened Text
  import opened Wrappers

  const PORT := 53515
  const CONN_PORT := 53516
  const IP := "192.168.0.11"
  const BUFFER_SIZE := 1024

  const CRLFCRLF: seq<byte> := [13, 10, 13, 10]

  // ---------------------------------------------------------------------------------------
  // Discovery (cs_receiver.py)

  const NAME_FIELD := ",\"name\":\"PyReceiver @ "
  const ID_FIELD := "\",\"id\":\""
  const REST_FIELDS := "\",\"width\":1280,\"height\":960,\"mirror\":\"h264\",\"audio\":\"pcm\",\"subtitles\":\"text/vtt\""
    + ",\"proxyHeaders\":true,\"hls\":false,\"upsell\":true}"

  /** meta_data: the JSON description formatted with PORT and the fixed IP in name and id. */
  function MetaData(): string
  {
    "{\"port\":" + Decimal(PORT) + NAME_FIELD + IP + ID_FIELD + IP + REST_FIELDS
  }

  lemma PortDigits()
    ensures Decimal(PORT) == "53515"
  {
  }

  /** The reply names the receiver after its address and gives the same address as its id. */
  lemma MetaDataFields()
    ensures MatchAt(Ascii(MetaData()), Ascii(IP), 35)
    ensures MatchAt(Ascii(MetaData()), Ascii(IP), 35 + |IP| + 8)
  {
    PortDigits();
    var head := "{\"port\":" + Decimal(PORT) + NAME_FIELD;
    assert |head| == 35 && |ID_FIELD| == 8;
    AsciiTwiceAt(head, IP, ID_FIELD, REST_FIELDS);
  }

  /** The reply announces port 53515. */
  lemma MetaDataPort()
    ensures MatchAt(Ascii(MetaData()), Ascii("53515"), 8)
  {
    PortDigits();
    assert MetaData() == "{\"port\":" + "53515" + (NAME_FIELD + IP + ID_FIELD + IP + REST_FIELDS);
    AsciiFieldAt("{\"port\":", "53515", NAME_FIELD + IP + ID_FIELD + IP + REST_FIELDS);
  }

  /** A datagram as recvfrom returns it: at most BUFFER_SIZE bytes and the sender's address. */
  datatype Datagram = Datagram(msg: seq<byte>, fromIp: string, fromPort: int)

  /** A datagram resp_hello sends. */
  datatype Response = Response(data: seq<byte>, toIp: string, toPort: int)

  /** The responses to a run of datagrams: meta_data to the sender of each exact "hello". */
  function Responses(ds: seq<Datagram>): seq<Response>
  {
    if ds == [] then []
    else
      var last := ds[|ds| - 1];
      Responses(ds[..|ds| - 1])
      + if last.msg == Ascii("hello") then [Response(Ascii(MetaData()), last.fromIp, last.fromPort)] else []
  }

  /** Only an exact "hello" is answered, and the answer goes back to where it came from. */
  lemma AnswersExactHello(d: Datagram)
    ensures |Responses([d])| == (if d.msg == Ascii("hello") then 1 else 0)
    ensures d.msg == Ascii("hello") ==> Responses([d])[0] == Response(Ascii(MetaData()), d.fromIp, d.fromPort)
  {
    assert [d][..0] == [];
  }

  /** A "hello" with anything after it, which the C receiver answers, gets no answer here. */
  lemma LongerHelloIgnored(rest: seq<byte>, ip: string, port: int)
    requires rest != []
    ensures Responses([Datagram(Ascii("hello") + rest, ip, port)]) == []
  {
    var d := Datagram(Ascii("hello") + rest, ip, port);
    assert [d][..0] == [];
    assert |d.msg| != |Ascii("hello")|;
  }

  /** handle_discovery's loop over the datagrams it receives. */
  method HandleDiscovery(ds: seq<Datagram>) returns (sent: seq<Response>)
    ensures sent == Responses(ds)
  {
    sent := [];
    var i := 0;
    while i < |ds|
      invariant 0 <= i <= |ds|
      invariant sent == Responses(ds[..i])
    {
      assert ds[..i + 1][..i] == ds[..i];
      var msg := ds[i].msg;
      if msg == Ascii("hello") {
        sent := sent + [Response(Ascii(MetaData()), ds[i].fromIp, ds[i].fromPort)];
      }
      i := i + 1;
    }
    assert ds[..i] == ds;
  }

  // ---------------------------------------------------------------------------------------
  // The stream (MyTCPHandler.handle and connect_to_server)

  /** What the first chunk contributes: the bytes after its first "\r\n\r\n" when that is found
      past index 0 (`find(..) > 0`), nothing otherwise. */
  function FirstChunk(data: seq<byte>): (r: seq<byte>)
    ensures IndexOf(data, CRLFCRLF) <= 0 ==> r == []
    ensures IndexOf(data, CRLFCRLF) > 0 ==> r == data[IndexOf(data, CRLFCRLF) + 4..]
  {
    var k := IndexOf(data, CRLFCRLF);
    if k > 0 && |data| > k + 4 then data[k + 4..] else []
  }

  /** What reaches the player from the chunks recv returns, from the state `skipped`: each
      chunk after the first whole, up to the first empty chunk (end of stream). */
  function RelayedFrom(chunks: seq<seq<byte>>, skipped: bool): seq<byte>
  {
    if chunks == [] || chunks[0] == [] then []
    else (if skipped then chunks[0] else FirstChunk(chunks[0])) + RelayedFrom(chunks[1..], true)
  }

  function Relayed(chunks: seq<seq<byte>>): seq<byte>
  {
    RelayedFrom(chunks, false)
  }

  lemma {:induction false} RelayedAfterFirst(chunks: seq<seq<byte>>)
    requires forall i :: 0 <= i < |chunks| ==> chunks[i] != []
    ensures RelayedFrom(chunks, true) == Concat(chunks)
  {
    if chunks != [] {
      RelayedAfterFirst(chunks[1..]);
    }
  }

  /** Without an empty chunk, the player gets the first chunk's tail and then every later
      chunk verbatim, in order. */
  lemma LaterChunksVerbatim(first: seq<byte>, later: seq<seq<byte>>)
    requires first != [] && forall i :: 0 <= i < |later| ==> later[i] != []
    ensures Relayed([first] + later) == FirstChunk(first) + Concat(later)
  {
    assert ([first] + later)[1..] == later;
    RelayedAfterFirst(later);
  }

  /** A first chunk without the terminator, or with it at index 0, is dropped whole; the flag
      is set all the same, so the next chunk is forwarded whole. */
  lemma FirstChunkWithoutHeaderDropped(first: seq<byte>, later: seq<seq<byte>>)
    requires first != [] && IndexOf(first, CRLFCRLF) <= 0
    ensures Relayed([first] + later) == RelayedFrom(later, true)
  {
    assert ([first] + later)[1..] == later;
  }

  /** Nothing after the first empty chunk reaches the player. */
  lemma {:induction false} EndOfStreamStops(chunks: seq<seq<byte>>, rest: seq<seq<byte>>, skipped: bool)
    requires forall i :: 0 <= i < |chunks| ==> chunks[i] != []
    ensures RelayedFrom(chunks + [[]] + rest, skipped) == RelayedFrom(chunks, skipped)
  {
    if chunks == [] {
      assert chunks + [[]] + rest == [[]] + rest;
    } else {
      assert (chunks + [[]] + rest)[1..] == chunks[1..] + [[]] + rest;
      EndOfStreamStops(chunks[1..], rest, true);
    }
  }

  /** The recv loop shared by MyTCPHandler.handle and connect_to_server: skip the handshake
      header in the first chunk, forward the rest, stop at end of stream. */
  method RelayStream(chunks: seq<seq<byte>>) returns (piped: seq<byte>)
    ensures piped == Relayed(chunks)
  {
    var skippedMetadata := false;
    piped := [];
    var i := 0;
    while i < |chunks|
      invariant 0 <= i <= |chunks|
      invariant skippedMetadata <==> i > 0
      invariant piped + RelayedFrom(chunks[i..], skippedMetadata) == Relayed(chunks)
    {
      var data := chunks[i];
      if data == [] {
        break;
      }
      assert chunks[i..][1..] == chunks[i + 1..];
      ghost var before := piped;
      ghost var rest := RelayedFrom(chunks[i + 1..], true);
      if !skippedMetadata {
        var k := IndexOf(data, CRLFCRLF);
        if k > 0 {
          var lastCtrl := k + 4;
          if |data| > lastCtrl {
            piped := piped + data[lastCtrl..];
          }
        }
        skippedMetadata := true;
        assert piped == before + FirstChunk(data);
        AppendAssoc(before, FirstChunk(data), rest);
      } else {
        piped := piped + data;
        AppendAssoc(before, data, rest);
      }
      i := i + 1;
    }
    assert piped + [] == piped;
  }

  /** connect_to_server: the request "mirror\n" first, then the relayed stream. */
  method ConnectToServer(chunks: seq<seq<byte>>) returns (request: seq<byte>, piped: seq<byte>)
    ensures request == Ascii("mirror\n")
    ensures piped == Relayed(chunks)
  {
    request := Ascii("mirror\n");
    piped := RelayStream(chunks);
  }
}

/** The C receiver (receiver/cs_receiver.c) as built by default: server mode, the decoder fed
    through a pipe (USE_FIFO is 0), no VPUDEC caps. One `select` loop answers discovery
    datagrams, accepts one sender at a time, reads its handshake, starts a decoder and pipes
    the video to it. Each wake-up of the loop is an input here; sockets, processes and pipes
    appear as the descriptors and process ids the system calls return, and what the loop does
    to them (replies, decoder launches, pipe writes, kills, closes) is recorded in order. */
module CsReceiver {
  import opened Bytes
  import opened Wrappers
  import opened Text

  const DISCOVER_PORT := 53515
  const DISCOVER_MSG: seq<byte> := [104, 101, 108, 108, 111]
  const BROADCAST_BUF_SIZE := 128
  const RESP_BUF_SIZE := 512
  const DATA_BUF_SIZE := 1024

  /** A read-side no-data count above this closes the client. */
  const MAX_EMPTY_READS := 2
  /** A timeout-side count above this (3 s timeouts, so about 30 s) closes everything. */
  const MAX_IDLE_TIMEOUTS := 10

  const DEFAULT_WIDTH := 800
  const DEFAULT_HEIGHT := 480

  const CRLF: seq<byte> := [13, 10]
  const CRLFCRLF: seq<byte> := [13, 10, 13, 10]

  lemma DiscoverMsgIsHello()
    ensures DISCOVER_MSG == Ascii("hello")
  {
  }

  // ---------------------------------------------------------------------------------------
  // Discovery

  /** The 128-byte broadcast_msg_buf after recvmsg: at most 128 bytes of the datagram at its
      start, and after them whatever the buffer held before (`stale`), since it is never
      cleared. */
  function BroadcastBuffer(datagram: seq<byte>, stale: seq<byte>): seq<byte>
  {
    var n := if |datagram| < BROADCAST_BUF_SIZE then |datagram| else BROADCAST_BUF_SIZE;
    datagram[..n] + if n <= |stale| then stale[n..] else []
  }

  /** strncmp(broadcast_msg_buf, "hello", 5) == 0: the buffer starts with the five letters. */
  predicate Answers(datagram: seq<byte>, stale: seq<byte>)
  {
    var buf := BroadcastBuffer(datagram, stale);
    |buf| >= 5 && buf[..5] == DISCOVER_MSG
  }

  /** A datagram of five bytes or more is answered exactly when it starts with "hello",
      whatever it holds after them and whatever the buffer held before. */
  lemma DiscoverPrefixMatch(datagram: seq<byte>, stale: seq<byte>)
    requires |datagram| >= 5
    ensures Answers(datagram, stale) <==> datagram[..5] == DISCOVER_MSG
  {
    var buf := BroadcastBuffer(datagram, stale);
    assert buf[..5] == datagram[..5];
  }

  /** The match is on a prefix: "hello" followed by anything is answered. */
  lemma DiscoverLongerHello(rest: seq<byte>, stale: seq<byte>)
    ensures Answers(DISCOVER_MSG + rest, stale)
  {
    DiscoverPrefixMatch(DISCOVER_MSG + rest, stale);
    assert (DISCOVER_MSG + rest)[..5] == DISCOVER_MSG;
  }

  /** A shorter datagram is compared with what the buffer still holds: "hell" is answered
      when the previous datagram was "hello". */
  lemma StaleBufferCompletesHello(stale: seq<byte>)
    requires |stale| == BROADCAST_BUF_SIZE && stale[..5] == DISCOVER_MSG
    ensures Answers(DISCOVER_MSG[..4], stale)
  {
    var buf := BroadcastBuffer(DISCOVER_MSG[..4], stale);
    assert buf[..5] == DISCOVER_MSG[..4] + [stale[4]];
  }

  /** The fixed pieces of DISCOVER_MSG_TEMPLATE around its three conversions. */
  const PORT_FIELD := "{\"port\":"
  const NAME_FIELD := ",\"name\":\"CsReceiver @ "
  const ID_FIELD := "\",\"id\":\""
  const REST_FIELDS := "\",\"width\":1280,\"height\":960,\"mirror\":\"h264\",\"audio\":\"pcm\",\"subtitles\":\"text/vtt\""
    + ",\"proxyHeaders\":true,\"hls\":false,\"upsell\":true}"

  /** DISCOVER_MSG_TEMPLATE filled with DISCOVER_PORT and the local address twice. */
  function DiscoverText(ip: string): string
  {
    PORT_FIELD + Decimal(DISCOVER_PORT) + NAME_FIELD + ip + ID_FIELD + ip + REST_FIELDS
  }

  lemma PortDigits()
    ensures Decimal(DISCOVER_PORT) == "53515"
  {
  }

  /** What sendto sends: snprintf into the 512-byte resp_msg_buf keeps at most 511 bytes, and
      strlen finds their end (neither the template nor an address inet_ntoa writes holds a
      NUL). */
  function DiscoverReply(ip: string): (r: seq<byte>)
    ensures |r| < RESP_BUF_SIZE
  {
    var text := Ascii(DiscoverText(ip));
    if |text| < RESP_BUF_SIZE then text else text[..RESP_BUF_SIZE - 1]
  }

  lemma DiscoverTextLength(ip: string)
    ensures |DiscoverText(ip)| == 170 + 2 * |ip|
    ensures |PORT_FIELD + Decimal(DISCOVER_PORT) + NAME_FIELD| == 35 && |ID_FIELD| == 8
  {
    PortDigits();
  }

  /** An address of up to 170 characters (a dotted quad has at most 15) leaves the reply
      whole: the template with the port, and the address in both "name" and "id". */
  lemma DiscoverReplyWhole(ip: string)
    requires |ip| <= 170
    ensures DiscoverReply(ip) == Ascii(DiscoverText(ip))
    ensures MatchAt(DiscoverReply(ip), Ascii(ip), 35)
    ensures MatchAt(DiscoverReply(ip), Ascii(ip), 43 + |ip|)
  {
    DiscoverTextLength(ip);
    AsciiTwiceAt(PORT_FIELD + Decimal(DISCOVER_PORT) + NAME_FIELD, ip, ID_FIELD, REST_FIELDS);
  }

  /** A longer address is cut: the reply is the first 511 bytes of the text. */
  lemma DiscoverReplyCut(ip: string)
    requires |ip| > 170
    ensures DiscoverReply(ip) == Ascii(DiscoverText(ip))[..RESP_BUF_SIZE - 1]
  {
    DiscoverTextLength(ip);
  }

  // ---------------------------------------------------------------------------------------
  // The control header

  /** A decoder launch's size, parsed from the handshake (only the VPUDEC build passes it on). */
  datatype Caps = Caps(width: int, height: int)

  const X_WIDTH: seq<byte> := [88, 45, 87, 73, 68, 84, 72, 58]
  const X_HEIGHT: seq<byte> := [88, 45, 72, 69, 73, 71, 72, 84, 58]

  lemma KeysAreAscii()
    ensures X_WIDTH == Ascii("X-WIDTH:") && X_HEIGHT == Ascii("X-HEIGHT:")
  {
  }

  /** strstr(info, key) != NULL. */
  predicate Mentions(line: seq<byte>, key: seq<byte>)
  {
    IndexOf(line, key) >= 0
  }

  /** atoi(strstr(info, " ")): the number after the line's first blank. None when the line has
      no blank: the C code then hands atoi a null pointer and the process dies. */
  function ValueAfterBlank(line: seq<byte>): (r: Option<int>)
    ensures r.None? <==> BLANK !in line
  {
    var k := IndexOf(line, [BLANK]);
    IndexOfElement(line, BLANK);
    if k < 0 then None else Some(Atoi(line[k..]))
  }

  /** One pass of the strtok loop's body: a line mentioning "X-WIDTH:" sets the width, one
      mentioning "X-HEIGHT:" sets the height (a line mentioning both sets both). */
  function ScanLine(caps: Caps, line: seq<byte>): Option<Caps>
  {
    var w := if Mentions(line, X_WIDTH) then ValueAfterBlank(line) else Some(caps.width);
    var h := if Mentions(line, X_HEIGHT) then ValueAfterBlank(line) else Some(caps.height);
    if w.None? || h.None? then None else Some(Caps(w.value, h.value))
  }

  /** The strtok loop over the given lines, from `caps`. */
  function ScanLines(caps: Option<Caps>, lines: seq<seq<byte>>): Option<Caps>
    decreases |lines|
  {
    if caps.None? || lines == [] then caps else ScanLines(ScanLine(caps.value, lines[0]), lines[1..])
  }

  /** The size the control parse of a handshake chunk arrives at: 800x480 unless its lines
      (strtok over "\r\n" of the chunk's C string) say otherwise. */
  function ControlCaps(chunk: seq<byte>): Option<Caps>
  {
    ScanLines(Some(Caps(DEFAULT_WIDTH, DEFAULT_HEIGHT)), Tokens(CString(chunk)))
  }

  lemma {:induction false} ScanLinesAppend(caps: Option<Caps>, lines: seq<seq<byte>>, line: seq<byte>)
    ensures ScanLines(caps, lines + [line])
      == (var r := ScanLines(caps, lines); if r.None? then None else ScanLine(r.value, line))
    decreases |lines|
  {
    if caps.Some? && lines != [] {
      assert (lines + [line])[1..] == lines[1..] + [line];
      ScanLinesAppend(ScanLine(caps.value, lines[0]), lines[1..], line);
    } else if caps.Some? {
      assert lines + [line] == [line];
    }
  }

  /** Lines that mention neither key leave the size as it was. */
  lemma {:induction false} ScanLinesUnmentioned(caps: Caps, lines: seq<seq<byte>>)
    requires forall i :: 0 <= i < |lines| ==> !Mentions(lines[i], X_WIDTH) && !Mentions(lines[i], X_HEIGHT)
    ensures ScanLines(Some(caps), lines) == Some(caps)
    decreases |lines|
  {
    if lines != [] {
      ScanLinesUnmentioned(caps, lines[1..]);
    }
  }

  /** Without "X-WIDTH:" and "X-HEIGHT:" lines the decoder gets the defaults, 800x480. */
  lemma ControlDefaults(chunk: seq<byte>)
    requires forall t :: t in Tokens(CString(chunk)) ==> !Mentions(t, X_WIDTH) && !Mentions(t, X_HEIGHT)
    ensures ControlCaps(chunk) == Some(Caps(DEFAULT_WIDTH, DEFAULT_HEIGHT))
  {
    var ts := Tokens(CString(chunk));
    assert forall i :: 0 <= i < |ts| ==> ts[i] in ts;
    ScanLinesUnmentioned(Caps(DEFAULT_WIDTH, DEFAULT_HEIGHT), ts);
  }

  /** The last "X-WIDTH:" line wins: a width line after any others sets the width to the
      number after its first blank and keeps the height. */
  lemma LastWidthWins(caps: Option<Caps>, lines: seq<seq<byte>>, line: seq<byte>)
    requires ScanLines(caps, lines).Some?
    requires Mentions(line, X_WIDTH) && !Mentions(line, X_HEIGHT) && ValueAfterBlank(line).Some?
    ensures ScanLines(caps, lines + [line])
      == Some(Caps(ValueAfterBlank(line).value, ScanLines(caps, lines).value.height))
  {
    ScanLinesAppend(caps, lines, line);
  }

  /** The last "X-HEIGHT:" line wins in the same way. */
  lemma LastHeightWins(caps: Option<Caps>, lines: seq<seq<byte>>, line: seq<byte>)
    requires ScanLines(caps, lines).Some?
    requires Mentions(line, X_HEIGHT) && !Mentions(line, X_WIDTH) && ValueAfterBlank(line).Some?
    ensures ScanLines(caps, lines + [line])
      == Some(Caps(ScanLines(caps, lines).value.width, ValueAfterBlank(line).value))
  {
    ScanLinesAppend(caps, lines, line);
  }

  /** The control parse (lines 333-355): the strtok loop over the C string of the chunk,
      starting from 800x480. None when a size line has no blank. */
  method ParseControl(chunk: seq<byte>) returns (caps: Option<Caps>)
    ensures caps == ControlCaps(chunk)
  {
    var width, height := DEFAULT_WIDTH, DEFAULT_HEIGHT;
    var rest := CString(chunk);
    while rest != []
      invariant ScanLines(Some(Caps(width, height)), Tokens(rest)) == ControlCaps(chunk)
      decreases |rest|
    {
      if IsDelim(rest[0]) {
        rest := rest[1..];
      } else {
        var k := TokenEnd(rest);
        var info := rest[..k];
        if Mentions(info, X_WIDTH) {
          var v := ValueAfterBlank(info);
          if v.None? {
            return None;
          }
          width := v.value;
        }
        if Mentions(info, X_HEIGHT) {
          var v := ValueAfterBlank(info);
          if v.None? {
            return None;
          }
          height := v.value;
        }
        rest := rest[k..];
      }
    }
    caps := Some(Caps(width, height));
  }

  /** The bytes of a handshake chunk that go to the decoder: those after the first "\r\n\r\n"
      of its C string (len - (offset + 4) of them), none when there is no such terminator. */
  function AfterControl(data: seq<byte>): (r: seq<byte>)
    ensures IndexOf(CString(data), CRLFCRLF) < 0 ==> r == []
    ensures IndexOf(CString(data), CRLFCRLF) >= 0
      ==> |r| == |data| - (IndexOf(CString(data), CRLFCRLF) + 4) && r <= data[IndexOf(CString(data), CRLFCRLF) + 4..]
  {
    var k := IndexOf(CString(data), CRLFCRLF);
    if k >= 0 && |data| - (k + 4) > 0 then data[k + 4..] else []
  }

  // ---------------------------------------------------------------------------------------
  // The event loop as a function of its wake-ups

  /** What popen2 hands back: the decoder's pid (negative when pipe or fork failed) and the
      two pipe ends, which it stores only when the fork succeeded. */
  datatype Spawn = Spawn(pid: int, stdinFd: int, stdoutFd: int)

  /** What read returned on the client socket: an error, or up to DATA_BUF_SIZE bytes (none
      at end of stream). */
  datatype Read = ReadFailed | Received(data: seq<byte>)

  /** One return of `select` and the branch of the loop it leads to. */
  datatype Wakeup =
    | SelectFailed
    | SelectTimedOut
      /** The discovery socket is readable: recvmsg's datagram (None when it failed), the
          buffer's earlier contents, the sender, and the local address of each IP_PKTINFO
          control message. */
    | DiscoveryReady(datagram: Option<seq<byte>>, stale: seq<byte>, peer: string, localAddresses: seq<string>)
      /** The listening socket is readable: what accept would return, and what popen2 would. */
    | ListenReady(accepted: int, decoder: Spawn)
      /** The client socket is readable: what read returned, and what popen2 would. */
    | ClientReady(read: Read, decoder: Spawn)

  /** What the loop does to the outside world. */
  datatype Effect =
    | Reply(to: string, message: seq<byte>)
    | Launch(caps: Option<Caps>)
    | Pipe(fd: int, bytes: seq<byte>)
    | Kill(pid: int)
    | Close(fd: int)

  /** The loop's variables: main's locals that outlive one wake-up, and whether the process
      has died. */
  datatype Vars = Vars(clientSock: int, justConnect: bool, noDataCount: int,
                       gstPid: int, gstInFp: int, gstOutFp: int, fifoFp: int, crashed: bool)

  datatype Outcome = Outcome(vars: Vars, effects: seq<Effect>)

  const Initial := Vars(-1, false, 0, -1, -1, -1, -1, false)

  function WithDecoder(v: Vars, d: Spawn): Vars
  {
    if d.pid < 0 then v.(gstPid := d.pid) else v.(gstPid := d.pid, gstInFp := d.stdinFd, gstOutFp := d.stdoutFd)
  }

  /** The teardown of lines 315-328 and 440-454: close the client, kill the decoder, close the
      fifo, each only when it is open, and mark each as gone with -1. */
  function TornDown(v: Vars): Outcome
  {
    var client := if v.clientSock > 0 then [Close(v.clientSock)] else [];
    var decoder := if v.gstPid > 0 then [Kill(v.gstPid)] else [];
    var fifo := if v.fifoFp > 0 then [Close(v.fifoFp)] else [];
    var v1 := if v.clientSock > 0 then v.(clientSock := -1) else v;
    var v2 := if v.gstPid > 0 then v1.(gstPid := -1, gstInFp := -1, gstOutFp := -1) else v1;
    var v3 := if v.fifoFp > 0 then v2.(fifoFp := -1) else v2;
    Outcome(v3, client + decoder + fifo)
  }

  function Replies(peer: string, localAddresses: seq<string>): seq<Effect>
  {
    seq(|localAddresses|, i requires 0 <= i < |localAddresses| => Reply(peer, DiscoverReply(localAddresses[i])))
  }

  function AfterDiscovery(v: Vars, datagram: Option<seq<byte>>, stale: seq<byte>, peer: string,
                          localAddresses: seq<string>): Outcome
  {
    if datagram.Some? && Answers(datagram.value, stale) then Outcome(v, Replies(peer, localAddresses))
    else Outcome(v, [])
  }

  function AfterListen(v: Vars, accepted: int, d: Spawn): Outcome
  {
    if v.clientSock >= 0 then Outcome(v, [])
    else if accepted < 0 then Outcome(v.(clientSock := accepted), [])
    else Outcome(WithDecoder(v.(clientSock := accepted, justConnect := true), d), [Launch(None)])
  }

  /** Whether the chunk is read as the handshake: the first chunk after accept whose C string
      holds a line break. */
  predicate IsControl(v: Vars, data: seq<byte>)
  {
    v.justConnect && IndexOf(CString(data), CRLF) >= 0
  }

  function AfterRead(v: Vars, read: Read, d: Spawn): Outcome
  {
    var len := if read.ReadFailed? then -1 else |read.data|;
    var v1 := v.(noDataCount := if len > 0 then 0 else v.noDataCount + 1);
    if len < 0 || v1.noDataCount > MAX_EMPTY_READS then TornDown(v1)
    else if IsControl(v1, read.data) then AfterHandshake(v1, read.data, d)
    else Outcome(v1, if v1.gstInFp > 0 then [Pipe(v1.gstInFp, read.data)] else [])
  }

  /** The handshake chunk: parse the size, start the decoder, forward what follows the
      header. */
  function AfterHandshake(v: Vars, data: seq<byte>, d: Spawn): Outcome
  {
    var caps := ControlCaps(data);
    if caps.None? then Outcome(v.(crashed := true), [])
    else
      var v2 := WithDecoder(v, d).(justConnect := false);
      var rest := AfterControl(data);
      Outcome(v2, [Launch(caps)] + if rest != [] && v2.gstInFp > 0 then [Pipe(v2.gstInFp, rest)] else [])
  }

  function AfterTimeout(v: Vars): Outcome
  {
    if v.gstPid <= 0 then Outcome(v, [])
    else
      var v1 := v.(noDataCount := v.noDataCount + 1);
      if v1.noDataCount > MAX_IDLE_TIMEOUTS then TornDown(v1) else Outcome(v1, [])
  }

  /** One turn of the loop. The client socket is only watched while it is above 0; a dead
      process does nothing more. */
  function Next(v: Vars, w: Wakeup): Outcome
  {
    if v.crashed then Outcome(v, [])
    else match w
      case SelectFailed => Outcome(v, [])
      case SelectTimedOut => AfterTimeout(v)
      case DiscoveryReady(datagram, stale, peer, addrs) => AfterDiscovery(v, datagram, stale, peer, addrs)
      case ListenReady(accepted, d) => AfterListen(v, accepted, d)
      case ClientReady(read, d) => if v.clientSock > 0 then AfterRead(v, read, d) else Outcome(v, [])
  }

  /** The loop over a list of wake-ups: the final variables and every effect, in order. */
  function Run(v: Vars, ws: seq<Wakeup>): Outcome
    decreases |ws|
  {
    if ws == [] then Outcome(v, [])
    else
      var o := Run(v, ws[..|ws| - 1]);
      var n := Next(o.vars, ws[|ws| - 1]);
      Outcome(n.vars, o.effects + n.effects)
  }

  // ---------------------------------------------------------------------------------------
  // What the loop promises

  /** A connection is accepted only when there is no client: otherwise nothing changes. */
  lemma AcceptOnlyWhenIdle(v: Vars, accepted: int, d: Spawn)
    requires v.clientSock >= 0
    ensures Next(v, ListenReady(accepted, d)) == Outcome(v, [])
  {
  }

  /** An accepted connection becomes the client, awaits its handshake and gets a decoder; the
      no-data count is left as the previous client left it. */
  lemma AcceptStartsDecoder(v: Vars, accepted: int, d: Spawn)
    requires !v.crashed && v.clientSock < 0 && accepted >= 0
    ensures var o := Next(v, ListenReady(accepted, d));
      o.vars.clientSock == accepted && o.vars.justConnect && o.vars.gstPid == d.pid
      && o.vars.noDataCount == v.noDataCount && o.effects == [Launch(None)]
  {
  }

  /** A read that brings data resets the no-data count and keeps the client. */
  lemma DataResetsCount(v: Vars, data: seq<byte>, d: Spawn)
    requires !v.crashed && v.clientSock > 0 && data != []
    ensures var o := Next(v, ClientReady(Received(data), d));
      o.vars.noDataCount == 0 && o.vars.clientSock == v.clientSock
  {
  }

  /** An empty read (end of stream) counts; the third in a row closes the client. */
  lemma EmptyReadCounts(v: Vars, d: Spawn)
    requires !v.crashed && v.clientSock > 0
    ensures var o := Next(v, ClientReady(Received([]), d));
      o.vars.noDataCount == v.noDataCount + 1
      && (o.vars.clientSock == -1 <==> v.noDataCount + 1 > MAX_EMPTY_READS)
  {
  }

  /** A failed read tears everything down: the client is closed, and a running decoder is
      killed with its pipe ends forgotten. */
  lemma ReadErrorTearsDown(v: Vars, d: Spawn)
    requires !v.crashed && v.clientSock > 0
    ensures var o := Next(v, ClientReady(ReadFailed, d));
      o.vars.clientSock == -1 && o.effects[0] == Close(v.clientSock)
      && (v.gstPid > 0 ==> (o.vars.gstPid == -1 && o.vars.gstInFp == -1 && o.vars.gstOutFp == -1
                           && o.effects[1] == Kill(v.gstPid)))
      && (v.gstPid <= 0 ==> o.vars.gstPid == v.gstPid && o.vars.gstInFp == v.gstInFp)
  {
  }

  /** From a fresh count, two empty reads keep the client and the third closes it. */
  lemma ThreeEmptyReadsClose(v: Vars, d: Spawn)
    requires !v.crashed && v.clientSock > 0 && v.noDataCount == 0
    ensures Run(v, [ClientReady(Received([]), d), ClientReady(Received([]), d)]).vars.clientSock == v.clientSock
    ensures Run(v, [ClientReady(Received([]), d), ClientReady(Received([]), d), ClientReady(Received([]), d)]).vars.clientSock == -1
  {
    var e := ClientReady(Received([]), d);
    assert [e, e][..1] == [e];
    assert [e, e, e][..2] == [e, e];
    assert [e][..0] == [];
    var o1 := Next(v, e);
    assert Run(v, [e]).vars == o1.vars;
    assert o1.vars.clientSock == v.clientSock && o1.vars.noDataCount == 1 && !o1.vars.crashed;
    var o2 := Next(o1.vars, e);
    assert Run(v, [e, e]).vars == o2.vars;
    assert o2.vars.clientSock == v.clientSock && o2.vars.noDataCount == 2 && !o2.vars.crashed;
    assert Run(v, [e, e, e]).vars == Next(o2.vars, e).vars;
  }

  function Repeat(w: Wakeup, n: nat): (ws: seq<Wakeup>)
    ensures |ws| == n && forall i :: 0 <= i < n ==> ws[i] == w
  {
    if n == 0 then [] else Repeat(w, n - 1) + [w]
  }

  /** While a decoder runs, each timeout adds one to the count and does nothing else, as long
      as the count stays at most 10. */
  lemma {:induction false} TimeoutsCount(v: Vars, n: nat)
    requires !v.crashed && v.gstPid > 0 && v.noDataCount + n <= MAX_IDLE_TIMEOUTS
    ensures Run(v, Repeat(SelectTimedOut, n)) == Outcome(v.(noDataCount := v.noDataCount + n), [])
  {
    if n > 0 {
      TimeoutsCount(v, n - 1);
      assert Repeat(SelectTimedOut, n)[..n - 1] == Repeat(SelectTimedOut, n - 1);
    }
  }

  /** Eleven timeouts in a row while a decoder runs (about 30 s without data, counted from a
      fresh count) close the client and kill the decoder. */
  lemma IdleTimeoutsClose(v: Vars)
    requires !v.crashed && v.gstPid > 0 && v.noDataCount == 0
    ensures var o := Run(v, Repeat(SelectTimedOut, MAX_IDLE_TIMEOUTS + 1));
      o.vars.gstPid == -1 && o.vars.gstInFp == -1 && o.vars.gstOutFp == -1
      && Kill(v.gstPid) in o.effects
      && (v.clientSock > 0 ==> o.vars.clientSock == -1 && Close(v.clientSock) in o.effects)
  {
    var ws := Repeat(SelectTimedOut, MAX_IDLE_TIMEOUTS + 1);
    TimeoutsCount(v, MAX_IDLE_TIMEOUTS);
    assert ws[..MAX_IDLE_TIMEOUTS] == Repeat(SelectTimedOut, MAX_IDLE_TIMEOUTS);
  }

  /** The handshake chunk starts the decoder with the parsed size, clears justConnect and
      sends the decoder the bytes after the header's end. */
  lemma ControlChunkForwards(v: Vars, data: seq<byte>, d: Spawn)
    requires !v.crashed && v.clientSock > 0 && data != [] && IsControl(v, data)
    requires ControlCaps(data).Some?
    ensures var o := Next(v, ClientReady(Received(data), d));
      !o.vars.justConnect && o.vars.gstPid == d.pid && o.vars.clientSock == v.clientSock
      && o.effects[0] == Launch(ControlCaps(data))
      && (AfterControl(data) != [] && o.vars.gstInFp > 0 ==> o.effects == [Launch(ControlCaps(data)), Pipe(o.vars.gstInFp, AfterControl(data))])
      && (AfterControl(data) == [] || o.vars.gstInFp <= 0 ==> o.effects == [Launch(ControlCaps(data))])
  {
  }

  /** After the handshake every chunk goes to the decoder whole. */
  lemma LaterChunkForwardedWhole(v: Vars, data: seq<byte>, d: Spawn)
    requires !v.crashed && v.clientSock > 0 && data != [] && !v.justConnect
    ensures var o := Next(v, ClientReady(Received(data), d));
      o.vars == v.(noDataCount := 0)
      && o.effects == if v.gstInFp > 0 then [Pipe(v.gstInFp, data)] else []
  {
  }

  /** The decoder started at accept is replaced, not killed, when the handshake starts the
      second one: nothing in the two steps kills it, and the loop no longer holds its pid. */
  lemma AcceptedDecoderOrphaned(v: Vars, accepted: int, first: Spawn, data: seq<byte>, second: Spawn)
    requires !v.crashed && v.clientSock < 0 && accepted > 0 && first.pid > 0 && second.pid != first.pid
    requires data != [] && IndexOf(CString(data), CRLF) >= 0 && ControlCaps(data).Some?
    ensures var o := Run(v, [ListenReady(accepted, first), ClientReady(Received(data), second)]);
      o.vars.gstPid == second.pid && Kill(first.pid) !in o.effects
  {
    var w1, w2 := ListenReady(accepted, first), ClientReady(Received(data), second);
    var o1 := Run(v, [w1]);
    AcceptLaunches(v, accepted, first);
    var o2 := Next(o1.vars, w2);
    HandshakeLaunches(o1.vars, data, second);
    assert [w1, w2][..1] == [w1];
    assert Run(v, [w1, w2]) == Outcome(o2.vars, o1.effects + o2.effects);
  }

  /** Accepting a client on an idle loop launches the first decoder and kills nothing. */
  lemma AcceptLaunches(v: Vars, accepted: int, first: Spawn)
    requires !v.crashed && v.clientSock < 0 && accepted > 0
    ensures var o := Run(v, [ListenReady(accepted, first)]);
      o.effects == [Launch(None)] && !o.vars.crashed && o.vars.clientSock == accepted && o.vars.justConnect
  {
    assert [ListenReady(accepted, first)][..0] == [];
    assert Run(v, []) == Outcome(v, []);
  }

  /** The handshake chunk on a freshly accepted client launches a second decoder, records its
      pid, and kills nothing. */
  lemma HandshakeLaunches(u: Vars, data: seq<byte>, second: Spawn)
    requires !u.crashed && u.clientSock > 0 && u.justConnect
    requires data != [] && IndexOf(CString(data), CRLF) >= 0 && ControlCaps(data).Some?
    ensures var o := Next(u, ClientReady(Received(data), second));
      o.vars.gstPid == second.pid && forall e :: e in o.effects ==> !e.Kill?
  {
    var u1 := u.(noDataCount := 0);
    assert IsControl(u1, data);
    assert Next(u, ClientReady(Received(data), second)) == AfterRead(u, Received(data), second);
    assert AfterRead(u, Received(data), second) == AfterHandshake(u1, data, second);
  }

  /** A process that died stays dead: nothing more happens. */
  lemma {:induction false} CrashIsFinal(v: Vars, ws: seq<Wakeup>)
    requires v.crashed
    ensures Run(v, ws) == Outcome(v, [])
    decreases |ws|
  {
    if ws != [] {
      CrashIsFinal(v, ws[..|ws| - 1]);
    }
  }

  /** The default build never opens the fifo: whatever happens, fifo_fp stays -1. */
  lemma {:induction false} FifoNeverOpened(ws: seq<Wakeup>)
    ensures Run(Initial, ws).vars.fifoFp == -1
    decreases |ws|
  {
    if ws != [] {
      FifoNeverOpened(ws[..|ws| - 1]);
    }
  }

  // ---------------------------------------------------------------------------------------
  // The loop itself

  /** main's locals that outlive one turn of the loop, and what the loop has done so far. */
  class Receiver {
    var clientSock: int
    var justConnect: bool
    var noDataCount: int
    var gstPid: int
    var gstInFp: int
    var gstOutFp: int
    var fifoFp: int
    var crashed: bool
    var effects: seq<Effect>

    function State(): Vars
      reads this
    {
      Vars(clientSock, justConnect, noDataCount, gstPid, gstInFp, gstOutFp, fifoFp, crashed)
    }

    constructor ()
      ensures State() == Initial && effects == []
    {
      clientSock := -1;
      justConnect := false;
      noDataCount := 0;
      gstPid := -1;
      gstInFp := -1;
      gstOutFp := -1;
      fifoFp := -1;
      crashed := false;
      effects := [];
    }

    /** popen2: the decoder's pid, and its pipe ends when the fork succeeded. */
    method StartDecoder(d: Spawn, caps: Option<Caps>)
      modifies this
      ensures State() == WithDecoder(old(State()), d)
      ensures effects == old(effects) + [Launch(caps)]
    {
      gstPid := d.pid;
      if d.pid >= 0 {
        gstInFp := d.stdinFd;
        gstOutFp := d.stdoutFd;
      }
      effects := effects + [Launch(caps)];
    }

    /** The teardown: close the client, kill the decoder, close the fifo. */
    method CloseAll()
      modifies this
      ensures State() == TornDown(old(State())).vars
      ensures effects == old(effects) + TornDown(old(State())).effects
    {
      var done: seq<Effect> := [];
      if clientSock > 0 {
        done := done + [Close(clientSock)];
        clientSock := -1;
      }
      if gstPid > 0 {
        done := done + [Kill(gstPid)];
        gstPid := -1;
        gstInFp := -1;
        gstOutFp := -1;
      }
      if fifoFp > 0 {
        done := done + [Close(fifoFp)];
        fifoFp := -1;
      }
      effects := effects + done;
    }

    /** The discovery branch (lines 221-259): a matching datagram is answered once per local
        address, on the discovery socket, to its sender. */
    method OnDiscovery(datagram: Option<seq<byte>>, stale: seq<byte>, peer: string, localAddresses: seq<string>)
      modifies this
      ensures State() == old(State())
      ensures effects == old(effects) + AfterDiscovery(old(State()), datagram, stale, peer, localAddresses).effects
    {
      if datagram.None? {
        return;
      }
      var buf := BroadcastBuffer(datagram.value, stale);
      if |buf| >= 5 && buf[..5] == DISCOVER_MSG {
        var i := 0;
        while i < |localAddresses|
          invariant 0 <= i <= |localAddresses|
          invariant State() == old(State())
          invariant effects == old(effects) + Replies(peer, localAddresses[..i])
        {
          assert Replies(peer, localAddresses[..i + 1])
            == Replies(peer, localAddresses[..i]) + [Reply(peer, DiscoverReply(localAddresses[i]))];
          effects := effects + [Reply(peer, DiscoverReply(localAddresses[i]))];
          i := i + 1;
        }
        assert localAddresses[..i] == localAddresses;
      }
    }

    /** The listening branch (lines 260-304). */
    method OnListen(accepted: int, d: Spawn)
      modifies this
      ensures State() == AfterListen(old(State()), accepted, d).vars
      ensures effects == old(effects) + AfterListen(old(State()), accepted, d).effects
    {
      if clientSock < 0 {
        clientSock := accepted;
        if clientSock >= 0 {
          justConnect := true;
          StartDecoder(d, None);
        }
      }
    }

    /** The client branch (lines 305-432). */
    method OnClientData(read: Read, d: Spawn)
      modifies this
      ensures State() == AfterRead(old(State()), read, d).vars
      ensures effects == old(effects) + AfterRead(old(State()), read, d).effects
    {
      var len := if read.ReadFailed? then -1 else |read.data|;
      if len > 0 {
        noDataCount := 0;
      } else {
        noDataCount := noDataCount + 1;
      }
      if len < 0 || noDataCount > MAX_EMPTY_READS {
        CloseAll();
        return;
      }
      var data := read.data;
      if justConnect && IndexOf(CString(data), CRLF) >= 0 {
        OnHandshake(data, d);
      } else if gstInFp > 0 {
        effects := effects + [Pipe(gstInFp, data)];
      }
    }

    /** The handshake part of the client branch (lines 333-411). */
    method OnHandshake(data: seq<byte>, d: Spawn)
      modifies this
      ensures State() == AfterHandshake(old(State()), data, d).vars
      ensures effects == old(effects) + AfterHandshake(old(State()), data, d).effects
    {
      var end := IndexOf(CString(data), CRLFCRLF);
      var bdataLen := 0;
      if end >= 0 {
        bdataLen := |data| - (end + 4);
      }
      var caps := ParseControl(data);
      if caps.None? {
        crashed := true;
        return;
      }
      StartDecoder(d, caps);
      justConnect := false;
      if bdataLen > 0 && gstInFp > 0 {
        effects := effects + [Pipe(gstInFp, data[end + 4..])];
      }
    }

    /** The idle branch (lines 433-458). */
    method OnTimeout()
      modifies this
      ensures State() == AfterTimeout(old(State())).vars
      ensures effects == old(effects) + AfterTimeout(old(State())).effects
    {
      if gstPid > 0 {
        noDataCount := noDataCount + 1;
        if noDataCount > MAX_IDLE_TIMEOUTS {
          CloseAll();
        }
      }
    }

    /** One turn of the loop. */
    method Wake(w: Wakeup)
      modifies this
      ensures State() == Next(old(State()), w).vars
      ensures effects == old(effects) + Next(old(State()), w).effects
    {
      if crashed {
        return;
      }
      match w {
        case SelectFailed =>
        case SelectTimedOut =>
          OnTimeout();
        case DiscoveryReady(datagram, stale, peer, addrs) =>
          OnDiscovery(datagram, stale, peer, addrs);
        case ListenReady(accepted, d) =>
          OnListen(accepted, d);
        case ClientReady(read, d) =>
          if clientSock > 0 {
            OnClientData(read, d);
          }
      }
    }
  }

  lemma RunStep(v: Vars, ws: seq<Wakeup>, i: nat)
    requires i < |ws|
    ensures Run(v, ws[..i + 1])
      == Outcome(Next(Run(v, ws[..i]).vars, ws[i]).vars, Run(v, ws[..i]).effects + Next(Run(v, ws[..i]).vars, ws[i]).effects)
  {
    assert ws[..i + 1][..i] == ws[..i];
  }

  /** The `for (;;)` loop over the wake-ups `select` delivers. */
  method Serve(r: Receiver, ws: seq<Wakeup>)
    modifies r
    ensures r.State() == Run(old(r.State()), ws).vars
    ensures r.effects == old(r.effects) + Run(old(r.State()), ws).effects
  {
    ghost var v0, e0 := r.State(), r.effects;
    ghost var done: seq<Effect> := [];
    var i := 0;
    while i < |ws|
      invariant 0 <= i <= |ws|
      invariant r.State() == Run(v0, ws[..i]).vars
      invariant done == Run(v0, ws[..i]).effects
      invariant r.effects == e0 + done
    {
      ghost var step := Next(r.State(), ws[i]);
      RunStep(v0, ws, i);
      r.Wake(ws[i]);
      AppendAssoc(e0, done, step.effects);
      done := done + step.effects;
      i := i + 1;
    }
    assert ws[..|ws|] == ws;
  }

}

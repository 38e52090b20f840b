/** How the sender and the two receivers fit together: the discovery "hello" both receivers
    answer, the "mirror" line cs_receiver_conn.py sends to the sender's listener, and the
    handshake header that both receivers skip before they hand the stream to the player. */
module Interop {
  import opened Bytes
  import opened Wrappers
  import opened Text
  import CastService
  import MainActivity
  import CsReceiver
  import PyReceiver

  const CRLF: seq<byte> := [13, 10]
  const CRLFCRLF: seq<byte> := [13, 10, 13, 10]

  // ---------------------------------------------------------------------------------------
  // Header blocks: lines, each followed by "\r\n"

  function Lines(ls: seq<seq<byte>>): seq<byte>
  {
    if ls == [] then [] else ls[0] + CRLF + Lines(ls[1..])
  }

  /** A header line: not empty, no line break inside, no NUL. */
  predicate GoodLine(l: seq<byte>)
  {
    l != [] && NoDelim(l) && 0 !in l
  }

  predicate GoodLines(ls: seq<seq<byte>>)
  {
    forall i :: 0 <= i < |ls| ==> GoodLine(ls[i])
  }

  lemma {:induction false} LinesNoNul(ls: seq<seq<byte>>)
    requires GoodLines(ls)
    ensures 0 !in Lines(ls)
  {
    if ls != [] {
      assert GoodLine(ls[0]);
      LinesNoNul(ls[1..]);
    }
  }

  lemma Regroup(l: seq<byte>, r: seq<byte>, rest: seq<byte>)
    ensures l + CRLF + r + rest == l + ([13] + ([10] + (r + rest)))
  {
  }

  lemma CrlfThen(l: seq<byte>, rest: seq<byte>)
    ensures l + CRLF + rest == l + ([13] + ([10] + rest))
  {
  }

  /** A line, then "\r\n": the line is the next token and the line break is skipped. */
  lemma TokensOneLine(l: seq<byte>, after: seq<byte>)
    requires GoodLine(l)
    ensures Tokens(l + ([13] + ([10] + after))) == [l] + Tokens(after)
  {
    TokensLine(l, [13] + ([10] + after));
    TokensSkip(13, [10] + after);
    TokensSkip(10, after);
  }

  /** strtok over a header block yields its lines, in order, and goes on with what follows. */
  lemma {:induction false} TokensLines(ls: seq<seq<byte>>, rest: seq<byte>)
    requires GoodLines(ls)
    ensures Tokens(Lines(ls) + rest) == ls + Tokens(rest)
  {
    if ls == [] {
      assert Lines(ls) + rest == rest;
    } else {
      var l, r := ls[0], Lines(ls[1..]);
      assert GoodLine(l);
      calc {
        Tokens(Lines(ls) + rest);
        { Regroup(l, r, rest); }
        Tokens(l + ([13] + ([10] + (r + rest))));
        { TokensOneLine(l, r + rest); }
        [l] + Tokens(r + rest);
        { TokensLines(ls[1..], rest); }
        [l] + (ls[1..] + Tokens(rest));
        { AppendAssoc([l], ls[1..], Tokens(rest)); assert [l] + ls[1..] == ls; }
        ls + Tokens(rest);
      }
    }
  }

  /** A non-empty header block ends with "\r\n". */
  lemma {:induction false} LinesEnd(ls: seq<seq<byte>>)
    requires ls != []
    ensures |Lines(ls)| >= 2 && Lines(ls)[|Lines(ls)| - 2..] == CRLF
  {
    if ls[1..] != [] {
      LinesEnd(ls[1..]);
    }
  }

  /** Inside a header block a line feed is never followed by a carriage return: after each
      "\r\n" comes the first byte of a line. */
  lemma {:induction false} LinesNoLfCr(ls: seq<seq<byte>>)
    requires GoodLines(ls)
    ensures forall i :: 0 <= i && i + 1 < |Lines(ls)| && Lines(ls)[i] == 10 ==> Lines(ls)[i + 1] != 13
  {
    if ls != [] {
      var l, s, r := ls[0], Lines(ls), Lines(ls[1..]);
      assert GoodLine(l);
      assert s == l + CRLF + r;
      LinesNoLfCr(ls[1..]);
      forall i | 0 <= i && i + 1 < |s|
        ensures s[i] == 10 ==> s[i + 1] != 13
      {
        if i < |l| {
          assert s[i] == l[i];
        } else if i == |l| + 1 {
          assert GoodLine(ls[1..][0]);
          assert r == ls[1..][0] + CRLF + Lines(ls[1..][1..]);
          assert s[i + 1] == r[0] == ls[1..][0][0];
        } else if i > |l| + 1 {
          assert s[i] == r[i - |l| - 2] && s[i + 1] == r[i - |l| - 1];
        }
      }
    }
  }

  /** The first "\r\n\r\n" after a header block is the blank line that closes it, whatever
      follows. */
  lemma HeaderEnd(ls: seq<seq<byte>>, tail: seq<byte>)
    requires ls != [] && GoodLines(ls)
    ensures IndexOf(Lines(ls) + CRLF + tail, CRLFCRLF) == |Lines(ls)| - 2
  {
    var b, s := Lines(ls), Lines(ls) + CRLF + tail;
    LinesEnd(ls);
    LinesNoLfCr(ls);
    var m := |b|;
    assert s[m - 2..m + 2] == b[m - 2..] + CRLF;
    forall j | 0 <= j < m - 2
      ensures !MatchAt(s, CRLFCRLF, j)
    {
      assert s[j..j + 4][1] == s[j + 1] == b[j + 1];
      assert s[j..j + 4][2] == s[j + 2] == b[j + 2];
    }
    IndexOfFirst(s, CRLFCRLF, m - 2);
  }

  // ---------------------------------------------------------------------------------------
  // The sender's handshake header as a header block

  const REQUEST_LINE := "POST /api/v1/h264 HTTP/1.1"
  const CONNECTION_LINE := "Connection: close"

  function WidthLine(width: int): seq<byte>
  {
    Ascii("X-WIDTH:" + (" " + Decimal(width)))
  }

  function HeightLine(height: int): seq<byte>
  {
    Ascii("X-HEIGHT:" + (" " + Decimal(height)))
  }

  function HandshakeLines(width: int, height: int): seq<seq<byte>>
  {
    [Ascii(REQUEST_LINE), Ascii(CONNECTION_LINE), WidthLine(width), HeightLine(height)]
  }

  lemma LinesCons(l: seq<byte>, ls: seq<seq<byte>>)
    ensures Lines([l] + ls) == l + CRLF + Lines(ls)
  {
    assert ([l] + ls)[1..] == ls;
  }

  lemma AsciiCrlf(p: string)
    ensures Ascii(p + "\r\n") == Ascii(p) + CRLF
  {
    AsciiAppend(p, "\r\n");
    assert Ascii("\r\n") == CRLF;
  }

  lemma AsciiLine(p: string, x: string)
    ensures Ascii(p + x + "\r\n") == Ascii(p) + Ascii(x) + CRLF
  {
    AsciiCrlf(p + x);
    AsciiAppend(p, x);
  }

  lemma FourLinesFlat(l1: seq<byte>, l2: seq<byte>, l3: seq<byte>, l4: seq<byte>)
    ensures Lines([l1, l2, l3, l4]) + CRLF == l1 + CRLF + l2 + CRLF + l3 + CRLF + l4 + CRLF + CRLF
  {
    LinesCons(l4, []);
    LinesCons(l3, [l4]);
    LinesCons(l2, [l3, l4]);
    LinesCons(l1, [l2, l3, l4]);
    assert [l1] + [l2, l3, l4] == [l1, l2, l3, l4];
  }

  /** Four lines, each followed by "\r\n", and a blank line, turned into bytes. */
  lemma AsciiFourLines(a: string, b: string, c: string, d: string)
    ensures Ascii(a + "\r\n" + b + "\r\n" + c + "\r\n" + d + "\r\n" + "\r\n")
      == Lines([Ascii(a), Ascii(b), Ascii(c), Ascii(d)]) + CRLF
  {
    var n := "\r\n";
    calc {
      Ascii(a + n + b + n + c + n + d + n + n);
    == { AsciiCrlf(a + n + b + n + c + n + d + n); }
      Ascii(a + n + b + n + c + n + d + n) + CRLF;
    == { AsciiLine(a + n + b + n + c + n, d); }
      Ascii(a + n + b + n + c + n) + Ascii(d) + CRLF + CRLF;
    == { AsciiLine(a + n + b + n, c); }
      Ascii(a + n + b + n) + Ascii(c) + CRLF + Ascii(d) + CRLF + CRLF;
    == { AsciiLine(a + n, b); }
      Ascii(a + n) + Ascii(b) + CRLF + Ascii(c) + CRLF + Ascii(d) + CRLF + CRLF;
    == { AsciiCrlf(a); }
      Ascii(a) + CRLF + Ascii(b) + CRLF + Ascii(c) + CRLF + Ascii(d) + CRLF + CRLF;
    == { FourLinesFlat(Ascii(a), Ascii(b), Ascii(c), Ascii(d)); }
      Lines([Ascii(a), Ascii(b), Ascii(c), Ascii(d)]) + CRLF;
    }
  }

  /** The request text's shape, with its parts left open. */
  lemma RequestRegroup(r: string, c: string, wk: string, dw: string, hk: string, dh: string)
    ensures (r + "\r\n") + (c + "\r\n") + (wk + " ") + dw + "\r\n" + (hk + " ") + dh + "\r\n" + "\r\n"
      == r + "\r\n" + c + "\r\n" + (wk + (" " + dw)) + "\r\n" + (hk + (" " + dh)) + "\r\n" + "\r\n"
  {
  }

  /** The request text the sender writes is four header lines and a blank line. */
  lemma HandshakeIsLines(width: int, height: int)
    ensures Ascii(CastService.HttpMessage(width, height)) == Lines(HandshakeLines(width, height)) + CRLF
  {
    assert "POST /api/v1/h264 HTTP/1.1\r\n" == REQUEST_LINE + "\r\n";
    assert "Connection: close\r\n" == CONNECTION_LINE + "\r\n";
    assert "X-WIDTH: " == "X-WIDTH:" + " " && "X-HEIGHT: " == "X-HEIGHT:" + " ";
    RequestRegroup(REQUEST_LINE, CONNECTION_LINE, "X-WIDTH:", Decimal(width), "X-HEIGHT:", Decimal(height));
    AsciiFourLines(REQUEST_LINE, CONNECTION_LINE, "X-WIDTH:" + (" " + Decimal(width)), "X-HEIGHT:" + (" " + Decimal(height)));
  }

  /** Printable ASCII characters, none of them x. */
  predicate PrintableWithout(s: string, x: char)
  {
    forall i :: 0 <= i < |s| ==> ' ' <= s[i] <= '~' && s[i] != x
  }

  lemma PrintableAppend(a: string, b: string, x: char)
    requires PrintableWithout(a, x) && PrintableWithout(b, x)
    ensures PrintableWithout(a + b, x)
  {
    forall i | 0 <= i < |a + b|
      ensures ' ' <= (a + b)[i] <= '~' && (a + b)[i] != x
    {
      if i >= |a| {
        assert (a + b)[i] == b[i - |a|];
      }
    }
  }

  /** The bytes of printable text: no line break, no NUL, and not the byte of x. */
  lemma PrintableBytes(s: string, x: char)
    requires PrintableWithout(s, x) && x <= '~'
    ensures NoDelim(Ascii(s)) && 0 !in Ascii(s) && (x as int) as byte !in Ascii(s)
  {
    forall i | 0 <= i < |s|
      ensures Ascii(s)[i] as int == s[i] as int
    {
    }
  }

  /** A decimal number is an optional minus sign and digits. */
  lemma DecimalPrintable(n: int, x: char)
    requires x != '-' && !IsDigitChar(x)
    ensures PrintableWithout(Decimal(n), x)
  {
    var digits := NatDigits(if n < 0 then -n else n);
    if n < 0 {
      assert PrintableWithout("-", x);
      PrintableAppend("-", digits, x);
    }
  }

  lemma RequestLinePrintable()
    ensures PrintableWithout(REQUEST_LINE, 'X')
  {
  }

  lemma ConnectionLinePrintable()
    ensures PrintableWithout(CONNECTION_LINE, 'X')
  {
  }

  /** The two size keys: the width key has no 'E' and no blank, the height key no 'W' and no
      blank. */
  lemma KeysPrintable()
    ensures PrintableWithout("X-WIDTH:", 'E') && PrintableWithout("X-WIDTH:", ' ')
    ensures PrintableWithout("X-HEIGHT:", 'W') && PrintableWithout("X-HEIGHT:", ' ')
    ensures PrintableWithout(" ", 'E') && PrintableWithout(" ", 'W')
  {
  }

  /** A key, a blank and a decimal number, as bytes: the key at the start, the first blank
      right after it, and the number after that. */
  lemma KeyValueLine(key: string, n: int, x: char)
    requires key != [] && PrintableWithout(key, ' ') && PrintableWithout(key, x) && PrintableWithout(" ", x)
    requires x != '-' && !IsDigitChar(x) && x <= '~'
    ensures var l := Ascii(key + (" " + Decimal(n)));
      GoodLine(l) && (x as int) as byte !in l
      && MatchAt(l, Ascii(key), 0)
      && IndexOf(l, [BLANK]) == |key|
      && l[|key|..] == Ascii(" " + Decimal(n))
  {
    var l := Ascii(key + (" " + Decimal(n)));
    DecimalPrintable(n, x);
    PrintableAppend(" ", Decimal(n), x);
    PrintableAppend(key, " " + Decimal(n), x);
    PrintableBytes(key + (" " + Decimal(n)), x);
    PrintableBytes(key, ' ');
    AsciiAppend(key, " " + Decimal(n));
    assert l[..|key|] == Ascii(key);
    assert l[|key|..|key| + 1] == [BLANK];
    forall j | 0 <= j < |key|
      ensures !MatchAt(l, [BLANK], j)
    {
      assert l[j..j + 1][0] == Ascii(key)[j];
    }
    IndexOfFirst(l, [BLANK], |key|);
  }

  lemma HandshakeLinesGood(width: int, height: int)
    ensures GoodLines(HandshakeLines(width, height))
  {
    RequestLinePrintable();
    ConnectionLinePrintable();
    PrintableBytes(REQUEST_LINE, 'X');
    PrintableBytes(CONNECTION_LINE, 'X');
    KeysPrintable();
    KeyValueLine("X-WIDTH:", width, 'E');
    KeyValueLine("X-HEIGHT:", height, 'W');
  }

  // ---------------------------------------------------------------------------------------
  // Both receivers skip the header

  /** cs_receiver.py and cs_receiver_conn.py forward from the first chunk exactly what follows
      the sender's request text. */
  lemma PyReceiverSkipsRequest(width: int, height: int, tail: seq<byte>)
    ensures PyReceiver.FirstChunk(Ascii(CastService.HttpMessage(width, height)) + tail) == tail
  {
    var ls := HandshakeLines(width, height);
    HandshakeIsLines(width, height);
    HandshakeLinesGood(width, height);
    HeaderEnd(ls, tail);
    assert |Lines(ls)| > 2 by {
      assert Lines(ls) == ls[0] + CRLF + Lines(ls[1..]);
    }
  }

  /** cs_receiver.c forwards from its first chunk exactly what follows the request text. */
  lemma CsReceiverSkipsRequest(width: int, height: int, tail: seq<byte>)
    ensures CsReceiver.AfterControl(Ascii(CastService.HttpMessage(width, height)) + tail) == tail
  {
    var ls := HandshakeLines(width, height);
    var h := Ascii(CastService.HttpMessage(width, height));
    HandshakeIsLines(width, height);
    HandshakeLinesGood(width, height);
    LinesNoNul(ls);
    CStringAppend(h, tail);
    HeaderEnd(ls, CString(tail));
    assert CString(h + tail) == Lines(ls) + CRLF + CString(tail);
  }

  /** strtok over the C string of a header block, its blank line and what follows: the
      block's lines, then the lines of what follows. */
  lemma HeaderTokens(ls: seq<seq<byte>>, tail: seq<byte>)
    requires GoodLines(ls)
    ensures Tokens(CString(Lines(ls) + CRLF + tail)) == ls + Tokens(CString(tail))
  {
    var t := CString(tail);
    calc {
      Tokens(CString(Lines(ls) + CRLF + tail));
      { LinesNoNul(ls); CStringAppend(Lines(ls) + CRLF, tail); }
      Tokens(Lines(ls) + CRLF + t);
      { CrlfThen(Lines(ls), t); }
      Tokens(Lines(ls) + ([13] + ([10] + t)));
      { TokensLines(ls, [13] + ([10] + t)); }
      ls + Tokens([13] + ([10] + t));
      { TokensSkip(13, [10] + t); TokensSkip(10, t); }
      ls + Tokens(t);
    }
  }

  /** The lines of the header, as cs_receiver.c's strtok loop sees them, followed by those of
      whatever comes after the header. */
  lemma HandshakeTokens(width: int, height: int, tail: seq<byte>)
    ensures Tokens(CString(Ascii(CastService.HttpMessage(width, height)) + tail))
      == HandshakeLines(width, height) + Tokens(CString(tail))
  {
    HandshakeIsLines(width, height);
    HandshakeLinesGood(width, height);
    HeaderTokens(HandshakeLines(width, height), tail);
  }

  /** Lines without an 'X' leave the size as it is. */
  lemma ScanLineWithoutX(caps: CsReceiver.Caps, line: seq<byte>)
    requires 88 !in line
    ensures CsReceiver.ScanLine(caps, line) == Some(caps)
  {
    CsReceiver.KeysAreAscii();
    assert CsReceiver.X_WIDTH[0] == 88 && CsReceiver.X_HEIGHT[0] == 88;
    IndexOfMissing(line, CsReceiver.X_WIDTH, 88);
    IndexOfMissing(line, CsReceiver.X_HEIGHT, 88);
  }

  /** The "X-WIDTH:" line sets the width and keeps the height. */
  lemma ScanWidthLine(caps: CsReceiver.Caps, width: int)
    ensures CsReceiver.ScanLine(caps, WidthLine(width)) == Some(CsReceiver.Caps(width, caps.height))
  {
    var l := WidthLine(width);
    KeysPrintable();
    KeyValueLine("X-WIDTH:", width, 'E');
    CsReceiver.KeysAreAscii();
    assert CsReceiver.X_HEIGHT[3] == 69;
    IndexOfMissing(l, CsReceiver.X_HEIGHT, 69);
    assert CsReceiver.Mentions(l, CsReceiver.X_WIDTH);
    AtoiDecimal(width, []);
    assert Ascii(" " + Decimal(width)) + [] == l[8..];
  }

  /** The "X-HEIGHT:" line sets the height and keeps the width. */
  lemma ScanHeightLine(caps: CsReceiver.Caps, height: int)
    ensures CsReceiver.ScanLine(caps, HeightLine(height)) == Some(CsReceiver.Caps(caps.width, height))
  {
    var l := HeightLine(height);
    KeysPrintable();
    KeyValueLine("X-HEIGHT:", height, 'W');
    CsReceiver.KeysAreAscii();
    assert CsReceiver.X_WIDTH[2] == 87;
    IndexOfMissing(l, CsReceiver.X_WIDTH, 87);
    assert CsReceiver.Mentions(l, CsReceiver.X_HEIGHT);
    AtoiDecimal(height, []);
    assert Ascii(" " + Decimal(height)) + [] == l[9..];
  }

  lemma ScanStep(caps: CsReceiver.Caps, line: seq<byte>, lines: seq<seq<byte>>)
    ensures CsReceiver.ScanLines(Some(caps), [line] + lines) == CsReceiver.ScanLines(CsReceiver.ScanLine(caps, line), lines)
  {
    assert ([line] + lines)[1..] == lines;
  }

  /** Two lines without an 'X', then the two size lines, take the decoder size from 800x480
      to the size the size lines give. */
  lemma ScanSizeLines(l1: seq<byte>, l2: seq<byte>, width: int, height: int)
    requires 88 !in l1 && 88 !in l2
    ensures CsReceiver.ScanLines(Some(CsReceiver.Caps(CsReceiver.DEFAULT_WIDTH, CsReceiver.DEFAULT_HEIGHT)),
      [l1, l2, WidthLine(width), HeightLine(height)]) == Some(CsReceiver.Caps(width, height))
  {
    var wl, hl := WidthLine(width), HeightLine(height);
    var c0 := CsReceiver.Caps(CsReceiver.DEFAULT_WIDTH, CsReceiver.DEFAULT_HEIGHT);
    var c1 := CsReceiver.Caps(width, CsReceiver.DEFAULT_HEIGHT);
    var c2 := CsReceiver.Caps(width, height);
    ScanLineWithoutX(c0, l1);
    ScanLineWithoutX(c0, l2);
    ScanWidthLine(c0, width);
    ScanHeightLine(c1, height);
    assert [l1, l2, wl, hl] == [l1] + ([l2] + ([wl] + ([hl] + [])));
    ScanStep(c0, l1, [l2] + ([wl] + ([hl] + [])));
    ScanStep(c0, l2, [wl] + ([hl] + []));
    ScanStep(c0, wl, [hl] + []);
    ScanStep(c1, hl, []);
  }

  /** The four header lines take the decoder size from 800x480 to the size the sender
      announced. */
  lemma HandshakeLinesScan(width: int, height: int)
    ensures CsReceiver.ScanLines(Some(CsReceiver.Caps(CsReceiver.DEFAULT_WIDTH, CsReceiver.DEFAULT_HEIGHT)),
      HandshakeLines(width, height)) == Some(CsReceiver.Caps(width, height))
  {
    RequestLinePrintable();
    ConnectionLinePrintable();
    PrintableBytes(REQUEST_LINE, 'X');
    PrintableBytes(CONNECTION_LINE, 'X');
    ScanSizeLines(Ascii(REQUEST_LINE), Ascii(CONNECTION_LINE), width, height);
  }

  /** cs_receiver.c launches the decoder at the size the sender announced, provided what follows
      the header carries no line that mentions a size key. */
  lemma CsReceiverReadsSize(width: int, height: int, tail: seq<byte>)
    requires forall t :: t in Tokens(CString(tail)) ==> !CsReceiver.Mentions(t, CsReceiver.X_WIDTH) && !CsReceiver.Mentions(t, CsReceiver.X_HEIGHT)
    ensures CsReceiver.ControlCaps(Ascii(CastService.HttpMessage(width, height)) + tail)
      == Some(CsReceiver.Caps(width, height))
  {
    var ls := HandshakeLines(width, height);
    var ts := Tokens(CString(tail));
    var c0 := Some(CsReceiver.Caps(CsReceiver.DEFAULT_WIDTH, CsReceiver.DEFAULT_HEIGHT));
    HandshakeTokens(width, height, tail);
    ScanLinesConcat(c0, ls, ts);
    HandshakeLinesScan(width, height);
    assert forall i :: 0 <= i < |ts| ==> ts[i] in ts;
    CsReceiver.ScanLinesUnmentioned(CsReceiver.Caps(width, height), ts);
  }

  /** The strtok loop over two runs of lines is the loop over the first, continued over the
      second. */
  lemma {:induction false} ScanLinesConcat(caps: Option<CsReceiver.Caps>, a: seq<seq<byte>>, b: seq<seq<byte>>)
    ensures CsReceiver.ScanLines(caps, a + b) == CsReceiver.ScanLines(CsReceiver.ScanLines(caps, a), b)
    decreases |a|
  {
    if a == [] {
      assert a + b == b;
    } else if caps.None? {
      assert CsReceiver.ScanLines(caps, b) == None;
    } else {
      assert (a + b)[1..] == a[1..] + b;
      ScanLinesConcat(CsReceiver.ScanLine(caps.value, a[0]), a[1..], b);
    }
  }

  /** The H.264 handshake end to end: cs_receiver.c reads the announced size (the init blob's
      C string is its lead octet alone) and forwards the whole init blob to the decoder; the
      Python receivers forward the init blob. */
  lemma H264HandshakeUnderstood(width: int, height: int)
    requires CastService.H264Header(width, height).Some?
    ensures var bytes := CastService.HandshakeBytes(CastService.MIMETYPE_VIDEO_AVC, width, height);
      var blob := CastService.H264Header(width, height).value;
      CsReceiver.ControlCaps(bytes) == Some(CsReceiver.Caps(width, height))
      && CsReceiver.AfterControl(bytes) == blob
      && PyReceiver.FirstChunk(bytes) == blob
  {
    var blob := CastService.H264Header(width, height).value;
    assert blob[0] == 0x21 && blob[1] == 0;
    assert CString(blob) == [0x21] by {
      assert blob[1..][0] == 0;
    }
    var lead: seq<byte> := [0x21];
    assert Tokens(lead) == [lead] by {
      TokensLine(lead, []);
      assert lead + [] == lead;
    }
    IndexOfMissing(lead, CsReceiver.X_WIDTH, 88);
    IndexOfMissing(lead, CsReceiver.X_HEIGHT, 88);
    CsReceiverReadsSize(width, height, blob);
    CsReceiverSkipsRequest(width, height, blob);
    PyReceiverSkipsRequest(width, height, blob);
  }

  // ---------------------------------------------------------------------------------------
  // Discovery and the mirror request

  /** The sender's discovery message is answered by both receivers. */
  lemma DiscoveryAnswered(stale: seq<byte>, ip: string, port: int)
    ensures CsReceiver.Answers(Ascii(MainActivity.DISCOVER_MESSAGE), stale)
    ensures |PyReceiver.Responses([PyReceiver.Datagram(Ascii(MainActivity.DISCOVER_MESSAGE), ip, port)])| == 1
  {
    CsReceiver.DiscoverMsgIsHello();
    assert Ascii(MainActivity.DISCOVER_MESSAGE) == CsReceiver.DISCOVER_MSG + [];
    CsReceiver.DiscoverLongerHello([], stale);
    PyReceiver.AnswersExactHello(PyReceiver.Datagram(Ascii(MainActivity.DISCOVER_MESSAGE), ip, port));
  }

  /** Both receivers listen on the port the sender broadcasts to. */
  lemma DiscoveryPortsAgree()
    ensures CsReceiver.DISCOVER_PORT == PyReceiver.PORT == MainActivity.DISCOVER_PORT
  {
  }

  /** What cs_receiver_conn.py sends first is a mirror request for the sender's listener. */
  lemma ConnSendsMirror(more: seq<byte>)
    ensures CastService.IsMirrorRequest(Ascii("mirror\n") + more)
  {
    assert Ascii("mirror\n") + more == Ascii("mirror") + ([10] + more);
    CastService.MirrorRequestAnyCase(Ascii("mirror"), [10] + more);
  }
}

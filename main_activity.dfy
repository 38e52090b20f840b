/** The sender's front screen (MainActivity.java): the directory of receivers that the
    discovery task fills from their replies, the receiver the user picks from it, and the
    format, resolution and bitrate picked from fixed option lists. */
module MainActivity {
  import opened Bytes
  import opened Wrappers
  import opened Utils
  import CastService

  const FORMAT_OPTIONS: seq<string> := [CastService.MIMETYPE_VIDEO_AVC, CastService.MIMETYPE_VIDEO_VP8]

  /** A row of RESOLUTION_OPTIONS: width, height and density. */
  datatype Resolution = Resolution(width: int, height: int, dpi: int)

  const RESOLUTION_OPTIONS: seq<Resolution> := [Resolution(1280, 720, 320), Resolution(800, 480, 160)]
  const BITRATE_OPTIONS: seq<int> := [6144000, 4096000, 2048000, 1024000]

  const DISCOVER_PORT := 53515
  const DISCOVER_MESSAGE := "hello"

  /** Size of the discovery task's receive buffer. */
  const BUFFER_SIZE := 1024

  /** What one round of the discovery loop receives: nothing before the socket timeout, or a
      datagram with its sender's address and its payload. */
  datatype Receipt = Timeout | Reply(source: string, data: seq<byte>)

  /** A JSON parser applied to the text of the receive buffer: the object's members as strings
      (org.json's getString coerces numbers), None when the text is not a JSON object. */
  type JsonParser = seq<byte> -> Option<map<string, string>>

  /** The first n octets of data, or all of them when there are fewer. */
  function Take(data: seq<byte>, n: nat): (t: seq<byte>)
    ensures |t| <= n && t <= data
    ensures |t| == n || t == data
  {
    if |data| <= n then data else data[..n]
  }

  /** The receive buffer after Arrays.fill and a receive of `data`: the datagram, cut at the
      buffer's size, then zeros; nothing of an earlier, longer datagram is left over. */
  function BufferAfter(data: seq<byte>): (b: seq<byte>)
    ensures |b| == BUFFER_SIZE
    ensures b[..|Take(data, BUFFER_SIZE)|] == Take(data, BUFFER_SIZE)
    ensures forall i :: |Take(data, BUFFER_SIZE)| <= i < BUFFER_SIZE ==> b[i] == 0
  {
    var t := Take(data, BUFFER_SIZE);
    t + seq(BUFFER_SIZE - |t|, i => 0 as byte)
  }

  /** A reply the directory takes: longer than 9 octets, and a JSON object with members
      "name", "width" and "height". */
  predicate Accepted(r: Receipt, parse: JsonParser)
  {
    r.Reply? && |Take(r.data, BUFFER_SIZE)| > 9
    && var json := parse(BufferAfter(r.data));
    json.Some? && "name" in json.value && "width" in json.value && "height" in json.value
  }

  function NameOf(r: Receipt, parse: JsonParser): string
    requires Accepted(r, parse)
  {
    parse(BufferAfter(r.data)).value["name"]
  }

  /** One round's effect on the directory: an accepted reply maps its name to the address the
      datagram came from (the JSON "id" member plays no part); anything else changes nothing. */
  function Upsert(m: map<string, string>, r: Receipt, parse: JsonParser): (m': map<string, string>)
    ensures Accepted(r, parse) ==> m'.Keys == m.Keys + {NameOf(r, parse)} && m'[NameOf(r, parse)] == r.source
    ensures Accepted(r, parse) ==> forall k :: k in m && k != NameOf(r, parse) ==> m'[k] == m[k]
    ensures !Accepted(r, parse) ==> m' == m
  {
    if Accepted(r, parse) then m[NameOf(r, parse) := r.source] else m
  }

  /** The directory after a run of discovery rounds. */
  function Directory(m: map<string, string>, rs: seq<Receipt>, parse: JsonParser): map<string, string>
  {
    if rs == [] then m else Upsert(Directory(m, rs[..|rs| - 1], parse), rs[|rs| - 1], parse)
  }

  lemma DirectoryStep(m: map<string, string>, rs: seq<Receipt>, i: nat, parse: JsonParser)
    requires i < |rs|
    ensures Directory(m, rs[..i + 1], parse) == Upsert(Directory(m, rs[..i], parse), rs[i], parse)
  {
    assert rs[..i + 1][..i] == rs[..i];
  }

  predicate Names(r: Receipt, parse: JsonParser, name: string)
  {
    Accepted(r, parse) && NameOf(r, parse) == name
  }

  /** A name is mapped to the address of the last accepted reply that carried it. */
  lemma {:induction false} DirectoryLatest(m: map<string, string>, rs: seq<Receipt>, parse: JsonParser, name: string, j: nat)
    requires j < |rs| && Names(rs[j], parse, name)
    requires forall k :: j < k < |rs| ==> !Names(rs[k], parse, name)
    ensures name in Directory(m, rs, parse) && Directory(m, rs, parse)[name] == rs[j].source
    decreases |rs|
  {
    var init := rs[..|rs| - 1];
    if j < |rs| - 1 {
      assert init[j] == rs[j];
      forall k | j < k < |init|
        ensures !Names(init[k], parse, name)
      {
        assert init[k] == rs[k];
      }
      DirectoryLatest(m, init, parse, name, j);
    }
  }

  /** A name no accepted reply carried keeps the entry it had, or stays absent. */
  lemma {:induction false} DirectoryUntouched(m: map<string, string>, rs: seq<Receipt>, parse: JsonParser, name: string)
    requires forall k :: 0 <= k < |rs| ==> !Names(rs[k], parse, name)
    ensures (name in Directory(m, rs, parse)) == (name in m)
    ensures name in m ==> Directory(m, rs, parse)[name] == m[name]
    decreases |rs|
  {
    if rs != [] {
      var init := rs[..|rs| - 1];
      forall k | 0 <= k < |init|
        ensures !Names(init[k], parse, name)
      {
        assert init[k] == rs[k];
      }
      DirectoryUntouched(m, init, parse, name);
    }
  }

  /** How many of the rounds found a lease, and so tried a send. */
  function Tries(leases: seq<Option<DhcpInfo>>): (n: nat)
    ensures n <= |leases|
  {
    if leases == [] then 0 else Tries(leases[..|leases| - 1]) + (if leases[|leases| - 1].Some? then 1 else 0)
  }

  /** Send number k, counted from 0, goes through. */
  predicate Delivered(outcomes: seq<bool>, k: nat)
  {
    k >= |outcomes| || outcomes[k]
  }

  /** What the discovery rounds broadcast, round after round, on a socket whose sends have the
      given outcomes: a round with no lease sends nothing and uses no outcome; otherwise it
      tries the next send, which puts the discovery message on the wire exactly when it does
      not throw. */
  function Broadcasts(leases: seq<Option<DhcpInfo>>, outcomes: seq<bool>): seq<Datagram>
  {
    if leases == [] then []
    else
      var init, lease := leases[..|leases| - 1], leases[|leases| - 1];
      Broadcasts(init, outcomes)
      + (if lease.Some? && Delivered(outcomes, Tries(init)) then [BroadcastDatagram(lease.value, DISCOVER_PORT, DISCOVER_MESSAGE)] else [])
  }

  /** One more round: its datagram, if any, follows those of the rounds before it. */
  lemma BroadcastsStep(leases: seq<Option<DhcpInfo>>, i: nat, outcomes: seq<bool>)
    requires i < |leases|
    ensures Tries(leases[..i + 1]) == Tries(leases[..i]) + if leases[i].Some? then 1 else 0
    ensures Broadcasts(leases[..i + 1], outcomes) == Broadcasts(leases[..i], outcomes)
      + if leases[i].Some? && Delivered(outcomes, Tries(leases[..i]))
        then [BroadcastDatagram(leases[i].value, DISCOVER_PORT, DISCOVER_MESSAGE)] else []
  {
    assert leases[..i + 1][..i] == leases[..i];
  }

  /** Once t sends have been tried, the next one goes through exactly when send t does, and
      trying it leaves the outcomes after it. */
  lemma SkipNext(outcomes: seq<bool>, t: nat)
    ensures var rest := Skip(outcomes, t); (rest == [] || rest[0]) == Delivered(outcomes, t)
    ensures Skip(Skip(outcomes, t), 1) == Skip(outcomes, t + 1)
  {
  }

  /** One discovery round carries the loop's account of the socket from the rounds before it
      to the rounds up to and including it. */
  lemma BroadcastsAdvance(sent0: seq<Datagram>, leases: seq<Option<DhcpInfo>>, i: nat, outcomes: seq<bool>,
                          sent: seq<Datagram>, left: seq<bool>, sent': seq<Datagram>, left': seq<bool>)
    requires i < |leases|
    requires sent == sent0 + Broadcasts(leases[..i], outcomes) && left == Skip(outcomes, Tries(leases[..i]))
    requires leases[i].None? ==> sent' == sent && left' == left
    requires leases[i].Some? ==> (left' == Skip(left, 1)
      && sent' == sent + if left == [] || left[0] then [BroadcastDatagram(leases[i].value, DISCOVER_PORT, DISCOVER_MESSAGE)] else [])
    ensures sent' == sent0 + Broadcasts(leases[..i + 1], outcomes)
    ensures left' == Skip(outcomes, Tries(leases[..i + 1]))
  {
    BroadcastsStep(leases, i, outcomes);
    SkipNext(outcomes, Tries(leases[..i]));
    var piece := if leases[i].Some? && Delivered(outcomes, Tries(leases[..i]))
      then [BroadcastDatagram(leases[i].value, DISCOVER_PORT, DISCOVER_MESSAGE)] else [];
    assert sent' == sent + piece;
    AppendAssoc(sent0, Broadcasts(leases[..i], outcomes), piece);
  }

  /** Every datagram the discovery loop sends is the "hello" message, to port 53515, at a
      four-octet broadcast address; there are at most as many as rounds. */
  lemma {:induction false} BroadcastsAreHello(leases: seq<Option<DhcpInfo>>, outcomes: seq<bool>)
    ensures |Broadcasts(leases, outcomes)| <= |leases|
    ensures forall d :: d in Broadcasts(leases, outcomes) ==>
      d.data == Ascii(DISCOVER_MESSAGE) && d.port == DISCOVER_PORT && |d.address| == 4
    decreases |leases|
  {
    if leases != [] {
      BroadcastsAreHello(leases[..|leases| - 1], outcomes);
    }
  }

  /** With a lease in every round and no send that throws, each round broadcasts once, to the
      broadcast address of its own lease. */
  lemma {:induction false} BroadcastsReliable(leases: seq<Option<DhcpInfo>>, outcomes: seq<bool>)
    requires forall k :: 0 <= k < |leases| ==> leases[k].Some?
    requires forall k :: 0 <= k < |outcomes| ==> outcomes[k]
    ensures |Broadcasts(leases, outcomes)| == |leases|
    ensures forall k :: 0 <= k < |leases| ==>
      Broadcasts(leases, outcomes)[k] == BroadcastDatagram(leases[k].value, DISCOVER_PORT, DISCOVER_MESSAGE)
    decreases |leases|
  {
    if leases != [] {
      var init := leases[..|leases| - 1];
      BroadcastsReliable(init, outcomes);
    }
  }

  /** Without a lease in any round nothing is sent, whatever the socket would do. */
  lemma {:induction false} BroadcastsNeedLease(leases: seq<Option<DhcpInfo>>, outcomes: seq<bool>)
    requires forall k :: 0 <= k < |leases| ==> leases[k].None?
    ensures Broadcasts(leases, outcomes) == [] && Tries(leases) == 0
    decreases |leases|
  {
    if leases != [] {
      BroadcastsNeedLease(leases[..|leases| - 1], outcomes);
    }
  }

  /** The receive of the discovery loop: Arrays.fill zeroes the buffer, then the datagram is
      copied in, cut at the buffer's size; the result is the packet's length. */
  method ReceiveInto(buf: array<byte>, data: seq<byte>) returns (length: nat)
    requires buf.Length == BUFFER_SIZE
    modifies buf
    ensures length == |Take(data, BUFFER_SIZE)|
    ensures buf[..] == BufferAfter(data)
  {
    for i := 0 to buf.Length
      invariant forall j :: 0 <= j < i ==> buf[j] == 0
    {
      buf[i] := 0;
    }
    length := if |data| <= buf.Length then |data| else buf.Length;
    for i := 0 to length
      invariant forall j :: 0 <= j < i ==> buf[j] == data[j]
      invariant forall j :: i <= j < buf.Length ==> buf[j] == 0
    {
      buf[i] := data[i];
    }
    assert buf[..] == BufferAfter(data);
  }

  class Activity {
    /** mDiscoverdMap: receiver name to address. */
    var discovered: map<string, string>
    /** mReceiverIp: null (None), "" for listen mode, or the receiver's address. */
    var receiverIp: Option<string>
    var selectedFormat: string
    var selectedWidth: int
    var selectedHeight: int
    var selectedDpi: int
    var selectedBitrate: int
    /** The discovery task's receive buffer. */
    const buf: array<byte>
    /** The label of the server-mode entry (a string resource). */
    const serverModeName: string

    /** The receiver and the encoding options the listeners have selected. */
    function Selections(): (Option<string>, string, int, int, int, int)
      reads this
    {
      (receiverIp, selectedFormat, selectedWidth, selectedHeight, selectedDpi, selectedBitrate)
    }

    /** The parts of onCreate that set up the directory and the selections: the directory
        holds only the server-mode entry, mapped to "", every option is at its first row, and
        the receiver is the one saved from the last run. */
    constructor (serverModeName: string, savedReceiver: string)
      ensures discovered == map[serverModeName := ""] && receiverIp == Some(savedReceiver)
      ensures selectedFormat == FORMAT_OPTIONS[0] && selectedBitrate == BITRATE_OPTIONS[0]
      ensures selectedWidth == 1280 && selectedHeight == 720 && selectedDpi == 320
      ensures fresh(buf) && buf.Length == BUFFER_SIZE && this.serverModeName == serverModeName
    {
      discovered := map[serverModeName := ""];
      receiverIp := Some(savedReceiver);
      selectedFormat := FORMAT_OPTIONS[0];
      selectedWidth := RESOLUTION_OPTIONS[0].width;
      selectedHeight := RESOLUTION_OPTIONS[0].height;
      selectedDpi := RESOLUTION_OPTIONS[0].dpi;
      selectedBitrate := BITRATE_OPTIONS[0];
      buf := new byte[BUFFER_SIZE];
      this.serverModeName := serverModeName;
    }

    /** A tap on a directory entry: the receiver becomes the address it maps to (null for a
        name the directory does not hold). */
    method SelectReceiver(name: string)
      modifies this
      ensures receiverIp == if name in discovered then Some(discovered[name]) else None
      ensures discovered == old(discovered) && selectedFormat == old(selectedFormat)
      ensures selectedWidth == old(selectedWidth) && selectedHeight == old(selectedHeight)
      ensures selectedDpi == old(selectedDpi) && selectedBitrate == old(selectedBitrate)
    {
      receiverIp := if name in discovered then Some(discovered[name]) else None;
    }

    /** The select button: a typed address replaces the receiver unless it is empty. */
    method EnterReceiverIp(text: string)
      modifies this
      ensures receiverIp == if |text| > 0 then Some(text) else old(receiverIp)
      ensures discovered == old(discovered) && selectedFormat == old(selectedFormat)
      ensures selectedWidth == old(selectedWidth) && selectedHeight == old(selectedHeight)
      ensures selectedDpi == old(selectedDpi) && selectedBitrate == old(selectedBitrate)
    {
      if |text| > 0 {
        receiverIp := Some(text);
      }
    }

    /** The format spinner: row i, or the first row when nothing is selected. */
    method SelectFormat(i: Option<nat>)
      requires i.Some? ==> i.value < |FORMAT_OPTIONS|
      modifies this
      ensures selectedFormat == FORMAT_OPTIONS[GetOr(i, 0)]
      ensures selectedFormat == CastService.MIMETYPE_VIDEO_AVC || selectedFormat == CastService.MIMETYPE_VIDEO_VP8
      ensures discovered == old(discovered) && receiverIp == old(receiverIp)
      ensures selectedWidth == old(selectedWidth) && selectedHeight == old(selectedHeight)
      ensures selectedDpi == old(selectedDpi) && selectedBitrate == old(selectedBitrate)
    {
      if i.Some? {
        selectedFormat := FORMAT_OPTIONS[i.value];
      } else {
        selectedFormat := FORMAT_OPTIONS[0];
      }
    }

    /** The resolution spinner: width, height and density from row i, or from the first row
        when nothing is selected. Every row is a resolution the H.264 handshake has an init
        blob for. */
    method SelectResolution(i: Option<nat>)
      requires i.Some? ==> i.value < |RESOLUTION_OPTIONS|
      modifies this
      ensures Resolution(selectedWidth, selectedHeight, selectedDpi) == RESOLUTION_OPTIONS[GetOr(i, 0)]
      ensures CastService.H264Header(selectedWidth, selectedHeight).Some?
      ensures discovered == old(discovered) && receiverIp == old(receiverIp)
      ensures selectedFormat == old(selectedFormat) && selectedBitrate == old(selectedBitrate)
    {
      var row := if i.Some? then i.value else 0;
      selectedWidth := RESOLUTION_OPTIONS[row].width;
      selectedHeight := RESOLUTION_OPTIONS[row].height;
      selectedDpi := RESOLUTION_OPTIONS[row].dpi;
    }

    /** The bitrate spinner: row i, or the first row when nothing is selected. */
    method SelectBitrate(i: Option<nat>)
      requires i.Some? ==> i.value < |BITRATE_OPTIONS|
      modifies this
      ensures selectedBitrate == BITRATE_OPTIONS[GetOr(i, 0)]
      ensures 1024000 <= selectedBitrate <= 6144000
      ensures discovered == old(discovered) && receiverIp == old(receiverIp)
      ensures selectedFormat == old(selectedFormat)
      ensures selectedWidth == old(selectedWidth) && selectedHeight == old(selectedHeight)
      ensures selectedDpi == old(selectedDpi)
    {
      selectedBitrate := if i.Some? then BITRATE_OPTIONS[i.value] else BITRATE_OPTIONS[0];
    }

    /** One round of DiscoveryTask's loop: broadcast "hello" to the broadcast address of the
        lease the Wi-Fi service reports now, then wait for one reply and, if the directory
        accepts it, enter it. */
    method DiscoveryRound(lease: Option<DhcpInfo>, socket: DatagramSocket, r: Receipt, parse: JsonParser)
      requires buf.Length == BUFFER_SIZE
      modifies this, buf, socket
      ensures discovered == Upsert(old(discovered), r, parse)
      ensures lease.None? ==> socket.sent == old(socket.sent) && socket.outcomes == old(socket.outcomes)
      ensures lease.Some? ==> (socket.outcomes == Skip(old(socket.outcomes), 1)
        && socket.sent == old(socket.sent)
           + if old(socket.Goes()) then [BroadcastDatagram(lease.value, DISCOVER_PORT, DISCOVER_MESSAGE)] else [])
      ensures Selections() == old(Selections())
    {
      var sent := SendBroadcastMessage(lease, socket, DISCOVER_PORT, DISCOVER_MESSAGE);
      if r.Reply? {
        var length := ReceiveInto(buf, r.data);
        if length > 9 {
          var json := parse(buf[..]);
          if json.Some? && "name" in json.value && "width" in json.value && "height" in json.value {
            discovered := discovered[json.value["name"] := r.source];
          }
        }
      }
    }

    /** DiscoveryTask.doInBackground over the rounds it runs before it is cancelled: round k
        reads the lease leases[k] and receives rounds[k]. */
    method Discover(leases: seq<Option<DhcpInfo>>, socket: DatagramSocket, rounds: seq<Receipt>, parse: JsonParser)
      requires buf.Length == BUFFER_SIZE && |leases| == |rounds|
      modifies this, buf, socket
      ensures discovered == Directory(old(discovered), rounds, parse)
      ensures socket.sent == old(socket.sent) + Broadcasts(leases, old(socket.outcomes))
      ensures socket.outcomes == Skip(old(socket.outcomes), Tries(leases))
      ensures Selections() == old(Selections())
    {
      ghost var found, sent0, outcomes, chosen := discovered, socket.sent, socket.outcomes, Selections();
      var i := 0;
      while i < |rounds|
        invariant i <= |rounds|
        invariant discovered == Directory(found, rounds[..i], parse)
        invariant socket.sent == sent0 + Broadcasts(leases[..i], outcomes)
        invariant socket.outcomes == Skip(outcomes, Tries(leases[..i]))
        invariant Selections() == chosen
      {
        ghost var sent, left := socket.sent, socket.outcomes;
        DiscoveryRound(leases[i], socket, rounds[i], parse);
        BroadcastsAdvance(sent0, leases, i, outcomes, sent, left, socket.sent, socket.outcomes);
        DirectoryStep(found, rounds, i, parse);
        i := i + 1;
      }
      assert rounds[..|rounds|] == rounds;
      assert leases[..|leases|] == leases;
    }
  }

  /** The server-mode entry survives discovery unless a receiver calls itself by the same
      name; picking it then sets the receiver to "", which the service runs as listen mode. */
  lemma ServerModeEntry(serverModeName: string, rs: seq<Receipt>, parse: JsonParser)
    requires forall k :: 0 <= k < |rs| ==> !Names(rs[k], parse, serverModeName)
    ensures serverModeName in Directory(map[serverModeName := ""], rs, parse)
    ensures Directory(map[serverModeName := ""], rs, parse)[serverModeName] == ""
  {
    DirectoryUntouched(map[serverModeName := ""], rs, parse, serverModeName);
  }
}

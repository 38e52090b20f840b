/** The sender's network helpers (Utils.java): the directed broadcast address of the Wi-Fi
    network, computed from the DHCP lease, and the discovery broadcast sent to it. */
module Utils {
  import opened Bytes
  import opened Wrappers

  /** The two fields of a DHCP lease the broadcast address is computed from, as Java ints.
      Android stores them with the first octet of the dotted address in the low byte. */
  datatype DhcpInfo = DhcpInfo(ipAddress: bv32, netmask: bv32)

  /** The broadcast address of the network `ip` lies on: its network bits, every host bit set. */
  function Broadcast(ip: bv32, mask: bv32): (b: bv32)
    ensures b & mask == ip & mask
    ensures b | mask == 0xFFFF_FFFF
  {
    (ip & mask) | !mask
  }

  /** An all-ones mask leaves the address as it is; an empty mask makes every bit a host bit. */
  lemma BroadcastBoundaries(ip: bv32)
    ensures Broadcast(ip, 0xFFFF_FFFF) == ip
    ensures Broadcast(ip, 0) == 0xFFFF_FFFF
  {
  }

  /** Those two properties determine the broadcast address: no other value has them. */
  lemma BroadcastUnique(ip: bv32, mask: bv32, b: bv32)
    requires b & mask == ip & mask && b | mask == 0xFFFF_FFFF
    ensures b == Broadcast(ip, mask)
  {
  }

  /** The broadcast address of the broadcast address is itself. */
  lemma BroadcastIdempotent(ip: bv32, mask: bv32)
    ensures Broadcast(Broadcast(ip, mask), mask) == Broadcast(ip, mask)
  {
    var b := Broadcast(ip, mask);
    BroadcastUnique(b, mask, b);
  }

  /** Octet k of a 32-bit value, the least significant first. Java's arithmetic shift and the
      logical one agree once the octet is masked. */
  function Quad(v: bv32, k: bv32): bv8
    requires k < 4
  {
    ((v >> (k * 8)) & 0xFF) as bv8
  }

  /** The four octets of a value, the least significant first. */
  function Quads(v: bv32): seq<bv8>
  {
    [Quad(v, 0), Quad(v, 1), Quad(v, 2), Quad(v, 3)]
  }

  /** The 32-bit value whose octets, least significant first, are q. */
  function Combine(q: seq<bv8>): bv32
    requires |q| == 4
  {
    q[0] as bv32 | (q[1] as bv32 << 8) | (q[2] as bv32 << 16) | (q[3] as bv32 << 24)
  }

  /** Splitting into octets loses nothing: the octets put back together give the value. */
  lemma QuadsRoundTrip(v: bv32)
    ensures Combine(Quads(v)) == v
  {
  }

  /** Octets put together and split again come back unchanged. */
  lemma CombineRoundTrip(q: seq<bv8>)
    requires |q| == 4
    ensures Quads(Combine(q)) == q
  {
  }

  /** The loop of getBroadcastAddress that fills the four octets, the least significant first
      (its int counter is a 32-bit vector here). */
  method SplitQuads(broadcast: bv32) returns (q: seq<bv8>)
    ensures q == Quads(broadcast)
  {
    var quads := new bv8[4];
    var k: bv32 := 0;
    while k < 4
      invariant k <= 4
      invariant forall j: bv32 :: j < k ==> quads[j] == Quad(broadcast, j)
    {
      quads[k] := ((broadcast >> (k * 8)) & 0xFF) as bv8;
      k := k + 1;
    }
    q := quads[..];
    assert q == [quads[0 as bv32], quads[1 as bv32], quads[2 as bv32], quads[3 as bv32]];
  }

  /** getBroadcastAddress: no lease, no address; otherwise the four octets of the broadcast
      value. */
  method GetBroadcastAddress(dhcp: Option<DhcpInfo>) returns (address: Option<seq<bv8>>)
    ensures address.None? <==> dhcp.None?
    ensures address.Some? ==> var b := Broadcast(dhcp.value.ipAddress, dhcp.value.netmask);
      address.value == Quads(b) && Combine(address.value) == b
  {
    if dhcp.None? {
      return None;
    }
    var broadcast := (dhcp.value.ipAddress & dhcp.value.netmask) | !dhcp.value.netmask;
    var quads := SplitQuads(broadcast);
    QuadsRoundTrip(broadcast);
    address := Some(quads);
  }

  /** A datagram as sent: payload, destination octets and destination port. */
  datatype Datagram = Datagram(data: seq<byte>, address: seq<bv8>, port: int)

  /** A UDP socket: what it has sent, whether broadcasting is enabled, and whether each of the
      coming sends goes through (a send past the end of that list goes through). A send that
      throws sends nothing; the next one may succeed. */
  class DatagramSocket {
    var sent: seq<Datagram>
    var broadcast: bool
    var outcomes: seq<bool>

    constructor (outcomes: seq<bool>)
      ensures sent == [] && !broadcast && this.outcomes == outcomes
    {
      sent := [];
      broadcast := false;
      this.outcomes := outcomes;
    }

    /** The next send goes through. */
    predicate Goes()
      reads this
    {
      outcomes == [] || outcomes[0]
    }

    method SetBroadcast(on: bool)
      modifies this
      ensures broadcast == on && sent == old(sent) && outcomes == old(outcomes)
    {
      broadcast := on;
    }

    method Send(d: Datagram) returns (ok: bool)
      modifies this
      ensures ok == old(Goes())
      ensures sent == old(sent) + if ok then [d] else []
      ensures outcomes == Skip(old(outcomes), 1)
      ensures broadcast == old(broadcast)
    {
      ok := Goes();
      if ok {
        sent := sent + [d];
      }
      outcomes := Skip(outcomes, 1);
    }
  }

  /** What is left of a list of send outcomes once n sends have been tried. */
  function Skip(outcomes: seq<bool>, n: nat): (r: seq<bool>)
    ensures |r| == if n <= |outcomes| then |outcomes| - n else 0
    ensures forall k :: 0 <= k < |r| ==> r[k] == outcomes[n + k]
  {
    if n <= |outcomes| then outcomes[n..] else []
  }

  /** sendBroadcastMessage: without a broadcast address nothing is sent and the result is
      false; otherwise the message goes to the broadcast address on `port`, and the result says
      whether the send went through. */
  method SendBroadcastMessage(dhcp: Option<DhcpInfo>, socket: DatagramSocket, port: int, message: string)
    returns (ok: bool)
    modifies socket
    ensures dhcp.None? ==> (!ok && socket.sent == old(socket.sent) && socket.broadcast == old(socket.broadcast)
      && socket.outcomes == old(socket.outcomes))
    ensures dhcp.Some? ==> (ok == old(socket.Goes()) && socket.broadcast
      && socket.sent == old(socket.sent) + (if ok then [BroadcastDatagram(dhcp.value, port, message)] else [])
      && socket.outcomes == Skip(old(socket.outcomes), 1))
  {
    var address := GetBroadcastAddress(dhcp);
    if address.None? {
      return false;
    }
    socket.SetBroadcast(true);
    ok := socket.Send(Datagram(Ascii(message), address.value, port));
  }

  /** The datagram sendBroadcastMessage sends for a lease. */
  function BroadcastDatagram(dhcp: DhcpInfo, port: int, message: string): (d: Datagram)
    ensures |d.address| == 4 && Combine(d.address) == Broadcast(dhcp.ipAddress, dhcp.netmask)
  {
    var b := Broadcast(dhcp.ipAddress, dhcp.netmask);
    QuadsRoundTrip(b);
    Datagram(Ascii(message), Quads(b), port)
  }
}

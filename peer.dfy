/**
 * A registered client of the rendezvous server (struct client in peer.h,
 * ClientStruct in Java) and the two orders the C registry keeps its trees in.
 */
module Peers {
  import opened Wire
  import opened Rendezvous

  class Client {
    /** Public address and port the client's datagrams come from. */
    const addr: SockAddr
    const vpnIP: IPv4
    /** The address the client announced on its own LAN (port 0: none). */
    const local: SockAddr
    /** Time of the last message received from the client. */
    var lastSeen: int

    constructor (addr: SockAddr, vpnIP: IPv4, local: SockAddr, now: int)
      ensures this.addr == addr && this.vpnIP == vpnIP && this.local == local && lastSeen == now
    {
      this.addr := addr;
      this.vpnIP := vpnIP;
      this.local := local;
      lastSeen := now;
    }

    /** The client as a value. */
    function Rec(): ClientRec
      reads this
    {
      ClientRec(addr, vpnIP, local, lastSeen)
    }

    /** client_update_time. */
    method UpdateTime(now: int)
      modifies this
      ensures lastSeen == now
      ensures Rec() == old(Rec()).(lastSeen := now)
    {
      lastSeen := now;
    }
  }

  /** in_addr.s_addr read as a number (most significant byte first). */
  function SAddr(ip: IPv4): (n: int)
    ensures 0 <= n < 0x1_0000_0000
  {
    (((ip[0] as int) * 256 + ip[1]) * 256 + ip[2]) * 256 + ip[3]
  }

  lemma Digit(hi: int, lo: uint8, hi': int, lo': uint8)
    requires hi * 256 + lo == hi' * 256 + lo'
    ensures hi == hi' && lo == lo'
  {
  }

  lemma SAddrInjective(a: IPv4, b: IPv4)
    requires SAddr(a) == SAddr(b)
    ensures a == b
  {
    Digit(((a[0] as int) * 256 + a[1]) * 256 + a[2], a[3], ((b[0] as int) * 256 + b[1]) * 256 + b[2], b[3]);
    Digit((a[0] as int) * 256 + a[1], a[2], (b[0] as int) * 256 + b[1], b[2]);
    Digit(a[0], a[1], b[0], b[1]);
  }

  /** compare_clients_addr: by address, then by port. */
  function CompareClientsAddr(p: SockAddr, q: SockAddr): int {
    if SAddr(p.ip) < SAddr(q.ip) then -1
    else if SAddr(p.ip) == SAddr(q.ip) then
      if p.port < q.port then -1
      else if p.port == q.port then 0
      else 1
    else 1
  }

  /** compare_clients_vpn: by VPN IP. */
  function CompareClientsVpn(a: IPv4, b: IPv4): int {
    if SAddr(a) < SAddr(b) then -1
    else if SAddr(a) == SAddr(b) then 0
    else 1
  }

  /** The address order is a total order whose equality is equality of (IP, port): a tree lookup finds exactly the client with that address. */
  lemma CompareClientsAddrIsOrder(p: SockAddr, q: SockAddr, s: SockAddr)
    ensures CompareClientsAddr(p, q) in {-1, 0, 1}
    ensures CompareClientsAddr(p, q) == 0 <==> p == q
    ensures CompareClientsAddr(q, p) == -CompareClientsAddr(p, q)
    ensures CompareClientsAddr(p, q) < 0 && CompareClientsAddr(q, s) < 0 ==> CompareClientsAddr(p, s) < 0
  {
    if SAddr(p.ip) == SAddr(q.ip) {
      SAddrInjective(p.ip, q.ip);
    }
  }

  /** The VPN order is a total order whose equality is equality of VPN IPs. */
  lemma CompareClientsVpnIsOrder(a: IPv4, b: IPv4, c: IPv4)
    ensures CompareClientsVpn(a, b) in {-1, 0, 1}
    ensures CompareClientsVpn(a, b) == 0 <==> a == b
    ensures CompareClientsVpn(b, a) == -CompareClientsVpn(a, b)
    ensures CompareClientsVpn(a, b) < 0 && CompareClientsVpn(b, c) < 0 ==> CompareClientsVpn(a, c) < 0
  {
    if SAddr(a) == SAddr(b) {
      SAddrInjective(a, b);
    }
  }
}

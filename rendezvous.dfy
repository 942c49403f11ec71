/**
 * The rendezvous server's decision table as functions on its tables.
 *
 * The server keeps one set of registered clients indexed twice (by public
 * address and by VPN IP) and a table of directional connection requests keyed
 * by the ordered pair of VPN IPs. Both implementations (CampagnolServer.analyse
 * in Java and handle_packet in C) follow the same table; the C allocations that
 * can fail are an explicit `Alloc` input (the Java server always sees
 * `Succeeds`). The imperative server in server.dfy is proved to compute
 * exactly `Handle`. One row of the table is corrected: a HELLO from a
 * timed-out client asking for another VPN IP goes through HelloRegistered,
 * while HelloRegisteredAsWritten and HelloRegisteredAsWrittenInC keep what
 * the Java and the C server do.
 */
module Rendezvous {
  import opened Wrappers
  import opened Wire

  /** A Java `int`: connection retry counters wrap at 2^31. */
  type int32 = x: int | -0x8000_0000 <= x < 0x8000_0000

  /** A UDP endpoint: IPv4 address and port. */
  datatype SockAddr = SockAddr(ip: IPv4, port: int)

  /** Seconds of silence after which a client is timed out; dead is twice that. */
  const PEER_TIMEOUT: int := 5

  /** What the server knows about one registered client. */
  datatype ClientRec = ClientRec(addr: SockAddr, vpnIP: IPv4, local: SockAddr, lastSeen: int)

  /** A connection request from `from` to `to`. */
  datatype ConnRec = ConnRec(from: IPv4, to: IPv4, initTime: int, nbTries: int32)

  /** Connections are keyed by the ordered pair (asker's VPN IP, target's VPN IP). */
  type Key = (IPv4, IPv4)

  datatype Tables = Tables(byAddr: map<SockAddr, ClientRec>, byVpn: map<IPv4, ClientRec>, conns: map<Key, ConnRec>)

  datatype Outgoing = Outgoing(to: SockAddr, msg: Msg)

  datatype Outcome = Outcome(tables: Tables, out: seq<Outgoing>)

  /** Which allocation, if any, fails while a packet is handled (C only). */
  datatype Alloc = Succeeds | MallocFails | AddrTreeFails | VpnTreeFails

  predicate IsTimeout(c: ClientRec, now: int) { now - c.lastSeen > PEER_TIMEOUT }

  predicate IsDead(c: ClientRec, now: int) { now - c.lastSeen > 2 * PEER_TIMEOUT }

  /** Java's `nbTries++` on an int. */
  function Inc32(n: int32): (r: int32)
    ensures n < 0x7fff_ffff ==> r == n + 1
    ensures n == 0x7fff_ffff ==> r == -0x8000_0000
  {
    if n == 0x7fff_ffff then -0x8000_0000 else n + 1
  }

  // ---------------------------------------------------------------------
  // Invariants

  /** Both indexes hold the same clients, each under its own address and VPN IP. */
  predicate Indexed(t: Tables) {
    (forall a :: a in t.byAddr ==>
       t.byAddr[a].addr == a && t.byAddr[a].vpnIP in t.byVpn && t.byVpn[t.byAddr[a].vpnIP] == t.byAddr[a])
    && (forall v :: v in t.byVpn ==>
       t.byVpn[v].vpnIP == v && t.byVpn[v].addr in t.byAddr && t.byAddr[t.byVpn[v].addr] == t.byVpn[v])
  }

  /** Every connection links two registered clients and is stored under its own direction. */
  predicate ConnsWellFormed(t: Tables) {
    forall k {:trigger k in t.conns} :: k in t.conns ==>
      t.conns[k].from == k.0 && t.conns[k].to == k.1 && k.0 in t.byVpn && k.1 in t.byVpn
  }

  predicate Inv(t: Tables) { Indexed(t) && ConnsWellFormed(t) }

  /** No pair of distinct clients has a connection request in both directions. */
  predicate OneWay(t: Tables) {
    forall k {:trigger k in t.conns} :: k in t.conns && k.0 != k.1 ==> (k.1, k.0) !in t.conns
  }

  /** The registry never holds more than max_clients clients (0 means no limit). */
  predicate WithinCap(t: Tables, maxClients: nat) {
    maxClients == 0 || |t.byVpn| <= maxClients
  }

  // ---------------------------------------------------------------------
  // Table operations

  /** updateTime / client_update_time. */
  function Touch(t: Tables, c: ClientRec, now: int): Tables {
    var c' := c.(lastSeen := now);
    t.(byAddr := t.byAddr[c.addr := c'], byVpn := t.byVpn[c.vpnIP := c'])
  }

  /** addClient / add_client: insert into both indexes. */
  function Add(t: Tables, c: ClientRec): Tables {
    t.(byAddr := t.byAddr[c.addr := c], byVpn := t.byVpn[c.vpnIP := c])
  }

  function WithoutSessionsOf(conns: map<Key, ConnRec>, ip: IPv4): map<Key, ConnRec> {
    map k | k in conns && k.0 != ip && k.1 != ip :: conns[k]
  }

  /** removeConnectionsWithClient followed by removeClient. */
  function Remove(t: Tables, c: ClientRec): Tables {
    Tables(t.byAddr - {c.addr}, t.byVpn - {c.vpnIP}, WithoutSessionsOf(t.conns, c.vpnIP))
  }

  predicate DeadEnd(t: Tables, ip: IPv4, now: int) {
    ip in t.byVpn && IsDead(t.byVpn[ip], now)
  }

  /** cleanDeadClients / clean_dead_clients. */
  function CleanDead(t: Tables, now: int): Tables {
    Tables(map a | a in t.byAddr && !IsDead(t.byAddr[a], now) :: t.byAddr[a],
           map v | v in t.byVpn && !IsDead(t.byVpn[v], now) :: t.byVpn[v],
           map k | k in t.conns && !DeadEnd(t, k.0, now) && !DeadEnd(t, k.1, now) :: t.conns[k])
  }

  // ---------------------------------------------------------------------
  // Replies

  function Reply(to: SockAddr, tag: uint8): Outgoing {
    Outgoing(to, NewMsg(tag, 0, None, None))
  }

  /** sendREJECT / send_REJECT: the rejected VPN IP travels in ip1. */
  function Reject(to: SockAddr, ip: IPv4): Outgoing {
    Outgoing(to, NewMsg(REJ_CONNECTION, 0, Some(ip), None))
  }

  /** Both clients are behind the same public IP and both announced a local address. */
  predicate SendLocal(c: ClientRec, r: ClientRec) {
    c.local.port != 0 && r.local.port != 0 && c.addr.ip == r.addr.ip
  }

  /** sendANS / sendFWD: tell `to` where to reach `about`. */
  function Introduce(tag: uint8, to: ClientRec, about: ClientRec, local: bool): Outgoing {
    var e := if local then about.local else about.addr;
    Outgoing(to.addr, NewMsg(tag, e.port, Some(e.ip), Some(about.vpnIP)))
  }

  /** The record a HELLO creates: the local address is kept only when the port is not 0. */
  function NewClient(from: SockAddr, msg: Msg, now: int): ClientRec {
    if msg.port != 0 then ClientRec(from, msg.ip1, SockAddr(msg.ip2, msg.port), now)
    else ClientRec(from, msg.ip1, SockAddr(EMPTY_IP, 0), now)
  }

  // ---------------------------------------------------------------------
  // The handler

  /** HELLO from an address that is not registered. */
  function HelloNew(t: Tables, from: SockAddr, msg: Msg, now: int, maxClients: nat, alloc: Alloc): Outcome {
    if msg.ip1 in t.byVpn && !IsTimeout(t.byVpn[msg.ip1], now) then
      Outcome(t, [Reply(from, NOK)])
    else
      var t1 := if msg.ip1 in t.byVpn then Remove(t, t.byVpn[msg.ip1]) else t;
      var t2 := if maxClients != 0 && |t1.byVpn| == maxClients then CleanDead(t1, now) else t1;
      if maxClients != 0 && |t2.byVpn| == maxClients then Outcome(t2, [Reply(from, NOK)])
      else if alloc != Succeeds then Outcome(t2, [])
      else Outcome(Add(t2, NewClient(from, msg, now)), [Reply(from, OK)])
  }

  /**
   * HELLO from a registered client `c`. A timed-out client that asks for another
   * VPN IP is dropped and registered anew through the same checks as a new
   * address (see HelloRegisteredAsWritten and HelloRegisteredAsWrittenInC for what the Java and the C server do).
   */
  function HelloRegistered(t: Tables, c: ClientRec, msg: Msg, now: int, maxClients: nat, alloc: Alloc): Outcome {
    if !IsTimeout(c, now) then Outcome(t, [Reply(c.addr, NOK)])
    else if msg.ip1 == c.vpnIP then Outcome(Touch(t, c, now), [Reply(c.addr, OK)])
    else HelloNew(Remove(t, c), c.addr, msg, now, maxClients, alloc)
  }

  /**
   * The Java server's re-registration: no check on who holds the new VPN IP;
   * HashMap.put makes the VPN index name the newcomer.
   */
  function HelloRegisteredAsWritten(t: Tables, c: ClientRec, msg: Msg, now: int, alloc: Alloc): Outcome {
    if !IsTimeout(c, now) then Outcome(t, [Reply(c.addr, NOK)])
    else if msg.ip1 == c.vpnIP then Outcome(Touch(t, c, now), [Reply(c.addr, OK)])
    else
      var t1 := Remove(t, c);
      if alloc != Succeeds then Outcome(t1, [])
      else Outcome(Add(t1, NewClient(c.addr, msg, now)), [Reply(c.addr, OK)])
  }

  /**
   * The C server's re-registration: no check on who holds the new VPN IP
   * either, but add_client's tsearch on the VPN tree finds a live holder's
   * node and keeps it, so the newcomer is reachable only by its address.
   */
  function HelloRegisteredAsWrittenInC(t: Tables, c: ClientRec, msg: Msg, now: int, alloc: Alloc): Outcome {
    if !IsTimeout(c, now) then Outcome(t, [Reply(c.addr, NOK)])
    else if msg.ip1 == c.vpnIP then Outcome(Touch(t, c, now), [Reply(c.addr, OK)])
    else
      var t1 := Remove(t, c);
      if alloc != Succeeds then Outcome(t1, [])
      else
        var nc := NewClient(c.addr, msg, now);
        var byVpn := if nc.vpnIP in t1.byVpn then t1.byVpn else t1.byVpn[nc.vpnIP := nc];
        Outcome(t1.(byAddr := t1.byAddr[c.addr := nc], byVpn := byVpn), [Reply(c.addr, OK)])
  }

  /** ASK_CONNECTION from registered client `c` for the client holding msg.ip1. */
  function Ask(t: Tables, c: ClientRec, msg: Msg, now: int, alloc: Alloc): Outcome {
    if msg.ip1 !in t.byVpn then Outcome(t, [Reject(c.addr, msg.ip1)])
    else
      var r := t.byVpn[msg.ip1];
      if IsTimeout(r, now) then Outcome(Remove(t, r), [Reject(c.addr, msg.ip1)])
      else
        var local := SendLocal(c, r);
        var k := (c.vpnIP, r.vpnIP);
        var intro := [Introduce(ANS_CONNECTION, c, r, local), Introduce(FWD_CONNECTION, r, c, local)];
        if k in t.conns then
          var s := t.conns[k];
          Outcome(t.(conns := t.conns[k := s.(initTime := now, nbTries := Inc32(s.nbTries))]), intro)
        else
          var conns := t.conns - {(r.vpnIP, c.vpnIP)};
          if alloc == Succeeds then Outcome(t.(conns := conns[k := ConnRec(c.vpnIP, r.vpnIP, now, 0)]), intro)
          else Outcome(t.(conns := conns), [Reject(c.addr, msg.ip1)])
  }

  /** CLOSE_CONNECTION: drop the requests between `c` and the client holding msg.ip1, both ways. */
  function Close(t: Tables, c: ClientRec, msg: Msg): Outcome {
    if msg.ip1 in t.byVpn then
      var r := t.byVpn[msg.ip1];
      Outcome(t.(conns := t.conns - {(c.vpnIP, r.vpnIP), (r.vpnIP, c.vpnIP)}), [])
    else Outcome(t, [])
  }

  /** One decoded datagram from `from`. */
  function Handle(t: Tables, from: SockAddr, msg: Msg, now: int, maxClients: nat, alloc: Alloc): Outcome {
    if from !in t.byAddr then
      if msg.msgType == HELLO then HelloNew(t, from, msg, now, maxClients, alloc)
      else Outcome(t, [Reply(from, RECONNECT)])
    else
      var c := t.byAddr[from];
      if msg.msgType == HELLO then HelloRegistered(t, c, msg, now, maxClients, alloc)
      else if msg.msgType == BYE then Outcome(Remove(t, c), [])
      else if msg.msgType == PING then Outcome(Touch(t, c, now), [Reply(from, PONG)])
      else if msg.msgType == ASK_CONNECTION then Ask(t, c, msg, now, alloc)
      else if msg.msgType == CLOSE_CONNECTION then Close(t, c, msg)
      else Outcome(t, [])
  }

  /** rdv_server: only datagrams of exactly sizeof(message_t) bytes are handled. */
  function Receive(t: Tables, from: SockAddr, data: seq<uint8>, now: int, maxClients: nat, alloc: Alloc): Outcome {
    if |data| == MSG_LENGTH then Handle(t, from, FromBytes(data).value, now, maxClients, alloc)
    else Outcome(t, [])
  }
}

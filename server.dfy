/**
 * The rendezvous server's state and packet handler:
 * the two client trees (clientsHashAddr / clientsHashVPN), the session tree
 * (connectionsHash), the client counter, and the operations of peer.c,
 * session.c and handle_packet / analyse that update them in place.
 *
 * The trees hold client and session records by value: an update of a client
 * rewrites its entry in both trees. Every state-changing method is proved to
 * compute the corresponding function of module Rendezvous on `Abs()`; the
 * properties of those functions are proved in RendezvousLemmas. A HELLO
 * from a timed-out client asking for another VPN IP follows the corrected
 * Rendezvous.HelloRegistered, not HelloRegisteredAsWritten.
 */
module Server {
  import opened Wrappers
  import opened Wire
  import opened Rendezvous
  import opened RendezvousLemmas

  class RdvServer {
    /** Clients by public address and port. */
    var byAddr: map<SockAddr, ClientRec>
    /** Clients by VPN IP. */
    var byVpn: map<IPv4, ClientRec>
    /** Connection requests by (asker's VPN IP, target's VPN IP). */
    var conns: map<Key, ConnRec>
    /** n_clients. */
    var nClients: int
    /** max_clients; 0 means no limit. */
    const maxClients: nat

    /** The tables as a value. */
    function Abs(): Tables
      reads this
    {
      Tables(byAddr, byVpn, conns)
    }

    /** The two trees agree, sessions link registered clients one way, and n_clients counts the clients. */
    ghost predicate Valid()
      reads this
    {
      Inv(Abs()) && OneWay(Abs()) && WithinCap(Abs(), maxClients) && nClients == |byVpn|
    }

    constructor (maxClients: nat)
      ensures Valid() && this.maxClients == maxClients
      ensures Abs() == Tables(map[], map[], map[]) && nClients == 0
    {
      byAddr := map[];
      byVpn := map[];
      conns := map[];
      nClients := 0;
      this.maxClients := maxClients;
    }

    // -------------------------------------------------------------------
    // The client registry (peer.c)

    /** get_client_real / getClientFromIp. */
    method GetClientReal(addr: SockAddr) returns (c: Option<ClientRec>)
      ensures c.Some? <==> addr in byAddr
      ensures c.Some? ==> c.value == byAddr[addr]
    {
      c := if addr in byAddr then Some(byAddr[addr]) else None;
    }

    /** get_client_VPN / getClientFromId. */
    method GetClientVPN(ip: IPv4) returns (c: Option<ClientRec>)
      ensures c.Some? <==> ip in byVpn
      ensures c.Some? ==> c.value == byVpn[ip]
    {
      c := if ip in byVpn then Some(byVpn[ip]) else None;
    }

    /**
     * add_client: refused when max_clients is reached; otherwise the client
     * goes into both trees, or into neither when an allocation fails (a
     * failed VPN-tree insert takes it out of the address tree again).
     */
    method AddClient(c: ClientRec, alloc: Alloc) returns (added: bool)
      requires Valid() && c.addr !in byAddr && c.vpnIP !in byVpn
      modifies this
      ensures Valid()
      ensures added <==> (maxClients == 0 || old(nClients) < maxClients) && alloc == Succeeds
      ensures Abs() == if added then Add(old(Abs()), c) else old(Abs())
    {
      if maxClients != 0 && nClients >= maxClients {
        return false;
      }
      if alloc == MallocFails || alloc == AddrTreeFails {
        return false;
      }
      byAddr := byAddr[c.addr := c];
      if alloc == VpnTreeFails {
        byAddr := byAddr - {c.addr};
        assert Abs() == old(Abs());
        return false;
      }
      byVpn := byVpn[c.vpnIP := c];
      nClients := nClients + 1;
      AddKeepsInv(old(Abs()), c, maxClients);
      OneWayOfSubset(old(Abs()), Abs());
      added := true;
    }

    /** remove_client / removeClient: out of both trees; its sessions are already gone. */
    method RemoveClient(c: ClientRec)
      requires Valid() && Registered(Abs(), c)
      requires forall k {:trigger k in conns} :: k in conns ==> k.0 != c.vpnIP && k.1 != c.vpnIP
      modifies this
      ensures Valid()
      ensures Abs() == old(Abs()).(byAddr := old(byAddr) - {c.addr}, byVpn := old(byVpn) - {c.vpnIP})
    {
      RemoveUnlinked(Abs(), c, maxClients);
      byAddr := byAddr - {c.addr};
      byVpn := byVpn - {c.vpnIP};
      nClients := nClients - 1;
    }

    /** client_update_time / updateTime on a registered client. */
    method RefreshClient(c: ClientRec, now: int)
      requires Valid() && Registered(Abs(), c)
      modifies this
      ensures Valid() && Abs() == Touch(old(Abs()), c, now)
    {
      TouchKeepsInv(Abs(), c, now);
      var c' := c.(lastSeen := now);
      byAddr := byAddr[c.addr := c'];
      byVpn := byVpn[c.vpnIP := c'];
    }

    // -------------------------------------------------------------------
    // The session table (session.c)

    /** get_session / getConnection: only the request in this direction. */
    method GetSession(from: IPv4, to: IPv4) returns (s: Option<ConnRec>)
      ensures s.Some? <==> (from, to) in conns
      ensures s.Some? ==> s.value == conns[(from, to)]
    {
      s := if (from, to) in conns then Some(conns[(from, to)]) else None;
    }

    /** add_session / addConnection: one new request, or none when an allocation fails. */
    method AddSession(from: IPv4, to: IPv4, now: int, alloc: Alloc) returns (added: bool)
      requires Valid() && from in byVpn && to in byVpn && (to, from) !in conns
      modifies this
      ensures Valid()
      ensures added <==> alloc == Succeeds
      ensures Abs() == if added then old(Abs()).(conns := old(conns)[(from, to) := ConnRec(from, to, now, 0)]) else old(Abs())
    {
      if alloc != Succeeds {
        return false;
      }
      AddConnKeepsInv(Abs(), ConnRec(from, to, now, 0));
      conns := conns[(from, to) := ConnRec(from, to, now, 0)];
      added := true;
    }

    /** remove_session / removeConnection. */
    method RemoveSession(k: Key)
      requires Valid()
      modifies this
      ensures Valid() && Abs() == old(Abs()).(conns := old(conns) - {k})
    {
      conns := conns - {k};
      OneWayOfSubset(old(Abs()), Abs());
    }

    /** session_update_time / Connection.updateTime: a new start time and one more try. */
    method RefreshSession(k: Key, now: int)
      requires Valid() && k in conns
      modifies this
      ensures Valid()
      ensures Abs() == old(Abs()).(conns := old(conns)[k := old(conns)[k].(initTime := now, nbTries := Inc32(old(conns)[k].nbTries))])
    {
      var s := conns[k];
      ReplaceConnKeepsInv(Abs(), k, s.(initTime := now, nbTries := Inc32(s.nbTries)));
      conns := conns[k := s.(initTime := now, nbTries := Inc32(s.nbTries))];
    }

    /** remove_sessions_with_client / removeConnectionsWithClient: walks a snapshot of the table. */
    method RemoveSessionsWithClient(ip: IPv4)
      requires Valid()
      modifies this
      ensures Valid() && Abs() == old(Abs()).(conns := WithoutSessionsOf(old(conns), ip))
    {
      var todo := conns.Keys;
      ghost var c0 := conns;
      assert conns == Pending(c0, todo, ip);
      while todo != {}
        invariant Valid() && byAddr == old(byAddr) && byVpn == old(byVpn)
        invariant conns == Pending(c0, todo, ip)
        decreases |todo|
      {
        var k :| k in todo;
        PendingStep(c0, todo, ip, k);
        if k.0 == ip || k.1 == ip {
          RemoveSession(k);
        }
        todo := todo - {k};
      }
      assert Pending(c0, {}, ip) == WithoutSessionsOf(c0, ip);
    }

    // -------------------------------------------------------------------
    // Eviction and clean-up (server.c)

    /** remove_sessions_with_client then remove_client. */
    method Evict(c: ClientRec)
      requires Valid() && Registered(Abs(), c)
      modifies this
      ensures Valid() && Abs() == Remove(old(Abs()), c)
    {
      RemoveSessionsWithClient(c.vpnIP);
      RemoveClient(c);
    }

    /** clean_dead_clients / cleanDeadClients: evicts every dead client of a snapshot of the registry. */
    method CleanDeadClients(now: int)
      requires Valid()
      modifies this
      ensures Valid() && Abs() == CleanDead(old(Abs()), now)
    {
      ghost var t0 := Abs();
      var todo := byVpn.Keys;
      while todo != {}
        invariant Valid() && todo <= byVpn.Keys
        invariant CleanDead(Abs(), now) == CleanDead(t0, now)
        invariant forall w :: w in byVpn && w !in todo ==> !IsDead(byVpn[w], now)
        decreases |todo|
      {
        var v :| v in todo;
        var cl := byVpn[v];
        if IsDead(cl, now) {
          CleanDeadAfterRemove(Abs(), cl, now);
          Evict(cl);
        }
        todo := todo - {v};
      }
      CleanDeadNoop(Abs(), now);
    }

    // -------------------------------------------------------------------
    // The packet handler (handle_packet / analyse)

    /** HELLO from an address that is not registered. */
    method HandleHelloNew(from: SockAddr, msg: Msg, now: int, alloc: Alloc) returns (out: seq<Outgoing>)
      requires Valid() && from !in byAddr
      modifies this
      ensures Valid()
      ensures Abs() == HelloNew(old(Abs()), from, msg, now, maxClients, alloc).tables
      ensures out == HelloNew(old(Abs()), from, msg, now, maxClients, alloc).out
    {
      ghost var t0 := Abs();
      var holder := GetClientVPN(msg.ip1);
      if holder.Some? {
        if IsTimeout(holder.value, now) {
          Evict(holder.value);
        } else {
          return [Reply(from, NOK)];
        }
      }
      ghost var t1 := Abs();
      if maxClients != 0 && nClients == maxClients {
        CleanDeadClients(now);
        HelloNewSteps(t0, from, msg, now, maxClients, alloc, t1, Abs());
        if nClients == maxClients {
          return [Reply(from, NOK)];
        }
      } else {
        HelloNewSteps(t0, from, msg, now, maxClients, alloc, t1, Abs());
      }
      var local := if msg.port != 0 then SockAddr(msg.ip2, msg.port) else SockAddr(EMPTY_IP, 0);
      var added := AddClient(ClientRec(from, msg.ip1, local, now), alloc);
      if added {
        out := [Reply(from, OK)];
      } else {
        out := [];
      }
    }

    /**
     * HELLO from a registered client: refused while it is live, refreshed when
     * it asks for its own VPN IP again, and otherwise evicted and registered
     * anew through the checks of HandleHelloNew.
     */
    method HandleHelloRegistered(c: ClientRec, msg: Msg, now: int, alloc: Alloc) returns (out: seq<Outgoing>)
      requires Valid() && Registered(Abs(), c)
      modifies this
      ensures Valid()
      ensures Abs() == HelloRegistered(old(Abs()), c, msg, now, maxClients, alloc).tables
      ensures out == HelloRegistered(old(Abs()), c, msg, now, maxClients, alloc).out
    {
      if !IsTimeout(c, now) {
        return [Reply(c.addr, NOK)];
      }
      if msg.ip1 == c.vpnIP {
        RefreshClient(c, now);
        return [Reply(c.addr, OK)];
      }
      Evict(c);
      out := HandleHelloNew(c.addr, msg, now, alloc);
    }

    /** ASK_CONNECTION from registered client `c`. */
    method HandleAsk(c: ClientRec, msg: Msg, now: int, alloc: Alloc) returns (out: seq<Outgoing>)
      requires Valid() && Registered(Abs(), c)
      modifies this
      ensures Valid()
      ensures Abs() == Ask(old(Abs()), c, msg, now, alloc).tables
      ensures out == Ask(old(Abs()), c, msg, now, alloc).out
    {
      var target := GetClientVPN(msg.ip1);
      if target.None? {
        return [Reject(c.addr, msg.ip1)];
      }
      var r := target.value;
      if IsTimeout(r, now) {
        Evict(r);
        return [Reject(c.addr, msg.ip1)];
      }
      var local := SendLocal(c, r);
      var sess := GetSession(c.vpnIP, r.vpnIP);
      if sess.None? {
        var rev := GetSession(r.vpnIP, c.vpnIP);
        if rev.Some? {
          RemoveSession((r.vpnIP, c.vpnIP));
        }
        assert conns == old(conns) - {(r.vpnIP, c.vpnIP)};
        var added := AddSession(c.vpnIP, r.vpnIP, now, alloc);
        if added {
          out := [Introduce(ANS_CONNECTION, c, r, local), Introduce(FWD_CONNECTION, r, c, local)];
        } else {
          out := [Reject(c.addr, msg.ip1)];
        }
      } else {
        out := [Introduce(ANS_CONNECTION, c, r, local), Introduce(FWD_CONNECTION, r, c, local)];
        RefreshSession((c.vpnIP, r.vpnIP), now);
      }
    }

    /** CLOSE_CONNECTION from registered client `c`. */
    method HandleClose(c: ClientRec, msg: Msg) returns (out: seq<Outgoing>)
      requires Valid() && Registered(Abs(), c)
      modifies this
      ensures Valid()
      ensures Abs() == Close(old(Abs()), c, msg).tables && out == []
    {
      var target := GetClientVPN(msg.ip1);
      if target.Some? {
        var r := target.value;
        ghost var c0 := conns;
        var s := GetSession(c.vpnIP, r.vpnIP);
        if s.Some? {
          RemoveSession((c.vpnIP, r.vpnIP));
        } else {
          MinusAbsent(conns, (c.vpnIP, r.vpnIP));
        }
        s := GetSession(r.vpnIP, c.vpnIP);
        if s.Some? {
          RemoveSession((r.vpnIP, c.vpnIP));
        } else {
          MinusAbsent(conns, (r.vpnIP, c.vpnIP));
        }
        MinusTwo(c0, (c.vpnIP, r.vpnIP), (r.vpnIP, c.vpnIP));
      }
      out := [];
    }

    /** handle_packet / analyse: one decoded message from `from`. */
    method HandlePacket(from: SockAddr, msg: Msg, now: int, alloc: Alloc) returns (out: seq<Outgoing>)
      requires Valid()
      modifies this
      ensures Valid()
      ensures Abs() == Handle(old(Abs()), from, msg, now, maxClients, alloc).tables
      ensures out == Handle(old(Abs()), from, msg, now, maxClients, alloc).out
    {
      var peer := GetClientReal(from);
      if peer.None? && msg.msgType != HELLO {
        return [Reply(from, RECONNECT)];
      }
      if peer.None? {
        out := HandleHelloNew(from, msg, now, alloc);
        return;
      }
      var c := peer.value;
      if msg.msgType == HELLO {
        out := HandleHelloRegistered(c, msg, now, alloc);
      } else if msg.msgType == BYE {
        Evict(c);
        out := [];
      } else if msg.msgType == PING {
        out := [Reply(from, PONG)];
        RefreshClient(c, now);
      } else if msg.msgType == ASK_CONNECTION {
        out := HandleAsk(c, msg, now, alloc);
      } else if msg.msgType == CLOSE_CONNECTION {
        out := HandleClose(c, msg);
      } else {
        out := [];
      }
    }

    /** The receive step of rdv_server: a datagram is handled only when it is exactly one message long. */
    method ReceiveDatagram(from: SockAddr, data: seq<uint8>, now: int, alloc: Alloc) returns (out: seq<Outgoing>)
      requires Valid()
      modifies this
      ensures Valid()
      ensures Abs() == Receive(old(Abs()), from, data, now, maxClients, alloc).tables
      ensures out == Receive(old(Abs()), from, data, now, maxClients, alloc).out
    {
      if |data| == MSG_LENGTH {
        out := HandlePacket(from, FromBytes(data).value, now, alloc);
      } else {
        out := [];
      }
    }
  }

  // ---------------------------------------------------------------------
  // The clean-up loop, one snapshot entry at a time

  /** HelloNew once the holder of the address is evicted and, when full, the dead are cleaned. */
  lemma HelloNewSteps(t: Tables, from: SockAddr, msg: Msg, now: int, maxClients: nat, alloc: Alloc, t1: Tables, t2: Tables)
    requires Inv(t) && from !in t.byAddr
    requires !(msg.ip1 in t.byVpn && !IsTimeout(t.byVpn[msg.ip1], now))
    requires t1 == if msg.ip1 in t.byVpn then Remove(t, t.byVpn[msg.ip1]) else t
    requires t2 == if maxClients != 0 && |t1.byVpn| == maxClients then CleanDead(t1, now) else t1
    ensures from !in t2.byAddr && msg.ip1 !in t2.byVpn
    ensures HelloNew(t, from, msg, now, maxClients, alloc)
            == if maxClients != 0 && |t2.byVpn| == maxClients then Outcome(t2, [Reply(from, NOK)])
               else if alloc != Succeeds then Outcome(t2, [])
               else Outcome(Add(t2, NewClient(from, msg, now)), [Reply(from, OK)])
  {
  }

  /** Removing a key the map does not hold leaves it as it is. */
  lemma MinusAbsent<K, V>(m: map<K, V>, k: K)
    requires k !in m
    ensures m - {k} == m
  {
  }

  /** Removing two keys one after the other removes both. */
  lemma MinusTwo<K, V>(m: map<K, V>, a: K, b: K)
    ensures m - {a} - {b} == m - {a, b}
  {
  }

  /** Evicting a dead client does not change what clean_dead_clients leaves. */
  lemma CleanDeadAfterRemove(t: Tables, c: ClientRec, now: int)
    requires Inv(t) && Registered(t, c) && IsDead(c, now)
    ensures CleanDead(Remove(t, c), now) == CleanDead(t, now)
  {
    var l := CleanDead(Remove(t, c), now);
    var r := CleanDead(t, now);
    assert l.byAddr == r.byAddr;
    assert l.byVpn == r.byVpn;
    assert t.byVpn[c.vpnIP] == c;
    CleanDeadAfterRemoveConns(t, c, now);
  }

  lemma CleanDeadAfterRemoveConns(t: Tables, c: ClientRec, now: int)
    requires c.vpnIP in t.byVpn && IsDead(t.byVpn[c.vpnIP], now)
    ensures CleanDead(Remove(t, c), now).conns == CleanDead(t, now).conns
  {
    var t' := Remove(t, c);
    var l := CleanDead(t', now).conns;
    var r := CleanDead(t, now).conns;
    assert DeadEnd(t, c.vpnIP, now);
    forall k | k in t.conns
      ensures k in l <==> k in r
    {
      if k.0 != c.vpnIP && k.1 != c.vpnIP {
        DeadEndAfterRemove(t, c, k.0, now);
        DeadEndAfterRemove(t, c, k.1, now);
      }
    }
    assert l.Keys == r.Keys;
  }

  /** Removing a client leaves every other address's liveness as it was. */
  lemma DeadEndAfterRemove(t: Tables, c: ClientRec, ip: IPv4, now: int)
    requires ip != c.vpnIP
    ensures DeadEnd(Remove(t, c), ip, now) == DeadEnd(t, ip, now)
  {
  }

  /** With no dead client left, clean_dead_clients changes nothing. */
  lemma CleanDeadNoop(t: Tables, now: int)
    requires Inv(t) && forall w :: w in t.byVpn ==> !IsDead(t.byVpn[w], now)
    ensures CleanDead(t, now) == t
  {
    var r := CleanDead(t, now);
    assert r.byAddr == t.byAddr;
    assert r.byVpn == t.byVpn;
    assert r.conns == t.conns;
  }

  /** The session table while remove_sessions_with_client still has `todo` to look at. */
  ghost function Pending(c0: map<Key, ConnRec>, todo: set<Key>, ip: IPv4): map<Key, ConnRec> {
    map k | k in c0 && (k in todo || (k.0 != ip && k.1 != ip)) :: c0[k]
  }

  lemma PendingStep(c0: map<Key, ConnRec>, todo: set<Key>, ip: IPv4, k: Key)
    requires k in todo
    ensures k.0 == ip || k.1 == ip ==> Pending(c0, todo - {k}, ip) == Pending(c0, todo, ip) - {k}
    ensures !(k.0 == ip || k.1 == ip) ==> Pending(c0, todo - {k}, ip) == Pending(c0, todo, ip)
  {
  }
}

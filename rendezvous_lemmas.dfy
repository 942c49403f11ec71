/**
 * What the rendezvous decision table guarantees: the invariants every packet
 * preserves, and the behaviour of each message type.
 */
module RendezvousLemmas {
  import opened Wrappers
  import opened Wire
  import opened Rendezvous

  /** The client registered under `c.addr` is `c`. */
  predicate Registered(t: Tables, c: ClientRec) {
    c.addr in t.byAddr && t.byAddr[c.addr] == c
  }

  // ---------------------------------------------------------------------
  // Each table operation keeps the invariant

  lemma TouchKeepsInv(t: Tables, c: ClientRec, now: int)
    requires Inv(t) && Registered(t, c)
    ensures Inv(Touch(t, c, now))
    ensures Touch(t, c, now).byVpn.Keys == t.byVpn.Keys && Touch(t, c, now).conns == t.conns
  {
    var t' := Touch(t, c, now);
    forall a | a in t'.byAddr
      ensures t'.byAddr[a].addr == a && t'.byAddr[a].vpnIP in t'.byVpn && t'.byVpn[t'.byAddr[a].vpnIP] == t'.byAddr[a]
    {
      if a != c.addr {
        assert t.byAddr[a].vpnIP != c.vpnIP;
      }
    }
    forall v | v in t'.byVpn
      ensures t'.byVpn[v].vpnIP == v && t'.byVpn[v].addr in t'.byAddr && t'.byAddr[t'.byVpn[v].addr] == t'.byVpn[v]
    {
      if v != c.vpnIP {
        assert t.byVpn[v].addr != c.addr;
      }
    }
  }

  lemma AddKeepsInv(t: Tables, c: ClientRec, maxClients: nat)
    requires Inv(t) && c.addr !in t.byAddr && c.vpnIP !in t.byVpn
    requires maxClients == 0 || |t.byVpn| < maxClients
    ensures Inv(Add(t, c)) && WithinCap(Add(t, c), maxClients)
  {
  }

  lemma RemoveKeepsInv(t: Tables, c: ClientRec, maxClients: nat)
    requires Inv(t) && Registered(t, c) && WithinCap(t, maxClients)
    ensures Inv(Remove(t, c)) && WithinCap(Remove(t, c), maxClients)
    ensures Remove(t, c).byAddr.Keys <= t.byAddr.Keys && Remove(t, c).byVpn.Keys <= t.byVpn.Keys
    ensures Remove(t, c).conns.Keys <= t.conns.Keys
    ensures |Remove(t, c).byVpn| == |t.byVpn| - 1
  {
    RemoveIndexed(t, c);
    RemoveConnsWellFormed(t, c);
    RemoveCard(t, c);
  }

  lemma RemoveIndexed(t: Tables, c: ClientRec)
    requires Indexed(t) && Registered(t, c)
    ensures Indexed(Remove(t, c))
  {
    var t' := Remove(t, c);
    forall a | a in t'.byAddr
      ensures t'.byAddr[a].vpnIP in t'.byVpn && t'.byVpn[t'.byAddr[a].vpnIP] == t'.byAddr[a]
    {
      assert t.byAddr[a].vpnIP != c.vpnIP;
    }
    forall v | v in t'.byVpn
      ensures t'.byVpn[v].addr in t'.byAddr && t'.byAddr[t'.byVpn[v].addr] == t'.byVpn[v]
    {
      assert t.byVpn[v].addr != c.addr;
    }
  }

  lemma RemoveConnsWellFormed(t: Tables, c: ClientRec)
    requires ConnsWellFormed(t)
    ensures ConnsWellFormed(Remove(t, c)) && Remove(t, c).conns.Keys <= t.conns.Keys
  {
  }

  lemma RemoveCard(t: Tables, c: ClientRec)
    requires Indexed(t) && Registered(t, c)
    ensures Remove(t, c).byVpn.Keys == t.byVpn.Keys - {c.vpnIP} && c.vpnIP in t.byVpn
    ensures |Remove(t, c).byVpn| == |t.byVpn| - 1
  {
    var t' := Remove(t, c);
    assert t'.byVpn.Keys == t.byVpn.Keys - {c.vpnIP};
    SubsetCard(t'.byVpn.Keys, t.byVpn.Keys);
  }

  /** Removing a client that no session mentions leaves the session table as it is. */
  lemma RemoveUnlinked(t: Tables, c: ClientRec, maxClients: nat)
    requires Inv(t) && OneWay(t) && Registered(t, c) && WithinCap(t, maxClients)
    requires forall k {:trigger k in t.conns} :: k in t.conns ==> k.0 != c.vpnIP && k.1 != c.vpnIP
    ensures Remove(t, c) == t.(byAddr := t.byAddr - {c.addr}, byVpn := t.byVpn - {c.vpnIP})
    ensures Inv(Remove(t, c)) && OneWay(Remove(t, c)) && WithinCap(Remove(t, c), maxClients)
    ensures |Remove(t, c).byVpn| == |t.byVpn| - 1
  {
    assert WithoutSessionsOf(t.conns, c.vpnIP) == t.conns;
    RemoveKeepsInv(t, c, maxClients);
  }

  lemma CleanDeadKeepsInv(t: Tables, now: int, maxClients: nat)
    requires Inv(t) && WithinCap(t, maxClients)
    ensures Inv(CleanDead(t, now)) && WithinCap(CleanDead(t, now), maxClients)
    ensures CleanDead(t, now).byAddr.Keys <= t.byAddr.Keys && CleanDead(t, now).byVpn.Keys <= t.byVpn.Keys
  {
    var t' := CleanDead(t, now);
    forall k | k in t'.conns ensures k.0 in t'.byVpn && k.1 in t'.byVpn {
      assert !DeadEnd(t, k.0, now) && !DeadEnd(t, k.1, now);
    }
    SubsetCard(t'.byVpn.Keys, t.byVpn.Keys);
  }

  lemma OneWayOfSubset(t: Tables, t': Tables)
    requires OneWay(t) && t'.conns.Keys <= t.conns.Keys
    ensures OneWay(t')
  {
  }

  // ---------------------------------------------------------------------
  // Every packet keeps the invariant

  lemma HelloNewKeepsInv(t: Tables, from: SockAddr, msg: Msg, now: int, maxClients: nat, alloc: Alloc)
    requires Inv(t) && WithinCap(t, maxClients) && from !in t.byAddr
    ensures Inv(HelloNew(t, from, msg, now, maxClients, alloc).tables)
    ensures WithinCap(HelloNew(t, from, msg, now, maxClients, alloc).tables, maxClients)
    ensures HelloNew(t, from, msg, now, maxClients, alloc).tables.conns.Keys <= t.conns.Keys
  {
    if msg.ip1 in t.byVpn && !IsTimeout(t.byVpn[msg.ip1], now) {
    } else {
      var t1 := if msg.ip1 in t.byVpn then Remove(t, t.byVpn[msg.ip1]) else t;
      if msg.ip1 in t.byVpn {
        RemoveKeepsInv(t, t.byVpn[msg.ip1], maxClients);
      }
      var t2 := if maxClients != 0 && |t1.byVpn| == maxClients then CleanDead(t1, now) else t1;
      if maxClients != 0 && |t1.byVpn| == maxClients {
        CleanDeadKeepsInv(t1, now, maxClients);
      }
      assert from !in t2.byAddr && msg.ip1 !in t2.byVpn;
      if !(maxClients != 0 && |t2.byVpn| == maxClients) && alloc == Succeeds {
        AddKeepsInv(t2, NewClient(from, msg, now), maxClients);
      }
    }
  }

  lemma AskKeepsInv(t: Tables, c: ClientRec, msg: Msg, now: int, maxClients: nat, alloc: Alloc)
    requires Inv(t) && WithinCap(t, maxClients) && OneWay(t) && Registered(t, c)
    ensures Inv(Ask(t, c, msg, now, alloc).tables) && WithinCap(Ask(t, c, msg, now, alloc).tables, maxClients)
    ensures OneWay(Ask(t, c, msg, now, alloc).tables)
  {
    if msg.ip1 in t.byVpn {
      var r := t.byVpn[msg.ip1];
      if IsTimeout(r, now) {
        RemoveKeepsInv(t, r, maxClients);
        OneWayOfSubset(t, Remove(t, r));
      } else {
        var k := (c.vpnIP, r.vpnIP);
        if k in t.conns {
          var s := t.conns[k];
          ReplaceConnKeepsInv(t, k, s.(initTime := now, nbTries := Inc32(s.nbTries)));
        } else {
          var t1 := t.(conns := t.conns - {(r.vpnIP, c.vpnIP)});
          OneWayOfSubset(t, t1);
          if alloc == Succeeds {
            AddConnKeepsInv(t1, ConnRec(c.vpnIP, r.vpnIP, now, 0));
          }
        }
      }
    }
  }

  lemma ReplaceConnKeepsInv(t: Tables, k: Key, s: ConnRec)
    requires Inv(t) && OneWay(t) && k in t.conns && s.from == k.0 && s.to == k.1
    ensures Inv(t.(conns := t.conns[k := s])) && OneWay(t.(conns := t.conns[k := s]))
  {
  }

  lemma AddConnKeepsInv(t: Tables, s: ConnRec)
    requires Inv(t) && OneWay(t) && s.from in t.byVpn && s.to in t.byVpn && (s.to, s.from) !in t.conns
    ensures Inv(t.(conns := t.conns[(s.from, s.to) := s])) && OneWay(t.(conns := t.conns[(s.from, s.to) := s]))
  {
  }

  /** Every datagram leaves both indexes in agreement, every connection between registered clients, the registry within max_clients and no pair connected both ways. */
  lemma HandleKeepsInv(t: Tables, from: SockAddr, msg: Msg, now: int, maxClients: nat, alloc: Alloc)
    requires Inv(t) && WithinCap(t, maxClients) && OneWay(t)
    ensures Inv(Handle(t, from, msg, now, maxClients, alloc).tables)
    ensures WithinCap(Handle(t, from, msg, now, maxClients, alloc).tables, maxClients)
    ensures OneWay(Handle(t, from, msg, now, maxClients, alloc).tables)
  {
    if from !in t.byAddr {
      if msg.msgType == HELLO {
        HelloNewKeepsInv(t, from, msg, now, maxClients, alloc);
        OneWayOfSubset(t, HelloNew(t, from, msg, now, maxClients, alloc).tables);
      }
    } else {
      var c := t.byAddr[from];
      if msg.msgType == HELLO {
        HelloRegisteredKeepsInv(t, c, msg, now, maxClients, alloc);
      } else if msg.msgType == BYE {
        RemoveKeepsInv(t, c, maxClients);
        OneWayOfSubset(t, Remove(t, c));
      } else if msg.msgType == PING {
        TouchKeepsInv(t, c, now);
      } else if msg.msgType == ASK_CONNECTION {
        AskKeepsInv(t, c, msg, now, maxClients, alloc);
      } else if msg.msgType == CLOSE_CONNECTION {
        CloseKeepsInv(t, c, msg, maxClients);
      }
    }
  }

  lemma HelloRegisteredKeepsInv(t: Tables, c: ClientRec, msg: Msg, now: int, maxClients: nat, alloc: Alloc)
    requires Inv(t) && WithinCap(t, maxClients) && OneWay(t) && Registered(t, c)
    ensures Inv(HelloRegistered(t, c, msg, now, maxClients, alloc).tables)
    ensures WithinCap(HelloRegistered(t, c, msg, now, maxClients, alloc).tables, maxClients)
    ensures OneWay(HelloRegistered(t, c, msg, now, maxClients, alloc).tables)
  {
    if IsTimeout(c, now) {
      if msg.ip1 == c.vpnIP {
        TouchKeepsInv(t, c, now);
      } else {
        var t1 := Remove(t, c);
        RemoveKeepsInv(t, c, maxClients);
        HelloNewKeepsInv(t1, c.addr, msg, now, maxClients, alloc);
        OneWayOfSubset(t, HelloNew(t1, c.addr, msg, now, maxClients, alloc).tables);
      }
    }
  }

  lemma CloseKeepsInv(t: Tables, c: ClientRec, msg: Msg, maxClients: nat)
    requires Inv(t) && WithinCap(t, maxClients) && OneWay(t)
    ensures Inv(Close(t, c, msg).tables) && WithinCap(Close(t, c, msg).tables, maxClients)
    ensures OneWay(Close(t, c, msg).tables)
  {
    OneWayOfSubset(t, Close(t, c, msg).tables);
  }

  /** The periodic clean-up keeps the invariant too. */
  lemma CleanDeadKeepsOneWay(t: Tables, now: int, maxClients: nat)
    requires Inv(t) && WithinCap(t, maxClients) && OneWay(t)
    ensures Inv(CleanDead(t, now)) && WithinCap(CleanDead(t, now), maxClients) && OneWay(CleanDead(t, now))
  {
    CleanDeadKeepsInv(t, now, maxClients);
    OneWayOfSubset(t, CleanDead(t, now));
  }

  // ---------------------------------------------------------------------
  // Behaviour of each message type

  /** A datagram that is not exactly one message long changes nothing and gets no reply. */
  lemma WrongLengthIgnored(t: Tables, from: SockAddr, data: seq<uint8>, now: int, maxClients: nat, alloc: Alloc)
    requires |data| != MSG_LENGTH
    ensures Receive(t, from, data, now, maxClients, alloc) == Outcome(t, [])
  {
  }

  /** Anything but HELLO from an unknown address only earns a RECONNECT. */
  lemma UnknownSenderReconnect(t: Tables, from: SockAddr, msg: Msg, now: int, maxClients: nat, alloc: Alloc)
    requires from !in t.byAddr && msg.msgType != HELLO
    ensures Handle(t, from, msg, now, maxClients, alloc) == Outcome(t, [Reply(from, RECONNECT)])
    ensures Handle(t, from, msg, now, maxClients, alloc).out[0].msg.msgType == RECONNECT
  {
  }

  /** HELLO for a VPN IP that a live client holds is refused and changes nothing. */
  lemma HelloForHeldVpnRefused(t: Tables, from: SockAddr, msg: Msg, now: int, maxClients: nat, alloc: Alloc)
    requires from !in t.byAddr && msg.msgType == HELLO
    requires msg.ip1 in t.byVpn && !IsTimeout(t.byVpn[msg.ip1], now)
    ensures Handle(t, from, msg, now, maxClients, alloc) == Outcome(t, [Reply(from, NOK)])
  {
  }

  /** A timed-out holder of the VPN IP is evicted with its connections, and the newcomer takes its place. */
  lemma HelloEvictsTimedOutHolder(t: Tables, from: SockAddr, msg: Msg, now: int, maxClients: nat, alloc: Alloc)
    requires Inv(t) && WithinCap(t, maxClients) && from !in t.byAddr && msg.msgType == HELLO
    requires msg.ip1 in t.byVpn && IsTimeout(t.byVpn[msg.ip1], now) && alloc == Succeeds
    ensures var h := t.byVpn[msg.ip1];
            var r := Handle(t, from, msg, now, maxClients, alloc);
            r.out == [Reply(from, OK)]
            && h.addr !in r.tables.byAddr
            && r.tables.byVpn[msg.ip1] == r.tables.byAddr[from] == NewClient(from, msg, now)
            && (forall k :: k in r.tables.conns ==> k.0 != msg.ip1 && k.1 != msg.ip1)
  {
    var h := t.byVpn[msg.ip1];
    assert h.addr != from;
    RemoveCard(t, h);
  }

  /** With max_clients reached, dead clients are cleaned first; if none was dead the HELLO is refused. */
  lemma HelloWhenFull(t: Tables, from: SockAddr, msg: Msg, now: int, maxClients: nat, alloc: Alloc)
    requires from !in t.byAddr && msg.msgType == HELLO && msg.ip1 !in t.byVpn
    requires maxClients != 0 && |t.byVpn| == maxClients
    ensures var r := Handle(t, from, msg, now, maxClients, alloc);
            (|CleanDead(t, now).byVpn| == maxClients ==> r == Outcome(CleanDead(t, now), [Reply(from, NOK)]))
            && (|CleanDead(t, now).byVpn| != maxClients && alloc == Succeeds ==>
                  r.tables == Add(CleanDead(t, now), NewClient(from, msg, now)) && r.out == [Reply(from, OK)])
  {
  }

  /** The local address is recorded only when the HELLO carries a non-zero port. */
  lemma NewClientLocalAddress(from: SockAddr, msg: Msg, now: int)
    ensures NewClient(from, msg, now).addr == from && NewClient(from, msg, now).vpnIP == msg.ip1
    ensures msg.port != 0 ==> NewClient(from, msg, now).local == SockAddr(msg.ip2, msg.port)
    ensures msg.port == 0 ==> NewClient(from, msg, now).local.port == 0
  {
  }

  /** HELLO from a registered address: refused while live, refreshed for the same VPN IP, replaced for another. */
  lemma HelloFromRegistered(t: Tables, from: SockAddr, msg: Msg, now: int, maxClients: nat, alloc: Alloc)
    requires Inv(t) && WithinCap(t, maxClients) && from in t.byAddr && msg.msgType == HELLO
    ensures var c := t.byAddr[from];
            var r := Handle(t, from, msg, now, maxClients, alloc);
            (!IsTimeout(c, now) ==> r == Outcome(t, [Reply(from, NOK)]))
            && (IsTimeout(c, now) && msg.ip1 == c.vpnIP ==>
                  r.out == [Reply(from, OK)] && from in r.tables.byAddr && r.tables.byAddr[from] == c.(lastSeen := now)
                  && r.tables.byAddr.Keys == t.byAddr.Keys && r.tables.conns == t.conns)
            && (IsTimeout(c, now) && msg.ip1 != c.vpnIP && msg.ip1 !in t.byVpn && alloc == Succeeds ==>
                  r.out == [Reply(from, OK)] && c.vpnIP !in r.tables.byVpn
                  && from in r.tables.byAddr && r.tables.byAddr[from] == NewClient(from, msg, now)
                  && (forall k :: k in r.tables.conns ==> k.0 != c.vpnIP && k.1 != c.vpnIP))
  {
    var c := t.byAddr[from];
    if IsTimeout(c, now) && msg.ip1 != c.vpnIP && msg.ip1 !in t.byVpn && alloc == Succeeds {
      var t1 := Remove(t, c);
      RemoveCard(t, c);
      assert !(maxClients != 0 && |t1.byVpn| == maxClients);
      assert HelloNew(t1, from, msg, now, maxClients, alloc) == Outcome(Add(t1, NewClient(from, msg, now)), [Reply(from, OK)]);
    }
  }

  /** BYE drops the sender and every connection it takes part in, with no reply. */
  lemma ByeRemovesSender(t: Tables, from: SockAddr, msg: Msg, now: int, maxClients: nat, alloc: Alloc)
    requires Inv(t) && from in t.byAddr && msg.msgType == BYE
    ensures var c := t.byAddr[from];
            var r := Handle(t, from, msg, now, maxClients, alloc);
            r.out == [] && from !in r.tables.byAddr && c.vpnIP !in r.tables.byVpn
            && (forall k :: k in r.tables.conns <==> k in t.conns && k.0 != c.vpnIP && k.1 != c.vpnIP)
  {
  }

  /** PING answers PONG and refreshes only the sender's time. */
  lemma PingRefreshes(t: Tables, from: SockAddr, msg: Msg, now: int, maxClients: nat, alloc: Alloc)
    requires Inv(t) && from in t.byAddr && msg.msgType == PING
    ensures var c := t.byAddr[from];
            var c' := c.(lastSeen := now);
            var r := Handle(t, from, msg, now, maxClients, alloc);
            r.out == [Reply(from, PONG)] && r.tables.conns == t.conns
            && r.tables.byAddr == t.byAddr[from := c'] && r.tables.byVpn == t.byVpn[c.vpnIP := c']
            && r.tables.byAddr.Keys == t.byAddr.Keys && r.tables.byVpn.Keys == t.byVpn.Keys
  {
  }

  /** ASK for an unknown or timed-out client is rejected with the asked IP; a timed-out one is evicted. */
  lemma AskRejected(t: Tables, from: SockAddr, msg: Msg, now: int, maxClients: nat, alloc: Alloc)
    requires Inv(t) && from in t.byAddr && msg.msgType == ASK_CONNECTION
    requires msg.ip1 !in t.byVpn || IsTimeout(t.byVpn[msg.ip1], now)
    ensures var r := Handle(t, from, msg, now, maxClients, alloc);
            r.out == [Reject(from, msg.ip1)] && r.out[0].msg.ip1 == msg.ip1
            && msg.ip1 !in r.tables.byVpn
            && (msg.ip1 !in t.byVpn ==> r.tables == t)
  {
  }

  /**
   * A new ASK from c to a live target r: the reverse request r->c is dropped and
   * exactly one c->r entry is added; ANS goes to c and FWD to r.
   */
  lemma AskNewConnection(t: Tables, from: SockAddr, msg: Msg, now: int, maxClients: nat)
    requires Inv(t) && from in t.byAddr && msg.msgType == ASK_CONNECTION
    requires msg.ip1 in t.byVpn && !IsTimeout(t.byVpn[msg.ip1], now)
    requires (t.byAddr[from].vpnIP, msg.ip1) !in t.conns
    ensures var c := t.byAddr[from];
            var rc := t.byVpn[msg.ip1];
            var r := Handle(t, from, msg, now, maxClients, Succeeds);
            r.tables.byAddr == t.byAddr && r.tables.byVpn == t.byVpn
            && r.tables.conns[(c.vpnIP, msg.ip1)] == ConnRec(c.vpnIP, msg.ip1, now, 0)
            && (c.vpnIP != msg.ip1 ==> (msg.ip1, c.vpnIP) !in r.tables.conns)
            && (forall k :: k != (c.vpnIP, msg.ip1) && k != (msg.ip1, c.vpnIP) ==>
                  (k in r.tables.conns <==> k in t.conns) && (k in t.conns ==> r.tables.conns[k] == t.conns[k]))
            && r.out == [Introduce(ANS_CONNECTION, c, rc, SendLocal(c, rc)), Introduce(FWD_CONNECTION, rc, c, SendLocal(c, rc))]
            && r.out[0].to == from && r.out[1].to == rc.addr
  {
  }

  /** A repeated ASK re-sends ANS and FWD and only refreshes the existing entry's time and retry count. */
  lemma AskRepeated(t: Tables, from: SockAddr, msg: Msg, now: int, maxClients: nat, alloc: Alloc)
    requires Inv(t) && from in t.byAddr && msg.msgType == ASK_CONNECTION
    requires msg.ip1 in t.byVpn && !IsTimeout(t.byVpn[msg.ip1], now)
    requires (t.byAddr[from].vpnIP, msg.ip1) in t.conns
    ensures var k := (t.byAddr[from].vpnIP, msg.ip1);
            var r := Handle(t, from, msg, now, maxClients, alloc);
            r.tables.byAddr == t.byAddr && r.tables.byVpn == t.byVpn
            && r.tables.conns.Keys == t.conns.Keys
            && r.tables.conns[k] == t.conns[k].(initTime := now, nbTries := Inc32(t.conns[k].nbTries))
            && (forall k' :: k' in t.conns && k' != k ==> r.tables.conns[k'] == t.conns[k'])
            && var c := t.byAddr[from];
               var rc := t.byVpn[msg.ip1];
               r.out == [Introduce(ANS_CONNECTION, c, rc, SendLocal(c, rc)), Introduce(FWD_CONNECTION, rc, c, SendLocal(c, rc))]
               && r.out[0].to == from && r.out[1].to == rc.addr
  {
  }

  /** C only: when the new session cannot be allocated, the reverse one is still gone and the asker gets REJ_CONNECTION. */
  lemma AskAllocationFails(t: Tables, from: SockAddr, msg: Msg, now: int, maxClients: nat, alloc: Alloc)
    requires Inv(t) && from in t.byAddr && msg.msgType == ASK_CONNECTION && alloc != Succeeds
    requires msg.ip1 in t.byVpn && !IsTimeout(t.byVpn[msg.ip1], now)
    requires (t.byAddr[from].vpnIP, msg.ip1) !in t.conns
    ensures var r := Handle(t, from, msg, now, maxClients, alloc);
            r.out == [Reject(from, msg.ip1)]
            && r.tables.conns == t.conns - {(msg.ip1, t.byAddr[from].vpnIP)}
  {
  }

  /** The local endpoint is disclosed exactly when both clients announced one and share a public IP. */
  lemma IntroduceEndpoint(tag: uint8, to: ClientRec, about: ClientRec)
    ensures var m := Introduce(tag, to, about, SendLocal(to, about)).msg;
            (m.ip1 == about.local.ip && m.port == about.local.port
               <== to.local.port != 0 && about.local.port != 0 && to.addr.ip == about.addr.ip)
            && (m.ip1 == about.addr.ip && m.port == about.addr.port
               <== !(to.local.port != 0 && about.local.port != 0 && to.addr.ip == about.addr.ip))
            && m.ip2 == about.vpnIP
  {
  }

  /** CLOSE_CONNECTION drops the requests between the two clients in both directions and nothing else. */
  lemma CloseBothWays(t: Tables, from: SockAddr, msg: Msg, now: int, maxClients: nat, alloc: Alloc)
    requires Inv(t) && from in t.byAddr && msg.msgType == CLOSE_CONNECTION && msg.ip1 in t.byVpn
    ensures var v := t.byAddr[from].vpnIP;
            var r := Handle(t, from, msg, now, maxClients, alloc);
            r.out == [] && (v, msg.ip1) !in r.tables.conns && (msg.ip1, v) !in r.tables.conns
            && r.tables == t.(conns := t.conns - {(v, msg.ip1), (msg.ip1, v)})
  {
  }

  /** clean_dead_clients removes exactly the dead clients and every connection that involves one. */
  lemma CleanDeadExact(t: Tables, now: int)
    requires Inv(t)
    ensures var r := CleanDead(t, now);
            (forall v :: v in r.byVpn <==> v in t.byVpn && !IsDead(t.byVpn[v], now))
            && (forall a :: a in r.byAddr <==> a in t.byAddr && !IsDead(t.byAddr[a], now))
            && (forall k :: k in r.conns ==> !IsDead(r.byVpn[k.0], now) && !IsDead(r.byVpn[k.1], now))
            && (forall k :: k in t.conns && !IsDead(t.byVpn[k.0], now) && !IsDead(t.byVpn[k.1], now) ==> k in r.conns)
  {
    CleanDeadKeepsInv(t, now, 0);
  }

  /** A client that is dead is also timed out. */
  lemma DeadIsTimedOut(c: ClientRec, now: int)
    requires IsDead(c, now)
    ensures IsTimeout(c, now)
  {
  }

  // ---------------------------------------------------------------------
  // Re-registration under another VPN IP, as the source does it

  const A: SockAddr := SockAddr([10, 0, 0, 1], 4000)
  const B: SockAddr := SockAddr([10, 0, 0, 2], 4000)
  const VA: IPv4 := [192, 168, 1, 1]
  const VB: IPv4 := [192, 168, 1, 2]

  /**
   * Client A (timed out, VPN IP VA) and client B (live, VPN IP VB) are
   * registered; A says HELLO claiming VB. The Java server re-registers A under VB
   * without looking at B: the VPN index now names A while B is still in the
   * address index under VB, so the indexes disagree and two clients claim VB.
   */
  lemma ReRegisterAsWrittenBreaksIndexes()
    ensures var ca := ClientRec(A, VA, SockAddr(EMPTY_IP, 0), 0);
            var cb := ClientRec(B, VB, SockAddr(EMPTY_IP, 0), 100);
            var t := Tables(map[A := ca, B := cb], map[VA := ca, VB := cb], map[]);
            var msg := Msg(HELLO, 0, VB, EMPTY_IP);
            Inv(t) && IsTimeout(ca, 100) && !IsTimeout(cb, 100)
            && !Indexed(HelloRegisteredAsWritten(t, ca, msg, 100, Succeeds).tables)
            && HelloRegisteredAsWritten(t, ca, msg, 100, Succeeds).out == [Reply(A, OK)]
            && Handle(t, A, msg, 100, 0, Succeeds) == Outcome(Remove(t, ca), [Reply(A, NOK)])
  {
    var ca := ClientRec(A, VA, SockAddr(EMPTY_IP, 0), 0);
    var cb := ClientRec(B, VB, SockAddr(EMPTY_IP, 0), 100);
    var t := Tables(map[A := ca, B := cb], map[VA := ca, VB := cb], map[]);
    var msg := Msg(HELLO, 0, VB, EMPTY_IP);
    assert A != B && VA != VB by { assert A.ip[3] != B.ip[3]; assert VA[3] != VB[3]; }
    var r := HelloRegisteredAsWritten(t, ca, msg, 100, Succeeds).tables;
    assert B in r.byAddr && r.byAddr[B] == cb;
    assert r.byVpn[VB] != cb;
  }

  /**
   * The same HELLO in the C server: A is re-registered and gets OK, but the
   * VPN tree still names B under VB, so A's record is not found by its VPN IP
   * and the indexes disagree too.
   */
  lemma ReRegisterAsWrittenInCBreaksIndexes()
    ensures var ca := ClientRec(A, VA, SockAddr(EMPTY_IP, 0), 0);
            var cb := ClientRec(B, VB, SockAddr(EMPTY_IP, 0), 100);
            var t := Tables(map[A := ca, B := cb], map[VA := ca, VB := cb], map[]);
            var msg := Msg(HELLO, 0, VB, EMPTY_IP);
            var r := HelloRegisteredAsWrittenInC(t, ca, msg, 100, Succeeds);
            Inv(t) && IsTimeout(ca, 100) && !IsTimeout(cb, 100)
            && r.out == [Reply(A, OK)]
            && A in r.tables.byAddr && r.tables.byAddr[A].vpnIP == VB
            && VB in r.tables.byVpn && r.tables.byVpn[VB] == cb
            && !Indexed(r.tables)
  {
    var ca := ClientRec(A, VA, SockAddr(EMPTY_IP, 0), 0);
    var cb := ClientRec(B, VB, SockAddr(EMPTY_IP, 0), 100);
    var t := Tables(map[A := ca, B := cb], map[VA := ca, VB := cb], map[]);
    var msg := Msg(HELLO, 0, VB, EMPTY_IP);
    assert A != B && VA != VB by { assert A.ip[3] != B.ip[3]; assert VA[3] != VB[3]; }
    var r := HelloRegisteredAsWrittenInC(t, ca, msg, 100, Succeeds).tables;
    assert r.byAddr[A].vpnIP == VB && r.byVpn[VB] == cb;
    assert r.byVpn[r.byAddr[A].vpnIP] != r.byAddr[A];
  }
}

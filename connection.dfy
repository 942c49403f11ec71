/**
 * A connection request between two clients (Connection in Java, struct
 * session in C) and the two ways the server keys them.
 */
module Connections {
  import opened Wire
  import opened Rendezvous
  import opened Peers

  class Connection {
    /** The client that asked. */
    const client1: Client
    /** The client that is asked for. */
    const client2: Client
    var initTime: int
    /** Number of repeated requests; no limit is placed on it. */
    var nbTries: int32

    constructor (client1: Client, client2: Client, now: int)
      ensures this.client1 == client1 && this.client2 == client2
      ensures initTime == now && nbTries == 0
    {
      this.client1 := client1;
      this.client2 := client2;
      initTime := now;
      nbTries := 0;
    }

    /** The connection as a value: the VPN IPs of both ends, its time and retry count. */
    function Rec(): ConnRec
      reads this
    {
      ConnRec(client1.vpnIP, client2.vpnIP, initTime, nbTries)
    }

    /** updateTime: a new start time and one more try. */
    method UpdateTime(now: int)
      modifies this
      ensures initTime == now && nbTries == Inc32(old(nbTries))
      ensures Rec() == old(Rec()).(initTime := now, nbTries := Inc32(old(nbTries)))
    {
      initTime := now;
      nbTries := if nbTries == 0x7fff_ffff then -0x8000_0000 else nbTries + 1;
    }

    /** getTries. */
    function GetTries(): (n: int32)
      reads this
      ensures n == Rec().nbTries
    {
      nbTries
    }
  }

  /** ConnectionKey.equals: the asker's VPN IPs match and the target's VPN IPs match. */
  function KeyEquals(k1: Key, k2: Key): bool {
    k1.0 == k2.0 && k1.1 == k2.1
  }

  /** Key equality is directional: (a, b) and (b, a) are the same key only when a == b. */
  lemma KeyEqualsDirectional(a: IPv4, b: IPv4)
    ensures KeyEquals((a, b), (b, a)) <==> a == b
    ensures KeyEquals((a, b), (a, b))
  {
  }

  /** KeyEquals is exactly equality of ordered pairs, so a map keyed by pairs models the HashMap. */
  lemma KeyEqualsIsEquality(k1: Key, k2: Key)
    ensures KeyEquals(k1, k2) <==> k1 == k2
  {
  }

  /** compare_sessions: lexicographic on the addresses of (peer1, peer2). */
  function CompareSessions(p1: nat, p2: nat, q1: nat, q2: nat): int {
    if p1 < q1 then -1
    else if p1 == q1 then
      if p2 < q2 then -1
      else if p2 == q2 then 0
      else 1
    else 1
  }

  /** Sessions compare equal exactly when both peers match in order, so (a, b) and (b, a) are distinct sessions unless a == b. */
  lemma CompareSessionsIsOrder(p1: nat, p2: nat, q1: nat, q2: nat)
    ensures CompareSessions(p1, p2, q1, q2) == 0 <==> p1 == q1 && p2 == q2
    ensures CompareSessions(p1, p2, p2, p1) == 0 <==> p1 == p2
    ensures CompareSessions(q1, q2, p1, p2) == -CompareSessions(p1, p2, q1, q2)
  {
  }
}

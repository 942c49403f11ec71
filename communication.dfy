/**
 * Pieces of the client's communication code: the message initialiser,
 * the internet checksum, and the rewriting of a packet sent to the VPN
 * broadcast address before it goes to the TUN device.
 *
 * 16-bit loads are taken most significant byte first, as on a big-endian
 * host. For the fully folded checksum (Csum) this is no restriction: by the
 * byte-order independence of the one's complement sum (section 2(B) of
 * RFC 1071) its bytes are the same on either host. The one-fold
 * compute_csum (CsumAsWritten) lacks that independence, since whether the
 * fold carries depends on how bytes pair into words; the model describes
 * it on a big-endian host.
 */
module Communication {
  import opened Wire

  // ---------------------------------------------------------------------
  // init_smsg
  // ---------------------------------------------------------------------

  /** init_smsg: a zeroed message with its type and both addresses set; the port stays 0. */
  function InitSmsg(msgType: uint8, ip1: IPv4, ip2: IPv4): (m: Msg)
    ensures m.port == 0
  {
    Msg(msgType, 0, ip1, ip2)
  }

  /** On the wire: the type, two zero port bytes, then the two addresses. */
  lemma InitSmsgBytes(msgType: uint8, ip1: IPv4, ip2: IPv4)
    ensures ToBytes(InitSmsg(msgType, ip1, ip2)) == [msgType, 0, 0] + ip1 + ip2
  {
  }

  /** The keepalive PING (both addresses 0) is the preformatted PING the server expects. */
  lemma PingIsPreformatted()
    ensures ToBytes(InitSmsg(PING, EMPTY_IP, EMPTY_IP)) == Preformatted(PING)
  {
    InitSmsgBytes(PING, EMPTY_IP, EMPTY_IP);
  }

  // ---------------------------------------------------------------------
  // compute_csum
  // ---------------------------------------------------------------------

  /** The 16-bit word made of two consecutive bytes. */
  function Word(hi: uint8, lo: uint8): (w: nat)
    ensures w < 0x1_0000
  {
    (hi as int) * 256 + lo
  }

  /**
   * The sum compute_csum accumulates: one word per pair of bytes, and a
   * trailing odd byte shifted left by 8.
   */
  function WordSum(data: seq<uint8>): (s: nat)
    ensures s <= (|data| / 2) * 0xffff + 0xff00
  {
    if |data| == 0 then 0
    else if |data| == 1 then (data[0] as int) * 256
    else Word(data[0], data[1]) + WordSum(data[2..])
  }

  /** The sum of an even-length prefix and what follows it. */
  lemma {:induction false} WordSumSplit(a: seq<uint8>, b: seq<uint8>)
    requires |a| % 2 == 0
    ensures WordSum(a + b) == WordSum(a) + WordSum(b)
    decreases |a|
  {
    if |a| > 0 {
      assert (a + b)[2..] == a[2..] + b;
      WordSumSplit(a[2..], b);
    } else {
      assert a + b == b;
    }
  }

  /** `sum = (sum >> 16) + (sum & 0xffff)` on a non-negative sum. */
  function FoldOnce(sum: nat): nat {
    sum / 0x1_0000 + sum % 0x1_0000
  }

  /** Folding keeps the value modulo 0xffff, since 0x10000 is 1 modulo 0xffff. */
  lemma FoldOnceMod(sum: nat)
    ensures FoldOnce(sum) % 0xffff == sum % 0xffff
    ensures sum > 0xffff ==> FoldOnce(sum) < sum
    ensures sum > 0 ==> FoldOnce(sum) > 0
  {
    var q := sum / 0x1_0000;
    var r := sum % 0x1_0000;
    assert sum == q * 0x1_0000 + r;
    assert sum - FoldOnce(sum) == q * 0xffff;
  }

  /** The checksum as the program computes it: one fold, then the complement cut to 16 bits. */
  function CsumAsWritten(data: seq<uint8>): (c: nat)
    ensures c <= 0xffff
  {
    0xffff - FoldOnce(WordSum(data)) % 0x1_0000
  }

  /** compute_csum: the word loop, the odd byte, one fold, the complement. */
  method ComputeCsum(data: seq<uint8>) returns (c: int)
    requires |data| <= 0xffff
    ensures c == CsumAsWritten(data)
  {
    var sum := 0;
    var pos := 0;
    var count := |data|;
    while count > 1
      invariant 0 <= pos <= |data| && count == |data| - pos
      invariant sum + WordSum(data[pos..]) == WordSum(data)
      invariant sum <= (pos / 2) * 0xffff
      invariant pos % 2 == 0
      decreases count
    {
      assert data[pos..][2..] == data[pos + 2..];
      sum := sum + Word(data[pos], data[pos + 1]);
      pos := pos + 2;
      count := count - 2;
    }
    if count > 0 {
      sum := sum + (data[pos] as int) * 256;
    }
    assert sum < 0x8000_0000;
    sum := sum / 0x1_0000 + sum % 0x1_0000;
    c := 0xffff - sum % 0x1_0000;
  }

  /** The end-around-carry sum: fold until the value fits in 16 bits. */
  function Fold(sum: nat): (r: nat)
    ensures r <= 0xffff
    ensures r % 0xffff == sum % 0xffff
    ensures sum > 0 ==> r > 0
    decreases sum
  {
    FoldOnceMod(sum);
    if sum <= 0xffff then sum else Fold(FoldOnce(sum))
  }

  /** The internet checksum of RFC 1071: the complement of the folded sum. */
  function Csum(data: seq<uint8>): (c: nat)
    ensures c <= 0xffff
  {
    0xffff - Fold(WordSum(data))
  }

  /** A positive multiple of 0xffff folds to 0xffff (-0 in one's complement). */
  lemma FoldMultiple(x: nat)
    requires x > 0 && x % 0xffff == 0
    ensures Fold(x) == 0xffff
  {
    var r := Fold(x);
    assert 0 < r <= 0xffff && r % 0xffff == 0;
  }

  /** Numbers equal modulo 0xffff differ by a multiple of 0xffff. */
  lemma SameRemainder(a: nat, b: nat)
    requires b <= a && a % 0xffff == b % 0xffff
    ensures (a - b + 0xffff) % 0xffff == 0
  {
    var qa, qb := a / 0xffff, b / 0xffff;
    assert a == qa * 0xffff + a % 0xffff;
    assert b == qb * 0xffff + b % 0xffff;
    assert a - b + 0xffff == (qa - qb + 1) * 0xffff;
  }

  /**
   * Adding the checksum to the data's sum gives all ones after folding:
   * the receiver's check of section 1 of RFC 1071 succeeds.
   */
  lemma CsumVerifies(data: seq<uint8>)
    ensures Fold(WordSum(data) + Csum(data)) == 0xffff
  {
    var s := WordSum(data);
    var f := Fold(s);
    FoldNotAbove(s);
    SameRemainder(s, f);
    FoldMultiple(s - f + 0xffff);
  }

  /** Folding never increases the sum. */
  lemma {:induction false} FoldNotAbove(sum: nat)
    ensures Fold(sum) <= sum
    decreases sum
  {
    if sum > 0xffff {
      FoldOnceMod(sum);
      FoldNotAbove(FoldOnce(sum));
    }
  }

  /** The two definitions agree when one fold is enough. */
  lemma CsumAgreesWithoutCarry(data: seq<uint8>)
    requires FoldOnce(WordSum(data)) <= 0xffff
    ensures CsumAsWritten(data) == Csum(data)
  {
    var s := WordSum(data);
    FoldOnceMod(s);
    if s > 0xffff {
      assert Fold(s) == Fold(FoldOnce(s));
    }
  }

  /**
   * Words 0xffff, 0xffff, 0x0001 sum to 0x1ffff; one fold leaves 0x10000,
   * whose carry the 16-bit cut drops. The program's checksum then fails
   * the receiver's check.
   */
  lemma CsumAsWrittenLosesCarry()
    ensures WordSum([0xff, 0xff, 0xff, 0xff, 0x00, 0x01]) == 0x1ffff
    ensures CsumAsWritten([0xff, 0xff, 0xff, 0xff, 0x00, 0x01]) == 0xffff
    ensures Csum([0xff, 0xff, 0xff, 0xff, 0x00, 0x01]) == 0xfffe
    ensures Fold(0x1ffff + CsumAsWritten([0xff, 0xff, 0xff, 0xff, 0x00, 0x01])) != 0xffff
  {
    var d: seq<uint8> := [0xff, 0xff, 0xff, 0xff, 0x00, 0x01];
    assert d[2..][2..] == [0x00, 0x01];
    assert d[2..][2..][2..] == [];
    assert Fold(0x1ffff) == Fold(0x10000) == Fold(1);
    assert Fold(0x2fffe) == Fold(0x10000);
  }

  // ---------------------------------------------------------------------
  // Broadcast readdressing
  // ---------------------------------------------------------------------

  /** The fixed IPv4 header: sizeof(struct ip). */
  const IP_HEADER: nat := 20

  /** The destination address of an IPv4 packet. */
  function Destination(packet: seq<uint8>): IPv4
    requires |packet| >= IP_HEADER
  {
    packet[16..20]
  }

  /** The header checksum field, bytes 10 and 11. */
  function WithChecksum(packet: seq<uint8>, c: nat): (p: seq<uint8>)
    requires |packet| >= IP_HEADER && c <= 0xffff
    ensures |p| == |packet|
  {
    packet[..10] + [c / 256, c % 256] + packet[12..]
  }

  /**
   * A packet sent to the VPN broadcast address goes to the node's own VPN
   * address instead, with its header checksum recomputed over the 20-byte
   * header (checksum field zeroed first). Other packets pass unchanged.
   */
  function Readdress(packet: seq<uint8>, broadcast: IPv4, vpnIP: IPv4): (p: seq<uint8>)
    requires |packet| >= IP_HEADER
    ensures |p| == |packet|
  {
    if Destination(packet) != broadcast then packet
    else
      var moved := packet[..16] + vpnIP + packet[20..];
      var zeroed := WithChecksum(moved, 0);
      WithChecksum(zeroed, Csum(zeroed[..IP_HEADER]))
  }

  /** The sum over the header with the checksum field set to `c` is the sum with it zeroed, plus `c`. */
  lemma ChecksumFieldSum(header: seq<uint8>, c: nat)
    requires |header| == IP_HEADER && c <= 0xffff
    ensures WordSum(WithChecksum(header, c)) == WordSum(WithChecksum(header, 0)) + c
  {
    var h := WithChecksum(header, c);
    var z := WithChecksum(header, 0);
    assert h == header[..10] + ([c / 256, c % 256] + header[12..]);
    assert z == header[..10] + ([0, 0] + header[12..]);
    WordSumSplit(header[..10], [c / 256, c % 256] + header[12..]);
    WordSumSplit(header[..10], [0, 0] + header[12..]);
    var field: seq<uint8> := [c / 256, c % 256];
    var zero: seq<uint8> := [0, 0];
    WordSumSplit(field, header[12..]);
    WordSumSplit(zero, header[12..]);
    assert field[2..] == [] && zero[2..] == [];
  }

  /**
   * A readdressed packet is sent to the node's own VPN address, keeps
   * every other byte outside the checksum field, and its header passes
   * the checksum check.
   */
  lemma ReaddressBroadcast(packet: seq<uint8>, broadcast: IPv4, vpnIP: IPv4)
    requires |packet| >= IP_HEADER && Destination(packet) == broadcast
    ensures var p := Readdress(packet, broadcast, vpnIP);
      Destination(p) == vpnIP
      && p[..10] == packet[..10] && p[12..16] == packet[12..16] && p[20..] == packet[20..]
      && Fold(WordSum(p[..IP_HEADER])) == 0xffff
  {
    var moved := packet[..16] + vpnIP + packet[20..];
    var zeroed := WithChecksum(moved, 0);
    var c := Csum(zeroed[..IP_HEADER]);
    var p := WithChecksum(zeroed, c);
    assert p[..IP_HEADER] == WithChecksum(zeroed[..IP_HEADER], c);
    assert zeroed[..IP_HEADER] == WithChecksum(zeroed[..IP_HEADER], 0);
    ChecksumFieldSum(zeroed[..IP_HEADER], c);
    CsumVerifies(zeroed[..IP_HEADER]);
  }

  /**
   * When one fold of the header sum leaves no carry, the checksum the
   * readdressing writes is the one compute_csum computes.
   */
  lemma ReaddressAsProgram(packet: seq<uint8>, broadcast: IPv4, vpnIP: IPv4)
    requires |packet| >= IP_HEADER && Destination(packet) == broadcast
    requires FoldOnce(WordSum(WithChecksum(packet[..16] + vpnIP + packet[20..], 0)[..IP_HEADER])) <= 0xffff
    ensures var zeroed := WithChecksum(packet[..16] + vpnIP + packet[20..], 0);
            Readdress(packet, broadcast, vpnIP) == WithChecksum(zeroed, CsumAsWritten(zeroed[..IP_HEADER]))
  {
    var zeroed := WithChecksum(packet[..16] + vpnIP + packet[20..], 0);
    CsumAgreesWithoutCarry(zeroed[..IP_HEADER]);
  }
}

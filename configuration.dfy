/**
 * The client's configuration checks: the broadcast address and netmask
 * derived from the "network" option in CIDR notation, and the lower
 * bounds on the numeric options of the CLIENT and NETWORK sections.
 *
 * Addresses are 32-bit values taken with their first octet most
 * significant. The program keeps them in network byte order and converts
 * the netmask with htonl before combining the two, which is the same
 * computation on the same octets.
 */
module Configuration {
  import opened Wrappers
  import ConfigParser
  import ConfigIO

  const ALL_ONES: bv32 := 0xffff_ffff

  /** The two results of get_ipv4_broadcast. */
  datatype Masks = Masks(broadcast: bv32, netmask: bv32)

  /** Bit `k` of `x`, bit 0 being the least significant. */
  predicate Bit(x: bv32, k: nat)
    requires k < 32
  {
    (x >> k) & 1 == 1
  }

  /** The netmask with `len` leading ones. A shift by 32 is undefined in C, hence the special case. */
  function Netmask(len: int): bv32
    requires 0 <= len <= 32
  {
    if len == 32 then ALL_ONES else !(ALL_ONES >> len)
  }

  /**
   * get_ipv4_broadcast: the broadcast address and the netmask of the
   * network of `len` bits that holds `vpnip`; None (-1 in C) for a length
   * outside 0..32.
   */
  function Ipv4Broadcast(vpnip: bv32, len: int): (r: Option<Masks>)
    ensures r.None? <==> len < 0 || len > 32
    ensures r.Some? ==> r.value.netmask == Netmask(len) && r.value.broadcast == Broadcast(vpnip, r.value.netmask)
  {
    if len < 0 || len > 32 then None
    else
      var netmask := Netmask(len);
      Some(Masks(Broadcast(vpnip, netmask), netmask))
  }

  /** `(v & m) | ~m` agrees with `v` under the mask and is all ones outside it. */
  function Broadcast(v: bv32, m: bv32): (b: bv32)
    ensures b & m == v & m
    ensures b | m == ALL_ONES
  {
    (v & m) | !m
  }

  /** The netmask has exactly its `len` most significant bits set. */
  lemma NetmaskTopBits(len: int, k: nat)
    requires 0 <= len <= 32 && k < 32
    ensures Bit(Netmask(len), k) <==> k >= 32 - len
  {
    if len == 32 {
      AllOnesBits(k as bv32);
      assert Netmask(len) == ALL_ONES;
    } else {
      ShiftedMaskBits(len as bv32, k as bv32);
      assert Netmask(len) == !(ALL_ONES >> len);
    }
  }

  lemma AllOnesBits(k: bv32)
    requires k < 32
    ensures (ALL_ONES >> k) & 1 == 1
  {
  }

  /** The bits of `~(0xffffffff >> l)`, with the shift amounts as 32-bit values. */
  lemma ShiftedMaskBits(l: bv32, k: bv32)
    requires l < 32 && k < 32
    ensures ((!(ALL_ONES >> l)) >> k) & 1 == 1 <==> k as int >= 32 - l as int
  {
  }

  /**
   * The broadcast address keeps the network part of `vpnip` and sets
   * every host bit.
   */
  lemma BroadcastBits(vpnip: bv32, len: int, k: nat)
    requires 0 <= len <= 32 && k < 32
    ensures Ipv4Broadcast(vpnip, len).Some?
    ensures k >= 32 - len ==> (Bit(Ipv4Broadcast(vpnip, len).value.broadcast, k) <==> Bit(vpnip, k))
    ensures k < 32 - len ==> Bit(Ipv4Broadcast(vpnip, len).value.broadcast, k)
  {
    var m := Netmask(len);
    NetmaskTopBits(len, k);
    BroadcastBit(vpnip, m, k as bv32);
  }

  /** Bit `k` of `(v & m) | ~m` is bit `k` of `v` where `m` has a one, and one elsewhere. */
  lemma BroadcastBit(v: bv32, m: bv32, k: bv32)
    requires k < 32
    ensures (m >> k) & 1 == 1 ==> ((Broadcast(v, m) >> k) & 1 == 1 <==> (v >> k) & 1 == 1)
    ensures (m >> k) & 1 != 1 ==> (Broadcast(v, m) >> k) & 1 == 1
  {
  }

  // ---------------------------------------------------------------------
  // The CIDR suffix of the "network" option
  // ---------------------------------------------------------------------

  /** isspace in the C locale. */
  predicate IsSpace(c: char) {
    c == ' ' || 9 <= c as int <= 13
  }

  /** The end of the run of `pred` characters starting at `i`. */
  function SpanEnd(s: string, i: nat, pred: char -> bool): (r: nat)
    requires i <= |s|
    ensures i <= r <= |s|
    ensures forall k :: i <= k < r ==> pred(s[k])
    ensures r < |s| ==> !pred(s[r])
    decreases |s| - i
  {
    if i == |s| || !pred(s[i]) then i else SpanEnd(s, i + 1, pred)
  }

  /** The value of a string of decimal digits. */
  function Decimal(d: string): (n: nat)
    requires forall k :: 0 <= k < |d| ==> ConfigIO.IsDigit(d[k])
    ensures n < Pow10(|d|)
  {
    if |d| == 0 then 0
    else
      assert ConfigIO.IsDigit(d[|d| - 1]);
      Decimal(d[..|d| - 1]) * 10 + (d[|d| - 1] as int - '0' as int)
  }

  function Pow10(n: nat): (p: nat)
    ensures p >= 1
  {
    if n == 0 then 1 else 10 * Pow10(n - 1)
  }

  /**
   * strtol in base 10: leading white space, an optional sign, then
   * digits. The result is the value and the number of characters read,
   * 0 when there is no digit.
   */
  function StrTol(s: string): (r: (int, nat))
    ensures r.1 <= |s|
  {
    var i := SpanEnd(s, 0, IsSpace);
    var j := if i < |s| && (s[i] == '+' || s[i] == '-') then i + 1 else i;
    var k := SpanEnd(s, j, ConfigIO.IsDigit);
    if k == j then (0, 0)
    else
      var v := Decimal(s[j..k]);
      var value: int := if j > i && s[i] == '-' then -(v as int) else v;
      (value, k)
  }

  /**
   * The netmask length after the first '/' of `network` as the program
   * reads it: one or two characters that strtol reads completely. This
   * admits a sign or a white-space character before a single digit.
   */
  function CidrLengthAsWritten(network: string): (r: Option<int>)
  {
    match ConfigParser.Find(network, 0, '/')
    case None => None
    case Some(slash) =>
      var search := network[slash + 1..];
      if |search| == 0 || |search| > 2 then None
      else
        var (len, end) := StrTol(search);
        if end != |search| then None else Some(len)
  }

  predicate AllDigits(s: string) {
    forall k :: 0 <= k < |s| ==> ConfigIO.IsDigit(s[k])
  }

  /** The netmask length as the check's messages describe it: one or two figures after the first '/'. */
  function CidrLength(network: string): (r: Option<int>)
  {
    match ConfigParser.Find(network, 0, '/')
    case None => None
    case Some(slash) =>
      var search := network[slash + 1..];
      if |search| == 0 || |search| > 2 || !AllDigits(search) then None
      else Some(Decimal(search))
  }

  /** The suffix after the first '/', when there is one. */
  function Suffix(network: string): (r: Option<string>)
    ensures r.None? <==> '/' !in network
    ensures r.Some? ==> exists k :: 0 <= k < |network| && network[k] == '/' && '/' !in network[..k]
                           && r.value == network[k + 1..]
  {
    match ConfigParser.Find(network, 0, '/')
    case None => None
    case Some(slash) =>
      assert '/' !in network[..slash];
      Some(network[slash + 1..])
  }

  /** The corrected check accepts exactly one or two digits after the first '/'. */
  lemma CidrLengthAccepts(network: string)
    ensures CidrLength(network).Some? <==>
              Suffix(network).Some? && 1 <= |Suffix(network).value| <= 2 && AllDigits(Suffix(network).value)
    ensures CidrLength(network).Some? ==> 0 <= CidrLength(network).value <= 99
  {
    var r := CidrLength(network);
    if r.Some? {
      var s := Suffix(network).value;
      assert Pow10(|s|) <= 100;
    }
  }

  /** On a digit suffix the program's check and the corrected one agree. */
  lemma CidrAgreesOnDigits(network: string)
    requires Suffix(network).Some? && AllDigits(Suffix(network).value)
    ensures CidrLengthAsWritten(network) == CidrLength(network)
  {
    var s := Suffix(network).value;
    if 1 <= |s| <= 2 {
      var k := SpanEnd(s, 0, ConfigIO.IsDigit);
      assert k == |s|;
      assert s[0..k] == s;
    }
  }

  /** "10.0.0.0/+8" passes the program's check, though '+' is not a figure. */
  lemma CidrSignAccepted()
    ensures CidrLengthAsWritten("10.0.0.0/+8") == Some(8)
    ensures CidrLength("10.0.0.0/+8") == None
  {
    var n := "10.0.0.0/+8";
    assert ConfigParser.Find(n, 0, '/') == Some(8);
    assert n[9..] == "+8";
    SignedEight();
  }

  /** strtol reads "+8" completely, as 8. */
  lemma SignedEight()
    ensures StrTol("+8") == (8, 2)
  {
    var search := "+8";
    assert search == "+8";
    assert SpanEnd(search, 0, IsSpace) == 0;
    assert SpanEnd(search, 1, ConfigIO.IsDigit) == 2;
    assert search[1..2] == "8";
    assert Decimal("8") == 8 by {
      assert "8"[..0] == "";
    }
  }

  /**
   * The network option: the broadcast address and netmask for `vpnip`, or
   * None when the suffix is missing or ill-formed or the length is above 32.
   */
  function NetworkSettings(vpnip: bv32, network: string): (r: Option<Masks>)
    ensures r.Some? ==> CidrLength(network).Some? && CidrLength(network).value <= 32
  {
    match CidrLength(network)
    case None => None
    case Some(len) => Ipv4Broadcast(vpnip, len)
  }

  /** On a digit suffix the network option gives what the program's own check leads to. */
  lemma NetworkSettingsOnDigits(vpnip: bv32, network: string)
    requires Suffix(network).Some? && AllDigits(Suffix(network).value)
    ensures NetworkSettings(vpnip, network) ==
              if CidrLengthAsWritten(network).Some? then Ipv4Broadcast(vpnip, CidrLengthAsWritten(network).value)
              else None
  {
    CidrAgreesOnDigits(network);
  }

  // ---------------------------------------------------------------------
  // Lower bounds on the numeric options
  // ---------------------------------------------------------------------

  const TUN_MTU_DEFAULT: int := 1419
  const FIFO_SIZE_DEFAULT: int := 20
  const TIMEOUT_DEFAULT: int := 120
  const MAX_CLIENTS_DEFAULT: int := 100
  const KEEPALIVE_DEFAULT: int := 10

  datatype Settings = Settings(tunMtu: int, fifoSize: int, timeout: int, maxClients: int, keepalive: int)

  /** Why parseConfFile gives up on an option: its value is not a number, or is too small. */
  datatype Checked<T> = Accepted(value: T) | NotValid(option: string) | TooSmall(option: string)

  /**
   * One numeric option read by a parser getter: its default when it is
   * absent, refused when it is not a number or below `min`.
   */
  function AtLeast(f: ConfigParser.Fetched, option: string, default: int, min: int): (r: Checked<int>)
  {
    if f.ret == 1 then
      if f.value < min then TooSmall(option) else Accepted(f.value)
    else if f.ret == 0 then NotValid(option)
    else Accepted(default)
  }

  /**
   * The numeric options in the order parseConfFile reads them; the first
   * refused one ends the parse.
   */
  function ClientSettings(mtu: ConfigParser.Fetched, fifo: ConfigParser.Fetched, timeout: ConfigParser.Fetched,
                          maxClients: ConfigParser.Fetched, keepalive: ConfigParser.Fetched): (r: Checked<Settings>)
  {
    match AtLeast(mtu, "tun_mtu", TUN_MTU_DEFAULT, 150)
    case NotValid(o) => NotValid(o)
    case TooSmall(o) => TooSmall(o)
    case Accepted(m) =>
      match AtLeast(fifo, "fifo_size", FIFO_SIZE_DEFAULT, 1)
      case NotValid(o) => NotValid(o)
      case TooSmall(o) => TooSmall(o)
      case Accepted(f) =>
        match AtLeast(timeout, "timeout", TIMEOUT_DEFAULT, 5)
        case NotValid(o) => NotValid(o)
        case TooSmall(o) => TooSmall(o)
        case Accepted(t) =>
          match AtLeast(maxClients, "max_clients", MAX_CLIENTS_DEFAULT, 1)
          case NotValid(o) => NotValid(o)
          case TooSmall(o) => TooSmall(o)
          case Accepted(c) =>
            match AtLeast(keepalive, "keepalive", KEEPALIVE_DEFAULT, 1)
            case NotValid(o) => NotValid(o)
            case TooSmall(o) => TooSmall(o)
            case Accepted(k) => Accepted(Settings(m, f, t, c, k))
  }

  /** A getter result the option accepts: absent, or a number at least `min`. */
  predicate Admissible(f: ConfigParser.Fetched, min: int) {
    f.ret != 0 && (f.ret == 1 ==> f.value >= min)
  }

  /**
   * The settings are accepted exactly when every option is admissible:
   * tun_mtu >= 150, fifo_size > 0, timeout >= 5, max_clients >= 1 and
   * keepalive >= 1; an absent option takes its default.
   */
  lemma ClientSettingsAccepted(mtu: ConfigParser.Fetched, fifo: ConfigParser.Fetched, timeout: ConfigParser.Fetched,
                               maxClients: ConfigParser.Fetched, keepalive: ConfigParser.Fetched)
    ensures ClientSettings(mtu, fifo, timeout, maxClients, keepalive).Accepted? <==>
              Admissible(mtu, 150) && Admissible(fifo, 1) && Admissible(timeout, 5)
              && Admissible(maxClients, 1) && Admissible(keepalive, 1)
    ensures var r := ClientSettings(mtu, fifo, timeout, maxClients, keepalive);
      r.Accepted? ==>
        r.value.tunMtu >= 150 && r.value.fifoSize > 0 && r.value.timeout >= 5
        && r.value.maxClients >= 1 && r.value.keepalive >= 1
        && (mtu.ret == -1 ==> r.value.tunMtu == TUN_MTU_DEFAULT)
        && (mtu.ret == 1 ==> r.value.tunMtu == mtu.value)
  {
  }

  /** A too small MTU is reported before anything read after it. */
  lemma SmallMtuReported(mtu: ConfigParser.Fetched, fifo: ConfigParser.Fetched, timeout: ConfigParser.Fetched,
                         maxClients: ConfigParser.Fetched, keepalive: ConfigParser.Fetched)
    requires mtu.ret == 1 && mtu.value < 150
    ensures ClientSettings(mtu, fifo, timeout, maxClients, keepalive) == TooSmall("tun_mtu")
  {
  }
}

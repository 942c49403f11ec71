/**
 * The expansion of the "%" variables in the commands run when the TUN
 * device goes up or down: %D the device name, %V the VPN address, %M the
 * MTU, %N the network as configured, %n the netmask, %P the local UDP
 * port, %I the local address, and %% a single '%'.
 */
module TunArgs {
  import opened Wire
  import opened StrLib
  import ConfigIO
  import Configuration

  /** The configuration values a command can refer to. */
  datatype Settings = Settings(vpnIP: IPv4, tunMtu: int, network: string, netmask: IPv4, localPort: int, localIP: IPv4)

  /** "%d" of a non-negative number. */
  function NatString(n: nat): (r: string)
    ensures |r| > 0 && forall k :: 0 <= k < |r| ==> ConfigIO.IsDigit(r[k])
  {
    var digit := ['0' + (n % 10) as char];
    if n < 10 then digit else NatString(n / 10) + digit
  }

  /** "%d". */
  function IntString(n: int): string {
    if n < 0 then "-" + NatString(-n) else NatString(n)
  }

  /** inet_ntoa: the dotted decimal form. */
  function Dotted(ip: IPv4): string {
    NatString(ip[0]) + "." + NatString(ip[1]) + "." + NatString(ip[2]) + "." + NatString(ip[3])
  }

  /** What "%c" becomes; an unknown letter is kept with its '%'. */
  function Expansion(c: char, device: string, cfg: Settings): string {
    match c
    case '%' => "%"
    case 'D' => "'" + device + "'"
    case 'V' => Dotted(cfg.vpnIP)
    case 'M' => IntString(cfg.tunMtu)
    case 'N' => "'" + cfg.network + "'"
    case 'n' => Dotted(cfg.netmask)
    case 'P' => IntString(cfg.localPort)
    case 'I' => Dotted(cfg.localIP)
    case _ => "%" + [c]
  }

  /**
   * A command the scan reads without passing its end: every '%' it meets
   * has a character after it.
   */
  predicate Scannable(s: string) {
    if |s| == 0 then true
    else if s[0] == '%' then |s| >= 2 && Scannable(s[2..])
    else Scannable(s[1..])
  }

  /** The expanded command: each '%' takes the character after it; other characters are copied. */
  function Replaced(s: string, device: string, cfg: Settings): string
    requires Scannable(s)
  {
    if |s| == 0 then []
    else if s[0] == '%' then Expansion(s[1], device, cfg) + Replaced(s[2..], device, cfg)
    else [s[0]] + Replaced(s[1..], device, cfg)
  }

  /** replace_args: `sb` is emptied, then receives the expansion of `s`. */
  method ReplaceArgs(sb: StrBuf, s: string, device: string, cfg: Settings)
    requires sb.Valid() && Scannable(s)
    modifies sb, sb.buf
    ensures sb.Valid() && sb.Contents() == Replaced(s, device, cfg)
  {
    sb.Reset();
    var i := 0;
    while i < |s|
      invariant 0 <= i <= |s| && sb.Valid()
      invariant sb.buf == old(sb.buf) || fresh(sb.buf)
      invariant Scannable(s[i..])
      invariant sb.Contents() + Replaced(s[i..], device, cfg) == Replaced(s, device, cfg)
      decreases |s| - i
    {
      i := ScanStep(sb, s, i, device, cfg);
    }
  }

  /**
   * One turn of replace_args' loop: a '%' and the character after it, or
   * one other character. The result is where the scan goes on.
   */
  method ScanStep(sb: StrBuf, s: string, i: nat, device: string, cfg: Settings) returns (j: nat)
    requires sb.Valid() && i < |s| && Scannable(s[i..])
    modifies sb, sb.buf
    ensures sb.Valid() && (sb.buf == old(sb.buf) || fresh(sb.buf))
    ensures i < j <= |s| && Scannable(s[j..])
    ensures sb.Contents() + Replaced(s[j..], device, cfg) == old(sb.Contents()) + Replaced(s[i..], device, cfg)
  {
    ReplacedHead(s, i, device, cfg);
    ghost var before := sb.Contents();
    if s[i] == '%' {
      ExpandInto(sb, s[i + 1], device, cfg);
      j := i + 2;
      assert sb.Contents() == before + Expansion(s[i + 1], device, cfg);
    } else {
      sb.Push(s[i]);
      j := i + 1;
      assert sb.Contents() == before + [s[i]];
    }
  }

  /** The first step of the expansion of `s[i..]`. */
  lemma ReplacedHead(s: string, i: nat, device: string, cfg: Settings)
    requires i < |s| && Scannable(s[i..])
    ensures s[i] == '%' ==>
              i + 1 < |s| && Scannable(s[i + 2..]) &&
              Replaced(s[i..], device, cfg) == Expansion(s[i + 1], device, cfg) + Replaced(s[i + 2..], device, cfg)
    ensures s[i] != '%' ==>
              Scannable(s[i + 1..]) && Replaced(s[i..], device, cfg) == [s[i]] + Replaced(s[i + 1..], device, cfg)
  {
    var rest := s[i..];
    if s[i] == '%' {
      assert rest[2..] == s[i + 2..];
    } else {
      assert rest[1..] == s[i + 1..];
    }
  }

  /** One "%c" of replace_args: its expansion is appended to `sb`. */
  method ExpandInto(sb: StrBuf, c: char, device: string, cfg: Settings)
    requires sb.Valid()
    modifies sb, sb.buf
    ensures sb.Valid() && (sb.buf == old(sb.buf) || fresh(sb.buf))
    ensures sb.Contents() == old(sb.Contents()) + Expansion(c, device, cfg)
  {
    if c == '%' {
      sb.Push('%');
    } else if c == 'D' {
      sb.Append("'" + device + "'");
    } else if c == 'V' {
      sb.Append(Dotted(cfg.vpnIP));
    } else if c == 'M' {
      sb.Append(IntString(cfg.tunMtu));
    } else if c == 'N' {
      sb.Append("'" + cfg.network + "'");
    } else if c == 'n' {
      sb.Append(Dotted(cfg.netmask));
    } else if c == 'P' {
      sb.Append(IntString(cfg.localPort));
    } else if c == 'I' {
      sb.Append(Dotted(cfg.localIP));
    } else {
      sb.Push('%');
      sb.Push(c);
    }
  }

  // ---------------------------------------------------------------------
  // Properties
  // ---------------------------------------------------------------------

  /** Text without '%' is copied unchanged. */
  lemma {:induction false} PlainTextUnchanged(s: string, device: string, cfg: Settings)
    requires '%' !in s
    ensures Scannable(s) && Replaced(s, device, cfg) == s
    decreases |s|
  {
    if |s| > 0 {
      assert s == [s[0]] + s[1..];
      PlainTextUnchanged(s[1..], device, cfg);
    }
  }

  /** Text with every '%' doubled: the form in which a literal text is written in a command. */
  function Escaped(t: string): (r: string)
    ensures |r| >= |t|
  {
    if |t| == 0 then []
    else if t[0] == '%' then "%%" + Escaped(t[1..])
    else [t[0]] + Escaped(t[1..])
  }

  /** Expanding an escaped text gives the text back. */
  lemma {:induction false} EscapedRoundTrip(t: string, device: string, cfg: Settings)
    ensures Scannable(Escaped(t)) && Replaced(Escaped(t), device, cfg) == t
    decreases |t|
  {
    if |t| > 0 {
      var e := Escaped(t);
      EscapedRoundTrip(t[1..], device, cfg);
      if t[0] == '%' {
        assert e[2..] == Escaped(t[1..]);
      } else {
        assert e[1..] == Escaped(t[1..]);
      }
      assert t == [t[0]] + t[1..];
    }
  }

  /** The expansion of a text followed by a command is the two expansions in turn. */
  lemma {:induction false} ReplacedConcat(a: string, b: string, device: string, cfg: Settings)
    requires Scannable(a) && Scannable(b)
    ensures Scannable(a + b)
    ensures Replaced(a + b, device, cfg) == Replaced(a, device, cfg) + Replaced(b, device, cfg)
    decreases |a|
  {
    if |a| == 0 {
      assert a + b == b;
    } else if a[0] == '%' {
      assert (a + b)[2..] == a[2..] + b;
      ReplacedConcat(a[2..], b, device, cfg);
    } else {
      assert (a + b)[1..] == a[1..] + b;
      ReplacedConcat(a[1..], b, device, cfg);
    }
  }

  /** %D and %N are quoted; an unknown "%x" stays as written. */
  lemma Quoting(c: char, device: string, cfg: Settings)
    ensures Replaced("%D", device, cfg) == "'" + device + "'"
    ensures Replaced("%N", device, cfg) == "'" + cfg.network + "'"
    ensures c !in "%DVMNnPI" ==> Replaced("%" + [c], device, cfg) == "%" + [c]
  {
    assert "%D"[2..] == [] && "%N"[2..] == [];
    assert ("%" + [c])[2..] == [];
  }

  /** "%d" reads back as the number it prints. */
  lemma {:induction false} NatStringValue(n: nat)
    ensures Configuration.Decimal(NatString(n)) == n
    decreases n
  {
    var r := NatString(n);
    var digit := ['0' + (n % 10) as char];
    if n < 10 {
      assert r[..0] == [];
    } else {
      NatStringValue(n / 10);
      assert r[..|r| - 1] == NatString(n / 10);
    }
  }
}

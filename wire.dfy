/**
 * The rendezvous protocol message: 11 bytes on the wire, laid out as
 *   offset 0: message type (1 byte)
 *   offset 1: port (2 bytes, big-endian)
 *   offset 3: ip1 (4 bytes)
 *   offset 7: ip2 (4 bytes)
 * The Java server (MsgServStruct) and the C server (message_t, a packed
 * struct sent as raw bytes) share this layout.
 */
module Wire {
  import opened Wrappers

  /** An unsigned byte as it travels on the wire. */
  type uint8 = x: int | 0 <= x < 256

  /** An IPv4 address: exactly four bytes. */
  type IPv4 = s: seq<uint8> | |s| == 4 witness [0, 0, 0, 0]

  // Message type tags
  const HELLO: uint8 := 0
  const PING: uint8 := 1
  const ASK_CONNECTION: uint8 := 2
  const PONG: uint8 := 3
  const OK: uint8 := 4
  const NOK: uint8 := 5
  const FWD_CONNECTION: uint8 := 6
  const ANS_CONNECTION: uint8 := 7
  const REJ_CONNECTION: uint8 := 8
  const PUNCH: uint8 := 9
  const PUNCH_ACK: uint8 := 10
  const BYE: uint8 := 11
  const RECONNECT: uint8 := 12
  const CLOSE_CONNECTION: uint8 := 13

  const MSG_LENGTH: nat := 11

  /** The all-zero address the Java constructor substitutes for a null address. */
  const EMPTY_IP: IPv4 := [0, 0, 0, 0]

  /**
   * A decoded message. `port` is a Java int: the encoder keeps its low 16 bits,
   * the decoder reads them back as a signed short.
   */
  datatype Msg = Msg(msgType: uint8, port: int, ip1: IPv4, ip2: IPv4)

  /** The list of all tags the protocol defines, in numeric order. */
  function Tags(): (t: seq<uint8>)
    ensures |t| == 14
    ensures forall i :: 0 <= i < |t| ==> t[i] == i
  {
    [HELLO, PING, ASK_CONNECTION, PONG, OK, NOK, FWD_CONNECTION, ANS_CONNECTION,
     REJ_CONNECTION, PUNCH, PUNCH_ACK, BYE, RECONNECT, CLOSE_CONNECTION]
  }

  /** The four-argument constructor: a null address becomes EMPTY_IP. */
  function NewMsg(msgType: uint8, port: int, ip1: Option<IPv4>, ip2: Option<IPv4>): (m: Msg)
    ensures m.msgType == msgType && m.port == port
    ensures m.ip1 == (if ip1.Some? then ip1.value else EMPTY_IP)
    ensures m.ip2 == (if ip2.Some? then ip2.value else EMPTY_IP)
    ensures ip1.None? ==> m.ip1 == [0, 0, 0, 0]
    ensures ip2.None? ==> m.ip2 == [0, 0, 0, 0]
  {
    Msg(msgType, port,
        match ip1 case Some(a) => a case None => EMPTY_IP,
        match ip2 case Some(a) => a case None => EMPTY_IP)
  }

  /** Java's `(short) port`, seen as the unsigned 16-bit pattern it puts on the wire. */
  function Low16(port: int): (u: int)
    ensures 0 <= u < 0x1_0000
    ensures (port - u) % 0x1_0000 == 0
  {
    port % 0x1_0000
  }

  /** Java's ByteBuffer.getShort on two big-endian bytes: a signed value. */
  function SignedShort(hi: uint8, lo: uint8): (v: int)
    ensures -0x8000 <= v < 0x8000
    ensures (v - ((hi as int) * 256 + lo)) % 0x1_0000 == 0
  {
    var u := (hi as int) * 256 + lo;
    if u < 0x8000 then u else u - 0x1_0000
  }

  /** The value a port takes after a trip through `(short)`: the signed short with the same low 16 bits. */
  function ToShort(port: int): (v: int)
    ensures -0x8000 <= v < 0x8000
    ensures -0x8000 <= port < 0x8000 ==> v == port
  {
    var u := Low16(port);
    if u < 0x8000 then u else u - 0x1_0000
  }

  /** toBytes: type, big-endian port, ip1, ip2. */
  function ToBytes(m: Msg): (b: seq<uint8>)
    ensures |b| == MSG_LENGTH
    ensures b[0] == m.msgType
    ensures (b[1] as int) * 256 + b[2] == Low16(m.port)
    ensures b[3..7] == m.ip1 && b[7..11] == m.ip2
  {
    var u := Low16(m.port);
    [m.msgType, u / 256, u % 256] + m.ip1 + m.ip2
  }

  /** fromBytes: no message for fewer than 11 bytes; bytes past offset 11 are not read. */
  function FromBytes(data: seq<uint8>): (r: Option<Msg>)
    ensures |data| < MSG_LENGTH <==> r.None?
    ensures r.Some? ==> r.value.msgType == data[0] && r.value.ip1 == data[3..7] && r.value.ip2 == data[7..11]
  {
    if |data| < MSG_LENGTH then None
    else Some(Msg(data[0], SignedShort(data[1], data[2]), data[3..7], data[7..11]))
  }

  /** A preformatted message: the tag followed by ten zero bytes. */
  function Preformatted(tag: uint8): (b: seq<uint8>)
    ensures |b| == MSG_LENGTH && b[0] == tag
    ensures forall i :: 1 <= i < |b| ==> b[i] == 0
  {
    [tag, 0, 0, 0, 0, 0, 0, 0, 0, 0, 0]
  }

  /** Decoding an encoded message gives back its fields, the port reduced to a signed short. */
  lemma RoundTrip(m: Msg)
    ensures FromBytes(ToBytes(m)) == Some(Msg(m.msgType, ToShort(m.port), m.ip1, m.ip2))
    ensures -0x8000 <= m.port < 0x8000 ==> FromBytes(ToBytes(m)) == Some(m)
  {
    var b := ToBytes(m);
    var u := Low16(m.port);
    assert b[1] == u / 256 && b[2] == u % 256;
    assert (b[1] as int) * 256 + b[2] == u;
  }

  /** Encoding a decoded message reproduces the first eleven bytes of the input. */
  lemma DecodeEncode(data: seq<uint8>)
    requires |data| >= MSG_LENGTH
    ensures FromBytes(data).Some? && ToBytes(FromBytes(data).value) == data[..MSG_LENGTH]
  {
    var m := FromBytes(data).value;
    var u := (data[1] as int) * 256 + data[2];
    assert Low16(m.port) == u;
    var b := ToBytes(m);
    assert b[1] == data[1] && b[2] == data[2];
    assert b == data[..MSG_LENGTH];
  }

  /** Bytes appended after offset 11 do not change the decoded message. */
  lemma TrailingBytesIgnored(data: seq<uint8>, extra: seq<uint8>)
    requires |data| >= MSG_LENGTH
    ensures FromBytes(data + extra) == FromBytes(data)
  {
    assert (data + extra)[..MSG_LENGTH] == data[..MSG_LENGTH];
    assert (data + extra)[3..7] == data[3..7];
    assert (data + extra)[7..11] == data[7..11];
  }

  /** MSG_OK, MSG_NOK, MSG_PING, MSG_PONG, MSG_PUNCH and MSG_RECONNECT are the encoding of a bare tag. */
  lemma PreformattedIsEncoded(tag: uint8)
    ensures Preformatted(tag) == ToBytes(NewMsg(tag, 0, None, None))
  {
  }
}

/** Machine integers, byte order and the types of `config.rs`. The host is little-endian. */
module Common {

  datatype Option<+T> = None | Some(value: T)

  type byte = x: int | 0 <= x < 0x100
  type u16 = x: int | 0 <= x < 0x1_0000
  type u32 = x: int | 0 <= x < 0x1_0000_0000

  // --- Byte order ---

  /** `u32::from_ne_bytes` on a little-endian host. */
  function NeU32(b: seq<byte>): u32
    requires |b| == 4
  {
    b[0] as int + 0x100 * b[1] as int + 0x1_0000 * b[2] as int + 0x100_0000 * b[3] as int
  }

  /** Octet `i` of an address held as a native `u32`: `(ip >> 8*i) & 0xFF`. */
  function Octet(ip: u32, i: nat): byte
    requires i < 4
  {
    match i
    case 0 => ip % 0x100
    case 1 => ip / 0x100 % 0x100
    case 2 => ip / 0x1_0000 % 0x100
    case _ => ip / 0x100_0000 % 0x100
  }

  /** `u32::to_ne_bytes` on a little-endian host. */
  function U32Ne(v: u32): (b: seq<byte>)
    ensures |b| == 4
  {
    [Octet(v, 0), Octet(v, 1), Octet(v, 2), Octet(v, 3)]
  }

  function BeU16(b: seq<byte>): u16
    requires |b| == 2
  {
    0x100 * b[0] as int + b[1] as int
  }

  function U16Be(v: u16): (b: seq<byte>)
    ensures |b| == 2
  {
    [v / 0x100, v % 0x100]
  }

  lemma NeU32RoundTrip(v: u32)
    ensures NeU32(U32Ne(v)) == v
  {
    var q: int := v / 0x100;
    var r: int := q / 0x100;
    assert v / 0x1_0000 == r && v / 0x100_0000 == r / 0x100;
  }

  lemma U32NeRoundTrip(b: seq<byte>)
    requires |b| == 4
    ensures U32Ne(NeU32(b)) == b
  {
    var t: int := b[2] as int + 0x100 * b[3] as int;
    var s: int := b[1] as int + 0x100 * t;
    var v: int := b[0] as int + 0x100 * s;
    assert v == NeU32(b);
    assert v % 0x100 == b[0] && v / 0x100 == s && s % 0x100 == b[1] && s / 0x100 == t;
    assert t % 0x100 == b[2] && t / 0x100 == b[3];
    assert v / 0x1_0000 == t && v / 0x100_0000 == t / 0x100;
  }

  lemma U16BeRoundTrip(b: seq<byte>)
    requires |b| == 2
    ensures U16Be(BeU16(b)) == b
  {
  }

  /** On the wire 127.0.0.1 is a little-endian `u32`, and port 8080 is big-endian. */
  lemma ByteOrders()
    ensures U32Ne(0x0100_007F) == [127, 0, 0, 1] && NeU32([127, 0, 0, 1]) == 0x0100_007F
    ensures U16Be(8080) == [0x1F, 0x90] && BeU16([0x1F, 0x90]) == 8080
  {
    assert Octet(0x0100_007F, 0) == 127 && Octet(0x0100_007F, 3) == 1;
  }

  /** An address is determined by its four octets. */
  lemma OctetsDetermine(a: u32, b: u32)
    requires forall i :: 0 <= i < 4 ==> Octet(a, i) == Octet(b, i)
    ensures a == b
  {
    assert U32Ne(a) == U32Ne(b);
    NeU32RoundTrip(a);
    NeU32RoundTrip(b);
  }

  // --- config.rs ---

  const LOCAL_PROXY_PORT: u16 := 34010
  const LOCAL_UDP_RELAY_PORT: u16 := 34011
  const TCP_MARK: u32 := 1
  const UDP_MARK: u32 := 2
  const PID_CACHE_TTL_MS: nat := 10_000
  const CONNECTION_TIMEOUT_MS: nat := 60_000

  datatype ProxyType = Http | Socks5
  datatype RuleAction = Proxy | Direct | Block
  datatype RuleProtocol = Tcp | Udp | Both

  /** `username` and `password` are the UTF-8 bytes of the configured strings. */
  datatype ProxyConfig = ProxyConfig(
    proxyType: ProxyType,
    host: string,
    port: u16,
    username: Option<seq<byte>>,
    password: Option<seq<byte>>,
    resolvedIp: Option<u32>)

  /** `Instant::elapsed`, which saturates at zero. */
  function Elapsed(since: nat, now: nat): (ms: nat)
    ensures if now <= since then ms == 0 else since + ms == now
  {
    if since <= now then now - since else 0
  }
}

/** Packets as the protocol standards lay them out, and what the classifier reads from them. */
module Packets {
  import opened Common
  import AddressPattern
  import opened Rules
  import opened Connection
  import opened Process
  import opened Classifier

  /** An IPv4 header (RFC 791, section 3.1). Addresses are in transmission order. */
  datatype Ipv4 = Ipv4(tos: byte, length: (byte, byte), id: (byte, byte), fragment: (byte, byte), ttl: byte,
                       protocol: byte, checksum: (byte, byte), src: seq<byte>, dst: seq<byte>, options: seq<byte>)
  {
    /** Between five and fifteen words. */
    predicate Valid() {
      |src| == 4 && |dst| == 4 && |options| % 4 == 0 && |options| <= 40
    }

    function Bytes(): seq<byte>
      requires Valid()
    {
      [0x40 + 5 + |options| / 4, tos, length.0, length.1, id.0, id.1, fragment.0, fragment.1,
       ttl, protocol, checksum.0, checksum.1] + src + dst + options
    }
  }

  function Bit(b: bool): (n: int)
    ensures 0 <= n <= 1 && (n == 1 <==> b)
  {
    if b then 1 else 0
  }

  /** The control bits, URG to FIN with the two above them (RFC 9293, section 3.1). */
  datatype Flags = Flags(cwr: bool, ece: bool, urg: bool, ack: bool, psh: bool, rst: bool, syn: bool, fin: bool) {
    function Byte(): byte {
      128 * Bit(cwr) + 64 * Bit(ece) + 32 * Bit(urg) + 16 * Bit(ack)
      + 8 * Bit(psh) + 4 * Bit(rst) + 2 * Bit(syn) + Bit(fin)
    }
  }

  /** A TCP segment: `numbers` are sequence and acknowledgement number, `tail` is window, checksum, urgent pointer,
      options and data. */
  datatype Segment = Segment(sport: u16, dport: u16, numbers: seq<byte>, offset: byte, flags: Flags, tail: seq<byte>) {
    predicate Valid() {
      |numbers| == 8 && |tail| >= 6
    }

    function Bytes(): seq<byte> {
      [sport / 0x100, sport % 0x100, dport / 0x100, dport % 0x100] + numbers + [offset, flags.Byte()] + tail
    }
  }

  /** A UDP datagram (RFC 768): `rest` is length, checksum and data. */
  datatype Datagram = Datagram(sport: u16, dport: u16, rest: seq<byte>) {
    predicate Valid() {
      |rest| >= 4
    }

    function Bytes(): seq<byte> {
      [sport / 0x100, sport % 0x100, dport / 0x100, dport % 0x100] + rest
    }
  }

  // --- What is read ---

  /** The transport header starts behind the IP header, whatever options that has. */
  lemma HeaderRead(h: Ipv4, body: seq<byte>)
    requires h.Valid()
    ensures var p := h.Bytes() + body;
      && HasIpHeader(p) && Ihl(p) == |h.Bytes()| && p[Ihl(p)..] == body && p[9] == h.protocol
      && NeU32(p[12..16]) == NeU32(h.src) && NeU32(p[16..20]) == NeU32(h.dst)
  {
    var p := h.Bytes() + body;
    var words: int := |h.options| / 4;
    assert p[0] == 0x45 + words;
    assert (0x45 + words) % 16 == 5 + words;
    assert p[12..16] == h.src && p[16..20] == h.dst;
  }

  /** A packet counts as TCP or UDP exactly when its protocol number says so and the fixed header is complete. */
  lemma ParsesExactly(h: Ipv4, body: seq<byte>)
    requires h.Valid()
    ensures Parses(h.Bytes() + body) <==> (h.protocol == 6 && |body| >= 20) || (h.protocol == 17 && |body| >= 8)
    ensures Parses(h.Bytes() + body) ==> (IsTcp(h.Bytes() + body) <==> h.protocol == 6)
  {
    HeaderRead(h, body);
  }

  lemma PortsRead(p: Payload, sport: u16, dport: u16)
    requires Parses(p) && p[Ihl(p)..][..4] == [sport / 0x100, sport % 0x100, dport / 0x100, dport % 0x100]
    ensures SrcPort(p) == sport && DestPort(p) == dport
  {
    hide Ihl;
    var i := Ihl(p);
    assert p[i..][..4] == p[i..i + 4];
    assert p[i..i + 2] == p[i..i + 4][..2] == [sport / 0x100, sport % 0x100];
    assert p[i + 2..i + 4] == p[i..i + 4][2..] == [dport / 0x100, dport % 0x100];
  }

  lemma FlagBits(f: Flags)
    ensures f.Byte() / 2 % 2 == 1 <==> f.syn
    ensures f.Byte() / 16 % 2 == 1 <==> f.ack
  {
    var x := f.Byte();
    assert x / 2 % 2 == Bit(f.syn) && x / 16 % 2 == Bit(f.ack) by {
      hide Bit;
      BitsRead(Bit(f.cwr), Bit(f.ece), Bit(f.urg), Bit(f.ack), Bit(f.psh), Bit(f.rst), Bit(f.syn), Bit(f.fin));
    }
    hide Flags.Byte;
  }

  lemma BitsRead(a: nat, b: nat, c: nat, d: nat, e: nat, f: nat, g: nat, h: nat)
    requires e <= 1 && f <= 1 && g <= 1 && h <= 1 && d <= 1
    ensures (128 * a + 64 * b + 32 * c + 16 * d + 8 * e + 4 * f + 2 * g + h) / 2 % 2 == g
    ensures (128 * a + 64 * b + 32 * c + 16 * d + 8 * e + 4 * f + 2 * g + h) / 16 % 2 == d
  {
    Halved(64 * a + 32 * b + 16 * c + 8 * d + 4 * e + 2 * f + g, h);
    Halved(32 * a + 16 * b + 8 * c + 4 * d + 2 * e + f, g);
    Sixteenth(8 * a + 4 * b + 2 * c + d, 8 * e + 4 * f + 2 * g + h);
    Halved(4 * a + 2 * b + c, d);
  }

  lemma Halved(q: nat, r: nat)
    requires r < 2
    ensures (2 * q + r) / 2 == q && (2 * q + r) % 2 == r
  {
  }

  lemma Sixteenth(q: nat, r: nat)
    requires r < 16
    ensures (16 * q + r) / 16 == q
  {
  }

  /** Addresses, ports and flags of every TCP packet. */
  lemma SegmentRead(h: Ipv4, t: Segment)
    requires h.Valid() && h.protocol == 6 && t.Valid()
    ensures var p := h.Bytes() + t.Bytes();
      && Parses(p) && IsTcp(p)
      && SrcIp(p) == NeU32(h.src) && DestIp(p) == NeU32(h.dst) && SrcPort(p) == t.sport && DestPort(p) == t.dport
      && (IsSyn(p) <==> t.flags.syn && !t.flags.ack)
  {
    hide Ihl, Flags.Byte, Ipv4.Bytes, SrcPort, DestPort, NeU32;
    var p, body := h.Bytes() + t.Bytes(), t.Bytes();
    HeaderRead(h, body);
    ParsesExactly(h, body);
    assert body[..4] == [t.sport / 0x100, t.sport % 0x100, t.dport / 0x100, t.dport % 0x100];
    PortsRead(p, t.sport, t.dport);
    FlagBits(t.flags);
    assert p[Ihl(p) + 13] == p[Ihl(p)..][13] == t.flags.Byte();
  }

  /** Addresses and ports of every UDP packet. */
  lemma DatagramRead(h: Ipv4, d: Datagram)
    requires h.Valid() && h.protocol == 17 && d.Valid()
    ensures var p := h.Bytes() + d.Bytes();
      && Parses(p) && !IsTcp(p) && !IsSyn(p)
      && SrcIp(p) == NeU32(h.src) && DestIp(p) == NeU32(h.dst) && SrcPort(p) == d.sport && DestPort(p) == d.dport
  {
    hide Ihl, Ipv4.Bytes, SrcPort, DestPort, NeU32;
    var p, body := h.Bytes() + d.Bytes(), d.Bytes();
    HeaderRead(h, body);
    ParsesExactly(h, body);
    assert body[..4] == [d.sport / 0x100, d.sport % 0x100, d.dport / 0x100, d.dport % 0x100];
    PortsRead(p, d.sport, d.dport);
  }

  /** Any payload of at least 20 bytes, well-formed or not: only the low half `w` of the first byte says where the
      transport header starts, and nothing depends on the version `v`. */
  lemma AnyPayloadRead(p: Payload, v: nat, w: nat)
    requires |p| >= 20 && v < 16 && w < 16 && p[0] == 16 * v + w
    ensures Parses(p) <==> (p[9] == 6 && |p| >= 4 * w + 20) || (p[9] == 17 && |p| >= 4 * w + 8)
    ensures Parses(p) ==>
      && (IsTcp(p) <==> p[9] == 6)
      && SrcIp(p) == NeU32(p[12..16]) && DestIp(p) == NeU32(p[16..20])
      && SrcPort(p) == 0x100 * p[4 * w] as int + p[4 * w + 1] as int
      && DestPort(p) == 0x100 * p[4 * w + 2] as int + p[4 * w + 3] as int
      && (IsSyn(p) <==> p[9] == 6 && p[4 * w + 13] / 2 % 2 == 1 && p[4 * w + 13] / 16 % 2 == 0)
  {
    assert (16 * v + w) % 16 == w;
    assert Ihl(p) == 4 * w;
  }

  /** Payloads without a complete IP header are no packets. */
  lemma ShortPayload(p: Payload)
    ensures |p| < 20 ==> !Parses(p)
  {
  }

  // --- What becomes of them ---

  /** Loopback, link-local, subnet broadcast and multicast destinations. */
  predicate ReservedOctets(dst: seq<byte>)
    requires |dst| == 4
  {
    dst[0] == 127 || (dst[0] == 169 && dst[1] == 254) || dst[3] == 255 || 224 <= dst[0] <= 239
  }

  lemma ReservedRead(dst: seq<byte>)
    requires |dst| == 4
    ensures AddressPattern.IsBroadcastOrMulticast(NeU32(dst)) <==> ReservedOctets(dst)
  {
    hide NeU32;
    U32NeRoundTrip(dst);
    AddressPattern.TestsAreRanges(NeU32(dst));
  }

  /** The action of the rules for a packet that is looked up: the process has to be known and not the bridge. */
  function RuledAction(cfg: Config, rules: seq<Rule>, looked: bool, pid: u32, name: Option<string>, dst: u32,
                       dport: u16, isUdp: bool): RuleAction
  {
    if looked && pid != 0 && pid != cfg.currentPid && name.Some?
    then Decide(rules, Query(name.value, dst, dport, isUdp)) else Direct
  }

  /** Verdict, mark and tracker for an action: 1 marks TCP, 2 marks UDP. */
  predicate Treated(e: Effect, c: Connections, action: RuleAction, carried: bool, mark: u32, info: ConnectionInfo) {
    && e.verdict == (if action == Block then Drop else Accept)
    && e.mark == (if action == Proxy && carried then Some(mark) else None)
    && e.tracker == (if action == Proxy && carried then c[info.srcPort := info] else c)
  }

  /** Every TCP packet: only a SYN without ACK from another port than the relay's 34010 that is not tracked is looked
      up, DNS only if it is to be proxied; it is carried unless its destination is reserved or no proxy is configured.
      With the early exit present, the pid cache only changes when some rule is enabled. */
  lemma SegmentTreated(cfg: Config, rules: seq<Rule>, fastPath: bool, c: Connections, cache: PidEntries, h: Ipv4,
                       t: Segment, env: Surroundings)
    requires h.Valid() && h.protocol == 6 && t.Valid()
    ensures var src, dst := NeU32(h.src), NeU32(h.dst);
      var pid := LookupPid(cache, PidCacheKey(src, t.sport, false), env.lookupAt, env.answer);
      var looked := t.flags.syn && !t.flags.ack && t.sport != 34010 && t.sport !in c
        && (t.dport == 53 ==> cfg.dnsViaProxy);
      var carried := !ReservedOctets(h.dst) && cfg.proxy.host != "" && cfg.proxy.port != 0;
      var e := HandleSpec(cfg, rules, fastPath, c, cache, h.Bytes() + t.Bytes(), env);
      && Treated(e, c, RuledAction(cfg, rules, looked, pid, env.nameOf(pid), dst, t.dport, false), carried, 1,
           ConnectionInfo(src, t.sport, dst, t.dport, env.addAt))
      && e.cache ==
           if looked && (!fastPath || exists i :: 0 <= i < |rules| && rules[i].enabled)
           then Remembered(cache, PidCacheKey(src, t.sport, false), env.lookupAt, env.storeAt, env.answer) else cache
  {
    hide Ipv4.Bytes, Segment.Bytes, IsSyn, SrcPort, DestPort, SrcIp, DestIp, NeU32, Decide, LookupPid, Remembered;
    hide AddressPattern.IsBroadcastOrMulticast, ReservedOctets;
    SegmentRead(h, t);
    ReservedRead(h.dst);
  }

  /** Every UDP packet: as above without the SYN test, from another port than the relay's 34011; DHCP is not carried,
      nor is anything if the proxy speaks HTTP. */
  lemma DatagramTreated(cfg: Config, rules: seq<Rule>, fastPath: bool, c: Connections, cache: PidEntries, h: Ipv4,
                        d: Datagram, env: Surroundings)
    requires h.Valid() && h.protocol == 17 && d.Valid()
    ensures var src, dst := NeU32(h.src), NeU32(h.dst);
      var pid := LookupPid(cache, PidCacheKey(src, d.sport, true), env.lookupAt, env.answer);
      var looked := d.sport != 34011 && d.sport !in c && (d.dport == 53 ==> cfg.dnsViaProxy);
      var carried := !ReservedOctets(h.dst) && d.dport != 67 && d.dport != 68 && cfg.proxy.proxyType == Socks5
        && cfg.proxy.host != "" && cfg.proxy.port != 0;
      var e := HandleSpec(cfg, rules, fastPath, c, cache, h.Bytes() + d.Bytes(), env);
      && Treated(e, c, RuledAction(cfg, rules, looked, pid, env.nameOf(pid), dst, d.dport, true), carried, 2,
           ConnectionInfo(src, d.sport, dst, d.dport, env.addAt))
      && e.cache ==
           if looked && (!fastPath || exists i :: 0 <= i < |rules| && rules[i].enabled)
           then Remembered(cache, PidCacheKey(src, d.sport, true), env.lookupAt, env.storeAt, env.answer) else cache
  {
    hide Ipv4.Bytes, Datagram.Bytes, SrcPort, DestPort, SrcIp, DestIp, NeU32, Decide, LookupPid, Remembered;
    hide AddressPattern.IsBroadcastOrMulticast, ReservedOctets;
    DatagramRead(h, d);
    ReservedRead(h.dst);
  }

  /** Everything else is accepted unmarked and changes nothing. */
  lemma OthersPass(cfg: Config, rules: seq<Rule>, fastPath: bool, c: Connections, cache: PidEntries, h: Ipv4,
                   body: seq<byte>, env: Surroundings)
    requires h.Valid() && !(h.protocol == 6 && |body| >= 20) && !(h.protocol == 17 && |body| >= 8)
    ensures HandleSpec(cfg, rules, fastPath, c, cache, h.Bytes() + body, env) == Effect(Accept, None, c, cache)
  {
    hide Ipv4.Bytes, Parses;
    ParsesExactly(h, body);
  }
}

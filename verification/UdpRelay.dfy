/** The UDP relay of `relay/udp.rs`: association state, forwarding and reply routing. */
module UdpRelay {
  import opened Common
  import opened Connection
  import opened Socks5
  import opened Socks5Server

  datatype Addr = Addr(ip: u32, port: u16)
  datatype ToProxy = ToProxy(addr: Addr, packet: seq<byte>)
  datatype ToClient = ToClient(port: u16, data: seq<byte>)
  datatype FromClient = FromClient(port: u16, data: seq<byte>)

  /** A server that answers 0.0.0.0 relays at its own address. */
  function RelayAddress(proxyIp: u32, bound: (u32, u16)): Addr {
    Addr(if bound.0 == 0 then proxyIp else bound.0, bound.1)
  }

  /** What `establish_udp_associate` yields when the connection attempt gave `wire` (if any). */
  function Established(cfg: ProxyConfig, wire: Option<Wire>, bindOk: bool): Option<Addr> {
    if cfg.resolvedIp.None? || wire.None? then None
    else
      match AssociateOutcome(Handshake(wire.value, Credentials(cfg.username, cfg.password), ASSOCIATE_REQUEST).1)
      case Err(_) => None
      case Ok(bound) => if bindOk then Some(RelayAddress(cfg.resolvedIp.value, bound)) else None
  }

  /** What is sent to the proxy for one client datagram. */
  function Forwarded(c: Connections, addr: Addr, d: Option<FromClient>): Option<ToProxy> {
    if d.None? then None
    else
      match Destination(c, d.value.port)
      case None => None
      case Some(dest) => Some(ToProxy(addr, UdpPacket(dest.0, dest.1, d.value.data)))
  }

  /** The possible deliveries for one datagram from the proxy. */
  ghost predicate Delivers(c: Connections, d: Option<seq<byte>>, out: Option<ToClient>) {
    if d.None? || ParseUdpPacket(d.value).None? then out == None
    else
      var (ip, port, at) := ParseUdpPacket(d.value).value;
      match out
      case None => FoundByDest(c, ip, port, None)
      case Some(o) => FoundByDest(c, ip, port, Some(o.port)) && o.data == d.value[at..]
  }

  function Listed<T>(x: Option<T>): seq<T> {
    if x.Some? then [x.value] else []
  }

  class UdpRelay {
    const cfg: ProxyConfig
    const tracker: ConnectionTracker
    const buf: array<byte>
    var controlSock: bool
    var sendSock: bool
    var relayAddr: Option<Addr>
    /** Datagrams accepted by the sockets so far. */
    var forwarded: seq<ToProxy>
    var delivered: seq<ToClient>

    ghost predicate Valid()
      reads this
    {
      buf.Length == 65536 && (relayAddr.Some? ==> sendSock && controlSock)
    }

    constructor (cfg: ProxyConfig, tracker: ConnectionTracker)
      ensures Valid() && fresh(buf) && this.cfg == cfg && this.tracker == tracker
      ensures relayAddr == None && !sendSock && forwarded == [] && delivered == []
    {
      this.cfg, this.tracker := cfg, tracker;
      buf := new byte[65536];
      controlSock, sendSock, relayAddr := false, false, None;
      forwarded, delivered := [], [];
    }

    method EstablishUdpAssociate(stream: Option<ByteStream>, bindOk: bool) returns (addr: Option<Addr>)
      modifies if stream.Some? then {stream.value} else {}
      ensures addr == Established(cfg, if stream.None? then None else Some(old(stream.value.AsWire())), bindOk)
      ensures stream.Some? && cfg.resolvedIp.Some? ==>
        stream.value.AsWire() ==
          Handshake(old(stream.value.AsWire()), Credentials(cfg.username, cfg.password), ASSOCIATE_REQUEST).0
    {
      if cfg.resolvedIp.None? || stream.None? { return None; }
      var r := UdpAssociate(stream.value, Credentials(cfg.username, cfg.password));
      if r.Err? || !bindOk { return None; }
      var (relayIp, relayPort) := r.value;
      var actualIp := if relayIp == 0 then cfg.resolvedIp.value else relayIp;
      addr := Some(Addr(actualIp, relayPort));
    }

    method Receive(d: seq<byte>) returns (len: nat)
      requires Valid() && |d| <= buf.Length
      modifies buf
      ensures len == |d| && buf[..len] == d
    {
      len := |d|;
      forall i | 0 <= i < len { buf[i] := d[i]; }
    }

    /** Forward one client datagram; a failed send drops the association. */
    method TakeFromClient(client: Option<FromClient>, sendOk: bool)
      requires Valid() && relayAddr.Some? && (client.Some? ==> |client.value.data| <= 65536)
      modifies this`forwarded, this`relayAddr, buf
      ensures Valid()
      ensures var out := Forwarded(tracker.connections, old(relayAddr).value, client);
        && relayAddr == (if out.Some? && !sendOk then None else old(relayAddr))
        && forwarded == old(forwarded) + (if sendOk then Listed(out) else [])
    {
      if client.Some? {
        var len := Receive(client.value.data);
        var dest := tracker.Get(client.value.port);
        if dest.Some? {
          var packet := BuildUdpPacket(dest.value.0, dest.value.1, buf[..len]);
          if sendSock && relayAddr.Some? {
            if sendOk {
              forwarded := forwarded + [ToProxy(relayAddr.value, packet)];
            } else {
              relayAddr := None;
            }
          }
        }
      }
    }

    /** Route one datagram from the proxy. */
    method TakeFromProxy(proxy: Option<seq<byte>>) returns (ghost out: Option<ToClient>)
      requires Valid() && sendSock && (proxy.Some? ==> |proxy.value| <= 65536)
      modifies this`delivered, buf
      ensures Valid() && Delivers(tracker.connections, proxy, out) && delivered == old(delivered) + Listed(out)
    {
      out := None;
      if sendSock {
        if proxy.Some? {
          var len := Receive(proxy.value);
          var parsed := ParseUdpPacket(buf[..len]);
          if parsed.Some? {
            var (srcIp, srcPort, dataOffset) := parsed.value;
            var clientPort := tracker.FindByDest(srcIp, srcPort);
            if clientPort.Some? {
              assert buf[dataOffset..len] == proxy.value[dataOffset..];
              out := Some(ToClient(clientPort.value, buf[dataOffset..len]));
              delivered := delivered + [ToClient(clientPort.value, buf[dataOffset..len])];
            }
          }
        }
      }
    }

    /** One iteration of the loop. `client` and `proxy` are the datagrams waiting on the two sockets, if any;
        without an association neither is read. */
    method Iterate(stream: Option<ByteStream>, bindOk: bool, client: Option<FromClient>, sendOk: bool,
                   proxy: Option<seq<byte>>)
      requires Valid() && (client.Some? ==> |client.value.data| <= 65536) && (proxy.Some? ==> |proxy.value| <= 65536)
      modifies this, buf, if stream.Some? then {stream.value} else {}
      ensures Valid()
      ensures var addr := if old(relayAddr).Some? then old(relayAddr)
                          else
                            var wire := if stream.None? then None else Some(old(stream.value.AsWire()));
                            Established(cfg, wire, bindOk);
        if addr.None? then
          relayAddr == None && sendSock == old(sendSock) && forwarded == old(forwarded) && delivered == old(delivered)
        else
          var out := Forwarded(tracker.connections, addr.value, client);
          && sendSock
          && relayAddr == (if out.Some? && !sendOk then None else addr)
          && forwarded == old(forwarded) + (if sendOk then Listed(out) else [])
          && exists o :: Delivers(tracker.connections, proxy, o) && delivered == old(delivered) + Listed(o)
    {
      hide Established, Forwarded, Delivers;
      if relayAddr.None? {
        var addr := EstablishUdpAssociate(stream, bindOk);
        if addr.None? { return; }
        controlSock := true;
        sendSock := true;
        relayAddr := addr;
      }
      TakeFromClient(client, sendOk);
      ghost var out := TakeFromProxy(proxy);
    }
  }

  /** A datagram sent from tracked port `p` and echoed under the same header comes back to `p` with the same data
      in every walk order of the tracker, exactly when no other tracked port has the same destination. */
  lemma EchoReturnsExactly(before: Connections, after: Connections, addr: Addr, p: u16, data: seq<byte>)
    requires KeyedByPort(after) && p in before && p in after && Destination(after, p) == Destination(before, p)
    ensures Forwarded(before, addr, Some(FromClient(p, data))).Some?
    ensures var packet := Forwarded(before, addr, Some(FromClient(p, data))).value.packet;
      (forall out :: Delivers(after, Some(packet), out) ==> out == Some(ToClient(p, data)))
      <==> (forall k :: k in after && k != p ==> Destination(after, k) != Destination(after, p))
  {
    var (ip, port) := Destination(before, p).value;
    var packet := UdpPacket(ip, port, data);
    UdpBuildThenParse(ip, port, data);
    if forall k :: k in after && k != p ==> Destination(after, k) != Destination(after, p) {
      forall out | Delivers(after, Some(packet), out) ensures out == Some(ToClient(p, data)) {
        FindUnique(after, p, if out.Some? then Some(out.value.port) else None);
      }
    } else {
      var k :| k in after && k != p && Destination(after, k) == Destination(after, p);
      assert FoundByDest(after, ip, port, Some(k));
      assert Delivers(after, Some(packet), Some(ToClient(k, data)));
    }
  }

  /** The association stands exactly when the proxy is known and connected, its reply is complete with version 5, status
      0 and an IPv4 address, and a local socket can be bound. */
  lemma EstablishedExactly(cfg: ProxyConfig, wire: Option<Wire>, bindOk: bool)
    ensures var c := Credentials(cfg.username, cfg.password);
      Established(cfg, wire, bindOk).Some? <==>
        && cfg.resolvedIp.Some? && wire.Some? && bindOk
        && Replied(wire.value, c, ASSOCIATE_REQUEST)
        && var n, b := ReplyStart(wire.value.input, c).value, wire.value.input;
           b[n] == 5 && b[n + 1] == 0 && b[n + 3] == 1
  {
    hide Replied, ReplyStart, Handshake, AssociateOutcome;
    if wire.Some? { AssociateExactly(wire.value, Credentials(cfg.username, cfg.password)); }
  }

  /** A willing server recovers the configured user name and password in this order. Datagrams then go to the address it
      bound, or to the proxy's own address if that is 0.0.0.0. */
  lemma AssociatedAddress(cfg: ProxyConfig, n: nat, p: Policy, room: nat, bindOk: bool)
    requires cfg.resolvedIp.Some? && n >= 3
    requires var c := Credentials(cfg.username, cfg.password);
      Willing(p, c) && |FullScript(p, c, ASSOCIATE_REQUEST)| <= room
    ensures var c := Credentials(cfg.username, cfg.password);
      var w := Wire(ServerAfter(n, p, c, ASSOCIATE_REQUEST, room), [], room);
      var login := if p.choice == 2 then Some((cfg.username.value, cfg.password.value)) else None;
      && Established(cfg, Some(w), bindOk) == (
           if p.status != 0 || !bindOk then None
           else Some(Addr(if p.ip == 0 then cfg.resolvedIp.value else p.ip, p.port)))
      && Understood(p, Handshake(w, c, ASSOCIATE_REQUEST).0.sent) == Some(Session(login, Request(3, 0, 0)))
  {
    hide Handshake, AssociateOutcome, ServerAfter, FullScript, Understood;
    RequestDecodes(0, 0);
    ConversationSucceeds(n, p, Credentials(cfg.username, cfg.password), ASSOCIATE_REQUEST, room);
  }
}

/** The TCP relay of `relay/tcp.rs`: destination lookup and handshake dispatch. */
module TcpRelay {
  import opened Common
  import opened Connection
  import opened Socks5
  import opened Socks5Server

  function CredentialsOf(cfg: ProxyConfig): Credentials {
    Credentials(cfg.username, cfg.password)
  }

  datatype Relayed = Untracked | Failed | Established

  /** Outcome and proxy connection after the handshake for `ip:port`. */
  function Dispatch(cfg: ProxyConfig, ip: u32, port: u16, wire: Option<Wire>, httpOk: bool): (Relayed, Option<Wire>) {
    if cfg.resolvedIp.None? || wire.None? then (Failed, wire)
    else
      match cfg.proxyType
      case Http => (if httpOk then Established else Failed, wire)
      case Socks5 =>
        var h := Handshake(wire.value, CredentialsOf(cfg), ConnectRequest(ip, port));
        (if ConnectOutcome(h.1).Ok? then Established else Failed, Some(h.0))
  }

  ghost function WireOf(stream: Option<ByteStream>): Option<Wire>
    reads if stream.Some? then {stream.value} else {}
  {
    if stream.Some? then Some(stream.value.AsWire()) else None
  }

  class TcpRelay {
    const cfg: ProxyConfig
    const tracker: ConnectionTracker

    constructor (cfg: ProxyConfig, tracker: ConnectionTracker)
      ensures this.cfg == cfg && this.tracker == tracker
    {
      this.cfg, this.tracker := cfg, tracker;
    }

    /** One accepted client. `stream` is the connection to the proxy, if it can be made; `httpOk` is the outcome
        of the HTTP handshake. */
    method Accept(clientPort: u16, stream: Option<ByteStream>, httpOk: bool) returns (r: Relayed)
      modifies if stream.Some? then {stream.value} else {}
      ensures (r, WireOf(stream)) ==
        match Destination(tracker.connections, clientPort)
        case None => (Untracked, old(WireOf(stream)))
        case Some(dest) => Dispatch(cfg, dest.0, dest.1, old(WireOf(stream)), httpOk)
    {
      var dest := tracker.Get(clientPort);
      if dest.None? { return Untracked; }
      r := HandleTcpConnection(dest.value.0, dest.value.1, stream, httpOk);
    }

    method HandleTcpConnection(destIp: u32, destPort: u16, stream: Option<ByteStream>, httpOk: bool)
      returns (r: Relayed)
      modifies if stream.Some? then {stream.value} else {}
      ensures (r, WireOf(stream)) == Dispatch(cfg, destIp, destPort, old(WireOf(stream)), httpOk)
    {
      if cfg.resolvedIp.None? || stream.None? { return Failed; }
      match cfg.proxyType {
        case Socks5 =>
          var outcome := Connect(stream.value, destIp, destPort, CredentialsOf(cfg));
          if outcome.Err? { return Failed; }
        case Http =>
          if !httpOk { return Failed; }
      }
      r := Established;
    }
  }

  /** A tunnel stands exactly when the proxy's address is known and connected and its handshake succeeded: for SOCKS5,
      with a complete reply of version 5 and status 0. */
  lemma EstablishedExactly(cfg: ProxyConfig, ip: u32, port: u16, wire: Option<Wire>, httpOk: bool)
    ensures var c := Credentials(cfg.username, cfg.password); var request := ConnectRequest(ip, port);
      Dispatch(cfg, ip, port, wire, httpOk).0 == Established <==>
        && cfg.resolvedIp.Some? && wire.Some?
        && (cfg.proxyType == Http ==> httpOk)
        && (cfg.proxyType == ProxyType.Socks5 ==>
              && Replied(wire.value, c, request)
              && var n := ReplyStart(wire.value.input, c).value; wire.value.input[n..n + 2] == [5, 0])
  {
    hide Replied, ReplyStart, Handshake, ConnectOutcome;
    if wire.Some? {
      var c, w := CredentialsOf(cfg), wire.value;
      ConnectExactly(w, c, ip, port);
      if Replied(w, c, ConnectRequest(ip, port)) {
        ReplyFits(w, c, ConnectRequest(ip, port));
        var n := ReplyStart(w.input, c).value;
        assert w.input[n..n + 2] == [w.input[n], w.input[n + 1]];
      }
    }
  }

  /** Through the relay, a willing server recovers the configured user name and password in this order and the
      destination of the client; the tunnel stands if it grants the request. */
  lemma RelayedLogin(cfg: ProxyConfig, n: nat, p: Policy, ip: u32, port: u16, room: nat, httpOk: bool)
    requires cfg.proxyType == ProxyType.Socks5 && cfg.resolvedIp.Some? && n >= 3
    requires var c := Credentials(cfg.username, cfg.password);
      Willing(p, c) && |FullScript(p, c, ConnectRequest(ip, port))| <= room
    ensures var c := Credentials(cfg.username, cfg.password);
      var w := Wire(ServerAfter(n, p, c, ConnectRequest(ip, port), room), [], room);
      var d := Dispatch(cfg, ip, port, Some(w), httpOk);
      var login := if p.choice == 2 then Some((cfg.username.value, cfg.password.value)) else None;
      && d.0 == (if p.status == 0 then Established else Failed)
      && d.1.Some? && Understood(p, d.1.value.sent) == Some(Session(login, Request(1, ip, port)))
  {
    hide Handshake, ConnectOutcome, ServerAfter, FullScript, Understood, ConnectRequest;
    RequestDecodes(ip, port);
    ConversationSucceeds(n, p, CredentialsOf(cfg), ConnectRequest(ip, port), room);
  }
}

/** A conforming SOCKS5 server for IPv4 requests (RFC 1928 sections 3, 4, 6; RFC 1929 section 2), and its
    conversation with the client. */
module Socks5Server {
  import opened Common
  import opened Socks5

  /** The method the server prefers, the logins it accepts, the status with which it answers a request (zero grants
      it), the address it binds and the application bytes that follow its reply to a granted request. */
  datatype Policy = Policy(
    choice: byte,
    accepts: (seq<byte>, seq<byte>) -> bool,
    status: byte,
    ip: u32,
    port: u16,
    app: seq<byte>)

  datatype Hello = Hello(methods: seq<byte>, rest: seq<byte>)
  datatype LoginSeen = LoginSeen(user: seq<byte>, pass: seq<byte>, rest: seq<byte>)
  datatype Request = Request(command: byte, ip: u32, port: u16)

  function DecodeHello(b: seq<byte>): Option<Hello> {
    if |b| < 2 || b[0] != 5 || b[1] == 0 || |b| < 2 + b[1] as int then None
    else Some(Hello(b[2..2 + b[1] as int], b[2 + b[1] as int..]))
  }

  /** User name and password have 1 to 255 bytes each. */
  function DecodeLogin(b: seq<byte>): Option<LoginSeen> {
    if |b| < 2 || b[0] != 1 || b[1] == 0 then None
    else
      var u: int := b[1];
      if |b| < 3 + u || b[2 + u] == 0 then None
      else
        var p: int := b[2 + u];
        if |b| < 3 + u + p then None
        else Some(LoginSeen(b[2..2 + u], b[3 + u..3 + u + p], b[3 + u + p..]))
  }

  function DecodeRequest(b: seq<byte>): Option<Request> {
    if |b| < 10 || b[0] != 5 || b[2] != 0 || b[3] != 1 then None
    else Some(Request(b[1], NeU32(b[4..8]), BeU16(b[8..10])))
  }

  /** The ten-byte IPv4 reply. */
  function BoundReply(p: Policy): seq<byte> {
    Reply(p.status, V4(U32Ne(p.ip)), p.port)
  }

  function AppAfter(p: Policy): seq<byte> {
    if p.status == 0 then p.app else []
  }

  function Answer(p: Policy): seq<byte> {
    BoundReply(p) + AppAfter(p)
  }

  function ServeRequest(p: Policy, b: seq<byte>): seq<byte> {
    if DecodeRequest(b).None? then [] else Answer(p)
  }

  function ServeLogin(p: Policy, b: seq<byte>): seq<byte> {
    match DecodeLogin(b)
    case None => []
    case Some(l) => if p.accepts(l.user, l.pass) then [1, 0] + ServeRequest(p, l.rest) else [1, 1]
  }

  function ServeAfterHello(p: Policy, b: seq<byte>): seq<byte> {
    if p.choice == AUTH_PASSWORD then ServeLogin(p, b) else ServeRequest(p, b)
  }

  /** Everything the server has sent once it has received `b`. */
  function Serve(p: Policy, b: seq<byte>): seq<byte> {
    match DecodeHello(b)
    case None => []
    case Some(hello) => if p.choice in hello.methods then [5, p.choice] + ServeAfterHello(p, hello.rest) else [5, 0xFF]
  }

  datatype Session = Session(login: Option<(seq<byte>, seq<byte>)>, request: Request)

  function UnderstoodRequest(login: Option<(seq<byte>, seq<byte>)>, b: seq<byte>): Option<Session> {
    match DecodeRequest(b)
    case None => None
    case Some(r) => Some(Session(login, r))
  }

  function UnderstoodAfterHello(p: Policy, b: seq<byte>): Option<Session> {
    if p.choice != AUTH_PASSWORD then UnderstoodRequest(None, b)
    else
      match DecodeLogin(b)
      case None => None
      case Some(l) => if p.accepts(l.user, l.pass) then UnderstoodRequest(Some((l.user, l.pass)), l.rest) else None
  }

  /** What the server understood once it has received `b`. */
  function Understood(p: Policy, b: seq<byte>): Option<Session> {
    match DecodeHello(b)
    case None => None
    case Some(hello) => if p.choice in hello.methods then UnderstoodAfterHello(p, hello.rest) else None
  }

  predicate LoginLength(s: seq<byte>) {
    1 <= |s| < 0x100
  }

  /** The login message is understood exactly when both lengths fit the protocol; longer ones are
      truncated by the client. */
  lemma LoginDecodesExactly(user: seq<byte>, pass: seq<byte>, rest: seq<byte>)
    ensures DecodeLogin(LoginMessage(user, pass) + rest) == Some(LoginSeen(user, pass, rest))
      <==> LoginLength(user) && LoginLength(pass)
  {
    var b := LoginMessage(user, pass) + rest;
    var u := |user| % 0x100;
    assert b[0] == 1 && b[1] == u;
    assert b == [AUTH_VERSION, u] + (user + ([|pass| % 0x100] + (pass + rest)));
    if |user| < 0x100 {
      assert b[2..2 + u] == user && b[2 + u] == |pass| % 0x100;
      if |pass| < 0x100 {
        assert b[3 + u..] == pass + rest;
        assert |pass| > 0 ==> b[3 + u..3 + u + |pass|] == pass && b[3 + u + |pass|..] == rest;
      }
    }
  }

  lemma RequestDecodes(ip: u32, port: u16)
    ensures DecodeRequest(ConnectRequest(ip, port)) == Some(Request(CMD_CONNECT, ip, port))
    ensures DecodeRequest(ASSOCIATE_REQUEST) == Some(Request(CMD_UDP_ASSOCIATE, 0, 0))
  {
    var b := ConnectRequest(ip, port);
    assert b[4..8] == U32Ne(ip) && b[8..10] == U16Be(port);
    NeU32RoundTrip(ip);
    assert ASSOCIATE_REQUEST[4..8] == U32Ne(0) && ASSOCIATE_REQUEST[8..10] == U16Be(0);
  }

  lemma HelloDecodes(c: Credentials, rest: seq<byte>)
    ensures DecodeHello(Greeting(c) + rest) == Some(Hello(Offered(c), rest))
  {
    var b := Greeting(c) + rest;
    assert b[2..|Greeting(c)|] == Offered(c) && b[|Greeting(c)|..] == rest;
  }

  function Offered(c: Credentials): seq<byte> {
    if c.Complete() then [AUTH_NONE, AUTH_PASSWORD] else [AUTH_NONE]
  }

  // --- The conversation ---

  /** What a client sends to a peer that has sent `input` so far. */
  function ClientSent(input: seq<byte>, c: Credentials, request: seq<byte>, room: nat): seq<byte> {
    Handshake(Wire(input, [], room), c, request).0.sent
  }

  /** The server's bytes once it has received the client's answer to its bytes `s`. */
  function Round(s: seq<byte>, p: Policy, c: Credentials, request: seq<byte>, room: nat): seq<byte> {
    Serve(p, ClientSent(s, c, request, room))
  }

  /** Bytes sent by the server after `n` rounds, each side answering what it has received. */
  function ServerAfter(n: nat, p: Policy, c: Credentials, request: seq<byte>, room: nat): seq<byte> {
    if n == 0 then [] else Round(ServerAfter(n - 1, p, c, request, room), p, c, request, room)
  }

  function NegotiationBytes(p: Policy): seq<byte> {
    if p.choice == AUTH_PASSWORD then [5, 2, 1, 0] else [5, 0]
  }

  function AcceptedLogin(p: Policy, c: Credentials): Option<(seq<byte>, seq<byte>)> {
    if p.choice == AUTH_PASSWORD && c.Complete() then Some((c.username.value, c.password.value)) else None
  }

  /** The server prefers an offered method and accepts the configured login if it asks for one. */
  predicate Willing(p: Policy, c: Credentials) {
    && p.choice in Offered(c)
    && (p.choice == AUTH_PASSWORD ==>
         && LoginLength(c.username.value) && LoginLength(c.password.value)
         && p.accepts(c.username.value, c.password.value))
  }

  function FullScript(p: Policy, c: Credentials, request: seq<byte>): seq<byte> {
    Script(NegotiationBytes(p), c, request)
  }

  function FullReply(p: Policy): seq<byte> {
    NegotiationBytes(p) + Answer(p)
  }

  lemma HelloServed(p: Policy, c: Credentials, rest: seq<byte>)
    requires p.choice in Offered(c)
    ensures Serve(p, Greeting(c) + rest) == [5, p.choice] + ServeAfterHello(p, rest)
    ensures Understood(p, Greeting(c) + rest) == UnderstoodAfterHello(p, rest)
  {
    HelloDecodes(c, rest);
  }

  lemma LoginServed(p: Policy, c: Credentials, rest: seq<byte>)
    requires Willing(p, c) && p.choice == AUTH_PASSWORD
    ensures var m := LoginMessage(c.username.value, c.password.value) + rest;
      && ServeAfterHello(p, m) == [1, 0] + ServeRequest(p, rest)
      && UnderstoodAfterHello(p, m) == UnderstoodRequest(AcceptedLogin(p, c), rest)
  {
    LoginDecodesExactly(c.username.value, c.password.value, rest);
  }

  lemma FullScriptParts(p: Policy, c: Credentials, request: seq<byte>)
    requires Willing(p, c)
    ensures Negotiated(NegotiationBytes(p), c) && Preamble(NegotiationBytes(p), c) == |NegotiationBytes(p)|
    ensures FullScript(p, c, request) == Greeting(c) +
      if p.choice == AUTH_PASSWORD then LoginMessage(c.username.value, c.password.value) + request else request
  {
  }

  lemma ServeFull(p: Policy, c: Credentials, request: seq<byte>)
    requires Willing(p, c) && DecodeRequest(request).Some?
    ensures Serve(p, FullScript(p, c, request)) == FullReply(p)
    ensures Understood(p, FullScript(p, c, request)) == Some(Session(AcceptedLogin(p, c), DecodeRequest(request).value))
  {
    hide Serve, Understood, FullScript, LoginMessage, Greeting, DecodeLogin, Answer;
    FullScriptParts(p, c, request);
    if p.choice == AUTH_PASSWORD {
      HelloServed(p, c, LoginMessage(c.username.value, c.password.value) + request);
      LoginServed(p, c, request);
      assert [5, 2] + ([1, 0] + Answer(p)) == [5, 2, 1, 0] + Answer(p);
    } else {
      HelloServed(p, c, request);
    }
  }

  lemma FirstRound(p: Policy, c: Credentials, request: seq<byte>, room: nat)
    requires Willing(p, c) && |Greeting(c)| <= room
    ensures Round([], p, c, request, room) == [5, p.choice]
  {
    SentIsScript(Wire([], [], room), c, request);
    assert ClientSent([], c, request, room) == Greeting(c) + [];
    HelloServed(p, c, []);
    assert [5, p.choice] + [] == [5, p.choice];
  }

  lemma LoginRound(p: Policy, c: Credentials, request: seq<byte>, room: nat)
    requires Willing(p, c) && p.choice == AUTH_PASSWORD && |FullScript(p, c, request)| <= room
    ensures Round([5, 2], p, c, request, room) == [5, 2, 1, 0]
  {
    var a := LoginMessage(c.username.value, c.password.value);
    FullScriptParts(p, c, request);
    SentIsScript(Wire([5, 2], [], room), c, request);
    assert ClientSent([5, 2], c, request, room) == Greeting(c) + (a + []);
    HelloServed(p, c, a + []);
    LoginServed(p, c, []);
    assert [5, 2] + ([1, 0] + []) == [5, 2, 1, 0];
  }

  /** Once the negotiation is complete, the rest of the server's bytes no longer matters. */
  lemma LastRound(p: Policy, c: Credentials, request: seq<byte>, room: nat, rest: seq<byte>)
    requires Willing(p, c) && |FullScript(p, c, request)| <= room && DecodeRequest(request).Some?
    ensures ClientSent(NegotiationBytes(p) + rest, c, request, room) == FullScript(p, c, request)
    ensures Round(NegotiationBytes(p) + rest, p, c, request, room) == FullReply(p)
  {
    FullScriptParts(p, c, request);
    NegotiationIsPrefix(NegotiationBytes(p), rest, c, request);
    SentIsScript(Wire(NegotiationBytes(p) + rest, [], room), c, request);
    ServeFull(p, c, request);
  }

  lemma Rounds(p: Policy, c: Credentials, request: seq<byte>, room: nat)
    requires Willing(p, c) && |FullScript(p, c, request)| <= room && DecodeRequest(request).Some?
    ensures Round([], p, c, request, room) == [5, p.choice]
    ensures p.choice == AUTH_PASSWORD ==> Round([5, p.choice], p, c, request, room) == NegotiationBytes(p)
    ensures p.choice != AUTH_PASSWORD ==> [5, p.choice] == NegotiationBytes(p)
    ensures Round(NegotiationBytes(p), p, c, request, room) == FullReply(p)
    ensures Round(FullReply(p), p, c, request, room) == FullReply(p)
  {
    FullScriptParts(p, c, request);
    FirstRound(p, c, request, room);
    if p.choice == AUTH_PASSWORD { LoginRound(p, c, request, room); }
    LastRound(p, c, request, room, []);
    assert NegotiationBytes(p) + [] == NegotiationBytes(p);
    LastRound(p, c, request, room, Answer(p));
  }

  /** From the third round on, nothing more is exchanged before the application speaks. */
  lemma {:induction false} ConversationSettles(n: nat, p: Policy, c: Credentials, request: seq<byte>, room: nat)
    requires n >= 3 && Willing(p, c) && DecodeRequest(request).Some? && |FullScript(p, c, request)| <= room
    ensures ServerAfter(n, p, c, request, room) == FullReply(p)
  {
    hide Round;
    Rounds(p, c, request, room);
    if n > 3 {
      ConversationSettles(n - 1, p, c, request, room);
    } else {
      assert ServerAfter(1, p, c, request, room) == [5, p.choice];
      assert ServerAfter(2, p, c, request, room) == Round([5, p.choice], p, c, request, room);
    }
  }

  /** With a willing server the handshake comes to its end: the server recovers the configured login and the request.
      If it grants the request, the client gets the bound address and is left at the first application byte; if it
      refuses, the client reports its status. */
  lemma ConversationSucceeds(n: nat, p: Policy, c: Credentials, request: seq<byte>, room: nat)
    requires n >= 3 && Willing(p, c) && DecodeRequest(request).Some? && |FullScript(p, c, request)| <= room
    ensures var h := Handshake(Wire(ServerAfter(n, p, c, request, room), [], room), c, request);
      && Understood(p, h.0.sent) == Some(Session(AcceptedLogin(p, c), DecodeRequest(request).value))
      && ConnectOutcome(h.1) == (if p.status == 0 then Ok(()) else Err(Refused(p.status)))
      && AssociateOutcome(h.1) == (if p.status == 0 then Ok((p.ip, p.port)) else Err(Refused(p.status)))
      && h.0.input == (if p.status == 0 then p.app else [])
  {
    hide Handshake, ServerAfter, Serve, Understood, FullScript, Script, ConnectOutcome, AssociateOutcome;
    ConversationSettles(n, p, c, request, room);
    ServeFull(p, c, request);
    LastRound(p, c, request, room, Answer(p));
    ReplyRead(p, c, request, room);
  }

  lemma ReplyRead(p: Policy, c: Credentials, request: seq<byte>, room: nat)
    requires Willing(p, c) && |FullScript(p, c, request)| <= room
    ensures var h := Handshake(Wire(FullReply(p), [], room), c, request);
      && h.1 == Ok(BoundReply(p)) && h.0.input == AppAfter(p)
      && ConnectOutcome(h.1) == (if p.status == 0 then Ok(()) else Err(Refused(p.status)))
      && AssociateOutcome(h.1) == (if p.status == 0 then Ok((p.ip, p.port)) else Err(Refused(p.status)))
  {
    hide Handshake, Script, Preamble, Negotiated, LoginMessage, BoundReply, NeU32, BeU16;
    var neg := NegotiationBytes(p);
    FullScriptParts(p, c, request);
    NegotiationIsPrefix(neg, Answer(p), c, request);
    HandshakeExactly(Wire(FullReply(p), [], room), c, request);
    BoundReplyRead(p);
    ReplyInside(neg, BoundReply(p), AppAfter(p));
  }

  lemma ReplyInside(neg: seq<byte>, reply: seq<byte>, app: seq<byte>)
    requires |reply| == 10
    ensures var b := neg + (reply + app);
      |b| >= |neg| + 10 && b[|neg|..|neg| + 10] == reply && b[|neg| + 10..] == app
  {
  }

  lemma BoundReplyRead(p: Policy)
    ensures var b := BoundReply(p);
      && |b| == 10 && b[0] == 5 && b[1] == p.status && b[3] == 1
      && NeU32(b[4..8]) == p.ip && BeU16(b[8..10]) == p.port
  {
    var b := BoundReply(p);
    assert b[4..8] == U32Ne(p.ip) && b[8..10] == U16Be(p.port);
    NeU32RoundTrip(p.ip);
  }

  /** The destination of a CONNECT survives the conversation. */
  lemma ConnectReachesServer(n: nat, p: Policy, c: Credentials, ip: u32, port: u16, room: nat)
    requires n >= 3 && Willing(p, c) && |FullScript(p, c, ConnectRequest(ip, port))| <= room
    ensures var input := ServerAfter(n, p, c, ConnectRequest(ip, port), room);
      var h := Handshake(Wire(input, [], room), c, ConnectRequest(ip, port));
      && (ConnectOutcome(h.1).Ok? <==> p.status == 0) && h.0.input == (if p.status == 0 then p.app else [])
      && Understood(p, h.0.sent).Some? && Understood(p, h.0.sent).value.request == Request(CMD_CONNECT, ip, port)
  {
    RequestDecodes(ip, port);
    ConversationSucceeds(n, p, c, ConnectRequest(ip, port), room);
  }

  /** A server that asks for a login and refuses it never sees a request. */
  lemma RefusedLoginStops(w: Wire, c: Credentials, request: seq<byte>, a: byte, b: byte, rest: seq<byte>)
    requires w.input == [5, 2, a, b] + rest && (a, b) != (1, 0)
    ensures Handshake(w, c, request).1.Err?
    ensures Handshake(w, c, request).0.sent == w.sent + Cut(BeforeRequest(w.input, c), w.room)
  {
    SentIsScript(w, c, request);
    HandshakeExactly(w, c, request);
    assert Script(w.input, c, request) == BeforeRequest(w.input, c);
  }
}

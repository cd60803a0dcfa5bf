/** The SOCKS5 client of `proxy/socks5.rs` (RFC 1928 sections 3, 4, 6, 7; RFC 1929 section 2). */
module Socks5 {
  import opened Common

  const VERSION: byte := 5
  const AUTH_VERSION: byte := 1
  const AUTH_NONE: byte := 0
  const AUTH_PASSWORD: byte := 2
  const CMD_CONNECT: byte := 1
  const CMD_UDP_ASSOCIATE: byte := 3
  const ATYP_IPV4: byte := 1

  datatype Error =
    | SendFailed
    | ShortRead
    | BadVersion
    | AuthFailed
    | UnsupportedMethod
    | Refused(status: byte)
    | UnsupportedAddress
  datatype Result<+T> = Ok(value: T) | Err(error: Error)

  datatype Credentials = Credentials(username: Option<seq<byte>>, password: Option<seq<byte>>) {
    predicate Complete() {
      username.Some? && password.Some?
    }
  }

  // --- The byte stream ---

  /** A connection as the client sees it: bytes still to arrive before end of file, bytes sent, and
      how many more bytes the peer accepts before writing fails. */
  datatype Wire = Wire(input: seq<byte>, sent: seq<byte>, room: nat) {
    function Send(m: seq<byte>): (Wire, bool) {
      var n := if |m| <= room then |m| else room;
      (this.(sent := sent + m[..n], room := room - n), |m| <= room)
    }

    function Recv(n: nat): (Wire, Option<seq<byte>>) {
      if n <= |input| then (this.(input := input[n..]), Some(input[..n])) else (this.(input := []), None)
    }
  }

  function Flatten(chunks: seq<seq<byte>>): seq<byte> {
    if chunks == [] then [] else chunks[0] + Flatten(chunks[1..])
  }

  /** Moving `k` bytes out of the first chunk. */
  lemma TakeFirst(got: seq<byte>, chunks: seq<seq<byte>>, k: nat)
    requires chunks != [] && k <= |chunks[0]|
    ensures var c := chunks[0]; var left := if k == |c| then chunks[1..] else [c[k..]] + chunks[1..];
      (got + c[..k]) + Flatten(left) == got + Flatten(chunks)
  {
    var c, later := chunks[0], Flatten(chunks[1..]);
    assert (got + c[..k]) + (c[k..] + later) == got + (c + later);
    if k == |c| {
      assert c[k..] + later == later;
    } else {
      var left := [c[k..]] + chunks[1..];
      assert left[0] == c[k..] && left[1..] == chunks[1..];
    }
  }

  /** A stream that delivers its input in chunks of any size. */
  class ByteStream {
    var chunks: seq<seq<byte>>
    var sent: seq<byte>
    var room: nat

    ghost function AsWire(): Wire
      reads this
    {
      Wire(Flatten(chunks), sent, room)
    }

    constructor (chunks: seq<seq<byte>>, room: nat)
      ensures AsWire() == Wire(Flatten(chunks), [], room)
    {
      this.chunks, this.sent, this.room := chunks, [], room;
    }

    method WriteAll(m: seq<byte>) returns (ok: bool)
      modifies this
      ensures (AsWire(), ok) == old(AsWire()).Send(m)
    {
      var n := if |m| <= room then |m| else room;
      sent := sent + m[..n];
      room := room - n;
      ok := n == |m|;
    }

    /** `read_exact`: take from as many chunks as needed. */
    method ReadExact(n: nat) returns (r: Option<seq<byte>>)
      modifies this
      ensures (AsWire(), r) == old(AsWire()).Recv(n)
    {
      ghost var all := Flatten(chunks);
      var got: seq<byte> := [];
      while |got| < n
        invariant |got| <= n && got + Flatten(chunks) == all
        invariant sent == old(sent) && room == old(room)
        decreases |chunks|, n - |got|
      {
        if chunks == [] { return None; }
        var c := chunks[0];
        var k := if |c| <= n - |got| then |c| else n - |got|;
        TakeFirst(got, chunks, k);
        got := got + c[..k];
        if k == |c| {
          chunks := chunks[1..];
        } else {
          chunks := [c[k..]] + chunks[1..];
        }
      }
      r := Some(got);
    }
  }

  // --- Messages ---

  function Greeting(c: Credentials): seq<byte> {
    if c.Complete() then [VERSION, 2, AUTH_NONE, AUTH_PASSWORD] else [VERSION, 1, AUTH_NONE]
  }

  /** The lengths are truncated to one byte. */
  function LoginMessage(user: seq<byte>, pass: seq<byte>): seq<byte> {
    [AUTH_VERSION, |user| % 0x100] + user + [|pass| % 0x100] + pass
  }

  function ConnectRequest(ip: u32, port: u16): (m: seq<byte>)
    ensures |m| == 10
  {
    [VERSION, CMD_CONNECT, 0, ATYP_IPV4] + U32Ne(ip) + U16Be(port)
  }

  const ASSOCIATE_REQUEST: seq<byte> := [VERSION, CMD_UDP_ASSOCIATE, 0, ATYP_IPV4, 0, 0, 0, 0, 0, 0]

  // --- The handshakes as functions of the wire ---

  function Login(w: Wire, user: seq<byte>, pass: seq<byte>): (Wire, Option<Error>) {
    var (w1, sent) := w.Send(LoginMessage(user, pass));
    if !sent then (w1, Some(SendFailed))
    else
      var (w2, resp) := w1.Recv(2);
      match resp
      case None => (w2, Some(ShortRead))
      case Some(b) => (w2, if b[0] != AUTH_VERSION || b[1] != 0 then Some(AuthFailed) else None)
  }

  function Negotiate(w: Wire, c: Credentials): (Wire, Option<Error>) {
    var (w1, sent) := w.Send(Greeting(c));
    if !sent then (w1, Some(SendFailed))
    else
      var (w2, resp) := w1.Recv(2);
      match resp
      case None => (w2, Some(ShortRead))
      case Some(b) =>
        if b[0] != VERSION then (w2, Some(BadVersion))
        else if b[1] == AUTH_PASSWORD && c.Complete() then Login(w2, c.username.value, c.password.value)
        else (w2, if b[1] != AUTH_NONE then Some(UnsupportedMethod) else None)
  }

  /** Negotiation, then one request and its ten-byte reply. */
  function Handshake(w: Wire, c: Credentials, request: seq<byte>): (r: (Wire, Result<seq<byte>>))
    ensures r.1.Ok? ==> |r.1.value| == 10
  {
    var (w1, e) := Negotiate(w, c);
    if e.Some? then (w1, Err(e.value))
    else
      var (w2, sent) := w1.Send(request);
      if !sent then (w2, Err(SendFailed))
      else
        var (w3, reply) := w2.Recv(10);
        match reply
        case None => (w3, Err(ShortRead))
        case Some(b) => (w3, Ok(b))
  }

  function ConnectOutcome(r: Result<seq<byte>>): Result<()>
    requires r.Ok? ==> |r.value| == 10
  {
    match r
    case Err(e) => Err(e)
    case Ok(b) => if b[0] != VERSION then Err(BadVersion) else if b[1] != 0 then Err(Refused(b[1])) else Ok(())
  }

  function AssociateOutcome(r: Result<seq<byte>>): Result<(u32, u16)>
    requires r.Ok? ==> |r.value| == 10
  {
    match r
    case Err(e) => Err(e)
    case Ok(b) =>
      if b[0] != VERSION || b[1] != 0 then Err(Refused(b[1]))
      else if b[3] != ATYP_IPV4 then Err(UnsupportedAddress)
      else Ok((NeU32(b[4..8]), BeU16(b[8..10])))
  }

  // --- The client methods ---

  method PushGreeting(useAuth: bool) returns (buf: seq<byte>)
    ensures forall c: Credentials :: c.Complete() == useAuth ==> buf == Greeting(c)
  {
    buf := [VERSION];
    if useAuth {
      buf := buf + [2];
      buf := buf + [AUTH_NONE];
      buf := buf + [AUTH_PASSWORD];
    } else {
      buf := buf + [1];
      buf := buf + [AUTH_NONE];
    }
  }

  method PushLogin(user: seq<byte>, pass: seq<byte>) returns (buf: seq<byte>)
    ensures buf == LoginMessage(user, pass)
  {
    buf := [AUTH_VERSION];
    buf := buf + [|user| % 0x100];
    buf := buf + user;
    buf := buf + [|pass| % 0x100];
    buf := buf + pass;
  }

  method FillConnect(ip: u32, port: u16) returns (m: seq<byte>)
    ensures m == ConnectRequest(ip, port)
  {
    var buf := new byte[10](_ => 0);
    buf[0] := VERSION;
    buf[1] := CMD_CONNECT;
    buf[3] := ATYP_IPV4;
    forall i | 0 <= i < 4 { buf[4 + i] := U32Ne(ip)[i]; }
    forall i | 0 <= i < 2 { buf[8 + i] := U16Be(port)[i]; }
    m := buf[..];
  }

  /** The outcome and everything sent depend on the concatenated input only, not on the chunks. */
  method Connect(stream: ByteStream, ip: u32, port: u16, c: Credentials) returns (r: Result<()>)
    modifies stream
    ensures var h := Handshake(old(stream.AsWire()), c, ConnectRequest(ip, port));
      stream.AsWire() == h.0 && r == ConnectOutcome(h.1)
  {
    var useAuth := c.username.Some? && c.password.Some?;

    var buf := PushGreeting(useAuth);
    var ok := stream.WriteAll(buf);
    if !ok { return Err(SendFailed); }
    var resp := stream.ReadExact(2);
    if resp.None? { return Err(ShortRead); }
    if resp.value[0] != VERSION { return Err(BadVersion); }

    if resp.value[1] == AUTH_PASSWORD && useAuth {
      var user, pass := c.username.value, c.password.value;
      var authBuf := PushLogin(user, pass);
      ok := stream.WriteAll(authBuf);
      if !ok { return Err(SendFailed); }
      var authResp := stream.ReadExact(2);
      if authResp.None? { return Err(ShortRead); }
      if authResp.value[0] != 1 || authResp.value[1] != 0 { return Err(AuthFailed); }
    } else if resp.value[1] != AUTH_NONE {
      return Err(UnsupportedMethod);
    }

    var connectBuf := FillConnect(ip, port);
    ok := stream.WriteAll(connectBuf);
    if !ok { return Err(SendFailed); }
    var reply := stream.ReadExact(10);
    if reply.None? { return Err(ShortRead); }
    if reply.value[0] != VERSION { return Err(BadVersion); }
    if reply.value[1] != 0 { return Err(Refused(reply.value[1])); }
    r := Ok(());
  }

  method UdpAssociate(stream: ByteStream, c: Credentials) returns (r: Result<(u32, u16)>)
    modifies stream
    ensures var h := Handshake(old(stream.AsWire()), c, ASSOCIATE_REQUEST);
      stream.AsWire() == h.0 && r == AssociateOutcome(h.1)
  {
    var useAuth := c.username.Some? && c.password.Some?;

    var buf := PushGreeting(useAuth);
    var ok := stream.WriteAll(buf);
    if !ok { return Err(SendFailed); }
    var resp := stream.ReadExact(2);
    if resp.None? { return Err(ShortRead); }
    if resp.value[0] != VERSION { return Err(BadVersion); }

    if resp.value[1] == AUTH_PASSWORD && useAuth {
      var user, pass := c.username.value, c.password.value;
      var authBuf := PushLogin(user, pass);
      ok := stream.WriteAll(authBuf);
      if !ok { return Err(SendFailed); }
      var authResp := stream.ReadExact(2);
      if authResp.None? { return Err(ShortRead); }
      if authResp.value[0] != 1 || authResp.value[1] != 0 { return Err(AuthFailed); }
    } else if resp.value[1] != AUTH_NONE {
      return Err(UnsupportedMethod);
    }

    ok := stream.WriteAll(ASSOCIATE_REQUEST);
    if !ok { return Err(SendFailed); }
    var reply := stream.ReadExact(10);
    if reply.None? { return Err(ShortRead); }
    var b := reply.value;
    if b[0] != VERSION || b[1] != 0 { return Err(Refused(b[1])); }
    if b[3] != ATYP_IPV4 { return Err(UnsupportedAddress); }
    r := Ok((NeU32(b[4..8]), BeU16(b[8..10])));
  }

  // --- What the server's bytes make the client do ---

  /** The server chose method 2 and both credentials are configured. */
  predicate PasswordChosen(input: seq<byte>, c: Credentials) {
    |input| >= 2 && input[0] == VERSION && input[1] == AUTH_PASSWORD && c.Complete()
  }

  /** The server completed the negotiation. */
  predicate Negotiated(input: seq<byte>, c: Credentials) {
    if PasswordChosen(input, c) then |input| >= 4 && input[2] == AUTH_VERSION && input[3] == 0
    else |input| >= 2 && input[0] == VERSION && input[1] == AUTH_NONE
  }

  /** Bytes of negotiation that precede the reply. */
  function Preamble(input: seq<byte>, c: Credentials): nat {
    if PasswordChosen(input, c) then 4 else 2
  }

  function BeforeRequest(input: seq<byte>, c: Credentials): seq<byte> {
    Greeting(c) + if PasswordChosen(input, c) then LoginMessage(c.username.value, c.password.value) else []
  }

  /** Everything the client has to say to a server that sends `input`. */
  function Script(input: seq<byte>, c: Credentials, request: seq<byte>): seq<byte> {
    BeforeRequest(input, c) + if Negotiated(input, c) then request else []
  }

  function Cut(m: seq<byte>, room: nat): seq<byte> {
    if |m| <= room then m else m[..room]
  }

  /** In every run the bytes sent are the script, cut where writing fails: credentials go out only if the
      server chose method 2 and both are configured, the request only after a completed negotiation, and
      two requests share everything before the request. */
  lemma SentIsScript(w: Wire, c: Credentials, request: seq<byte>)
    ensures Handshake(w, c, request).0.sent == w.sent + Cut(Script(w.input, c, request), w.room)
  {
    var g := Greeting(c);
    var (w1, sent1) := w.Send(g);
    if sent1 && |w.input| >= 2 && w.input[0] == VERSION {
      var (w2, resp) := w1.Recv(2);
      if PasswordChosen(w.input, c) {
        var a := LoginMessage(c.username.value, c.password.value);
        var (w3, sent3) := w2.Send(a);
        assert Cut(g + a, w.room) == g + Cut(a, w.room - |g|);
        if sent3 && Negotiated(w.input, c) {
          assert Script(w.input, c, request) == g + a + request;
          assert Cut(g + a + request, w.room) == g + a + Cut(request, w.room - |g| - |a|);
          assert w2.input[..2] == w.input[2..4];
        }
      } else if Negotiated(w.input, c) {
        assert Script(w.input, c, request) == g + request;
        assert Cut(g + request, w.room) == g + Cut(request, w.room - |g|);
      }
    }
  }

  /** Success is decided by the negotiation bytes and the presence of ten reply bytes; exactly those
      bytes are consumed. */
  lemma HandshakeExactly(w: Wire, c: Credentials, request: seq<byte>)
    ensures var (w', r) := Handshake(w, c, request); var n := Preamble(w.input, c);
      && (r.Ok? <==> Negotiated(w.input, c) && |w.input| >= n + 10 && |Script(w.input, c, request)| <= w.room)
      && (r.Ok? ==> r.value == w.input[n..n + 10] && w'.input == w.input[n + 10..])
  {
    var (w1, sent1) := w.Send(Greeting(c));
    if sent1 && |w.input| >= 2 && w.input[0] == VERSION && PasswordChosen(w.input, c) {
      var (w2, resp) := w1.Recv(2);
      var (w3, sent3) := w2.Send(LoginMessage(c.username.value, c.password.value));
      if sent3 && |w.input| >= 4 {
        assert w2.input[..2] == w.input[2..4];
        assert w3.input[2..] == w.input[4..];
      }
    }
  }

  /** Where the reply starts, if the server answers the negotiation as it should: method 2 with an accepted login when
      both credentials are configured, or method 0. */
  function ReplyStart(input: seq<byte>, c: Credentials): Option<nat> {
    if c.username.Some? && c.password.Some? && |input| >= 4 && input[..4] == [5, 2, 1, 0] then Some(4)
    else if |input| >= 2 && input[..2] == [5, 0] then Some(2)
    else None
  }

  lemma NegotiatedExactly(input: seq<byte>, c: Credentials)
    ensures Negotiated(input, c) <==> ReplyStart(input, c).Some?
    ensures Negotiated(input, c) ==> ReplyStart(input, c) == Some(Preamble(input, c))
  {
    if |input| >= 4 { assert input[..4] == [input[0], input[1], input[2], input[3]]; }
    if |input| >= 2 { assert input[..2] == [input[0], input[1]]; }
  }

  /** All ten reply bytes arrive and all that is said can be written. */
  predicate Replied(w: Wire, c: Credentials, request: seq<byte>) {
    var n := ReplyStart(w.input, c);
    n.Some? && |w.input| >= n.value + 10 && |Script(w.input, c, request)| <= w.room
  }

  lemma ReplyFits(w: Wire, c: Credentials, request: seq<byte>)
    requires Replied(w, c, request)
    ensures ReplyStart(w.input, c).Some? && ReplyStart(w.input, c).value + 10 <= |w.input|
  {
  }

  lemma RepliedExactly(w: Wire, c: Credentials, request: seq<byte>)
    ensures var r := Handshake(w, c, request).1;
      && (r.Ok? <==> Replied(w, c, request))
      && (r.Ok? ==> var n := ReplyStart(w.input, c).value; r.value == w.input[n..n + 10])
  {
    NegotiatedExactly(w.input, c);
    HandshakeExactly(w, c, request);
  }

  /** CONNECT succeeds exactly when the reply is there and carries version 5 and status 0; otherwise the status of a
      version 5 reply is the error. */
  lemma ConnectExactly(w: Wire, c: Credentials, ip: u32, port: u16)
    ensures var request := ConnectRequest(ip, port); var r := ConnectOutcome(Handshake(w, c, request).1);
      if !Replied(w, c, request) then r.Err? && !r.error.Refused?
      else
        var n := ReplyStart(w.input, c).value;
        && (r.Ok? <==> w.input[n] == 5 && w.input[n + 1] == 0)
        && (w.input[n] == 5 && w.input[n + 1] != 0 ==> r == Err(Refused(w.input[n + 1])))
  {
    hide Script, ReplyStart, Replied, Handshake, ConnectRequest;
    if Replied(w, c, ConnectRequest(ip, port)) { ReplyFits(w, c, ConnectRequest(ip, port)); }
    RepliedExactly(w, c, ConnectRequest(ip, port));
    HandshakeRefusesNothing(w, c, ConnectRequest(ip, port));
  }

  /** UDP ASSOCIATE also needs an IPv4 reply, and yields its address and port. */
  lemma AssociateExactly(w: Wire, c: Credentials)
    ensures var r := AssociateOutcome(Handshake(w, c, ASSOCIATE_REQUEST).1);
      if !Replied(w, c, ASSOCIATE_REQUEST) then r.Err? && !r.error.Refused?
      else
        var n, b := ReplyStart(w.input, c).value, w.input;
        && (r.Ok? <==> b[n] == 5 && b[n + 1] == 0 && b[n + 3] == 1)
        && (r.Ok? ==> U32Ne(r.value.0) == b[n + 4..n + 8] && r.value.1 == 0x100 * b[n + 8] as int + b[n + 9] as int)
        && (b[n] == 5 && b[n + 1] != 0 ==> r == Err(Refused(b[n + 1])))
  {
    hide Script, ReplyStart, Replied, Handshake, U32Ne, NeU32;
    RepliedExactly(w, c, ASSOCIATE_REQUEST);
    HandshakeRefusesNothing(w, c, ASSOCIATE_REQUEST);
    if Replied(w, c, ASSOCIATE_REQUEST) {
      ReplyFits(w, c, ASSOCIATE_REQUEST);
      var n := ReplyStart(w.input, c).value;
      ReplyParts(w.input, n);
      U32NeRoundTrip(w.input[n + 4..n + 8]);
    }
  }

  lemma ReplyParts(input: seq<byte>, n: nat)
    requires n + 10 <= |input|
    ensures var b := input[n..n + 10];
      && b[0] == input[n] && b[1] == input[n + 1] && b[3] == input[n + 3] && b[4..8] == input[n + 4..n + 8]
      && b[8..10] == [input[n + 8], input[n + 9]]
  {
    var b := input[n..n + 10];
    assert forall k :: 0 <= k < 10 ==> b[k] == input[n + k];
    assert b[4..8] == input[n + 4..n + 8];
  }

  lemma HandshakeRefusesNothing(w: Wire, c: Credentials, request: seq<byte>)
    ensures var r := Handshake(w, c, request).1; r.Err? ==> !r.error.Refused?
  {
  }

  /** The two requests, byte by byte. */
  lemma RequestBytes(ip: u32, port: u16)
    ensures ConnectRequest(ip, port) ==
      [5, 1, 0, 1, Octet(ip, 0), Octet(ip, 1), Octet(ip, 2), Octet(ip, 3), port / 0x100, port % 0x100]
    ensures ASSOCIATE_REQUEST == [5, 3, 0, 1, 0, 0, 0, 0, 0, 0]
  {
  }

  /** CONNECT and UDP ASSOCIATE differ in nothing before the request. */
  lemma SameUntilRequest(w: Wire, c: Credentials, ip: u32, port: u16)
    ensures var x := Handshake(w, c, ConnectRequest(ip, port)); var y := Handshake(w, c, ASSOCIATE_REQUEST);
      && |x.0.sent| == |y.0.sent| && x.0.input == y.0.input && x.1 == y.1
      && (x.0.sent == y.0.sent <==> Negotiated(w.input, c) ==> w.room < |BeforeRequest(w.input, c)| + 2)
  {
    SentIsScript(w, c, ConnectRequest(ip, port));
    SentIsScript(w, c, ASSOCIATE_REQUEST);
    if Negotiated(w.input, c) {
      var b := BeforeRequest(w.input, c);
      var s, t := Script(w.input, c, ConnectRequest(ip, port)), Script(w.input, c, ASSOCIATE_REQUEST);
      assert s[|b| + 1] == CMD_CONNECT && t[|b| + 1] == CMD_UDP_ASSOCIATE && s[..|b| + 1] == t[..|b| + 1];
      if w.room >= |b| + 2 {
        assert (w.sent + Cut(s, w.room))[|w.sent| + |b| + 1] == CMD_CONNECT;
        assert (w.sent + Cut(t, w.room))[|w.sent| + |b| + 1] == CMD_UDP_ASSOCIATE;
      } else {
        assert Cut(s, w.room) == s[..|b| + 1][..w.room] && Cut(t, w.room) == t[..|b| + 1][..w.room];
      }
    }
  }

  // --- Replies with other address types ---

  /** `BND.ADDR` of a reply with its type byte (RFC 1928, section 6). */
  datatype BoundAddress = V4(octets: seq<byte>) | Domain(name: seq<byte>) | V6(octets: seq<byte>) {
    predicate Valid() {
      match this
      case V4(o) => |o| == 4
      case Domain(n) => |n| < 0x100
      case V6(o) => |o| == 16
    }

    function Bytes(): seq<byte>
      requires Valid()
    {
      match this
      case V4(o) => [1] + o
      case Domain(n) => [3, |n|] + n
      case V6(o) => [4] + o
    }
  }

  function Reply(status: byte, a: BoundAddress, port: u16): seq<byte>
    requires a.Valid()
  {
    [5, status, 0] + a.Bytes() + [port / 0x100, port % 0x100]
  }

  function SuccessReply(a: BoundAddress, port: u16): seq<byte>
    requires a.Valid()
  {
    Reply(0, a, port)
  }

  /** Later bytes do not change a completed negotiation. */
  lemma NegotiationIsPrefix(neg: seq<byte>, rest: seq<byte>, c: Credentials, request: seq<byte>)
    requires Negotiated(neg, c) && |neg| == Preamble(neg, c)
    ensures Negotiated(neg + rest, c) && Preamble(neg + rest, c) == |neg|
    ensures Script(neg + rest, c, request) == Script(neg, c, request)
    ensures BeforeRequest(neg + rest, c) == BeforeRequest(neg, c)
    ensures (neg + rest)[|neg|..] == rest
  {
    var input := neg + rest;
    assert input[0] == neg[0] && input[1] == neg[1] && (|neg| == 4 ==> input[2] == neg[2] && input[3] == neg[3]);
  }

  lemma ReplyThenApp(neg: seq<byte>, reply: seq<byte>, app: seq<byte>, c: Credentials, request: seq<byte>, room: nat)
    requires Negotiated(neg, c) && |neg| == Preamble(neg, c) && |Script(neg, c, request)| <= room
    requires |reply| >= 2 && reply[0] == VERSION && reply[1] == 0
    ensures var h := Handshake(Wire(neg + (reply + app), [], room), c, request);
      ConnectOutcome(h.1).Ok? && h.0.input == app <==> |reply| == 10
  {
    hide Handshake, Script, Negotiated, Preamble;
    var rest := reply + app;
    var input := neg + rest;
    NegotiationIsPrefix(neg, rest, c, request);
    HandshakeExactly(Wire(input, [], room), c, request);
    var n := |neg|;
    if |rest| >= 10 {
      assert input[n..n + 10] == rest[..10] && input[n + 10..] == rest[10..];
      assert |rest[10..]| == |reply| + |app| - 10;
      if |reply| == 10 { assert rest[10..] == app; }
    }
  }

  /** CONNECT reads ten reply bytes whatever the address type. After a success reply the stream stands at the
      first application byte exactly for IPv4 and three-letter domain replies. */
  lemma ApplicationByteExactly(neg: seq<byte>, a: BoundAddress, port: u16, app: seq<byte>, c: Credentials,
                               request: seq<byte>, room: nat)
    requires a.Valid() && Negotiated(neg, c) && |neg| == Preamble(neg, c)
    requires |Script(neg, c, request)| <= room
    ensures var h := Handshake(Wire(neg + (SuccessReply(a, port) + app), [], room), c, request);
      ConnectOutcome(h.1).Ok? && h.0.input == app <==> a.V4? || (a.Domain? && |a.name| == 3)
  {
    var reply := SuccessReply(a, port);
    assert reply[0] == VERSION && reply[1] == 0 && |reply| == 5 + |a.Bytes()|;
    ReplyThenApp(neg, reply, app, c, request, room);
  }

  // --- UDP datagrams (RFC 1928, section 7) ---

  method BuildUdpPacket(ip: u32, port: u16, data: seq<byte>) returns (packet: seq<byte>)
    ensures packet == UdpPacket(ip, port, data)
  {
    packet := [0, 0, 0];
    packet := packet + [ATYP_IPV4];
    packet := packet + U32Ne(ip);
    packet := packet + U16Be(port);
    packet := packet + data;
  }

  function UdpPacket(ip: u32, port: u16, data: seq<byte>): (p: seq<byte>)
    ensures |p| == 10 + |data| && p[10..] == data
  {
    [0, 0, 0, ATYP_IPV4] + U32Ne(ip) + U16Be(port) + data
  }

  /** Source address, source port and the offset of the data. */
  function ParseUdpPacket(packet: seq<byte>): (r: Option<(u32, u16, nat)>)
    ensures r.Some? ==> r.value.2 <= |packet|
  {
    if |packet| < 10 then None
    else if packet[2] != 0 then None
    else if packet[3] != ATYP_IPV4 then None
    else Some((NeU32(packet[4..8]), BeU16(packet[8..10]), 10))
  }

  /** The datagram, byte by byte. */
  lemma UdpPacketBytes(ip: u32, port: u16, data: seq<byte>)
    ensures UdpPacket(ip, port, data) ==
      [0, 0, 0, 1, Octet(ip, 0), Octet(ip, 1), Octet(ip, 2), Octet(ip, 3), port / 0x100, port % 0x100] + data
  {
  }

  /** Only unfragmented IPv4 datagrams with a complete header are parsed. */
  lemma UdpParsedExactly(packet: seq<byte>)
    ensures ParseUdpPacket(packet).Some? <==> |packet| >= 10 && packet[2] == 0 && packet[3] == 1
    ensures ParseUdpPacket(packet).Some? ==>
      var (ip, port, at) := ParseUdpPacket(packet).value;
      U32Ne(ip) == packet[4..8] && port == 0x100 * packet[8] as int + packet[9] as int && at == 10
  {
    if |packet| >= 10 { U32NeRoundTrip(packet[4..8]); }
  }

  lemma UdpBuildThenParse(ip: u32, port: u16, data: seq<byte>)
    ensures ParseUdpPacket(UdpPacket(ip, port, data)) == Some((ip, port, 10))
  {
    var p := UdpPacket(ip, port, data);
    assert p[4..8] == U32Ne(ip) && p[8..10] == U16Be(port);
    NeU32RoundTrip(ip);
  }

  /** Rebuilding a parsed packet restores it exactly when its reserved bytes are zero. */
  lemma UdpParseThenBuild(packet: seq<byte>)
    requires ParseUdpPacket(packet).Some?
    ensures var (ip, port, at) := ParseUdpPacket(packet).value;
      UdpPacket(ip, port, packet[at..]) == packet <==> packet[0] == 0 && packet[1] == 0
  {
    var (ip, port, at) := ParseUdpPacket(packet).value;
    U32NeRoundTrip(packet[4..8]);
    U16BeRoundTrip(packet[8..10]);
    var q := UdpPacket(ip, port, packet[at..]);
    assert q[0] == 0 && q[1] == 0;
    if packet[0] == 0 && packet[1] == 0 {
      assert packet == packet[..4] + packet[4..8] + packet[8..10] + packet[10..];
    }
  }
}

/** `process.rs`: the walk over SOCK_DIAG replies in `get_pid_via_netlink`. */
module Netlink {
  import opened Common

  const NLMSG_ERROR: u16 := 2
  const NLMSG_DONE: u16 := 3
  const SOCK_DIAG_BY_FAMILY: u16 := 20
  const HEADER: nat := 16
  const DIAG_BODY: nat := 72

  /** `(len + 3) & !3` */
  function NlmsgAlign(len: nat): nat {
    (len + 3) / 4 * 4
  }

  lemma AlignIsLeast(len: nat, m: nat)
    ensures NlmsgAlign(len) % 4 == 0 && len <= NlmsgAlign(len)
    ensures m % 4 == 0 && len <= m ==> NlmsgAlign(len) <= m
    ensures NlmsgAlign(len) > 0 <==> len > 0
  {
  }

  predicate IsStop(kind: u16) {
    kind == NLMSG_DONE || kind == NLMSG_ERROR
  }

  /** A message: `rest` are flags, sequence number and port id; `pad` fills up to a multiple of four. */
  datatype Message = Message(kind: u16, rest: seq<byte>, body: seq<byte>, pad: seq<byte>) {
    function Len(): nat { HEADER + |body| }

    predicate WellFormed() {
      && |rest| == 10
      && Len() < 0x1_0000_0000
      && |pad| == NlmsgAlign(Len()) - Len()
      && (kind == SOCK_DIAG_BY_FAMILY ==> |body| >= DIAG_BODY)
    }

    function Bytes(): (b: seq<byte>)
      requires WellFormed()
      ensures |b| == NlmsgAlign(Len())
    {
      U32Ne(Len()) + [kind % 0x100, kind / 0x100] + rest + body + pad
    }

    predicate Stops() {
      IsStop(kind)
    }

    /** A diag message for the socket bound to `ip:port`. */
    predicate Hits(ip: u32, port: u16)
      requires WellFormed()
    {
      kind == SOCK_DIAG_BY_FAMILY && DiagOf(body).src == ip && DiagOf(body).sport == port
    }
  }

  /** The fields of `inet_diag_msg` that are read. */
  datatype Diag = Diag(sport: u16, src: u32, uid: u32, inode: u32)

  function DiagOf(body: seq<byte>): Diag
    requires |body| >= DIAG_BODY
  {
    Diag(BeU16(body[4..6]), NeU32(body[8..12]), NeU32(body[64..68]), NeU32(body[68..72]))
  }

  /** A 32-bit field of the little-endian host. */
  function Word(v: u32): (b: seq<byte>)
    ensures |b| == 4
  {
    [v % 0x100, v / 0x100 % 0x100, v / 0x1_0000 % 0x100, v / 0x100_0000]
  }

  /** `inet_diag_msg`, field by field; ports and addresses are in transmission order. */
  datatype DiagBody = DiagBody(family: byte, state: byte, timer: byte, retrans: byte, sport: u16, dport: u16,
                               src: seq<byte>, dst: seq<byte>, iface: u32, cookie: seq<byte>,
                               expires: u32, rqueue: u32, wqueue: u32, uid: u32, inode: u32)
  {
    predicate Valid() {
      |src| == 16 && |dst| == 16 && |cookie| == 8
    }

    function Bytes(): seq<byte> {
      [family, state, timer, retrans, sport / 0x100, sport % 0x100, dport / 0x100, dport % 0x100] + src + dst
      + Word(iface) + cookie + Word(expires) + Word(rqueue) + Word(wqueue) + Word(uid) + Word(inode)
    }
  }

  /** Port, address, owner and inode are read from where the kernel puts them. */
  lemma DiagRead(d: DiagBody, extra: seq<byte>)
    requires d.Valid()
    ensures var b := d.Bytes() + extra;
      |b| >= DIAG_BODY && DiagOf(b) == Diag(d.sport, NeU32(d.src[..4]), d.uid, d.inode)
  {
    var head := [d.family, d.state, d.timer, d.retrans,
                 d.sport / 0x100, d.sport % 0x100, d.dport / 0x100, d.dport % 0x100];
    var middle := d.dst + Word(d.iface) + d.cookie + Word(d.expires) + Word(d.rqueue) + Word(d.wqueue);
    var b := d.Bytes() + extra;
    assert b == head + d.src + middle + Word(d.uid) + Word(d.inode) + extra;
    assert b[4..6] == [d.sport / 0x100, d.sport % 0x100];
    assert b[8..12] == d.src[..4];
    assert b[64..68] == Word(d.uid) && b[68..72] == Word(d.inode);
    WordRead(d.uid);
    WordRead(d.inode);
  }

  lemma WordRead(v: u32)
    ensures NeU32(Word(v)) == v
  {
    var q: int := v / 0x100;
    var r: int := q / 0x100;
    assert v / 0x1_0000 == r && v / 0x100_0000 == r / 0x100;
  }

  /** `nlmsg_len` and `nlmsg_type` of the header at the start of `b`. */
  function HeaderOf(b: seq<byte>): (u32, u16)
    requires |b| >= HEADER
  {
    (NeU32(b[0..4]), b[4] + 0x100 * b[5] as int)
  }

  ghost predicate AllWellFormed(ms: seq<Message>) {
    forall i :: 0 <= i < |ms| ==> ms[i].WellFormed()
  }

  ghost function Encode(ms: seq<Message>): seq<byte>
    requires AllWellFormed(ms)
  {
    if ms == [] then [] else ms[0].Bytes() + Encode(ms[1..])
  }

  /** How one buffer ends: the socket, a stopping message, no message left, the same message for ever, or a read past
      the end of the memory. */
  datatype Outcome = Found(inode: u32, uid: u32) | Stopped | Exhausted | Stuck | Overrun

  /** What one buffer of messages yields. */
  ghost function Search(ms: seq<Message>, ip: u32, port: u16): Outcome
    requires AllWellFormed(ms)
  {
    if ms == [] then Exhausted
    else if ms[0].Stops() then Stopped
    else if ms[0].Hits(ip, port) then Found(DiagOf(ms[0].body).inode, DiagOf(ms[0].body).uid)
    else Search(ms[1..], ip, port)
  }

  ghost predicate Passed(ms: seq<Message>, k: nat, ip: u32, port: u16)
    requires k <= |ms| && AllWellFormed(ms)
  {
    forall j :: 0 <= j < k ==> !ms[j].Stops() && !ms[j].Hits(ip, port)
  }

  /** The search ends at the first stopping or matching message, and only there. */
  lemma {:induction false} SearchIsFirst(ms: seq<Message>, k: nat, ip: u32, port: u16)
    requires AllWellFormed(ms) && k <= |ms| && Passed(ms, k, ip, port)
    ensures k == |ms| ==> Search(ms, ip, port) == Exhausted
    ensures k < |ms| && ms[k].Stops() ==> Search(ms, ip, port) == Stopped
    ensures k < |ms| && !ms[k].Stops() && ms[k].Hits(ip, port) ==>
      Search(ms, ip, port) == Found(DiagOf(ms[k].body).inode, DiagOf(ms[k].body).uid)
  {
    if k == 0 {
    } else {
      var t := ms[1..];
      assert forall j :: 0 <= j < |t| ==> t[j] == ms[j + 1];
      SearchIsFirst(t, k - 1, ip, port);
    }
  }

  /** The first message decides: types 3 (DONE) and 2 (ERROR) stop, type 20 with the socket's address and port is found,
      anything else is passed over. */
  lemma HeadDecides(m: Message, d: DiagBody, extra: seq<byte>, ms: seq<Message>, ip: u32, port: u16)
    requires m.WellFormed() && AllWellFormed(ms) && d.Valid() && (m.kind == 20 ==> m.body == d.Bytes() + extra)
    ensures Search([m] + ms, ip, port) ==
      if m.kind == 2 || m.kind == 3 then Stopped
      else if m.kind == 20 && NeU32(d.src[..4]) == ip && d.sport == port then Found(d.inode, d.uid)
      else Search(ms, ip, port)
  {
    hide DiagOf, NeU32;
    assert ([m] + ms)[1..] == ms;
    DiagRead(d, extra);
  }

  /** Reading the fixed fields back from the wire. */
  lemma FieldsOfBytes(m: Message, tail: seq<byte>)
    requires m.WellFormed()
    ensures var b := m.Bytes() + tail;
      && |b| >= HEADER && HeaderOf(b) == (m.Len(), m.kind)
      && (m.kind == SOCK_DIAG_BY_FAMILY ==> |b| >= HEADER + DIAG_BODY && DiagOf(b[HEADER..]) == DiagOf(m.body))
      && b[NlmsgAlign(m.Len())..] == tail
  {
    var b := m.Bytes() + tail;
    assert b[0..4] == U32Ne(m.Len());
    NeU32RoundTrip(m.Len());
    if m.kind == SOCK_DIAG_BY_FAMILY {
      var c := b[HEADER..];
      assert c == m.body + m.pad + tail;
      assert c[4..6] == m.body[4..6] && c[8..12] == m.body[8..12];
      assert c[64..68] == m.body[64..68] && c[68..72] == m.body[68..72];
    }
  }

  lemma {:induction false} EncodeEmpty(ms: seq<Message>)
    requires AllWellFormed(ms)
    ensures Encode(ms) == [] <==> ms == []
  {
    if ms == [] {
    } else {
      assert |ms[0].Bytes()| > 0;
    }
  }

  // --- Any received bytes ---

  /** Bytes that are read for a header at `o`, and for a diag message behind it. */
  predicate HeaderFits(mem: seq<byte>, o: nat) {
    o + HEADER <= |mem|
  }

  predicate DiagFits(mem: seq<byte>, o: nat) {
    o + HEADER + DIAG_BODY <= |mem|
  }

  predicate HitAt(mem: seq<byte>, o: nat, ip: u32, port: u16)
    requires DiagFits(mem, o)
  {
    var msg := DiagOf(mem[o + HEADER..]);
    msg.src == ip && msg.sport == port
  }

  /** The message at `o` can be read and neither stops nor matches. */
  predicate Passes(mem: seq<byte>, o: nat, ip: u32, port: u16) {
    && HeaderFits(mem, o)
    && !IsStop(HeaderOf(mem[o..]).1)
    && (HeaderOf(mem[o..]).1 == SOCK_DIAG_BY_FAMILY ==> DiagFits(mem, o) && !HitAt(mem, o, ip, port))
  }

  /** What a message that does not pass yields. */
  function Halt(mem: seq<byte>, o: nat): Outcome {
    if !HeaderFits(mem, o) then Overrun
    else if IsStop(HeaderOf(mem[o..]).1) then Stopped
    else if !DiagFits(mem, o) then Overrun
    else Found(DiagOf(mem[o + HEADER..]).inode, DiagOf(mem[o + HEADER..]).uid)
  }

  function LenAt(mem: seq<byte>, o: nat): u32
    requires HeaderFits(mem, o)
  {
    HeaderOf(mem[o..]).0
  }

  /** What the walk yields from offset `o` on, `len` bytes of the memory being received. */
  function Visit(mem: seq<byte>, len: nat, o: nat, ip: u32, port: u16): Outcome
    decreases if o < len then len - o else 0
  {
    if o >= len then Exhausted
    else if !Passes(mem, o, ip, port) then Halt(mem, o)
    else if LenAt(mem, o) == 0 then Stuck
    else Visit(mem, len, o + NlmsgAlign(LenAt(mem, o)), ip, port)
  }

  /** The loop body runs through at least `n` times from offset `o` on. */
  predicate Completes(mem: seq<byte>, len: nat, o: nat, ip: u32, port: u16, n: nat)
    decreases n
  {
    n == 0 || (
      && o < len && Passes(mem, o, ip, port)
      && Completes(mem, len, o + NlmsgAlign(LenAt(mem, o)), ip, port, n - 1))
  }

  /** After `n` rounds the loop is at a passing message of length zero. */
  predicate MeetsZero(mem: seq<byte>, len: nat, o: nat, ip: u32, port: u16, n: nat)
    decreases n
  {
    && o < len && Passes(mem, o, ip, port)
    && (if n == 0 then LenAt(mem, o) == 0 else MeetsZero(mem, len, o + NlmsgAlign(LenAt(mem, o)), ip, port, n - 1))
  }

  /** A message of length zero is visited again and again. */
  lemma {:induction false} ZeroRepeats(mem: seq<byte>, len: nat, o: nat, ip: u32, port: u16, n: nat, k: nat)
    requires MeetsZero(mem, len, o, ip, port, n)
    ensures Completes(mem, len, o, ip, port, k) && Visit(mem, len, o, ip, port) == Stuck
    decreases n, k
  {
    var next := o + NlmsgAlign(LenAt(mem, o));
    if n == 0 {
      if k > 0 { ZeroRepeats(mem, len, o, ip, port, 0, k - 1); }
    } else {
      ZeroRepeats(mem, len, next, ip, port, n - 1, if k == 0 then 0 else k - 1);
    }
  }

  lemma {:induction false} StuckMeetsZero(mem: seq<byte>, len: nat, o: nat, ip: u32, port: u16) returns (n: nat)
    requires Visit(mem, len, o, ip, port) == Stuck
    ensures MeetsZero(mem, len, o, ip, port, n)
    decreases if o < len then len - o else 0
  {
    if LenAt(mem, o) == 0 {
      n := 0;
    } else {
      var k := StuckMeetsZero(mem, len, o + NlmsgAlign(LenAt(mem, o)), ip, port);
      n := k + 1;
    }
  }

  /** Every other walk ends after some number of rounds. */
  lemma {:induction false} WalkEnds(mem: seq<byte>, len: nat, o: nat, ip: u32, port: u16) returns (n: nat)
    requires Visit(mem, len, o, ip, port) != Stuck
    ensures !Completes(mem, len, o, ip, port, n)
    decreases if o < len then len - o else 0
  {
    if o >= len || !Passes(mem, o, ip, port) {
      n := 1;
    } else {
      var k := WalkEnds(mem, len, o + NlmsgAlign(LenAt(mem, o)), ip, port);
      n := k + 1;
    }
  }

  ghost predicate NeverEnds(mem: seq<byte>, len: nat, o: nat, ip: u32, port: u16) {
    forall k: nat :: Completes(mem, len, o, ip, port, k)
  }

  ghost predicate ReachesZero(mem: seq<byte>, len: nat, o: nat, ip: u32, port: u16) {
    exists n: nat :: MeetsZero(mem, len, o, ip, port, n)
  }

  /** Over any bytes, `Stuck` means that the loop never ends, and it happens exactly when the loop meets a passing
      message of length zero. */
  lemma StuckExactly(mem: seq<byte>, len: nat, o: nat, ip: u32, port: u16)
    ensures Visit(mem, len, o, ip, port) == Stuck <==> NeverEnds(mem, len, o, ip, port)
    ensures Visit(mem, len, o, ip, port) == Stuck <==> ReachesZero(mem, len, o, ip, port)
  {
    hide Visit, Passes;
    if Visit(mem, len, o, ip, port) == Stuck {
      var n := StuckMeetsZero(mem, len, o, ip, port);
      forall k: nat ensures Completes(mem, len, o, ip, port, k) { ZeroRepeats(mem, len, o, ip, port, n, k); }
      assert ReachesZero(mem, len, o, ip, port);
    } else {
      var k := WalkEnds(mem, len, o, ip, port);
      if n: nat :| MeetsZero(mem, len, o, ip, port, n) {
        ZeroRepeats(mem, len, o, ip, port, n, 0);
      }
    }
  }

  /** What is read at the start of a well-formed message. */
  lemma MessageAt(mem: seq<byte>, o: nat, m: Message, tail: seq<byte>, ip: u32, port: u16)
    requires m.WellFormed() && o <= |mem| && mem[o..] == m.Bytes() + tail
    ensures HeaderFits(mem, o) && LenAt(mem, o) == m.Len()
    ensures Passes(mem, o, ip, port) <==> !m.Stops() && !m.Hits(ip, port)
    ensures m.Stops() ==> Halt(mem, o) == Stopped
    ensures !m.Stops() && m.Hits(ip, port) ==> Halt(mem, o) == Found(DiagOf(m.body).inode, DiagOf(m.body).uid)
    ensures o + NlmsgAlign(m.Len()) <= |mem| && mem[o + NlmsgAlign(m.Len())..] == tail
  {
    hide Message.Bytes, DiagOf, HeaderOf;
    FieldsOfBytes(m, tail);
    if DiagFits(mem, o) {
      assert mem[o..][HEADER..] == mem[o + HEADER..];
    }
    assert mem[o + NlmsgAlign(m.Len())..] == mem[o..][NlmsgAlign(m.Len())..];
  }

  lemma WindowParts(mem: seq<byte>, len: nat, o: nat, head: seq<byte>, rest: seq<byte>)
    requires o <= len <= |mem| && mem[o..len] == head + rest
    ensures mem[o..] == head + (rest + mem[len..])
    ensures o + |head| <= len && mem[o + |head|..len] == rest
  {
    assert mem[o..] == mem[o..len] + mem[len..];
    assert mem[o + |head|..len] == mem[o..len][|head|..];
  }

  lemma VisitHead(mem: seq<byte>, len: nat, o: nat, ip: u32, port: u16, m: Message, rest: seq<byte>)
    requires o <= len <= |mem| && m.WellFormed() && mem[o..len] == m.Bytes() + rest
    ensures var next := o + NlmsgAlign(m.Len());
      && o < next <= len && mem[next..len] == rest
      && Visit(mem, len, o, ip, port) ==
           if m.Stops() then Stopped
           else if m.Hits(ip, port) then Found(DiagOf(m.body).inode, DiagOf(m.body).uid)
           else Visit(mem, len, next, ip, port)
  {
    hide Message.Bytes, Message.Stops, Message.Hits, Passes, Halt, LenAt, NlmsgAlign, DiagOf;
    WindowParts(mem, len, o, m.Bytes(), rest);
    MessageAt(mem, o, m, rest + mem[len..], ip, port);
    AlignIsLeast(m.Len(), 0);
  }

  lemma NoMessages(mem: seq<byte>, len: nat, ip: u32, port: u16)
    ensures Visit(mem, len, len, ip, port) == Exhausted && Search([], ip, port) == Exhausted
  {
  }

  lemma MessagesHead(ms: seq<Message>, ip: u32, port: u16)
    requires ms != [] && AllWellFormed(ms)
    ensures ms[0].WellFormed() && AllWellFormed(ms[1..]) && Encode(ms) == ms[0].Bytes() + Encode(ms[1..])
    ensures Search(ms, ip, port) ==
      if ms[0].Stops() then Stopped
      else if ms[0].Hits(ip, port) then Found(DiagOf(ms[0].body).inode, DiagOf(ms[0].body).uid)
      else Search(ms[1..], ip, port)
  {
    hide Message.Bytes, Message.Stops, Message.Hits, DiagOf;
  }

  /** Over the messages of the kernel the walk visits message starts only and yields what the messages yield. */
  lemma {:induction false} VisitMessages(mem: seq<byte>, len: nat, o: nat, ip: u32, port: u16, ms: seq<Message>)
    requires o <= len <= |mem| && AllWellFormed(ms) && mem[o..len] == Encode(ms)
    ensures Visit(mem, len, o, ip, port) == Search(ms, ip, port)
    decreases |ms|
  {
    hide *;
    EncodeEmpty(ms);
    if ms == [] {
      NoMessages(mem, len, ip, port);
    } else {
      MessagesHead(ms, ip, port);
      VisitHead(mem, len, o, ip, port, ms[0], Encode(ms[1..]));
      VisitMessages(mem, len, o + NlmsgAlign(ms[0].Len()), ip, port, ms[1..]);
    }
  }

  /** The inner loop over the `len` bytes received into `buf`. A message that would be visited for ever ends it. */
  method Walk(buf: array<byte>, len: nat, ip: u32, port: u16) returns (r: Outcome)
    requires len <= buf.Length
    ensures r == Visit(buf[..], len, 0, ip, port)
  {
    var offset := 0;
    while offset < len
      invariant Visit(buf[..], len, 0, ip, port) == Visit(buf[..], len, offset, ip, port)
      decreases len - offset
    {
      if offset + HEADER > buf.Length { return Overrun; }
      var (msgLen, kind) := HeaderOf(buf[offset..]);
      assert buf[..][offset..] == buf[offset..];
      if kind == NLMSG_DONE || kind == NLMSG_ERROR { return Stopped; }
      if kind == SOCK_DIAG_BY_FAMILY {
        if offset + HEADER + DIAG_BODY > buf.Length { return Overrun; }
        var msg := DiagOf(buf[offset + HEADER..]);
        assert buf[..][offset + HEADER..] == buf[offset + HEADER..];
        if msg.src == ip && msg.sport == port { return Found(msg.inode, msg.uid); }
      }
      if msgLen == 0 { return Stuck; }
      AlignIsLeast(msgLen, 0);
      offset := offset + NlmsgAlign(msgLen);
    }
    r := Exhausted;
  }

  const BUFFER: nat := 16384

  /** The memory after `d` was received: later bytes keep what an earlier datagram left there. */
  function Overwrite(mem: seq<byte>, d: seq<byte>): (r: seq<byte>)
    requires |d| <= |mem|
    ensures |r| == |mem|
  {
    d + mem[|d|..]
  }

  /** What a sequence of received datagrams yields; an empty one ends the reception. */
  ghost function Reception(mem: seq<byte>, datagrams: seq<seq<byte>>, ip: u32, port: u16): Outcome
    requires forall i :: 0 <= i < |datagrams| ==> |datagrams[i]| <= |mem|
    decreases |datagrams|
  {
    if datagrams == [] || datagrams[0] == [] then Exhausted
    else
      var next := Overwrite(mem, datagrams[0]);
      var r := Visit(next, |datagrams[0]|, 0, ip, port);
      if r == Exhausted then Reception(next, datagrams[1..], ip, port) else r
  }

  /** What the messages of the kernel yield, buffer by buffer. */
  ghost function SearchAll(mss: seq<seq<Message>>, ip: u32, port: u16): Outcome
    requires forall i :: 0 <= i < |mss| ==> AllWellFormed(mss[i])
  {
    if mss == [] || mss[0] == [] then Exhausted
    else
      var r := Search(mss[0], ip, port);
      if r == Exhausted then SearchAll(mss[1..], ip, port) else r
  }

  /** Whatever was left in the memory, well-formed messages are searched in order. */
  lemma {:induction false} ReceptionOfMessages(mem: seq<byte>, mss: seq<seq<Message>>, datagrams: seq<seq<byte>>,
                                               ip: u32, port: u16)
    requires |mss| == |datagrams| && forall i :: 0 <= i < |mss| ==> AllWellFormed(mss[i])
    requires forall i :: 0 <= i < |mss| ==> |datagrams[i]| <= |mem| && datagrams[i] == Encode(mss[i])
    ensures Reception(mem, datagrams, ip, port) == SearchAll(mss, ip, port)
    decreases |mss|
  {
    if mss == [] {
    } else {
      hide Visit, Search;
      var d, next := datagrams[0], Overwrite(mem, datagrams[0]);
      EncodeEmpty(mss[0]);
      assert next[0..|d|] == d;
      VisitMessages(next, |d|, 0, ip, port, mss[0]);
      ReceptionOfMessages(next, mss[1..], datagrams[1..], ip, port);
    }
  }

  /** The reception loop: inode and owner of the socket for `ip:port`, if the kernel reported them. `ended` tells
      that every walk ended inside the buffer. */
  method FindSocket(datagrams: seq<seq<byte>>, ip: u32, port: u16) returns (ended: bool, socket: Option<(u32, u32)>)
    requires forall i :: 0 <= i < |datagrams| ==> |datagrams[i]| <= BUFFER
    ensures var r := Reception(seq(BUFFER, _ => 0), datagrams, ip, port);
      && ended == !(r.Stuck? || r.Overrun?)
      && socket == if r.Found? && r.inode != 0 then Some((r.inode, r.uid)) else None
  {
    var buf := new byte[BUFFER](_ => 0);
    assert buf[..] == seq(BUFFER, _ => 0);
    ghost var all := Reception(buf[..], datagrams, ip, port);
    var i := 0;
    var r := Exhausted;
    while i < |datagrams|
      invariant 0 <= i <= |datagrams| && r == Exhausted
      invariant all == Reception(buf[..], datagrams[i..], ip, port)
    {
      hide Visit;
      var d := datagrams[i];
      assert datagrams[i..][0] == d && datagrams[i..][1..] == datagrams[i + 1..];
      if |d| == 0 { break; }
      ghost var mem := buf[..];
      forall j | 0 <= j < |d| { buf[j] := d[j]; }
      assert buf[..] == Overwrite(mem, d);
      r := Walk(buf, |d|, ip, port);
      if r != Exhausted { break; }
      i := i + 1;
    }
    ended := !(r.Stuck? || r.Overrun?);
    if r.Found? && r.inode != 0 {
      socket := Some((r.inode, r.uid));
    } else {
      socket := None;
    }
  }
}

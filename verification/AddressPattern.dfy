/** IP and port patterns of `rule.rs`, the dotted-quad printer and the broadcast test. */
module AddressPattern {
  import opened Common
  import opened Text

  // --- One IP pattern ---

  function ParseOr(s: string, max: nat, default: nat): nat {
    match ParseUint(s, max)
    case Some(v) => v
    case None => default
  }

  /** The octets that one part of an IP pattern admits: `lo..=hi`. Unparsable range ends count as 0,
      an unparsable single octet as 255. */
  function OctetInterval(part: string): (int, int) {
    if part == "*" then (0, 255)
    else
      match SplitOnce(part, '-')
      case Some(ends) => (ParseOr(ends.0, 255, 0), ParseOr(ends.1, 255, 0))
      case None => var v := ParseOr(part, 255, 255); (v, v)
  }

  predicate InInterval(x: int, range: (int, int)) {
    range.0 <= x <= range.1
  }

  /** The product of the four octet intervals of the pattern. */
  predicate InIpPattern(pattern: string, ip: u32) {
    pattern == "*" ||
    var parts := Split(pattern, {'.'});
    && |parts| == 4
    && forall i :: 0 <= i < 4 ==> InInterval(Octet(ip, i), OctetInterval(parts[i]))
  }

  method MatchIpPattern(pattern: string, ip: u32) returns (m: bool)
    ensures m == InIpPattern(pattern, ip)
  {
    hide ParseOr, Octet;
    if pattern == "*" { return true; }
    var octets := U32Ne(ip);
    var parts := Split(pattern, {'.'});
    if |parts| != 4 { return false; }
    for i := 0 to 4
      invariant forall k :: 0 <= k < i ==> InInterval(Octet(ip, k), OctetInterval(parts[k]))
    {
      assert octets[i] == Octet(ip, i);
      if parts[i] == "*" { continue; }
      match SplitOnce(parts[i], '-') {
        case Some(ends) =>
          var start, end := ParseOr(ends.0, 255, 0), ParseOr(ends.1, 255, 0);
          if octets[i] < start || octets[i] > end { return false; }
        case None =>
          var val := ParseOr(parts[i], 255, 255);
          if octets[i] != val { return false; }
      }
    }
    m := true;
  }

  // --- format_ip ---

  function FormatIp(ip: u32): string {
    Join([ToDecimal(Octet(ip, 0)), ToDecimal(Octet(ip, 1)), ToDecimal(Octet(ip, 2)), ToDecimal(Octet(ip, 3))], '.')
  }

  lemma DecimalPart(n: byte)
    ensures '.' !in ToDecimal(n)
    ensures OctetInterval(ToDecimal(n)) == (n, n)
  {
    var s := ToDecimal(n);
    assert IsDigit(s[0]);
    DecimalRoundTrip(n);
    assert '-' !in s && '.' !in s;
    assert ParseUint(s, 255) == Some(n);
  }

  lemma FormatIpParts(ip: u32)
    ensures Split(FormatIp(ip), {'.'}) ==
      [ToDecimal(Octet(ip, 0)), ToDecimal(Octet(ip, 1)), ToDecimal(Octet(ip, 2)), ToDecimal(Octet(ip, 3))]
  {
    var parts := [ToDecimal(Octet(ip, 0)), ToDecimal(Octet(ip, 1)), ToDecimal(Octet(ip, 2)), ToDecimal(Octet(ip, 3))];
    forall i | 0 <= i < |parts| ensures '.' !in parts[i] { DecimalPart(Octet(ip, i)); }
    SplitJoin(parts, '.');
  }

  /** As a pattern, a printed address matches that address and no other. */
  lemma FormatIpMatchesItself(a: u32, b: u32)
    ensures InIpPattern(FormatIp(a), b) <==> a == b
  {
    FormatIpParts(a);
    var parts := Split(FormatIp(a), {'.'});
    if FormatIp(a) == "*" { SplitNone("*", {'.'}); }
    forall i | 0 <= i < 4 ensures OctetInterval(parts[i]) == (Octet(a, i) as int, Octet(a, i) as int) {
      DecimalPart(Octet(a, i));
    }
    if forall i :: 0 <= i < 4 ==> InInterval(Octet(b, i), OctetInterval(parts[i])) {
      forall i | 0 <= i < 4 ensures Octet(a, i) == Octet(b, i) {
        assert InInterval(Octet(b, i), OctetInterval(parts[i]));
      }
      OctetsDetermine(a, b);
    }
  }

  // --- One port pattern ---

  predicate MatchPortPattern(pattern: string, port: u16) {
    pattern == "*" ||
    match SplitOnce(pattern, '-')
    case Some(ends) => ParseOr(ends.0, 0xFFFF, 0) <= port <= ParseOr(ends.1, 0xFFFF, 0)
    case None => port == ParseOr(pattern, 0xFFFF, 0)
  }

  // --- Lists ---

  const IP_SEPS := {';'}
  const PORT_SEPS := {',', ';'}

  predicate AnyIp(parts: seq<string>, ip: u32) {
    exists i :: 0 <= i < |parts| && InIpPattern(Trim(parts[i]), ip)
  }

  predicate MatchIpList(list: string, ip: u32) {
    list == "" || list == "*" || AnyIp(Split(list, IP_SEPS), ip)
  }

  predicate AnyPort(parts: seq<string>, port: u16) {
    exists i :: 0 <= i < |parts| && MatchPortPattern(Trim(parts[i]), port)
  }

  predicate MatchPortList(list: string, port: u16) {
    list == "" || list == "*" || AnyPort(Split(list, PORT_SEPS), port)
  }

  lemma TrimStar()
    ensures Trim("*") == "*" && Trim("") == ""
  {
    assert TrimStart("*") == "*";
  }

  /** What one list contributes inside a longer one: an empty element admits no address. */
  predicate IpListInside(list: string, ip: u32) {
    list != "" && MatchIpList(list, ip)
  }

  /** An empty element admits port 0 only. */
  predicate PortListInside(list: string, port: u16) {
    if list == "" then port == 0 else MatchPortList(list, port)
  }

  lemma IpListIsAny(list: string, ip: u32)
    ensures IpListInside(list, ip) == AnyIp(Split(list, IP_SEPS), ip)
  {
    TrimStar();
    if list == "*" {
      SplitNone(list, IP_SEPS);
      assert InIpPattern(Trim(Split(list, IP_SEPS)[0]), ip);
    } else if list == "" {
      SplitNone("", {'.'});
    }
  }

  lemma PortListIsAny(list: string, port: u16)
    ensures PortListInside(list, port) == AnyPort(Split(list, PORT_SEPS), port)
  {
    TrimStar();
    if list == "*" {
      SplitNone(list, PORT_SEPS);
      assert MatchPortPattern(Trim(Split(list, PORT_SEPS)[0]), port);
    } else if list == "" {
      assert Split(list, PORT_SEPS) == [""];
      assert MatchPortPattern("", port) == (port == 0);
      assert Trim(Split(list, PORT_SEPS)[0]) == "";
    }
  }

  lemma AnyIpConcat(a: seq<string>, b: seq<string>, ip: u32)
    ensures AnyIp(a + b, ip) == (AnyIp(a, ip) || AnyIp(b, ip))
  {
    if AnyIp(a, ip) {
      var i :| 0 <= i < |a| && InIpPattern(Trim(a[i]), ip);
      assert (a + b)[i] == a[i];
    }
    if AnyIp(b, ip) {
      var i :| 0 <= i < |b| && InIpPattern(Trim(b[i]), ip);
      assert (a + b)[|a| + i] == b[i];
    }
  }

  lemma AnyPortConcat(a: seq<string>, b: seq<string>, port: u16)
    ensures AnyPort(a + b, port) == (AnyPort(a, port) || AnyPort(b, port))
  {
    if AnyPort(a, port) {
      var i :| 0 <= i < |a| && MatchPortPattern(Trim(a[i]), port);
      assert (a + b)[i] == a[i];
    }
    if AnyPort(b, port) {
      var i :| 0 <= i < |b| && MatchPortPattern(Trim(b[i]), port);
      assert (a + b)[|a| + i] == b[i];
    }
  }

  /** Concatenating IP lists is disjunction; an empty operand alone means "every address" but
      inside a longer list means "no address". */
  lemma IpListConcat(a: string, b: string, ip: u32)
    ensures MatchIpList(a + ";" + b, ip) == (IpListInside(a, ip) || IpListInside(b, ip))
    ensures a != "" && b != "" ==> MatchIpList(a + ";" + b, ip) == (MatchIpList(a, ip) || MatchIpList(b, ip))
  {
    SplitConcat(a, ';', b, IP_SEPS);
    IpListIsAny(a, ip);
    IpListIsAny(b, ip);
    IpListIsAny(a + ";" + b, ip);
    AnyIpConcat(Split(a, IP_SEPS), Split(b, IP_SEPS), ip);
  }

  /** Concatenating port lists is disjunction with either separator. */
  lemma PortListConcat(a: string, sep: char, b: string, port: u16)
    requires sep in PORT_SEPS
    ensures MatchPortList(a + [sep] + b, port) == (PortListInside(a, port) || PortListInside(b, port))
    ensures a != "" && b != "" ==>
      MatchPortList(a + [sep] + b, port) == (MatchPortList(a, port) || MatchPortList(b, port))
  {
    SplitConcat(a, sep, b, PORT_SEPS);
    PortListIsAny(a, port);
    PortListIsAny(b, port);
    PortListIsAny(a + [sep] + b, port);
    AnyPortConcat(Split(a, PORT_SEPS), Split(b, PORT_SEPS), port);
  }

  lemma {:induction false} JoinNonEmpty(ps: seq<string>, sep: char)
    requires |ps| >= 1 && "" !in ps
    ensures Join(ps, sep) != ""
  {
    assert ps[0] != "";
  }

  /** A joined list of non-empty patterns matches when some pattern does, so its order is irrelevant. */
  lemma {:induction false} IpListJoin(ps: seq<string>, ip: u32)
    requires |ps| >= 1 && "" !in ps
    ensures MatchIpList(Join(ps, ';'), ip) <==> exists p :: p in ps && MatchIpList(p, ip)
  {
    if |ps| > 1 {
      assert ps == [ps[0]] + ps[1..];
      assert ps[0] != "";
      JoinNonEmpty(ps[1..], ';');
      IpListConcat(ps[0], Join(ps[1..], ';'), ip);
      IpListJoin(ps[1..], ip);
    } else {
      assert ps[0] in ps;
    }
  }

  lemma {:induction false} PortListJoin(ps: seq<string>, sep: char, port: u16)
    requires |ps| >= 1 && "" !in ps && sep in PORT_SEPS
    ensures MatchPortList(Join(ps, sep), port) <==> exists p :: p in ps && MatchPortList(p, port)
  {
    if |ps| > 1 {
      assert ps == [ps[0]] + ps[1..];
      assert ps[0] != "";
      JoinNonEmpty(ps[1..], sep);
      PortListConcat(ps[0], sep, Join(ps[1..], sep), port);
      PortListJoin(ps[1..], sep, port);
    } else {
      assert ps[0] in ps;
    }
  }

  lemma SameElements(ps: seq<string>, qs: seq<string>)
    requires multiset(ps) == multiset(qs)
    ensures |ps| == |qs| && forall p :: p in ps <==> p in qs
  {
    assert |multiset(ps)| == |multiset(qs)|;
    assert forall p :: p in ps <==> p in multiset(ps);
    assert forall p :: p in qs <==> p in multiset(qs);
  }

  lemma IpListReorder(ps: seq<string>, qs: seq<string>, ip: u32)
    requires |ps| >= 1 && "" !in ps && multiset(ps) == multiset(qs)
    ensures |qs| >= 1 && MatchIpList(Join(ps, ';'), ip) == MatchIpList(Join(qs, ';'), ip)
  {
    SameElements(ps, qs);
    IpListJoin(ps, ip);
    IpListJoin(qs, ip);
  }

  /** Reordering and exchanging the two separators never changes a port match. */
  lemma PortListReorder(ps: seq<string>, qs: seq<string>, s: char, t: char, port: u16)
    requires |ps| >= 1 && "" !in ps && multiset(ps) == multiset(qs) && s in PORT_SEPS && t in PORT_SEPS
    ensures |qs| >= 1 && MatchPortList(Join(ps, s), port) == MatchPortList(Join(qs, t), port)
  {
    SameElements(ps, qs);
    PortListJoin(ps, s, port);
    PortListJoin(qs, t, port);
  }

  // --- What the lists admit, pattern by pattern ---

  /** Empty lists and `*` admit everything. */
  lemma EmptyListsAdmitAll(ip: u32, port: u16)
    ensures MatchIpList("", ip) && MatchIpList("*", ip) && MatchPortList("", port) && MatchPortList("*", port)
  {
  }

  /** A single port pattern without separators and blanks is a list of its own. */
  lemma OnePortPattern(x: string, port: u16)
    requires PlainPart(x) && ',' !in x
    ensures MatchPortList(x, port) == MatchPortPattern(x, port)
  {
    PortListIsAny(x, port);
    SplitNone(x, PORT_SEPS);
    assert x[0] in x && x[|x| - 1] in x;
    assert Trim([x][0]) == x;
    assert AnyPort([x], port) == MatchPortPattern(Trim([x][0]), port);
  }

  /** A number admits that port; one that does not fit into 16 bits counts as port 0. */
  lemma PortNumber(n: nat, port: u16)
    ensures MatchPortList(ToDecimal(n), port) <==> port == if n < 0x1_0000 then n else 0
  {
    hide ToDecimal, ParseUint;
    ParseDecimal(n, 0xFFFF);
    OnePortPattern(ToDecimal(n), port);
  }

  /** A range admits the ports from its first to its second number; an end that does not fit counts as 0. */
  lemma PortRange(lo: nat, hi: nat, port: u16)
    ensures MatchPortList(ToDecimal(lo) + "-" + ToDecimal(hi), port) <==>
      (lo < 0x1_0000 ==> lo <= port) && (if hi < 0x1_0000 then port <= hi else port == 0)
  {
    hide ToDecimal, ParseUint, SplitOnce;
    ParseDecimal(lo, 0xFFFF);
    ParseDecimal(hi, 0xFFFF);
    SplitOnceAt(ToDecimal(lo), '-', ToDecimal(hi));
    OnePortPattern(ToDecimal(lo) + "-" + ToDecimal(hi), port);
  }

  /** The same inside a list, between any separators. */
  lemma PortInList(before: string, s: char, lo: nat, hi: nat, t: char, after: string, port: u16)
    requires s in {',', ';'} && t in {',', ';'} && before != "" && after != "" && lo < 0x1_0000 && hi < 0x1_0000
    ensures MatchPortList(before + [s] + ToDecimal(lo) + "-" + ToDecimal(hi) + [t] + after, port) <==>
      MatchPortList(before, port) || lo <= port <= hi || MatchPortList(after, port)
    ensures MatchPortList(before + [s] + ToDecimal(lo) + [t] + after, port) <==>
      MatchPortList(before, port) || port == lo || MatchPortList(after, port)
  {
    hide MatchPortList, ToDecimal;
    var range := ToDecimal(lo) + "-" + ToDecimal(hi);
    PortRange(lo, hi, port);
    PortNumber(lo, port);
    PortListConcat(before, s, range, port);
    PortListConcat(before + [s] + range, t, after, port);
    PortListConcat(before, s, ToDecimal(lo), port);
    PortListConcat(before + [s] + ToDecimal(lo), t, after, port);
    assert before + [s] + ToDecimal(lo) + "-" + ToDecimal(hi) + [t] + after == before + [s] + range + [t] + after;
  }

  /** Text that is no number, no range, no list and no star. */
  predicate Garbled(x: string) {
    PlainPart(x) && ',' !in x && '-' !in x && x != "*" && exists c :: c in x && c != '+' && !('0' <= c <= '9')
  }

  lemma GarbledFails(x: string, max: nat)
    requires Garbled(x)
    ensures ParseUint(x, max) == None
  {
    ParseRefuses(false, x, max);
    assert "" + x == x;
  }

  /** Garbled ports and range ends count as 0. */
  lemma GarbledPorts(x: string, n: u16, port: u16)
    requires Garbled(x)
    ensures MatchPortList(x, port) <==> port == 0
    ensures MatchPortList(x + "-" + ToDecimal(n), port) <==> port <= n
    ensures MatchPortList(ToDecimal(n) + "-" + x, port) <==> n == 0 && port == 0
  {
    hide ToDecimal, ParseUint, SplitOnce;
    GarbledFails(x, 0xFFFF);
    ParseDecimal(n, 0xFFFF);
    OnePortPattern(x, port);
    OnePortPattern(x + "-" + ToDecimal(n), port);
    OnePortPattern(ToDecimal(n) + "-" + x, port);
    SplitOnceAt(x, '-', ToDecimal(n));
    SplitOnceAt(ToDecimal(n), '-', x);
    assert SplitOnce(x, '-').None?;
    assert x + "-" + ToDecimal(n) != "*" && ToDecimal(n) + "-" + x != "*";
  }

  /** A garbled octet counts as 255, a garbled range end as 0. */
  lemma GarbledOctets(x: string, n: byte, ip: u32)
    requires Garbled(x)
    ensures MatchIpList(Quad(x, "*", "*", "*"), ip) <==> Octet(ip, 0) == 255
    ensures MatchIpList(Quad(x + "-" + ToDecimal(n), "*", "*", "*"), ip) <==> Octet(ip, 0) <= n
    ensures MatchIpList(Quad(ToDecimal(n) + "-" + x, "*", "*", "*"), ip) <==> n == 0 && Octet(ip, 0) == 0
  {
    hide ToDecimal, ParseUint, SplitOnce, MatchIpList, Quad, Octet;
    GarbledFails(x, 255);
    ParseDecimal(n, 255);
    SplitOnceAt(x, '-', ToDecimal(n));
    SplitOnceAt(ToDecimal(n), '-', x);
    assert SplitOnce(x, '-').None?;
    QuadMatches(x, "*", "*", "*", ip);
    QuadMatches(x + "-" + ToDecimal(n), "*", "*", "*", ip);
    QuadMatches(ToDecimal(n) + "-" + x, "*", "*", "*", ip);
  }

  /** A pattern other than `*` that has not four parts admits no address. */
  lemma WrongPartCount(parts: seq<string>, ip: u32)
    requires |parts| >= 1 && |parts| != 4 && forall i :: 0 <= i < |parts| ==> '.' !in parts[i]
    requires Join(parts, '.') != "*"
    ensures !InIpPattern(Join(parts, '.'), ip)
  {
    SplitJoin(parts, '.');
  }

  // --- is_broadcast_or_multicast ---

  predicate IsBroadcastOrMulticast(ip: u32) {
    var first, second := Octet(ip, 0), Octet(ip, 1);
    if first == 127 then true
    else if first == 169 && second == 254 then true
    else if ip == 0xFFFF_FFFF then true
    else if Octet(ip, 3) == 0xFF then true
    else 224 <= first <= 239
  }

  const LOOPBACK: byte := 127
  const LINK: byte := 169
  const LOCAL: byte := 254
  const BROADCAST: byte := 255
  const CLASS_D: byte := 224
  const CLASS_D_END: byte := 239

  function Quad(a: string, b: string, c: string, d: string): string {
    Join([a, b, c, d], '.')
  }

  function Range(lo: nat, hi: nat): string {
    ToDecimal(lo) + "-" + ToDecimal(hi)
  }

  /** A rule for a loopback net `l`, a link-local net `m.n`, a last octet `b` and first octets `lo..=hi`. */
  function Reserved(l: byte, m: byte, n: byte, b: byte, lo: byte, hi: byte): seq<string> {
    [ Quad(ToDecimal(l), "*", "*", "*"),
      Quad(ToDecimal(m), ToDecimal(n), "*", "*"),
      Quad("*", "*", "*", ToDecimal(b)),
      Quad(Range(lo, hi), "*", "*", "*") ]
  }

  predicate PlainPart(s: string) {
    s != "" && forall c :: c in s ==> c != '.' && c != ';' && !IsSpace(c)
  }

  lemma QuadText(a: string, b: string, c: string, d: string)
    requires PlainPart(a) && PlainPart(d)
    ensures var q := Quad(a, b, c, d); |q| >= 5 && Trim(q) == q
  {
    var cd := Join([c, d], '.');
    assert [a, b, c, d][1..] == [b, c, d] && [b, c, d][1..] == [c, d] && [c, d][1..] == [d];
    assert Join([d], '.') == d;
    assert cd == c + "." + d;
    var bcd := Join([b, c, d], '.');
    assert bcd == b + "." + cd;
    var q := Quad(a, b, c, d);
    assert q == a + "." + bcd;
    assert q[0] == a[0] && q[|q| - 1] == d[|d| - 1];
    assert TrimStart(q) == q && TrimEnd(q) == q;
  }

  lemma {:induction false} JoinChars(ps: seq<string>, sep: char, c: char)
    requires |ps| >= 1 && c != sep && forall i :: 0 <= i < |ps| ==> c !in ps[i]
    ensures c !in Join(ps, sep)
  {
    if |ps| == 1 {
    } else {
      JoinChars(ps[1..], sep, c);
    }
  }

  lemma QuadMatches(a: string, b: string, c: string, d: string, ip: u32)
    requires PlainPart(a) && PlainPart(b) && PlainPart(c) && PlainPart(d)
    ensures Quad(a, b, c, d) != ""
    ensures MatchIpList(Quad(a, b, c, d), ip) <==>
      && InInterval(Octet(ip, 0), OctetInterval(a)) && InInterval(Octet(ip, 1), OctetInterval(b))
      && InInterval(Octet(ip, 2), OctetInterval(c)) && InInterval(Octet(ip, 3), OctetInterval(d))
  {
    var q, parts := Quad(a, b, c, d), [a, b, c, d];
    QuadText(a, b, c, d);
    SplitJoin(parts, '.');
    JoinChars(parts, '.', ';');
    SplitNone(q, IP_SEPS);
    IpListIsAny(q, ip);
    assert AnyIp([q], ip) == InIpPattern(Trim([q][0]), ip);
    assert InIpPattern(q, ip) <==> forall i :: 0 <= i < 4 ==> InInterval(Octet(ip, i), OctetInterval(parts[i]));
  }

  lemma {:induction false} SplitOnceAt(a: string, c: char, b: string)
    requires c !in a
    ensures SplitOnce(a + [c] + b, c) == Some((a, b))
  {
    var s := a + [c] + b;
    if a == "" {
      assert s[1..] == b;
    } else {
      assert s[1..] == a[1..] + [c] + b;
      SplitOnceAt(a[1..], c, b);
      assert [a[0]] + a[1..] == a;
    }
  }

  lemma RangePart(lo: byte, hi: byte)
    ensures PlainPart(Range(lo, hi)) && OctetInterval(Range(lo, hi)) == (lo, hi)
  {
    hide ToDecimal, ParseUint, SplitOnce;
    SplitOnceAt(ToDecimal(lo), '-', ToDecimal(hi));
    ParseDecimal(lo, 255);
    ParseDecimal(hi, 255);
  }

  lemma ParseDecimal(n: nat, max: nat)
    ensures PlainPart(ToDecimal(n)) && '-' !in ToDecimal(n) && ',' !in ToDecimal(n) && ToDecimal(n) != "*"
    ensures ParseUint(ToDecimal(n), max) == if n <= max then Some(n) else None
  {
    var s := ToDecimal(n);
    assert IsDigit(s[0]);
    assert s[0] in s;
    DecimalRoundTrip(n);
  }

  lemma OneOctet(n: byte)
    ensures PlainPart(ToDecimal(n)) && OctetInterval(ToDecimal(n)) == (n, n)
  {
    DecimalPart(n);
    ParseDecimal(n, 255);
  }

  lemma LoopbackQuad(n: byte, ip: u32)
    ensures Quad(ToDecimal(n), "*", "*", "*") != ""
    ensures MatchIpList(Quad(ToDecimal(n), "*", "*", "*"), ip) <==> Octet(ip, 0) == n
  {
    OneOctet(n);
    QuadMatches(ToDecimal(n), "*", "*", "*", ip);
  }

  lemma LinkLocalQuad(m: byte, n: byte, ip: u32)
    ensures Quad(ToDecimal(m), ToDecimal(n), "*", "*") != ""
    ensures MatchIpList(Quad(ToDecimal(m), ToDecimal(n), "*", "*"), ip) <==> Octet(ip, 0) == m && Octet(ip, 1) == n
  {
    OneOctet(m);
    OneOctet(n);
    QuadMatches(ToDecimal(m), ToDecimal(n), "*", "*", ip);
  }

  lemma BroadcastQuad(n: byte, ip: u32)
    ensures Quad("*", "*", "*", ToDecimal(n)) != ""
    ensures MatchIpList(Quad("*", "*", "*", ToDecimal(n)), ip) <==> Octet(ip, 3) == n
  {
    OneOctet(n);
    QuadMatches("*", "*", "*", ToDecimal(n), ip);
  }

  lemma MulticastQuad(lo: byte, hi: byte, ip: u32)
    ensures Quad(Range(lo, hi), "*", "*", "*") != ""
    ensures MatchIpList(Quad(Range(lo, hi), "*", "*", "*"), ip) <==> lo <= Octet(ip, 0) <= hi
  {
    RangePart(lo, hi);
    QuadMatches(Range(lo, hi), "*", "*", "*", ip);
  }

  lemma ReservedShape(l: byte, m: byte, n: byte, b: byte, lo: byte, hi: byte, ip: u32)
    ensures MatchIpList(Join(Reserved(l, m, n, b, lo, hi), ';'), ip) <==>
      Octet(ip, 0) == l || (Octet(ip, 0) == m && Octet(ip, 1) == n) || Octet(ip, 3) == b || lo <= Octet(ip, 0) <= hi
  {
    LoopbackQuad(l, ip);
    LinkLocalQuad(m, n, ip);
    BroadcastQuad(b, ip);
    MulticastQuad(lo, hi, ip);
    AnyOfFour(Quad(ToDecimal(l), "*", "*", "*"), Quad(ToDecimal(m), ToDecimal(n), "*", "*"),
      Quad("*", "*", "*", ToDecimal(b)), Quad(Range(lo, hi), "*", "*", "*"), ip);
  }

  /** The reserved ranges, written as a rule. */
  const RESERVED_HOSTS: string := "127.*.*.*;169.254.*.*;*.*.*.255;224-239.*.*.*"

  lemma ThreeDigits(n: nat)
    requires 100 <= n < 1000
    ensures ToDecimal(n) ==
      [('0' as int + n / 100) as char, ('0' as int + n / 10 % 10) as char, ('0' as int + n % 10) as char]
  {
    assert ToDecimal(n) == ToDecimal(n / 10) + [('0' as int + n % 10) as char];
    assert ToDecimal(n / 10) == ToDecimal(n / 100) + [('0' as int + n / 10 % 10) as char];
    assert ToDecimal(n / 100) == [('0' as int + n / 100) as char];
  }

  lemma ReservedDigits()
    ensures ToDecimal(127) == "127" && ToDecimal(169) == "169" && ToDecimal(254) == "254"
    ensures ToDecimal(255) == "255" && ToDecimal(224) == "224" && ToDecimal(239) == "239"
  {
    hide ToDecimal;
    ThreeDigits(127);
    ThreeDigits(169);
    ThreeDigits(254);
    ThreeDigits(255);
    ThreeDigits(224);
    ThreeDigits(239);
  }

  lemma JoinFirst(a: string, rest: seq<string>, sep: char)
    requires |rest| >= 1
    ensures Join([a] + rest, sep) == a + [sep] + Join(rest, sep)
  {
    assert ([a] + rest)[1..] == rest;
  }

  lemma JoinFour(a: string, b: string, c: string, d: string, sep: char)
    ensures Join([a, b, c, d], sep) == a + [sep] + (b + [sep] + (c + [sep] + d))
  {
    hide Join;
    JoinFirst(a, [b, c, d], sep);
    JoinFirst(b, [c, d], sep);
    JoinFirst(c, [d], sep);
    assert [a] + [b, c, d] == [a, b, c, d] && [b] + [c, d] == [b, c, d] && [c] + [d] == [c, d];
    JoinOne(d, sep);
  }

  lemma JoinOne(d: string, sep: char)
    ensures Join([d], sep) == d
  {
  }

  lemma ReservedParts()
    ensures Quad(ToDecimal(127), "*", "*", "*") == "127.*.*.*"
    ensures Quad(ToDecimal(169), ToDecimal(254), "*", "*") == "169.254.*.*"
    ensures Quad("*", "*", "*", ToDecimal(255)) == "*.*.*.255"
    ensures Quad(Range(224, 239), "*", "*", "*") == "224-239.*.*.*"
  {
    hide ToDecimal, Join;
    ReservedDigits();
    JoinFour("127", "*", "*", "*", '.');
    JoinFour("169", "254", "*", "*", '.');
    JoinFour("*", "*", "*", "255", '.');
    assert Range(224, 239) == "224-239";
    JoinFour("224-239", "*", "*", "*", '.');
  }

  lemma ReservedText()
    ensures Join(Reserved(LOOPBACK, LINK, LOCAL, BROADCAST, CLASS_D, CLASS_D_END), ';') == RESERVED_HOSTS
  {
    hide ToDecimal, Join, Quad, Range;
    ReservedParts();
    JoinFour("127.*.*.*", "169.254.*.*", "*.*.*.255", "224-239.*.*.*", ';');
  }

  /** The bit tests of the downgrade guard agree with the rule `RESERVED_HOSTS`. */
  lemma ReservedExactly(ip: u32)
    ensures IsBroadcastOrMulticast(ip) <==> MatchIpList(RESERVED_HOSTS, ip)
  {
    hide IsBroadcastOrMulticast, MatchIpList, Reserved;
    ReservedText();
    TestsAreRanges(ip);
    ReservedShape(LOOPBACK, LINK, LOCAL, BROADCAST, CLASS_D, CLASS_D_END, ip);
  }

  lemma TestsAreRanges(ip: u32)
    ensures IsBroadcastOrMulticast(ip) <==>
      Octet(ip, 0) == LOOPBACK || (Octet(ip, 0) == LINK && Octet(ip, 1) == LOCAL) || Octet(ip, 3) == BROADCAST
      || CLASS_D <= Octet(ip, 0) <= CLASS_D_END
  {
  }

  lemma AnyOfFour(a: string, b: string, c: string, d: string, ip: u32)
    requires a != "" && b != "" && c != "" && d != ""
    ensures MatchIpList(Join([a, b, c, d], ';'), ip) <==>
      MatchIpList(a, ip) || MatchIpList(b, ip) || MatchIpList(c, ip) || MatchIpList(d, ip)
  {
    IpListJoin([a, b, c, d], ip);
  }
}

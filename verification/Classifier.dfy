/** The packet classifier of `nfqueue.rs`. */
module Classifier {
  import opened Common
  import opened AddressPattern
  import opened Rules
  import opened Connection
  import opened Process

  type Payload = seq<byte>

  datatype Config = Config(proxy: ProxyConfig, dnsViaProxy: bool, currentPid: u32)

  // --- Fields of an intercepted packet (RFC 791 section 3.1, RFC 9293 section 3.1, RFC 768) ---

  const IPPROTO_TCP: byte := 6
  const IPPROTO_UDP: byte := 17

  predicate HasIpHeader(p: Payload) {
    |p| >= 20
  }

  function Ihl(p: Payload): nat
    requires HasIpHeader(p)
  {
    p[0] % 16 * 4
  }

  /** A TCP or UDP packet whose transport header is present. */
  predicate Parses(p: Payload) {
    HasIpHeader(p) &&
    ((p[9] == IPPROTO_TCP && |p| >= Ihl(p) + 20) || (p[9] == IPPROTO_UDP && |p| >= Ihl(p) + 8))
  }

  /** Payloads that get past header parsing. */
  type Packet = p: seq<byte> | Parses(p) witness seq(28, i => if i == 9 then 17 else 0)

  predicate IsTcp(p: Payload)
    requires HasIpHeader(p)
  {
    p[9] == IPPROTO_TCP
  }

  function SrcIp(p: Payload): u32
    requires HasIpHeader(p)
  {
    NeU32(p[12..16])
  }

  function DestIp(p: Payload): u32
    requires HasIpHeader(p)
  {
    NeU32(p[16..20])
  }

  function SrcPort(p: Payload): u16
    requires Parses(p)
  {
    BeU16(p[Ihl(p)..Ihl(p) + 2])
  }

  function DestPort(p: Payload): u16
    requires Parses(p)
  {
    BeU16(p[Ihl(p) + 2..Ihl(p) + 4])
  }

  /** SYN set and ACK clear. */
  predicate IsSyn(p: Payload)
    requires Parses(p)
  {
    IsTcp(p) && p[Ihl(p) + 13] / 2 % 2 == 1 && p[Ihl(p) + 13] / 16 % 2 == 0
  }

  predicate FromOwnRelay(p: Payload)
    requires Parses(p)
  {
    SrcPort(p) == if IsTcp(p) then LOCAL_PROXY_PORT else LOCAL_UDP_RELAY_PORT
  }

  function KeyOf(p: Payload): PidCacheKey
    requires Parses(p)
  {
    PidCacheKey(SrcIp(p), SrcPort(p), !IsTcp(p))
  }

  function QueryOf(p: Payload, name: string): Query
    requires Parses(p)
  {
    Query(name, DestIp(p), DestPort(p), !IsTcp(p))
  }

  function InfoOf(p: Payload, now: nat): ConnectionInfo
    requires Parses(p)
  {
    ConnectionInfo(SrcIp(p), SrcPort(p), DestIp(p), DestPort(p), now)
  }

  function MarkOf(p: Payload): u32
    requires Parses(p)
  {
    if IsTcp(p) then TCP_MARK else UDP_MARK
  }

  // --- The declarative decision ---

  /** Packets whose process is looked up at all. */
  predicate Examined(cfg: Config, p: Payload) {
    && Parses(p)
    && !FromOwnRelay(p)
    && (IsTcp(p) ==> IsSyn(p))
    && (DestPort(p) == 53 ==> cfg.dnsViaProxy)
  }

  /** The process is known and is not the bridge itself. */
  predicate KnownProcess(cfg: Config, pid: u32, name: Option<string>) {
    pid != 0 && pid != cfg.currentPid && name.Some?
  }

  /** A packet that the proxy can carry. */
  predicate Proxiable(cfg: Config, p: Payload)
    requires Parses(p)
  {
    && !IsBroadcastOrMulticast(DestIp(p))
    && (IsTcp(p) || (DestPort(p) != 67 && DestPort(p) != 68 && cfg.proxy.proxyType == Socks5))
    && cfg.proxy.host != "" && cfg.proxy.port != 0
  }

  predicate Ruled(cfg: Config, rules: seq<Rule>, p: Payload, pid: u32, name: Option<string>, a: RuleAction) {
    && Examined(cfg, p)
    && KnownProcess(cfg, pid, name)
    && Decide(rules, QueryOf(p, name.value)) == a
  }

  /** The exact condition for marking and tracking. */
  predicate MustProxy(cfg: Config, rules: seq<Rule>, p: Payload, pid: u32, name: Option<string>) {
    Ruled(cfg, rules, p, pid, name, Proxy) && Proxiable(cfg, p)
  }

  /** The exact condition for dropping. */
  predicate MustDrop(cfg: Config, rules: seq<Rule>, p: Payload, pid: u32, name: Option<string>) {
    Ruled(cfg, rules, p, pid, name, Block)
  }

  // --- Pieces shared with the concurrent model ---

  /** The action before the downgrades, once the process lookup has answered. */
  function Matched(cfg: Config, rules: seq<Rule>, p: Payload, pid: u32, name: Option<string>): RuleAction
    requires Parses(p)
  {
    if KnownProcess(cfg, pid, name) then Decide(rules, QueryOf(p, name.value)) else Direct
  }

  /** The action left after the downgrades. */
  function Downgrade(cfg: Config, p: Payload, action: RuleAction): RuleAction
    requires Parses(p)
  {
    if action == Proxy && !Proxiable(cfg, p) then Direct else action
  }

  /** With no enabled rule the declarative decision is to accept unmarked, so the early exit for inactive
      rule sets changes neither verdict nor mark nor tracker. */
  lemma FastPathIsInvisible(cfg: Config, rules: seq<Rule>, p: Payload, pid: u32, name: Option<string>)
    requires !HasActive(rules)
    ensures !MustProxy(cfg, rules, p, pid, name) && !MustDrop(cfg, rules, p, pid, name)
  {
    if Examined(cfg, p) && name.Some? { InactiveIsDirect(rules, QueryOf(p, name.value)); }
  }

  // --- nfqueue.rs: run_nfqueue ---

  datatype Verdict = Accept | Drop

  /** What the outside world answers while a packet is handled: the resolvers, the executable name of a pid,
      and the clock at the cache lookup, at the cache store and at the insertion. */
  datatype Surroundings = Surroundings(
    answer: Answer,
    nameOf: u32 -> Option<string>,
    lookupAt: nat,
    storeAt: nat,
    addAt: nat)

  /** Verdict and mark of a packet, and the shared tables afterwards. */
  datatype Effect = Effect(verdict: Verdict, mark: Option<u32>, tracker: Connections, cache: PidEntries)

  /** What has to happen to `p` when the tables are `c` and `cache`. Only the pid cache can tell whether the early
      exit for inactive rule sets is present. */
  function HandleSpec(cfg: Config, rules: seq<Rule>, fastPath: bool, c: Connections, cache: PidEntries,
                      p: Payload, env: Surroundings): Effect
  {
    if !Parses(p) || SrcPort(p) in c then Effect(Accept, None, c, cache)
    else
      var pid := LookupPid(cache, KeyOf(p), env.lookupAt, env.answer);
      var marks := MustProxy(cfg, rules, p, pid, env.nameOf(pid));
      Effect(
        if MustDrop(cfg, rules, p, pid, env.nameOf(pid)) then Drop else Accept,
        if marks then Some(MarkOf(p)) else None,
        if marks then c[SrcPort(p) := InfoOf(p, env.addAt)] else c,
        if Examined(cfg, p) && (fastPath ==> HasActive(rules))
        then Remembered(cache, KeyOf(p), env.lookupAt, env.storeAt, env.answer) else cache)
  }

  datatype Outcome = Outcome(answers: seq<(Verdict, Option<u32>)>, tracker: Connections, cache: PidEntries)

  /** The packets of a queue, one after the other. */
  function RunSpec(cfg: Config, rules: seq<Rule>, fastPath: bool, c: Connections, cache: PidEntries,
                   queue: seq<(Payload, Surroundings)>): Outcome
  {
    if queue == [] then Outcome([], c, cache)
    else
      var before := RunSpec(cfg, rules, fastPath, c, cache, queue[..|queue| - 1]);
      var (p, env) := queue[|queue| - 1];
      var e := HandleSpec(cfg, rules, fastPath, before.tracker, before.cache, p, env);
      Outcome(before.answers + [(e.verdict, e.mark)], e.tracker, e.cache)
  }

  function MarkCount(answers: seq<(Verdict, Option<u32>)>): nat {
    if answers == [] then 0
    else MarkCount(answers[..|answers| - 1]) + if answers[|answers| - 1].1.Some? then 1 else 0
  }

  /** Over any queue the tracker gains exactly one entry per marked packet. */
  lemma {:induction false} OneEntryPerMark(cfg: Config, rules: seq<Rule>, fastPath: bool, c: Connections,
                                                    cache: PidEntries, queue: seq<(Payload, Surroundings)>)
    ensures var o := RunSpec(cfg, rules, fastPath, c, cache, queue); |o.tracker| == |c| + MarkCount(o.answers)
  {
    if queue == [] {
    } else {
      hide MustProxy, MustDrop, Examined, LookupPid, Remembered;
      OneEntryPerMark(cfg, rules, fastPath, c, cache, queue[..|queue| - 1]);
      var before := RunSpec(cfg, rules, fastPath, c, cache, queue[..|queue| - 1]).answers;
      var after := RunSpec(cfg, rules, fastPath, c, cache, queue).answers;
      assert after[..|after| - 1] == before;
    }
  }

  /** One packet with and without the early exit, from pid caches that may differ while no rule is enabled. */
  lemma HandleWithoutFastPath(cfg: Config, rules: seq<Rule>, c: Connections, a: PidEntries, b: PidEntries,
                              p: Payload, env: Surroundings)
    requires HasActive(rules) ==> a == b
    ensures var with := HandleSpec(cfg, rules, true, c, a, p, env);
      var without := HandleSpec(cfg, rules, false, c, b, p, env);
      && with.verdict == without.verdict && with.mark == without.mark && with.tracker == without.tracker
      && (if HasActive(rules) then with.cache == without.cache else with == Effect(Accept, None, c, a))
  {
    hide HasActive, Decide, Proxiable, LookupPid, Remembered;
    if !HasActive(rules) && Parses(p) {
      var x, y := LookupPid(a, KeyOf(p), env.lookupAt, env.answer), LookupPid(b, KeyOf(p), env.lookupAt, env.answer);
      FastPathIsInvisible(cfg, rules, p, x, env.nameOf(x));
      FastPathIsInvisible(cfg, rules, p, y, env.nameOf(y));
    }
  }

  /** For a fixed rule set and any queue, removing the early exit changes no verdict, no mark and no tracker entry; the
      pid caches can only differ while no rule is enabled, and then the exit leaves the cache alone. */
  lemma {:induction false} SameWithoutFastPath(cfg: Config, rules: seq<Rule>, c: Connections, cache: PidEntries,
                                               queue: seq<(Payload, Surroundings)>)
    ensures var with := RunSpec(cfg, rules, true, c, cache, queue);
      var without := RunSpec(cfg, rules, false, c, cache, queue);
      && with.answers == without.answers && with.tracker == without.tracker
      && with.cache == (if HasActive(rules) then without.cache else cache)
  {
    if queue == [] {
    } else {
      hide HandleSpec, HasActive;
      var init := queue[..|queue| - 1];
      var (p, env) := queue[|queue| - 1];
      SameWithoutFastPath(cfg, rules, c, cache, init);
      var with, without := RunSpec(cfg, rules, true, c, cache, init), RunSpec(cfg, rules, false, c, cache, init);
      HandleWithoutFastPath(cfg, rules, with.tracker, with.cache, without.cache, p, env);
    }
  }

  class Nfqueue {
    const cfg: Config
    const engine: RuleEngine
    const tracker: ConnectionTracker
    const pids: PidCache
    /** Whether the exit for inactive rule sets is present. */
    const fastPath: bool

    constructor (cfg: Config, engine: RuleEngine, tracker: ConnectionTracker, pids: PidCache, fastPath: bool)
      ensures this.cfg == cfg && this.engine == engine && this.tracker == tracker && this.pids == pids
      ensures this.fastPath == fastPath
    {
      this.cfg, this.engine, this.tracker, this.pids, this.fastPath := cfg, engine, tracker, pids, fastPath;
    }

    /** The transport part of header parsing. */
    method ParseTransport(p: Payload) returns (parsed: bool, srcPort: u16, destPort: u16, isTcp: bool, isSyn: bool)
      requires HasIpHeader(p)
      ensures parsed == Parses(p)
      ensures parsed ==> srcPort == SrcPort(p) && destPort == DestPort(p) && isTcp == IsTcp(p) && isSyn == IsSyn(p)
    {
      parsed, srcPort, destPort, isTcp, isSyn := false, 0, 0, false, false;
      var ihl := p[0] % 16 * 4;
      var protocol := p[9];
      if protocol == IPPROTO_TCP {
        if |p| < ihl + 20 { return; }
        srcPort := BeU16(p[ihl..ihl + 2]);
        destPort := BeU16(p[ihl + 2..ihl + 4]);
        var flags := p[ihl + 13];
        isSyn := flags / 2 % 2 != 0 && flags / 16 % 2 == 0;
        isTcp := true;
      } else if protocol == IPPROTO_UDP {
        if |p| < ihl + 8 { return; }
        srcPort := BeU16(p[ihl..ihl + 2]);
        destPort := BeU16(p[ihl + 2..ihl + 4]);
        isSyn := false;
        isTcp := false;
      } else {
        return;
      }
      parsed := true;
    }

    /** Process lookup and rule match. */
    method LookUpAction(p: Payload, srcIp: u32, srcPort: u16, destIp: u32, destPort: u16, isUdp: bool,
                        env: Surroundings)
      returns (action: RuleAction)
      requires Parses(p) && srcIp == SrcIp(p) && srcPort == SrcPort(p) && destIp == DestIp(p) && destPort == DestPort(p)
      requires isUdp == !IsTcp(p)
      modifies pids
      ensures action == if destPort == 53 && !cfg.dnsViaProxy then Direct
        else
          var pid := LookupPid(old(pids.cache), KeyOf(p), env.lookupAt, env.answer);
          Matched(cfg, engine.rules, p, pid, env.nameOf(pid))
      ensures pids.cache == if destPort == 53 && !cfg.dnsViaProxy then old(pids.cache)
        else Remembered(old(pids.cache), KeyOf(p), env.lookupAt, env.storeAt, env.answer)
    {
      action := Direct;
      if destPort == 53 && !cfg.dnsViaProxy {
        action := Direct;
      } else {
        var key := PidCacheKey(srcIp, srcPort, isUdp);
        var pid := GetPidFromConnection(pids, key, env.lookupAt, env.storeAt, env.answer);
        if pid == 0 || pid == cfg.currentPid {
          action := Direct;
        } else {
          match env.nameOf(pid) {
            case Some(name) => action := engine.MatchRule(Query(name, destIp, destPort, isUdp));
            case None => action := Direct;
          }
        }
      }
    }

    /** The chain of downgrades. */
    method ApplyDowngrades(p: Payload, destIp: u32, destPort: u16, isUdp: bool, matched: RuleAction)
      returns (action: RuleAction)
      requires Parses(p) && destIp == DestIp(p) && destPort == DestPort(p) && isUdp == !IsTcp(p)
      ensures action == Downgrade(cfg, p, matched)
    {
      action := matched;
      if action == Proxy && IsBroadcastOrMulticast(destIp) { action := Direct; }
      if action == Proxy && isUdp && (destPort == 67 || destPort == 68) { action := Direct; }
      if action == Proxy && isUdp && cfg.proxy.proxyType != Socks5 { action := Direct; }
      if action == Proxy && (cfg.proxy.host == "" || cfg.proxy.port == 0) { action := Direct; }
    }

    /** One iteration of the loop. */
    method Handle(p: Payload, env: Surroundings) returns (verdict: Verdict, mark: Option<u32>)
      requires tracker.Valid()
      modifies tracker, pids
      ensures tracker.Valid()
      ensures Effect(verdict, mark, tracker.connections, pids.cache) ==
        HandleSpec(cfg, engine.rules, fastPath, old(tracker.connections), old(pids.cache), p, env)
    {
      hide Decide, Proxiable, NeU32, BeU16, LookupPid, Remembered, Cached, HasActive, FieldsPresent;
      verdict, mark := Accept, None;
      if |p| < 20 { return; }

      var srcIp := NeU32(p[12..16]);
      var destIp := NeU32(p[16..20]);

      if fastPath {
        var active := engine.HasActiveRules();
        if !active {
          ghost var pid := if Parses(p) then LookupPid(pids.cache, KeyOf(p), env.lookupAt, env.answer) else 0;
          FastPathIsInvisible(cfg, engine.rules, p, pid, env.nameOf(pid));
          return;
        }
      }

      var parsed, srcPort, destPort, isTcp, isSyn := ParseTransport(p);
      if !parsed { return; }
      var isUdp := !isTcp;

      if isTcp && srcPort == LOCAL_PROXY_PORT { return; }
      if isUdp && srcPort == LOCAL_UDP_RELAY_PORT { return; }

      var tracked := tracker.IsTracked(srcPort);
      if tracked { return; }
      if isTcp && !isSyn { return; }

      var action := LookUpAction(p, srcIp, srcPort, destIp, destPort, isUdp, env);
      action := ApplyDowngrades(p, destIp, destPort, isUdp, action);

      match action {
        case Direct =>
        case Block => verdict := Drop;
        case Proxy =>
          tracker.Add(srcPort, srcIp, destIp, destPort, env.addAt);
          mark := Some(if isTcp then TCP_MARK else UDP_MARK);
      }
    }

    /** The queue loop over the packets received before the bridge stops. */
    method Run(queue: seq<(Payload, Surroundings)>) returns (answers: seq<(Verdict, Option<u32>)>)
      requires tracker.Valid()
      modifies tracker, pids
      ensures tracker.Valid()
      ensures Outcome(answers, tracker.connections, pids.cache) ==
        RunSpec(cfg, engine.rules, fastPath, old(tracker.connections), old(pids.cache), queue)
    {
      hide HandleSpec;
      answers := [];
      for i := 0 to |queue|
        invariant tracker.Valid()
        invariant Outcome(answers, tracker.connections, pids.cache) ==
          RunSpec(cfg, engine.rules, fastPath, old(tracker.connections), old(pids.cache), queue[..i])
      {
        var verdict, mark := Handle(queue[i].0, queue[i].1);
        assert queue[..i + 1][..i] == queue[..i];
        answers := answers + [(verdict, mark)];
      }
      assert queue[..|queue|] == queue;
    }
  }

  /** A packet attributed to no process or to the bridge itself is accepted unmarked and not tracked. */
  lemma OwnTrafficPasses(cfg: Config, rules: seq<Rule>, fastPath: bool, c: Connections, cache: PidEntries,
                         p: Packet, env: Surroundings)
    requires LookupPid(cache, KeyOf(p), env.lookupAt, env.answer) in {0, cfg.currentPid}
    ensures var e := HandleSpec(cfg, rules, fastPath, c, cache, p, env);
      e.verdict == Accept && e.mark == None && e.tracker == c
  {
    hide LookupPid, Remembered, Decide, Proxiable;
    assert !KnownProcess(cfg, LookupPid(cache, KeyOf(p), env.lookupAt, env.answer), None);
  }
}

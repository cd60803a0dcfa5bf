/** The running bridge as a concurrent state machine. The actors are the NFQUEUE thread, the TCP relay with its
    connection tasks, the UDP relay and the cleanup timer; every lock section is one atomic step. */
module Interception {
  import opened Common
  import opened Rules
  import opened Connection
  import Process
  import opened Socks5
  import opened Classifier
  import Udp = UdpRelay
  import Tcp = TcpRelay

  // --- State ---

  /** A packet with the pid it was attributed to (looked up at `seen`), the name of its executable, if it could be
      read, and the rules it was matched against. */
  datatype Marking = Marking(p: Packet, pid: u32, seen: nat, name: Option<string>, rules: seq<Rule>)

  /** Where the NFQUEUE thread stands between two lock sections. */
  datatype Pc =
    | Idle
    | Received(raw: Payload)
    | Checking(p: Packet)
    | Untracked(p: Packet)
    | Missed(p: Packet)
    | Identified(p: Packet, pid: u32, seen: nat)
    | Inserting(m: Marking)
    | Marked(m: Marking)

  datatype Task = Task(port: u16, ip: u32, destPort: u16)

  datatype UdpPhase = Top | AtClient | AtProxy
  datatype UdpState = UdpState(phase: UdpPhase, sendSock: bool, relayAddr: Option<Udp.Addr>)

  datatype Event =
    | RulesSet(rules: seq<Rule>)
    | Intercepted(raw: Payload)
    | Resolved(key: PidCacheKey, pid: u32, at: nat)
    | Matched(m: Marking)
    | Answered(payload: Payload, verdict: Verdict, mark: Option<u32>)
    | Requested(port: u16, request: seq<byte>)
    | HttpRequested(port: u16, ip: u32, destPort: u16)
    | Forwarded(port: u16, packet: seq<byte>)
    | Delivered(to: Udp.ToClient)

  datatype State = State(
    now: nat,
    lastCleanup: nat,
    rules: seq<Rule>,
    tracker: Connections,
    cache: PidEntries,
    pc: Pc,
    tasks: seq<Task>,
    udp: UdpState,
    log: seq<Event>)

  /** `now` advances, rules are edited, and each actor takes its steps with whatever the outside answers. */
  datatype Step =
    | Tick(ms: nat)
    | SetRules(newRules: seq<Rule>)
    | Recv(payload: Payload)
    | CheckActive
    | CheckTracked
    | ReadCache
    | Resolve(answer: Process.Answer)
    | Match(name: Option<string>)
    | Insert
    | Release
    | CleanTracker
    | CleanPids
    | AcceptTcp(clientPort: u16)
    | HandshakeTask(i: nat, wire: Wire)
    | HttpTask(i: nat)
    | DropTask(i: nat)
    | UdpAssociate(addr: Option<Udp.Addr>)
    | UdpReady
    | UdpClient(client: Option<Udp.FromClient>, sendOk: bool)
    | UdpProxy(proxy: Option<seq<byte>>, out: Option<Udp.ToClient>)

  ghost predicate Enabled(cfg: Config, s: State, t: Step) {
    match t
    case Tick(_) => true
    case SetRules(_) => true
    case Recv(_) => s.pc.Idle?
    case CheckActive => s.pc.Received?
    case CheckTracked => s.pc.Checking?
    case ReadCache => s.pc.Untracked?
    case Resolve(_) => s.pc.Missed?
    case Match(_) => s.pc.Identified?
    case Insert => s.pc.Inserting?
    case Release => s.pc.Marked?
    case CleanTracker => true
    case CleanPids => true
    case AcceptTcp(_) => true
    case HandshakeTask(i, wire) =>
      i < |s.tasks| && cfg.proxy.proxyType == ProxyType.Socks5 && cfg.proxy.resolvedIp.Some? && wire.sent == []
    case HttpTask(i) => i < |s.tasks| && cfg.proxy.proxyType == Http && cfg.proxy.resolvedIp.Some?
    case DropTask(i) => i < |s.tasks|
    case UdpAssociate(_) => cfg.proxy.proxyType == ProxyType.Socks5 && s.udp.phase == Top && s.udp.relayAddr.None?
    case UdpReady => s.udp.phase == Top && s.udp.relayAddr.Some?
    case UdpClient(_, _) => s.udp.phase == AtClient
    case UdpProxy(proxy, out) =>
      s.udp.phase == AtProxy && (if s.udp.sendSock then Udp.Delivers(s.tracker, proxy, out) else out == None)
  }

  // --- Effect of a step, field by field ---

  function NextTracker(s: State, t: Step): Connections {
    match t
    case Insert => if s.pc.Inserting? then s.tracker[SrcPort(s.pc.m.p) := InfoOf(s.pc.m.p, s.now)] else s.tracker
    case CleanTracker => Retained(s.tracker, s.now)
    case _ => s.tracker
  }

  function NextCache(s: State, t: Step): PidEntries {
    match t
    case Resolve(answer) =>
      if s.pc.Missed? && Process.Resolved(answer, !IsTcp(s.pc.p)) != 0
      then s.cache[KeyOf(s.pc.p) := PidCacheEntry(Process.Resolved(answer, !IsTcp(s.pc.p)), s.now)] else s.cache
    case CleanPids => LiveOnly(s.cache, s.now)
    case _ => s.cache
  }

  predicate PassesParsing(rules: seq<Rule>, p: Payload) {
    HasActive(rules) && Parses(p) && !FromOwnRelay(p)
  }

  predicate PassesTracking(cfg: Config, c: Connections, p: Packet) {
    SrcPort(p) !in c && (IsTcp(p) ==> IsSyn(p)) && (DestPort(p) == 53 ==> cfg.dnsViaProxy)
  }

  function FinalAction(cfg: Config, rules: seq<Rule>, p: Packet, pid: u32, name: Option<string>): RuleAction {
    Downgrade(cfg, p, Classifier.Matched(cfg, rules, p, pid, name))
  }

  function NextPc(cfg: Config, s: State, t: Step): Pc {
    match (t, s.pc)
    case (Recv(payload), _) => if HasIpHeader(payload) then Received(payload) else Idle
    case (CheckActive, Received(raw)) => if PassesParsing(s.rules, raw) then Checking(raw) else Idle
    case (CheckTracked, Checking(p)) => if PassesTracking(cfg, s.tracker, p) then Untracked(p) else Idle
    case (ReadCache, Untracked(p)) =>
      (match Cached(s.cache, KeyOf(p), s.now) case Some(pid) => Identified(p, pid, s.now) case None => Missed(p))
    case (Resolve(answer), Missed(p)) => Identified(p, Process.Resolved(answer, !IsTcp(p)), s.now)
    case (Match(name), Identified(p, pid, seen)) =>
      if FinalAction(cfg, s.rules, p, pid, name) == Proxy then Inserting(Marking(p, pid, seen, name, s.rules)) else Idle
    case (Insert, Inserting(m)) => Marked(m)
    case (Release, _) => Idle
    case _ => s.pc
  }

  function NextTasks(s: State, t: Step): seq<Task> {
    match t
    case AcceptTcp(port) =>
      (match Destination(s.tracker, port) case Some(d) => s.tasks + [Task(port, d.0, d.1)] case None => s.tasks)
    case HandshakeTask(i, _) => if i < |s.tasks| then s.tasks[..i] + s.tasks[i + 1..] else s.tasks
    case HttpTask(i) => if i < |s.tasks| then s.tasks[..i] + s.tasks[i + 1..] else s.tasks
    case DropTask(i) => if i < |s.tasks| then s.tasks[..i] + s.tasks[i + 1..] else s.tasks
    case _ => s.tasks
  }

  function NextUdp(s: State, t: Step): UdpState {
    match t
    case UdpAssociate(addr) => if addr.Some? then UdpState(AtClient, true, addr) else s.udp
    case UdpReady => s.udp.(phase := AtClient)
    case UdpClient(client, sendOk) =>
      var lost := s.udp.relayAddr.Some? && Udp.Forwarded(s.tracker, s.udp.relayAddr.value, client).Some? && !sendOk;
      s.udp.(phase := AtProxy, relayAddr := if lost then None else s.udp.relayAddr)
    case UdpProxy(_, _) => s.udp.(phase := Top)
    case _ => s.udp
  }

  /** What a task puts on the wire after the negotiation, if it gets that far. */
  function RequestOf(cfg: Config, task: Task, wire: Wire): Option<seq<byte>> {
    var c := Tcp.CredentialsOf(cfg.proxy);
    var request := ConnectRequest(task.ip, task.destPort);
    var before := |BeforeRequest(wire.input, c)|;
    var sent := Handshake(wire, c, request).0.sent;
    if |sent| >= before + 10 then Some(sent[before..]) else None
  }

  function Emits(cfg: Config, s: State, t: Step): seq<Event> {
    match (t, s.pc)
    case (SetRules(rules), _) => [RulesSet(rules)]
    case (Recv(payload), _) =>
      [Intercepted(payload)] + if HasIpHeader(payload) then [] else [Answered(payload, Accept, None)]
    case (CheckActive, Received(raw)) => if PassesParsing(s.rules, raw) then [] else [Answered(raw, Accept, None)]
    case (CheckTracked, Checking(p)) => if PassesTracking(cfg, s.tracker, p) then [] else [Answered(p, Accept, None)]
    case (Resolve(answer), Missed(p)) => [Resolved(KeyOf(p), Process.Resolved(answer, !IsTcp(p)), s.now)]
    case (Match(name), Identified(p, pid, seen)) =>
      [Matched(Marking(p, pid, seen, name, s.rules))] +
      (match FinalAction(cfg, s.rules, p, pid, name)
       case Proxy => []
       case Direct => [Answered(p, Accept, None)]
       case Block => [Answered(p, Drop, None)])
    case (Release, Marked(m)) => [Answered(m.p, Accept, Some(MarkOf(m.p)))]
    case (HandshakeTask(i, wire), _) =>
      if i < |s.tasks| && RequestOf(cfg, s.tasks[i], wire).Some?
      then [Requested(s.tasks[i].port, RequestOf(cfg, s.tasks[i], wire).value)] else []
    case (HttpTask(i), _) =>
      if i < |s.tasks| then [HttpRequested(s.tasks[i].port, s.tasks[i].ip, s.tasks[i].destPort)] else []
    case (UdpClient(client, sendOk), _) =>
      if s.udp.relayAddr.Some? && client.Some? && sendOk
         && Udp.Forwarded(s.tracker, s.udp.relayAddr.value, client).Some?
      then [Forwarded(client.value.port, Udp.Forwarded(s.tracker, s.udp.relayAddr.value, client).value.packet)] else []
    case (UdpProxy(_, out), _) => if out.Some? then [Delivered(out.value)] else []
    case _ => []
  }

  function Apply(cfg: Config, s: State, t: Step): State {
    State(
      if t.Tick? then s.now + t.ms else s.now,
      if t.CleanTracker? then s.now else s.lastCleanup,
      if t.SetRules? then t.newRules else s.rules,
      NextTracker(s, t),
      NextCache(s, t),
      NextPc(cfg, s, t),
      NextTasks(s, t),
      NextUdp(s, t),
      s.log + Emits(cfg, s, t))
  }

  function Initial(start: nat): State {
    State(start, start, [], map[], map[], Idle, [], UdpState(Top, false, None), [])
  }

  /** The state after a run from start-up, `None` if some step was not enabled. */
  ghost function Run(cfg: Config, start: nat, steps: seq<Step>): Option<State> {
    if steps == [] then Some(Initial(start))
    else
      var last := steps[|steps| - 1];
      match Run(cfg, start, steps[..|steps| - 1])
      case Some(s) => if Enabled(cfg, s, last) then Some(Apply(cfg, s, last)) else None
      case None => None
  }

  // --- What the log proves about a destination ---

  /** The rule list in force after `log`. */
  function RulesAt(log: seq<Event>): seq<Rule> {
    if log == [] then []
    else if log[|log| - 1].RulesSet? then log[|log| - 1].rules
    else RulesAt(log[..|log| - 1])
  }

  /** The resolvers attributed the connection to `pid` less than the cache lifetime before `seen`. */
  ghost predicate Attributed(log: seq<Event>, key: PidCacheKey, pid: u32, seen: nat) {
    exists i :: 0 <= i < |log| && log[i].Resolved? && log[i].key == key && log[i].pid == pid
      && log[i].at <= seen < log[i].at + 10_000
  }

  /** Before the match, the packet was intercepted and its connection attributed to the pid, and the rules used
      were the ones in force. */
  ghost predicate Sound(past: seq<Event>, m: Marking) {
    && Intercepted(m.p) in past
    && m.rules == RulesAt(past)
    && (m.pid != 0 ==> Attributed(past, KeyOf(m.p), m.pid, m.seen))
  }

  ghost predicate MatchedAt(log: seq<Event>, j: nat, m: Marking) {
    j < |log| && log[j] == Matched(m) && Sound(log[..j], m)
  }

  predicate Proxied(cfg: Config, m: Marking) {
    MustProxy(cfg, m.rules, m.p, m.pid, m.name)
  }

  /** Some earlier intercepted packet from `port` to `ip:destPort` had to be proxied. */
  ghost predicate Backed(cfg: Config, log: seq<Event>, port: u16, ip: u32, destPort: u16) {
    exists j: nat, m :: MatchedAt(log, j, m) && Proxied(cfg, m)
      && SrcPort(m.p) == port && DestIp(m.p) == ip && DestPort(m.p) == destPort
  }

  /** Verdict and mark that a match demands for its packet. */
  function Demand(cfg: Config, m: Marking): (Verdict, Option<u32>) {
    if Proxied(cfg, m) then (Accept, Some(MarkOf(m.p)))
    else (if MustDrop(cfg, m.rules, m.p, m.pid, m.name) then Drop else Accept, None)
  }

  function After(pending: Option<Marking>, e: Event): Option<Marking> {
    match e
    case Matched(m) => Some(m)
    case Answered(_, _, _) => None
    case _ => pending
  }

  /** The match that still waits for its answer. */
  function Pending(log: seq<Event>): Option<Marking> {
    if log == [] then None else After(Pending(log[..|log| - 1]), log[|log| - 1])
  }

  /** The match waiting for its answer decides it; a packet that was not matched is accepted unmarked. */
  predicate Meets(cfg: Config, pending: Option<Marking>, p: Payload, verdict: Verdict, mark: Option<u32>) {
    match pending
    case Some(m) => m.p == p && (verdict, mark) == Demand(cfg, m)
    case None => (verdict, mark) == (Accept, None)
  }

  lemma BackedExtends(cfg: Config, log: seq<Event>, more: seq<Event>, port: u16, ip: u32, destPort: u16)
    requires Backed(cfg, log, port, ip, destPort)
    ensures Backed(cfg, log + more, port, ip, destPort)
  {
    hide Proxied, Sound, SrcPort, DestPort, DestIp;
    var j: nat, m :| MatchedAt(log, j, m) && Proxied(cfg, m)
      && SrcPort(m.p) == port && DestIp(m.p) == ip && DestPort(m.p) == destPort;
    assert (log + more)[..j] == log[..j];
    assert MatchedAt(log + more, j, m);
  }

  lemma AttributedExtends(log: seq<Event>, more: seq<Event>, key: PidCacheKey, pid: u32, seen: nat)
    requires Attributed(log, key, pid, seen)
    ensures Attributed(log + more, key, pid, seen)
  {
    var i :| 0 <= i < |log| && log[i].Resolved? && log[i].key == key && log[i].pid == pid
      && log[i].at <= seen < log[i].at + 10_000;
    assert (log + more)[i] == log[i];
  }

  /** The claim each kind of event makes about what came before it. */
  ghost predicate EventHolds(cfg: Config, past: seq<Event>, e: Event) {
    match e
    case Requested(port, request) => exists ip: u32, destPort: u16 ::
      Backed(cfg, past, port, ip, destPort) && request == ConnectRequest(ip, destPort)
    case HttpRequested(port, ip, destPort) => Backed(cfg, past, port, ip, destPort)
    case Forwarded(port, packet) => exists ip: u32, destPort: u16 ::
      Backed(cfg, past, port, ip, destPort) && |packet| >= 10 && packet == UdpPacket(ip, destPort, packet[10..])
    case Matched(m) => Sound(past, m) && Pending(past).None?
    case Answered(p, verdict, mark) => Meets(cfg, Pending(past), p, verdict, mark)
    case _ => true
  }

  ghost predicate LogHolds(cfg: Config, log: seq<Event>) {
    forall i :: 0 <= i < |log| ==> EventHolds(cfg, log[..i], log[i])
  }

  // --- The invariant ---

  /** `m` was matched soundly and demands the proxy. */
  ghost predicate Placed(cfg: Config, log: seq<Event>, m: Marking) {
    Proxied(cfg, m) && exists j: nat :: MatchedAt(log, j, m)
  }

  ghost predicate InvRules(s: State) {
    s.rules == RulesAt(s.log)
  }

  ghost predicate InvCache(s: State) {
    forall k :: k in s.cache ==> (
      && s.cache[k].pid != 0 && s.cache[k].timestamp <= s.now
      && Resolved(k, s.cache[k].pid, s.cache[k].timestamp) in s.log)
  }

  /** A packet past the tracker check: its port is still untracked, whatever the other actors did since. */
  ghost predicate InLookup(cfg: Config, s: State, p: Packet) {
    Examined(cfg, p) && Intercepted(p) in s.log && SrcPort(p) !in s.tracker
  }

  ghost predicate InvPc(cfg: Config, s: State) {
    match s.pc
    case Idle => true
    case Received(raw) => HasIpHeader(raw) && Intercepted(raw) in s.log
    case Checking(p) => !FromOwnRelay(p) && Intercepted(p) in s.log
    case Untracked(p) => InLookup(cfg, s, p)
    case Missed(p) => InLookup(cfg, s, p)
    case Identified(p, pid, seen) => InLookup(cfg, s, p) && (pid != 0 ==> Attributed(s.log, KeyOf(p), pid, seen))
    case Inserting(m) => SrcPort(m.p) !in s.tracker && Placed(cfg, s.log, m)
    case Marked(m) => Placed(cfg, s.log, m)
  }

  /** The thread is between a match and its answer exactly when the log says so. */
  ghost predicate InvPending(s: State) {
    Pending(s.log) == match s.pc
                      case Inserting(m) => Some(m)
                      case Marked(m) => Some(m)
                      case _ => None
  }

  ghost predicate InvTable(cfg: Config, s: State) {
    && KeyedByPort(s.tracker)
    && forall p :: p in s.tracker ==> Backed(cfg, s.log, p, s.tracker[p].destIp, s.tracker[p].destPort)
  }

  ghost predicate InvTasks(cfg: Config, s: State) {
    forall i :: 0 <= i < |s.tasks| ==> Backed(cfg, s.log, s.tasks[i].port, s.tasks[i].ip, s.tasks[i].destPort)
  }

  ghost predicate InvClock(s: State) {
    s.lastCleanup <= s.now && forall p :: p in s.tracker ==>
      s.tracker[p].lastActivity <= s.now && s.lastCleanup < s.tracker[p].lastActivity + CONNECTION_TIMEOUT_MS
  }

  ghost predicate InvUdp(s: State) {
    && (s.udp.relayAddr.Some? ==> s.udp.sendSock)
    && (s.udp.phase == AtClient ==> s.udp.relayAddr.Some?)
    && (s.udp.phase == AtProxy ==> s.udp.sendSock)
  }

  ghost predicate Inv(cfg: Config, s: State) {
    && InvRules(s) && InvCache(s) && InvPc(cfg, s) && InvPending(s) && InvTable(cfg, s) && InvTasks(cfg, s)
    && InvClock(s) && InvUdp(s) && LogHolds(cfg, s.log)
  }

  // --- Preservation, one part at a time ---

  lemma {:induction false} RulesAtKeeps(log: seq<Event>, more: seq<Event>)
    requires forall i :: 0 <= i < |more| ==> !more[i].RulesSet?
    ensures RulesAt(log + more) == RulesAt(log)
  {
    if more == [] {
      assert log + more == log;
    } else {
      var all, init := log + more, more[..|more| - 1];
      assert all[..|all| - 1] == log + init;
      RulesAtKeeps(log, init);
    }
  }

  lemma KeepsRules(cfg: Config, s: State, t: Step)
    requires InvRules(s) && Enabled(cfg, s, t)
    ensures InvRules(Apply(cfg, s, t))
  {
    var more := Emits(cfg, s, t);
    if t.SetRules? {
      var log := s.log + more;
      assert log[|log| - 1] == RulesSet(t.newRules);
    } else {
      OnlySetRulesEmitsRules(cfg, s, t);
      RulesAtKeeps(s.log, more);
    }
  }

  lemma OnlySetRulesEmitsRules(cfg: Config, s: State, t: Step)
    requires !t.SetRules?
    ensures forall i :: 0 <= i < |Emits(cfg, s, t)| ==> !Emits(cfg, s, t)[i].RulesSet?
  {
    hide FinalAction, PassesParsing, PassesTracking, RequestOf, Udp.Forwarded, Process.Resolved;
  }

  lemma KeepsCache(cfg: Config, s: State, t: Step)
    requires InvCache(s) && Enabled(cfg, s, t)
    ensures InvCache(Apply(cfg, s, t))
  {
    var s' := Apply(cfg, s, t);
    forall k | k in s'.cache
      ensures s'.cache[k].pid != 0 && s'.cache[k].timestamp <= s'.now
      ensures Resolved(k, s'.cache[k].pid, s'.cache[k].timestamp) in s'.log
    {
      if t.Resolve? && k == KeyOf(s.pc.p) && s'.cache != s.cache {
        assert Resolved(k, s'.cache[k].pid, s'.cache[k].timestamp) in Emits(cfg, s, t);
      } else {
        assert k in s.cache && s'.cache[k] == s.cache[k];
      }
    }
  }

  lemma KeepsClock(cfg: Config, s: State, t: Step)
    requires InvClock(s) && Enabled(cfg, s, t)
    ensures InvClock(Apply(cfg, s, t))
  {
    hide Emits, NextPc, NextCache, NextTasks, NextUdp;
  }

  lemma KeepsUdp(cfg: Config, s: State, t: Step)
    requires InvUdp(s) && Enabled(cfg, s, t)
    ensures InvUdp(Apply(cfg, s, t))
  {
    hide Emits, NextPc, NextCache, NextTasks, NextTracker, Udp.Forwarded;
  }

  lemma PlacedIsBacked(cfg: Config, log: seq<Event>, m: Marking)
    requires Placed(cfg, log, m)
    ensures Backed(cfg, log, SrcPort(m.p), DestIp(m.p), DestPort(m.p))
  {
    var j: nat :| MatchedAt(log, j, m);
  }

  lemma PlacedExtends(cfg: Config, log: seq<Event>, more: seq<Event>, m: Marking)
    requires Placed(cfg, log, m)
    ensures Placed(cfg, log + more, m)
  {
    var j: nat :| MatchedAt(log, j, m);
    assert (log + more)[..j] == log[..j];
    assert MatchedAt(log + more, j, m);
  }

  lemma KeepsTable(cfg: Config, s: State, t: Step)
    requires InvTable(cfg, s) && InvPc(cfg, s) && Enabled(cfg, s, t)
    ensures InvTable(cfg, Apply(cfg, s, t))
  {
    hide Emits, NextPc, NextCache, NextTasks, NextUdp, Backed, Placed;
    var s' := Apply(cfg, s, t);
    var more := Emits(cfg, s, t);
    if t.Insert? { PlacedIsBacked(cfg, s.log, s.pc.m); }
    forall p | p in s'.tracker ensures Backed(cfg, s'.log, p, s'.tracker[p].destIp, s'.tracker[p].destPort) {
      BackedExtends(cfg, s.log, more, p, s'.tracker[p].destIp, s'.tracker[p].destPort);
    }
  }

  lemma KeepsTasks(cfg: Config, s: State, t: Step)
    requires InvTasks(cfg, s) && InvTable(cfg, s) && Enabled(cfg, s, t)
    ensures InvTasks(cfg, Apply(cfg, s, t))
  {
    hide Emits, NextPc, NextCache, NextTracker, NextUdp, Backed;
    var s' := Apply(cfg, s, t);
    var more := Emits(cfg, s, t);
    forall i | 0 <= i < |s'.tasks| ensures Backed(cfg, s'.log, s'.tasks[i].port, s'.tasks[i].ip, s'.tasks[i].destPort) {
      var task := s'.tasks[i];
      assert Backed(cfg, s.log, task.port, task.ip, task.destPort);
      BackedExtends(cfg, s.log, more, task.port, task.ip, task.destPort);
    }
  }

  /** Nobody but the NFQUEUE thread adds entries. */
  lemma OnlyInsertAdds(s: State, t: Step, p: u16)
    requires !t.Insert? && p !in s.tracker
    ensures p !in NextTracker(s, t)
  {
  }

  lemma KeepsPc(cfg: Config, s: State, t: Step)
    requires InvPc(cfg, s) && InvRules(s) && InvCache(s) && Enabled(cfg, s, t)
    ensures InvPc(cfg, Apply(cfg, s, t))
  {
    match t
    case Match(name) => KeepsPcAtMatch(cfg, s, t);
    case ReadCache => KeepsPcAtCache(cfg, s, t);
    case Resolve(_) => KeepsPcAtResolve(cfg, s, t);
    case Insert => PlacedExtends(cfg, s.log, Emits(cfg, s, t), s.pc.m);
    case Recv(_) => assert Emits(cfg, s, t)[0] == Intercepted(t.payload);
    case CheckActive =>
    case CheckTracked =>
    case Release =>
    case _ => KeepsPcElsewhere(cfg, s, t);
  }

  predicate Elsewhere(t: Step) {
    && !t.Recv? && !t.CheckActive? && !t.CheckTracked? && !t.ReadCache?
    && !t.Resolve? && !t.Match? && !t.Insert? && !t.Release?
  }

  lemma KeepsPcElsewhere(cfg: Config, s: State, t: Step)
    requires InvPc(cfg, s) && Elsewhere(t)
    ensures InvPc(cfg, Apply(cfg, s, t))
  {
    hide Emits, NextCache, NextTasks, NextUdp, Placed, Attributed, Examined;
    var more := Emits(cfg, s, t);
    assert NextPc(cfg, s, t) == s.pc;
    match s.pc
    case Identified(p, pid, seen) =>
      if pid != 0 { AttributedExtends(s.log, more, KeyOf(p), pid, seen); }
      OnlyInsertAdds(s, t, SrcPort(p));
    case Inserting(m) =>
      PlacedExtends(cfg, s.log, more, m);
      OnlyInsertAdds(s, t, SrcPort(m.p));
    case Marked(m) => PlacedExtends(cfg, s.log, more, m);
    case Untracked(p) => OnlyInsertAdds(s, t, SrcPort(p));
    case Missed(p) => OnlyInsertAdds(s, t, SrcPort(p));
    case _ =>
  }

  lemma KeepsPcAtCache(cfg: Config, s: State, t: Step)
    requires InvPc(cfg, s) && InvCache(s) && Enabled(cfg, s, t) && t.ReadCache?
    ensures InvPc(cfg, Apply(cfg, s, t))
  {
    hide Examined;
    var key := KeyOf(s.pc.p);
    assert Emits(cfg, s, t) == [] && s.log + [] == s.log;
    if Cached(s.cache, key, s.now).Some? {
      var e := s.cache[key];
      var i :| 0 <= i < |s.log| && s.log[i] == Resolved(key, e.pid, e.timestamp);
      assert Attributed(s.log, key, e.pid, s.now);
    }
  }

  lemma KeepsPcAtResolve(cfg: Config, s: State, t: Step)
    requires InvPc(cfg, s) && Enabled(cfg, s, t) && t.Resolve?
    ensures InvPc(cfg, Apply(cfg, s, t))
  {
    hide Examined;
    var key, pid := KeyOf(s.pc.p), Process.Resolved(t.answer, !IsTcp(s.pc.p));
    var log := s.log + Emits(cfg, s, t);
    assert log[|s.log|] == Resolved(key, pid, s.now);
    assert Attributed(log, key, pid, s.now);
  }

  lemma KeepsPcAtMatch(cfg: Config, s: State, t: Step)
    requires InvPc(cfg, s) && InvRules(s) && Enabled(cfg, s, t) && t.Match?
    ensures InvPc(cfg, Apply(cfg, s, t))
  {
    hide MustProxy, MustDrop, FinalAction, Examined;
    var Identified(p, pid, seen) := s.pc;
    ActionIsDemand(cfg, s.rules, p, pid, t.name);
    if FinalAction(cfg, s.rules, p, pid, t.name) == Proxy {
      var m := Marking(p, pid, seen, t.name, s.rules);
      MatchIsSound(cfg, s, t);
      assert MatchedAt(s.log + Emits(cfg, s, t), |s.log|, m);
    }
  }

  /** The action after the downgrades is the declarative decision. */
  lemma ActionIsDemand(cfg: Config, rules: seq<Rule>, p: Packet, pid: u32, name: Option<string>)
    requires Examined(cfg, p)
    ensures MustProxy(cfg, rules, p, pid, name) <==> FinalAction(cfg, rules, p, pid, name) == Proxy
    ensures MustDrop(cfg, rules, p, pid, name) <==> FinalAction(cfg, rules, p, pid, name) == Block
  {
    hide Decide, Proxiable, Examined;
  }

  /** The match step records what it used. */
  lemma MatchIsSound(cfg: Config, s: State, t: Step)
    requires InvPc(cfg, s) && InvRules(s) && Enabled(cfg, s, t) && t.Match?
    ensures var m := Marking(s.pc.p, s.pc.pid, s.pc.seen, t.name, s.rules);
      && Emits(cfg, s, t) != [] && Emits(cfg, s, t)[0] == Matched(m) && Sound(s.log, m)
      && MatchedAt(s.log + Emits(cfg, s, t), |s.log|, m)
  {
    hide FinalAction, Attributed, Examined;
    var m := Marking(s.pc.p, s.pc.pid, s.pc.seen, t.name, s.rules);
    var log := s.log + Emits(cfg, s, t);
    assert log[|s.log|] == Matched(m) && log[..|s.log|] == s.log;
  }

  /** How a step of at most two events changes the waiting match. */
  lemma PendingShort(log: seq<Event>, more: seq<Event>)
    requires |more| <= 2
    ensures Pending(log + more) ==
      if |more| == 0 then Pending(log)
      else if |more| == 1 then After(Pending(log), more[0])
      else After(After(Pending(log), more[0]), more[1])
  {
    hide After;
    var all := log + more;
    if |more| == 0 {
      assert all == log;
    } else if |more| == 1 {
      assert all[..|all| - 1] == log;
    } else {
      var init := all[..|all| - 1];
      assert init[..|init| - 1] == log;
    }
  }

  lemma KeepsPending(cfg: Config, s: State, t: Step)
    requires InvPending(s) && Enabled(cfg, s, t)
    ensures InvPending(Apply(cfg, s, t))
  {
    hide Pending, RequestOf, Udp.Forwarded, FinalAction, PassesParsing, PassesTracking;
    hide Process.Resolved, Cached, MarkOf;
    PendingShort(s.log, Emits(cfg, s, t));
  }

  lemma LogExtends(cfg: Config, log: seq<Event>, more: seq<Event>)
    requires LogHolds(cfg, log)
    requires forall i :: 0 <= i < |more| ==> EventHolds(cfg, log + more[..i], more[i])
    ensures LogHolds(cfg, log + more)
  {
    hide EventHolds;
    var all := log + more;
    forall i | 0 <= i < |all| ensures EventHolds(cfg, all[..i], all[i]) {
      if i < |log| {
        assert all[..i] == log[..i];
      } else {
        assert all[..i] == log + more[..i - |log|];
      }
    }
  }

  lemma KeepsLog(cfg: Config, s: State, t: Step)
    requires LogHolds(cfg, s.log) && InvPc(cfg, s) && InvPending(s) && InvRules(s)
    requires InvTable(cfg, s) && InvTasks(cfg, s) && Enabled(cfg, s, t)
    ensures LogHolds(cfg, Apply(cfg, s, t).log)
  {
    hide EventHolds, Emits, LogHolds;
    var more := Emits(cfg, s, t);
    forall i | 0 <= i < |more| ensures EventHolds(cfg, s.log + more[..i], more[i]) {
      match t
      case Match(_) => MatchEvents(cfg, s, t, i);
      case Release => ReleaseEvents(cfg, s, t, i);
      case HandshakeTask(_, _) => HandshakeEvents(cfg, s, t, i);
      case HttpTask(_) => HttpEvents(cfg, s, t, i);
      case UdpClient(_, _) => UdpEvents(cfg, s, t, i);
      case _ => PlainEvents(cfg, s, t, i);
    }
    LogExtends(cfg, s.log, more);
  }

  lemma PlainEvents(cfg: Config, s: State, t: Step, i: nat)
    requires InvPending(s) && Enabled(cfg, s, t) && i < |Emits(cfg, s, t)|
    requires !t.Match? && !t.Release? && !t.HandshakeTask? && !t.HttpTask? && !t.UdpClient?
    ensures EventHolds(cfg, s.log + Emits(cfg, s, t)[..i], Emits(cfg, s, t)[i])
  {
    hide Pending, PassesParsing, PassesTracking, FinalAction, Process.Resolved, Backed, Demand;
    PendingShort(s.log, Emits(cfg, s, t)[..i]);
  }

  lemma ReleaseEvents(cfg: Config, s: State, t: Step, i: nat)
    requires InvPc(cfg, s) && InvPending(s) && Enabled(cfg, s, t) && t.Release? && i < |Emits(cfg, s, t)|
    ensures EventHolds(cfg, s.log + Emits(cfg, s, t)[..i], Emits(cfg, s, t)[i])
  {
    hide Pending, Proxied, MarkOf;
    assert s.log + Emits(cfg, s, t)[..i] == s.log;
  }

  lemma MatchEvents(cfg: Config, s: State, t: Step, i: nat)
    requires InvPc(cfg, s) && InvPending(s) && InvRules(s) && Enabled(cfg, s, t) && t.Match? && i < |Emits(cfg, s, t)|
    ensures EventHolds(cfg, s.log + Emits(cfg, s, t)[..i], Emits(cfg, s, t)[i])
  {
    hide MustProxy, MustDrop, FinalAction, Examined, Pending, Sound, MarkOf;
    var Identified(p, pid, seen) := s.pc;
    ActionIsDemand(cfg, s.rules, p, pid, t.name);
    MatchIsSound(cfg, s, t);
    PendingShort(s.log, Emits(cfg, s, t)[..i]);
    if i == 0 {
      assert s.log + Emits(cfg, s, t)[..i] == s.log;
    }
  }

  /** A request on the wire is the CONNECT for the destination the relay looked up. */
  lemma RequestIsConnect(cfg: Config, task: Task, wire: Wire)
    requires wire.sent == [] && RequestOf(cfg, task, wire).Some?
    ensures RequestOf(cfg, task, wire) == Some(ConnectRequest(task.ip, task.destPort))
  {
    hide Handshake, BeforeRequest, ConnectRequest, Negotiated;
    var c := Tcp.CredentialsOf(cfg.proxy);
    var request := ConnectRequest(task.ip, task.destPort);
    SentIsScript(wire, c, request);
    var before := BeforeRequest(wire.input, c);
    var sent := Handshake(wire, c, request).0.sent;
    assert sent == Cut(Script(wire.input, c, request), wire.room);
    assert sent == before + request;
  }

  lemma HandshakeEvents(cfg: Config, s: State, t: Step, i: nat)
    requires InvTasks(cfg, s) && Enabled(cfg, s, t) && t.HandshakeTask? && i < |Emits(cfg, s, t)|
    ensures EventHolds(cfg, s.log + Emits(cfg, s, t)[..i], Emits(cfg, s, t)[i])
  {
    hide RequestOf, ConnectRequest, Backed;
    var task := s.tasks[t.i];
    RequestIsConnect(cfg, task, t.wire);
    assert s.log + Emits(cfg, s, t)[..i] == s.log;
    assert Backed(cfg, s.log, task.port, task.ip, task.destPort);
  }

  lemma HttpEvents(cfg: Config, s: State, t: Step, i: nat)
    requires InvTasks(cfg, s) && Enabled(cfg, s, t) && t.HttpTask? && i < |Emits(cfg, s, t)|
    ensures EventHolds(cfg, s.log + Emits(cfg, s, t)[..i], Emits(cfg, s, t)[i])
  {
    hide Backed;
    assert s.log + Emits(cfg, s, t)[..i] == s.log;
    assert Backed(cfg, s.log, s.tasks[t.i].port, s.tasks[t.i].ip, s.tasks[t.i].destPort);
  }

  lemma UdpEvents(cfg: Config, s: State, t: Step, i: nat)
    requires InvTable(cfg, s) && Enabled(cfg, s, t) && t.UdpClient? && i < |Emits(cfg, s, t)|
    ensures EventHolds(cfg, s.log + Emits(cfg, s, t)[..i], Emits(cfg, s, t)[i])
  {
    hide Backed;
    var port := t.client.value.port;
    var dest := Destination(s.tracker, port).value;
    assert s.log + Emits(cfg, s, t)[..i] == s.log;
    assert Backed(cfg, s.log, port, dest.0, dest.1);
    var packet := UdpPacket(dest.0, dest.1, t.client.value.data);
    assert Emits(cfg, s, t)[i] == Forwarded(port, packet);
    assert packet == UdpPacket(dest.0, dest.1, packet[10..]);
  }

  lemma KeepsInv(cfg: Config, s: State, t: Step)
    requires Inv(cfg, s) && Enabled(cfg, s, t)
    ensures Inv(cfg, Apply(cfg, s, t))
  {
    hide Apply, Enabled, InvRules, InvCache, InvPc, InvPending, InvTable, InvTasks, InvClock, InvUdp, LogHolds;
    KeepsRules(cfg, s, t);
    KeepsCache(cfg, s, t);
    KeepsPc(cfg, s, t);
    KeepsPending(cfg, s, t);
    KeepsTable(cfg, s, t);
    KeepsTasks(cfg, s, t);
    KeepsClock(cfg, s, t);
    KeepsUdp(cfg, s, t);
    KeepsLog(cfg, s, t);
  }

  /** The invariant holds after every run. */
  lemma {:induction false} RunInv(cfg: Config, start: nat, steps: seq<Step>)
    requires Run(cfg, start, steps).Some?
    ensures Inv(cfg, Run(cfg, start, steps).value)
  {
    if steps == [] {
    } else {
      hide Inv, Enabled, Apply;
      RunInv(cfg, start, steps[..|steps| - 1]);
      KeepsInv(cfg, Run(cfg, start, steps[..|steps| - 1]).value, steps[|steps| - 1]);
    }
  }
}

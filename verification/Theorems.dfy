/** What holds in every run of the bridge. */
module Theorems {
  import opened Common
  import opened AddressPattern
  import opened Rules
  import opened Connection
  import opened Socks5
  import opened Socks5Server
  import opened Classifier
  import opened Interception
  import Process
  import Tcp = TcpRelay
  import Udp = UdpRelay

  // --- Provenance ---

  /** Every CONNECT on the wire for a client port carries, in bytes 4..10, bytes 16..20 and ihl+2..ihl+4 of an
      earlier intercepted packet with that source port. When it was matched against the rules in force, the packet
      met the exact condition for proxying, with a pid the resolvers had reported for its connection. */
  lemma ConnectProvenance(cfg: Config, start: nat, steps: seq<Step>, i: nat)
    requires Run(cfg, start, steps).Some?
    requires var log := Run(cfg, start, steps).value.log; i < |log| && log[i].Requested?
    ensures var log := Run(cfg, start, steps).value.log;
      exists j: nat, m :: j < i && MatchedAt(log[..i], j, m) && Carries(log[i].request, m.p)
        && SrcPort(m.p) == log[i].port && MustProxy(cfg, m.rules, m.p, m.pid, m.name)
  {
    hide MustProxy, ConnectRequest, Carries;
    RunInv(cfg, start, steps);
    var log := Run(cfg, start, steps).value.log;
    assert EventHolds(cfg, log[..i], log[i]);
    var ip: u32, port: u16 :|
      Backed(cfg, log[..i], log[i].port, ip, port) && log[i].request == ConnectRequest(ip, port);
    var j: nat, m :| MatchedAt(log[..i], j, m) && Proxied(cfg, m)
      && SrcPort(m.p) == log[i].port && DestIp(m.p) == ip && DestPort(m.p) == port;
    ConnectCarries(m.p);
  }

  /** The ten bytes of a CONNECT request for the destination of `p`. */
  predicate Carries(request: seq<byte>, p: Packet) {
    && |request| == 10
    && request[..4] == [5, 1, 0, 1]
    && request[4..8] == p[16..20]
    && request[8..10] == p[Ihl(p) + 2..Ihl(p) + 4]
    && DecodeRequest(request) == Some(Request(CMD_CONNECT, DestIp(p), DestPort(p)))
  }

  lemma ConnectCarries(p: Packet)
    ensures Carries(ConnectRequest(DestIp(p), DestPort(p)), p)
  {
    U32NeRoundTrip(p[16..20]);
    U16BeRoundTrip(p[Ihl(p) + 2..Ihl(p) + 4]);
    RequestDecodes(DestIp(p), DestPort(p));
    var r := ConnectRequest(DestIp(p), DestPort(p));
    assert r[..4] == [5, 1, 0, 1] && r[4..8] == U32Ne(DestIp(p)) && r[8..10] == U16Be(DestPort(p));
  }

  /** Datagrams forwarded to the proxy carry the destination of an earlier packet that had to be proxied. */
  lemma ForwardProvenance(cfg: Config, start: nat, steps: seq<Step>, i: nat)
    requires Run(cfg, start, steps).Some?
    requires var log := Run(cfg, start, steps).value.log; i < |log| && log[i].Forwarded?
    ensures var log := Run(cfg, start, steps).value.log;
      exists j: nat, m :: j < i && MatchedAt(log[..i], j, m) && SrcPort(m.p) == log[i].port
        && MustProxy(cfg, m.rules, m.p, m.pid, m.name)
        && ParseUdpPacket(log[i].packet) == Some((DestIp(m.p), DestPort(m.p), 10))
  {
    hide MustProxy, UdpPacket, ParseUdpPacket;
    RunInv(cfg, start, steps);
    var log := Run(cfg, start, steps).value.log;
    assert EventHolds(cfg, log[..i], log[i]);
    var packet := log[i].packet;
    var ip: u32, port: u16 :|
      Backed(cfg, log[..i], log[i].port, ip, port) && packet == UdpPacket(ip, port, packet[10..]);
    UdpBuildThenParse(ip, port, packet[10..]);
    var j: nat, m :| MatchedAt(log[..i], j, m) && Proxied(cfg, m)
      && SrcPort(m.p) == log[i].port && DestIp(m.p) == ip && DestPort(m.p) == port;
  }

  /** The match at `j` is the last one, and nothing was answered since. */
  ghost predicate LastMatch(log: seq<Event>, j: nat, m: Marking) {
    MatchedAt(log, j, m) && forall k :: j < k < |log| ==> !log[k].Matched? && !log[k].Answered?
  }

  lemma {:induction false} PendingIsLast(log: seq<Event>) returns (j: nat)
    requires Pending(log).Some?
    ensures j < |log| && log[j] == Matched(Pending(log).value)
    ensures forall k :: j < k < |log| ==> !log[k].Matched? && !log[k].Answered?
  {
    var init := log[..|log| - 1];
    if log[|log| - 1].Matched? {
      j := |log| - 1;
    } else {
      j := PendingIsLast(init);
      assert forall k :: 0 <= k < |init| ==> log[k] == init[k];
    }
  }

  /** A drop or a mark is only given to the packet matched last, and is the answer which that match demands. */
  lemma VerdictProvenance(cfg: Config, start: nat, steps: seq<Step>, i: nat)
    requires Run(cfg, start, steps).Some?
    requires var log := Run(cfg, start, steps).value.log; i < |log| && log[i].Answered?
    ensures var log := Run(cfg, start, steps).value.log; var e := log[i];
      (e.verdict, e.mark) != (Accept, None) ==>
        exists j: nat, m :: LastMatch(log[..i], j, m) && m.p == e.payload && (e.verdict, e.mark) == Demand(cfg, m)
  {
    hide Demand, Sound, Pending;
    RunInv(cfg, start, steps);
    var log := Run(cfg, start, steps).value.log;
    assert EventHolds(cfg, log[..i], log[i]);
    if Pending(log[..i]).Some? {
      var j := PendingIsLast(log[..i]);
      assert EventHolds(cfg, log[..j], log[j]);
      assert log[..i][..j] == log[..j];
      assert LastMatch(log[..i], j, log[j].m);
    }
  }

  lemma MatchNeedsIdle(cfg: Config, log: seq<Event>, k: nat)
    requires LogHolds(cfg, log) && k < |log| && log[k].Matched?
    ensures Pending(log[..k]).None?
  {
    hide Sound, Pending;
    assert EventHolds(cfg, log[..k], log[k]);
  }

  /** While nothing is answered, a match keeps waiting and no other packet is matched. */
  lemma {:induction false} MatchWaits(cfg: Config, log: seq<Event>, j: nat, k: nat)
    requires LogHolds(cfg, log) && j < k <= |log| && log[j].Matched?
    requires forall l :: j < l < k ==> !log[l].Answered?
    ensures Pending(log[..k]) == Some(log[j].m)
  {
    hide LogHolds;
    assert log[..k][..k - 1] == log[..k - 1];
    if k == j + 1 {
    } else {
      MatchWaits(cfg, log, j, k - 1);
      if log[k - 1].Matched? { MatchNeedsIdle(cfg, log, k - 1); }
    }
  }

  lemma InvParts(cfg: Config, s: State)
    requires Inv(cfg, s)
    ensures InvPc(cfg, s) && InvPending(s) && LogHolds(cfg, s.log) && KeyedByPort(s.tracker)
  {
    hide InvPc, InvPending, LogHolds;
  }

  ghost predicate FirstAnswer(log: seq<Event>, j: nat, k: nat) {
    j < k < |log| && log[k].Answered? && forall l :: j < l < k ==> !log[l].Answered?
  }

  lemma FirstAnswerMeets(cfg: Config, log: seq<Event>, j: nat)
    requires LogHolds(cfg, log) && j < |log| && log[j].Matched?
    ensures var m := log[j].m;
      forall k: nat :: FirstAnswer(log, j, k) ==> log[k] == Answered(m.p, Demand(cfg, m).0, Demand(cfg, m).1)
  {
    hide Demand, Sound, Pending;
    var m := log[j].m;
    forall k: nat | FirstAnswer(log, j, k) ensures log[k] == Answered(m.p, Demand(cfg, m).0, Demand(cfg, m).1) {
      MatchWaits(cfg, log, j, k);
      assert EventHolds(cfg, log[..k], log[k]);
    }
  }

  /** Every match is answered as it demands: with the mark, with a drop, or with a plain accept. Until then the
      thread is about to insert or to release the matched packet. */
  lemma MatchIsAnswered(cfg: Config, start: nat, steps: seq<Step>, j: nat, m: Marking)
    requires Run(cfg, start, steps).Some?
    requires var log := Run(cfg, start, steps).value.log; j < |log| && log[j] == Matched(m)
    ensures var log := Run(cfg, start, steps).value.log;
      forall k: nat :: FirstAnswer(log, j, k) ==> log[k] == Answered(m.p, Demand(cfg, m).0, Demand(cfg, m).1)
    ensures var s := Run(cfg, start, steps).value;
      (forall k: nat :: !FirstAnswer(s.log, j, k)) ==> s.pc in {Inserting(m), Marked(m)} && Proxied(cfg, m)
  {
    hide Demand, Pending, Proxied, Run, Inv, LogHolds, MatchedAt, Examined, FirstAnswer;
    RunInv(cfg, start, steps);
    var s := Run(cfg, start, steps).value;
    InvParts(cfg, s);
    FirstAnswerMeets(cfg, s.log, j);
    if forall k: nat :: !FirstAnswer(s.log, j, k) {
      NoAnswer(s.log, j, |s.log|);
      MatchWaits(cfg, s.log, j, |s.log|);
      assert s.log[..|s.log|] == s.log;
    }
  }

  /** Without a first answer there is no answer. */
  lemma {:induction false} NoAnswer(log: seq<Event>, j: nat, k: nat)
    requires k <= |log| && forall l: nat :: !FirstAnswer(log, j, l)
    ensures forall l :: j < l < k ==> !log[l].Answered?
  {
    if k == 0 {
    } else {
      NoAnswer(log, j, k - 1);
      assert !FirstAnswer(log, j, k - 1);
    }
  }

  /** A packet matched for no process or for the bridge itself is accepted unmarked. */
  lemma OwnTrafficPasses(cfg: Config, start: nat, steps: seq<Step>, j: nat, k: nat, m: Marking)
    requires Run(cfg, start, steps).Some? && m.pid in {0, cfg.currentPid}
    requires var log := Run(cfg, start, steps).value.log; j < |log| && log[j] == Matched(m) && FirstAnswer(log, j, k)
    ensures Run(cfg, start, steps).value.log[k] == Answered(m.p, Accept, None)
  {
    hide Run, FirstAnswer, Decide, Proxiable, Examined;
    MatchIsAnswered(cfg, start, steps, j, m);
  }

  /** A packet accepted without a match had no claim to one: its process is never looked up, no rule is enabled, or its
      port is tracked at that very step. */
  lemma EarlyAcceptIsDue(cfg: Config, start: nat, steps: seq<Step>, k: nat, i: nat)
    requires Run(cfg, start, steps).Some? && k < |steps|
    requires var s, t := StateAt(cfg, start, steps, k), StateAt(cfg, start, steps, k + 1);
      |s.log| <= i < |t.log| && t.log[i].Answered? && Pending(t.log[..i]).None?
    ensures var s, p := StateAt(cfg, start, steps, k), StateAt(cfg, start, steps, k + 1).log[i].payload;
      !Examined(cfg, p) || !HasActive(s.rules) || SrcPort(p) in s.tracker
  {
    hide Inv, InvPc, InvPending, Examined, Enabled, Run, StateAt, Emits, Pending;
    RunStep(cfg, start, steps, k + 1);
    var s, t := StateAt(cfg, start, steps, k), StateAt(cfg, start, steps, k + 1);
    InvParts(cfg, s);
    var more := Emits(cfg, s, steps[k]);
    assert t.log == s.log + more;
    assert t.log[..i] == s.log + more[..i - |s.log|];
    EarlyAccept(cfg, s, steps[k], i - |s.log|);
  }

  lemma EarlyAccept(cfg: Config, s: State, t: Step, i: nat)
    requires InvPending(s) && Enabled(cfg, s, t) && i < |Emits(cfg, s, t)| && Emits(cfg, s, t)[i].Answered?
    requires Pending(s.log + Emits(cfg, s, t)[..i]).None?
    ensures var p := Emits(cfg, s, t)[i].payload; !Examined(cfg, p) || !HasActive(s.rules) || SrcPort(p) in s.tracker
  {
    hide HasActive, IsSyn, Pending, RequestOf, Udp.Forwarded, FinalAction, Process.Resolved, SrcPort, DestPort;
    PendingShort(s.log, Emits(cfg, s, t)[..i]);
  }

  // --- The tracker over whole runs ---

  lemma {:induction false} RunPrefix(cfg: Config, start: nat, steps: seq<Step>, k: nat)
    requires Run(cfg, start, steps).Some? && k <= |steps|
    ensures Run(cfg, start, steps[..k]).Some?
    decreases |steps|
  {
    if k == |steps| {
      assert steps[..k] == steps;
    } else {
      var init := steps[..|steps| - 1];
      RunPrefix(cfg, start, init, k);
      assert init[..k] == steps[..k];
    }
  }

  /** The state of a run after `k` steps. */
  ghost function StateAt(cfg: Config, start: nat, steps: seq<Step>, k: nat): State
    requires k <= |steps|
  {
    match Run(cfg, start, steps[..k]) case Some(s) => s case None => Initial(start)
  }

  ghost function TrackerAt(cfg: Config, start: nat, steps: seq<Step>, k: nat): Connections
    requires k <= |steps|
  {
    StateAt(cfg, start, steps, k).tracker
  }

  /** The insertion is a separate lock section from the check, yet no step overwrites a live entry. */
  lemma NeverOverwrites(cfg: Config, s: State, t: Step, p: u16)
    requires Inv(cfg, s) && Enabled(cfg, s, t) && p in s.tracker && p in Apply(cfg, s, t).tracker
    ensures Apply(cfg, s, t).tracker[p] == s.tracker[p]
  {
    hide InvRules, InvCache, InvPending, InvTable, InvTasks, InvClock, InvUdp, LogHolds, Placed, Examined, Udp.Delivers;
    hide Emits, NextPc, NextTasks, NextUdp, NextCache, InfoOf;
    assert InvPc(cfg, s);
  }

  /** Consecutive states of a run. */
  lemma RunStep(cfg: Config, start: nat, steps: seq<Step>, b: nat)
    requires Run(cfg, start, steps).Some? && 0 < b <= |steps|
    ensures var s := StateAt(cfg, start, steps, b - 1);
      && Run(cfg, start, steps[..b - 1]) == Some(s) && Run(cfg, start, steps[..b]) == Some(Apply(cfg, s, steps[b - 1]))
      && Inv(cfg, s) && Enabled(cfg, s, steps[b - 1]) && StateAt(cfg, start, steps, b) == Apply(cfg, s, steps[b - 1])
  {
    hide Inv, Enabled, Apply;
    RunPrefix(cfg, start, steps, b);
    RunPrefix(cfg, start, steps, b - 1);
    var prefix := steps[..b];
    assert prefix[..b - 1] == steps[..b - 1] && prefix[|prefix| - 1] == steps[b - 1];
    RunInv(cfg, start, steps[..b - 1]);
  }

  /** A tracked port keeps its entry from insertion to removal. */
  lemma {:induction false} BindingIsStable(cfg: Config, start: nat, steps: seq<Step>, a: nat, b: nat, p: u16)
    requires Run(cfg, start, steps).Some? && a <= b <= |steps|
    requires forall k: nat :: a <= k <= b ==> p in TrackerAt(cfg, start, steps, k)
    ensures TrackerAt(cfg, start, steps, a)[p] == TrackerAt(cfg, start, steps, b)[p]
    decreases b
  {
    hide TrackerAt, Run;
    if a == b {
    } else {
      BindingIsStable(cfg, start, steps, a, b - 1, p);
      BindingStep(cfg, start, steps, b, p);
    }
  }

  lemma BindingStep(cfg: Config, start: nat, steps: seq<Step>, b: nat, p: u16)
    requires Run(cfg, start, steps).Some? && 0 < b <= |steps|
    requires p in TrackerAt(cfg, start, steps, b - 1) && p in TrackerAt(cfg, start, steps, b)
    ensures TrackerAt(cfg, start, steps, b - 1)[p] == TrackerAt(cfg, start, steps, b)[p]
  {
    hide Inv, Enabled, Apply, Run;
    RunStep(cfg, start, steps, b);
    NeverOverwrites(cfg, Run(cfg, start, steps[..b - 1]).value, steps[b - 1], p);
  }

  /** No tracked destination is broadcast, multicast, loopback or link-local. */
  lemma TrackedIsProxiable(cfg: Config, start: nat, steps: seq<Step>, p: u16)
    requires Run(cfg, start, steps).Some? && p in Run(cfg, start, steps).value.tracker
    ensures !IsBroadcastOrMulticast(Run(cfg, start, steps).value.tracker[p].destIp)
    ensures !MatchIpList(RESERVED_HOSTS, Run(cfg, start, steps).value.tracker[p].destIp)
  {
    hide IsBroadcastOrMulticast, MatchIpList;
    RunInv(cfg, start, steps);
    var s := Run(cfg, start, steps).value;
    var info := s.tracker[p];
    assert Backed(cfg, s.log, p, info.destIp, info.destPort);
    var j: nat, m :| MatchedAt(s.log, j, m) && Proxied(cfg, m)
      && SrcPort(m.p) == p && DestIp(m.p) == info.destIp && DestPort(m.p) == info.destPort;
    ReservedExactly(info.destIp);
  }

  /** Reverse lookup is exact in every reachable state. */
  lemma ReverseLookup(cfg: Config, start: nat, steps: seq<Step>, ip: u32, port: u16, r: Option<u16>)
    requires Run(cfg, start, steps).Some? && FoundByDest(Run(cfg, start, steps).value.tracker, ip, port, r)
    ensures var c := Run(cfg, start, steps).value.tracker;
      && (r.Some? ==> Destination(c, r.value) == Some((ip, port)))
      && (r.Some? <==> exists k :: k in c && Destination(c, k) == Some((ip, port)))
  {
    RunInv(cfg, start, steps);
    FindThenGet(Run(cfg, start, steps).value.tracker, ip, port, r);
  }

  /** While cleanups come at most 30 s apart, every entry is younger than 90 s; in any case an entry is younger than
      60 s plus the time since the last cleanup. */
  lemma EntryAge(cfg: Config, start: nat, steps: seq<Step>, p: u16)
    requires Run(cfg, start, steps).Some? && p in Run(cfg, start, steps).value.tracker
    ensures var s := Run(cfg, start, steps).value; var age := s.now - s.tracker[p].lastActivity;
      && 0 <= age < 60_000 + (s.now - s.lastCleanup)
      && (s.now - s.lastCleanup <= 30_000 ==> age < 90_000)
  {
    hide InvRules, InvCache, InvPc, InvPending, InvTable, InvTasks, InvUdp, LogHolds;
    RunInv(cfg, start, steps);
  }

  /** Only the cleanup removes entries, and only those at least 60 s old. */
  lemma NoEarlyRemoval(cfg: Config, start: nat, steps: seq<Step>, t: Step, p: u16)
    requires Run(cfg, start, steps).Some? && Enabled(cfg, Run(cfg, start, steps).value, t)
    requires p in Run(cfg, start, steps).value.tracker
    ensures var s := Run(cfg, start, steps).value;
      p !in Apply(cfg, s, t).tracker <==> t.CleanTracker? && s.now - s.tracker[p].lastActivity >= 60_000
  {
    hide InvRules, InvCache, InvPc, InvPending, InvTable, InvTasks, InvUdp, LogHolds;
    hide Emits, NextPc, NextTasks, NextUdp, NextCache;
    RunInv(cfg, start, steps);
  }

  /** The pid cleanup cannot be observed: now and later, every lookup answers as without it. */
  lemma PidCleanupIsUnobservable(cfg: Config, start: nat, steps: seq<Step>, key: PidCacheKey, later: nat)
    requires Run(cfg, start, steps).Some? && Run(cfg, start, steps).value.now <= later
    ensures var s := Run(cfg, start, steps).value;
      Cached(Apply(cfg, s, CleanPids).cache, key, later) == Cached(s.cache, key, later)
  {
    hide InvRules, InvPc, InvPending, InvTable, InvTasks, InvClock, InvUdp, LogHolds;
    hide Emits, NextPc, NextTracker, NextTasks, NextUdp;
    RunInv(cfg, start, steps);
  }

  // --- Conservation ---

  function InterceptedBy(e: Event): seq<Payload> {
    match e case Intercepted(p) => [p] case _ => []
  }

  function AnsweredBy(e: Event): seq<Payload> {
    match e case Answered(p, _, _) => [p] case _ => []
  }

  function InterceptedIn(log: seq<Event>): seq<Payload> {
    if log == [] then [] else InterceptedIn(log[..|log| - 1]) + InterceptedBy(log[|log| - 1])
  }

  function AnsweredIn(log: seq<Event>): seq<Payload> {
    if log == [] then [] else AnsweredIn(log[..|log| - 1]) + AnsweredBy(log[|log| - 1])
  }

  function InHand(pc: Pc): seq<Payload> {
    match pc
    case Idle => []
    case Received(p) => [p]
    case Checking(p) => [p]
    case Untracked(p) => [p]
    case Missed(p) => [p]
    case Identified(p, _, _) => [p]
    case Inserting(m) => [m.p]
    case Marked(m) => [m.p]
  }

  lemma {:induction false} LogsConcat(a: seq<Event>, b: seq<Event>)
    ensures InterceptedIn(a + b) == InterceptedIn(a) + InterceptedIn(b)
    ensures AnsweredIn(a + b) == AnsweredIn(a) + AnsweredIn(b)
  {
    if b == [] {
      assert a + b == a;
    } else {
      hide InterceptedBy, AnsweredBy;
      var init := b[..|b| - 1];
      assert (a + b)[..|a + b| - 1] == a + init;
      LogsConcat(a, init);
    }
  }

  lemma LogOfOne(e: Event)
    ensures InterceptedIn([e]) == InterceptedBy(e) && AnsweredIn([e]) == AnsweredBy(e)
  {
    hide InterceptedBy, AnsweredBy;
    assert [e][..0] == [];
  }

  lemma ShortLog(e: seq<Event>)
    requires |e| <= 2
    ensures InterceptedIn(e) ==
      if |e| == 0 then [] else if |e| == 1 then InterceptedBy(e[0]) else InterceptedBy(e[0]) + InterceptedBy(e[1])
    ensures AnsweredIn(e) ==
      if |e| == 0 then [] else if |e| == 1 then AnsweredBy(e[0]) else AnsweredBy(e[0]) + AnsweredBy(e[1])
  {
    hide InterceptedBy, AnsweredBy;
    if |e| == 1 {
      LogOfOne(e[0]);
      assert e == [e[0]];
    } else if |e| == 2 {
      LogOfOne(e[0]);
      LogOfOne(e[1]);
      LogsConcat([e[0]], [e[1]]);
      assert e == [e[0]] + [e[1]];
    }
  }

  lemma ElsewhereIsSilent(cfg: Config, s: State, t: Step)
    requires Elsewhere(t)
    ensures NextPc(cfg, s, t) == s.pc && |Emits(cfg, s, t)| <= 1
    ensures |Emits(cfg, s, t)| == 1 ==>
      InterceptedBy(Emits(cfg, s, t)[0]) == [] && AnsweredBy(Emits(cfg, s, t)[0]) == []
  {
    hide RequestOf, Udp.Forwarded;
  }

  /** A step of the NFQUEUE thread takes a packet in hand, keeps it, or answers it last. */
  lemma ThreadShape(cfg: Config, s: State, t: Step)
    requires !Elsewhere(t) && !t.Recv? && Enabled(cfg, s, t)
    ensures var e := Emits(cfg, s, t); var next := NextPc(cfg, s, t); var p := InHand(s.pc);
      && |e| <= 2 && (forall i :: 0 <= i < |e| ==> InterceptedBy(e[i]) == [])
      && (|e| == 2 ==> AnsweredBy(e[0]) == [])
      && (if |e| > 0 && AnsweredBy(e[|e| - 1]) != [] then AnsweredBy(e[|e| - 1]) == p && InHand(next) == []
          else InHand(next) == p)
  {
    hide PassesParsing, PassesTracking, FinalAction, Process.Resolved, Cached, HasIpHeader, MarkOf, KeyOf;
  }

  lemma RecvShape(cfg: Config, s: State, t: Step)
    requires t.Recv? && Enabled(cfg, s, t)
    ensures var e := Emits(cfg, s, t); var next := NextPc(cfg, s, t);
      && InHand(s.pc) == [] && 1 <= |e| <= 2 && InterceptedBy(e[0]) == [t.payload] && AnsweredBy(e[0]) == []
      && (if |e| == 2 then AnsweredBy(e[1]) == [t.payload] && InterceptedBy(e[1]) == [] && InHand(next) == []
          else InHand(next) == [t.payload])
  {
  }

  lemma ThreadBalance(cfg: Config, s: State, t: Step)
    requires !Elsewhere(t) && Enabled(cfg, s, t)
    ensures var e := Emits(cfg, s, t);
      InHand(s.pc) + InterceptedIn(e) == AnsweredIn(e) + InHand(NextPc(cfg, s, t))
  {
    hide Enabled, Emits, NextPc, InHand, InterceptedIn, AnsweredIn, InterceptedBy, AnsweredBy;
    if t.Recv? { RecvShape(cfg, s, t); } else { ThreadShape(cfg, s, t); }
    ShortLog(Emits(cfg, s, t));
  }

  lemma StepBalance(cfg: Config, s: State, t: Step)
    requires Enabled(cfg, s, t)
    ensures var e := Emits(cfg, s, t);
      InHand(s.pc) + InterceptedIn(e) == AnsweredIn(e) + InHand(NextPc(cfg, s, t))
  {
    hide Enabled, Emits, NextPc, InterceptedIn, AnsweredIn, InHand;
    if Elsewhere(t) {
      ElsewhereIsSilent(cfg, s, t);
      ShortLog(Emits(cfg, s, t));
    } else {
      ThreadBalance(cfg, s, t);
    }
  }

  lemma BalanceAdds(a: seq<Event>, e: seq<Event>, before: seq<Payload>, after: seq<Payload>)
    requires InterceptedIn(a) == AnsweredIn(a) + before && before + InterceptedIn(e) == AnsweredIn(e) + after
    ensures InterceptedIn(a + e) == AnsweredIn(a + e) + after
  {
    hide InterceptedIn, AnsweredIn;
    LogsConcat(a, e);
    assert (AnsweredIn(a) + before) + InterceptedIn(e) == AnsweredIn(a) + (before + InterceptedIn(e));
    assert (AnsweredIn(a) + AnsweredIn(e)) + after == AnsweredIn(a) + (AnsweredIn(e) + after);
  }

  /** Every intercepted packet gets exactly one verdict, in order; at most one is in hand. */
  lemma {:induction false} OneVerdictEach(cfg: Config, start: nat, steps: seq<Step>)
    requires Run(cfg, start, steps).Some?
    ensures var s := Run(cfg, start, steps).value; InterceptedIn(s.log) == AnsweredIn(s.log) + InHand(s.pc)
    decreases |steps|
  {
    if steps == [] {
      assert Run(cfg, start, steps) == Some(Initial(start));
    } else {
      hide Run, Inv, Enabled, Emits, NextPc, InterceptedIn, AnsweredIn, InHand;
      hide NextTracker, NextCache, NextTasks, NextUdp;
      var init, t := steps[..|steps| - 1], steps[|steps| - 1];
      RunStep(cfg, start, steps, |steps|);
      assert steps[..|steps|] == steps;
      OneVerdictEach(cfg, start, init);
      var s := Run(cfg, start, init).value;
      StepBalance(cfg, s, t);
      BalanceAdds(s.log, Emits(cfg, s, t), InHand(s.pc), InHand(NextPc(cfg, s, t)));
    }
  }

  // --- UDP replies ---

  /** No client datagram is read without an association. */
  lemma ReadsNeedAssociation(cfg: Config, start: nat, steps: seq<Step>, t: Step)
    requires Run(cfg, start, steps).Some? && Enabled(cfg, Run(cfg, start, steps).value, t) && t.UdpClient?
    ensures Run(cfg, start, steps).value.udp.relayAddr.Some? && Run(cfg, start, steps).value.udp.sendSock
  {
    hide InvRules, InvCache, InvPc, InvPending, InvTable, InvTasks, InvClock, LogHolds;
    RunInv(cfg, start, steps);
  }

  /** A datagram that a tracked client sends at step `a` is forwarded to its destination. Fed back under the same
      header at step `b`, it is delivered to the same client with the same data, if the entry survived and no other
      tracked port has the destination. */
  lemma EchoReturns(cfg: Config, start: nat, steps: seq<Step>, a: nat, b: nat, p: u16, data: seq<byte>)
    requires Run(cfg, start, steps).Some? && a < b < |steps|
    requires steps[a] == UdpClient(Some(Udp.FromClient(p, data)), true)
    requires forall k: nat :: a <= k <= b ==> p in TrackerAt(cfg, start, steps, k)
    requires var c := TrackerAt(cfg, start, steps, b);
      forall k :: k in c && k != p ==> Destination(c, k) != Destination(c, p)
    ensures var sent := TrackerAt(cfg, start, steps, a)[p]; var packet := UdpPacket(sent.destIp, sent.destPort, data);
      && StateAt(cfg, start, steps, a + 1).log == StateAt(cfg, start, steps, a).log + [Forwarded(p, packet)]
      && (steps[b].UdpProxy? && steps[b].proxy == Some(packet) ==>
            StateAt(cfg, start, steps, b + 1).log
              == StateAt(cfg, start, steps, b).log + [Delivered(Udp.ToClient(p, data))])
  {
    hide Run, StateAt, Inv, Enabled, Apply, UdpPacket;
    RunStep(cfg, start, steps, a + 1);
    RunStep(cfg, start, steps, b + 1);
    var s, t := StateAt(cfg, start, steps, a), StateAt(cfg, start, steps, b);
    assert p in TrackerAt(cfg, start, steps, a) && p in TrackerAt(cfg, start, steps, b);
    ForwardStep(cfg, s, p, data);
    BindingIsStable(cfg, start, steps, a, b, p);
    var sent := s.tracker[p];
    if steps[b].UdpProxy? && steps[b].proxy == Some(UdpPacket(sent.destIp, sent.destPort, data)) {
      DeliverStep(cfg, t, p, data, steps[b].out);
    }
  }

  lemma ForwardStep(cfg: Config, s: State, p: u16, data: seq<byte>)
    requires p in s.tracker && Inv(cfg, s) && Enabled(cfg, s, UdpClient(Some(Udp.FromClient(p, data)), true))
    ensures Apply(cfg, s, UdpClient(Some(Udp.FromClient(p, data)), true)).log
      == s.log + [Forwarded(p, UdpPacket(s.tracker[p].destIp, s.tracker[p].destPort, data))]
  {
    hide InvRules, InvCache, InvPc, InvPending, InvTable, InvTasks, InvClock, LogHolds, UdpPacket;
    hide NextPc, NextTracker, NextCache, NextTasks, NextUdp;
  }

  lemma DeliverStep(cfg: Config, t: State, p: u16, data: seq<byte>, out: Option<Udp.ToClient>)
    requires Inv(cfg, t) && p in t.tracker
    requires forall k :: k in t.tracker && k != p ==> Destination(t.tracker, k) != Destination(t.tracker, p)
    requires var packet := UdpPacket(t.tracker[p].destIp, t.tracker[p].destPort, data);
      Enabled(cfg, t, UdpProxy(Some(packet), out))
    ensures var packet := UdpPacket(t.tracker[p].destIp, t.tracker[p].destPort, data);
      Apply(cfg, t, UdpProxy(Some(packet), out)).log == t.log + [Delivered(Udp.ToClient(p, data))]
  {
    hide InvRules, InvCache, InvPc, InvPending, InvTable, InvTasks, InvClock, LogHolds, UdpPacket, Udp.Delivers;
    hide NextPc, NextTracker, NextCache, NextTasks, NextUdp;
    InvParts(cfg, t);
    Udp.EchoReturnsExactly(t.tracker, t.tracker, Udp.Addr(0, 0), p, data);
  }

  // --- The machine and the loops of the relays ---

  /** What one turn of the UDP relay's loop leaves behind, as promised by `UdpRelay.Iterate`. */
  predicate Turned(s: State, t: State, addr: Option<Udp.Addr>, client: Option<Udp.FromClient>, sendOk: bool,
                   out: Option<Udp.ToClient>)
  {
    if addr.None? then t.udp == s.udp && t.log == s.log
    else
      var sent := Udp.Forwarded(s.tracker, addr.value, client);
      && t.udp == UdpState(Top, true, if sent.Some? && !sendOk then None else addr)
      && t.log == s.log
           + (if sent.Some? && sendOk then [Forwarded(client.value.port, sent.value.packet)] else [])
           + (if out.Some? then [Delivered(out.value)] else [])
  }

  /** The three steps of the UDP relay, run in a row, are one turn of its loop. */
  lemma UdpTurnIsIterate(cfg: Config, s: State, wire: Option<Wire>, bindOk: bool, client: Option<Udp.FromClient>,
                         sendOk: bool, proxy: Option<seq<byte>>, out: Option<Udp.ToClient>)
    requires s.udp.phase == Top && InvUdp(s) && cfg.proxy.proxyType == ProxyType.Socks5
    requires Udp.Delivers(s.tracker, proxy, out)
    ensures var addr := if s.udp.relayAddr.Some? then s.udp.relayAddr else Udp.Established(cfg.proxy, wire, bindOk);
      var first := if s.udp.relayAddr.Some? then UdpReady else UdpAssociate(addr);
      var a := Apply(cfg, s, first);
      && Enabled(cfg, s, first)
      && (addr.None? ==> Turned(s, a, addr, client, sendOk, out))
      && (addr.Some? ==>
            var b := Apply(cfg, a, UdpClient(client, sendOk));
            && Enabled(cfg, a, UdpClient(client, sendOk)) && Enabled(cfg, b, UdpProxy(proxy, out))
            && Turned(s, Apply(cfg, b, UdpProxy(proxy, out)), addr, client, sendOk, out))
  {
    hide Apply, Enabled, Emits, InvUdp, Udp.Established, Udp.Forwarded, Udp.Delivers;
    var addr := if s.udp.relayAddr.Some? then s.udp.relayAddr else Udp.Established(cfg.proxy, wire, bindOk);
    AssociateStep(cfg, s, addr);
    var a := Apply(cfg, s, if s.udp.relayAddr.Some? then UdpReady else UdpAssociate(addr));
    if addr.Some? {
      ClientStep(cfg, a, addr.value, client, sendOk);
      ProxyStep(cfg, Apply(cfg, a, UdpClient(client, sendOk)), proxy, out);
    }
  }

  lemma AssociateStep(cfg: Config, s: State, addr: Option<Udp.Addr>)
    requires s.udp.phase == Top && InvUdp(s) && cfg.proxy.proxyType == ProxyType.Socks5
    requires s.udp.relayAddr.Some? ==> addr == s.udp.relayAddr
    ensures var first := if s.udp.relayAddr.Some? then UdpReady else UdpAssociate(addr); var a := Apply(cfg, s, first);
      && Enabled(cfg, s, first) && a.log == s.log && a.tracker == s.tracker
      && a.udp == if addr.Some? then UdpState(AtClient, true, addr) else s.udp
  {
    hide NextPc, NextTracker, NextCache, NextTasks;
    var first := if s.udp.relayAddr.Some? then UdpReady else UdpAssociate(addr);
    assert NextTracker(s, first) == s.tracker by { OtherStepsKeepTracker(s, first); }
    assert s.log + [] == s.log;
  }

  lemma OtherStepsKeepTracker(s: State, t: Step)
    requires !t.Insert? && !t.CleanTracker?
    ensures NextTracker(s, t) == s.tracker
  {
  }

  lemma ClientStep(cfg: Config, a: State, addr: Udp.Addr, client: Option<Udp.FromClient>, sendOk: bool)
    requires a.udp == UdpState(AtClient, true, Some(addr))
    ensures var t := UdpClient(client, sendOk); var b := Apply(cfg, a, t);
      var sent := Udp.Forwarded(a.tracker, addr, client);
      && Enabled(cfg, a, t) && b.tracker == a.tracker && (sent.Some? ==> client.Some?)
      && b.udp == UdpState(AtProxy, true, if sent.Some? && !sendOk then None else Some(addr))
      && b.log == a.log + if sent.Some? && sendOk then [Forwarded(client.value.port, sent.value.packet)] else []
  {
    hide NextPc, NextTracker, NextCache, NextTasks;
    OtherStepsKeepTracker(a, UdpClient(client, sendOk));
  }

  lemma ProxyStep(cfg: Config, b: State, proxy: Option<seq<byte>>, out: Option<Udp.ToClient>)
    requires b.udp.phase == AtProxy && b.udp.sendSock && Udp.Delivers(b.tracker, proxy, out)
    ensures var t := UdpProxy(proxy, out); var c := Apply(cfg, b, t);
      && Enabled(cfg, b, t) && c.udp == b.udp.(phase := Top)
      && c.log == b.log + if out.Some? then [Delivered(out.value)] else []
  {
    hide NextPc, NextTracker, NextCache, NextTasks, Udp.Delivers;
  }

  /** A task does with its connection to the proxy what `TcpRelay.HandleTcpConnection` promises, and the request is
      logged exactly when it went out completely. */
  lemma TaskIsDispatch(cfg: Config, s: State, i: nat, wire: Wire, httpOk: bool)
    requires i < |s.tasks| && Enabled(cfg, s, HandshakeTask(i, wire))
    ensures var task := s.tasks[i]; var more := Emits(cfg, s, HandshakeTask(i, wire));
      var before := BeforeRequest(wire.input, Credentials(cfg.proxy.username, cfg.proxy.password));
      var d := Tcp.Dispatch(cfg.proxy, task.ip, task.destPort, Some(wire), httpOk).1;
      && d.Some?
      && more == (if |d.value.sent| < |before| + 10 then []
                  else [Requested(task.port, ConnectRequest(task.ip, task.destPort))])
      && (more != [] ==> d.value.sent == before + ConnectRequest(task.ip, task.destPort))
  {
    hide Handshake, ConnectRequest, BeforeRequest, ConnectOutcome;
    var task, c := s.tasks[i], Tcp.CredentialsOf(cfg.proxy);
    if RequestOf(cfg, task, wire).Some? { RequestIsConnect(cfg, task, wire); }
    var sent := Handshake(wire, c, ConnectRequest(task.ip, task.destPort)).0.sent;
    if |sent| >= |BeforeRequest(wire.input, c)| + 10 {
      SentIsScript(wire, c, ConnectRequest(task.ip, task.destPort));
      assert sent == Cut(Script(wire.input, c, ConnectRequest(task.ip, task.destPort)), wire.room);
    }
  }

  // --- The machine and the sequential loop ---

  /** The only step of the NFQUEUE thread that is possible, answered by `env`. */
  function NextOfThread(pc: Pc, env: Surroundings): Step
    requires !pc.Idle?
  {
    match pc
    case Received(_) => CheckActive
    case Checking(_) => CheckTracked
    case Untracked(_) => ReadCache
    case Missed(_) => Resolve(env.answer)
    case Identified(_, pid, _) => Match(env.nameOf(pid))
    case Inserting(_) => Insert
    case Marked(_) => Release
  }

  /** The time that passes before the next step, so that the clock is read as `env` says. */
  function Wait(s: State, env: Surroundings): nat {
    var due := match s.pc
               case Untracked(_) => env.lookupAt
               case Missed(_) => env.storeAt
               case Inserting(_) => env.addAt
               case _ => 0;
    if s.now < due then due - s.now else 0
  }

  function Ticked(cfg: Config, s: State, env: Surroundings): State {
    Apply(cfg, s, Tick(Wait(s, env)))
  }

  /** Time passes, then the thread moves. */
  function Move(cfg: Config, s: State, env: Surroundings): State
    requires !s.pc.Idle?
  {
    Apply(cfg, Ticked(cfg, s, env), NextOfThread(s.pc, env))
  }

  function Rank(pc: Pc): nat {
    match pc
    case Idle => 0
    case Marked(_) => 1
    case Inserting(_) => 2
    case Identified(_, _, _) => 3
    case Missed(_) => 4
    case Untracked(_) => 5
    case Checking(_) => 6
    case Received(_) => 7
  }

  /** The NFQUEUE thread runs on until its packet is answered. */
  function Finish(cfg: Config, s: State, env: Surroundings): State
    decreases Rank(s.pc)
  {
    if s.pc.Idle? then s
    else
      RankDrops(cfg, s, env);
      Finish(cfg, Move(cfg, s, env), env)
  }

  lemma TickStep(cfg: Config, s: State, env: Surroundings)
    ensures Ticked(cfg, s, env) == s.(now := s.now + Wait(s, env))
  {
    hide Wait;
    var t := Ticked(cfg, s, env);
    assert t.log == s.log;
  }

  lemma RankDrops(cfg: Config, s: State, env: Surroundings)
    requires !s.pc.Idle?
    ensures Rank(Move(cfg, s, env).pc) < Rank(s.pc)
  {
    hide Emits, NextTracker, NextCache, NextTasks, NextUdp, FinalAction, PassesParsing, PassesTracking, Cached;
    hide Process.Resolved, Wait, Ticked;
    TickStep(cfg, s, env);
  }

  /** The packet `p` has just been answered with verdict, mark and tables `e`. */
  predicate Ends(t: State, p: Payload, e: Effect) {
    && t.pc.Idle? && LastAnswer(t, p, e.verdict, e.mark)
    && t.tracker == e.tracker && t.cache == e.cache
  }

  predicate LastAnswer(t: State, p: Payload, verdict: Verdict, mark: Option<u32>) {
    t.log != [] && t.log[|t.log| - 1] == Answered(p, verdict, mark)
  }

  /** Only clock, position and log differ. */
  predicate SameTables(s: State, t: State) {
    t.tracker == s.tracker && t.cache == s.cache && t.rules == s.rules
  }

  /** What the sequential loop does with a packet attributed to `pid`. */
  function EffectOf(cfg: Config, s: State, p: Packet, pid: u32, env: Surroundings, cache: PidEntries): Effect {
    var name := env.nameOf(pid);
    if MustProxy(cfg, s.rules, p, pid, name)
    then Effect(Accept, Some(MarkOf(p)), s.tracker[SrcPort(p) := InfoOf(p, env.addAt)], cache)
    else Effect(if MustDrop(cfg, s.rules, p, pid, name) then Drop else Accept, None, s.tracker, cache)
  }

  lemma MatchStep(cfg: Config, s: State, env: Surroundings)
    requires s.pc.Identified?
    ensures var t := Move(cfg, s, env); var Identified(p, pid, seen) := s.pc;
      var action := FinalAction(cfg, s.rules, p, pid, env.nameOf(pid));
      && SameTables(s, t) && t.now == s.now
      && (if action == Proxy then t.pc == Inserting(Marking(p, pid, seen, env.nameOf(pid), s.rules))
          else t.pc == Idle && LastAnswer(t, p, if action == Block then Drop else Accept, None))
  {
    hide FinalAction, Ticked;
    TickStep(cfg, s, env);
  }

  lemma InsertStep(cfg: Config, s: State)
    requires s.pc.Inserting?
    ensures var p := s.pc.m.p; var t := Apply(cfg, s, Insert);
      t.pc == Marked(s.pc.m) && t.tracker == s.tracker[SrcPort(p) := InfoOf(p, s.now)] && t.cache == s.cache
  {
    hide InfoOf;
  }

  lemma ReleaseStep(cfg: Config, s: State, env: Surroundings)
    requires s.pc.Marked?
    ensures var p := s.pc.m.p; var t := Move(cfg, s, env);
      t.pc == Idle && LastAnswer(t, p, Accept, Some(MarkOf(p))) && t.tracker == s.tracker && t.cache == s.cache
  {
    hide MarkOf, Ticked;
    TickStep(cfg, s, env);
  }

  lemma FinishInserting(cfg: Config, s: State, env: Surroundings)
    requires s.pc.Inserting? && s.now <= env.addAt
    ensures var p := s.pc.m.p;
      Ends(Finish(cfg, s, env), p,
           Effect(Accept, Some(MarkOf(p)), s.tracker[SrcPort(p) := InfoOf(p, env.addAt)], s.cache))
  {
    hide MarkOf, InfoOf, Apply, Ticked, LastAnswer;
    TickStep(cfg, s, env);
    InsertStep(cfg, Ticked(cfg, s, env));
    var t := Move(cfg, s, env);
    ReleaseStep(cfg, t, env);
    StopsHere(cfg, Move(cfg, t, env), env);
    assert Finish(cfg, t, env) == Move(cfg, t, env);
  }

  lemma FinishIdentified(cfg: Config, s: State, env: Surroundings)
    requires s.pc.Identified? && Examined(cfg, s.pc.p) && s.now <= env.addAt
    ensures Ends(Finish(cfg, s, env), s.pc.p, EffectOf(cfg, s, s.pc.p, s.pc.pid, env, s.cache))
  {
    hide Decide, Proxiable, Examined, MarkOf, InfoOf, Move, LastAnswer;
    var p, pid := s.pc.p, s.pc.pid;
    var t := Move(cfg, s, env);
    MatchStep(cfg, s, env);
    ActionIsDemand(cfg, s.rules, p, pid, env.nameOf(pid));
    if t.pc.Inserting? {
      FinishInserting(cfg, t, env);
    } else {
      StopsHere(cfg, t, env);
    }
  }

  lemma StopsHere(cfg: Config, t: State, env: Surroundings)
    requires t.pc == Idle
    ensures Finish(cfg, t, env) == t
  {
  }

  lemma LookupStep(cfg: Config, s: State, env: Surroundings)
    requires s.pc.Untracked? && s.now <= env.lookupAt
    ensures var p := s.pc.p; var t := Move(cfg, s, env);
      && SameTables(s, t) && t.now == env.lookupAt
      && t.pc == match Cached(s.cache, KeyOf(p), env.lookupAt)
                 case Some(pid) => Identified(p, pid, env.lookupAt)
                 case None => Missed(p)
  {
    hide Emits, KeyOf, Cached, Ticked;
    TickStep(cfg, s, env);
  }

  lemma ResolveStep(cfg: Config, s: State, env: Surroundings)
    requires s.pc.Missed? && s.now <= env.storeAt
    ensures var p := s.pc.p; var t := Move(cfg, s, env); var pid := Process.Resolved(env.answer, KeyOf(p).isUdp);
      && t.tracker == s.tracker && t.rules == s.rules && t.now == env.storeAt && t.pc == Identified(p, pid, env.storeAt)
      && t.cache == if pid != 0 then s.cache[KeyOf(p) := PidCacheEntry(pid, env.storeAt)] else s.cache
  {
    hide Emits, Process.Resolved, Ticked, SrcIp, SrcPort;
    TickStep(cfg, s, env);
  }

  /** The clock is read in order, and not before `s`. */
  predicate Ordered(s: State, env: Surroundings) {
    s.now <= env.lookupAt <= env.storeAt <= env.addAt
  }

  lemma FinishUntracked(cfg: Config, s: State, env: Surroundings)
    requires s.pc.Untracked? && Examined(cfg, s.pc.p) && Ordered(s, env)
    ensures var p := s.pc.p; var pid := Process.LookupPid(s.cache, KeyOf(p), env.lookupAt, env.answer);
      Ends(Finish(cfg, s, env), p, EffectOf(cfg, s, p, pid, env,
        Process.Remembered(s.cache, KeyOf(p), env.lookupAt, env.storeAt, env.answer)))
  {
    hide Examined, MustProxy, MustDrop, FinalAction, MarkOf, InfoOf, Move, Ends, KeyOf, Cached;
    LookupStep(cfg, s, env);
    var t := Move(cfg, s, env);
    if t.pc.Missed? {
      ResolveStep(cfg, t, env);
      FinishIdentified(cfg, Move(cfg, t, env), env);
    } else {
      FinishIdentified(cfg, t, env);
    }
  }

  lemma RecvStep(cfg: Config, s: State, p: Payload)
    requires s.pc.Idle?
    ensures var t := Apply(cfg, s, Recv(p));
      && SameTables(s, t) && t.now == s.now
      && (if !HasIpHeader(p) then t.pc == Idle && LastAnswer(t, p, Accept, None) else t.pc == Received(p))
  {
  }

  lemma ActiveStep(cfg: Config, s: State, env: Surroundings)
    requires s.pc.Received?
    ensures var p := s.pc.raw; var t := Move(cfg, s, env);
      && SameTables(s, t) && t.now == s.now
      && (if PassesParsing(s.rules, p) then t.pc == Checking(p) else t.pc == Idle && LastAnswer(t, p, Accept, None))
  {
    hide PassesParsing, Ticked;
    TickStep(cfg, s, env);
  }

  lemma TrackedStep(cfg: Config, s: State, env: Surroundings)
    requires s.pc.Checking?
    ensures var p := s.pc.p; var t := Move(cfg, s, env);
      && SameTables(s, t) && t.now == s.now
      && (if PassesTracking(cfg, s.tracker, p) then t.pc == Untracked(p)
          else t.pc == Idle && LastAnswer(t, p, Accept, None))
  {
    hide PassesTracking, Ticked;
    TickStep(cfg, s, env);
  }

  /** The contract of the sequential loop. */
  function Sequential(cfg: Config, s: State, p: Payload, env: Surroundings): Effect {
    HandleSpec(cfg, s.rules, true, s.tracker, s.cache, p, env)
  }

  /** Packets that fail an early test are accepted by the contract too. */
  lemma EarlyExit(cfg: Config, s: State, p: Payload, env: Surroundings)
    requires !PassesParsing(s.rules, p) || !PassesTracking(cfg, s.tracker, p)
    ensures Sequential(cfg, s, p, env) == Effect(Accept, None, s.tracker, s.cache)
  {
    hide Decide, Proxiable, MarkOf, InfoOf, Process.LookupPid, Process.Remembered;
    var pid := if Parses(p) then Process.LookupPid(s.cache, KeyOf(p), env.lookupAt, env.answer) else 0;
    if !HasActive(s.rules) { FastPathIsInvisible(cfg, s.rules, p, pid, env.nameOf(pid)); }
  }

  lemma LateEffect(cfg: Config, s: State, p: Packet, env: Surroundings)
    requires PassesParsing(s.rules, p) && PassesTracking(cfg, s.tracker, p)
    ensures Examined(cfg, p)
    ensures Sequential(cfg, s, p, env) == EffectOf(cfg, s, p,
      Process.LookupPid(s.cache, KeyOf(p), env.lookupAt, env.answer), env,
      Process.Remembered(s.cache, KeyOf(p), env.lookupAt, env.storeAt, env.answer))
  {
    hide Decide, Proxiable, MarkOf, InfoOf, Process.LookupPid, Process.Remembered;
  }

  /** A packet handled without interleaving, while time passes, gets from the machine what the contract of the
      sequential loop says. */
  lemma UninterruptedIsSequential(cfg: Config, s: State, p: Payload, env: Surroundings)
    requires s.pc.Idle? && Ordered(s, env)
    ensures Ends(Finish(cfg, Apply(cfg, s, Recv(p)), env), p, Sequential(cfg, s, p, env))
  {
    hide Apply, Move, LastAnswer, Sequential, PassesParsing, PassesTracking, Examined, MustProxy, MustDrop;
    hide Process.Remembered, Process.LookupPid, InfoOf, MarkOf;
    RecvStep(cfg, s, p);
    var r := Apply(cfg, s, Recv(p));
    if !HasIpHeader(p) {
      ParsingNeedsHeader(s.rules, p);
      EarlyExit(cfg, s, p, env);
      return;
    }
    ActiveStep(cfg, r, env);
    var c := Move(cfg, r, env);
    if !PassesParsing(s.rules, p) {
      EarlyExit(cfg, s, p, env);
      StopsHere(cfg, c, env);
      return;
    }
    TrackedStep(cfg, c, env);
    var u := Move(cfg, c, env);
    assert Finish(cfg, c, env) == Finish(cfg, u, env);
    if !PassesTracking(cfg, s.tracker, p) {
      EarlyExit(cfg, s, p, env);
      StopsHere(cfg, u, env);
      return;
    }
    LateEffect(cfg, s, p, env);
    FinishUntracked(cfg, u, env);
  }

  lemma ParsingNeedsHeader(rules: seq<Rule>, p: Payload)
    requires !HasIpHeader(p)
    ensures !PassesParsing(rules, p)
  {
  }

  // --- From an intercepted packet to the proxy ---

  /** The wire to a server that follows `policy` and has read the first `n` messages. */
  function ServerWire(cfg: Config, task: Task, n: nat, policy: Policy, room: nat): Wire {
    Wire(ServerAfter(n, policy, Tcp.CredentialsOf(cfg.proxy), ConnectRequest(task.ip, task.destPort), room), [], room)
  }

  /** The bridge speaks SOCKS5 to a server that is willing and takes all that is written. */
  predicate Served(cfg: Config, task: Task, n: nat, policy: Policy, room: nat) {
    var c := Tcp.CredentialsOf(cfg.proxy);
    && cfg.proxy.proxyType == ProxyType.Socks5 && cfg.proxy.resolvedIp.Some?
    && n >= 3 && Willing(policy, c) && |FullScript(policy, c, ConnectRequest(task.ip, task.destPort))| <= room
  }

  lemma RequestGoesOut(cfg: Config, task: Task, n: nat, policy: Policy, room: nat)
    requires Served(cfg, task, n, policy, room)
    ensures RequestOf(cfg, task, ServerWire(cfg, task, n, policy, room)) == Some(ConnectRequest(task.ip, task.destPort))
  {
    hide Handshake, ConnectRequest, ServerAfter;
    var c := Tcp.CredentialsOf(cfg.proxy);
    var request := ConnectRequest(task.ip, task.destPort);
    RequestDecodes(task.ip, task.destPort);
    ConversationSettles(n, policy, c, request, room);
    FullScriptParts(policy, c, request);
    NegotiationIsPrefix(NegotiationBytes(policy), Answer(policy), c, request);
    LastRound(policy, c, request, room, Answer(policy));
    var wire := Wire(FullReply(policy), [], room);
    assert Handshake(wire, c, request).0.sent == BeforeRequest(wire.input, c) + request;
    RequestIsConnect(cfg, task, wire);
  }

  function TaskOf(p: Packet): Task {
    Task(SrcPort(p), DestIp(p), DestPort(p))
  }

  lemma AcceptStep(cfg: Config, t: State, task: Task)
    requires Destination(t.tracker, task.port) == Some((task.ip, task.destPort))
    ensures Apply(cfg, t, AcceptTcp(task.port)).tasks == t.tasks + [task]
  {
    hide Emits, NextPc, NextTracker, NextUdp, NextCache;
  }

  /** The connection of an inserted packet, accepted while its entry lives, becomes a task for the packet's own
      destination, whatever the other actors did in between. */
  lemma AcceptedIsTasked(cfg: Config, start: nat, steps: seq<Step>, a: nat, b: nat, m: Marking)
    requires Run(cfg, start, steps).Some? && a < b < |steps|
    requires steps[a] == Insert && StateAt(cfg, start, steps, a).pc == Inserting(m)
    requires steps[b] == AcceptTcp(SrcPort(m.p))
    requires forall k: nat :: a < k <= b ==> SrcPort(m.p) in TrackerAt(cfg, start, steps, k)
    ensures StateAt(cfg, start, steps, b + 1).tasks == StateAt(cfg, start, steps, b).tasks + [TaskOf(m.p)]
  {
    hide Run, StateAt, Inv, Enabled, Apply, SrcPort, DestIp, DestPort;
    RunStep(cfg, start, steps, a + 1);
    InsertStep(cfg, StateAt(cfg, start, steps, a));
    BindingIsStable(cfg, start, steps, a + 1, b, SrcPort(m.p));
    RunStep(cfg, start, steps, b + 1);
    AcceptStep(cfg, StateAt(cfg, start, steps, b), TaskOf(m.p));
  }

  /** `t` takes `task` off the list. */
  predicate Takes(s: State, t: Step, task: Task) {
    match t
    case HandshakeTask(i, _) => i < |s.tasks| && s.tasks[i] == task
    case HttpTask(i) => i < |s.tasks| && s.tasks[i] == task
    case DropTask(i) => i < |s.tasks| && s.tasks[i] == task
    case _ => false
  }

  lemma TaskStays(s: State, t: Step, task: Task)
    requires task in s.tasks && !Takes(s, t, task)
    ensures task in NextTasks(s, t)
  {
    var k :| 0 <= k < |s.tasks| && s.tasks[k] == task;
    if (t.HandshakeTask? || t.HttpTask? || t.DropTask?) && t.i < |s.tasks| {
      assert s.tasks[k] == (s.tasks[..t.i] + s.tasks[t.i + 1..])[if k < t.i then k else k - 1];
    }
  }

  /** The task that `t` takes off the list. */
  function TakenBy(s: State, t: Step): seq<Task> {
    if (t.HandshakeTask? || t.HttpTask? || t.DropTask?) && t.i < |s.tasks| then [s.tasks[t.i]] else []
  }

  /** The task for an accepted connection of a tracked port. */
  function AcceptedBy(s: State, t: Step): seq<Task> {
    if t.AcceptTcp? && t.clientPort in s.tracker
    then [Task(t.clientPort, s.tracker[t.clientPort].destIp, s.tracker[t.clientPort].destPort)] else []
  }

  /** The same tasks, each as often, in any order. */
  predicate Rearranges(a: seq<Task>, b: seq<Task>) {
    multiset(a) == multiset(b)
  }

  lemma TakeOne(tasks: seq<Task>, i: nat)
    requires i < |tasks|
    ensures Rearranges(tasks[..i] + tasks[i + 1..] + [tasks[i]], tasks)
  {
    assert tasks == tasks[..i] + [tasks[i]] + tasks[i + 1..];
  }

  lemma TakingStep(s: State, t: Step)
    requires (t.HandshakeTask? || t.HttpTask? || t.DropTask?) && t.i < |s.tasks|
    ensures NextTasks(s, t) + TakenBy(s, t) == s.tasks[..t.i] + s.tasks[t.i + 1..] + [s.tasks[t.i]]
    ensures s.tasks + AcceptedBy(s, t) == s.tasks
  {
  }

  lemma OtherStep(s: State, t: Step)
    requires !((t.HandshakeTask? || t.HttpTask? || t.DropTask?) && t.i < |s.tasks|)
    ensures NextTasks(s, t) + TakenBy(s, t) == s.tasks + AcceptedBy(s, t)
  {
  }

  /** No step loses, repeats or invents a task. */
  lemma TasksConserved(s: State, t: Step)
    ensures Rearranges(NextTasks(s, t) + TakenBy(s, t), s.tasks + AcceptedBy(s, t))
  {
    hide NextTasks, TakenBy, AcceptedBy;
    if (t.HandshakeTask? || t.HttpTask? || t.DropTask?) && t.i < |s.tasks| {
      TakingStep(s, t);
      TakeOne(s.tasks, t.i);
    } else {
      OtherStep(s, t);
    }
  }

  /** A task waits until some step takes it. */
  lemma {:induction false} TaskWaits(cfg: Config, start: nat, steps: seq<Step>, b: nat, c: nat, task: Task)
    requires Run(cfg, start, steps).Some? && b <= c <= |steps| && task in StateAt(cfg, start, steps, b).tasks
    requires forall k: nat :: b <= k < c ==> !Takes(StateAt(cfg, start, steps, k), steps[k], task)
    ensures task in StateAt(cfg, start, steps, c).tasks
    decreases c
  {
    hide Run, StateAt, Inv, Enabled, NextTasks, Takes;
    if b == c {
    } else {
      TaskWaits(cfg, start, steps, b, c - 1, task);
      RunStep(cfg, start, steps, c);
      TaskStays(StateAt(cfg, start, steps, c - 1), steps[c - 1], task);
    }
  }

  /** In any state, any waiting task can be served, and then its CONNECT goes out. */
  lemma TaskReachesProxy(cfg: Config, s: State, i: nat, n: nat, policy: Policy, room: nat)
    requires i < |s.tasks| && Served(cfg, s.tasks[i], n, policy, room)
    ensures var task := s.tasks[i]; var t := HandshakeTask(i, ServerWire(cfg, task, n, policy, room));
      && Enabled(cfg, s, t)
      && Apply(cfg, s, t).log == s.log + [Requested(task.port, ConnectRequest(task.ip, task.destPort))]
  {
    hide ConnectRequest, ServerAfter, FullScript, Willing, RequestOf;
    hide NextPc, NextTracker, NextUdp, NextCache, NextTasks;
    RequestGoesOut(cfg, s.tasks[i], n, policy, room);
  }

  /** A packet that was inserted and whose connection was accepted while its entry lived still has its task at the end
      of the run, unless a step took it; a willing server then receives the CONNECT for its own destination. */
  lemma MarkedReachesProxy(cfg: Config, start: nat, steps: seq<Step>, a: nat, b: nat, m: Marking,
                           n: nat, policy: Policy, room: nat)
    requires Run(cfg, start, steps).Some? && a < b < |steps|
    requires steps[a] == Insert && StateAt(cfg, start, steps, a).pc == Inserting(m)
    requires steps[b] == AcceptTcp(SrcPort(m.p))
    requires forall k: nat :: a < k <= b ==> SrcPort(m.p) in TrackerAt(cfg, start, steps, k)
    requires forall k: nat :: b < k < |steps| ==> !Takes(StateAt(cfg, start, steps, k), steps[k], TaskOf(m.p))
    requires Served(cfg, TaskOf(m.p), n, policy, room)
    ensures var s := Run(cfg, start, steps).value; var request := ConnectRequest(DestIp(m.p), DestPort(m.p));
      exists i: nat :: i < |s.tasks| && s.tasks[i] == TaskOf(m.p) && (
        var t := HandshakeTask(i, ServerWire(cfg, s.tasks[i], n, policy, room));
        && Enabled(cfg, s, t)
        && Apply(cfg, s, t).log == s.log + [Requested(SrcPort(m.p), request)] && Carries(request, m.p))
  {
    hide Run, Enabled, Apply, Served, Carries, ServerWire, Takes, ConnectRequest;
    AcceptedIsTasked(cfg, start, steps, a, b, m);
    TaskWaits(cfg, start, steps, b + 1, |steps|, TaskOf(m.p));
    assert steps[..|steps|] == steps;
    var s := StateAt(cfg, start, steps, |steps|);
    var i :| 0 <= i < |s.tasks| && s.tasks[i] == TaskOf(m.p);
    TaskReachesProxy(cfg, s, i, n, policy, room);
    ConnectCarries(m.p);
  }
}

# ProxyBridge, modelled and proved in Dafny

ProxyBridge intercepts outgoing packets through NFQUEUE, decides per process what to do with them, remembers the
original destination of each packet it redirects, and replays that destination to a SOCKS5 (or HTTP) proxy.
This project models that path and proves what it delivers. `dafny verify dfyconfig.toml` checks everything.

| module | models |
|---|---|
| `Common`, `Text` | `config.rs`, byte order on a little-endian host, the `str` operations of the rule language |
| `ProcessPattern`, `AddressPattern` | the pattern matchers, `format_ip`, `is_broadcast_or_multicast` |
| `Rules`, `RuleStore` | `RuleEngine`, rule text, and adders that draw ids outside the list lock |
| `Connection`, `Process`, `Netlink` | `ConnectionTracker`, `PidCache`, the memoised pid lookup, the SOCK_DIAG reply walk |
| `Socks5`, `Socks5Server` | the SOCKS5 client on a chunked stream, a conforming server, and their conversation |
| `Classifier`, `TcpRelay`, `UdpRelay` | one iteration of each loop as imperative methods on shared objects |
| `Packets` | IPv4, TCP and UDP packets as the standards lay them out, and what the classifier does with each |
| `Interception`, `Theorems` | all actors together as a state machine with a log, its invariant, and what every run satisfies |

Conventions. A `str` is its UTF-8 byte sequence, byte `b` written as the `char` with code `b`. Time is a clock reading
in milliseconds passed to each lock section. Answers of the kernel, of `/proc` and of the network are parameters of the
step that asks. A stream is the bytes still to arrive, the bytes sent, and how many more bytes the peer takes before
writing fails. In `Interception` every lock section is one atomic step, so the `is_tracked` check and the insertion
of the same packet are separated by arbitrary steps of the cleanup timer and the relays.

Main results, hardest first:

1. `Theorems.ConnectProvenance`: in every interleaving each CONNECT on the wire repeats the destination bytes of an
   earlier intercepted packet from the same port that met the exact proxying condition under the rules then in force.
   `Theorems.MarkedReachesProxy` goes the other way: in every run, a packet that was inserted and whose connection is
   accepted while its entry lives has a task that waits until it is taken, and a willing server then receives the
   CONNECT for its destination, whatever the other actors did in between.
2. `Theorems.OneVerdictEach`, `Theorems.VerdictProvenance`, `Theorems.MatchIsAnswered`: every packet gets one verdict in
   order, a drop or a mark goes to the packet just matched, and every match gets the verdict it demands.
   `Theorems.BindingIsStable`, `Theorems.EntryAge`: no live tracker entry is overwritten, and entries stay younger than
   90 s under timely cleanup.
3. `Classifier.Nfqueue.Handle` meets a declarative decision, and `Theorems.UninterruptedIsSequential` ties the machine to it.
   `Packets.SegmentTreated` and `Packets.DatagramTreated` say what the decision is for every packet built field by field.
4. `Socks5Server.ConversationSucceeds`, `Socks5.SentIsScript`, `Socks5.HandshakeExactly`: what the client says to any
   server, and that a conforming one recovers login and destination.
5. `Rules.RuleEngine.MatchRule` is first match over a stable partition; `ProcessPattern.GlobExactly` says for exactly which
   patterns the process matcher is a glob. `Rules.OneRuleExactly` and `Rules.TwoRulesExactly` say what a rule admits and
   when it is deferred.

Where the code and its documentation differ, the model follows the code:

- `match_rule` is documented as first match (crates/proxy-bridge-core/src/rule.rs:105-106). Unfiltered `*`/`ANY` rules are
  tried after all others; `Rules.CatchAllFirstIsOverridden` gives inputs, `Rules.FirstMatchExactly` the exact condition and
  `Rules.FirstMatchForAll` a check on the list alone.
- Process patterns are documented as supporting `*` wildcards at either end. With a second star the other one is literal
  (`ProcessPattern.GlobExactly`).
- `socks5_connect` promises a stream ready for data (crates/proxy-bridge-core/src/proxy/socks5.rs:6-7). It reads ten reply
  bytes whatever the address type, so this holds for IPv4 and three-letter domain replies only
  (`Socks5.ApplicationByteExactly`).
- A comment in `get` speaks of an update of `last_activity` (crates/proxy-bridge-core/src/connection.rs:49). There is none, so
  an entry expires 60 s after its insertion even while it is used.
- The "subnet broadcast" test treats every address whose last octet is 255 as broadcast (`AddressPattern.ReservedExactly`).
- An empty IP list means every address, yet an empty element of a longer list matches nothing, and an empty port element
  matches port 0 (`AddressPattern.IpListConcat`, `AddressPattern.PortListConcat`).

## Model

| member | source | states |
|---|---|---|
| `Theorems.ConnectProvenance` | linux/src/nfqueue.rs:36-221 | in every run, each CONNECT for a client port carries in bytes 4..10 bytes 16..20 and ihl+2..ihl+4 of an earlier intercepted packet with that source port, matched Proxy under the rules in force with every guard passed and a pid the resolvers reported within the cache lifetime; a server decodes that destination |
| `Theorems.ForwardProvenance` | linux/src/relay/udp.rs:54-63 | every datagram forwarded to the proxy is addressed to the destination of an earlier packet from that port that had to be proxied |
| `Theorems.VerdictProvenance` | linux/src/nfqueue.rs:202-218 | in every run, a drop or a mark is only given to the very packet matched last, nothing was answered since, and verdict and mark are the ones that match demands under the rules in force |
| `Theorems.MatchIsAnswered` | linux/src/nfqueue.rs:160-220 | in every run, the first answer after a match goes to the matched packet: its protocol's mark iff it met the exact condition for proxying, a drop iff a blocking rule decided, a plain accept otherwise; until then the thread is about to insert or release it |
| `Theorems.EarlyAcceptIsDue` | linux/src/nfqueue.rs:49-139 | in every run, a packet accepted without a match is one whose process is never looked up, or no rule is enabled, or its port is tracked at that step |
| `Theorems.OwnTrafficPasses` | linux/src/nfqueue.rs:141-142 | in every run, a packet matched for pid 0 or for the bridge itself is accepted unmarked |
| `Theorems.MarkedReachesProxy` | linux/src/relay/tcp.rs:44-101 | in every run, a packet inserted at one step and accepted at a later one while its entry lived still has its task at the end unless a step took it; the handshake with a willing SOCKS5 server is then possible and puts the CONNECT for the packet's own destination on the wire |
| `Theorems.AcceptedIsTasked` | linux/src/relay/tcp.rs:44-63 | in every run, accepting the client port of an inserted packet while its entry lives starts a task for that packet's destination |
| `Theorems.TaskWaits` | linux/src/relay/tcp.rs:49-63 | in every run, a task stays until a handshake or its end takes it |
| `Theorems.TasksConserved` | linux/src/relay/tcp.rs:44-63 | no step of the machine loses, repeats or invents a relay task |
| `Theorems.TaskReachesProxy` | linux/src/relay/tcp.rs:71-101 | in any state, any task can be handed to a willing server, and its CONNECT is then sent |
| `Theorems.NeverOverwrites` | linux/src/nfqueue.rs:121-211 | although check and insertion are separate lock sections, no step changes an entry that stays tracked |
| `Theorems.BindingIsStable` | crates/proxy-bridge-core/src/connection.rs:31-52 | in every run, `get(p)` is constant from insertion to removal |
| `Theorems.TrackedIsProxiable` | linux/src/nfqueue.rs:181-184 | no tracked destination is broadcast, multicast, loopback or link-local, also when the exclusion is written as a rule pattern |
| `Theorems.ReverseLookup` | crates/proxy-bridge-core/src/connection.rs:73-81 | in every reachable state `find_by_dest` returns a port whose forward lookup gives the destination, and returns one whenever it exists |
| `Theorems.EntryAge` | linux/src/main.rs:177-183 | entries are younger than 60 s plus the time since the last cleanup, hence younger than 90 s while cleanups are at most 30 s apart |
| `Theorems.NoEarlyRemoval` | crates/proxy-bridge-core/src/connection.rs:61-64 | an entry disappears exactly at a cleanup that finds it at least 60 s old |
| `Theorems.PidCleanupIsUnobservable` | crates/proxy-bridge-core/src/connection.rs:153-156 | in every run, the timer's cleanup of the pid cache changes no later lookup |
| `Theorems.OneVerdictEach` | linux/src/nfqueue.rs:36-221 | in every run the answered packets are the intercepted ones, in order, except for at most one in hand |
| `Theorems.ReadsNeedAssociation` | linux/src/relay/udp.rs:28-51 | no client datagram is read while there is no association |
| `Theorems.EchoReturns` | linux/src/relay/udp.rs:53-87 | in every run, a datagram sent by a tracked client is forwarded under the tracked destination, and the step that reads it back under that header delivers its data to the same client, if the entry survived and no other tracked port shares the destination |
| `Theorems.UninterruptedIsSequential` | linux/src/nfqueue.rs:49-220 | the machine's steps for one packet, with time passing between them but no other actor, give verdict, mark, tracker and pid cache of the sequential contract |
| `Theorems.UdpTurnIsIterate` | linux/src/relay/udp.rs:28-88 | the machine's three steps of the UDP relay, run in a row, leave association, forwarded and delivered datagrams as one turn of the loop does |
| `Theorems.TaskIsDispatch` | linux/src/relay/tcp.rs:71-101 | a task says to the proxy what the relay method says, and the CONNECT is logged exactly when all of it went out |
| `Interception.RunInv` | linux/src/main.rs:119-183 | the joint invariant over rules, caches, tracker, thread position, relay tasks, association and log holds after every run |
| `Interception.RequestIsConnect` | linux/src/relay/tcp.rs:91-101 | whatever the proxy sends, the bytes after the negotiation are the CONNECT for the destination looked up when the client was accepted |
| `Classifier.Nfqueue.Handle` | linux/src/nfqueue.rs:49-220 | for every payload: marked iff the declarative proxying condition holds and the port is untracked, dropped iff a blocking rule decides and the port is untracked, accepted otherwise; exact new tracker and pid cache |
| `Classifier.Nfqueue.Run` | linux/src/nfqueue.rs:36-221 | the queue loop answers every packet in order, each against the tables its predecessors left |
| `Classifier.OneEntryPerMark` | linux/src/nfqueue.rs:209-217 | over any queue the tracker gains exactly one entry per marked packet |
| `Classifier.SameWithoutFastPath` | linux/src/nfqueue.rs:64-69 | for a fixed rule set and any queue of packets, removing the early exit changes no verdict, mark or tracker entry; the pid caches agree when a rule is enabled, otherwise the exit leaves the cache alone |
| `Classifier.Nfqueue.ParseTransport` | linux/src/nfqueue.rs:71-104 | header parsing yields the ports and flags of `Packets.AnyPayloadRead` and never reads out of range, for packets of any length |
| `Classifier.Nfqueue.LookUpAction` | linux/src/nfqueue.rs:134-179 | action before the downgrades and effect on the pid cache, DNS bypass included |
| `Classifier.Nfqueue.ApplyDowngrades` | linux/src/nfqueue.rs:181-200 | the chain turns Proxy into Direct exactly for packets the proxy cannot carry and changes nothing else |
| `Classifier.FastPathIsInvisible` | linux/src/nfqueue.rs:64-69 | without enabled rules no packet meets either condition |
| `Classifier.OwnTrafficPasses` | linux/src/nfqueue.rs:141-142 | a packet whose looked-up pid is 0 or the bridge's own is accepted unmarked and leaves the tracker unchanged |
| `Packets.SegmentTreated` | linux/src/nfqueue.rs:49-220 | for every TCP packet with any header options: looked up iff SYN without ACK, not from port 34010, port untracked, not DNS unless proxied; then verdict, mark 1, tracker entry and pid cache follow the rules' action, reserved destinations and the proxy configuration |
| `Packets.DatagramTreated` | linux/src/nfqueue.rs:49-220 | the same for every UDP packet: port 34011, no DHCP, SOCKS5 only, mark 2 |
| `Packets.OthersPass` | linux/src/nfqueue.rs:71-104 | packets of other protocols or with an incomplete transport header are accepted unmarked and change nothing |
| `Packets.SegmentRead` | linux/src/nfqueue.rs:57-86 | from a TCP packet built after RFC 791 and RFC 9293 addresses and ports are read back, and it counts as SYN iff SYN is set and ACK is clear |
| `Packets.DatagramRead` | linux/src/nfqueue.rs:57-98 | the same for UDP packets built after RFC 768 |
| `Packets.ParsesExactly` | linux/src/nfqueue.rs:71-104 | behind any IPv4 header, a packet counts as TCP or UDP iff the protocol number says so and 20 or 8 more bytes follow |
| `Packets.AnyPayloadRead` | linux/src/nfqueue.rs:57-98 | for payloads of any content only the low half of the first byte says where ports and flags are; the version is not looked at |
| `TcpRelay.TcpRelay.Accept` | linux/src/relay/tcp.rs:44-63 | an untracked client is dropped without touching the proxy; otherwise outcome and proxy stream are those of the handshake for the tracked destination |
| `TcpRelay.TcpRelay.HandleTcpConnection` | linux/src/relay/tcp.rs:71-112 | dispatch on proxy type with the configured credentials; failure without a resolved address or connection |
| `TcpRelay.EstablishedExactly` | linux/src/relay/tcp.rs:71-112 | a tunnel stands iff the proxy is resolved and connected and its handshake succeeded, for SOCKS5 with version 5 and status 0 in the reply |
| `TcpRelay.RelayedLogin` | linux/src/relay/tcp.rs:91-101 | a willing server recovers the configured user name and password in this order and the client's destination; the tunnel stands iff it grants the request |
| `UdpRelay.UdpRelay.EstablishUdpAssociate` | linux/src/relay/udp.rs:94-126 | yields the bound address, or the proxy's own when the server answers 0.0.0.0, and fails in exactly the source's cases |
| `UdpRelay.EstablishedExactly` | linux/src/relay/udp.rs:94-126 | the association stands iff the proxy is resolved and connected, grants it with an IPv4 address, and a local socket can be bound |
| `UdpRelay.AssociatedAddress` | linux/src/relay/udp.rs:105-121 | a willing server recovers the configured login; datagrams go to the address it bound, or to the proxy's own for 0.0.0.0 |
| `UdpRelay.UdpRelay.TakeFromClient` | linux/src/relay/udp.rs:46-67 | a tracked client's datagram is forwarded under its destination; the association is lost exactly when such a send fails |
| `UdpRelay.UdpRelay.TakeFromProxy` | linux/src/relay/udp.rs:69-87 | a parsable datagram goes to a tracked port with its source as destination, if there is one |
| `UdpRelay.UdpRelay.Iterate` | linux/src/relay/udp.rs:28-88 | one iteration: without an association nothing is read or sent; otherwise at most one datagram each way, with the new association state |
| `UdpRelay.EchoReturnsExactly` | linux/src/relay/udp.rs:54-85 | an echoed datagram returns to its sender in every walk order of the tracker iff no other tracked port has the same destination |
| `Rules.RuleEngine.MatchRule` | crates/proxy-bridge-core/src/rule.rs:107-164 | the loop equals plain first match over the list with catch-all rules moved last, defaulting to Direct |
| `Rules.OneRuleExactly` | crates/proxy-bridge-core/src/rule.rs:117-156 | a rule alone decides a query iff it is enabled, for the query's transport or both, names every process or lists this one, and its hosts and ports fit; otherwise the answer is Direct |
| `Rules.TwoRulesExactly` | crates/proxy-bridge-core/src/rule.rs:129-161 | of two applicable rules the first decides, unless it is `*` or `ANY` in any case with both filters `*` and the second is not |
| `Rules.RuleCaseIsIrrelevant` | crates/proxy-bridge-core/src/rule.rs:129-156 | letter case in process names, of the rule or of the program, never changes whether a rule applies or is a wildcard |
| `Rules.PartitionPermutes` | crates/proxy-bridge-core/src/rule.rs:145-161 | the evaluation order is a permutation of the rule list |
| `Rules.FirstMatchExactly` | crates/proxy-bridge-core/src/rule.rs:105-164 | the documented first-match reading holds iff no catch-all rule that applies first is contradicted by another applicable rule |
| `Rules.CatchAllFirstIsOverridden` | crates/proxy-bridge-core/src/rule.rs:145-161 | rule lists for which first match is wrong, for every program name in every directory |
| `Rules.FirstMatchForAll` | crates/proxy-bridge-core/src/rule.rs:105-164 | a check on the list alone: if no enabled catch-all rule precedes an enabled rule of another kind with a different action, or the list is already partitioned, first match holds for every query |
| `Rules.CatchAllFloats` | crates/proxy-bridge-core/src/rule.rs:132-161 | moving a catch-all rule past other kinds of rules changes no packet's action |
| `Rules.CatchAllIsUnfiltered` | crates/proxy-bridge-core/src/rule.rs:48-57 | among rules stored by `add_rule`, catch-all means no host and no port filter |
| `Rules.InactiveIsDirect` | crates/proxy-bridge-core/src/rule.rs:100-103 | with no enabled rule every query is Direct |
| `Rules.AppendedRule` | crates/proxy-bridge-core/src/rule.rs:33-67 | an appended rule decides only where the old answer came from a catch-all rule or the default, and then exactly as stated |
| `Rules.DisableIsDelete` | crates/proxy-bridge-core/src/rule.rs:81-97 | with distinct ids, disabling a rule and deleting it decide every packet alike |
| `Rules.AddThenDelete` | crates/proxy-bridge-core/src/rule.rs:33-97 | adding a rule and deleting it by its fresh id restores the list |
| `Rules.RuleEngine.AddRule` | crates/proxy-bridge-core/src/rule.rs:33-67 | empty process names are refused with id 0 and no draw; otherwise one enabled rule with non-empty fields is appended under the drawn id |
| `Rules.RuleEngine.EnableRule` | crates/proxy-bridge-core/src/rule.rs:70-78 | enables the first rule with the id and reports whether there was one |
| `Rules.RuleEngine.DisableRule` | crates/proxy-bridge-core/src/rule.rs:81-89 | disables the first rule with the id and reports whether there was one |
| `Rules.RuleEngine.DeleteRule` | crates/proxy-bridge-core/src/rule.rs:92-97 | removes every rule with the id, keeps the others in order, and reports whether one was removed |
| `Rules.WithoutMembers` | crates/proxy-bridge-core/src/rule.rs:92-97 | deletion keeps exactly the rules with other ids, and the length changes iff the id was present |
| `Rules.RuleEngine.HasActiveRules` | crates/proxy-bridge-core/src/rule.rs:100-103 | true iff some rule is enabled |
| `Rules.RuleIds.FetchAdd` | crates/proxy-bridge-core/src/rule.rs:5-5 | the id counter returns its value and wraps at 2^32 |
| `Rules.ParseShowParse` | crates/proxy-bridge-core/src/rule.rs:300-336 | re-joining a parsed rule with colons and parsing again is a fixed point, and `add_rule` accepts it |
| `Rules.ParseExactly` | crates/proxy-bridge-core/src/rule.rs:300-336 | rule text is read as five colon-separated fields, empty filters as `*`, keywords in any case; every other text is refused |
| `RuleStore.IdsStayDistinct` | crates/proxy-bridge-core/src/rule.rs:45-66 | in every interleaving of draws, insertions and edits with fewer than 2^32 draws, ids of stored and waiting rules are distinct and non-zero |
| `RuleStore.LastDrawIsZero` | crates/proxy-bridge-core/src/rule.rs:46-46 | the bound is sharp: the next draw after 2^32-1 returns 0 |
| `RuleStore.DisableIsDeleteInRuns` | crates/proxy-bridge-core/src/rule.rs:81-97 | in every such run, disabling and deleting are indistinguishable |
| `RuleStore.AloneIsAddRule` | crates/proxy-bridge-core/src/rule.rs:33-67 | draw and insertion without interruption append the rule `add_rule` promises |
| `ProcessPattern.GuardsAreInvisible` | crates/proxy-bridge-core/src/rule.rs:204-218 | over valid UTF-8 the character-boundary guards reject no true match: the result is the byte-wise, ASCII-case-insensitive comparison |
| `ProcessPattern.ValidPrefixBoundary` | crates/proxy-bridge-core/src/rule.rs:207-209 | a valid prefix of valid UTF-8 (RFC 3629) ends at a character boundary |
| `ProcessPattern.GlobExactly` | crates/proxy-bridge-core/src/rule.rs:186-222 | the matcher agrees with a general case-insensitive glob on every path iff the pattern has at most one star, at one end |
| `ProcessPattern.EndStarIsGlob` | crates/proxy-bridge-core/src/rule.rs:186-222 | for such patterns the matcher is the recursive glob on the chosen target |
| `ProcessPattern.DirectoryIsIgnored` | crates/proxy-bridge-core/src/rule.rs:191-202 | slash-free patterns see only the text after the last slash |
| `ProcessPattern.TargetExactly` | crates/proxy-bridge-core/src/rule.rs:191-202 | patterns without a slash are compared with the text after the last slash, others with the whole path |
| `ProcessPattern.CaseIsIrrelevant` | crates/proxy-bridge-core/src/rule.rs:204-221 | exchanging the case of ASCII letters in pattern or path never changes a match |
| `ProcessPattern.ListCaseIsIrrelevant` | crates/proxy-bridge-core/src/rule.rs:176-183 | the same for lists |
| `ProcessPattern.ValidExactly` | crates/proxy-bridge-core/src/rule.rs:204-218 | the strings meant are exactly the concatenations of encoded Unicode scalar values of RFC 3629 |
| `ProcessPattern.ProcessListConcat` | crates/proxy-bridge-core/src/rule.rs:176-183 | a joined process list matches iff one of its parts does, for all parts |
| `ProcessPattern.ProcessListReorder` | crates/proxy-bridge-core/src/rule.rs:176-183 | reordering a process list never changes a match |
| `AddressPattern.MatchIpPattern` | crates/proxy-bridge-core/src/rule.rs:235-271 | an address matches iff its octets lie in four intervals computed from the pattern alone |
| `AddressPattern.FormatIpMatchesItself` | crates/proxy-bridge-core/src/rule.rs:369-377 | a printed address, used as a pattern, matches that address and no other |
| `AddressPattern.IpListConcat` | crates/proxy-bridge-core/src/rule.rs:225-232 | joining IP lists is disjunction; the exact law when a part is empty |
| `AddressPattern.IpListReorder` | crates/proxy-bridge-core/src/rule.rs:225-232 | reordering non-empty IP patterns never changes a match |
| `AddressPattern.EmptyListsAdmitAll` | crates/proxy-bridge-core/src/rule.rs:225-277 | the empty list and `*` admit every address and every port |
| `AddressPattern.GarbledOctets` | crates/proxy-bridge-core/src/rule.rs:257-267 | a malformed octet counts as 255, a malformed range end as 0 |
| `AddressPattern.WrongPartCount` | crates/proxy-bridge-core/src/rule.rs:247-250 | a pattern other than `*` without four parts admits no address |
| `AddressPattern.PortNumber` | crates/proxy-bridge-core/src/rule.rs:293-296 | a number admits that port alone; one above 65535 counts as 0 |
| `AddressPattern.PortRange` | crates/proxy-bridge-core/src/rule.rs:289-292 | a range admits exactly the ports between its ends; an end above 65535 counts as 0 |
| `AddressPattern.PortInList` | crates/proxy-bridge-core/src/rule.rs:274-297 | the same for a number or range inside a longer list with either separator |
| `AddressPattern.GarbledPorts` | crates/proxy-bridge-core/src/rule.rs:289-296 | malformed ports and range ends count as 0 |
| `AddressPattern.PortListConcat` | crates/proxy-bridge-core/src/rule.rs:274-297 | joining port lists with either separator is disjunction; the exact law when a part is empty |
| `AddressPattern.PortListReorder` | crates/proxy-bridge-core/src/rule.rs:274-297 | reordering non-empty port patterns and exchanging `,` and `;` never changes a match |
| `AddressPattern.ReservedExactly` | crates/proxy-bridge-core/src/rule.rs:341-366 | the bit tests admit exactly the addresses of `127.*.*.*;169.254.*.*;*.*.*.255;224-239.*.*.*` |
| `Common.ByteOrders` | crates/proxy-bridge-core/src/rule.rs:240-245 | octet 0 is the low byte of an address, ports are big-endian on the wire |
| `Text.TrimIgnoresBlanks` | crates/proxy-bridge-core/src/rule.rs:176-183 | white space around a list element does not matter |
| `Text.TrimmedExactly` | crates/proxy-bridge-core/src/rule.rs:176-183 | among ASCII characters, space, tab, line feed, vertical tab, form feed and carriage return are trimmed and nothing else |
| `Text.IgnoresCaseExactly` | crates/proxy-bridge-core/src/rule.rs:204-221 | texts are equal up to case iff they differ at most in the case of the 26 ASCII letters |
| `Text.ParseReads` | crates/proxy-bridge-core/src/rule.rs:258-264 | numbers are read with an optional plus sign and leading zeros, and refused exactly on overflow |
| `Text.ParseRefuses` | crates/proxy-bridge-core/src/rule.rs:258-264 | everything but digits behind at most one plus sign is refused |
| `Connection.ConnectionTracker.Add` | crates/proxy-bridge-core/src/connection.rs:31-43 | the entry for the source port becomes the given one, stamped now; others stay |
| `Connection.ConnectionTracker.Get` | crates/proxy-bridge-core/src/connection.rs:46-52 | the original destination, if tracked; nothing is refreshed |
| `Connection.ConnectionTracker.IsTracked` | crates/proxy-bridge-core/src/connection.rs:55-58 | true iff the port has an entry |
| `Connection.ConnectionTracker.CleanupStale` | crates/proxy-bridge-core/src/connection.rs:61-64 | keeps exactly the entries younger than 60 s, unchanged |
| `Connection.ConnectionTracker.Clear` | crates/proxy-bridge-core/src/connection.rs:67-70 | no entry is left |
| `Connection.ConnectionTracker.FindByDest` | crates/proxy-bridge-core/src/connection.rs:73-81 | in any iteration order: some entry's source port with that destination, none iff there is no such entry |
| `Connection.FindUnique` | crates/proxy-bridge-core/src/connection.rs:73-81 | a destination tracked by one port only is found at that port in every order |
| `Connection.PidCache.Get` | crates/proxy-bridge-core/src/connection.rs:119-133 | the cached pid iff its entry is younger than 10 s |
| `Connection.PidCache.Put` | crates/proxy-bridge-core/src/connection.rs:136-150 | the entry for the connection becomes the pid, stamped now |
| `Connection.PidCache.Cleanup` | crates/proxy-bridge-core/src/connection.rs:153-156 | keeps exactly the entries younger than 10 s |
| `Connection.PidCache.Clear` | crates/proxy-bridge-core/src/connection.rs:159-162 | no entry is left |
| `Connection.CacheIsLatestPut` | crates/proxy-bridge-core/src/connection.rs:119-162 | over any sequence of put, cleanup, clear and clock advance, `get` is the latest uncleared put if younger than 10 s |
| `Connection.CleanupIsUnobservable` | crates/proxy-bridge-core/src/connection.rs:153-156 | removing all cleanup steps from a run changes no answer of `get` |
| `Process.GetPidFromConnection` | linux/src/process.rs:9-38 | the cached pid or the resolvers' answer, with the exact new cache; a zero answer is not stored |
| `Process.LookupExactly` | linux/src/process.rs:9-38 | an entry younger than 10 s answers, otherwise netlink, and `/proc` only for UDP when netlink knows nothing; non-zero answers are stored at the time of storing, zero is not |
| `Process.CacheIsGrounded` | linux/src/process.rs:33-35 | over any run zero is never cached and every entry repeats an answer given at its time stamp |
| `Process.LookupIsFreshOrRecent` | linux/src/process.rs:9-38 | a lookup after any run returns the present answer or one given for the same connection within 10 s |
| `Netlink.Walk` | linux/src/process.rs:163-190 | over any received bytes, and whatever an earlier datagram left behind them, the loop yields what the visited messages yield |
| `Netlink.StuckExactly` | linux/src/process.rs:163-190 | over any bytes, the loop runs for ever iff it meets a message of length zero that neither stops nor matches; the model reports this as an outcome |
| `Netlink.VisitMessages` | linux/src/process.rs:163-190 | over well-formed padded messages the walk visits message starts only, stays inside them and yields what the message list yields |
| `Netlink.SearchIsFirst` | linux/src/process.rs:167-187 | the search ends at the first DONE, ERROR or matching diag message, and with the fields of that one |
| `Netlink.HeadDecides` | linux/src/process.rs:167-187 | types 3 and 2 stop, type 20 with the socket's address and port is found with its inode and owner, everything else is passed over |
| `Netlink.DiagRead` | linux/src/process.rs:137-182 | from a diag body built field by field port, address, owner and inode are read back |
| `Netlink.FindSocket` | linux/src/process.rs:152-199 | over any received datagrams in one reused buffer: inode and owner of the first match, none on stop, exhaustion or inode 0, and whether every walk ended inside the buffer |
| `Netlink.ReceptionOfMessages` | linux/src/process.rs:152-199 | for datagrams of well-formed messages the reception yields the first match over all of them |
| `Netlink.AlignIsLeast` | linux/src/process.rs:203-205 | the least multiple of four not below the length; the walk advances iff the length is positive |
| `Socks5.Connect` | crates/proxy-bridge-core/src/proxy/socks5.rs:8-101 | outcome, bytes sent and bytes left depend only on the concatenated input, not on its chunks, for any server and any point of write failure |
| `Socks5.UdpAssociate` | crates/proxy-bridge-core/src/proxy/socks5.rs:105-180 | the same for UDP ASSOCIATE, with the bound address as result |
| `Socks5.ByteStream.ReadExact` | crates/proxy-bridge-core/src/proxy/socks5.rs:33-37 | takes exactly the next bytes across chunk borders, or fails at end of file |
| `Socks5.SentIsScript` | crates/proxy-bridge-core/src/proxy/socks5.rs:15-85 | in every run the bytes sent are greeting, login iff method 2 was chosen and both credentials are set, request iff negotiation completed, cut where writing fails |
| `Socks5.HandshakeExactly` | crates/proxy-bridge-core/src/proxy/socks5.rs:33-91 | success iff negotiation completed, ten reply bytes follow and writing did not fail; then exactly 12 or 14 bytes are consumed |
| `Socks5.ConnectExactly` | crates/proxy-bridge-core/src/proxy/socks5.rs:66-101 | CONNECT succeeds iff the negotiation bytes are 5 0 or 5 2 1 0, ten reply bytes follow, writing did not fail and the reply starts with 5 0; a version 5 reply with another status is reported with it |
| `Socks5.AssociateExactly` | crates/proxy-bridge-core/src/proxy/socks5.rs:136-180 | the same for UDP ASSOCIATE, which also needs address type 1 and yields bytes 4 to 9 of the reply as address and port |
| `Socks5.RequestBytes` | crates/proxy-bridge-core/src/proxy/socks5.rs:73-155 | both requests byte by byte |
| `Socks5.SameUntilRequest` | crates/proxy-bridge-core/src/proxy/socks5.rs:110-160 | CONNECT and UDP ASSOCIATE read the same and send the same, up to the command byte of the request |
| `Socks5.ApplicationByteExactly` | crates/proxy-bridge-core/src/proxy/socks5.rs:87-100 | after a success reply the stream stands at the first application byte iff the reply's address is IPv4 or a three-letter domain |
| `Socks5.BuildUdpPacket` | crates/proxy-bridge-core/src/proxy/socks5.rs:183-191 | the datagram of RFC 1928 section 7 with zero RSV and FRAG |
| `Socks5.UdpPacketBytes` | crates/proxy-bridge-core/src/proxy/socks5.rs:183-191 | the datagram byte by byte |
| `Socks5.UdpParsedExactly` | crates/proxy-bridge-core/src/proxy/socks5.rs:194-209 | parsed iff ten bytes are there, the fragment byte is 0 and the address type is 1; bytes 4 to 9 are address and port |
| `Socks5.UdpBuildThenParse` | crates/proxy-bridge-core/src/proxy/socks5.rs:183-209 | parsing a built datagram returns its address, port and data offset |
| `Socks5.UdpParseThenBuild` | crates/proxy-bridge-core/src/proxy/socks5.rs:183-209 | rebuilding a parsed datagram restores it iff its RSV bytes are zero |
| `Socks5Server.LoginDecodesExactly` | crates/proxy-bridge-core/src/proxy/socks5.rs:48-53 | an RFC 1929 server recovers the login iff both parts have 1 to 255 bytes; longer ones are truncated |
| `Socks5Server.ConversationSucceeds` | crates/proxy-bridge-core/src/proxy/socks5.rs:8-180 | with a conforming server and any offered method with an accepted login: same login and request at the server; if it grants the request, bound address and first application byte at the client, otherwise its status as the error |
| `Socks5Server.ConversationSettles` | crates/proxy-bridge-core/src/proxy/socks5.rs:8-180 | three rounds suffice, whichever method is chosen |
| `Socks5Server.ConnectReachesServer` | crates/proxy-bridge-core/src/proxy/socks5.rs:73-100 | the server decodes the destination the client was asked for, and the client succeeds iff the server grants it |
| `Socks5Server.RefusedLoginStops` | crates/proxy-bridge-core/src/proxy/socks5.rs:66-71 | a refused login ends the handshake before any request |

## Left out

- `linux/src/netfilter.rs`, `linux/build.rs`: nftables setup; assumed only that marked packets reach the relay with their source port.
- HTTP CONNECT (`proxy/http.rs`): the relay step needs only its outcome; the request itself is the event `HttpRequested`.
- `/proc` scanning, SOCK_DIAG system calls and executable names: answers that may differ at every call.
- Sockets, task scheduling, bidirectional copying after the handshake, signals and logging.
- Command line, proxy URL parsing and banner: straight-line code.
- Unicode white space in `trim` and Unicode case mapping in `to_uppercase`: ASCII only.
- Big-endian hosts: `from_ne_bytes` is little-endian, as `rule.rs` assumes throughout.
- Bridge shutdown and receive errors: the loops run over the packets or turns given to them.
- Netlink.Walk: a header or diag message read past the end of the buffer is undefined in the source; here it ends the walk with the outcome `Overrun`.
- RuleStore.IdsStayDistinct: says nothing beyond 2^32-1 draws, where ids repeat.
- Interception.RunInv: a handshake task is one step, because it touches no shared state, and a request cut short by a write failure is not an event; clearing the tracker, which the bridge never does, is not a step.
- Connection.ConnectionTracker.CleanupStale: `retain` removes in place; the model builds the kept map and assigns it, under the same lock.

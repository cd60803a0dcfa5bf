/** The rule engine of `rule.rs`: evaluation order, rule-list edits and the rule text format. */
module Rules {
  import opened Common
  import opened Text
  import opened ProcessPattern
  import opened AddressPattern

  datatype Rule = Rule(
    id: u32,
    processName: string,
    targetHosts: string,
    targetPorts: string,
    protocol: RuleProtocol,
    action: RuleAction,
    enabled: bool)

  datatype Query = Query(processName: string, destIp: u32, destPort: u16, isUdp: bool)

  // --- What a single rule says ---

  predicate IsWildcardProcess(r: Rule) {
    r.processName == "*" || EqIgnoreCase(r.processName, "ANY")
  }

  /** An unfiltered wildcard rule, evaluated after every other rule. */
  predicate IsCatchAll(r: Rule) {
    IsWildcardProcess(r) && r.targetHosts == "*" && r.targetPorts == "*"
  }

  predicate Applies(r: Rule, q: Query) {
    && r.enabled
    && (r.protocol == Tcp ==> !q.isUdp)
    && (r.protocol == Udp ==> q.isUdp)
    && (IsWildcardProcess(r) || MatchProcessList(r.processName, q.processName))
    && MatchIpList(r.targetHosts, q.destIp)
    && MatchPortList(r.targetPorts, q.destPort)
  }

  /** What `add_rule` guarantees of every stored rule. */
  predicate FieldsPresent(r: Rule) {
    r.processName != "" && r.targetHosts != "" && r.targetPorts != ""
  }

  // --- Plain first match, and the order in which rules are really tried ---

  function FirstApplying(rules: seq<Rule>, q: Query): (r: Option<Rule>)
    ensures r.Some? ==> r.value in rules && Applies(r.value, q)
    ensures r.None? <==> forall i :: 0 <= i < |rules| ==> !Applies(rules[i], q)
  {
    if rules == [] then None
    else if Applies(rules[0], q) then Some(rules[0])
    else FirstApplying(rules[1..], q)
  }

  function ActionOf(r: Option<Rule>): RuleAction {
    if r.Some? then r.value.action else Direct
  }

  /** The sublist of rules that are catch-all (`c`) or not (`!c`), in order. */
  function Select(rules: seq<Rule>, c: bool): seq<Rule> {
    if rules == [] then [] else Pick(rules[0], c) + Select(rules[1..], c)
  }

  function Pick(r: Rule, c: bool): seq<Rule> {
    if IsCatchAll(r) == c then [r] else []
  }

  /** Stable partition: catch-all rules last. */
  function Partition(rules: seq<Rule>): seq<Rule> {
    Select(rules, false) + Select(rules, true)
  }

  /** Plain first match over the partitioned list. */
  function Decide(rules: seq<Rule>, q: Query): RuleAction {
    ActionOf(FirstApplying(Partition(rules), q))
  }

  lemma {:induction false} SelectConcat(a: seq<Rule>, b: seq<Rule>, c: bool)
    ensures Select(a + b, c) == Select(a, c) + Select(b, c)
  {
    if a == [] {
      assert a + b == b;
    } else {
      assert (a + b)[1..] == a[1..] + b;
      SelectConcat(a[1..], b, c);
      assert Pick(a[0], c) + (Select(a[1..], c) + Select(b, c)) == (Pick(a[0], c) + Select(a[1..], c)) + Select(b, c);
    }
  }

  lemma {:induction false} FirstApplyingConcat(a: seq<Rule>, b: seq<Rule>, q: Query)
    ensures FirstApplying(a + b, q) == if FirstApplying(a, q).Some? then FirstApplying(a, q) else FirstApplying(b, q)
  {
    if a == [] {
      assert a + b == b;
    } else {
      assert (a + b)[1..] == a[1..] + b;
      FirstApplyingConcat(a[1..], b, q);
    }
  }

  lemma {:induction false} PartitionPermutes(rules: seq<Rule>)
    ensures multiset(Partition(rules)) == multiset(rules)
  {
    if rules == [] {
    } else {
      PartitionPermutes(rules[1..]);
      assert rules == [rules[0]] + rules[1..];
    }
  }

  lemma DecideParts(rules: seq<Rule>, q: Query)
    ensures Decide(rules, q) ==
      if FirstApplying(Select(rules, false), q).Some?
      then FirstApplying(Select(rules, false), q).value.action
      else ActionOf(FirstApplying(Select(rules, true), q))
  {
    FirstApplyingConcat(Select(rules, false), Select(rules, true), q);
  }

  /** What the evaluation loop still has to decide at index `i` with `w` put aside. */
  function Scan(rules: seq<Rule>, i: nat, q: Query, w: Option<Rule>): RuleAction
    requires i <= |rules|
    decreases |rules| - i
  {
    if i == |rules| then ActionOf(w)
    else if !Applies(rules[i], q) then Scan(rules, i + 1, q, w)
    else if IsCatchAll(rules[i]) then Scan(rules, i + 1, q, if w.None? then Some(rules[i]) else w)
    else rules[i].action
  }

  lemma {:induction false} ScanSuffix(rules: seq<Rule>, i: nat, q: Query, w: Option<Rule>)
    requires i <= |rules|
    ensures Scan(rules, i, q, w) ==
      var plain := FirstApplying(Select(rules[i..], false), q);
      if plain.Some? then plain.value.action
      else if w.Some? then w.value.action
      else ActionOf(FirstApplying(Select(rules[i..], true), q))
    decreases |rules| - i
  {
    if i == |rules| {
    } else {
      var h, t := rules[i], rules[i + 1..];
      assert rules[i..][0] == h && rules[i..][1..] == t;
      PickFirst(h, t, true, q);
      PickFirst(h, t, false, q);
      if Applies(h, q) {
        if IsCatchAll(h) { ScanSuffix(rules, i + 1, q, if w.None? then Some(h) else w); }
      } else {
        ScanSuffix(rules, i + 1, q, w);
      }
    }
  }

  lemma ScanIsDecide(rules: seq<Rule>, q: Query)
    ensures Scan(rules, 0, q, None) == Decide(rules, q)
  {
    ScanSuffix(rules, 0, q, None);
    assert rules[0..] == rules;
    DecideParts(rules, q);
  }

  lemma PickFirst(h: Rule, t: seq<Rule>, c: bool, q: Query)
    ensures FirstApplying(Pick(h, c) + Select(t, c), q) ==
      if IsCatchAll(h) == c && Applies(h, q) then Some(h) else FirstApplying(Select(t, c), q)
  {
    FirstApplyingConcat(Pick(h, c), Select(t, c), q);
    FirstOfOne(h, q);
  }

  lemma FirstOfOne(rule: Rule, q: Query)
    ensures FirstApplying([rule], q) == if Applies(rule, q) then Some(rule) else None
  {
  }

  // --- rule.rs: RuleEngine ---

  /** The process-wide `NEXT_RULE_ID` counter; `fetch_add` wraps. */
  class RuleIds {
    var next: u32

    constructor ()
      ensures next == 1
    {
      next := 1;
    }

    method FetchAdd() returns (id: u32)
      modifies this
      ensures id == old(next) && next == (old(next) + 1) % 0x1_0000_0000
    {
      id := next;
      next := (next + 1) % 0x1_0000_0000;
    }
  }

  /** Empty host and port filters are stored as `*`. */
  function OrStar(s: string): string {
    if s == "" then "*" else s
  }

  function SetEnabled(rules: seq<Rule>, id: u32, on: bool): (r: seq<Rule>)
    ensures |r| == |rules|
  {
    if rules == [] then []
    else if rules[0].id == id then [rules[0].(enabled := on)] + rules[1..]
    else [rules[0]] + SetEnabled(rules[1..], id, on)
  }

  function Without(rules: seq<Rule>, id: u32): seq<Rule> {
    if rules == [] then []
    else (if rules[0].id == id then [] else [rules[0]]) + Without(rules[1..], id)
  }

  predicate HasId(rules: seq<Rule>, id: u32) {
    exists i :: 0 <= i < |rules| && rules[i].id == id
  }

  predicate HasActive(rules: seq<Rule>) {
    exists i :: 0 <= i < |rules| && rules[i].enabled
  }

  lemma {:induction false} SetEnabledAt(rules: seq<Rule>, id: u32, on: bool, i: nat)
    requires i < |rules| && rules[i].id == id && forall k :: 0 <= k < i ==> rules[k].id != id
    ensures SetEnabled(rules, id, on) == rules[i := rules[i].(enabled := on)]
  {
    if i == 0 {
    } else {
      SetEnabledAt(rules[1..], id, on, i - 1);
    }
  }

  lemma {:induction false} SetEnabledAbsent(rules: seq<Rule>, id: u32, on: bool)
    requires !HasId(rules, id)
    ensures SetEnabled(rules, id, on) == rules && Without(rules, id) == rules
  {
    if rules == [] {
    } else {
      assert rules[0].id != id;
      assert forall i :: 0 <= i < |rules[1..]| ==> rules[1..][i] == rules[i + 1];
      SetEnabledAbsent(rules[1..], id, on);
    }
  }

  lemma {:induction false} WithoutMembers(rules: seq<Rule>, id: u32)
    ensures forall r :: r in Without(rules, id) <==> r in rules && r.id != id
    ensures |Without(rules, id)| <= |rules|
    ensures |Without(rules, id)| == |rules| <==> !HasId(rules, id)
  {
    if rules == [] {
    } else {
      WithoutMembers(rules[1..], id);
      assert rules == [rules[0]] + rules[1..];
      if HasId(rules[1..], id) {
        var i :| 0 <= i < |rules[1..]| && rules[1..][i].id == id;
        assert rules[i + 1].id == id;
      }
      if HasId(rules, id) && rules[0].id != id {
        var i :| 0 <= i < |rules| && rules[i].id == id;
        assert rules[1..][i - 1].id == id;
      }
    }
  }

  lemma {:induction false} WithoutConcat(a: seq<Rule>, b: seq<Rule>, id: u32)
    ensures Without(a + b, id) == Without(a, id) + Without(b, id)
  {
    if a == [] {
      assert a + b == b;
    } else {
      assert (a + b)[1..] == a[1..] + b;
      WithoutConcat(a[1..], b, id);
    }
  }

  class RuleEngine {
    var rules: seq<Rule>
    const ids: RuleIds

    ghost predicate Valid()
      reads this
    {
      forall i :: 0 <= i < |rules| ==> FieldsPresent(rules[i])
    }

    constructor (ids: RuleIds)
      ensures Valid() && rules == [] && this.ids == ids
    {
      this.ids := ids;
      rules := [];
    }

    method AddRule(process: string, hosts: string, ports: string, protocol: RuleProtocol, action: RuleAction)
      returns (id: u32)
      requires Valid()
      modifies this, ids
      ensures Valid()
      ensures process == "" ==> id == 0 && rules == old(rules) && ids.next == old(ids.next)
      ensures process != "" ==> id == old(ids.next) && ids.next == (old(ids.next) + 1) % 0x1_0000_0000
      ensures process != "" ==>
        rules == old(rules) + [Rule(id, process, if hosts == "" then "*" else hosts,
                                    if ports == "" then "*" else ports, protocol, action, true)]
    {
      if process == "" { return 0; }
      id := ids.FetchAdd();
      var targetHosts := if hosts == "" then "*" else hosts;
      var targetPorts := if ports == "" then "*" else ports;
      var rule := Rule(id, process, targetHosts, targetPorts, protocol, action, true);
      rules := rules + [rule];
    }

    method SwitchRule(id: u32, on: bool) returns (found: bool)
      requires Valid()
      modifies this
      ensures Valid()
      ensures found == HasId(old(rules), id) && rules == SetEnabled(old(rules), id, on)
    {
      var i := 0;
      while i < |rules|
        invariant 0 <= i <= |rules| && rules == old(rules)
        invariant forall k :: 0 <= k < i ==> rules[k].id != id
      {
        if rules[i].id == id {
          SetEnabledAt(rules, id, on, i);
          rules := rules[i := rules[i].(enabled := on)];
          return true;
        }
        i := i + 1;
      }
      SetEnabledAbsent(rules, id, on);
      found := false;
    }

    method EnableRule(id: u32) returns (found: bool)
      requires Valid()
      modifies this
      ensures Valid()
      ensures found == HasId(old(rules), id) && rules == SetEnabled(old(rules), id, true)
    {
      found := SwitchRule(id, true);
    }

    method DisableRule(id: u32) returns (found: bool)
      requires Valid()
      modifies this
      ensures Valid()
      ensures found == HasId(old(rules), id) && rules == SetEnabled(old(rules), id, false)
    {
      found := SwitchRule(id, false);
    }

    method DeleteRule(id: u32) returns (found: bool)
      requires Valid()
      modifies this
      ensures Valid()
      ensures found == HasId(old(rules), id) && rules == Without(old(rules), id)
    {
      var before := rules;
      var i, kept := 0, [];
      while i < |before|
        invariant 0 <= i <= |before| && kept == Without(before[..i], id)
      {
        WithoutConcat(before[..i], [before[i]], id);
        assert before[..i + 1] == before[..i] + [before[i]];
        if before[i].id != id { kept := kept + [before[i]]; }
        i := i + 1;
      }
      assert before[..i] == before;
      rules := kept;
      WithoutMembers(before, id);
      found := |rules| != |before|;
      assert forall k :: 0 <= k < |rules| ==> rules[k] in before;
    }

    method HasActiveRules() returns (active: bool)
      ensures active == HasActive(rules)
    {
      for i := 0 to |rules|
        invariant forall k :: 0 <= k < i ==> !rules[k].enabled
      {
        if rules[i].enabled { return true; }
      }
      active := false;
    }

    /** The evaluation loop: one pass with the first applicable catch-all rule put aside. */
    method MatchRule(q: Query) returns (action: RuleAction)
      ensures action == Decide(rules, q)
    {
      var wildcard: Option<Rule> := None;
      ScanIsDecide(rules, q);
      for i := 0 to |rules|
        invariant Scan(rules, i, q, wildcard) == Decide(rules, q)
      {
        var rule := rules[i];
        if !rule.enabled { assert !Applies(rule, q); continue; }
        if rule.protocol == Tcp && q.isUdp { assert !Applies(rule, q); continue; }
        if rule.protocol == Udp && !q.isUdp { assert !Applies(rule, q); continue; }
        if IsWildcardProcess(rule) {
          var hasIpFilter := rule.targetHosts != "*";
          var hasPortFilter := rule.targetPorts != "*";
          if hasIpFilter || hasPortFilter {
            if MatchIpList(rule.targetHosts, q.destIp) && MatchPortList(rule.targetPorts, q.destPort) {
              assert Applies(rule, q) && !IsCatchAll(rule);
              return rule.action;
            }
            assert !Applies(rule, q);
            continue;
          }
          assert Applies(rule, q) && IsCatchAll(rule);
          if wildcard.None? { wildcard := Some(rule); }
          continue;
        }
        if MatchProcessList(rule.processName, q.processName)
           && MatchIpList(rule.targetHosts, q.destIp) && MatchPortList(rule.targetPorts, q.destPort) {
          assert Applies(rule, q) && !IsCatchAll(rule);
          return rule.action;
        }
        assert !Applies(rule, q);
      }
      if wildcard.Some? { return wildcard.value.action; }
      action := Direct;
    }
  }

  /** How an appended rule changes the first applicable rule of a class. */
  lemma AppendToClass(before: seq<Rule>, rule: Rule, c: bool, q: Query)
    ensures FirstApplying(Select(before + [rule], c), q) ==
      if FirstApplying(Select(before, c), q).Some? then FirstApplying(Select(before, c), q)
      else if IsCatchAll(rule) == c && Applies(rule, q) then Some(rule) else None
  {
    SelectConcat(before, [rule], c);
    assert Select([rule], c) == Pick(rule, c);
    FirstApplyingConcat(Select(before, c), Pick(rule, c), q);
    FirstOfOne(rule, q);
  }

  // --- What a single rule admits, and when it is deferred ---

  /** `*`, or `ANY` in upper and lower case. */
  predicate NamesEveryProcess(process: string) {
    || process == "*"
    || (|process| == 3 && process[0] in {'A', 'a'} && process[1] in {'N', 'n'} && process[2] in {'Y', 'y'})
  }

  lemma WildcardExactly(r: Rule)
    ensures IsWildcardProcess(r) <==> NamesEveryProcess(r.processName)
  {
    IgnoresCaseExactly(r.processName, "ANY");
  }

  /** The transport is the rule's, or the rule is for both. */
  predicate FitsTransport(protocol: RuleProtocol, isUdp: bool) {
    match protocol
    case Tcp => !isUdp
    case Udp => isUdp
    case Both => true
  }

  /** A rule alone decides a query exactly when it is enabled and process, transport, host and port all fit. */
  lemma OneRuleExactly(r: Rule, q: Query)
    ensures Decide([r], q) ==
      if && r.enabled
         && FitsTransport(r.protocol, q.isUdp)
         && (NamesEveryProcess(r.processName) || MatchProcessList(r.processName, q.processName))
         && MatchIpList(r.targetHosts, q.destIp)
         && MatchPortList(r.targetPorts, q.destPort)
      then r.action else Direct
  {
    hide MatchProcessList, MatchIpList, MatchPortList, IsCatchAll, IsWildcardProcess;
    WildcardExactly(r);
    PickFirst(r, [], true, q);
    PickFirst(r, [], false, q);
    DecideParts([r], q);
  }

  /** Of two rules that both apply the first decides, unless it names every process and filters nothing while the
      second does not. */
  lemma TwoRulesExactly(a: Rule, b: Rule, q: Query)
    requires Applies(a, q) && Applies(b, q)
    ensures Decide([a, b], q) ==
      if && NamesEveryProcess(a.processName) && a.targetHosts == "*" && a.targetPorts == "*"
         && !(NamesEveryProcess(b.processName) && b.targetHosts == "*" && b.targetPorts == "*")
      then b.action else a.action
  {
    hide Applies, IsWildcardProcess;
    WildcardExactly(a);
    WildcardExactly(b);
    assert [a] + [b] == [a, b];
    AppendToClass([a], b, true, q);
    AppendToClass([a], b, false, q);
    PickFirst(a, [], true, q);
    PickFirst(a, [], false, q);
    DecideParts([a, b], q);
  }

  /** Exchanging upper and lower case in the name of a program or of a rule's process never changes whether the rule
      applies. */
  lemma RuleCaseIsIrrelevant(r: Rule, process: string, q: Query, path: string)
    requires SameLetters(r.processName, process) && SameLetters(q.processName, path)
    ensures Applies(r, q) == Applies(r.(processName := process), q.(processName := path))
    ensures IsWildcardProcess(r) == IsWildcardProcess(r.(processName := process))
  {
    hide MatchProcessList, MatchIpList, MatchPortList, EqIgnoreCase;
    ListCaseIsIrrelevant(r.processName, process, q.processName, path);
    StarAlone(r.processName, process);
    SameLettersChain(r.processName, process, "ANY", "ANY");
  }

  // --- Laws of rule lists ---

  /** The documentation promises plain first match. The loop delivers it unless the first applicable
      rule is a catch-all and some other applicable rule has a different action. */
  lemma FirstMatchExactly(rules: seq<Rule>, q: Query)
    ensures Decide(rules, q) == ActionOf(FirstApplying(rules, q)) <==>
      !(&& FirstApplying(rules, q).Some?
        && IsCatchAll(FirstApplying(rules, q).value)
        && FirstApplying(Select(rules, false), q).Some?
        && FirstApplying(Select(rules, false), q).value.action != FirstApplying(rules, q).value.action)
  {
    DecideParts(rules, q);
    FirstOfEither(rules, q);
  }

  /** The first applicable rule heads its own class. */
  lemma {:induction false} FirstOfEither(rules: seq<Rule>, q: Query)
    ensures var f := FirstApplying(rules, q);
      if f.Some? then FirstApplying(Select(rules, IsCatchAll(f.value)), q) == f
      else FirstApplying(Select(rules, true), q) == None && FirstApplying(Select(rules, false), q) == None
  {
    if rules == [] {
    } else {
      var h := rules[0];
      FirstOfEither(rules[1..], q);
      FirstOfOne(h, q);
      FirstApplyingConcat([h], Select(rules[1..], IsCatchAll(h)), q);
      assert [] + Select(rules[1..], !IsCatchAll(h)) == Select(rules[1..], !IsCatchAll(h));
    }
  }

  lemma {:induction false} FirstIndex(rules: seq<Rule>, q: Query) returns (i: nat)
    requires FirstApplying(rules, q).Some?
    ensures i < |rules| && FirstApplying(rules, q) == Some(rules[i])
    ensures forall k :: 0 <= k < i ==> !Applies(rules[k], q)
  {
    if Applies(rules[0], q) {
      i := 0;
    } else {
      var k := FirstIndex(rules[1..], q);
      i := k + 1;
    }
  }

  lemma {:induction false} SelectMembers(rules: seq<Rule>, c: bool)
    ensures forall r :: r in Select(rules, c) <==> r in rules && IsCatchAll(r) == c
  {
    if rules == [] {
    } else {
      SelectMembers(rules[1..], c);
      assert rules == [rules[0]] + rules[1..];
    }
  }

  /** No enabled catch-all rule precedes an enabled rule of another kind with a different action. */
  predicate CatchAllsYield(rules: seq<Rule>) {
    forall i, j :: 0 <= i < j < |rules| && IsCatchAll(rules[i]) && !IsCatchAll(rules[j]) ==>
      rules[i].action == rules[j].action || !rules[i].enabled || !rules[j].enabled
  }

  /** On such lists, which include the partitioned ones, the documented order holds for every query. */
  lemma FirstMatchForAll(rules: seq<Rule>, q: Query)
    requires CatchAllsYield(rules) || Partition(rules) == rules
    ensures Decide(rules, q) == ActionOf(FirstApplying(rules, q))
  {
    hide IsCatchAll;
    FirstMatchExactly(rules, q);
    SelectMembers(rules, false);
    var f, g := FirstApplying(rules, q), FirstApplying(Select(rules, false), q);
    if CatchAllsYield(rules) && f.Some? && IsCatchAll(f.value) && g.Some? {
      var i := FirstIndex(rules, q);
      var j :| 0 <= j < |rules| && rules[j] == g.value;
      assert i < j;
    }
  }

  /** A program name without list, path, star or blank characters. */
  predicate PlainName(name: string) {
    name != "" && forall c :: c in name ==> c != ';' && c != '/' && c != '*' && !IsSpace(c)
  }

  /** A name matches the program of that name in any directory. */
  lemma PlainNameMatches(name: string, dir: string)
    requires PlainName(name)
    ensures MatchProcessList(name, name) && MatchProcessList(name, dir + "/" + name)
  {
    SplitNone(name, {';'});
    SplitNone(name, {'/'});
    ListIsAny(name, name);
    ListIsAny(name, dir + "/" + name);
    assert name[0] in name && name[|name| - 1] in name;
    assert Trim(Split(name, {';'})[0]) == name;
    assert EqIgnoreCase(FileName(name), name);
    DirectoryIsIgnored(name, dir, name);
    assert MatchProcessPattern(Trim(Split(name, {';'})[0]), name);
    assert MatchProcessPattern(Trim(Split(name, {';'})[0]), dir + "/" + name);
  }

  /** The documented order fails: a blocking catch-all rule listed first is overridden by a later rule for the
      program, whatever directory the program runs from. */
  lemma CatchAllFirstIsOverridden(q: Query, dir: string, name: string)
    requires q.processName in {name, dir + "/" + name} && PlainName(name) && !EqIgnoreCase(name, "ANY")
    ensures var rules := [Rule(1, "*", "*", "*", Both, Block, true), Rule(2, name, "*", "*", Both, Proxy, true)];
      ActionOf(FirstApplying(rules, q)) == Block && Decide(rules, q) == Proxy
  {
    var a, b := Rule(1, "*", "*", "*", Both, Block, true), Rule(2, name, "*", "*", Both, Proxy, true);
    PlainNameMatches(name, dir);
    assert name != "*" by { assert name[0] in name; }
    AppendToClass([a], b, false, q);
    assert [a] + [b] == [a, b];
    assert Select([a], false) == [];
    DecideParts([a, b], q);
  }

  /** Moving a catch-all rule past other kinds of rules changes no decision. */
  lemma CatchAllFloats(before: seq<Rule>, w: Rule, middle: seq<Rule>, after: seq<Rule>, q: Query)
    requires IsCatchAll(w) && forall i :: 0 <= i < |middle| ==> !IsCatchAll(middle[i])
    ensures Decide(before + [w] + middle + after, q) == Decide(before + middle + [w] + after, q)
  {
    FloatsIn(before, w, middle, after, true);
    FloatsIn(before, w, middle, after, false);
  }

  lemma FloatsIn(a: seq<Rule>, w: Rule, m: seq<Rule>, d: seq<Rule>, c: bool)
    requires IsCatchAll(w) && forall i :: 0 <= i < |m| ==> !IsCatchAll(m[i])
    ensures Select(a + [w] + m + d, c) == Select(a + m + [w] + d, c)
  {
    SelectOne(w, c);
    if c { SelectNone(m); }
    hide IsCatchAll, Select;
    SelectFour(a, [w], m, d, c);
    SelectFour(a, m, [w], d, c);
    SwapMiddle(Select(a, c), Select([w], c), Select(m, c));
  }

  lemma SwapMiddle(x: seq<Rule>, y: seq<Rule>, z: seq<Rule>)
    requires y == [] || z == []
    ensures x + y + z == x + z + y
  {
  }

  lemma SelectOne(w: Rule, c: bool)
    ensures Select([w], c) == Pick(w, c)
  {
  }

  lemma SelectFour(a: seq<Rule>, b: seq<Rule>, m: seq<Rule>, d: seq<Rule>, c: bool)
    ensures Select(a + b + m + d, c) == Select(a, c) + Select(b, c) + Select(m, c) + Select(d, c)
  {
    SelectConcat(a + b + m, d, c);
    SelectConcat(a + b, m, c);
    SelectConcat(a, b, c);
  }

  lemma {:induction false} SelectNone(rules: seq<Rule>)
    requires forall i :: 0 <= i < |rules| ==> !IsCatchAll(rules[i])
    ensures Select(rules, true) == []
  {
    if rules == [] {
    } else {
      SelectNone(rules[1..]);
    }
  }

  /** Among stored rules, catch-all is the same as having no filter at all. */
  lemma CatchAllIsUnfiltered(r: Rule)
    requires FieldsPresent(r) && IsWildcardProcess(r)
    ensures IsCatchAll(r) <==> r.targetHosts in {"", "*"} && r.targetPorts in {"", "*"}
  {
  }

  lemma {:induction false} SelectActive(rules: seq<Rule>, c: bool, q: Query)
    requires !HasActive(rules)
    ensures FirstApplying(Select(rules, c), q) == None
  {
    if rules == [] {
    } else {
      assert !rules[0].enabled;
      assert forall i :: 0 <= i < |rules[1..]| ==> rules[1..][i] == rules[i + 1];
      SelectActive(rules[1..], c, q);
      FirstApplyingConcat(Pick(rules[0], c), Select(rules[1..], c), q);
    }
  }

  /** Without an enabled rule every packet is direct. */
  lemma InactiveIsDirect(rules: seq<Rule>, q: Query)
    requires !HasActive(rules)
    ensures Decide(rules, q) == Direct
  {
    DecideParts(rules, q);
    SelectActive(rules, false, q);
    SelectActive(rules, true, q);
  }

  /** Appending a rule: it is consulted after every rule of its kind. */
  lemma AppendedRule(rules: seq<Rule>, r: Rule, q: Query)
    ensures Decide(rules + [r], q) ==
      if FirstApplying(Select(rules, false), q).Some? then Decide(rules, q)
      else if Applies(r, q) && (!IsCatchAll(r) || FirstApplying(Select(rules, true), q).None?) then r.action
      else Decide(rules, q)
  {
    DecideParts(rules, q);
    DecideParts(rules + [r], q);
    AppendToClass(rules, r, false, q);
    AppendToClass(rules, r, true, q);
  }

  predicate DistinctIds(rules: seq<Rule>) {
    forall i, j :: 0 <= i < j < |rules| ==> rules[i].id != rules[j].id
  }

  lemma {:induction false} DisableDropsFromClass(rules: seq<Rule>, id: u32, c: bool, q: Query)
    requires DistinctIds(rules)
    ensures FirstApplying(Select(SetEnabled(rules, id, false), c), q) == FirstApplying(Select(Without(rules, id), c), q)
  {
    if rules == [] {
    } else {
      var h, t := rules[0], rules[1..];
      assert DistinctIds(t) by { assert forall i :: 0 <= i < |t| ==> t[i] == rules[i + 1]; }
      if h.id == id {
        var off := h.(enabled := false);
        assert !HasId(t, id) by { assert forall i :: 0 <= i < |t| ==> t[i] == rules[i + 1]; }
        SetEnabledAbsent(t, id, false);
        assert Without(rules, id) == t;
        SelectConcat([off], t, c);
        FirstApplyingConcat(Select([off], c), Select(t, c), q);
        assert Select([off], c) == if IsCatchAll(off) == c then [off] else [];
        FirstOfOne(off, q);
      } else {
        DisableDropsFromClass(t, id, c, q);
        SelectConcat([h], SetEnabled(t, id, false), c);
        SelectConcat([h], Without(t, id), c);
        FirstApplyingConcat(Select([h], c), Select(SetEnabled(t, id, false), c), q);
        FirstApplyingConcat(Select([h], c), Select(Without(t, id), c), q);
      }
    }
  }

  /** Disabling a rule is indistinguishable from deleting it. */
  lemma DisableIsDelete(rules: seq<Rule>, id: u32, q: Query)
    requires DistinctIds(rules)
    ensures Decide(SetEnabled(rules, id, false), q) == Decide(Without(rules, id), q)
  {
    DisableDropsFromClass(rules, id, false, q);
    DisableDropsFromClass(rules, id, true, q);
    DecideParts(SetEnabled(rules, id, false), q);
    DecideParts(Without(rules, id), q);
  }

  /** Adding a rule and deleting it by its fresh id restores the list. */
  lemma AddThenDelete(rules: seq<Rule>, r: Rule)
    requires !HasId(rules, r.id)
    ensures Without(rules + [r], r.id) == rules
  {
    WithoutConcat(rules, [r], r.id);
    SetEnabledAbsent(rules, r.id, true);
  }

  // --- parse_rule_str ---

  datatype ParsedRule = ParsedRule(
    process: string,
    hosts: string,
    ports: string,
    protocol: RuleProtocol,
    action: RuleAction)

  function ParseProtocol(s: string): Option<RuleProtocol> {
    match ToUpper(s)
    case "TCP" => Some(Tcp)
    case "UDP" => Some(Udp)
    case "BOTH" => Some(Both)
    case _ => None
  }

  function ParseAction(s: string): Option<RuleAction> {
    match ToUpper(s)
    case "PROXY" => Some(Proxy)
    case "DIRECT" => Some(Direct)
    case "BLOCK" => Some(Block)
    case _ => None
  }

  function ParseRule(s: string): Option<ParsedRule> {
    var parts := Split(s, {':'});
    if |parts| != 5 then None
    else
      match (ParseProtocol(parts[3]), ParseAction(parts[4]))
      case (Some(protocol), Some(action)) =>
        Some(ParsedRule(OrStar(parts[0]), OrStar(parts[1]), OrStar(parts[2]), protocol, action))
      case _ => None
  }

  function ProtocolName(p: RuleProtocol): string {
    match p case Tcp => "TCP" case Udp => "UDP" case Both => "BOTH"
  }

  function ActionName(a: RuleAction): string {
    match a case Proxy => "PROXY" case Direct => "DIRECT" case Block => "BLOCK"
  }

  function ShowRule(p: ParsedRule): string {
    Join([p.process, p.hosts, p.ports, ProtocolName(p.protocol), ActionName(p.action)], ':')
  }

  lemma NamesParse(p: RuleProtocol, a: RuleAction)
    ensures ParseProtocol(ProtocolName(p)) == Some(p) && ParseAction(ActionName(a)) == Some(a)
    ensures ':' !in ProtocolName(p) && ':' !in ActionName(a)
  {
    assert ToUpper(ProtocolName(p)) == ProtocolName(p);
    assert ToUpper(ActionName(a)) == ActionName(a);
  }

  /** Printing a parsed rule and parsing again is a fixed point, and `add_rule` accepts the result. */
  lemma ParseShowParse(s: string)
    requires ParseRule(s).Some?
    ensures ParseRule(ShowRule(ParseRule(s).value)) == ParseRule(s)
    ensures ParseRule(s).value.process != ""
  {
    var p := ParseRule(s).value;
    NamesParse(p.protocol, p.action);
    SplitParts(s, {':'}, 0, ':');
    SplitParts(s, {':'}, 1, ':');
    SplitParts(s, {':'}, 2, ':');
    SplitJoin([p.process, p.hosts, p.ports, ProtocolName(p.protocol), ActionName(p.action)], ':');
  }

  lemma ProtocolExactly(s: string)
    ensures ParseProtocol(s) == Some(Tcp) <==> SameLetters(s, "TCP")
    ensures ParseProtocol(s) == Some(Udp) <==> SameLetters(s, "UDP")
    ensures ParseProtocol(s) == Some(Both) <==> SameLetters(s, "BOTH")
    ensures ParseProtocol(s) == None <==> !SameLetters(s, "TCP") && !SameLetters(s, "UDP") && !SameLetters(s, "BOTH")
  {
    hide ToUpper, SameLetters;
    UpperExactly(s, "TCP");
    UpperExactly(s, "UDP");
    UpperExactly(s, "BOTH");
  }

  lemma ActionExactly(s: string)
    ensures ParseAction(s) == Some(Proxy) <==> SameLetters(s, "PROXY")
    ensures ParseAction(s) == Some(Direct) <==> SameLetters(s, "DIRECT")
    ensures ParseAction(s) == Some(Block) <==> SameLetters(s, "BLOCK")
    ensures ParseAction(s) == None <==>
      !SameLetters(s, "PROXY") && !SameLetters(s, "DIRECT") && !SameLetters(s, "BLOCK")
  {
    hide ToUpper, SameLetters;
    UpperExactly(s, "PROXY");
    UpperExactly(s, "DIRECT");
    UpperExactly(s, "BLOCK");
  }

  /** The fields of a rule text: empty filters are read as `*`, keywords in any case. */
  ghost predicate ReadsAs(fields: seq<string>, p: Option<ParsedRule>) {
    && (p.Some? <==>
      && |fields| == 5
      && (SameLetters(fields[3], "TCP") || SameLetters(fields[3], "UDP") || SameLetters(fields[3], "BOTH"))
      && (SameLetters(fields[4], "PROXY") || SameLetters(fields[4], "DIRECT") || SameLetters(fields[4], "BLOCK")))
    && (p.Some? ==>
      var r := p.value;
      && r.process == (if fields[0] == "" then "*" else fields[0])
      && r.hosts == (if fields[1] == "" then "*" else fields[1])
      && r.ports == (if fields[2] == "" then "*" else fields[2])
      && (r.protocol.Tcp? <==> SameLetters(fields[3], "TCP")) && (r.protocol.Udp? <==> SameLetters(fields[3], "UDP"))
      && (r.action.Proxy? <==> SameLetters(fields[4], "PROXY"))
      && (r.action.Direct? <==> SameLetters(fields[4], "DIRECT")))
  }

  lemma FieldsRead(s: string, fields: seq<string>)
    requires Split(s, {':'}) == fields
    ensures ReadsAs(fields, ParseRule(s))
  {
    hide ParseProtocol, ParseAction, SameLetters, Split;
    if |fields| == 5 {
      ProtocolExactly(fields[3]);
      ActionExactly(fields[4]);
    }
  }

  /** The text of a rule is five fields joined by colons; any other number of fields and any other keyword is
      refused. */
  lemma ParseExactly(fields: seq<string>)
    requires |fields| >= 1 && forall i :: 0 <= i < |fields| ==> ':' !in fields[i]
    ensures ReadsAs(fields, ParseRule(Join(fields, ':')))
  {
    hide ReadsAs, ParseRule;
    SplitJoin(fields, ':');
    FieldsRead(Join(fields, ':'), fields);
  }
}

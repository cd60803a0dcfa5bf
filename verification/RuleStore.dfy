/** Concurrent use of the rule engine: an adder draws its id from the atomic counter before it
    takes the list lock, so draws and insertions of different adders interleave freely. */
module RuleStore {
  import opened Common
  import opened Rules

  const ID_SPACE: nat := 0x1_0000_0000

  /** `waiting` holds the rules whose adders have an id but not yet the lock; `drawn` counts draws. */
  datatype Store = Store(next: u32, drawn: nat, waiting: map<nat, Rule>, rules: seq<Rule>)

  datatype Step =
    | Draw(adder: nat, process: string, hosts: string, ports: string, protocol: RuleProtocol, action: RuleAction)
    | Insert(adder: nat)
    | Switch(id: u32, on: bool)
    | Delete(id: u32)

  predicate Enabled(s: Store, t: Step) {
    match t
    case Draw(adder, process, _, _, _, _) => adder !in s.waiting && process != ""
    case Insert(adder) => adder in s.waiting
    case _ => true
  }

  function Apply(s: Store, t: Step): Store
    requires Enabled(s, t)
  {
    match t
    case Draw(adder, process, hosts, ports, protocol, action) =>
      s.(next := (s.next + 1) % ID_SPACE, drawn := s.drawn + 1,
         waiting := s.waiting[adder := Rule(s.next, process, OrStar(hosts), OrStar(ports), protocol, action, true)])
    case Insert(adder) => s.(waiting := s.waiting - {adder}, rules := s.rules + [s.waiting[adder]])
    case Switch(id, on) => s.(rules := SetEnabled(s.rules, id, on))
    case Delete(id) => s.(rules := Without(s.rules, id))
  }

  /** The store after a run, `None` if some step was not enabled. */
  function Run(steps: seq<Step>): Option<Store> {
    if steps == [] then Some(Store(1, 0, map[], []))
    else
      var last := steps[|steps| - 1];
      match Run(steps[..|steps| - 1])
      case Some(s) => if Enabled(s, last) then Some(Apply(s, last)) else None
      case None => None
  }

  /** An adder that is not interrupted does what `add_rule` promises. */
  lemma AloneIsAddRule(s: Store, adder: nat, process: string, hosts: string, ports: string, protocol: RuleProtocol,
                       action: RuleAction)
    requires adder !in s.waiting && process != ""
    ensures var t := Apply(Apply(s, Draw(adder, process, hosts, ports, protocol, action)), Insert(adder));
      && t.waiting == s.waiting && t.next == (s.next + 1) % ID_SPACE
      && t.rules == s.rules + [Rule(s.next, process, if hosts == "" then "*" else hosts,
                                    if ports == "" then "*" else ports, protocol, action, true)]
  {
    var w := s.waiting[adder := Rule(s.next, process, OrStar(hosts), OrStar(ports), protocol, action, true)];
    assert w - {adder} == s.waiting;
  }

  /** Every id held by a rule or by a waiting adder was drawn once. */
  ghost predicate IdsUnique(s: Store) {
    && DistinctIds(s.rules)
    && (forall a, b :: a in s.waiting && b in s.waiting && a != b ==> s.waiting[a].id != s.waiting[b].id)
    && (forall a, i :: a in s.waiting && 0 <= i < |s.rules| ==> s.waiting[a].id != s.rules[i].id)
  }

  ghost predicate IdsDrawn(s: Store) {
    && (forall i :: 0 <= i < |s.rules| ==> 1 <= s.rules[i].id <= s.drawn && FieldsPresent(s.rules[i]))
    && (forall a :: a in s.waiting ==> 1 <= s.waiting[a].id <= s.drawn && FieldsPresent(s.waiting[a]))
  }

  lemma {:induction false} WithoutDistinct(rules: seq<Rule>, id: u32)
    requires DistinctIds(rules)
    ensures DistinctIds(Without(rules, id))
  {
    if rules == [] {
    } else {
      assert forall i :: 0 <= i < |rules[1..]| ==> rules[1..][i] == rules[i + 1];
      WithoutDistinct(rules[1..], id);
      WithoutMembers(rules[1..], id);
      var w := Without(rules[1..], id);
      forall j | 0 <= j < |w| ensures w[j].id != rules[0].id {
        assert w[j] in rules[1..];
      }
    }
  }

  lemma {:induction false} SetEnabledKeeps(rules: seq<Rule>, id: u32, on: bool, i: nat)
    requires i < |rules|
    ensures SetEnabled(rules, id, on)[i].id == rules[i].id
    ensures FieldsPresent(rules[i]) ==> FieldsPresent(SetEnabled(rules, id, on)[i])
  {
    if rules[0].id == id || i == 0 {
    } else {
      SetEnabledKeeps(rules[1..], id, on, i - 1);
    }
  }

  lemma DrawKeepsIds(s: Store, t: Step)
    requires t.Draw? && Enabled(s, t) && IdsUnique(s) && IdsDrawn(s) && s.next == s.drawn + 1
    ensures IdsUnique(Apply(s, t)) && IdsDrawn(Apply(s, t))
  {
    var w := Apply(s, t).waiting;
    assert forall a :: a in w && a != t.adder ==> a in s.waiting && w[a] == s.waiting[a];
  }

  lemma InsertKeepsIds(s: Store, t: Step)
    requires t.Insert? && Enabled(s, t) && IdsUnique(s) && IdsDrawn(s)
    ensures IdsUnique(Apply(s, t)) && IdsDrawn(Apply(s, t))
  {
  }

  lemma SwitchKeepsIds(s: Store, t: Step)
    requires t.Switch? && IdsUnique(s) && IdsDrawn(s)
    ensures IdsUnique(Apply(s, t)) && IdsDrawn(Apply(s, t))
  {
    var r := SetEnabled(s.rules, t.id, t.on);
    forall i | 0 <= i < |s.rules| ensures r[i].id == s.rules[i].id && FieldsPresent(r[i]) {
      SetEnabledKeeps(s.rules, t.id, t.on, i);
    }
    assert Apply(s, t) == s.(rules := r);
  }

  lemma DeleteKeepsIds(s: Store, t: Step)
    requires t.Delete? && IdsUnique(s) && IdsDrawn(s)
    ensures IdsUnique(Apply(s, t)) && IdsDrawn(Apply(s, t))
  {
    WithoutDistinct(s.rules, t.id);
    WithoutMembers(s.rules, t.id);
    var w := Without(s.rules, t.id);
    forall i | 0 <= i < |w| ensures exists k :: 0 <= k < |s.rules| && s.rules[k] == w[i] {
      assert w[i] in s.rules;
    }
    assert Apply(s, t) == s.(rules := w);
  }

  lemma CounterStep(s: Store, t: Step)
    requires Enabled(s, t)
    ensures var n := Apply(s, t);
      if t.Draw? then n.drawn == s.drawn + 1 && n.next == (s.next + 1) % ID_SPACE
      else n.drawn == s.drawn && n.next == s.next
  {
  }

  /** Over every run with fewer than 2^32 draws, however adders interleave: ids are distinct and non-zero,
      and the counter says how many were drawn. */
  lemma {:induction false} IdsStayDistinct(steps: seq<Step>)
    requires Run(steps).Some? && Run(steps).value.drawn < ID_SPACE
    ensures var s := Run(steps).value;
      IdsUnique(s) && IdsDrawn(s) && s.next == (s.drawn + 1) % ID_SPACE
  {
    if steps == [] {
      assert Run(steps) == Some(Store(1, 0, map[], []));
    } else {
      hide Run, Apply, Enabled, IdsUnique, IdsDrawn;
      LastStep(steps);
      var before, t := Run(steps[..|steps| - 1]).value, steps[|steps| - 1];
      CounterStep(before, t);
      IdsStayDistinct(steps[..|steps| - 1]);
      StepKeepsIds(before, t);
    }
  }

  lemma LastStep(steps: seq<Step>)
    requires steps != [] && Run(steps).Some?
    ensures var init := steps[..|steps| - 1];
      Run(init).Some? && Enabled(Run(init).value, steps[|steps| - 1])
      && Run(steps).value == Apply(Run(init).value, steps[|steps| - 1])
  {
    hide Apply, Enabled;
  }

  lemma StepKeepsIds(s: Store, t: Step)
    requires Enabled(s, t) && IdsUnique(s) && IdsDrawn(s) && (t.Draw? ==> s.next == s.drawn + 1)
    ensures IdsUnique(Apply(s, t)) && IdsDrawn(Apply(s, t))
  {
    hide Apply, Enabled, IdsUnique, IdsDrawn;
    match t
    case Draw(_, _, _, _, _, _) => DrawKeepsIds(s, t);
    case Insert(_) => InsertKeepsIds(s, t);
    case Switch(_, _) => SwitchKeepsIds(s, t);
    case Delete(_) => DeleteKeepsIds(s, t);
  }

  /** The bound is sharp: draw number 2^32 hands out id 0, which callers read as failure. */
  lemma LastDrawIsZero(steps: seq<Step>)
    requires Run(steps).Some? && Run(steps).value.drawn == ID_SPACE - 1
    ensures Run(steps).value.next == 0
  {
    IdsStayDistinct(steps);
  }

  /** In every such run, disabling a stored rule and deleting it decide every packet alike. */
  lemma DisableIsDeleteInRuns(steps: seq<Step>, id: u32, q: Query)
    requires Run(steps).Some? && Run(steps).value.drawn < ID_SPACE
    ensures var s := Run(steps).value;
      Decide(Apply(s, Switch(id, false)).rules, q) == Decide(Apply(s, Delete(id)).rules, q)
  {
    hide Run, IdsDrawn, Decide;
    IdsStayDistinct(steps);
    DisableIsDelete(Run(steps).value.rules, id, q);
  }
}

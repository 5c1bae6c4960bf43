/** Load balancer listeners, rules and request dispatch (kumostack/services/alb.py), within
    one account and region. */
module Alb {
  import opened Prelude
  import QueryParams
  import Text

  type Condition = QueryParams.Condition

  datatype Action = Action(kind: string, order: int, target: string)

  datatype Listener = Listener(lb: string, port: int, defaults: seq<Action>)

  datatype Rule = Rule(
    listener: string,
    priority: string,
    conditions: seq<Condition>,
    actions: seq<Action>,
    isDefault: bool
  )

  /** Load balancer names, listeners and rules, each by ARN, in creation order. */
  datatype Stores = Stores(
    lbs: Entries<string, string>,
    listeners: Entries<string, Listener>,
    rules: Entries<string, Rule>
  )

  const EMPTY := Stores([], [], [])

  /** `arn` and `ruleArn` hold the random ids the handler draws. */
  datatype Request =
    | CreateLoadBalancer(name: string, arn: string)
    | DeleteLoadBalancer(lb: string)
    | CreateListener(lb: string, port: int, actions: seq<Action>, arn: string, ruleArn: string)
    | ModifyListener(listener: string, newPort: Option<int>, actions: seq<Action>)
    | DeleteListener(listener: string)
    | CreateRule(listener: string, priority: string, conditions: seq<Condition>, actions: seq<Action>, arn: string)
    | ModifyRule(rule: string, conditions: seq<Condition>, actions: seq<Action>)
    | DeleteRule(rule: string)
    | SetRulePriorities(priorities: seq<(string, string)>)

  datatype Reply = Ok | NotFound | Duplicate | Invalid | NotPermitted | ServerError

  // ---------------------------------------------------------------------
  // The control plane as state transitions
  // ---------------------------------------------------------------------

  predicate NameTaken(lbs: Entries<string, string>, name: string) {
    exists i :: 0 <= i < |lbs| && lbs[i].1 == name
  }

  /** The rules of all other listeners. */
  function WithoutListener(rules: Entries<string, Rule>, l: string): Entries<string, Rule> {
    if rules == [] then []
    else if rules[0].1.listener == l then WithoutListener(rules[1..], l)
    else [rules[0]] + WithoutListener(rules[1..], l)
  }

  function Reprioritize(rules: Entries<string, Rule>, ps: seq<(string, string)>): Entries<string, Rule>
    decreases |ps|
  {
    if ps == [] then rules
    else
      var r := Get(rules, ps[0].0);
      Reprioritize(if r.None? then rules else Put(rules, ps[0].0, r.value.(priority := ps[0].1)), ps[1..])
  }

  function DefaultRule(l: string, actions: seq<Action>): Rule {
    Rule(l, "default", [], actions, true)
  }

  function Step(s: Stores, r: Request): (Stores, Reply) {
    match r
    case CreateLoadBalancer(name, arn) =>
      if name == "" then (s, Invalid)
      else if NameTaken(s.lbs, name) then (s, Duplicate)
      else (s.(lbs := Put(s.lbs, arn, name)), Ok)
    case DeleteLoadBalancer(lb) => (s.(lbs := Remove(s.lbs, lb)), Ok)
    case CreateListener(lb, port, actions, arn, ruleArn) =>
      if !Has(s.lbs, lb) then (s, NotFound)
      else
        (s.(listeners := Put(s.listeners, arn, Listener(lb, port, actions)),
            rules := Put(s.rules, ruleArn, DefaultRule(arn, actions))), Ok)
    case ModifyListener(l, port, actions) =>
      var old' := Get(s.listeners, l);
      if old'.None? then (s, NotFound)
      else (s.(listeners := Put(s.listeners, l, ModifiedListener(old'.value, port, actions))), Ok)
    case DeleteListener(l) =>
      if !Has(s.listeners, l) then (s, NotFound)
      else (s.(listeners := Remove(s.listeners, l), rules := WithoutListener(s.rules, l)), Ok)
    case CreateRule(l, priority, conditions, actions, arn) =>
      var listener := Get(s.listeners, l);
      if listener.None? then (s, NotFound)
      else if !Has(s.lbs, listener.value.lb) then (s, ServerError)
      else (s.(rules := Put(s.rules, arn, Rule(l, priority, conditions, actions, false))), Ok)
    case ModifyRule(arn, conditions, actions) =>
      var rule := Get(s.rules, arn);
      if rule.None? then (s, NotFound)
      else (s.(rules := Put(s.rules, arn, ModifiedRule(rule.value, conditions, actions))), Ok)
    case DeleteRule(arn) =>
      var rule := Get(s.rules, arn);
      if rule.Some? && rule.value.isDefault then (s, NotPermitted)
      else (s.(rules := Remove(s.rules, arn)), Ok)
    case SetRulePriorities(ps) => (s.(rules := Reprioritize(s.rules, ps)), Ok)
  }

  /** An absent port and an empty action list leave the listener's own. */
  function ModifiedListener(l: Listener, port: Option<int>, actions: seq<Action>): Listener {
    Listener(l.lb, GetOr(port, l.port), if actions != [] then actions else l.defaults)
  }

  function ModifiedRule(r: Rule, conditions: seq<Condition>, actions: seq<Action>): Rule {
    r.(conditions := if conditions != [] then conditions else r.conditions,
       actions := if actions != [] then actions else r.actions)
  }

  // ---------------------------------------------------------------------
  // One default rule per listener
  // ---------------------------------------------------------------------

  function Defaults(rules: Entries<string, Rule>, l: string): nat {
    if rules == [] then 0
    else (if rules[0].1.listener == l && rules[0].1.isDefault then 1 else 0) + Defaults(rules[1..], l)
  }

  /** Every rule belongs to an existing listener; every listener has exactly one default rule. */
  ghost predicate Sound(s: Stores) {
    UniqueKeys(s.listeners) && UniqueKeys(s.rules) &&
    (forall arn :: Has(s.rules, arn) ==> Has(s.listeners, Get(s.rules, arn).value.listener)) &&
    (forall l :: Has(s.listeners, l) ==> Defaults(s.rules, l) == 1)
  }

  /** The ARNs a request draws are not in use. */
  ghost predicate DrawsFresh(s: Stores, r: Request) {
    match r
    case CreateListener(_, _, _, arn, ruleArn) => !Has(s.listeners, arn) && !Has(s.rules, ruleArn)
    case CreateRule(_, _, _, _, arn) => !Has(s.rules, arn)
    case _ => true
  }

  lemma {:induction false} DefaultsPut(rules: Entries<string, Rule>, arn: string, r: Rule, l: string)
    requires Has(rules, arn) ==>
               Get(rules, arn).value.listener == r.listener && Get(rules, arn).value.isDefault == r.isDefault
    ensures Defaults(Put(rules, arn, r), l) ==
            Defaults(rules, l) + if !Has(rules, arn) && r.listener == l && r.isDefault then 1 else 0
  {
    if rules != [] && rules[0].0 != arn {
      DefaultsPut(rules[1..], arn, r, l);
    }
  }

  lemma {:induction false} DefaultsRemove(rules: Entries<string, Rule>, arn: string, l: string)
    requires Has(rules, arn) ==> !Get(rules, arn).value.isDefault
    ensures Defaults(Remove(rules, arn), l) == Defaults(rules, l)
  {
    if rules != [] && rules[0].0 != arn {
      DefaultsRemove(rules[1..], arn, l);
    }
  }

  lemma {:induction false} DefaultsWithout(rules: Entries<string, Rule>, gone: string, l: string)
    requires l != gone
    ensures Defaults(WithoutListener(rules, gone), l) == Defaults(rules, l)
  {
    if rules != [] {
      DefaultsWithout(rules[1..], gone, l);
    }
  }

  lemma {:induction false} WithoutGet(rules: Entries<string, Rule>, gone: string, arn: string)
    requires UniqueKeys(rules)
    ensures var r := Get(rules, arn);
            Get(WithoutListener(rules, gone), arn) == if r.Some? && r.value.listener != gone then r else None
  {
    if rules != [] {
      WithoutGet(rules[1..], gone, arn);
      if rules[0].0 == arn {
        HasIndex(rules[1..], arn);
      }
    }
  }

  lemma {:induction false} WithoutUnique(rules: Entries<string, Rule>, gone: string)
    requires UniqueKeys(rules)
    ensures UniqueKeys(WithoutListener(rules, gone))
  {
    if rules != [] {
      WithoutUnique(rules[1..], gone);
      var r := WithoutListener(rules[1..], gone);
      WithoutGet(rules[1..], gone, rules[0].0);
      HasIndex(rules[1..], rules[0].0);
      HasIndex(r, rules[0].0);
    }
  }

  lemma {:induction false} DefaultsOfNone(rules: Entries<string, Rule>, l: string)
    requires UniqueKeys(rules) && forall arn :: Has(rules, arn) ==> Get(rules, arn).value.listener != l
    ensures Defaults(rules, l) == 0
  {
    if rules != [] {
      assert Has(rules, rules[0].0);
      forall arn | Has(rules[1..], arn)
        ensures Get(rules[1..], arn).value.listener != l
      {
        HasIndex(rules[1..], arn);
        assert Get(rules, arn) == Get(rules[1..], arn);
      }
      DefaultsOfNone(rules[1..], l);
    }
  }

  /** Storing a rule keeps the stores sound, if it keeps the listener and default flag of a
      rule it replaces, and a new one is not a default. */
  lemma SoundPutRule(s: Stores, arn: string, r: Rule)
    requires Sound(s) && Has(s.listeners, r.listener)
    requires if Has(s.rules, arn) then
               Get(s.rules, arn).value.listener == r.listener && Get(s.rules, arn).value.isDefault == r.isDefault
             else !r.isDefault
    ensures Sound(s.(rules := Put(s.rules, arn, r)))
  {
    PutUnique(s.rules, arn, r);
    forall l
      ensures Defaults(Put(s.rules, arn, r), l) == Defaults(s.rules, l)
    {
      DefaultsPut(s.rules, arn, r, l);
    }
    forall a | Has(Put(s.rules, arn, r), a)
      ensures Has(s.listeners, Get(Put(s.rules, arn, r), a).value.listener)
    {
      PutGet(s.rules, arn, r, a);
    }
  }

  lemma SoundCreateListener(s: Stores, r: Request)
    requires Sound(s) && DrawsFresh(s, r) && r.CreateListener?
    ensures Sound(Step(s, r).0)
  {
    var s' := Step(s, r).0;
    if s' != s {
      var l, listener, rule := r.arn, Listener(r.lb, r.port, r.actions), DefaultRule(r.arn, r.actions);
      PutUnique(s.listeners, l, listener);
      PutUnique(s.rules, r.ruleArn, rule);
      DefaultsOfNone(s.rules, l);
      forall k
        ensures Has(s'.listeners, k) <==> k == l || Has(s.listeners, k)
        ensures Defaults(s'.rules, k) == Defaults(s.rules, k) + if k == l then 1 else 0
      {
        PutGet(s.listeners, l, listener, k);
        DefaultsPut(s.rules, r.ruleArn, rule, k);
      }
      forall arn | Has(s'.rules, arn)
        ensures Has(s'.listeners, Get(s'.rules, arn).value.listener)
      {
        PutGet(s.rules, r.ruleArn, rule, arn);
      }
    }
  }

  lemma SoundDeleteListener(s: Stores, gone: string)
    requires Sound(s)
    ensures Sound(s.(listeners := Remove(s.listeners, gone), rules := WithoutListener(s.rules, gone)))
  {
    RemoveUnique(s.listeners, gone);
    WithoutUnique(s.rules, gone);
    forall l | Has(Remove(s.listeners, gone), l)
      ensures Defaults(WithoutListener(s.rules, gone), l) == 1
    {
      RemoveGet(s.listeners, gone, l);
      DefaultsWithout(s.rules, gone, l);
    }
    forall arn | Has(WithoutListener(s.rules, gone), arn)
      ensures Has(Remove(s.listeners, gone), Get(WithoutListener(s.rules, gone), arn).value.listener)
    {
      WithoutGet(s.rules, gone, arn);
      RemoveGet(s.listeners, gone, Get(s.rules, arn).value.listener);
    }
  }

  lemma SoundModifyListener(s: Stores, l: string, listener: Listener)
    requires Sound(s) && Has(s.listeners, l)
    ensures Sound(s.(listeners := Put(s.listeners, l, listener)))
  {
    PutUnique(s.listeners, l, listener);
    forall k
      ensures Has(Put(s.listeners, l, listener), k) <==> Has(s.listeners, k)
    {
      PutGet(s.listeners, l, listener, k);
    }
  }

  lemma SoundDeleteRule(s: Stores, arn: string)
    requires Sound(s) && (Has(s.rules, arn) ==> !Get(s.rules, arn).value.isDefault)
    ensures Sound(s.(rules := Remove(s.rules, arn)))
  {
    RemoveUnique(s.rules, arn);
    forall l
      ensures Defaults(Remove(s.rules, arn), l) == Defaults(s.rules, l)
    {
      DefaultsRemove(s.rules, arn, l);
    }
    forall a | Has(Remove(s.rules, arn), a)
      ensures Has(s.listeners, Get(Remove(s.rules, arn), a).value.listener)
    {
      RemoveGet(s.rules, arn, a);
    }
  }

  lemma {:induction false} SoundReprioritize(s: Stores, ps: seq<(string, string)>)
    requires Sound(s)
    ensures Sound(s.(rules := Reprioritize(s.rules, ps)))
    decreases |ps|
  {
    if ps != [] {
      var r := Get(s.rules, ps[0].0);
      if r.None? {
        SoundReprioritize(s, ps[1..]);
      } else {
        var r' := r.value.(priority := ps[0].1);
        SoundPutRule(s, ps[0].0, r');
        SoundReprioritize(s.(rules := Put(s.rules, ps[0].0, r')), ps[1..]);
      }
    }
  }

  lemma SoundStep(s: Stores, r: Request)
    requires Sound(s) && DrawsFresh(s, r)
    ensures Sound(Step(s, r).0)
  {
    match r
    case CreateListener(_, _, _, _, _) => SoundCreateListener(s, r);
    case ModifyListener(l, port, actions) =>
      if Has(s.listeners, l) {
        SoundModifyListener(s, l, ModifiedListener(Get(s.listeners, l).value, port, actions));
      }
    case DeleteListener(l) => SoundDeleteListener(s, l);
    case CreateRule(l, priority, conditions, actions, arn) =>
      if Has(s.listeners, l) {
        SoundPutRule(s, arn, Rule(l, priority, conditions, actions, false));
      }
    case ModifyRule(arn, conditions, actions) =>
      if Has(s.rules, arn) {
        SoundPutRule(s, arn, ModifiedRule(Get(s.rules, arn).value, conditions, actions));
      }
    case DeleteRule(arn) =>
      if !(Has(s.rules, arn) && Get(s.rules, arn).value.isDefault) {
        SoundDeleteRule(s, arn);
      }
    case SetRulePriorities(ps) => SoundReprioritize(s, ps);
    case _ =>
  }

  /** A load balancer needs a name that no other one has. */
  lemma LoadBalancerCreated(s: Stores, name: string, arn: string)
    ensures var (s', reply) := Step(s, CreateLoadBalancer(name, arn));
            if name == "" then s' == s && reply == Invalid
            else if exists e :: e in s.lbs && e.1 == name then s' == s && reply == Duplicate
            else
              reply == Ok && Get(s'.lbs, arn) == Some(name) && s' == s.(lbs := s'.lbs) &&
              forall k :: k != arn ==> Get(s'.lbs, k) == Get(s.lbs, k)
  {
    PutsOnly(s.lbs, arn, name);
    assert NameTaken(s.lbs, name) <==> exists e :: e in s.lbs && e.1 == name by {
      forall e | e in s.lbs
        ensures exists i :: 0 <= i < |s.lbs| && s.lbs[i] == e
      {
      }
    }
  }

  /** A new listener and its default rule are stored as requested; no other entry changes. */
  lemma ListenerCreated(s: Stores, lb: string, port: int, actions: seq<Action>, arn: string, ruleArn: string)
    requires Has(s.lbs, lb)
    ensures var s' := Step(s, CreateListener(lb, port, actions, arn, ruleArn)).0;
            Get(s'.listeners, arn) == Some(Listener(lb, port, actions)) &&
            Get(s'.rules, ruleArn) == Some(Rule(arn, "default", [], actions, true)) &&
            (forall l :: l != arn ==> Get(s'.listeners, l) == Get(s.listeners, l)) &&
            (forall r :: r != ruleArn ==> Get(s'.rules, r) == Get(s.rules, r))
  {
    PutsOnly(s.listeners, arn, Listener(lb, port, actions));
    PutsOnly(s.rules, ruleArn, DefaultRule(arn, actions));
  }

  lemma PutsOnly<V>(d: Entries<string, V>, k: string, v: V)
    ensures Get(Put(d, k, v), k) == Some(v)
    ensures forall k' :: k' != k ==> Get(Put(d, k, v), k') == Get(d, k')
  {
    forall k'
      ensures Get(Put(d, k, v), k') == if k' == k then Some(v) else Get(d, k')
    {
      PutGet(d, k, v, k');
    }
  }

  /** A given port and given actions replace the listener's own, which otherwise stay; its rules,
      the default rule included, keep theirs. */
  lemma ListenerModified(s: Stores, l: string, port: Option<int>, actions: seq<Action>)
    requires Has(s.listeners, l)
    ensures var s' := Step(s, ModifyListener(l, port, actions)).0;
            var before, after := Get(s.listeners, l).value, Get(s'.listeners, l);
            after.Some? && after.value.lb == before.lb && s'.rules == s.rules &&
            (if port.Some? then after.value.port == port.value else after.value.port == before.port) &&
            (if actions == [] then after.value.defaults == before.defaults else after.value.defaults == actions) &&
            forall k :: k != l ==> Get(s'.listeners, k) == Get(s.listeners, k)
  {
    PutsOnly(s.listeners, l, ModifiedListener(Get(s.listeners, l).value, port, actions));
  }

  /** A created rule is stored as requested, and is no default rule whatever its priority. */
  lemma RuleCreated(s: Stores, l: string, priority: string, conditions: seq<Condition>, actions: seq<Action>, arn: string)
    requires Has(s.listeners, l) && Has(s.lbs, Get(s.listeners, l).value.lb)
    ensures var s' := Step(s, CreateRule(l, priority, conditions, actions, arn)).0;
            Get(s'.rules, arn) == Some(Rule(l, priority, conditions, actions, false)) &&
            forall r :: r != arn ==> Get(s'.rules, r) == Get(s.rules, r)
  {
    PutsOnly(s.rules, arn, Rule(l, priority, conditions, actions, false));
  }

  /** Given conditions and given actions replace the rule's own, which otherwise stay. */
  lemma RuleModified(s: Stores, arn: string, conditions: seq<Condition>, actions: seq<Action>)
    requires Has(s.rules, arn)
    ensures var s' := Step(s, ModifyRule(arn, conditions, actions)).0;
            var before, after := Get(s.rules, arn).value, Get(s'.rules, arn);
            after.Some? && after.value.listener == before.listener && after.value.priority == before.priority &&
            after.value.isDefault == before.isDefault &&
            (if conditions == [] then after.value.conditions == before.conditions
             else after.value.conditions == conditions) &&
            (if actions == [] then after.value.actions == before.actions else after.value.actions == actions) &&
            forall r :: r != arn ==> Get(s'.rules, r) == Get(s.rules, r)
  {
    PutsOnly(s.rules, arn, ModifiedRule(Get(s.rules, arn).value, conditions, actions));
  }

  /** Among the given priorities, the one at `i` is the last for this rule. */
  ghost predicate LastFor(ps: seq<(string, string)>, arn: string, i: int) {
    0 <= i < |ps| && ps[i].0 == arn && forall j :: i < j < |ps| ==> ps[j].0 != arn
  }

  ghost predicate Unnamed(ps: seq<(string, string)>, arn: string) {
    forall i :: 0 <= i < |ps| ==> ps[i].0 != arn
  }

  /** Each rule named gets the last priority given for it; nothing else of any rule changes, and
      no rule is added. */
  lemma {:induction false} PrioritiesSet(rules: Entries<string, Rule>, ps: seq<(string, string)>, arn: string)
    ensures var before, after := Get(rules, arn), Get(Reprioritize(rules, ps), arn);
            if before.None? then after.None?
            else after.Some? && after.value == before.value.(priority := after.value.priority) &&
                 (forall i :: LastFor(ps, arn, i) ==> after.value.priority == ps[i].1) &&
                 (Unnamed(ps, arn) ==> after.value.priority == before.value.priority)
    decreases |ps|
  {
    if ps != [] {
      var r := Get(rules, ps[0].0);
      var next := if r.None? then rules else Put(rules, ps[0].0, r.value.(priority := ps[0].1));
      PrioritiesSet(next, ps[1..], arn);
      if r.Some? {
        PutsOnly(rules, ps[0].0, r.value.(priority := ps[0].1));
      }
      var after := Get(Reprioritize(rules, ps), arn);
      forall i | LastFor(ps, arn, i) && after.Some?
        ensures after.value.priority == ps[i].1
      {
        if i > 0 {
          assert LastFor(ps[1..], arn, i - 1);
        } else {
          assert Unnamed(ps[1..], arn);
        }
      }
      assert Unnamed(ps, arn) ==> Unnamed(ps[1..], arn) && ps[0].0 != arn;
    }
  }

  function Run(reqs: seq<Request>): Stores {
    if reqs == [] then EMPTY else Step(Run(reqs[..|reqs| - 1]), reqs[|reqs| - 1]).0
  }

  ghost predicate FreshRun(reqs: seq<Request>) {
    reqs != [] ==>
      FreshRun(reqs[..|reqs| - 1]) && DrawsFresh(Run(reqs[..|reqs| - 1]), reqs[|reqs| - 1])
  }

  /** In every run, rules refer to existing listeners and each listener has one default rule. */
  lemma {:induction false} RunsAreSound(reqs: seq<Request>)
    requires FreshRun(reqs)
    ensures Sound(Run(reqs))
  {
    if reqs != [] {
      RunsAreSound(reqs[..|reqs| - 1]);
      SoundStep(Run(reqs[..|reqs| - 1]), reqs[|reqs| - 1]);
    }
  }

  // ---------------------------------------------------------------------
  // Matching a request
  // ---------------------------------------------------------------------

  datatype HttpRequest = HttpRequest(verb: string, path: string, headers: map<string, string>, query: QueryParams.Params)

  /** Library functions the data plane calls: fnmatch on a name and a pattern, str.upper,
      and int() on a priority. */
  datatype Library = Library(
    glob: (string, string) -> bool,
    upper: string -> string,
    number: string -> Option<int>
  )

  function Header(req: HttpRequest, name: string): string {
    if name in req.headers then req.headers[name] else ""
  }

  predicate AnyGlob(lib: Library, name: string, patterns: seq<string>) {
    exists i :: 0 <= i < |patterns| && lib.glob(name, patterns[i])
  }

  /** One value of a query-string condition: "key=value", or a key that must be present. */
  predicate QueryHolds(v: string, query: QueryParams.Params) {
    var parts := Text.SplitMax(v, '=', 1);
    if |parts| == 2 then QueryParams.P(query, parts[0]) == parts[1] else v in query
  }

  /** Conditions made by the parser have no header configuration, so an http-header condition
      looks up the empty header name; source-ip and unknown conditions always hold. */
  predicate ConditionHolds(lib: Library, c: Condition, req: HttpRequest) {
    if c.field == "path-pattern" then AnyGlob(lib, req.path, c.values)
    else if c.field == "host-header" then
      AnyGlob(lib, Text.SplitMax(Header(req, "host"), ':', 1)[0], c.values)
    else if c.field == "http-method" then
      exists i :: 0 <= i < |c.values| && lib.upper(c.values[i]) == lib.upper(req.verb)
    else if c.field == "query-string" then
      forall i :: 0 <= i < |c.values| ==> QueryHolds(c.values[i], req.query)
    else if c.field == "http-header" then AnyGlob(lib, Header(req, ""), c.values)
    else true
  }

  /** An http-header condition cannot tell two requests apart, whatever their headers, unless
      one of them has a header with an empty name. */
  lemma HttpHeaderConditionBlind(lib: Library, c: Condition, a: HttpRequest, b: HttpRequest)
    requires c.field == "http-header" && "" !in a.headers && "" !in b.headers
    ensures ConditionHolds(lib, c, a) <==> ConditionHolds(lib, c, b)
    ensures ConditionHolds(lib, c, a) <==> exists v :: v in c.values && lib.glob("", v)
  {
    forall v | v in c.values
      ensures exists i :: 0 <= i < |c.values| && c.values[i] == v
    {
    }
  }

  predicate RuleMatches(lib: Library, r: Rule, req: HttpRequest) {
    r.isDefault || forall i :: 0 <= i < |r.conditions| ==> ConditionHolds(lib, r.conditions[i], req)
  }

  /** A rule's own actions, or else its listener's default actions. */
  function Effective(r: Rule, l: Listener): seq<Action> {
    if r.actions != [] then r.actions else l.defaults
  }

  // ---------------------------------------------------------------------
  // Priority order: sorted() with _rule_sort_key, stable
  // ---------------------------------------------------------------------

  /** Numbered rules come first, rules with unreadable priorities count as 9999, and the
      priority "default" comes last. */
  function SortKey(lib: Library, r: Rule): (int, int) {
    if r.priority == "default" then (1, 0)
    else
      var n := lib.number(r.priority);
      if n.None? then (0, 9999) else (0, n.value)
  }

  predicate KeyLess(a: (int, int), b: (int, int)) {
    a.0 < b.0 || (a.0 == b.0 && a.1 < b.1)
  }

  /** Rule i precedes rule j: by key, and by position when the keys are equal. */
  predicate Before(lib: Library, rs: seq<Rule>, i: nat, j: nat)
    requires i < |rs| && j < |rs|
  {
    var a, b := SortKey(lib, rs[i]), SortKey(lib, rs[j]);
    KeyLess(a, b) || (a == b && i < j)
  }

  predicate InRange(order: seq<nat>, n: nat) {
    forall k :: 0 <= k < |order| ==> order[k] < n
  }

  ghost predicate Ascending(lib: Library, rs: seq<Rule>, order: seq<nat>)
    requires InRange(order, |rs|)
  {
    forall a, b :: 0 <= a < b < |order| ==> Before(lib, rs, order[a], order[b])
  }

  /** The first n positions, in priority order. */
  ghost predicate Ordered(lib: Library, rs: seq<Rule>, order: seq<nat>, n: nat)
    requires n <= |rs|
  {
    InRange(order, n) && (forall i :: 0 <= i < n ==> i in order) && Ascending(lib, rs, order)
  }

  /** Inserts position `x` behind every rule whose key is not greater. */
  function InsertIndex(lib: Library, rs: seq<Rule>, order: seq<nat>, x: nat): (r: seq<nat>)
    requires x < |rs| && InRange(order, |rs|)
    ensures InRange(r, |rs|)
  {
    if order == [] then [x]
    else if !KeyLess(SortKey(lib, rs[x]), SortKey(lib, rs[order[|order| - 1]])) then order + [x]
    else InsertIndex(lib, rs, order[..|order| - 1], x) + [order[|order| - 1]]
  }

  lemma {:induction false} InsertElements(lib: Library, rs: seq<Rule>, order: seq<nat>, x: nat)
    requires x < |rs| && InRange(order, |rs|)
    ensures forall i :: i in InsertIndex(lib, rs, order, x) <==> i in order || i == x
  {
    if order != [] {
      InsertElements(lib, rs, order[..|order| - 1], x);
      assert order == order[..|order| - 1] + [order[|order| - 1]];
    }
  }

  lemma {:induction false} InsertAscending(lib: Library, rs: seq<Rule>, order: seq<nat>, x: nat)
    requires x < |rs| && InRange(order, x) && InRange(order, |rs|) && Ascending(lib, rs, order)
    ensures Ascending(lib, rs, InsertIndex(lib, rs, order, x))
  {
    if order != [] {
      var m := |order| - 1;
      var front, last := order[..m], order[m];
      if KeyLess(SortKey(lib, rs[x]), SortKey(lib, rs[last])) {
        InsertAscending(lib, rs, front, x);
        InsertElements(lib, rs, front, x);
        var r := InsertIndex(lib, rs, front, x);
        forall a | 0 <= a < |r|
          ensures Before(lib, rs, r[a], last)
        {
          assert r[a] in r;
          if r[a] != x {
            var k :| 0 <= k < m && front[k] == r[a];
            assert Before(lib, rs, order[k], order[m]);
          }
        }
      } else {
        forall a | 0 <= a < |order|
          ensures Before(lib, rs, order[a], x)
        {
          assert a < m ==> Before(lib, rs, order[a], order[m]);
        }
      }
    }
  }

  function SortedPositions(lib: Library, rs: seq<Rule>, n: nat): (order: seq<nat>)
    requires n <= |rs|
    ensures Ordered(lib, rs, order, n)
  {
    if n == 0 then []
    else
      var front := SortedPositions(lib, rs, n - 1);
      InsertAscending(lib, rs, front, n - 1);
      InsertElements(lib, rs, front, n - 1);
      var order := InsertIndex(lib, rs, front, n - 1);
      assert forall k :: 0 <= k < |order| ==> order[k] in order;
      assert forall k :: 0 <= k < |front| ==> front[k] < n - 1;
      order
  }

  // ---------------------------------------------------------------------
  // Dispatch
  // ---------------------------------------------------------------------

  function FirstListener(ls: Entries<string, Listener>, lb: string, port: Option<int>): Option<(string, Listener)> {
    if ls == [] then None
    else if ls[0].1.lb == lb && (port.None? || ls[0].1.port == port.value) then Some(ls[0])
    else FirstListener(ls[1..], lb, port)
  }

  /** The balancer's first listener on the port, or else its first listener. */
  function ChosenListener(ls: Entries<string, Listener>, lb: string, port: int): Option<(string, Listener)> {
    var exact := FirstListener(ls, lb, Some(port));
    if exact.Some? then exact else FirstListener(ls, lb, None)
  }

  function RulesOf(rules: Entries<string, Rule>, l: string): seq<Rule> {
    if rules == [] then []
    else if rules[0].1.listener == l then [rules[0].1] + RulesOf(rules[1..], l)
    else RulesOf(rules[1..], l)
  }

  datatype Outcome = NoListener | NoRule | Executes(action: Action)

  /** A rule of the listener that matches and has something to execute. */
  predicate Eligible(lib: Library, rs: seq<Rule>, i: nat, l: Listener, req: HttpRequest)
    requires i < |rs|
  {
    RuleMatches(lib, rs[i], req) && Effective(rs[i], l) != []
  }

  /** What dispatch is to do: execute the first action of the eligible rule that comes before
      all other eligible rules. */
  ghost predicate Dispatches(s: Stores, lib: Library, lb: string, port: int, req: HttpRequest, outcome: Outcome) {
    var chosen := ChosenListener(s.listeners, lb, port);
    if chosen.None? then outcome == NoListener
    else
      var l := chosen.value.1;
      var rs := RulesOf(s.rules, chosen.value.0);
      match outcome
      case NoListener => false
      case NoRule => forall i :: 0 <= i < |rs| ==> !Eligible(lib, rs, i, l, req)
      case Executes(action) =>
        exists i :: 0 <= i < |rs| && Eligible(lib, rs, i, l, req) && action == Effective(rs[i], l)[0] &&
          forall j :: 0 <= j < |rs| && Eligible(lib, rs, j, l, req) ==> j == i || Before(lib, rs, i, j)
  }

  lemma {:induction false} FirstListenerStored(ls: Entries<string, Listener>, lb: string, port: Option<int>)
    requires UniqueKeys(ls) && FirstListener(ls, lb, port).Some?
    ensures var c := FirstListener(ls, lb, port).value; Get(ls, c.0) == Some(c.1) && c.1.lb == lb
  {
    if !(ls[0].1.lb == lb && (port.None? || ls[0].1.port == port.value)) {
      FirstListenerStored(ls[1..], lb, port);
      HasIndex(ls[1..], FirstListener(ls, lb, port).value.0);
    }
  }

  lemma ChosenListenerStored(ls: Entries<string, Listener>, lb: string, port: int)
    requires UniqueKeys(ls) && ChosenListener(ls, lb, port).Some?
    ensures var c := ChosenListener(ls, lb, port).value; Get(ls, c.0) == Some(c.1) && c.1.lb == lb
  {
    if FirstListener(ls, lb, Some(port)).Some? {
      FirstListenerStored(ls, lb, Some(port));
    } else {
      FirstListenerStored(ls, lb, None);
    }
  }

  lemma {:induction false} DefaultAmongRules(rules: Entries<string, Rule>, l: string) returns (i: nat)
    requires Defaults(rules, l) > 0
    ensures i < |RulesOf(rules, l)| && RulesOf(rules, l)[i].isDefault
  {
    if rules[0].1.listener == l && rules[0].1.isDefault {
      i := 0;
    } else {
      var j := DefaultAmongRules(rules[1..], l);
      i := if rules[0].1.listener == l then j + 1 else j;
    }
  }

  /** In a sound state, dispatch on an existing listener executes an action exactly when the
      listener has default actions or some matching rule has actions of its own. */
  lemma DispatchExecutes(s: Stores, lib: Library, lb: string, port: int, req: HttpRequest, outcome: Outcome)
    requires Sound(s) && Dispatches(s, lib, lb, port, req, outcome)
    requires ChosenListener(s.listeners, lb, port).Some?
    ensures var (arn, l) := ChosenListener(s.listeners, lb, port).value; var rs := RulesOf(s.rules, arn);
            outcome.Executes? <==>
              l.defaults != [] ||
              exists i :: 0 <= i < |rs| && RuleMatches(lib, rs[i], req) && rs[i].actions != []
  {
    var (arn, l) := ChosenListener(s.listeners, lb, port).value;
    var rs := RulesOf(s.rules, arn);
    ChosenListenerStored(s.listeners, lb, port);
    var d := DefaultAmongRules(s.rules, arn);
    if l.defaults != [] {
      assert Eligible(lib, rs, d, l, req);
    } else {
      forall i | 0 <= i < |rs|
        ensures Eligible(lib, rs, i, l, req) <==> RuleMatches(lib, rs[i], req) && rs[i].actions != []
      {
      }
    }
  }

  // ---------------------------------------------------------------------
  // Which listener, which rule, which action
  // ---------------------------------------------------------------------

  /** Listener `i` of the store is one of the load balancer's, on the port if one is given. */
  predicate Serves(ls: Entries<string, Listener>, i: nat, lb: string, port: Option<int>)
    requires i < |ls|
  {
    ls[i].1.lb == lb && (port.None? || ls[i].1.port == port.value)
  }

  lemma {:induction false} FirstListenerExactly(ls: Entries<string, Listener>, lb: string, port: Option<int>)
    ensures FirstListener(ls, lb, port).None? <==> forall i :: 0 <= i < |ls| ==> !Serves(ls, i, lb, port)
    ensures FirstListener(ls, lb, port).Some? ==>
              exists i :: 0 <= i < |ls| && Serves(ls, i, lb, port) && ls[i] == FirstListener(ls, lb, port).value &&
                forall j :: 0 <= j < i ==> !Serves(ls, j, lb, port)
  {
    if ls != [] && !Serves(ls, 0, lb, port) {
      FirstListenerExactly(ls[1..], lb, port);
      assert forall i :: 0 < i < |ls| ==> Serves(ls, i, lb, port) == Serves(ls[1..], i - 1, lb, port);
      if FirstListener(ls, lb, port).Some? {
        var i :| 0 <= i < |ls[1..]| && Serves(ls[1..], i, lb, port) && ls[1..][i] == FirstListener(ls[1..], lb, port).value &&
          forall j :: 0 <= j < i ==> !Serves(ls[1..], j, lb, port);
        assert ls[i + 1] == ls[1..][i] && Serves(ls, i + 1, lb, port);
      } else {
        forall i | 0 <= i < |ls|
          ensures !Serves(ls, i, lb, port)
        {
          assert i > 0 ==> !Serves(ls[1..], i - 1, lb, port);
        }
      }
    }
  }

  /** The first listener of the load balancer on the port is chosen; where there is none, its
      first listener of all; and where it has no listener, none. */
  lemma ListenerChosen(ls: Entries<string, Listener>, lb: string, port: int)
    ensures var c := ChosenListener(ls, lb, port);
            if exists i :: 0 <= i < |ls| && ls[i].1.lb == lb && ls[i].1.port == port then
              exists i :: 0 <= i < |ls| && ls[i].1.lb == lb && ls[i].1.port == port && c == Some(ls[i]) &&
                forall j :: 0 <= j < i ==> !(ls[j].1.lb == lb && ls[j].1.port == port)
            else if exists i :: 0 <= i < |ls| && ls[i].1.lb == lb then
              exists i :: 0 <= i < |ls| && ls[i].1.lb == lb && c == Some(ls[i]) &&
                forall j :: 0 <= j < i ==> ls[j].1.lb != lb
            else c.None?
  {
    FirstListenerExactly(ls, lb, Some(port));
    FirstListenerExactly(ls, lb, None);
    forall i | 0 <= i < |ls|
      ensures Serves(ls, i, lb, Some(port)) <==> ls[i].1.lb == lb && ls[i].1.port == port
      ensures Serves(ls, i, lb, None) <==> ls[i].1.lb == lb
    {
    }
  }

  /** A condition, field by field, for a request whose host header is `host`, perhaps with a port. */
  lemma ConditionMeans(lib: Library, values: seq<string>, req: HttpRequest, host: string, tail: string)
    requires ':' !in host && (tail == "" || tail[0] == ':')
    requires if "host" in req.headers then req.headers["host"] == host + tail else host == tail == ""
    ensures ConditionHolds(lib, QueryParams.Condition("path-pattern", values), req) <==> exists v :: v in values && lib.glob(req.path, v)
    ensures ConditionHolds(lib, QueryParams.Condition("host-header", values), req) <==> exists v :: v in values && lib.glob(host, v)
    ensures ConditionHolds(lib, QueryParams.Condition("http-method", values), req) <==>
              exists v :: v in values && lib.upper(v) == lib.upper(req.verb)
    ensures forall field ::
              field !in {"path-pattern", "host-header", "http-method", "query-string", "http-header"} ==>
                ConditionHolds(lib, QueryParams.Condition(field, values), req)
  {
    if tail == "" {
      assert host + tail == host;
    } else {
      assert host + tail == host + [':'] + tail[1..];
      Text.SplitStep(host, tail[1..], ':', 1);
    }
    forall v | v in values
      ensures exists i :: 0 <= i < |values| && values[i] == v
    {
    }
  }

  /** A query-string value "key=value" asks for that value; one without "=" for the key. */
  lemma QueryConditionMeans(lib: Library, key: string, value: string, req: HttpRequest)
    requires '=' !in key
    ensures ConditionHolds(lib, QueryParams.Condition("query-string", [key + ['='] + value]), req) <==>
            QueryParams.P(req.query, key) == value
    ensures ConditionHolds(lib, QueryParams.Condition("query-string", [key]), req) <==> key in req.query
  {
    Text.SplitStep(key, value, '=', 1);
    assert Text.SplitMax(key + ['='] + value, '=', 1) == [key, value];
    assert [key + ['='] + value][0] == key + ['='] + value && [key][0] == key;
  }

  lemma QueryConditionAlone(lib: Library, value: string, req: HttpRequest)
    ensures ConditionHolds(lib, QueryParams.Condition("query-string", [value]), req) <==> QueryHolds(value, req.query)
  {
    assert [value][0] == value;
  }

  /** All values of a query-string condition must hold. */
  lemma QueryConditionsTogether(lib: Library, values: seq<string>, req: HttpRequest)
    ensures ConditionHolds(lib, QueryParams.Condition("query-string", values), req) <==>
            forall v :: v in values ==> ConditionHolds(lib, QueryParams.Condition("query-string", [v]), req)
  {
    forall v
      ensures ConditionHolds(lib, QueryParams.Condition("query-string", [v]), req) <==> QueryHolds(v, req.query)
    {
      QueryConditionAlone(lib, v, req);
    }
    assert forall v :: v in values <==> exists i :: 0 <= i < |values| && values[i] == v;
  }

  /** Place in the store of the listener's rule number `k`. */
  function Place(rules: Entries<string, Rule>, l: string, k: nat): (i: nat)
    requires k < |RulesOf(rules, l)|
    ensures i < |rules| && rules[i].1 == RulesOf(rules, l)[k] && rules[i].1.listener == l
  {
    if rules[0].1.listener != l then Place(rules[1..], l, k) + 1
    else if k == 0 then 0
    else Place(rules[1..], l, k - 1) + 1
  }

  lemma {:induction false} PlacesAscend(rules: Entries<string, Rule>, l: string, a: nat, b: nat)
    requires a < b < |RulesOf(rules, l)|
    ensures Place(rules, l, a) < Place(rules, l, b)
  {
    if rules[0].1.listener != l {
      PlacesAscend(rules[1..], l, a, b);
    } else if a > 0 {
      PlacesAscend(rules[1..], l, a - 1, b - 1);
    }
  }

  lemma {:induction false} PlaceTaken(rules: Entries<string, Rule>, l: string, i: nat) returns (k: nat)
    requires i < |rules| && rules[i].1.listener == l
    ensures k < |RulesOf(rules, l)| && Place(rules, l, k) == i
  {
    if i == 0 {
      k := 0;
    } else {
      var m := PlaceTaken(rules[1..], l, i - 1);
      k := if rules[0].1.listener == l then m + 1 else m;
    }
  }

  /** The rule at position `i` of the store belongs to the listener, matches, and there is an
      action to execute, its own or a default one. */
  ghost predicate Candidate(lib: Library, rules: Entries<string, Rule>, i: nat, arn: string, l: Listener, req: HttpRequest)
    requires i < |rules|
  {
    var r := rules[i].1;
    r.listener == arn && (r.isDefault || forall c :: c in r.conditions ==> ConditionHolds(lib, c, req)) &&
    (r.actions != [] || l.defaults != [])
  }

  function Number(lib: Library, r: Rule): int {
    GetOr(lib.number(r.priority), 9999)
  }

  /** Rule `i` decides over rule `j`: a priority other than "default" before "default", then
      the lower number, then the earlier place in the store. */
  predicate Outranks(lib: Library, rules: Entries<string, Rule>, i: nat, j: nat)
    requires i < |rules| && j < |rules|
  {
    var r, t := rules[i].1, rules[j].1;
    if r.priority == "default" then t.priority == "default" && i < j
    else
      t.priority == "default" || Number(lib, r) < Number(lib, t) || (Number(lib, r) == Number(lib, t) && i < j)
  }

  lemma CandidateExactly(lib: Library, rules: Entries<string, Rule>, k: nat, arn: string, l: Listener, req: HttpRequest)
    requires k < |RulesOf(rules, arn)|
    ensures Eligible(lib, RulesOf(rules, arn), k, l, req) <==> Candidate(lib, rules, Place(rules, arn, k), arn, l, req)
  {
    var r := RulesOf(rules, arn)[k];
    forall c | c in r.conditions
      ensures exists i :: 0 <= i < |r.conditions| && r.conditions[i] == c
    {
    }
  }

  lemma KeysCompare(lib: Library, r: Rule, t: Rule)
    ensures KeyLess(SortKey(lib, r), SortKey(lib, t)) <==>
            r.priority != "default" && (t.priority == "default" || Number(lib, r) < Number(lib, t))
    ensures SortKey(lib, r) == SortKey(lib, t) <==>
            if r.priority == "default" then t.priority == "default"
            else t.priority != "default" && Number(lib, r) == Number(lib, t)
  {
  }

  lemma OutranksExactly(lib: Library, rules: Entries<string, Rule>, arn: string, a: nat, b: nat)
    requires a < |RulesOf(rules, arn)| && b < |RulesOf(rules, arn)| && a != b
    ensures Before(lib, RulesOf(rules, arn), a, b) <==>
            Outranks(lib, rules, Place(rules, arn, a), Place(rules, arn, b))
  {
    KeysCompare(lib, RulesOf(rules, arn)[a], RulesOf(rules, arn)[b]);
    if a < b {
      PlacesAscend(rules, arn, a, b);
    } else {
      PlacesAscend(rules, arn, b, a);
    }
  }

  /** The candidate that outranks all others. */
  ghost predicate Wins(lib: Library, rules: Entries<string, Rule>, i: nat, arn: string, l: Listener, req: HttpRequest)
    requires i < |rules|
  {
    Candidate(lib, rules, i, arn, l, req) &&
    forall j :: 0 <= j < |rules| && j != i && Candidate(lib, rules, j, arn, l, req) ==> Outranks(lib, rules, i, j)
  }

  lemma FirstWins(lib: Library, rules: Entries<string, Rule>, k: nat, arn: string, l: Listener, req: HttpRequest)
    requires var rs := RulesOf(rules, arn);
             k < |rs| && Eligible(lib, rs, k, l, req) &&
             forall j :: 0 <= j < |rs| && Eligible(lib, rs, j, l, req) ==> j == k || Before(lib, rs, k, j)
    ensures Wins(lib, rules, Place(rules, arn, k), arn, l, req)
  {
    var i := Place(rules, arn, k);
    CandidateExactly(lib, rules, k, arn, l, req);
    forall j | 0 <= j < |rules| && j != i && Candidate(lib, rules, j, arn, l, req)
      ensures Outranks(lib, rules, i, j)
    {
      var b := PlaceTaken(rules, arn, j);
      CandidateExactly(lib, rules, b, arn, l, req);
      OutranksExactly(lib, rules, arn, k, b);
    }
  }

  lemma NoneEligible(lib: Library, rules: Entries<string, Rule>, arn: string, l: Listener, req: HttpRequest)
    requires forall k :: 0 <= k < |RulesOf(rules, arn)| ==> !Eligible(lib, RulesOf(rules, arn), k, l, req)
    ensures forall i :: 0 <= i < |rules| ==> !Candidate(lib, rules, i, arn, l, req)
  {
    forall i | 0 <= i < |rules| && rules[i].1.listener == arn
      ensures !Candidate(lib, rules, i, arn, l, req)
    {
      var k := PlaceTaken(rules, arn, i);
      CandidateExactly(lib, rules, k, arn, l, req);
    }
  }

  /** Dispatch executes the first own action, or else the first default action, of the candidate
      that outranks all others; it finds no rule exactly if there is no candidate. */
  lemma WinnerExecutes(s: Stores, lib: Library, lb: string, port: int, req: HttpRequest, outcome: Outcome)
    requires Dispatches(s, lib, lb, port, req, outcome) && ChosenListener(s.listeners, lb, port).Some?
    ensures var (arn, l) := ChosenListener(s.listeners, lb, port).value;
            match outcome
            case NoListener => false
            case NoRule => forall i :: 0 <= i < |s.rules| ==> !Candidate(lib, s.rules, i, arn, l, req)
            case Executes(action) =>
              exists i :: 0 <= i < |s.rules| && Wins(lib, s.rules, i, arn, l, req) &&
                action == if s.rules[i].1.actions != [] then s.rules[i].1.actions[0] else l.defaults[0]
  {
    var (arn, l) := ChosenListener(s.listeners, lb, port).value;
    var rs := RulesOf(s.rules, arn);
    match outcome
    case NoRule => NoneEligible(lib, s.rules, arn, l, req);
    case Executes(action) =>
      var k :| 0 <= k < |rs| && Eligible(lib, rs, k, l, req) && action == Effective(rs[k], l)[0] &&
        forall j :: 0 <= j < |rs| && Eligible(lib, rs, j, l, req) ==> j == k || Before(lib, rs, k, j);
      FirstWins(lib, s.rules, k, arn, l, req);
      assert Wins(lib, s.rules, Place(s.rules, arn, k), arn, l, req);
    case NoListener =>
  }

  /** A rule of priority "default" decides only where no other rule is a candidate. */
  lemma DefaultComesLast(lib: Library, rules: Entries<string, Rule>, i: nat, j: nat, arn: string, l: Listener, req: HttpRequest)
    requires i < |rules| && j < |rules| && Wins(lib, rules, i, arn, l, req)
    requires Candidate(lib, rules, j, arn, l, req) && rules[j].1.priority != "default"
    ensures rules[i].1.priority != "default" && Number(lib, rules[i].1) <= Number(lib, rules[j].1)
    ensures j < i ==> Number(lib, rules[i].1) < Number(lib, rules[j].1)
  {
    if j != i {
      assert Outranks(lib, rules, i, j);
    }
  }

  // ---------------------------------------------------------------------
  // Actions given at creation last
  // ---------------------------------------------------------------------

  function ListenerArn(r: Request): set<string> {
    if r.CreateListener? then {r.arn} else {}
  }

  function Issued(reqs: seq<Request>): set<string> {
    if reqs == [] then {} else Issued(reqs[..|reqs| - 1]) + ListenerArn(reqs[|reqs| - 1])
  }

  /** Listener ARNs are never drawn twice. */
  ghost predicate DistinctArns(reqs: seq<Request>) {
    reqs != [] ==>
      DistinctArns(reqs[..|reqs| - 1]) && ListenerArn(reqs[|reqs| - 1]) !! Issued(reqs[..|reqs| - 1])
  }

  /** A request changes a listener's default actions only to other non-empty ones, unless it
      creates the listener. */
  lemma DefaultsLast(s: Stores, r: Request, l: string)
    requires UniqueKeys(s.listeners) && l !in ListenerArn(r) && Has(Step(s, r).0.listeners, l)
    ensures Has(s.listeners, l)
    ensures Get(s.listeners, l).value.defaults != [] ==> Get(Step(s, r).0.listeners, l).value.defaults != []
  {
    match r
    case CreateListener(lb, port, actions, arn, _) => PutGet(s.listeners, arn, Listener(lb, port, actions), l);
    case ModifyListener(arn, port, actions) =>
      if Has(s.listeners, arn) {
        PutGet(s.listeners, arn, ModifiedListener(Get(s.listeners, arn).value, port, actions), l);
      }
    case DeleteListener(arn) => RemoveGet(s.listeners, arn, l);
    case _ =>
  }

  lemma {:induction false} IssuedContains(reqs: seq<Request>, k: nat)
    requires k < |reqs|
    ensures ListenerArn(reqs[k]) <= Issued(reqs)
    decreases |reqs|
  {
    if k < |reqs| - 1 {
      IssuedContains(reqs[..|reqs| - 1], k);
    }
  }

  lemma NotReissued(reqs: seq<Request>, k: nat)
    requires DistinctArns(reqs) && k < |reqs| - 1 && reqs[k].CreateListener?
    ensures reqs[k].arn !in ListenerArn(reqs[|reqs| - 1])
  {
    var front := reqs[..|reqs| - 1];
    assert ListenerArn(reqs[|reqs| - 1]) !! Issued(front);
    IssuedContains(front, k);
  }

  lemma CreationStores(s: Stores, r: Request)
    requires r.CreateListener? && Has(s.lbs, r.lb)
    ensures Get(Step(s, r).0.listeners, r.arn) == Some(Listener(r.lb, r.port, r.actions))
  {
    PutGet(s.listeners, r.arn, Listener(r.lb, r.port, r.actions), r.arn);
  }

  lemma UniqueBefore(reqs: seq<Request>)
    requires FreshRun(reqs) && reqs != []
    ensures UniqueKeys(Run(reqs[..|reqs| - 1]).listeners)
  {
    RunsAreSound(reqs[..|reqs| - 1]);
  }

  lemma DefaultsStay(reqs: seq<Request>, k: nat)
    requires FreshRun(reqs) && DistinctArns(reqs) && k < |reqs| - 1 && reqs[k].CreateListener?
    requires Has(Run(reqs).listeners, reqs[k].arn)
    ensures var s := Run(reqs[..|reqs| - 1]);
            Has(s.listeners, reqs[k].arn) &&
            (Get(s.listeners, reqs[k].arn).value.defaults != [] ==>
               Get(Run(reqs).listeners, reqs[k].arn).value.defaults != [])
  {
    UniqueBefore(reqs);
    NotReissued(reqs, k);
    DefaultsLast(Run(reqs[..|reqs| - 1]), reqs[|reqs| - 1], reqs[k].arn);
  }

  /** A listener created with actions still has default actions whenever it still exists. */
  lemma {:induction false} CreatedActionsRemain(reqs: seq<Request>, k: nat)
    requires FreshRun(reqs) && DistinctArns(reqs) && k < |reqs|
    requires reqs[k].CreateListener? && reqs[k].actions != [] && Has(Run(reqs[..k]).lbs, reqs[k].lb)
    requires Has(Run(reqs).listeners, reqs[k].arn)
    ensures Get(Run(reqs).listeners, reqs[k].arn).value.defaults != []
    decreases |reqs|
  {
    var front := reqs[..|reqs| - 1];
    if k == |reqs| - 1 {
      CreationStores(Run(front), reqs[k]);
    } else {
      DefaultsStay(reqs, k);
      FrontAt(reqs, k);
      CreatedActionsRemain(front, k);
    }
  }

  lemma FrontAt(reqs: seq<Request>, k: nat)
    requires k < |reqs| - 1
    ensures var front := reqs[..|reqs| - 1]; front[k] == reqs[k] && front[..k] == reqs[..k]
  {
  }

  /** After any run, dispatch on a listener that was created with actions executes an action,
      whatever the request and whatever was done to its rules. */
  lemma AlwaysExecutes(reqs: seq<Request>, k: nat, lib: Library, lb: string, port: int, req: HttpRequest, outcome: Outcome)
    requires FreshRun(reqs) && DistinctArns(reqs) && k < |reqs|
    requires reqs[k].CreateListener? && reqs[k].actions != [] && Has(Run(reqs[..k]).lbs, reqs[k].lb)
    requires ChosenListener(Run(reqs).listeners, lb, port).Some?
    requires ChosenListener(Run(reqs).listeners, lb, port).value.0 == reqs[k].arn
    requires Dispatches(Run(reqs), lib, lb, port, req, outcome)
    ensures outcome.Executes?
  {
    RunsAreSound(reqs);
    ChosenListenerStored(Run(reqs).listeners, lb, port);
    CreatedActionsRemain(reqs, k);
    DispatchExecutes(Run(reqs), lib, lb, port, req, outcome);
  }

  // ---------------------------------------------------------------------
  // Rules for a listener whose load balancer is gone
  // ---------------------------------------------------------------------

  /** The request stores a load balancer under this ARN. */
  predicate StoresLb(s: Stores, r: Request, lb: string) {
    r.CreateLoadBalancer? && r.arn == lb && Step(s, r).1 == Ok
  }

  /** Request `i` deleted the load balancer for good: its ARN is not drawn again. */
  ghost predicate DeletedAt(reqs: seq<Request>, i: nat, lb: string)
    requires i < |reqs|
  {
    reqs[i] == DeleteLoadBalancer(lb) && forall j :: i < j < |reqs| ==> !StoresLb(Run(reqs[..j]), reqs[j], lb)
  }

  ghost predicate DeletedSince(reqs: seq<Request>, from: nat, lb: string) {
    exists i :: from <= i < |reqs| && DeletedAt(reqs, i, lb)
  }

  lemma DeletedAtStep(reqs: seq<Request>, i: nat, lb: string)
    requires i < |reqs| - 1
    ensures var n := |reqs| - 1;
            DeletedAt(reqs, i, lb) <==> DeletedAt(reqs[..n], i, lb) && !StoresLb(Run(reqs[..n]), reqs[n], lb)
  {
    var front := reqs[..|reqs| - 1];
    forall j | 0 <= j < |front|
      ensures front[..j] == reqs[..j] && front[j] == reqs[j]
    {
    }
  }

  lemma LbStep(s: Stores, r: Request, lb: string)
    requires UniqueKeys(s.lbs)
    ensures UniqueKeys(Step(s, r).0.lbs)
    ensures Has(Step(s, r).0.lbs, lb) <==> r != DeleteLoadBalancer(lb) && (StoresLb(s, r, lb) || Has(s.lbs, lb))
  {
    match r
    case CreateLoadBalancer(name, arn) =>
      PutUnique(s.lbs, arn, name);
      PutGet(s.lbs, arn, name, lb);
    case DeleteLoadBalancer(gone) =>
      RemoveUnique(s.lbs, gone);
      RemoveGet(s.lbs, gone, lb);
    case _ =>
  }

  lemma {:induction false} LbsUnique(reqs: seq<Request>)
    ensures UniqueKeys(Run(reqs).lbs)
  {
    if reqs != [] {
      LbsUnique(reqs[..|reqs| - 1]);
      LbStep(Run(reqs[..|reqs| - 1]), reqs[|reqs| - 1], "");
    }
  }

  lemma DeletedSinceStep(reqs: seq<Request>, from: nat, lb: string)
    requires from < |reqs|
    ensures var n := |reqs| - 1;
            DeletedSince(reqs, from, lb) <==>
              reqs[n] == DeleteLoadBalancer(lb) ||
              (DeletedSince(reqs[..n], from, lb) && !StoresLb(Run(reqs[..n]), reqs[n], lb))
  {
    var n := |reqs| - 1;
    forall i | from <= i < n
      ensures DeletedAt(reqs, i, lb) <==> DeletedAt(reqs[..n], i, lb) && !StoresLb(Run(reqs[..n]), reqs[n], lb)
    {
      DeletedAtStep(reqs, i, lb);
    }
    assert DeletedAt(reqs, n, lb) <==> reqs[n] == DeleteLoadBalancer(lb);
  }

  /** A load balancer that was there is missing exactly if it was deleted since. */
  lemma {:induction false} LbMissingExactly(reqs: seq<Request>, from: nat, lb: string)
    requires from <= |reqs| && Has(Run(reqs[..from]).lbs, lb)
    ensures Has(Run(reqs).lbs, lb) <==> !DeletedSince(reqs, from, lb)
    decreases |reqs|
  {
    if from == |reqs| {
      assert reqs[..from] == reqs;
    } else {
      var n := |reqs| - 1;
      assert reqs[..n][..from] == reqs[..from];
      LbMissingExactly(reqs[..n], from, lb);
      LbsUnique(reqs[..n]);
      LbStep(Run(reqs[..n]), reqs[n], lb);
      DeletedSinceStep(reqs, from, lb);
    }
  }

  /** A listener keeps the load balancer it was created for. */
  lemma OwnerLasts(s: Stores, r: Request, l: string)
    requires UniqueKeys(s.listeners) && l !in ListenerArn(r) && Has(Step(s, r).0.listeners, l)
    ensures Has(s.listeners, l) && Get(Step(s, r).0.listeners, l).value.lb == Get(s.listeners, l).value.lb
  {
    match r
    case CreateListener(lb, port, actions, arn, _) => PutGet(s.listeners, arn, Listener(lb, port, actions), l);
    case ModifyListener(arn, port, actions) =>
      if Has(s.listeners, arn) {
        PutGet(s.listeners, arn, ModifiedListener(Get(s.listeners, arn).value, port, actions), l);
      }
    case DeleteListener(arn) => RemoveGet(s.listeners, arn, l);
    case _ =>
  }

  lemma {:induction false} OwnerOf(reqs: seq<Request>, k: nat)
    requires FreshRun(reqs) && DistinctArns(reqs) && k < |reqs|
    requires reqs[k].CreateListener? && Has(Run(reqs[..k]).lbs, reqs[k].lb) && Has(Run(reqs).listeners, reqs[k].arn)
    ensures Get(Run(reqs).listeners, reqs[k].arn).value.lb == reqs[k].lb
    decreases |reqs|
  {
    var front := reqs[..|reqs| - 1];
    if k == |reqs| - 1 {
      CreationStores(Run(front), reqs[k]);
    } else {
      UniqueBefore(reqs);
      NotReissued(reqs, k);
      OwnerLasts(Run(front), reqs[|reqs| - 1], reqs[k].arn);
      FrontAt(reqs, k);
      OwnerOf(front, k);
    }
  }

  lemma CreateRuleReply(s: Stores, r: Request, lb: string)
    requires r.CreateRule? && (Has(s.listeners, r.listener) ==> Get(s.listeners, r.listener).value.lb == lb)
    ensures Step(s, r).1 ==
            if !Has(s.listeners, r.listener) then NotFound else if Has(s.lbs, lb) then Ok else ServerError
  {
  }

  /** Creating a rule on a listener of the run fails exactly if the listener's load balancer was
      deleted after the listener was created, and its ARN not drawn again; the failure is the
      unhandled KeyError.  For a listener that is gone the reply is NotFound. */
  lemma CreateRuleFailsExactly(reqs: seq<Request>, k: nat, r: Request)
    requires FreshRun(reqs) && DistinctArns(reqs) && k < |reqs|
    requires reqs[k].CreateListener? && Has(Run(reqs[..k]).lbs, reqs[k].lb)
    requires r.CreateRule? && r.listener == reqs[k].arn
    ensures Step(Run(reqs), r).1 ==
            if !Has(Run(reqs).listeners, reqs[k].arn) then NotFound
            else if DeletedSince(reqs, k, reqs[k].lb) then ServerError
            else Ok
  {
    var s, lb := Run(reqs), reqs[k].lb;
    if Has(s.listeners, r.listener) {
      OwnerOf(reqs, k);
    }
    LbMissingExactly(reqs, k, lb);
    CreateRuleReply(s, r, lb);
  }

  lemma RunAppend(reqs: seq<Request>, r: Request)
    ensures Run(reqs + [r]) == Step(Run(reqs), r).0
  {
    assert (reqs + [r])[..|reqs|] == reqs;
  }

  /** From the empty stores: deleting a load balancer leaves its listener, for which creating a
      rule then raises KeyError. */
  lemma OrphanedListener(lb: string, port: int, actions: seq<Action>, l: string, d: string, r: Request)
    requires r.CreateRule? && r.listener == l
    ensures var run := [CreateLoadBalancer("n", lb)] + [CreateListener(lb, port, actions, l, d)] + [DeleteLoadBalancer(lb)];
            Step(Run(run), r) == (Run(run), ServerError)
  {
    var r0, r1 := [CreateLoadBalancer("n", lb)], [CreateListener(lb, port, actions, l, d)];
    RunAppend([], r0[0]);
    assert [] + r0 == r0;
    RunAppend(r0, r1[0]);
    RunAppend(r0 + r1, DeleteLoadBalancer(lb));
  }

  // ---------------------------------------------------------------------
  // Attribute lists: _modify_lb_attrs and its two copies
  // ---------------------------------------------------------------------

  /** `index` maps each key to its place in the list. */
  ghost predicate Indexes(index: map<string, nat>, attrs: Entries<string, string>) {
    (forall i :: 0 <= i < |attrs| ==> attrs[i].0 in index && index[attrs[i].0] == i) &&
    forall k :: k in index ==> index[k] < |attrs| && attrs[index[k]].0 == k
  }

  lemma {:induction false} PutAt(attrs: Entries<string, string>, i: nat, v: string)
    requires i < |attrs| && UniqueKeys(attrs)
    ensures Put(attrs, attrs[i].0, v) == attrs[i := (attrs[i].0, v)]
  {
    if i > 0 {
      assert attrs[i].0 != attrs[0].0;
      PutAt(attrs[1..], i - 1, v);
      assert attrs[i := (attrs[i].0, v)] == [attrs[0]] + attrs[1..][i - 1 := (attrs[i].0, v)];
    }
  }

  lemma PutIndexed(attrs: Entries<string, string>, index: map<string, nat>, key: string, v: string)
    requires UniqueKeys(attrs) && Indexes(index, attrs)
    ensures key in index ==>
              Put(attrs, key, v) == attrs[index[key] := (key, v)] && Indexes(index, Put(attrs, key, v))
    ensures key !in index ==>
              Put(attrs, key, v) == attrs + [(key, v)] && Indexes(index[key := |attrs|], Put(attrs, key, v))
  {
    if key in index {
      PutAt(attrs, index[key], v);
    } else {
      HasIndex(attrs, key);
      PutNew(attrs, key, v);
    }
  }

  /** Edits a list in place through an index of positions; the result is that of storing
      every pair in an insertion-ordered dictionary. */
  method ModifyAttributes(attrs: Entries<string, string>, updates: seq<(string, string)>)
    returns (result: Entries<string, string>)
    requires UniqueKeys(attrs)
    ensures UniqueKeys(result) && result == PutAll(attrs, updates)
  {
    result := attrs;
    var index: map<string, nat> := map i | 0 <= i < |attrs| :: attrs[i].0 := i;
    for k := 0 to |updates|
      invariant UniqueKeys(result) && Indexes(index, result)
      invariant result == PutAll(attrs, updates[..k])
    {
      var (key, value) := updates[k];
      PutAllAppend(attrs, updates[..k], key, value);
      assert updates[..k + 1] == updates[..k] + [(key, value)];
      PutUnique(result, key, value);
      PutIndexed(result, index, key, value);
      if key in index {
        result := result[index[key] := (key, value)];
      } else {
        index := index[key := |result|];
        result := result + [(key, value)];
      }
    }
    assert updates[..|updates|] == updates;
  }

  // ---------------------------------------------------------------------
  // The service
  // ---------------------------------------------------------------------

  class Service {
    var lbs: Entries<string, string>
    var listeners: Entries<string, Listener>
    var rules: Entries<string, Rule>

    function Contents(): Stores
      reads this
    {
      Stores(lbs, listeners, rules)
    }

    /** Each rule belongs to a listener and each listener has one default rule, in every state
        that the handlers leave. */
    ghost predicate Valid()
      reads this
    {
      Sound(Contents())
    }

    constructor ()
      ensures Valid() && Contents() == EMPTY
    {
      lbs, listeners, rules := [], [], [];
    }

    method CreateListener(lb: string, port: int, actions: seq<Action>, arn: string, ruleArn: string)
      returns (reply: Reply)
      requires Valid() && DrawsFresh(Contents(), Request.CreateListener(lb, port, actions, arn, ruleArn))
      modifies this
      ensures Valid()
      ensures (Contents(), reply) == Step(old(Contents()), Request.CreateListener(lb, port, actions, arn, ruleArn))
    {
      SoundStep(Contents(), Request.CreateListener(lb, port, actions, arn, ruleArn));
      if !Has(lbs, lb) {
        return NotFound;
      }
      listeners := Put(listeners, arn, Listener(lb, port, actions));
      rules := Put(rules, ruleArn, Rule(arn, "default", [], actions, true));
      reply := Ok;
    }

    method DeleteListener(l: string) returns (reply: Reply)
      requires Valid()
      modifies this
      ensures Valid()
      ensures (Contents(), reply) == Step(old(Contents()), Request.DeleteListener(l))
    {
      SoundStep(Contents(), Request.DeleteListener(l));
      if !Has(listeners, l) {
        return NotFound;
      }
      listeners := Remove(listeners, l);
      rules := WithoutListener(rules, l);
      reply := Ok;
    }

    method CreateRule(l: string, priority: string, conditions: seq<Condition>, actions: seq<Action>, arn: string)
      returns (reply: Reply)
      requires Valid() && DrawsFresh(Contents(), Request.CreateRule(l, priority, conditions, actions, arn))
      modifies this
      ensures Valid()
      ensures (Contents(), reply) ==
              Step(old(Contents()), Request.CreateRule(l, priority, conditions, actions, arn))
    {
      SoundStep(Contents(), Request.CreateRule(l, priority, conditions, actions, arn));
      var listener := Get(listeners, l);
      if listener.None? {
        return NotFound;
      }
      if !Has(lbs, listener.value.lb) {
        return ServerError;
      }
      rules := Put(rules, arn, Rule(l, priority, conditions, actions, false));
      reply := Ok;
    }

    method DeleteRule(arn: string) returns (reply: Reply)
      requires Valid()
      modifies this
      ensures Valid()
      ensures (Contents(), reply) == Step(old(Contents()), Request.DeleteRule(arn))
    {
      SoundStep(Contents(), Request.DeleteRule(arn));
      var rule := Get(rules, arn);
      if rule.Some? && rule.value.isDefault {
        return NotPermitted;
      }
      rules := Remove(rules, arn);
      reply := Ok;
    }

    method SetRulePriorities(ps: seq<(string, string)>) returns (reply: Reply)
      requires Valid()
      modifies this
      ensures Valid()
      ensures (Contents(), reply) == Step(old(Contents()), Request.SetRulePriorities(ps))
    {
      SoundStep(Contents(), Request.SetRulePriorities(ps));
      for i := 0 to |ps|
        invariant Reprioritize(rules, ps[i..]) == Reprioritize(old(rules), ps)
        invariant lbs == old(lbs) && listeners == old(listeners)
      {
        assert ps[i..][1..] == ps[i + 1..];
        var rule := Get(rules, ps[i].0);
        if rule.Some? {
          rules := Put(rules, ps[i].0, rule.value.(priority := ps[i].1));
        }
      }
      reply := Ok;
    }

    method Dispatch(lib: Library, lb: string, port: int, req: HttpRequest) returns (outcome: Outcome)
      ensures Dispatches(Contents(), lib, lb, port, req, outcome)
    {
      var chosen := ChosenListener(listeners, lb, port);
      if chosen.None? {
        return NoListener;
      }
      var (arn, l) := chosen.value;
      var rs := RulesOf(rules, arn);
      var order := SortedPositions(lib, rs, |rs|);
      for k := 0 to |order|
        invariant forall a :: 0 <= a < k ==> !Eligible(lib, rs, order[a], l, req)
      {
        var rule := rs[order[k]];
        if RuleMatches(lib, rule, req) {
          var actions := Effective(rule, l);
          if actions != [] {
            FirstInOrder(lib, rs, order, k, l, req);
            return Executes(actions[0]);
          }
        }
      }
      forall i | 0 <= i < |rs|
        ensures !Eligible(lib, rs, i, l, req)
      {
        assert i in order;
      }
      return NoRule;
    }
  }

  lemma FirstInOrder(lib: Library, rs: seq<Rule>, order: seq<nat>, k: nat, l: Listener, req: HttpRequest)
    requires Ordered(lib, rs, order, |rs|) && k < |order|
    requires forall a :: 0 <= a < k ==> !Eligible(lib, rs, order[a], l, req)
    ensures forall j :: 0 <= j < |rs| && Eligible(lib, rs, j, l, req) ==> j == order[k] || Before(lib, rs, order[k], j)
  {
    forall j | 0 <= j < |rs| && Eligible(lib, rs, j, l, req)
      ensures j == order[k] || Before(lib, rs, order[k], j)
    {
      assert j in order;
      var b :| 0 <= b < |order| && order[b] == j;
      assert b >= k;
    }
  }
}

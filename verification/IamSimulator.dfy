/** The IAM policy simulator's evaluation engine (kumostack/app.py, _handle_iam_simulate). */
module IamSimulator {
  import opened Prelude
  import Text

  /** A statement member as JSON gives it. */
  datatype Field = Absent | Null | One(s: string) | Many(ss: seq<string>)

  datatype Statement = Statement(
    sid: Option<string>,
    effect: Option<string>,
    action: Field,
    notAction: Field,
    resource: Field,
    notResource: Field
  )

  /** `statements` is None when the policy document cannot be resolved or is empty. */
  datatype Policy = Policy(name: string, source: string, statements: Option<seq<Statement>>)

  /** Pattern matching of actions and resources (`fnmatch`): pattern, then name. */
  datatype Matcher = Matcher(action: (string, string) -> bool, resource: (string, string) -> bool)

  datatype Query = Query(action: string, resource: string)

  datatype Decision = ImplicitDeny | Allow | ExplicitDeny

  datatype Verdict = Skipped | NoMatch | Allowed | Denied

  datatype Step = Step(policy: string, source: string, statement: Option<string>, verdict: Verdict)

  /** A statement together with the policy that holds it. */
  datatype Hit = Hit(policy: Policy, statement: Statement)

  // ---------------------------------------------------------------------
  // One statement
  // ---------------------------------------------------------------------

  predicate Truthy(f: Field) {
    match f
    case One(s) => s != ""
    case Many(ss) => ss != []
    case _ => false
  }

  function Patterns(f: Field): Option<seq<string>> {
    match f
    case One(s) => Some([s])
    case Many(ss) => Some(ss)
    case _ => None
  }

  /** `stmt.get(positive) or stmt.get(negative)`; the sense is inverted whenever the negative
      member is present, even when the positive one supplied the patterns. */
  function FieldMatches(positive: Field, negative: Field, test: string -> bool): bool {
    var patterns := Patterns(if Truthy(positive) then positive else negative);
    patterns.Some? && if negative.Absent? then Any(patterns.value, test) else !Any(patterns.value, test)
  }

  predicate Any(patterns: seq<string>, test: string -> bool) {
    exists i :: 0 <= i < |patterns| && test(patterns[i])
  }

  function ActionTest(m: Matcher, q: Query): string -> bool {
    pattern => m.action(pattern, q.action)
  }

  function ResourceTest(m: Matcher, q: Query): string -> bool {
    pattern => m.resource(pattern, q.resource)
  }

  predicate Applies(m: Matcher, s: Statement, q: Query) {
    FieldMatches(s.action, s.notAction, ActionTest(m, q)) && FieldMatches(s.resource, s.notResource, ResourceTest(m, q))
  }

  /** The effect of a statement that applies; an omitted Effect means Allow. */
  function Effect(m: Matcher, s: Statement, q: Query): Option<string> {
    if Applies(m, s, q) then Some(GetOr(s.effect, "Allow")) else None
  }

  predicate Denies(m: Matcher, s: Statement, q: Query) {
    Effect(m, s, q) == Some("Deny")
  }

  predicate Allows(m: Matcher, s: Statement, q: Query) {
    Effect(m, s, q) == Some("Allow")
  }

  // ---------------------------------------------------------------------
  // The rule, without order
  // ---------------------------------------------------------------------

  function HitsOf(p: Policy): (hs: seq<Hit>)
    ensures p.statements.None? ==> hs == []
    ensures p.statements.Some? ==> |hs| == |p.statements.value|
    ensures p.statements.Some? ==> forall i :: 0 <= i < |hs| ==> hs[i] == Hit(p, p.statements.value[i])
  {
    if p.statements.None? then []
    else seq(|p.statements.value|, i requires 0 <= i < |p.statements.value| => Hit(p, p.statements.value[i]))
  }

  /** Every statement of every resolvable policy, in evaluation order. */
  function Hits(ps: seq<Policy>): seq<Hit> {
    if ps == [] then [] else Hits(ps[..|ps| - 1]) + HitsOf(ps[|ps| - 1])
  }

  ghost predicate SomeDenies(m: Matcher, hs: seq<Hit>, q: Query) {
    exists i :: 0 <= i < |hs| && Denies(m, hs[i].statement, q)
  }

  ghost predicate SomeAllows(m: Matcher, hs: seq<Hit>, q: Query) {
    exists i :: 0 <= i < |hs| && Allows(m, hs[i].statement, q)
  }

  /** A deny beats any allow; without either the request is denied implicitly. */
  ghost function Rule(m: Matcher, hs: seq<Hit>, q: Query): Decision {
    if SomeDenies(m, hs, q) then ExplicitDeny
    else if SomeAllows(m, hs, q) then Allow
    else ImplicitDeny
  }

  ghost predicate IsFirstDeny(m: Matcher, hs: seq<Hit>, q: Query, h: Hit) {
    exists i :: 0 <= i < |hs| && hs[i] == h && Denies(m, h.statement, q) &&
      forall j :: 0 <= j < i ==> !Denies(m, hs[j].statement, q)
  }

  ghost predicate IsFirstAllow(m: Matcher, hs: seq<Hit>, q: Query, h: Hit) {
    exists i :: 0 <= i < |hs| && hs[i] == h && Allows(m, h.statement, q) &&
      forall j :: 0 <= j < i ==> !Allows(m, hs[j].statement, q)
  }

  /** What a simulation reports: the rule's decision, and the statement that decided it. */
  ghost predicate Reports(m: Matcher, hs: seq<Hit>, q: Query, d: Decision, matched: Option<Hit>) {
    d == Rule(m, hs, q) &&
    match d
    case ExplicitDeny => matched.Some? && IsFirstDeny(m, hs, q, matched.value)
    case Allow => matched.Some? && IsFirstAllow(m, hs, q, matched.value)
    case ImplicitDeny => matched.None?
  }

  lemma {:induction false} HitMembership(ps: seq<Policy>, h: Hit)
    ensures h in Hits(ps) <==> h.policy in ps && h in HitsOf(h.policy)
  {
    if ps != [] {
      HitMembership(ps[..|ps| - 1], h);
      assert h.policy in ps <==> h.policy in ps[..|ps| - 1] || h.policy == ps[|ps| - 1];
    }
  }

  lemma {:induction false} HitsAppend(ps: seq<Policy>, p: Policy)
    ensures Hits(ps + [p]) == Hits(ps) + HitsOf(p)
  {
    assert (ps + [p])[..|ps|] == ps;
  }

  ghost predicate HasStatement(hs: seq<Hit>, s: Statement) {
    exists i :: 0 <= i < |hs| && hs[i].statement == s
  }

  lemma RuleDependsOnSet(m: Matcher, hs: seq<Hit>, gs: seq<Hit>, q: Query)
    requires forall s :: HasStatement(hs, s) <==> HasStatement(gs, s)
    ensures Rule(m, hs, q) == Rule(m, gs, q)
  {
    SameStatements(m, hs, gs, q);
    SameStatements(m, gs, hs, q);
  }

  lemma SameStatements(m: Matcher, hs: seq<Hit>, gs: seq<Hit>, q: Query)
    requires forall s :: HasStatement(hs, s) ==> HasStatement(gs, s)
    ensures SomeDenies(m, hs, q) ==> SomeDenies(m, gs, q)
    ensures SomeAllows(m, hs, q) ==> SomeAllows(m, gs, q)
  {
    forall i | 0 <= i < |hs|
      ensures exists j :: 0 <= j < |gs| && gs[j].statement == hs[i].statement
    {
      assert HasStatement(hs, hs[i].statement);
    }
  }

  /** Permuting the policies does not change the decision. */
  lemma PolicyOrderIrrelevant(m: Matcher, ps: seq<Policy>, rs: seq<Policy>, q: Query)
    requires multiset(ps) == multiset(rs)
    ensures Rule(m, Hits(ps), q) == Rule(m, Hits(rs), q)
  {
    PolicyOrderCarries(ps, rs);
    PolicyOrderCarries(rs, ps);
    RuleDependsOnSet(m, Hits(ps), Hits(rs), q);
  }

  lemma PolicyOrderCarries(ps: seq<Policy>, rs: seq<Policy>)
    requires multiset(ps) == multiset(rs)
    ensures forall s :: HasStatement(Hits(ps), s) ==> HasStatement(Hits(rs), s)
  {
    forall s | HasStatement(Hits(ps), s)
      ensures HasStatement(Hits(rs), s)
    {
      var i :| 0 <= i < |Hits(ps)| && Hits(ps)[i].statement == s;
      var h := Hits(ps)[i];
      HitMembership(ps, h);
      HitMembership(rs, h);
      assert h.policy in multiset(ps);
    }
  }

  /** Permuting the statements of one policy does not change the decision. */
  lemma StatementOrderIrrelevant(m: Matcher, ps: seq<Policy>, k: nat, ss: seq<Statement>, q: Query)
    requires k < |ps| && ps[k].statements.Some? && multiset(ps[k].statements.value) == multiset(ss)
    ensures Rule(m, Hits(ps), q) == Rule(m, Hits(ps[k := ps[k].(statements := Some(ss))]), q)
  {
    var p' := ps[k].(statements := Some(ss));
    var rs := ps[k := p'];
    assert rs[k := ps[k]] == ps;
    StatementsCarry(ps, k, p');
    StatementsCarry(rs, k, ps[k]);
    RuleDependsOnSet(m, Hits(ps), Hits(rs), q);
  }

  lemma StatementsCarry(ps: seq<Policy>, k: nat, p: Policy)
    requires k < |ps| && ps[k].statements.Some? && p.statements.Some?
    requires multiset(ps[k].statements.value) == multiset(p.statements.value)
    ensures forall s :: HasStatement(Hits(ps), s) ==> HasStatement(Hits(ps[k := p]), s)
  {
    var rs := ps[k := p];
    forall s | HasStatement(Hits(ps), s)
      ensures HasStatement(Hits(rs), s)
    {
      var n :| 0 <= n < |Hits(ps)| && Hits(ps)[n].statement == s;
      var h := Hits(ps)[n];
      HitMembership(ps, h);
      var i :| 0 <= i < |ps| && ps[i] == h.policy;
      if i != k {
        assert rs[i] == h.policy;
        HitMembership(rs, h);
      } else {
        assert s in multiset(ps[k].statements.value);
        var j :| 0 <= j < |p.statements.value| && p.statements.value[j] == s;
        assert HitsOf(p)[j] == Hit(p, s) && rs[k] == p;
        HitMembership(rs, Hit(p, s));
      }
    }
  }

  // ---------------------------------------------------------------------
  // What matching means, shape by shape
  // ---------------------------------------------------------------------

  ghost predicate SomeMatches(patterns: seq<string>, test: string -> bool) {
    exists p :: p in patterns && test(p)
  }

  ghost predicate NoneMatches(patterns: seq<string>, test: string -> bool) {
    forall p :: p in patterns ==> !test(p)
  }

  /** One side of a statement: its positive member alone holds if some pattern matches, its
      negative member alone if none does.  With both, the positive patterns are inverted.  An
      empty positive member counts as missing, and a side without usable member never holds. */
  ghost predicate SideHolds(positive: Field, negative: Field, test: string -> bool) {
    match negative
    case Absent => (match positive
                    case One(s) => s != "" && test(s)
                    case Many(ss) => SomeMatches(ss, test)
                    case _ => false)
    case Null => (match positive
                  case One(s) => s != "" && !test(s)
                  case Many(ss) => ss != [] && NoneMatches(ss, test)
                  case _ => false)
    case One(t) => (match positive
                    case One(s) => if s == "" then !test(t) else !test(s)
                    case Many(ss) => if ss == [] then !test(t) else NoneMatches(ss, test)
                    case _ => !test(t))
    case Many(ts) => (match positive
                      case One(s) => if s == "" then NoneMatches(ts, test) else !test(s)
                      case Many(ss) => if ss == [] then NoneMatches(ts, test) else NoneMatches(ss, test)
                      case _ => NoneMatches(ts, test))
  }

  lemma MatchesByIndex(patterns: seq<string>, test: string -> bool)
    ensures Any(patterns, test) <==> SomeMatches(patterns, test)
    ensures SomeMatches(patterns, test) <==> !NoneMatches(patterns, test)
    ensures |patterns| == 1 ==> (SomeMatches(patterns, test) <==> test(patterns[0]))
  {
    forall p | p in patterns
      ensures exists i :: 0 <= i < |patterns| && patterns[i] == p
    {
    }
  }

  lemma SideExactly(positive: Field, negative: Field, test: string -> bool)
    ensures FieldMatches(positive, negative, test) <==> SideHolds(positive, negative, test)
  {
    var used := if Truthy(positive) then positive else negative;
    match used
    case One(s) => MatchesByIndex([s], test);
    case Many(ss) => MatchesByIndex(ss, test);
    case _ =>
  }

  /** Action patterns are tested against the action, resource patterns against the resource. */
  lemma TestsMean(m: Matcher, q: Query, pattern: string)
    ensures ActionTest(m, q)(pattern) == m.action(pattern, q.action)
    ensures ResourceTest(m, q)(pattern) == m.resource(pattern, q.resource)
  {
  }

  /** Both sides of the statement hold, the patterns of each against its own part of the query,
      and its effect is this one; Allow may be left out. */
  ghost predicate Grants(m: Matcher, s: Statement, q: Query, effect: string) {
    SideHolds(s.action, s.notAction, ActionTest(m, q)) && SideHolds(s.resource, s.notResource, ResourceTest(m, q)) &&
    (s.effect == Some(effect) || (s.effect.None? && effect == "Allow"))
  }

  lemma GrantsExactly(m: Matcher, s: Statement, q: Query)
    ensures Denies(m, s, q) <==> Grants(m, s, q, "Deny")
    ensures Allows(m, s, q) <==> Grants(m, s, q, "Allow")
  {
    SideExactly(s.action, s.notAction, ActionTest(m, q));
    SideExactly(s.resource, s.notResource, ResourceTest(m, q));
  }

  /** Some statement of some resolvable policy applies with this effect. */
  ghost predicate SomeStatement(m: Matcher, ps: seq<Policy>, q: Query, effect: string) {
    exists p, s :: p in ps && p.statements.Some? && s in p.statements.value && Grants(m, s, q, effect)
  }

  lemma SomeHit(m: Matcher, ps: seq<Policy>, q: Query, effect: string)
    ensures SomeStatement(m, ps, q, effect) <==>
            exists i :: 0 <= i < |Hits(ps)| && Grants(m, Hits(ps)[i].statement, q, effect)
  {
    if SomeStatement(m, ps, q, effect) {
      var p, s :| p in ps && p.statements.Some? && s in p.statements.value && Grants(m, s, q, effect);
      var j :| 0 <= j < |p.statements.value| && p.statements.value[j] == s;
      assert HitsOf(p)[j] == Hit(p, s);
      HitMembership(ps, Hit(p, s));
      var i :| 0 <= i < |Hits(ps)| && Hits(ps)[i] == Hit(p, s);
    }
    if exists i :: 0 <= i < |Hits(ps)| && Grants(m, Hits(ps)[i].statement, q, effect) {
      var i :| 0 <= i < |Hits(ps)| && Grants(m, Hits(ps)[i].statement, q, effect);
      var h := Hits(ps)[i];
      HitMembership(ps, h);
      assert h.policy in ps && h.policy.statements.Some? && h.statement in h.policy.statements.value;
    }
  }

  /** A statement that denies beats any that allows. */
  ghost function Decided(m: Matcher, ps: seq<Policy>, q: Query): Decision {
    if SomeStatement(m, ps, q, "Deny") then ExplicitDeny
    else if SomeStatement(m, ps, q, "Allow") then Allow
    else ImplicitDeny
  }

  lemma RuleExactly(m: Matcher, ps: seq<Policy>, q: Query)
    ensures Rule(m, Hits(ps), q) == Decided(m, ps, q)
  {
    SomeHit(m, ps, q, "Deny");
    SomeHit(m, ps, q, "Allow");
    forall i | 0 <= i < |Hits(ps)|
      ensures Denies(m, Hits(ps)[i].statement, q) <==> Grants(m, Hits(ps)[i].statement, q, "Deny")
      ensures Allows(m, Hits(ps)[i].statement, q) <==> Grants(m, Hits(ps)[i].statement, q, "Allow")
    {
      GrantsExactly(m, Hits(ps)[i].statement, q);
    }
  }

  // ---------------------------------------------------------------------
  // The loops
  // ---------------------------------------------------------------------

  function Sid(s: Statement, i: nat): string {
    GetOr(s.sid, "Statement" + Text.Decimal(i + 1))
  }

  ghost predicate NothingDenied(m: Matcher, hs: seq<Hit>, q: Query) {
    forall i :: 0 <= i < |hs| ==> !Denies(m, hs[i].statement, q)
  }

  /** The state of the loops before any statement has denied: the first allow so far. */
  ghost predicate Pending(m: Matcher, hs: seq<Hit>, q: Query, d: Decision, matched: Option<Hit>) {
    NothingDenied(m, hs, q) && d != ExplicitDeny && Reports(m, hs, q, d, matched)
  }

  lemma PendingStep(m: Matcher, hs: seq<Hit>, h: Hit, q: Query, d: Decision, matched: Option<Hit>)
    requires Pending(m, hs, q, d, matched)
    ensures Denies(m, h.statement, q) ==> IsFirstDeny(m, hs + [h], q, h)
    ensures Allows(m, h.statement, q) && d == ImplicitDeny ==> Pending(m, hs + [h], q, Allow, Some(h))
    ensures Allows(m, h.statement, q) && d == Allow ==> Pending(m, hs + [h], q, d, matched)
    ensures !Denies(m, h.statement, q) && !Allows(m, h.statement, q) ==> Pending(m, hs + [h], q, d, matched)
  {
    var all := hs + [h];
    assert all[|hs|] == h && forall i :: 0 <= i < |hs| ==> all[i] == hs[i];
    if !Denies(m, h.statement, q) {
      assert SomeAllows(m, all, q) <==> SomeAllows(m, hs, q) || Allows(m, h.statement, q);
      if d == Allow {
        var i :| 0 <= i < |hs| && hs[i] == matched.value && forall j :: 0 <= j < i ==> !Allows(m, hs[j].statement, q);
        assert all[i] == matched.value;
      }
    }
  }

  /** A statement is named by its Sid, else by its position counted from 1. */
  lemma SidExactly(s: Statement, i: nat)
    ensures s.sid.Some? ==> Sid(s, i) == s.sid.value
    ensures s.sid.None? ==> |Sid(s, i)| > 9 && Sid(s, i)[..9] == "Statement" && Sid(s, i)[9..] == Text.Decimal(i + 1)
  {
    assert s.sid.None? ==> Sid(s, i) == "Statement" + Text.Decimal(i + 1);
  }

  /** Nothing that follows changes which statement denied first. */
  lemma FirstDenyStays(m: Matcher, hs: seq<Hit>, gs: seq<Hit>, q: Query, h: Hit)
    requires IsFirstDeny(m, hs, q, h)
    ensures IsFirstDeny(m, hs + gs, q, h) && Reports(m, hs + gs, q, ExplicitDeny, Some(h))
  {
    var i :| 0 <= i < |hs| && hs[i] == h && forall j :: 0 <= j < i ==> !Denies(m, hs[j].statement, q);
    assert (hs + gs)[i] == h && forall j :: 0 <= j < i ==> (hs + gs)[j] == hs[j];
  }

  /** What a step is about: a policy with its source, and one of its statements unless the
      policy was skipped. */
  datatype Subject = Subject(policy: string, source: string, statement: Option<string>)

  /** The subjects of a policy: itself if it is skipped, else its statements in order. */
  function SubjectsOf(p: Policy): (r: seq<Subject>)
    ensures p.statements.None? ==> r == [Subject(p.name, p.source, None)]
    ensures p.statements.Some? ==>
              |r| == |p.statements.value| &&
              forall i :: 0 <= i < |r| ==> r[i] == Subject(p.name, p.source, Some(Sid(p.statements.value[i], i)))
  {
    if p.statements.None? then [Subject(p.name, p.source, None)]
    else
      seq(|p.statements.value|, i requires 0 <= i < |p.statements.value| =>
          Subject(p.name, p.source, Some(Sid(p.statements.value[i], i))))
  }

  /** The subjects of all policies, in the order the policies are given. */
  function Subjects(ps: seq<Policy>): seq<Subject> {
    if ps == [] then [] else Subjects(ps[..|ps| - 1]) + SubjectsOf(ps[|ps| - 1])
  }

  lemma SubjectsAppend(ps: seq<Policy>, p: Policy)
    ensures Subjects(ps + [p]) == Subjects(ps) + SubjectsOf(p)
  {
    assert (ps + [p])[..|ps|] == ps;
  }

  /** Step `i` is about subject `i`, and is skipped exactly if that is a whole policy. */
  ghost predicate Follows(steps: seq<Step>, subjects: seq<Subject>) {
    |steps| <= |subjects| &&
    forall i :: 0 <= i < |steps| ==> About(steps[i], subjects[i])
  }

  predicate About(step: Step, subject: Subject) {
    step.policy == subject.policy && step.source == subject.source && step.statement == subject.statement &&
    (step.verdict == Skipped <==> subject.statement.None?)
  }

  /** A step denies exactly if the simulation does and it is the last step. */
  ghost predicate EndsAtDeny(steps: seq<Step>, denied: bool) {
    (denied ==> steps != []) &&
    forall i :: 0 <= i < |steps| ==> (steps[i].verdict == Denied <==> denied && i == |steps| - 1)
  }

  lemma EndsAppend(steps: seq<Step>, more: seq<Step>, denied: bool)
    requires EndsAtDeny(steps, false) && EndsAtDeny(more, denied)
    ensures EndsAtDeny(steps + more, denied)
  {
    assert more != [] ==> (steps + more)[|steps + more| - 1] == more[|more| - 1];
  }

  /** One more statement of a policy. */
  lemma StepTaken(steps: seq<Step>, p: Policy, i: nat, verdict: Verdict) returns (next: seq<Step>)
    requires p.statements.Some? && i < |p.statements.value| && verdict != Skipped
    requires |steps| == i && Follows(steps, SubjectsOf(p)) && EndsAtDeny(steps, false)
    ensures next == steps + [Step(p.name, p.source, Some(Sid(p.statements.value[i], i)), verdict)]
    ensures Follows(next, SubjectsOf(p)) && EndsAtDeny(next, verdict == Denied)
  {
    var step := Step(p.name, p.source, Some(Sid(p.statements.value[i], i)), verdict);
    next := steps + [step];
    assert About(step, SubjectsOf(p)[i]);
  }

  lemma FollowsAppend(steps: seq<Step>, more: seq<Step>, subjects: seq<Subject>, others: seq<Subject>)
    requires |steps| == |subjects| && Follows(steps, subjects) && Follows(more, others)
    ensures Follows(steps + more, subjects + others)
  {
  }

  lemma {:induction false} FollowsOn(ps: seq<Policy>, k: nat, steps: seq<Step>)
    requires k <= |ps| && Follows(steps, Subjects(ps[..k]))
    ensures Follows(steps, Subjects(ps))
    decreases |ps| - k
  {
    if k == |ps| {
      assert ps[..k] == ps;
    } else {
      assert ps[..k + 1] == ps[..k] + [ps[k]];
      SubjectsAppend(ps[..k], ps[k]);
      FollowsOn(ps, k + 1, steps);
    }
  }

  /** The state of the loop before statement `i` of the policy. */
  ghost predicate Walked(m: Matcher, p: Policy, q: Query, before: seq<Hit>, i: nat, d: Decision, hit: Option<Hit>,
                         steps: seq<Step>)
    requires p.statements.Some?
  {
    i == |steps| <= |p.statements.value| && Pending(m, before + HitsOf(p)[..i], q, d, hit) &&
    Follows(steps, SubjectsOf(p)) && EndsAtDeny(steps, false)
  }

  /** A statement of the policy is the first that denies. */
  ghost predicate Stopped(m: Matcher, p: Policy, q: Query, before: seq<Hit>, hit: Option<Hit>, steps: seq<Step>)
    requires p.statements.Some?
  {
    hit.Some? && IsFirstDeny(m, before + HitsOf(p), q, hit.value) &&
    Follows(steps, SubjectsOf(p)) && EndsAtDeny(steps, true)
  }

  function NextStep(p: Policy, i: nat, verdict: Verdict): Step
    requires p.statements.Some? && i < |p.statements.value|
  {
    Step(p.name, p.source, Some(Sid(p.statements.value[i], i)), verdict)
  }

  lemma HitsTo(p: Policy, before: seq<Hit>, i: nat)
    requires p.statements.Some? && i < |p.statements.value|
    ensures before + HitsOf(p)[..i + 1] == before + HitsOf(p)[..i] + [Hit(p, p.statements.value[i])]
    ensures before + HitsOf(p) == before + HitsOf(p)[..i] + [Hit(p, p.statements.value[i])] + HitsOf(p)[i + 1..]
  {
  }

  lemma DenyTaken(m: Matcher, p: Policy, q: Query, before: seq<Hit>, i: nat, d: Decision, hit: Option<Hit>, steps: seq<Step>)
    requires p.statements.Some? && i < |p.statements.value| && Walked(m, p, q, before, i, d, hit, steps)
    requires Denies(m, p.statements.value[i], q)
    ensures Stopped(m, p, q, before, Some(Hit(p, p.statements.value[i])), steps + [NextStep(p, i, Denied)])
  {
    var h := Hit(p, p.statements.value[i]);
    var next := StepTaken(steps, p, i, Denied);
    PendingStep(m, before + HitsOf(p)[..i], h, q, d, hit);
    HitsTo(p, before, i);
    FirstDenyStays(m, before + HitsOf(p)[..i] + [h], HitsOf(p)[i + 1..], q, h);
  }

  lemma AllowTaken(m: Matcher, p: Policy, q: Query, before: seq<Hit>, i: nat, d: Decision, hit: Option<Hit>, steps: seq<Step>)
    requires p.statements.Some? && i < |p.statements.value| && Walked(m, p, q, before, i, d, hit, steps)
    requires Allows(m, p.statements.value[i], q) && d != Allow
    ensures Walked(m, p, q, before, i + 1, Allow, Some(Hit(p, p.statements.value[i])), steps + [NextStep(p, i, Allowed)])
  {
    var next := StepTaken(steps, p, i, Allowed);
    PendingStep(m, before + HitsOf(p)[..i], Hit(p, p.statements.value[i]), q, d, hit);
    HitsTo(p, before, i);
  }

  lemma NoneTaken(m: Matcher, p: Policy, q: Query, before: seq<Hit>, i: nat, d: Decision, hit: Option<Hit>, steps: seq<Step>)
    requires p.statements.Some? && i < |p.statements.value| && Walked(m, p, q, before, i, d, hit, steps)
    requires !Denies(m, p.statements.value[i], q) && (Allows(m, p.statements.value[i], q) ==> d == Allow)
    ensures Walked(m, p, q, before, i + 1, d, hit, steps + [NextStep(p, i, NoMatch)])
  {
    var next := StepTaken(steps, p, i, NoMatch);
    PendingStep(m, before + HitsOf(p)[..i], Hit(p, p.statements.value[i]), q, d, hit);
    HitsTo(p, before, i);
  }

  /** The statements of one policy, continuing from the statements already evaluated. */
  method SimulatePolicy(m: Matcher, p: Policy, q: Query, d: Decision, hit: Option<Hit>, ghost before: seq<Hit>)
    returns (denied: bool, decision: Decision, matched: Option<Hit>, steps: seq<Step>)
    requires p.statements.Some? && Pending(m, before, q, d, hit)
    ensures denied ==> Stopped(m, p, q, before, matched, steps)
    ensures !denied ==> Walked(m, p, q, before, |p.statements.value|, decision, matched, steps)
  {
    denied, decision, matched, steps := false, d, hit, [];
    var statements := p.statements.value;
    assert before + HitsOf(p)[..0] == before;
    for i := 0 to |statements|
      invariant Walked(m, p, q, before, i, decision, matched, steps)
    {
      var s := statements[i];
      var effect := Effect(m, s, q);
      if effect == Some("Deny") {
        DenyTaken(m, p, q, before, i, decision, matched, steps);
        steps := steps + [NextStep(p, i, Denied)];
        denied, matched := true, Some(Hit(p, s));
        return;
      } else if effect == Some("Allow") && decision != Allow {
        AllowTaken(m, p, q, before, i, decision, matched, steps);
        decision, matched := Allow, Some(Hit(p, s));
        steps := steps + [NextStep(p, i, Allowed)];
      } else {
        NoneTaken(m, p, q, before, i, decision, matched, steps);
        steps := steps + [NextStep(p, i, NoMatch)];
      }
    }
  }

  /** A whole simulation: the decision with the statement that decided, and one step for each
      statement and each unresolvable policy in order, up to the deny if there is one. */
  ghost predicate Simulated(m: Matcher, ps: seq<Policy>, q: Query, d: Decision, matched: Option<Hit>, steps: seq<Step>) {
    Reports(m, Hits(ps), q, d, matched) &&
    Follows(steps, Subjects(ps)) && (d != ExplicitDeny ==> |steps| == |Subjects(ps)|) &&
    EndsAtDeny(steps, d == ExplicitDeny)
  }

  /** Simulates one action. */
  method Simulate(m: Matcher, ps: seq<Policy>, q: Query)
    returns (decision: Decision, matched: Option<Hit>, steps: seq<Step>)
    ensures decision == Decided(m, ps, q)
    ensures Simulated(m, ps, q, decision, matched, steps)
  {
    decision, matched, steps := SimulatePolicies(m, ps, q);
    RuleExactly(m, ps, q);
  }

  /** The steps so far, one for each subject, and none a deny unless it ends them. */
  ghost predicate Recorded(steps: seq<Step>, subjects: seq<Subject>, denied: bool) {
    Follows(steps, subjects) && EndsAtDeny(steps, denied) && (!denied ==> |steps| == |subjects|)
  }

  lemma RecordedAppend(steps: seq<Step>, more: seq<Step>, subjects: seq<Subject>, others: seq<Subject>, denied: bool)
    requires Recorded(steps, subjects, false) && Recorded(more, others, denied)
    ensures Recorded(steps + more, subjects + others, denied)
  {
    FollowsAppend(steps, more, subjects, others);
    EndsAppend(steps, more, denied);
  }

  /** The state of the loop before policy `k`. */
  ghost predicate Through(m: Matcher, ps: seq<Policy>, q: Query, k: nat, d: Decision, hit: Option<Hit>, steps: seq<Step>) {
    k <= |ps| && Pending(m, Hits(ps[..k]), q, d, hit) && Recorded(steps, Subjects(ps[..k]), false)
  }

  lemma UpTo(ps: seq<Policy>, k: nat)
    requires k < |ps|
    ensures Hits(ps[..k + 1]) == Hits(ps[..k]) + HitsOf(ps[k])
    ensures Subjects(ps[..k + 1]) == Subjects(ps[..k]) + SubjectsOf(ps[k])
  {
    assert ps[..k + 1] == ps[..k] + [ps[k]];
    HitsAppend(ps[..k], ps[k]);
    SubjectsAppend(ps[..k], ps[k]);
  }

  lemma PolicySkipped(m: Matcher, ps: seq<Policy>, q: Query, k: nat, d: Decision, hit: Option<Hit>, steps: seq<Step>)
    requires Through(m, ps, q, k, d, hit, steps) && k < |ps| && ps[k].statements.None?
    ensures Through(m, ps, q, k + 1, d, hit, steps + [Step(ps[k].name, ps[k].source, None, Skipped)])
  {
    UpTo(ps, k);
    RecordedAppend(steps, [Step(ps[k].name, ps[k].source, None, Skipped)], Subjects(ps[..k]), SubjectsOf(ps[k]), false);
    assert Hits(ps[..k]) + [] == Hits(ps[..k]);
  }

  lemma PolicyWalked(m: Matcher, ps: seq<Policy>, q: Query, k: nat, d: Decision, hit: Option<Hit>, steps: seq<Step>,
                     d': Decision, hit': Option<Hit>, more: seq<Step>)
    requires Through(m, ps, q, k, d, hit, steps) && k < |ps| && ps[k].statements.Some?
    requires Walked(m, ps[k], q, Hits(ps[..k]), |ps[k].statements.value|, d', hit', more)
    ensures Through(m, ps, q, k + 1, d', hit', steps + more)
  {
    UpTo(ps, k);
    RecordedAppend(steps, more, Subjects(ps[..k]), SubjectsOf(ps[k]), false);
    assert HitsOf(ps[k])[..|ps[k].statements.value|] == HitsOf(ps[k]);
  }

  lemma PolicyStopped(m: Matcher, ps: seq<Policy>, q: Query, k: nat, d: Decision, hit: Option<Hit>, steps: seq<Step>,
                      hit': Option<Hit>, more: seq<Step>)
    requires Through(m, ps, q, k, d, hit, steps) && k < |ps| && ps[k].statements.Some?
    requires Stopped(m, ps[k], q, Hits(ps[..k]), hit', more)
    ensures Simulated(m, ps, q, ExplicitDeny, hit', steps + more)
  {
    UpTo(ps, k);
    RecordedAppend(steps, more, Subjects(ps[..k]), SubjectsOf(ps[k]), true);
    var rest := HitsPrefix(ps, k + 1);
    FirstDenyStays(m, Hits(ps[..k + 1]), rest, q, hit'.value);
    FollowsOn(ps, k + 1, steps + more);
  }

  /** The loop over the policies. */
  method SimulatePolicies(m: Matcher, ps: seq<Policy>, q: Query)
    returns (decision: Decision, matched: Option<Hit>, steps: seq<Step>)
    ensures Simulated(m, ps, q, decision, matched, steps)
  {
    decision, matched, steps := ImplicitDeny, None, [];
    for k := 0 to |ps|
      invariant Through(m, ps, q, k, decision, matched, steps)
    {
      var p := ps[k];
      if p.statements.None? {
        PolicySkipped(m, ps, q, k, decision, matched, steps);
        steps := steps + [Step(p.name, p.source, None, Skipped)];
      } else {
        var denied, d, hit, more := SimulatePolicy(m, p, q, decision, matched, Hits(ps[..k]));
        if denied {
          PolicyStopped(m, ps, q, k, decision, matched, steps, hit, more);
          decision, matched, steps := ExplicitDeny, hit, steps + more;
          return;
        }
        PolicyWalked(m, ps, q, k, decision, matched, steps, d, hit, more);
        decision, matched, steps := d, hit, steps + more;
      }
    }
    assert ps[..|ps|] == ps;
  }

  lemma Regroup(a: seq<Hit>, b: seq<Hit>, c: seq<Hit>)
    ensures a + b + c == a + (b + c)
  {
  }

  lemma {:induction false} HitsPrefix(ps: seq<Policy>, k: nat) returns (rest: seq<Hit>)
    requires k <= |ps|
    ensures Hits(ps) == Hits(ps[..k]) + rest
    decreases |ps| - k
  {
    if k == |ps| {
      assert ps[..k] == ps;
      rest := [];
    } else {
      var tail := HitsPrefix(ps, k + 1);
      assert ps[..k + 1] == ps[..k] + [ps[k]];
      HitsAppend(ps[..k], ps[k]);
      rest := HitsOf(ps[k]) + tail;
      Regroup(Hits(ps[..k]), HitsOf(ps[k]), tail);
    }
  }

  /** What is decided on each of several actions. */
  ghost predicate DecidedEach(m: Matcher, ps: seq<Policy>, actions: seq<string>, resource: string, ds: seq<Decision>) {
    |ds| == |actions| && forall i :: 0 <= i < |ds| ==> ds[i] == Decided(m, ps, Query(actions[i], resource))
  }

  lemma DecidedNext(m: Matcher, ps: seq<Policy>, actions: seq<string>, resource: string, ds: seq<Decision>, action: string)
    requires DecidedEach(m, ps, actions, resource, ds)
    ensures DecidedEach(m, ps, actions + [action], resource, ds + [Decided(m, ps, Query(action, resource))])
  {
  }

  /** The decision on each action, one simulation after another. */
  method SimulateEach(m: Matcher, ps: seq<Policy>, actions: seq<string>, resource: string)
    returns (decisions: seq<Decision>)
    ensures DecidedEach(m, ps, actions, resource, decisions)
  {
    decisions := [];
    for k := 0 to |actions|
      invariant DecidedEach(m, ps, actions[..k], resource, decisions)
    {
      var decision, matched, steps := Simulate(m, ps, Query(actions[k], resource));
      DecidedNext(m, ps, actions[..k], resource, decisions, actions[k]);
      assert actions[..k + 1] == actions[..k] + [actions[k]];
      decisions := decisions + [decision];
    }
    assert actions[..|actions|] == actions;
  }

  /** Several actions: denied if any is explicitly denied, allowed only if all are. */
  method SimulateAll(m: Matcher, ps: seq<Policy>, actions: seq<string>, resource: string)
    returns (overall: Decision, decisions: seq<Decision>)
    ensures |decisions| == |actions|
    ensures forall i :: 0 <= i < |actions| ==> decisions[i] == Decided(m, ps, Query(actions[i], resource))
    ensures overall == ExplicitDeny <==> ExplicitDeny in decisions
    ensures overall == Allow <==> ExplicitDeny !in decisions && ImplicitDeny !in decisions
  {
    decisions := SimulateEach(m, ps, actions, resource);
    overall :=
      if exists i :: 0 <= i < |decisions| && decisions[i] == ExplicitDeny then ExplicitDeny
      else if forall i :: 0 <= i < |decisions| ==> decisions[i] == Allow then Allow
      else ImplicitDeny;
  }
}

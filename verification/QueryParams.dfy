/** Indexed query parameters, "Prefix.member.1", "Prefix.member.2", ...
    (kumostack/services/alb.py, the `.member.N` parsers). */
module QueryParams {
  import opened Prelude
  import opened Text

  /** A parameter as the request gives it: one text, or the list parse_qs makes. */
  datatype Param = One(text: string) | Values(texts: seq<string>)

  type Params = map<string, Param>

  /** `_p`: first value, or the default for a missing key or an empty list. */
  function P(params: Params, key: string, default: string := ""): string {
    if key !in params then default
    else
      match params[key]
      case One(text) => text
      case Values(texts) => if texts == [] then default else texts[0]
  }

  /** Of a repeated parameter the first value counts, also when it is empty. */
  lemma FirstValueCounts(params: Params, key: string, first: string, more: seq<string>, default: string)
    ensures P(params[key := Values([first] + more)], key, default) == P(params[key := One(first)], key, default) == first
    ensures P(params[key := Values([])], key, default) == P(params - {key}, key, default) == default
  {
  }

  datatype Condition = Condition(field: string, values: seq<string>)

  function MemberKey(prefix: string, i: nat, suffix: string): string {
    prefix + ".member." + (Decimal(i) + suffix)
  }

  function FieldKey(prefix: string, i: nat): string {
    MemberKey(prefix, i, ".Field")
  }

  function ValueKey(prefix: string, i: nat, j: nat): string {
    MemberKey(prefix, i, ".Values.member." + Decimal(j))
  }

  // ---------------------------------------------------------------------
  // Distinct indices give distinct keys
  // ---------------------------------------------------------------------

  lemma TailsEqual(a: string, s: string, t: string)
    requires a + s == a + t
    ensures s == t
  {
    assert s == (a + s)[|a|..] && t == (a + t)[|a|..];
  }

  /** The digits of an index end at the first character of the suffix, a dot. */
  lemma DigitsEnd(i: nat, s: string, j: nat, t: string)
    requires s == "" || s[0] == '.'
    requires t == "" || t[0] == '.'
    requires Decimal(i) + s == Decimal(j) + t
    ensures i == j && s == t
  {
    var a, b := Decimal(i), Decimal(j);
    var whole := a + s;
    assert forall k :: 0 <= k < |a| ==> '0' <= whole[k] <= '9';
    assert forall k :: 0 <= k < |b| ==> '0' <= (b + t)[k] <= '9';
    assert |a| < |whole| ==> whole[|a|] == s[0];
    assert |b| < |whole| ==> (b + t)[|b|] == t[0];
    assert a == whole[..|a|] && b == (b + t)[..|b|];
    DecimalInjective(i, j);
    TailsEqual(a, s, t);
  }

  lemma MemberKeyInjective(prefix: string, i: nat, s: string, j: nat, t: string)
    requires s == "" || s[0] == '.'
    requires t == "" || t[0] == '.'
    ensures MemberKey(prefix, i, s) == MemberKey(prefix, j, t) ==> i == j && s == t
  {
    if MemberKey(prefix, i, s) == MemberKey(prefix, j, t) {
      TailsEqual(prefix + ".member.", Decimal(i) + s, Decimal(j) + t);
      DigitsEnd(i, s, j, t);
    }
  }

  lemma KeysDistinct(prefix: string, i: nat, j: nat, i': nat, j': nat)
    ensures FieldKey(prefix, i) == FieldKey(prefix, i') ==> i == i'
    ensures FieldKey(prefix, i) != ValueKey(prefix, i', j')
    ensures ValueKey(prefix, i, j) == ValueKey(prefix, i', j') ==> i == i' && j == j'
  {
    var s, t := ".Values.member." + Decimal(j), ".Values.member." + Decimal(j');
    assert s[0] == '.' && t[0] == '.' && t[1] == 'V' && ".Field"[0] == '.' && ".Field"[1] == 'F';
    MemberKeyInjective(prefix, i, ".Field", i', ".Field");
    MemberKeyInjective(prefix, i, ".Field", i', t);
    MemberKeyInjective(prefix, i, s, i', t);
    if s == t {
      TailsEqual(".Values.member.", Decimal(j), Decimal(j'));
      DecimalInjective(j, j');
    }
  }

  /** A gap-free run of n present members needs n parameters. */
  lemma {:induction false} RunIsBounded(params: Params, prefix: string, suffix: string, n: nat, found: set<string>)
    requires suffix == "" || suffix[0] == '.'
    requires found == set k | 1 <= k <= n :: MemberKey(prefix, k, suffix)
    requires found <= params.Keys
    ensures |found| == n && n <= |params|
  {
    if n > 0 {
      var last := MemberKey(prefix, n, suffix);
      var rest := set k | 1 <= k <= n - 1 :: MemberKey(prefix, k, suffix);
      forall k | 1 <= k <= n - 1
        ensures MemberKey(prefix, k, suffix) != last
      {
        MemberKeyInjective(prefix, k, suffix, n, suffix);
      }
      assert found == rest + {last} && last !in rest;
      RunIsBounded(params, prefix, suffix, n - 1, rest);
    }
    CardinalityAtMost(found, params.Keys);
    assert |params.Keys| == |params|;
  }

  lemma {:induction false} CardinalityAtMost(a: set<string>, b: set<string>)
    requires a <= b
    ensures |a| <= |b|
    decreases a
  {
    if a != {} {
      var x :| x in a;
      CardinalityAtMost(a - {x}, b - {x});
    }
  }

  // ---------------------------------------------------------------------
  // The parsing loops
  // ---------------------------------------------------------------------

  /** `items` is the longest gap-free run of non-empty members from 1. */
  ghost predicate IsMemberRun(params: Params, prefix: string, suffix: string, items: seq<string>) {
    (forall k :: 0 <= k < |items| ==> items[k] != "" && items[k] == P(params, MemberKey(prefix, k + 1, suffix))) &&
    P(params, MemberKey(prefix, |items| + 1, suffix)) == ""
  }

  method ParseMembers(params: Params, prefix: string, suffix: string) returns (items: seq<string>)
    requires suffix == "" || suffix[0] == '.'
    ensures IsMemberRun(params, prefix, suffix, items)
  {
    items := [];
    var i := 1;
    while true
      invariant i == |items| + 1
      invariant forall k :: 0 <= k < |items| ==>
                  items[k] != "" && items[k] == P(params, MemberKey(prefix, k + 1, suffix))
      invariant i - 1 <= |params|
      decreases |params| + 1 - i
    {
      var v := P(params, MemberKey(prefix, i, suffix));
      if v == "" {
        return;
      }
      items := items + [v];
      RunFits(params, prefix, suffix, items);
      i := i + 1;
    }
  }

  lemma RunFits(params: Params, prefix: string, suffix: string, items: seq<string>)
    requires suffix == "" || suffix[0] == '.'
    requires forall k :: 0 <= k < |items| ==> items[k] != "" && items[k] == P(params, MemberKey(prefix, k + 1, suffix))
    ensures |items| <= |params|
  {
    var found := set k | 1 <= k <= |items| :: MemberKey(prefix, k, suffix);
    forall key | key in found
      ensures key in params
    {
      var k :| 1 <= k <= |items| && key == MemberKey(prefix, k, suffix);
      assert items[k - 1] != "";
    }
    RunIsBounded(params, prefix, suffix, |items|, found);
  }

  method ParseMemberList(params: Params, prefix: string) returns (items: seq<string>)
    ensures IsMemberRun(params, prefix, "", items)
  {
    items := ParseMembers(params, prefix, "");
  }

  function Fields(cs: seq<Condition>): (fs: seq<string>)
    ensures |fs| == |cs| && forall i :: 0 <= i < |cs| ==> fs[i] == cs[i].field
  {
    seq(|cs|, i requires 0 <= i < |cs| => cs[i].field)
  }

  /** Each condition's field is a member of the run of fields, its values a run of their own. */
  ghost predicate IsConditionRun(params: Params, prefix: string, cs: seq<Condition>) {
    IsMemberRun(params, prefix, ".Field", Fields(cs)) &&
    forall i :: 0 <= i < |cs| ==> IsMemberRun(params, MemberKey(prefix, i + 1, ".Values"), "", cs[i].values)
  }

  method ParseConditions(params: Params, prefix: string) returns (cs: seq<Condition>)
    ensures IsConditionRun(params, prefix, cs)
  {
    cs := [];
    var i := 1;
    while true
      invariant i == |cs| + 1
      invariant forall k :: 0 <= k < |cs| ==> cs[k].field != "" && cs[k].field == P(params, FieldKey(prefix, k + 1))
      invariant forall k :: 0 <= k < |cs| ==> IsMemberRun(params, MemberKey(prefix, k + 1, ".Values"), "", cs[k].values)
      invariant i - 1 <= |params|
      decreases |params| + 1 - i
    {
      var field := P(params, FieldKey(prefix, i));
      if field == "" {
        return;
      }
      var values := ParseMembers(params, MemberKey(prefix, i, ".Values"), "");
      cs := cs + [Condition(field, values)];
      RunFits(params, prefix, ".Field", Fields(cs));
      i := i + 1;
    }
  }

  // ---------------------------------------------------------------------
  // Encoding conditions and parsing them back
  // ---------------------------------------------------------------------

  function EncodeValues(prefix: string, i: nat, values: seq<string>, n: nat): Params
    requires n <= |values|
  {
    if n == 0 then map[] else EncodeValues(prefix, i, values, n - 1)[ValueKey(prefix, i, n) := One(values[n - 1])]
  }

  /** The first n conditions as request parameters. */
  function Encode(prefix: string, cs: seq<Condition>, n: nat): Params
    requires n <= |cs|
  {
    if n == 0 then map[]
    else
      Encode(prefix, cs, n - 1) + EncodeValues(prefix, n, cs[n - 1].values, |cs[n - 1].values|) +
      map[FieldKey(prefix, n) := One(cs[n - 1].field)]
  }

  lemma {:induction false} EncodedValues(prefix: string, i: nat, values: seq<string>, n: nat, i': nat, j: nat)
    requires n <= |values|
    ensures FieldKey(prefix, i') !in EncodeValues(prefix, i, values, n)
    ensures ValueKey(prefix, i', j) in EncodeValues(prefix, i, values, n) <==> i' == i && 1 <= j <= n
    ensures i' == i && 1 <= j <= n ==>
              EncodeValues(prefix, i, values, n)[ValueKey(prefix, i', j)] == One(values[j - 1])
  {
    if n > 0 {
      EncodedValues(prefix, i, values, n - 1, i', j);
      KeysDistinct(prefix, i', j, i, n);
    }
  }

  lemma {:induction false} EncodedConditions(prefix: string, cs: seq<Condition>, n: nat, i: nat, j: nat)
    requires n <= |cs|
    ensures FieldKey(prefix, i) in Encode(prefix, cs, n) <==> 1 <= i <= n
    ensures 1 <= i <= n ==> Encode(prefix, cs, n)[FieldKey(prefix, i)] == One(cs[i - 1].field)
    ensures ValueKey(prefix, i, j) in Encode(prefix, cs, n) <==> 1 <= i <= n && 1 <= j <= |cs[i - 1].values|
    ensures 1 <= i <= n && 1 <= j <= |cs[i - 1].values| ==>
              Encode(prefix, cs, n)[ValueKey(prefix, i, j)] == One(cs[i - 1].values[j - 1])
  {
    if n > 0 {
      EncodedConditions(prefix, cs, n - 1, i, j);
      EncodedValues(prefix, n, cs[n - 1].values, |cs[n - 1].values|, i, j);
      KeysDistinct(prefix, i, j, n, 0);
      KeysDistinct(prefix, n, 0, i, j);
    }
  }

  lemma ValueKeyNests(prefix: string, i: nat, j: nat)
    ensures MemberKey(MemberKey(prefix, i, ".Values"), j, "") == ValueKey(prefix, i, j)
  {
    var a, d := prefix + ".member.", Decimal(i);
    assert Decimal(j) + "" == Decimal(j);
    assert a + (d + ".Values") + ".member." + Decimal(j) == a + (d + (".Values" + ".member." + Decimal(j)));
    assert ".Values" + ".member." == ".Values.member.";
  }

  /** Two runs over the same parameters are the same run. */
  lemma MemberRunUnique(params: Params, prefix: string, suffix: string, a: seq<string>, b: seq<string>)
    requires IsMemberRun(params, prefix, suffix, a) && IsMemberRun(params, prefix, suffix, b)
    ensures a == b
  {
    MemberAt(params, prefix, suffix, a, |b|);
    MemberAt(params, prefix, suffix, b, |a|);
  }

  lemma MemberAt(params: Params, prefix: string, suffix: string, items: seq<string>, k: nat)
    requires IsMemberRun(params, prefix, suffix, items)
    ensures k < |items| ==> items[k] != "" && items[k] == P(params, MemberKey(prefix, k + 1, suffix))
  {
  }

  /** Parsing recovers any list of conditions with non-empty fields and values. */
  lemma ParseEncoded(prefix: string, cs: seq<Condition>, parsed: seq<Condition>)
    requires forall i :: 0 <= i < |cs| ==>
               cs[i].field != "" && forall j :: 0 <= j < |cs[i].values| ==> cs[i].values[j] != ""
    requires IsConditionRun(Encode(prefix, cs, |cs|), prefix, parsed)
    ensures parsed == cs
  {
    var params := Encode(prefix, cs, |cs|);
    forall i | 0 <= i <= |cs|
      ensures P(params, FieldKey(prefix, i + 1)) == if i < |cs| then cs[i].field else ""
    {
      EncodedConditions(prefix, cs, |cs|, i + 1, 0);
    }
    EncodedConditions(prefix, cs, |cs|, |cs| + 1, 0);
    assert P(params, FieldKey(prefix, |cs| + 1)) == "";
    assert IsMemberRun(params, prefix, ".Field", Fields(cs));
    MemberRunUnique(params, prefix, ".Field", Fields(cs), Fields(parsed));
    forall i | 0 <= i < |cs|
      ensures parsed[i] == cs[i]
    {
      assert Fields(parsed)[i] == Fields(cs)[i];
      ValuesRun(prefix, cs, i);
      MemberRunUnique(params, MemberKey(prefix, i + 1, ".Values"), "", cs[i].values, parsed[i].values);
    }
    assert |parsed| == |Fields(parsed)| == |cs|;
  }

  lemma ValuesRun(prefix: string, cs: seq<Condition>, i: nat)
    requires i < |cs| && forall j :: 0 <= j < |cs[i].values| ==> cs[i].values[j] != ""
    ensures IsMemberRun(Encode(prefix, cs, |cs|), MemberKey(prefix, i + 1, ".Values"), "", cs[i].values)
  {
    var params, values := Encode(prefix, cs, |cs|), cs[i].values;
    forall j | 0 <= j <= |values|
      ensures P(params, MemberKey(MemberKey(prefix, i + 1, ".Values"), j + 1, "")) == if j < |values| then values[j] else ""
    {
      ValueKeyNests(prefix, i + 1, j + 1);
      EncodedConditions(prefix, cs, |cs|, i + 1, j + 1);
    }
    ValueKeyNests(prefix, i + 1, |values| + 1);
    EncodedConditions(prefix, cs, |cs|, i + 1, |values| + 1);
    assert P(params, ValueKey(prefix, i + 1, |values| + 1)) == "";
  }
}

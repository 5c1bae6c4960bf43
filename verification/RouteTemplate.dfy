/** Matching request paths against route templates
    (kumostack/services/apigateway.py, _extract_path_params and _match_route). */
module RouteTemplate {
  import opened Prelude
  import Text

  /** A piece of a template.  `Param` is one non-empty segment without slashes; `Greedy`
      is `{name+}`, which the regular expression `(.+)` lets run over slashes but not over
      newlines. */
  datatype Token = Literal(text: string) | Param(name: string) | Greedy(name: string)

  predicate IsParam(t: Token) {
    !t.Literal?
  }

  /** Characters a parameter may capture. */
  predicate Accepts(t: Token, c: char)
    requires IsParam(t)
  {
    if t.Param? then c != '/' else c != '\n'
  }

  predicate Capturable(t: Token, value: string)
    requires IsParam(t)
  {
    value != "" && forall i :: 0 <= i < |value| ==> Accepts(t, value[i])
  }

  // ---------------------------------------------------------------------
  // Splitting a template into tokens: re.split(r"(\{[^}]+\})", route_path)
  // ---------------------------------------------------------------------

  /** Index of the first '}' at or after `i`, or |s|. */
  function Closing(s: string, i: nat): (k: nat)
    requires i <= |s|
    ensures i <= k <= |s|
    ensures forall j :: i <= j < k ==> s[j] != '}'
    ensures k < |s| ==> s[k] == '}'
    decreases |s| - i
  {
    if i == |s| || s[i] == '}' then i else Closing(s, i + 1)
  }

  /** Whether a parameter group starts at `i`: a brace, one or more characters, a brace. */
  predicate GroupAt(s: string, i: nat)
    requires i < |s|
  {
    s[i] == '{' && i + 1 < Closing(s, i + 1) < |s|
  }

  /** Start of the first parameter group at or after `i`, or |s|. */
  function NextGroup(s: string, i: nat): (k: nat)
    requires i <= |s|
    ensures i <= k <= |s|
    ensures k < |s| ==> GroupAt(s, k)
    ensures forall j :: i <= j < k ==> !GroupAt(s, j)
    decreases |s| - i
  {
    if i == |s| || GroupAt(s, i) then i else NextGroup(s, i + 1)
  }

  /** Text before, group, text after, group, ... as re.split returns them, from `from` on. */
  function SplitFrom(s: string, from: nat): (parts: seq<string>)
    requires from <= |s|
    ensures parts != []
    decreases |s| - from
  {
    var i := NextGroup(s, from);
    if i == |s| then [s[from..]]
    else
      var k := Closing(s, i + 1) + 1;
      [s[from..i], s[i..k]] + SplitFrom(s, k)
  }

  function SplitGroups(s: string): (parts: seq<string>)
    ensures parts != []
  {
    SplitFrom(s, 0)
  }

  /** A part wrapped in braces is a parameter, whether or not the split found it as a
      group: a literal stretch such as "{}" counts too. */
  function Classify(part: string): Token {
    if |part| >= 2 && part[0] == '{' && part[|part| - 1] == '}' then
      var inner := part[1..|part| - 1];
      if inner != "" && inner[|inner| - 1] == '+' then Greedy(inner[..|inner| - 1]) else Param(inner)
    else Literal(part)
  }

  function Tokenize(template: string): (ts: seq<Token>) {
    var parts := SplitGroups(template);
    seq(|parts|, i requires 0 <= i < |parts| => Classify(parts[i]))
  }

  function Source(t: Token): string {
    match t
    case Literal(text) => text
    case Param(name) => "{" + name + "}"
    case Greedy(name) => "{" + name + "+}"
  }

  function Untokenize(ts: seq<Token>): string {
    if ts == [] then "" else Source(ts[0]) + Untokenize(ts[1..])
  }

  function Concat(parts: seq<string>): string {
    if parts == [] then "" else parts[0] + Concat(parts[1..])
  }

  lemma {:induction false} SplitLossless(s: string, from: nat)
    requires from <= |s|
    ensures Concat(SplitFrom(s, from)) == s[from..]
    decreases |s| - from
  {
    var i := NextGroup(s, from);
    if i == |s| {
      assert SplitFrom(s, from)[1..] == [];
    } else {
      var k := Closing(s, i + 1) + 1;
      SplitLossless(s, k);
      ConcatTwoMore(s, from, i, k, SplitFrom(s, k));
    }
  }

  lemma ConcatTwoMore(s: string, from: nat, i: nat, k: nat, rest: seq<string>)
    requires from <= i <= k <= |s| && Concat(rest) == s[k..]
    ensures Concat([s[from..i], s[i..k]] + rest) == s[from..]
  {
    var parts := [s[from..i], s[i..k]] + rest;
    assert parts[1..] == [s[i..k]] + rest && parts[1..][1..] == rest;
    assert s[from..i] + (s[i..k] + s[k..]) == s[from..];
  }

  lemma ClassifyLossless(part: string)
    ensures Source(Classify(part)) == part
  {
    if Classify(part).Param? {
      assert part == "{" + part[1..|part| - 1] + "}";
    } else if Classify(part).Greedy? {
      assert part == "{" + part[1..|part| - 2] + "+}";
      assert part[1..|part| - 1][..|part| - 3] == part[1..|part| - 2];
    }
  }

  lemma {:induction false} SourcesOfParts(ts: seq<Token>, parts: seq<string>)
    requires |ts| == |parts| && forall i :: 0 <= i < |parts| ==> Source(ts[i]) == parts[i]
    ensures Untokenize(ts) == Concat(parts)
  {
    if ts != [] {
      SourcesOfParts(ts[1..], parts[1..]);
    }
  }

  /** The tokens spell out the whole template. */
  lemma TokenizeLossless(template: string)
    ensures Untokenize(Tokenize(template)) == template
  {
    var parts := SplitGroups(template);
    forall i | 0 <= i < |parts|
      ensures Source(Tokenize(template)[i]) == parts[i]
    {
      ClassifyLossless(parts[i]);
    }
    SourcesOfParts(Tokenize(template), parts);
    SplitLossless(template, 0);
    assert template[0..] == template;
  }

  ghost predicate IsGroup(part: string) {
    |part| > 2 && part[0] == '{' && part[|part| - 1] == '}' && '}' !in part[1..|part| - 1]
  }

  ghost predicate GroupFree(part: string) {
    forall i :: 0 <= i < |part| ==> !GroupAt(part, i)
  }

  lemma GroupFreeSlice(s: string, from: nat, to: nat)
    requires from <= to <= |s| && forall j :: from <= j < to ==> !GroupAt(s, j)
    ensures GroupFree(s[from..to])
  {
    var part := s[from..to];
    forall i | 0 <= i < |part|
      ensures !GroupAt(part, i)
    {
      var c, d := Closing(part, i + 1), Closing(s, from + i + 1);
      assert c < |part| ==> part[c] == s[from + c];
      assert forall j :: i < j < c ==> part[j] == s[from + j];
      assert c < |part| ==> d == from + c;
      assert !GroupAt(s, from + i);
    }
  }

  /** Text without any parameter group and single parameter groups take turns, beginning and
      ending with text. */
  ghost predicate Alternates(parts: seq<string>) {
    |parts| > 0 && GroupFree(parts[0]) &&
    (|parts| > 1 ==> |parts| > 2 && IsGroup(parts[1]) && Alternates(parts[2..]))
  }

  lemma {:induction false} SplitAlternates(s: string, from: nat)
    requires from <= |s|
    ensures Alternates(SplitFrom(s, from))
    decreases |s| - from
  {
    var i := NextGroup(s, from);
    PartsAt(s, from);
    if i == |s| {
      assert s[from..] == s[from..i];
    } else {
      var k := Closing(s, i + 1) + 1;
      SplitAlternates(s, k);
      TwoMore(s[from..i], s[i..k], SplitFrom(s, k));
    }
  }

  lemma TwoMore(text: string, group: string, rest: seq<string>)
    requires GroupFree(text) && IsGroup(group) && Alternates(rest)
    ensures Alternates([text, group] + rest)
  {
    assert ([text, group] + rest)[2..] == rest;
  }

  lemma PartsAt(s: string, from: nat)
    requires from <= |s|
    ensures var i := NextGroup(s, from);
            GroupFree(s[from..i]) && (i < |s| ==> IsGroup(s[i..Closing(s, i + 1) + 1]))
  {
    var i := NextGroup(s, from);
    GroupFreeSlice(s, from, i);
  }

  predicate InBraces(part: string) {
    |part| >= 2 && part[0] == '{' && part[|part| - 1] == '}'
  }

  function Tokens(parts: seq<string>): (ts: seq<Token>)
    ensures |ts| == |parts| && forall i :: 0 <= i < |parts| ==> ts[i] == Classify(parts[i])
  {
    seq(|parts|, i requires 0 <= i < |parts| => Classify(parts[i]))
  }

  /** No text between the groups begins and ends with braces. */
  predicate PlainTexts(parts: seq<string>) {
    parts != [] ==> !InBraces(parts[0]) && (|parts| > 1 ==> PlainTexts(parts[2..]))
  }

  lemma {:induction false} GroupsAmongParams(parts: seq<string>)
    requires Alternates(parts)
    ensures |ParamNames(Tokens(parts))| >= |parts| / 2
    ensures |ParamNames(Tokens(parts))| == |parts| / 2 <==> PlainTexts(parts)
  {
    var ts := Tokens(parts);
    if |parts| == 1 {
      assert ts[1..] == [];
    } else {
      GroupsAmongParams(parts[2..]);
      assert ts[1..][1..] == Tokens(parts[2..]);
      assert InBraces(parts[1]);
    }
  }

  /** A template has one parameter for each of its groups exactly if no stretch of text between
      them begins and ends with braces; such a stretch is taken for a parameter too. */
  lemma ParamsAreGroupsExactly(template: string)
    ensures |ParamNames(Tokenize(template))| == |SplitGroups(template)| / 2 <==> PlainTexts(SplitGroups(template))
  {
    SplitAlternates(template, 0);
    GroupsAmongParams(SplitGroups(template));
    assert Tokenize(template) == Tokens(SplitGroups(template));
  }

  /** The template "{}" has no group and one parameter. */
  lemma EmptyBracesAreAParam()
    ensures SplitGroups("{}") == ["{}"] && Tokenize("{}") == [Param("")]
  {
    assert Closing("{}", 1) == 1;
    assert NextGroup("{}", 0) == 2;
    assert "{}"[0..] == "{}" && "{}"[1..1] == "";
  }

  // ---------------------------------------------------------------------
  // Matching: the regular expression's backtracking search
  // ---------------------------------------------------------------------

  /** Length of the longest prefix that `t` accepts. */
  function LongestRun(t: Token, s: string): (k: nat)
    requires IsParam(t)
    ensures k <= |s|
    ensures forall i :: 0 <= i < k ==> Accepts(t, s[i])
    ensures k < |s| ==> !Accepts(t, s[k])
  {
    if s == "" || !Accepts(t, s[0]) then 0
    else
      var k := LongestRun(t, s[1..]);
      assert forall i :: 0 < i <= k ==> s[i] == s[1..][i - 1];
      k + 1
  }

  /** Captured values of a full match, or None. */
  function Match(ts: seq<Token>, s: string): Option<seq<string>>
    decreases |ts|, 0
  {
    if ts == [] then if s == "" then Some([]) else None
    else if ts[0].Literal? then
      if ts[0].text <= s then Match(ts[1..], s[|ts[0].text|..]) else None
    else TryLengths(ts, s, LongestRun(ts[0], s))
  }

  /** Capture `k` characters, then fewer and fewer until the rest matches. */
  function TryLengths(ts: seq<Token>, s: string, k: nat): Option<seq<string>>
    requires ts != [] && k <= |s|
    decreases |ts| - 1, k + 1
  {
    if k == 0 then None
    else
      var rest := Match(ts[1..], s[k..]);
      if rest.Some? then Some([s[..k]] + rest.value) else TryLengths(ts, s, k - 1)
  }

  // ---------------------------------------------------------------------
  // What a match is
  // ---------------------------------------------------------------------

  /** One capturable value for each parameter, in template order. */
  ghost predicate Fits(ts: seq<Token>, vs: seq<string>) {
    if ts == [] then vs == []
    else if ts[0].Literal? then Fits(ts[1..], vs)
    else vs != [] && Capturable(ts[0], vs[0]) && Fits(ts[1..], vs[1..])
  }

  /** The path a template denotes when its parameters have these values. */
  function Rebuild(ts: seq<Token>, vs: seq<string>): string
    requires Fits(ts, vs)
  {
    if ts == [] then ""
    else if ts[0].Literal? then ts[0].text + Rebuild(ts[1..], vs)
    else vs[0] + Rebuild(ts[1..], vs[1..])
  }

  /** `vs` is `us`, or takes more characters at the first capture where they differ. */
  ghost predicate LeftmostLongest(vs: seq<string>, us: seq<string>) {
    vs == us ||
    exists i :: 0 <= i < |vs| && i < |us| && vs[..i] == us[..i] && |vs[i]| > |us[i]|
  }

  lemma {:induction false} MatchSound(ts: seq<Token>, s: string)
    requires Match(ts, s).Some?
    ensures Fits(ts, Match(ts, s).value) && Rebuild(ts, Match(ts, s).value) == s
    decreases |ts|, 0
  {
    if ts != [] {
      if ts[0].Literal? {
        MatchSound(ts[1..], s[|ts[0].text|..]);
        assert s == ts[0].text + s[|ts[0].text|..];
      } else {
        TryLengthsSound(ts, s, LongestRun(ts[0], s));
      }
    }
  }

  lemma {:induction false} TryLengthsSound(ts: seq<Token>, s: string, k: nat)
    requires ts != [] && IsParam(ts[0]) && k <= LongestRun(ts[0], s) && TryLengths(ts, s, k).Some?
    ensures Fits(ts, TryLengths(ts, s, k).value) && Rebuild(ts, TryLengths(ts, s, k).value) == s
    decreases |ts| - 1, k + 1
  {
    var rest := Match(ts[1..], s[k..]);
    if rest.Some? {
      MatchSound(ts[1..], s[k..]);
      var vs := [s[..k]] + rest.value;
      assert vs[1..] == rest.value && Capturable(ts[0], vs[0]);
      assert s == s[..k] + s[k..];
    } else {
      TryLengthsSound(ts, s, k - 1);
    }
  }

  /** Whenever some values rebuild the path a match is found, and it is the leftmost-longest
      of all of them. */
  lemma {:induction false} MatchCompleteGreedy(ts: seq<Token>, s: string, us: seq<string>)
    requires Fits(ts, us) && Rebuild(ts, us) == s
    ensures Match(ts, s).Some? && LeftmostLongest(Match(ts, s).value, us)
    decreases |ts|, 0
  {
    if ts != [] {
      if ts[0].Literal? {
        var rest := Rebuild(ts[1..], us);
        assert s[|ts[0].text|..] == rest;
        MatchCompleteGreedy(ts[1..], rest, us);
      } else {
        TryLengthsGreedy(ts, s, LongestRun(ts[0], s), us);
      }
    }
  }

  lemma {:induction false} TryLengthsGreedy(ts: seq<Token>, s: string, k: nat, us: seq<string>)
    requires ts != [] && IsParam(ts[0]) && Fits(ts, us) && Rebuild(ts, us) == s
    requires |us[0]| <= k <= |s|
    ensures TryLengths(ts, s, k).Some? && LeftmostLongest(TryLengths(ts, s, k).value, us)
    decreases |ts| - 1, k + 1
  {
    var tail := Rebuild(ts[1..], us[1..]);
    assert s == us[0] + tail;
    var rest := Match(ts[1..], s[k..]);
    if k == |us[0]| {
      assert s[k..] == tail && s[..k] == us[0];
      MatchCompleteGreedy(ts[1..], tail, us[1..]);
      FirstThenRest(us[0], rest.value, us[1..]);
      assert us == [us[0]] + us[1..];
    } else if rest.Some? {
      var vs := [s[..k]] + rest.value;
      assert vs[..0] == us[..0] && |vs[0]| > |us[0]|;
    } else {
      TryLengthsGreedy(ts, s, k - 1, us);
    }
  }

  lemma FirstThenRest(first: string, vs: seq<string>, us: seq<string>)
    requires LeftmostLongest(vs, us)
    ensures LeftmostLongest([first] + vs, [first] + us)
  {
    if vs != us {
      var i :| 0 <= i < |vs| && i < |us| && vs[..i] == us[..i] && |vs[i]| > |us[i]|;
      var vs', us' := [first] + vs, [first] + us;
      assert vs'[..i + 1] == [first] + vs[..i] && us'[..i + 1] == [first] + us[..i];
      assert |vs'[i + 1]| > |us'[i + 1]|;
    }
  }

  // ---------------------------------------------------------------------
  // Parameter dictionaries
  // ---------------------------------------------------------------------

  function ParamNames(ts: seq<Token>): seq<string> {
    if ts == [] then []
    else if ts[0].Literal? then ParamNames(ts[1..])
    else [ts[0].name] + ParamNames(ts[1..])
  }

  function Zip(names: seq<string>, vs: seq<string>): seq<(string, string)>
    requires |names| == |vs|
  {
    seq(|names|, i requires 0 <= i < |names| => (names[i], vs[i]))
  }

  lemma {:induction false} OneValuePerName(ts: seq<Token>, vs: seq<string>)
    requires Fits(ts, vs)
    ensures |vs| == |ParamNames(ts)|
  {
    if ts != [] {
      if ts[0].Literal? {
        OneValuePerName(ts[1..], vs);
      } else {
        OneValuePerName(ts[1..], vs[1..]);
      }
    }
  }

  /** `_extract_path_params`: for a repeated name the last capture wins. */
  function ExtractPathParams(template: string, path: string): Option<Entries<string, string>> {
    var ts := Tokenize(template);
    var m := Match(ts, path);
    if m.None? then None
    else
      MatchSound(ts, path);
      OneValuePerName(ts, m.value);
      Some(PutAll([], Zip(ParamNames(ts), m.value)))
  }

  /** The template with each parameter replaced by the value the dictionary gives its name. */
  function Substitute(ts: seq<Token>, d: Entries<string, string>): string {
    if ts == [] then ""
    else if ts[0].Literal? then ts[0].text + Substitute(ts[1..], d)
    else GetOr(Get(d, ts[0].name), "") + Substitute(ts[1..], d)
  }

  ghost predicate Distinct(names: seq<string>) {
    forall i, j :: 0 <= i < j < |names| ==> names[i] != names[j]
  }

  lemma {:induction false} SubstituteRebuilds(ts: seq<Token>, vs: seq<string>, d: Entries<string, string>)
    requires Fits(ts, vs) && |vs| == |ParamNames(ts)|
    requires forall i :: 0 <= i < |vs| ==> Get(d, ParamNames(ts)[i]) == Some(vs[i])
    ensures Substitute(ts, d) == Rebuild(ts, vs)
  {
    if ts != [] {
      if ts[0].Literal? {
        SubstituteRebuilds(ts[1..], vs, d);
      } else {
        var names := ParamNames(ts);
        assert names[1..] == ParamNames(ts[1..]) && names[0] == ts[0].name;
        forall i | 0 <= i < |vs[1..]|
          ensures Get(d, names[1..][i]) == Some(vs[1..][i])
        {
          assert Get(d, names[i + 1]) == Some(vs[i + 1]);
        }
        SubstituteRebuilds(ts[1..], vs[1..], d);
      }
    }
  }

  /** A path matches a template exactly when some values of its parameters rebuild the path. */
  lemma MatchesExactly(template: string, path: string)
    ensures ExtractPathParams(template, path).Some? <==>
            exists vs :: Fits(Tokenize(template), vs) && Rebuild(Tokenize(template), vs) == path
  {
    var ts := Tokenize(template);
    if ExtractPathParams(template, path).Some? {
      MatchSound(ts, path);
      var vs := Match(ts, path).value;
      assert Fits(ts, vs) && Rebuild(ts, vs) == path;
    }
    if exists vs :: Fits(ts, vs) && Rebuild(ts, vs) == path {
      var vs :| Fits(ts, vs) && Rebuild(ts, vs) == path;
      MatchCompleteGreedy(ts, path, vs);
    }
  }

  /** Putting the extracted values back into the template gives the request path. */
  lemma ExtractThenSubstitute(template: string, path: string)
    requires Distinct(ParamNames(Tokenize(template)))
    requires ExtractPathParams(template, path).Some?
    ensures Substitute(Tokenize(template), ExtractPathParams(template, path).value) == path
  {
    var ts := Tokenize(template);
    var names, vs := ParamNames(ts), Match(ts, path).value;
    MatchSound(ts, path);
    OneValuePerName(ts, vs);
    var pairs := Zip(names, vs);
    PutAllNew<string, string>([], pairs);
    assert [] + pairs == pairs;
    forall i | 0 <= i < |vs|
      ensures Get(pairs, names[i]) == Some(vs[i])
    {
      GetAt(pairs, i);
    }
    SubstituteRebuilds(ts, vs, pairs);
  }

  // ---------------------------------------------------------------------
  // Repeated names
  // ---------------------------------------------------------------------

  /** Every capture is one character. */
  ghost predicate Singles(vs: seq<string>) {
    forall i :: 0 <= i < |vs| ==> |vs[i]| == 1
  }

  function LiteralLength(ts: seq<Token>): nat {
    if ts == [] then 0
    else (if ts[0].Literal? then |ts[0].text| else 0) + LiteralLength(ts[1..])
  }

  lemma {:induction false} RebuildLength(ts: seq<Token>, vs: seq<string>)
    requires Fits(ts, vs)
    ensures |Rebuild(ts, vs)| >= LiteralLength(ts) + |vs|
    ensures Singles(vs) ==> |Rebuild(ts, vs)| == LiteralLength(ts) + |vs|
  {
    if ts != [] {
      if ts[0].Literal? {
        RebuildLength(ts[1..], vs);
      } else {
        RebuildLength(ts[1..], vs[1..]);
      }
    }
  }

  /** A path rebuilt from single characters is rebuilt from no other captures. */
  lemma {:induction false} SinglesUnique(ts: seq<Token>, us: seq<string>, vs: seq<string>)
    requires Fits(ts, us) && Fits(ts, vs) && Singles(us) && Rebuild(ts, us) == Rebuild(ts, vs)
    ensures us == vs
  {
    if ts != [] {
      if ts[0].Literal? {
        var text := ts[0].text;
        SameTail(text, Rebuild(ts[1..], us), text, Rebuild(ts[1..], vs));
        SinglesUnique(ts[1..], us, vs);
      } else {
        OneValuePerName(ts, us);
        OneValuePerName(ts, vs);
        RebuildLength(ts[1..], us[1..]);
        RebuildLength(ts[1..], vs[1..]);
        SameTail(us[0], Rebuild(ts[1..], us[1..]), vs[0], Rebuild(ts[1..], vs[1..]));
        SinglesUnique(ts[1..], us[1..], vs[1..]);
        assert us == [us[0]] + us[1..] && vs == [vs[0]] + vs[1..];
      }
    }
  }

  lemma SameTail(a: string, s: string, b: string, t: string)
    requires a + s == b + t && |a| == |b|
    ensures a == b && s == t
  {
    assert a == (a + s)[..|a|] && b == (b + t)[..|b|];
    assert s == (a + s)[|a|..] && t == (b + t)[|b|..];
  }

  /** 'y' for the parameter at `i`, 'x' for all others. */
  function Marked(n: nat, i: nat): (vs: seq<string>)
    ensures |vs| == n && forall k :: 0 <= k < n ==> vs[k] == if k == i then "y" else "x"
  {
    seq(n, k => if k == i then "y" else "x")
  }

  lemma {:induction false} LettersFit(ts: seq<Token>, vs: seq<string>)
    requires |vs| == |ParamNames(ts)| && forall k :: 0 <= k < |vs| ==> vs[k] == "x" || vs[k] == "y"
    ensures Fits(ts, vs)
  {
    if ts != [] {
      if ts[0].Literal? {
        LettersFit(ts[1..], vs);
      } else {
        assert vs[0] == "x" || vs[0] == "y";
        LettersFit(ts[1..], vs[1..]);
      }
    }
  }

  /** Later entries win. */
  lemma {:induction false} PutAllGet(d: Entries<string, string>, es: seq<(string, string)>, k: nat) returns (last: nat)
    requires k < |es|
    ensures k <= last < |es| && es[last].0 == es[k].0
    ensures Get(PutAll(d, es), es[k].0) == Some(es[last].1)
    decreases |es|
  {
    var m := |es| - 1;
    assert es == es[..m] + [(es[m].0, es[m].1)];
    PutAllAppend(d, es[..m], es[m].0, es[m].1);
    PutGet(PutAll(d, es[..m]), es[m].0, es[m].1, es[k].0);
    if es[m].0 == es[k].0 {
      last := m;
    } else {
      last := PutAllGet(d, es[..m], k);
    }
  }

  /** What substitution puts in place of parameter `k`. */
  function Looked(d: Entries<string, string>, names: seq<string>): (vs: seq<string>)
    ensures |vs| == |names| && forall k :: 0 <= k < |names| ==> vs[k] == GetOr(Get(d, names[k]), "")
  {
    seq(|names|, k requires 0 <= k < |names| => GetOr(Get(d, names[k]), ""))
  }

  /** Where two parameters share a name, the path with 'y' for the first and 'x' for every
      other parameter matches, and substitution gives another path. */
  lemma RepeatedNameBreaks(template: string, i: nat, j: nat) returns (path: string)
    requires i < j < |ParamNames(Tokenize(template))|
    requires ParamNames(Tokenize(template))[i] == ParamNames(Tokenize(template))[j]
    ensures ExtractPathParams(template, path).Some?
    ensures Substitute(Tokenize(template), ExtractPathParams(template, path).value) != path
  {
    var ts := Tokenize(template);
    var names := ParamNames(ts);
    var us := Marked(|names|, i);
    LettersFit(ts, us);
    path := Rebuild(ts, us);
    MatchCompleteGreedy(ts, path, us);
    MatchSound(ts, path);
    SinglesUnique(ts, us, Match(ts, path).value);
    var d, pairs := PutAll([], Zip(names, us)), Zip(names, us);
    var ws := Looked(d, names);
    forall k | 0 <= k < |names|
      ensures Get(d, names[k]) == Some(ws[k]) && (ws[k] == "x" || ws[k] == "y") && (k == i ==> ws[k] == "x")
    {
      var last := PutAllGet([], pairs, if k == i then j else k);
      assert pairs[last] == (names[last], us[last]);
    }
    LettersFit(ts, ws);
    SubstituteRebuilds(ts, ws, d);
    assert us[i] != ws[i];
    if Rebuild(ts, ws) == path {
      SinglesUnique(ts, us, ws);
    }
  }

  /** Substitution undoes extraction on every path that matches exactly when the template
      repeats no name. */
  lemma SubstitutionExact(template: string)
    ensures (forall path :: ExtractPathParams(template, path).Some? ==>
               Substitute(Tokenize(template), ExtractPathParams(template, path).value) == path) <==>
            Distinct(ParamNames(Tokenize(template)))
  {
    var names := ParamNames(Tokenize(template));
    if Distinct(names) {
      forall path | ExtractPathParams(template, path).Some?
        ensures Substitute(Tokenize(template), ExtractPathParams(template, path).value) == path
      {
        ExtractThenSubstitute(template, path);
      }
    } else {
      var i, j :| 0 <= i < j < |names| && names[i] == names[j];
      var path := RepeatedNameBreaks(template, i, j);
    }
  }

  lemma TokensOfRepeated()
    ensures Tokenize("{a}/{a}") ==
            [Literal("")] + ([Param("a")] + ([Literal("/")] + ([Param("a")] + [Literal("")])))
  {
    var s := "{a}/{a}";
    assert Closing(s, 1) == 2 && Closing(s, 5) == 6;
    assert NextGroup(s, 0) == 0 && NextGroup(s, 3) == 4 && NextGroup(s, 7) == 7;
    assert s[7..] == "" && s[4..7] == "{a}" && s[3..4] == "/" && s[0..3] == "{a}" && s[0..0] == "";
    assert SplitFrom(s, 7) == [""];
    assert SplitFrom(s, 3) == ["/", "{a}"] + [""];
    assert SplitGroups(s) == ["", "{a}", "/", "{a}", ""];
    assert "{a}"[1..2] == "a";
    assert Classify("{a}") == Param("a");
  }

  /** Names, captures, path and substituted path of a token list. */
  ghost predicate Reads(ts: seq<Token>, names: seq<string>, vs: seq<string>, path: string,
                        d: Entries<string, string>, substituted: string)
  {
    ParamNames(ts) == names && Fits(ts, vs) && Rebuild(ts, vs) == path && Substitute(ts, d) == substituted
  }

  lemma ReadsLiteral(text: string, ts: seq<Token>, names: seq<string>, vs: seq<string>, path: string,
                     d: Entries<string, string>, substituted: string)
    requires Reads(ts, names, vs, path, d, substituted)
    ensures Reads([Literal(text)] + ts, names, vs, text + path, d, text + substituted)
  {
    assert ([Literal(text)] + ts)[1..] == ts;
  }

  lemma RepeatedTail(d: Entries<string, string>)
    requires Get(d, "a") == Some("y")
    ensures Reads([Literal("/")] + ([Param("a")] + [Literal("")]), ["a"], ["y"], "/y", d, "/y")
  {
    ReadsLiteral("", [], [], [], "", d, "");
    assert [Literal("")] + [] == [Literal("")];
    assert ["a"] + [] == ["a"] && ["y"] + [] == ["y"] && "y" + "" == "y";
    ReadsLiteral("/", [Param("a")] + [Literal("")], ["a"], ["y"], "y", d, "y");
  }

  lemma RepeatedParts()
    ensures Reads(Tokenize("{a}/{a}"), ["a", "a"], ["x", "y"], "x/y", [("a", "y")], "y/y")
  {
    var d := [("a", "y")];
    var tail := [Literal("/")] + ([Param("a")] + [Literal("")]);
    RepeatedTail(d);
    ReadsLiteral("", [Param("a")] + tail, ["a", "a"], ["x", "y"], "x/y", d, "y/y");
    TokensOfRepeated();
  }

  /** With a repeated name the first capture is forgotten, and the path with it. */
  lemma RepeatedNameForgets()
    ensures ExtractPathParams("{a}/{a}", "x/y") == Some([("a", "y")])
    ensures Substitute(Tokenize("{a}/{a}"), [("a", "y")]) == "y/y"
  {
    RepeatedParts();
    var ts, us := Tokenize("{a}/{a}"), ["x", "y"];
    MatchCompleteGreedy(ts, "x/y", us);
    MatchSound(ts, "x/y");
    SinglesUnique(ts, us, Match(ts, "x/y").value);
    var pairs := Zip(["a", "a"], us);
    assert pairs[1..] == [("a", "y")] && pairs[1..][1..] == [];
    assert PutAll([], pairs) == [("a", "y")];
  }

  // ---------------------------------------------------------------------
  // What parameters match, character by character
  // ---------------------------------------------------------------------

  function Params(ts: seq<Token>): seq<Token> {
    if ts == [] then [] else (if ts[0].Literal? then [] else [ts[0]]) + Params(ts[1..])
  }

  lemma {:induction false} FittingCharacters(ts: seq<Token>, vs: seq<string>)
    requires Fits(ts, vs)
    ensures |vs| == |Params(ts)|
    ensures forall k :: 0 <= k < |vs| ==>
              vs[k] != "" && !Params(ts)[k].Literal? &&
              (Params(ts)[k].Param? ==> '/' !in vs[k]) && (Params(ts)[k].Greedy? ==> '\n' !in vs[k])
  {
    if ts != [] {
      if ts[0].Literal? {
        FittingCharacters(ts[1..], vs);
      } else {
        FittingCharacters(ts[1..], vs[1..]);
        forall k | 0 < k < |vs|
          ensures vs[k] == vs[1..][k - 1] && Params(ts)[k] == Params(ts[1..])[k - 1]
        {
        }
      }
    }
  }

  /** What `{p}` captures is not empty and has no slash; what `{p+}` captures is not empty and
      has no newline. */
  lemma CapturedCharacters(ts: seq<Token>, s: string)
    requires Match(ts, s).Some?
    ensures |Match(ts, s).value| == |Params(ts)|
    ensures forall k :: 0 <= k < |Params(ts)| ==>
              Match(ts, s).value[k] != "" &&
              (Params(ts)[k].Param? ==> '/' !in Match(ts, s).value[k]) &&
              (Params(ts)[k].Greedy? ==> '\n' !in Match(ts, s).value[k])
  {
    MatchSound(ts, s);
    FittingCharacters(ts, Match(ts, s).value);
  }

  lemma FirstGroup(s: string, i: nat, k: nat, end: nat)
    requires i <= k < |s| && s[k] == '{' && k + 1 < end < |s| && s[end] == '}'
    requires (forall j :: i <= j < k ==> s[j] != '{') && forall j :: k < j < end ==> s[j] != '}'
    ensures NextGroup(s, i) == k && Closing(s, k + 1) == end
  {
    assert Closing(s, k + 1) == end;
    assert GroupAt(s, k);
  }

  lemma NoGroup(s: string, i: nat)
    requires i <= |s| && forall j :: i <= j < |s| ==> s[j] != '{'
    ensures SplitFrom(s, i) == [s[i..]]
  {
  }

  lemma Laid(a: string, group: string, b: string)
    ensures var t := a + group + b; var k := |a| + |group|;
            t[..|a|] == a && t[|a|..k] == group && t[k..] == b
  {
  }

  lemma GroupInside(t: string, i: nat, k: nat)
    requires i <= k <= |t| && '{' !in t[..i] && '{' !in t[k..] && IsGroup(t[i..k])
    ensures NextGroup(t, 0) == i && Closing(t, i + 1) + 1 == k
  {
    var group := t[i..k];
    assert forall j :: 0 <= j < i ==> t[j] == t[..i][j];
    assert forall j :: i < j < k - 1 ==> t[j] == group[1..|group| - 1][j - i - 1];
    assert t[i] == group[0] && t[k - 1] == group[|group| - 1];
    FirstGroup(t, 0, i, k - 1);
  }

  lemma SplitOneGroup(t: string, i: nat, k: nat)
    requires i <= k <= |t| && '{' !in t[..i] && '{' !in t[k..] && IsGroup(t[i..k])
    ensures SplitGroups(t) == [t[..i], t[i..k], t[k..]]
  {
    GroupInside(t, i, k);
    assert forall j :: k <= j < |t| ==> t[j] == t[k..][j - k];
    NoGroup(t, k);
    assert t[0..i] == t[..i];
    assert SplitFrom(t, 0) == [t[0..i], t[i..k]] + SplitFrom(t, k);
  }

  /** A group in text without opening braces is found, and read as its spelling says. */
  lemma OneGroup(a: string, inner: string, b: string)
    requires '{' !in a && '{' !in b && inner != "" && '}' !in inner
    ensures Tokenize(a + "{" + inner + "}" + b) == [Literal(a), Classify("{" + inner + "}"), Literal(b)]
  {
    var group := "{" + inner + "}";
    var t := a + group + b;
    assert a + "{" + inner + "}" + b == t && group[1..|group| - 1] == inner;
    Laid(a, group, b);
    SplitOneGroup(t, |a|, |a| + |group|);
    ThreeTokens(t, a, group, b);
  }

  lemma ThreeTokens(t: string, a: string, group: string, b: string)
    requires SplitGroups(t) == [a, group, b] && '{' !in a && '{' !in b
    ensures Tokenize(t) == [Literal(a), Classify(group), Literal(b)]
  {
    assert Classify(a) == Literal(a) && Classify(b) == Literal(b);
  }

  lemma GroupKinds(name: string)
    ensures name != "" && name[|name| - 1] != '+' ==> Classify("{" + name + "}") == Param(name)
    ensures Classify("{" + (name + "+") + "}") == Greedy(name)
  {
    assert ("{" + name + "}")[1..|name| + 1] == name;
    var plus := name + "+";
    assert ("{" + plus + "}")[1..|plus| + 1] == plus && plus[..|plus| - 1] == name;
  }

  lemma FitsText(b: string, vs: seq<string>)
    ensures Fits([Literal(b)], vs) <==> vs == []
    ensures Fits([Literal(b)], vs) ==> Rebuild([Literal(b)], vs) == b
  {
    assert [Literal(b)][1..] == [];
    assert b + "" == b;
  }

  lemma FitsParam(t: Token, b: string, vs: seq<string>)
    requires IsParam(t)
    ensures Fits([t, Literal(b)], vs) <==> |vs| == 1 && Capturable(t, vs[0])
    ensures Fits([t, Literal(b)], vs) ==> Rebuild([t, Literal(b)], vs) == vs[0] + b
  {
    assert [t, Literal(b)][1..] == [Literal(b)];
    if vs != [] {
      FitsText(b, vs[1..]);
    }
  }

  lemma FitsOne(a: string, t: Token, b: string, vs: seq<string>)
    requires IsParam(t)
    ensures Fits([Literal(a), t, Literal(b)], vs) <==> |vs| == 1 && Capturable(t, vs[0])
    ensures Fits([Literal(a), t, Literal(b)], vs) ==> Rebuild([Literal(a), t, Literal(b)], vs) == a + vs[0] + b
  {
    assert [Literal(a), t, Literal(b)][1..] == [t, Literal(b)];
    FitsParam(t, b, vs);
    if Fits([Literal(a), t, Literal(b)], vs) {
      assert a + (vs[0] + b) == a + vs[0] + b;
    }
  }

  /** Between two texts, a parameter matches exactly the values it may capture. */
  lemma MatchOne(a: string, t: Token, b: string, path: string, v: string)
    requires IsParam(t)
    ensures Match([Literal(a), t, Literal(b)], path) == Some([v]) <==> path == a + v + b && Capturable(t, v)
  {
    var ts := [Literal(a), t, Literal(b)];
    var m := Match(ts, path);
    if m.Some? {
      MatchSound(ts, path);
      FitsOne(a, t, b, m.value);
    }
    if path == a + v + b && Capturable(t, v) {
      FitsOne(a, t, b, [v]);
      MatchCompleteGreedy(ts, path, [v]);
      var w := m.value[0];
      assert |w| == |v|;
      SameTail(a + w, b, a + v, b);
      SameTail(a, w, a, v);
      assert m.value == [w];
    }
  }

  lemma ExtractOne(template: string, a: string, t: Token, b: string, path: string, v: string)
    requires IsParam(t) && Tokenize(template) == [Literal(a), t, Literal(b)]
    ensures ExtractPathParams(template, path) == Some([(t.name, v)]) <==>
            Match([Literal(a), t, Literal(b)], path) == Some([v])
  {
    var ts := Tokenize(template);
    assert ts[1..] == [t, Literal(b)] && ts[1..][1..] == [Literal(b)] && ts[1..][1..][1..] == [];
    assert ParamNames([]) == [] && ParamNames(ts[1..][1..][1..]) == [];
    assert ParamNames(ts[1..][1..]) == [];
    assert ParamNames(ts[1..]) == [t.name];
    assert ParamNames(ts) == [t.name];
    var m := Match(ts, path);
    if m.Some? {
      MatchSound(ts, path);
      FitsOne(a, t, b, m.value);
      var pairs := Zip([t.name], m.value);
      assert pairs == [(t.name, m.value[0])] && pairs[1..] == [];
      assert PutAll([], pairs) == pairs;
      assert m.value == [m.value[0]];
      assert ExtractPathParams(template, path) == Some(pairs);
      assert pairs == [(t.name, v)] <==> pairs[0] == (t.name, v);
      assert m.value == [v] <==> m.value[0] == v;
    }
  }

  /** `{name}` matches exactly one non-empty segment, without slashes. */
  lemma SegmentExactly(a: string, name: string, b: string, path: string, v: string)
    requires '{' !in a && '{' !in b && name != "" && '}' !in name && name[|name| - 1] != '+'
    ensures ExtractPathParams(a + "{" + name + "}" + b, path) == Some([(name, v)]) <==>
            path == a + v + b && v != "" && '/' !in v
  {
    OneGroup(a, name, b);
    GroupKinds(name);
    ExtractOne(a + "{" + name + "}" + b, a, Param(name), b, path, v);
    MatchOne(a, Param(name), b, path, v);
  }

  /** `{name+}` matches any non-empty text, slashes included, without newlines. */
  lemma GreedyExactly(a: string, name: string, b: string, path: string, v: string)
    requires '{' !in a && '{' !in b && '}' !in name
    ensures ExtractPathParams(a + "{" + (name + "+") + "}" + b, path) == Some([(name, v)]) <==>
            path == a + v + b && v != "" && '\n' !in v
  {
    OneGroup(a, name + "+", b);
    GroupKinds(name);
    ExtractOne(a + "{" + (name + "+") + "}" + b, a, Greedy(name), b, path, v);
    MatchOne(a, Greedy(name), b, path, v);
  }

  // ---------------------------------------------------------------------
  // Choosing a route
  // ---------------------------------------------------------------------

  const DEFAULT_ROUTE := "$default"

  /** Whether a route key names this method and a template that matches the path. */
  predicate RouteMatches(key: string, verb: string, path: string) {
    key != DEFAULT_ROUTE &&
    var parts := Text.SplitMax(key, ' ', 1);
    |parts| == 2 && (parts[0] == "ANY" || parts[0] == verb) && ExtractPathParams(parts[1], path).Some?
  }

  /** A route key is a method, or ANY, and a template, with a space between them. */
  lemma RouteKeyExactly(method': string, template: string, verb: string, path: string)
    requires ' ' !in method'
    ensures RouteMatches(method' + [' '] + template, verb, path) <==>
            (method' == "ANY" || method' == verb) && ExtractPathParams(template, path).Some?
  {
    var key := method' + [' '] + template;
    Text.SplitStep(method', template, ' ', 1);
    assert Text.SplitMax(key, ' ', 1) == [method', template];
    assert key[|method'|] == ' ';
    assert ' ' !in DEFAULT_ROUTE;
  }

  /** `_match_route` over the route keys in creation order; returns the chosen position. */
  method MatchRoute(keys: seq<string>, verb: string, path: string) returns (r: Option<nat>)
    ensures r.None? <==> forall i :: 0 <= i < |keys| ==> !RouteMatches(keys[i], verb, path) && keys[i] != DEFAULT_ROUTE
    ensures r.Some? ==> r.value < |keys|
    ensures r.Some? && keys[r.value] != DEFAULT_ROUTE ==>
              RouteMatches(keys[r.value], verb, path) &&
              forall i :: 0 <= i < r.value ==> !RouteMatches(keys[i], verb, path)
    ensures r.Some? && keys[r.value] == DEFAULT_ROUTE ==>
              (forall i :: 0 <= i < |keys| ==> !RouteMatches(keys[i], verb, path)) &&
              forall i :: 0 <= i < r.value ==> keys[i] != DEFAULT_ROUTE
  {
    for i := 0 to |keys|
      invariant forall j :: 0 <= j < i ==> !RouteMatches(keys[j], verb, path)
    {
      if keys[i] != DEFAULT_ROUTE {
        var parts := Text.SplitMax(keys[i], ' ', 1);
        if |parts| == 2 && (parts[0] == "ANY" || parts[0] == verb) {
          var params := ExtractPathParams(parts[1], path);
          if params.Some? {
            return Some(i);
          }
        }
      }
    }
    for i := 0 to |keys|
      invariant forall j :: 0 <= j < i ==> keys[j] != DEFAULT_ROUTE
    {
      if keys[i] == DEFAULT_ROUTE {
        return Some(i);
      }
    }
    return None;
  }
}

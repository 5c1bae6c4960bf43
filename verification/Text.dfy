/** String operations of Python's `str` that several components use. */
module Text {

  /** Index of the first `c` at or after `from`, or |s|. */
  function IndexFrom<T(==)>(s: seq<T>, c: T, from: nat): (i: nat)
    requires from <= |s|
    ensures from <= i <= |s|
    ensures forall j :: from <= j < i ==> s[j] != c
    ensures i < |s| ==> s[i] == c
    decreases |s| - from
  {
    if from == |s| || s[from] == c then from else IndexFrom(s, c, from + 1)
  }

  function IndexOf(s: string, c: char): (i: nat)
    ensures i <= |s|
    ensures forall j :: 0 <= j < i ==> s[j] != c
    ensures i < |s| ==> s[i] == c
    ensures i < |s| <==> c in s
  {
    IndexFrom(s, c, 0)
  }

  /** Python's `s.split(c, max)`. */
  function SplitMax(s: string, c: char, max: nat): (parts: seq<string>)
    ensures parts != []
    decreases max
  {
    var i := IndexOf(s, c);
    if max == 0 || i == |s| then [s] else [s[..i]] + SplitMax(s[i + 1..], c, max - 1)
  }

  function Join(parts: seq<string>, c: char): string
    requires parts != []
  {
    if |parts| == 1 then parts[0] else parts[0] + [c] + Join(parts[1..], c)
  }

  function Count(s: string, c: char): nat {
    if s == "" then 0 else (if s[0] == c then 1 else 0) + Count(s[1..], c)
  }

  // ---------------------------------------------------------------------
  // Splitting and joining
  // ---------------------------------------------------------------------

  lemma {:induction false} JoinSplit(s: string, c: char, max: nat)
    ensures Join(SplitMax(s, c, max), c) == s
    decreases max
  {
    var i := IndexOf(s, c);
    if max > 0 && i < |s| {
      JoinSplit(s[i + 1..], c, max - 1);
      JoinCut(s, c, i, SplitMax(s[i + 1..], c, max - 1));
    }
  }

  lemma JoinCut(s: string, c: char, i: nat, rest: seq<string>)
    requires i < |s| && s[i] == c && rest != [] && Join(rest, c) == s[i + 1..]
    ensures Join([s[..i]] + rest, c) == s
  {
    JoinStep(s[..i], rest, c);
    CutAt(s, c, i);
  }

  lemma CutAt(s: string, c: char, i: nat)
    requires i < |s| && s[i] == c
    ensures s[..i] + [c] + s[i + 1..] == s
  {
  }

  lemma JoinStep(part: string, rest: seq<string>, c: char)
    requires rest != []
    ensures Join([part] + rest, c) == part + [c] + Join(rest, c)
  {
    assert ([part] + rest)[1..] == rest;
  }

  lemma {:induction false} CountFrom(s: string, c: char, i: nat)
    requires i <= |s| && forall j :: 0 <= j < i ==> s[j] != c
    ensures Count(s, c) == Count(s[i..], c)
  {
    if i > 0 {
      CountFrom(s[1..], c, i - 1);
      assert s[1..][i - 1..] == s[i..];
    }
  }

  /** Splitting yields one part more than separators, up to the limit. */
  lemma {:induction false} SplitCount(s: string, c: char, max: nat)
    ensures |SplitMax(s, c, max)| == 1 + if Count(s, c) < max then Count(s, c) else max
    decreases max
  {
    var i := IndexOf(s, c);
    CountFrom(s, c, i);
    if i < |s| {
      CountAt(s, c, i);
      if max > 0 {
        SplitCount(s[i + 1..], c, max - 1);
      }
    } else {
      assert s[i..] == "";
    }
  }

  lemma SplitStep(part: string, rest: string, c: char, max: nat)
    requires c !in part && max > 0
    ensures SplitMax(part + [c] + rest, c, max) == [part] + SplitMax(rest, c, max - 1)
  {
    var s, i := part + [c] + rest, |part|;
    assert s[i] == c && forall j :: 0 <= j < i ==> s[j] == part[j];
    assert IndexOf(s, c) == i;
    assert s[..i] == part && s[i + 1..] == rest;
  }

  lemma SplitJoinStep(first: string, others: seq<string>, c: char, max: nat)
    requires c !in first && max > 0 && others != [] && SplitMax(Join(others, c), c, max - 1) == others
    ensures SplitMax(Join([first] + others, c), c, max) == [first] + others
  {
    JoinStep(first, others, c);
    SplitStep(first, Join(others, c), c, max);
  }

  /** Splitting undoes joining when no part but the last contains the separator. */
  lemma {:induction false} SplitJoin(parts: seq<string>, c: char, max: nat)
    requires |parts| == max + 1 && Clean(parts, c, max)
    ensures SplitMax(Join(parts, c), c, max) == parts
  {
    if max > 0 {
      CleanRest(parts, c, max);
      SplitJoin(parts[1..], c, max - 1);
      SplitJoinStep(parts[0], parts[1..], c, max);
      assert parts == [parts[0]] + parts[1..];
    }
  }

  ghost predicate Clean(parts: seq<string>, c: char, n: nat)
    requires n <= |parts|
  {
    forall k :: 0 <= k < n ==> c !in parts[k]
  }

  lemma CleanRest(parts: seq<string>, c: char, n: nat)
    requires 0 < n <= |parts| && Clean(parts, c, n)
    ensures c !in parts[0] && Clean(parts[1..], c, n - 1)
  {
  }

  lemma {:induction false} SplitPartsClean(s: string, c: char, max: nat, k: nat)
    requires k < |SplitMax(s, c, max)| - 1
    ensures c !in SplitMax(s, c, max)[k]
    decreases max
  {
    var i := IndexOf(s, c);
    if k > 0 {
      SplitPartsClean(s[i + 1..], c, max - 1, k - 1);
    }
  }

  /** Python's `s.split(c)`. */
  function Split(s: string, c: char): (parts: seq<string>)
    ensures parts != []
  {
    SplitMax(s, c, Count(s, c))
  }

  lemma {:induction false} SplitClean(s: string, c: char, max: nat)
    requires max == Count(s, c)
    ensures |SplitMax(s, c, max)| == max + 1 && Clean(SplitMax(s, c, max), c, max + 1)
    decreases max
  {
    var i := IndexOf(s, c);
    CountFrom(s, c, i);
    if i < |s| {
      CountAt(s, c, i);
      var rest := SplitMax(s[i + 1..], c, max - 1);
      SplitClean(s[i + 1..], c, max - 1);
      CleanPrepend(s[..i], rest, c);
      assert SplitMax(s, c, max) == [s[..i]] + rest;
    } else {
      assert s[i..] == "" && SplitMax(s, c, max) == [s];
    }
  }

  lemma CountAt(s: string, c: char, i: nat)
    requires i < |s| && s[i] == c
    ensures Count(s[i..], c) == 1 + Count(s[i + 1..], c)
  {
    assert s[i..][0] == c && s[i..][1..] == s[i + 1..];
  }

  lemma CleanPrepend(first: string, rest: seq<string>, c: char)
    requires c !in first && Clean(rest, c, |rest|)
    ensures Clean([first] + rest, c, |rest| + 1)
  {
  }

  lemma {:induction false} CountAppend(s: string, t: string, c: char)
    ensures Count(s + t, c) == Count(s, c) + Count(t, c)
  {
    if s == "" {
      assert s + t == t;
    } else {
      assert (s + t)[1..] == s[1..] + t;
      CountAppend(s[1..], t, c);
    }
  }

  lemma {:induction false} CountClean(s: string, c: char)
    requires c !in s
    ensures Count(s, c) == 0
  {
    if s != "" {
      CountClean(s[1..], c);
    }
  }

  lemma {:induction false} CountJoin(parts: seq<string>, c: char)
    requires parts != [] && Clean(parts, c, |parts|)
    ensures Count(Join(parts, c), c) == |parts| - 1
  {
    CountClean(parts[0], c);
    if |parts| > 1 {
      CleanRest(parts, c, |parts|);
      CountJoin(parts[1..], c);
      CountAppend(parts[0] + [c], Join(parts[1..], c), c);
      CountAppend(parts[0], [c], c);
      assert [c][1..] == "";
    }
  }

  /** Splitting everywhere undoes joining parts that do not contain the separator. */
  lemma SplitOfJoin(parts: seq<string>, c: char)
    requires parts != [] && Clean(parts, c, |parts|)
    ensures Split(Join(parts, c), c) == parts
  {
    CountJoin(parts, c);
    SplitJoin(parts, c, |parts| - 1);
  }

  // ---------------------------------------------------------------------
  // Decimal numerals
  // ---------------------------------------------------------------------

  function Digit(d: nat): char
    requires d < 10
  {
    '0' + d as char
  }

  /** `str(n)` */
  function Decimal(n: nat): (s: string)
    ensures s != ""
    ensures forall i :: 0 <= i < |s| ==> '0' <= s[i] <= '9'
  {
    if n < 10 then [Digit(n)] else Decimal(n / 10) + [Digit(n % 10)]
  }

  lemma {:induction false} DecimalInjective(m: nat, n: nat)
    ensures Decimal(m) == Decimal(n) ==> m == n
  {
    var s, t := Decimal(m), Decimal(n);
    if s == t {
      assert s[|s| - 1] == t[|t| - 1];
      assert m % 10 == n % 10;
      if m >= 10 && n >= 10 {
        assert s[..|s| - 1] == Decimal(m / 10) && t[..|t| - 1] == Decimal(n / 10);
        DecimalInjective(m / 10, n / 10);
      }
    }
  }
}

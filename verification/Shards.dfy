/** Longest-Processing-Time scheduling of test files onto shards
    (scripts/select_test_shard.py), with Graham's approximation bound. */
module ShardScheduler {

  /** One entry of the count table: a test file and the number of tests in it. */
  datatype File = File(name: string, count: nat)

  /** Python raises ValueError when `min` is given an empty range. */
  datatype Outcome<T> = Built(value: T) | ValueError

  // ---------------------------------------------------------------------
  // Loads of an assignment: job j of size w[j] runs on machine a[j]
  // ---------------------------------------------------------------------

  function Sum(w: seq<nat>): nat {
    if |w| == 0 then 0 else Sum(w[..|w| - 1]) + w[|w| - 1]
  }

  /** Total size of the jobs that `a` puts on machine `i`. */
  function Load(w: seq<nat>, a: seq<nat>, i: nat): nat
    requires |a| == |w|
  {
    if |w| == 0 then 0
    else Load(w[..|w| - 1], a[..|w| - 1], i) + if a[|w| - 1] == i then w[|w| - 1] else 0
  }

  /** Number of jobs on machine `i`: the load when every job has size one. */
  function Jobs(a: seq<nat>, i: nat): nat {
    Load(Ones(|a|), a, i)
  }

  function Ones(k: nat): (s: seq<nat>)
    ensures |s| == k
  {
    seq(k, _ => 1)
  }

  function SumLoads(w: seq<nat>, a: seq<nat>, n: nat): nat
    requires |a| == |w|
  {
    if n == 0 then 0 else SumLoads(w, a, n - 1) + Load(w, a, n - 1)
  }

  ghost predicate IsAssignment(a: seq<nat>, k: nat, n: nat) {
    |a| == k && forall j :: 0 <= j < k ==> a[j] < n
  }

  /** `b` is a schedule of the jobs on `n` machines in which no load exceeds `c`. */
  ghost predicate Within(w: seq<nat>, b: seq<nat>, n: nat, c: nat) {
    IsAssignment(b, |w|, n) && forall i :: 0 <= i < n ==> Load(w, b, i) <= c
  }

  ghost predicate Descending(w: seq<nat>) {
    forall i, j :: 0 <= i <= j < |w| ==> w[i] >= w[j]
  }

  lemma {:induction false} JobsStep(a: seq<nat>, i: nat)
    requires |a| > 0
    ensures Jobs(a, i) == Jobs(a[..|a| - 1], i) + if a[|a| - 1] == i then 1 else 0
  {
    assert Ones(|a|)[..|a| - 1] == Ones(|a| - 1);
  }

  lemma {:induction false} SumLoadsStep(w: seq<nat>, a: seq<nat>, n: nat)
    requires |a| == |w| > 0
    ensures SumLoads(w, a, n) ==
            SumLoads(w[..|w| - 1], a[..|w| - 1], n) + if a[|w| - 1] < n then w[|w| - 1] else 0
  {
    if n > 0 {
      SumLoadsStep(w, a, n - 1);
    }
  }

  /** The loads of all machines add up to the total work. */
  lemma {:induction false} LoadsAddUp(w: seq<nat>, a: seq<nat>, n: nat)
    requires IsAssignment(a, |w|, n)
    ensures SumLoads(w, a, n) == Sum(w)
  {
    if |w| == 0 {
      SumLoadsOfNothing(a, n);
    } else {
      SumLoadsStep(w, a, n);
      LoadsAddUp(w[..|w| - 1], a[..|w| - 1], n);
    }
  }

  lemma SumLoadsOfNothing(a: seq<nat>, n: nat)
    requires a == []
    ensures SumLoads([], a, n) == 0
  {
  }

  lemma {:induction false} SumLoadsAtMost(w: seq<nat>, a: seq<nat>, n: nat, c: nat)
    requires |a| == |w|
    requires forall i :: 0 <= i < n ==> Load(w, a, i) <= c
    ensures SumLoads(w, a, n) <= n * c
  {
    if n > 0 {
      SumLoadsAtMost(w, a, n - 1, c);
      assert n * c == (n - 1) * c + c;
    }
  }

  lemma {:induction false} SumLoadsAtLeast(w: seq<nat>, a: seq<nat>, n: nat, c: nat)
    requires |a| == |w|
    requires forall i :: 0 <= i < n ==> Load(w, a, i) >= c
    ensures SumLoads(w, a, n) >= n * c
  {
    if n > 0 {
      SumLoadsAtLeast(w, a, n - 1, c);
      assert n * c == (n - 1) * c + c;
    }
  }

  lemma {:induction false} SumOnes(k: nat)
    ensures Sum(Ones(k)) == k
  {
    if k > 0 {
      assert Ones(k)[..k - 1] == Ones(k - 1);
      SumOnes(k - 1);
    }
  }

  /** Every job is counted once: the machines hold |a| jobs together. */
  lemma JobsAddUp(a: seq<nat>, n: nat)
    requires IsAssignment(a, |a|, n)
    ensures SumLoads(Ones(|a|), a, n) == |a|
  {
    LoadsAddUp(Ones(|a|), a, n);
    SumOnes(|a|);
  }

  /** A machine whose jobs all have size at least `c` carries at least `c` per job. */
  lemma {:induction false} LoadAtLeast(w: seq<nat>, a: seq<nat>, i: nat, c: nat)
    requires |a| == |w|
    requires forall j :: 0 <= j < |w| ==> w[j] >= c
    ensures Load(w, a, i) >= Jobs(a, i) * c
  {
    if |w| > 0 {
      JobsStep(a, i);
      LoadAtLeast(w[..|w| - 1], a[..|w| - 1], i, c);
    }
  }

  /** One job on the machine accounts for its size, the others for at least `c` each. */
  lemma {:induction false} LoadWithJob(w: seq<nat>, a: seq<nat>, i: nat, c: nat, j: nat)
    requires |a| == |w| && j < |w| && a[j] == i
    requires forall k :: 0 <= k < |w| ==> w[k] >= c
    ensures Jobs(a, i) >= 1 && Load(w, a, i) >= w[j] + (Jobs(a, i) - 1) * c
  {
    var m := |w| - 1;
    JobsStep(a, i);
    if j == m {
      LoadAtLeast(w[..m], a[..m], i, c);
    } else {
      LoadWithJob(w[..m], a[..m], i, c, j);
      var r := Jobs(a[..m], i);
      if a[m] == i {
        assert r * c == (r - 1) * c + c;
      }
    }
  }

  /** A machine with jobs has one; if it is the only one, it is the whole load. */
  lemma {:induction false} SomeJob(w: seq<nat>, a: seq<nat>, i: nat) returns (j: nat)
    requires |a| == |w| && Jobs(a, i) > 0
    ensures j < |w| && a[j] == i
    ensures Jobs(a, i) == 1 ==> Load(w, a, i) == w[j]
  {
    var m := |w| - 1;
    JobsStep(a, i);
    if a[m] == i {
      j := m;
      if Jobs(a[..m], i) == 0 {
        NoJobNoLoad(w[..m], a[..m], i);
      }
    } else {
      j := SomeJob(w[..m], a[..m], i);
    }
  }

  lemma {:induction false} NoJobNoLoad(w: seq<nat>, a: seq<nat>, i: nat)
    requires |a| == |w| && Jobs(a, i) == 0
    ensures Load(w, a, i) == 0
  {
    if |w| > 0 {
      JobsStep(a, i);
      NoJobNoLoad(w[..|w| - 1], a[..|w| - 1], i);
    }
  }

  // ---------------------------------------------------------------------
  // Greedy assignment
  // ---------------------------------------------------------------------

  function Loads(w: seq<nat>, a: seq<nat>, n: nat): (t: seq<nat>)
    requires |a| == |w|
    ensures |t| == n && forall i :: 0 <= i < n ==> t[i] == Load(w, a, i)
  {
    seq(n, i requires 0 <= i < n => Load(w, a, i))
  }

  /** Index of the first least element, as Python's `min` with a key returns it. */
  function LeastLoaded(t: seq<nat>): (i: nat)
    requires |t| > 0
    ensures i < |t|
    ensures forall k :: 0 <= k < |t| ==> t[i] <= t[k]
    ensures forall k :: 0 <= k < i ==> t[i] < t[k]
  {
    if |t| == 1 then 0
    else
      var i := LeastLoaded(t[..|t| - 1]);
      if t[|t| - 1] < t[i] then |t| - 1 else i
  }

  /** Each job in turn goes to the machine that is least loaded so far. */
  function Greedy(w: seq<nat>, n: nat): (a: seq<nat>)
    requires n > 0
    ensures |a| == |w| && forall j :: 0 <= j < |w| ==> a[j] < n
  {
    if |w| == 0 then []
    else
      var a := Greedy(w[..|w| - 1], n);
      a + [LeastLoaded(Loads(w[..|w| - 1], a, n))]
  }

  /** The machine that receives the last job, and its load before that. */
  function Chosen(w: seq<nat>, n: nat): (s: nat)
    requires n > 0 && |w| > 0
    ensures s < n
  {
    LeastLoaded(Loads(w[..|w| - 1], Greedy(w[..|w| - 1], n), n))
  }

  function GreedyLoad(w: seq<nat>, n: nat, i: nat): nat
    requires n > 0
  {
    Load(w, Greedy(w, n), i)
  }

  lemma GreedyStep(w: seq<nat>, n: nat, i: nat)
    requires n > 0 && |w| > 0
    ensures GreedyLoad(w, n, i) ==
            GreedyLoad(w[..|w| - 1], n, i) + if i == Chosen(w, n) then w[|w| - 1] else 0
  {
    assert Greedy(w, n)[..|w| - 1] == Greedy(w[..|w| - 1], n);
  }

  // ---------------------------------------------------------------------
  // Graham's bounds
  // ---------------------------------------------------------------------

  /** Averaging: the machine that receives the last job was below average. */
  lemma BelowAverage(w: seq<nat>, n: nat, b: seq<nat>, c: nat)
    requires n > 0 && |w| > 0 && Within(w, b, n, c)
    ensures n * GreedyLoad(w[..|w| - 1], n, Chosen(w, n)) + w[|w| - 1] <= n * c
  {
    var k := |w| - 1;
    var a := Greedy(w[..k], n);
    var l := GreedyLoad(w[..k], n, Chosen(w, n));
    forall i | 0 <= i < n
      ensures Load(w[..k], a, i) >= l
    {
    }
    SumLoadsAtLeast(w[..k], a, n, l);
    LoadsAddUp(w[..k], a, n);
    LoadsAddUp(w, b, n);
    SumLoadsAtMost(w, b, n, c);
  }

  /** Some machine of `b` holds the last job, so `c` is at least its size. */
  lemma LastJobFits(w: seq<nat>, n: nat, b: seq<nat>, c: nat)
    requires |w| > 0 && Within(w, b, n, c)
    ensures w[|w| - 1] <= c
  {
    assert Load(w, b, b[|w| - 1]) <= c;
  }

  /** Number of leading jobs that are too long to share a machine with the last one. */
  function LongJobs(w: seq<nat>, c: nat): (h: nat)
    requires |w| > 0
    ensures h < |w|
    ensures forall j :: 0 <= j < h ==> w[j] + w[|w| - 1] > c
    ensures h < |w| - 1 ==> w[h] + w[|w| - 1] <= c
  {
    LongJobsFrom(w, c, 0)
  }

  function LongJobsFrom(w: seq<nat>, c: nat, from: nat): (h: nat)
    requires from < |w|
    requires forall j :: 0 <= j < from ==> w[j] + w[|w| - 1] > c
    ensures h < |w|
    ensures forall j :: 0 <= j < h ==> w[j] + w[|w| - 1] > c
    ensures h < |w| - 1 ==> w[h] + w[|w| - 1] <= c
    decreases |w| - from
  {
    if from == |w| - 1 || w[from] + w[|w| - 1] <= c then from else LongJobsFrom(w, c, from + 1)
  }

  /** Where the last job fits nowhere, greedy has at least two jobs on every machine
      except those that hold a long job. */
  lemma {:induction false} GreedyJobs(w: seq<nat>, a: seq<nat>, n: nat, c: nat, i: nat)
    requires |w| == |a| + 1 && Descending(w) && i < n
    requires w[|a|] <= c && Load(w[..|a|], a, i) + w[|a|] > c
    ensures LongJobs(w, c) <= |a| && Jobs(a, i) + Jobs(a[..LongJobs(w, c)], i) >= 2
  {
    var h := LongJobs(w, c);
    if Jobs(a, i) == 0 {
      NoJobNoLoad(w[..|a|], a, i);
      assert false;
    } else if Jobs(a, i) == 1 {
      var j := SomeJob(w[..|a|], a, i);
      assert w[j] + w[|a|] > c;
      assert j < h;
      LoadWithJob(w[..h], a[..h], i, 0, j);
    }
  }

  /** Any schedule within `c` has at most two jobs on a machine, and a long job is alone. */
  lemma {:induction false} OptimalJobs(w: seq<nat>, b: seq<nat>, c: nat, i: nat)
    requires |w| == |b| > 0 && Descending(w)
    requires 3 * w[|w| - 1] > c && Load(w, b, i) <= c
    ensures Jobs(b, i) + Jobs(b[..LongJobs(w, c)], i) <= 2
  {
    var h, x := LongJobs(w, c), w[|w| - 1];
    var p := Jobs(b, i);
    LoadAtLeast(w, b, i, x);
    Threefold(p, x);
    JobsOfPrefix(b, h, i);
    if Jobs(b[..h], i) > 0 {
      var j := SomeJob(w[..h], b[..h], i);
      LoadWithJob(w, b, i, x, j);
    }
  }

  lemma Threefold(p: nat, x: nat)
    ensures p >= 3 ==> p * x >= 3 * x
  {
  }

  lemma {:induction false} JobsOfPrefix(a: seq<nat>, h: nat, i: nat)
    requires h <= |a|
    ensures Jobs(a[..h], i) <= Jobs(a, i)
  {
    if h == |a| {
      assert a[..h] == a;
    } else {
      JobsStep(a, i);
      JobsOfPrefix(a[..|a| - 1], h, i);
      assert a[..|a| - 1][..h] == a[..h];
    }
  }

  lemma {:induction false} JobsTogetherAtLeast(a: seq<nat>, h: nat, n: nat)
    requires h <= |a|
    requires forall i :: 0 <= i < n ==> Jobs(a, i) + Jobs(a[..h], i) >= 2
    ensures SumLoads(Ones(|a|), a, n) + SumLoads(Ones(h), a[..h], n) >= 2 * n
  {
    if n > 0 {
      JobsTogetherAtLeast(a, h, n - 1);
      assert Jobs(a, n - 1) + Jobs(a[..h], n - 1) >= 2;
    }
  }

  lemma {:induction false} JobsTogetherAtMost(a: seq<nat>, h: nat, n: nat)
    requires h <= |a|
    requires forall i :: 0 <= i < n ==> Jobs(a, i) + Jobs(a[..h], i) <= 2
    ensures SumLoads(Ones(|a|), a, n) + SumLoads(Ones(h), a[..h], n) <= 2 * n
  {
    if n > 0 {
      JobsTogetherAtMost(a, h, n - 1);
      assert Jobs(a, n - 1) + Jobs(a[..h], n - 1) <= 2;
    }
  }

  /** When even the shortest job exceeds a third of `c`, greedy places the last job within
      `c`: otherwise it would already hold more jobs than a schedule within `c` can. */
  lemma LongJobsFit(w: seq<nat>, n: nat, b: seq<nat>, c: nat)
    requires n > 0 && |w| > 0 && Descending(w) && 3 * w[|w| - 1] > c
    requires Within(w, b, n, c)
    ensures GreedyLoad(w, n, Chosen(w, n)) <= c
  {
    GreedyStep(w, n, Chosen(w, n));
    if GreedyLoad(w, n, Chosen(w, n)) > c {
      TooFewJobs(w, n, b, c);
      TooManyJobs(w, n, c);
      assert false;
    }
  }

  lemma TooManyJobs(w: seq<nat>, n: nat, c: nat)
    requires n > 0 && |w| > 0 && Descending(w) && w[|w| - 1] <= c
    requires GreedyLoad(w, n, Chosen(w, n)) > c
    ensures |w| - 1 + LongJobs(w, c) >= 2 * n
  {
    var a, h := Greedy(w[..|w| - 1], n), LongJobs(w, c);
    GreedyStep(w, n, Chosen(w, n));
    forall i | 0 <= i < n
      ensures Jobs(a, i) + Jobs(a[..h], i) >= 2
    {
      GreedyJobs(w, a, n, c, i);
    }
    JobsTogetherAtLeast(a, h, n);
    JobsAddUp(a, n);
    JobsAddUp(a[..h], n);
  }

  lemma TooFewJobs(w: seq<nat>, n: nat, b: seq<nat>, c: nat)
    requires |w| > 0 && Descending(w) && 3 * w[|w| - 1] > c
    requires Within(w, b, n, c)
    ensures |w| + LongJobs(w, c) <= 2 * n && w[|w| - 1] <= c
  {
    var h := LongJobs(w, c);
    LastJobFits(w, n, b, c);
    forall i | 0 <= i < n
      ensures Jobs(b, i) + Jobs(b[..h], i) <= 2
    {
      OptimalJobs(w, b, c, i);
    }
    JobsTogetherAtMost(b, h, n);
    JobsAddUp(b, n);
    JobsAddUp(b[..h], n);
  }

  /** List scheduling in any order is within 2 - 1/n of every other schedule. */
  lemma {:induction false} GreedyWithinTwo(w: seq<nat>, n: nat, b: seq<nat>, c: nat, i: nat)
    requires i < n && Within(w, b, n, c)
    ensures n * GreedyLoad(w, n, i) <= (2 * n - 1) * c
  {
    if |w| == 0 {
      assert GreedyLoad(w, n, i) == 0;
    } else {
      var k := |w| - 1;
      WithoutLast(w, b, n, c);
      GreedyWithinTwo(w[..k], n, b[..k], c, i);
      GreedyStep(w, n, i);
      if i == Chosen(w, n) {
        BelowAverage(w, n, b, c);
        LastJobFits(w, n, b, c);
        TwoArithmetic(n, GreedyLoad(w[..k], n, i), w[k], c);
      }
    }
  }

  /** Graham's bound: on jobs in descending order, greedy is within 4/3 - 1/(3n)
      of every other schedule. */
  lemma {:induction false} GrahamBound(w: seq<nat>, n: nat, b: seq<nat>, c: nat, i: nat)
    requires i < n && Descending(w) && Within(w, b, n, c)
    ensures 3 * n * GreedyLoad(w, n, i) <= (4 * n - 1) * c
  {
    if |w| == 0 {
      assert GreedyLoad(w, n, i) == 0;
    } else {
      var k := |w| - 1;
      WithoutLast(w, b, n, c);
      GrahamBound(w[..k], n, b[..k], c, i);
      GreedyStep(w, n, i);
      if i != Chosen(w, n) {
      } else if 3 * w[k] > c {
        LongJobsFit(w, n, b, c);
        WithinArithmetic(n, GreedyLoad(w, n, i), c);
      } else {
        BelowAverage(w, n, b, c);
        ThirdArithmetic(n, GreedyLoad(w[..k], n, i), w[k], c);
      }
    }
  }

  lemma WithoutLast(w: seq<nat>, b: seq<nat>, n: nat, c: nat)
    requires |w| > 0 && Within(w, b, n, c)
    ensures Within(w[..|w| - 1], b[..|w| - 1], n, c)
  {
    var w', b' := w[..|w| - 1], b[..|w| - 1];
    forall i | 0 <= i < n
      ensures Load(w', b', i) <= c
    {
      assert Load(w, b, i) <= c;
    }
  }

  lemma Distribute(p: nat, q: nat, c: nat)
    ensures (p + q) * c == p * c + q * c
  {
  }

  lemma Monotone(k: nat, x: nat, y: nat)
    requires x <= y
    ensures k * x <= k * y
  {
    assert k * y == k * x + k * (y - x);
  }

  lemma TwoArithmetic(n: nat, l: nat, x: nat, c: nat)
    requires n > 0 && n * l + x <= n * c && x <= c
    ensures n * (l + x) <= (2 * n - 1) * c
  {
    Distribute(l, x, n);
    Distribute(n - 1, 1, x);
    Distribute(n, n - 1, c);
    Monotone(n - 1, x, c);
  }

  lemma ThirdArithmetic(n: nat, l: nat, x: nat, c: nat)
    requires n > 0 && n * l + x <= n * c && 3 * x <= c
    ensures 3 * n * (l + x) <= (4 * n - 1) * c
  {
    Distribute(l, x, n);
    Distribute(n - 1, 1, x);
    Thrice(n, l + x);
    Thrice(n, c);
    Thrice(n - 1, x);
    Distribute(3 * n, n - 1, c);
    Monotone(n - 1, 3 * x, c);
  }

  lemma Thrice(n: nat, x: nat)
    ensures 3 * n * x == 3 * (n * x) == n * (3 * x)
  {
  }

  lemma WithinArithmetic(n: nat, l: nat, c: nat)
    requires n > 0 && l <= c
    ensures 3 * n * l <= (4 * n - 1) * c
  {
    Monotone(3 * n, l, c);
    Distribute(3 * n, n - 1, c);
  }

  // ---------------------------------------------------------------------
  // The bound is attained, whatever the number of machines
  // ---------------------------------------------------------------------

  /** Two jobs of every size from 2n - 1 down to n + 1, then three of size n. */
  function Worst(n: nat): (w: seq<nat>)
    requires n > 0
    ensures |w| == 2 * n + 1
  {
    seq(2 * n + 1, j requires 0 <= j <= 2 * n => WorstJob(n, j))
  }

  function WorstJob(n: nat, j: nat): (x: nat)
    requires n > 0 && j <= 2 * n
    ensures n <= x < 2 * n
  {
    if j == 2 * n then n else 2 * n - 1 - j / 2
  }

  /** The round, after each machine has one job, in which greedy gives machine `i` its second. */
  function SecondRound(n: nat, i: nat): nat
    requires i < n
  {
    if i % 2 == 1 then n - i else if i == n - 1 then 0 else n - 2 - i
  }

  function WorstLoad(n: nat, k: nat, i: nat): nat
    requires i < n && k <= 2 * n
  {
    if i >= k then 0 else if n + SecondRound(n, i) < k then 3 * n - 1 else WorstJob(n, i)
  }

  /** The machine greedy picks for job `k`. */
  function WorstMachine(n: nat, k: nat): (m: nat)
    requires k < 2 * n
    ensures m < n
  {
    if k < n then k
    else if k % 2 == 0 then 2 * n - 2 - k
    else if k == n then n - 1
    else 2 * n - k
  }

  lemma LeastIs(t: seq<nat>, i: nat)
    requires i < |t| && (forall k :: 0 <= k < |t| ==> t[i] <= t[k]) && forall k :: 0 <= k < i ==> t[i] < t[k]
    ensures LeastLoaded(t) == i
  {
    var j := LeastLoaded(t);
    assert t[i] <= t[j] && t[j] <= t[i];
  }

  lemma WorstChoice(n: nat, k: nat, i: nat)
    requires i < n && k < 2 * n
    ensures var m := WorstMachine(n, k);
            WorstLoad(n, k, m) <= WorstLoad(n, k, i) && (i < m ==> WorstLoad(n, k, m) < WorstLoad(n, k, i))
  {
  }

  lemma WorstLoadStep(n: nat, k: nat, i: nat)
    requires i < n && k < 2 * n
    ensures WorstLoad(n, k + 1, i) == WorstLoad(n, k, i) + if i == WorstMachine(n, k) then WorstJob(n, k) else 0
  {
  }

  lemma {:induction false} WorstLoads(n: nat, k: nat, i: nat)
    requires i < n && k <= 2 * n
    ensures GreedyLoad(Worst(n)[..k], n, i) == WorstLoad(n, k, i)
    decreases k
  {
    if k > 0 {
      var w := Worst(n)[..k];
      assert w[..k - 1] == Worst(n)[..k - 1];
      var t, m := Loads(w[..k - 1], Greedy(w[..k - 1], n), n), WorstMachine(n, k - 1);
      forall j | 0 <= j < n
        ensures t[j] == WorstLoad(n, k - 1, j)
      {
        WorstLoads(n, k - 1, j);
      }
      forall j | 0 <= j < n
        ensures t[m] <= t[j] && (j < m ==> t[m] < t[j])
      {
        WorstChoice(n, k - 1, j);
      }
      LeastIs(t, m);
      GreedyStep(w, n, i);
      WorstLoadStep(n, k - 1, i);
    }
  }

  /** Before the last job greedy has brought every machine to 3n - 1. */
  lemma GreedyOnWorst(n: nat)
    requires n > 0
    ensures GreedyLoad(Worst(n), n, 0) == 4 * n - 1
  {
    var w := Worst(n);
    var t := Loads(w[..2 * n], Greedy(w[..2 * n], n), n);
    forall i | 0 <= i < n
      ensures t[i] == 3 * n - 1
    {
      WorstLoads(n, 2 * n, i);
    }
    LeastIs(t, 0);
    GreedyStep(w, n, 0);
  }

  /** Sizes adding up to 3n share a machine, and the three jobs of size n another. */
  function BestMachine(n: nat, j: nat): (m: nat)
    requires n > 0 && j <= 2 * n
    ensures m < n
  {
    if j >= 2 * n - 2 then n - 1 else if j % 2 == 0 then j / 2 else n - 2 - j / 2
  }

  function Best(n: nat): (b: seq<nat>)
    requires n > 0
    ensures IsAssignment(b, 2 * n + 1, n)
  {
    seq(2 * n + 1, j requires 0 <= j <= 2 * n => BestMachine(n, j))
  }

  function BestLoad(n: nat, k: nat, i: nat): nat
    requires i < n && k <= 2 * n + 1
  {
    if i < n - 1 then
      (if 2 * i < k then 2 * n - 1 - i else 0) + if 2 * (n - 2 - i) + 1 < k then n + 1 + i else 0
    else if k == 2 * n + 1 then 3 * n
    else if k == 2 * n then 2 * n
    else if k == 2 * n - 1 then n
    else 0
  }

  lemma {:induction false} BestLoads(n: nat, k: nat, i: nat)
    requires i < n && k <= 2 * n + 1
    ensures Load(Worst(n)[..k], Best(n)[..k], i) == BestLoad(n, k, i)
    decreases k
  {
    if k > 0 {
      BestLoads(n, k - 1, i);
      assert Worst(n)[..k][..k - 1] == Worst(n)[..k - 1] && Best(n)[..k][..k - 1] == Best(n)[..k - 1];
      BestLoadStep(n, k - 1, i);
    }
  }

  lemma BestLoadStep(n: nat, k: nat, i: nat)
    requires i < n && k <= 2 * n
    ensures BestLoad(n, k + 1, i) == BestLoad(n, k, i) + if i == BestMachine(n, k) then WorstJob(n, k) else 0
  {
  }

  /** For no number of machines can the bound be improved. */
  lemma GrahamBoundIsTight(n: nat)
    requires n > 0
    ensures Descending(Worst(n)) && Within(Worst(n), Best(n), n, 3 * n)
    ensures 3 * n * GreedyLoad(Worst(n), n, 0) == (4 * n - 1) * (3 * n)
  {
    var w, b := Worst(n), Best(n);
    forall i | 0 <= i < n
      ensures Load(w, b, i) <= 3 * n
    {
      BestLoads(n, 2 * n + 1, i);
      assert w[..2 * n + 1] == w && b[..2 * n + 1] == b;
    }
    GreedyOnWorst(n);
  }

  /** No two machines differ by more than the largest job, after any number of jobs. */
  lemma {:induction false} GreedySpread(w: seq<nat>, n: nat, largest: nat, i: nat, j: nat)
    requires i < n && j < n && forall k :: 0 <= k < |w| ==> w[k] <= largest
    ensures GreedyLoad(w, n, i) <= GreedyLoad(w, n, j) + largest
  {
    if |w| == 0 {
      assert GreedyLoad(w, n, i) == 0;
    } else {
      GreedySpread(w[..|w| - 1], n, largest, i, j);
      GreedyStep(w, n, i);
      GreedyStep(w, n, j);
    }
  }

  // ---------------------------------------------------------------------
  // Sorting the count table: descending, stable
  // ---------------------------------------------------------------------

  function Insert(fs: seq<File>, x: File): seq<File> {
    if |fs| == 0 || fs[|fs| - 1].count >= x.count then fs + [x]
    else Insert(fs[..|fs| - 1], x) + [fs[|fs| - 1]]
  }

  /** `sorted(counts, key=counts.__getitem__, reverse=True)` */
  function SortDescending(fs: seq<File>): seq<File> {
    if |fs| == 0 then [] else Insert(SortDescending(fs[..|fs| - 1]), fs[|fs| - 1])
  }

  function Sizes(fs: seq<File>): (w: seq<nat>)
    ensures |w| == |fs| && forall i :: 0 <= i < |w| ==> w[i] == fs[i].count
  {
    seq(|fs|, i requires 0 <= i < |fs| => fs[i].count)
  }

  function WithCount(fs: seq<File>, c: nat): seq<File> {
    if |fs| == 0 then []
    else WithCount(fs[..|fs| - 1], c) + if fs[|fs| - 1].count == c then [fs[|fs| - 1]] else []
  }

  lemma {:induction false} InsertDescending(fs: seq<File>, x: File)
    requires Descending(Sizes(fs))
    ensures Descending(Sizes(Insert(fs, x)))
    ensures multiset(Insert(fs, x)) == multiset(fs) + multiset{x}
  {
    if |fs| == 0 {
    } else if fs[|fs| - 1].count >= x.count {
      AtLeastLast(fs);
      DescendingAppend(fs, x);
    } else {
      var k := |fs| - 1;
      DescendingPrefix(fs, k);
      InsertDescending(fs[..k], x);
      AtLeastLast(fs);
      assert fs == fs[..k] + [fs[k]];
      forall f | f in Insert(fs[..k], x)
        ensures f.count >= fs[k].count
      {
        assert f in multiset(fs[..k]) + multiset{x};
      }
      DescendingAppend(Insert(fs[..k], x), fs[k]);
    }
  }

  lemma AtLeastLast(fs: seq<File>)
    requires |fs| > 0 && Descending(Sizes(fs))
    ensures forall f :: f in fs ==> f.count >= fs[|fs| - 1].count
  {
    forall i | 0 <= i < |fs|
      ensures fs[i].count >= fs[|fs| - 1].count
    {
      assert Sizes(fs)[i] >= Sizes(fs)[|fs| - 1];
    }
  }

  lemma DescendingAppend(fs: seq<File>, x: File)
    requires Descending(Sizes(fs)) && forall f :: f in fs ==> f.count >= x.count
    ensures Descending(Sizes(fs + [x]))
  {
    var w, w' := Sizes(fs), Sizes(fs + [x]);
    forall i, j | 0 <= i <= j < |w'|
      ensures w'[i] >= w'[j]
    {
      if j < |fs| {
        assert w[i] >= w[j];
      } else if i < |fs| {
        assert fs[i] in fs;
      }
    }
  }

  lemma DescendingPrefix(fs: seq<File>, k: nat)
    requires k <= |fs| && Descending(Sizes(fs))
    ensures Descending(Sizes(fs[..k]))
  {
    forall i, j | 0 <= i <= j < k
      ensures Sizes(fs[..k])[i] >= Sizes(fs[..k])[j]
    {
      assert Sizes(fs)[i] >= Sizes(fs)[j];
    }
  }

  lemma {:induction false} SortIsDescendingPermutation(fs: seq<File>)
    ensures Descending(Sizes(SortDescending(fs)))
    ensures multiset(SortDescending(fs)) == multiset(fs)
  {
    if |fs| > 0 {
      var k := |fs| - 1;
      SortIsDescendingPermutation(fs[..k]);
      InsertDescending(SortDescending(fs[..k]), fs[k]);
      assert fs == fs[..k] + [fs[k]];
    }
  }

  lemma {:induction false} InsertStable(fs: seq<File>, x: File, c: nat)
    requires Descending(Sizes(fs))
    ensures WithCount(Insert(fs, x), c) == WithCount(fs, c) + if x.count == c then [x] else []
  {
    if |fs| == 0 || fs[|fs| - 1].count >= x.count {
      assert (fs + [x])[..|fs|] == fs;
    } else {
      var k := |fs| - 1;
      DescendingPrefix(fs, k);
      InsertStable(fs[..k], x, c);
      var r := Insert(fs[..k], x);
      assert (r + [fs[k]])[..|r|] == r;
    }
  }

  /** Files with equal counts keep the order of the table. */
  lemma {:induction false} SortIsStable(fs: seq<File>, c: nat)
    ensures WithCount(SortDescending(fs), c) == WithCount(fs, c)
  {
    if |fs| > 0 {
      SortIsStable(fs[..|fs| - 1], c);
      SortIsDescendingPermutation(fs[..|fs| - 1]);
      InsertStable(SortDescending(fs[..|fs| - 1]), fs[|fs| - 1], c);
    }
  }

  lemma LoadAppend(w: seq<nat>, a: seq<nat>, x: nat, m: nat, i: nat)
    requires |a| == |w|
    ensures Load(w + [x], a + [m], i) == Load(w, a, i) + if m == i then x else 0
  {
    assert (w + [x])[..|w|] == w && (a + [m])[..|w|] == a;
  }

  // ---------------------------------------------------------------------
  // Shards as lists of files
  // ---------------------------------------------------------------------

  function Total(shard: seq<File>): nat {
    Sum(Sizes(shard))
  }

  lemma TotalAppend(shard: seq<File>, x: File)
    ensures Total(shard + [x]) == Total(shard) + x.count
  {
    assert Sizes(shard + [x])[..|shard|] == Sizes(shard);
  }

  /** The heaviest shard's total: 0 when there are no shards. */
  function Makespan(shards: seq<seq<File>>): (m: nat)
    ensures forall i :: 0 <= i < |shards| ==> Total(shards[i]) <= m
    ensures shards != [] ==> exists i :: 0 <= i < |shards| && Total(shards[i]) == m
  {
    if |shards| == 0 then 0
    else
      var m := Makespan(shards[..|shards| - 1]);
      var t := Total(shards[|shards| - 1]);
      assert forall i :: 0 <= i < |shards| - 1 ==> shards[i] == shards[..|shards| - 1][i];
      if t >= m then t else m
  }

  function Flatten(shards: seq<seq<File>>): seq<File> {
    if |shards| == 0 then [] else Flatten(shards[..|shards| - 1]) + shards[|shards| - 1]
  }

  /** `shards` splits the files among `n` shards: each file is in exactly one of them. */
  ghost predicate IsPartition(shards: seq<seq<File>>, fs: seq<File>, n: nat) {
    |shards| == n && multiset(Flatten(shards)) == multiset(fs)
  }

  lemma {:induction false} FlattenUpdate(shards: seq<seq<File>>, i: nat, shard: seq<File>)
    requires i < |shards|
    ensures multiset(Flatten(shards[i := shard])) + multiset(shards[i]) == multiset(Flatten(shards)) + multiset(shard)
  {
    var k := |shards| - 1;
    if i == k {
      assert shards[i := shard][..k] == shards[..k];
    } else {
      var front := shards[..k][i := shard];
      FlattenUpdate(shards[..k], i, shard);
      assert shards[i := shard][..k] == front;
      Regroup(multiset(Flatten(front)), multiset(Flatten(shards[..k])),
              multiset(shards[i]), multiset(shard), multiset(shards[k]));
    }
  }

  lemma Regroup(a: multiset<File>, b: multiset<File>, x: multiset<File>, y: multiset<File>, c: multiset<File>)
    requires a + x == b + y
    ensures (a + c) + x == (b + c) + y
  {
    assert (a + c) + x == (a + x) + c;
    assert (b + c) + y == (b + y) + c;
  }

  lemma Cancel(a: multiset<File>, b: multiset<File>, c: multiset<File>)
    requires a + c == b + c
    ensures a == b
  {
    assert a == (a + c) - c;
    assert b == (b + c) - c;
  }

  lemma {:induction false} InSomeShard(shards: seq<seq<File>>, x: File) returns (i: nat, k: nat)
    requires x in Flatten(shards)
    ensures i < |shards| && k < |shards[i]| && shards[i][k] == x
  {
    var m := |shards| - 1;
    if x in shards[m] {
      i, k :| i == m && 0 <= k < |shards[i]| && shards[i][k] == x;
    } else {
      i, k := InSomeShard(shards[..m], x);
    }
  }

  function Without(shard: seq<File>, k: nat): seq<File>
    requires k < |shard|
  {
    shard[..k] + shard[k + 1..]
  }

  lemma {:induction false} TotalWithout(shard: seq<File>, k: nat)
    requires k < |shard|
    ensures Total(Without(shard, k)) + shard[k].count == Total(shard)
    ensures multiset(shard) == multiset(Without(shard, k)) + multiset{shard[k]}
  {
    var m := |shard| - 1;
    assert shard == shard[..m] + [shard[m]];
    if k == m {
      assert Without(shard, k) == shard[..m];
      TotalAppend(shard[..m], shard[m]);
    } else {
      TotalWithout(shard[..m], k);
      assert Without(shard, k) == Without(shard[..m], k) + [shard[m]];
      TotalAppend(shard[..m], shard[m]);
      TotalAppend(Without(shard[..m], k), shard[m]);
    }
  }

  /** Every partition is an assignment of the files, listed in any order, to its shards. */
  lemma {:induction false} PartitionAsAssignment(shards: seq<seq<File>>, fs: seq<File>, n: nat) returns (b: seq<nat>)
    requires IsPartition(shards, fs, n)
    ensures IsAssignment(b, |fs|, n)
    ensures forall i :: 0 <= i < n ==> Load(Sizes(fs), b, i) == Total(shards[i])
    decreases |fs|
  {
    if |fs| == 0 {
      b := [];
      NothingToShare(shards);
    } else {
      var m := |fs| - 1;
      var rest, i := TakeOut(shards, fs, n);
      var b' := PartitionAsAssignment(rest, fs[..m], n);
      b := b' + [i];
      forall k | 0 <= k < n
        ensures Load(Sizes(fs), b, k) == Total(shards[k])
      {
        assert Sizes(fs) == Sizes(fs[..m]) + [fs[m].count];
        LoadAppend(Sizes(fs[..m]), b', fs[m].count, i, k);
      }
    }
  }

  lemma NothingToShare(shards: seq<seq<File>>)
    requires multiset(Flatten(shards)) == multiset{}
    ensures forall i :: 0 <= i < |shards| ==> Total(shards[i]) == 0
  {
    assert |multiset(Flatten(shards))| == |Flatten(shards)|;
    forall i | 0 <= i < |shards|
      ensures Total(shards[i]) == 0
    {
      if |shards[i]| > 0 {
        ShardInFlatten(shards, i, shards[i][0]);
        assert false;
      }
    }
  }

  /** Remove one occurrence of the last file from the shard `i` that holds it. */
  lemma TakeOut(shards: seq<seq<File>>, fs: seq<File>, n: nat) returns (rest: seq<seq<File>>, i: nat)
    requires |fs| > 0 && IsPartition(shards, fs, n)
    ensures i < n && IsPartition(rest, fs[..|fs| - 1], n)
    ensures forall k :: 0 <= k < n ==> Total(rest[k]) + (if k == i then fs[|fs| - 1].count else 0) == Total(shards[k])
  {
    var x := fs[|fs| - 1];
    assert fs == fs[..|fs| - 1] + [x];
    assert x in multiset(Flatten(shards));
    var j;
    i, j := InSomeShard(shards, x);
    var shard := Without(shards[i], j);
    rest := shards[i := shard];
    TotalWithout(shards[i], j);
    FlattenUpdate(shards, i, shard);
    var before, after, front := multiset(Flatten(shards)), multiset(Flatten(rest)), multiset(fs[..|fs| - 1]);
    LeftOver(before, after, front, multiset(shard), x);
  }

  lemma LeftOver(before: multiset<File>, after: multiset<File>, front: multiset<File>, shard: multiset<File>, x: File)
    requires before == front + multiset{x}
    requires after + (shard + multiset{x}) == before + shard
    ensures after == front
  {
    assert after + (shard + multiset{x}) == front + (shard + multiset{x});
    Cancel(after, front, shard + multiset{x});
  }

  lemma {:induction false} ShardInFlatten(shards: seq<seq<File>>, i: nat, x: File)
    requires i < |shards| && x in shards[i]
    ensures x in Flatten(shards)
  {
    if i < |shards| - 1 {
      ShardInFlatten(shards[..|shards| - 1], i, x);
    }
  }

  // ---------------------------------------------------------------------
  // build_shards
  // ---------------------------------------------------------------------

  /** The files that `a` puts on machine `i`, in list order. */
  function Assigned(fs: seq<File>, a: seq<nat>, i: nat): seq<File>
    requires |a| == |fs|
  {
    if |fs| == 0 then []
    else Assigned(fs[..|fs| - 1], a[..|fs| - 1], i) + if a[|fs| - 1] == i then [fs[|fs| - 1]] else []
  }

  /** The shards after the files `fs` have been placed one by one. */
  function Placed(fs: seq<File>, n: nat): (shards: seq<seq<File>>)
    requires n > 0
    ensures |shards| == n
  {
    var a := Greedy(Sizes(fs), n);
    seq(n, i requires 0 <= i < n => Assigned(fs, a, i))
  }

  lemma {:induction false} AssignedTotal(fs: seq<File>, a: seq<nat>, i: nat)
    requires |a| == |fs|
    ensures Total(Assigned(fs, a, i)) == Load(Sizes(fs), a, i)
  {
    if |fs| > 0 {
      var m := |fs| - 1;
      AssignedTotal(fs[..m], a[..m], i);
      assert Sizes(fs)[..m] == Sizes(fs[..m]);
      TotalAppend(Assigned(fs[..m], a[..m], i), fs[m]);
      assert Assigned(fs[..m], a[..m], i) + [] == Assigned(fs[..m], a[..m], i);
    }
  }

  /** The loop body: the next file goes to the end of the chosen shard. */
  lemma PlacedStep(fs: seq<File>, x: File, n: nat)
    requires n > 0
    ensures var s := Chosen(Sizes(fs + [x]), n); var before := Placed(fs, n);
            Placed(fs + [x], n) == before[s := before[s] + [x]]
  {
    var w, w' := Sizes(fs), Sizes(fs + [x]);
    assert w'[..|fs|] == w && (fs + [x])[..|fs|] == fs;
    var a, a' := Greedy(w, n), Greedy(w', n);
    assert a' == a + [Chosen(w', n)] && a'[..|fs|] == a;
    var s := Chosen(w', n);
    var before, after := Placed(fs, n), Placed(fs + [x], n);
    forall i | 0 <= i < n
      ensures after[i] == before[s := before[s] + [x]][i]
    {
      assert after[i] == Assigned(fs + [x], a', i);
      assert before[i] == Assigned(fs, a, i);
    }
  }

  lemma {:induction false} PlacedPartition(fs: seq<File>, n: nat)
    requires n > 0
    ensures IsPartition(Placed(fs, n), fs, n)
  {
    if |fs| == 0 {
      EmptyShards(Placed(fs, n));
    } else {
      var front, x := fs[..|fs| - 1], fs[|fs| - 1];
      assert fs == front + [x];
      PlacedPartition(front, n);
      PlacedStep(front, x, n);
      AddToShard(Placed(front, n), front, n, Chosen(Sizes(fs), n), x);
    }
  }

  lemma AddToShard(shards: seq<seq<File>>, fs: seq<File>, n: nat, i: nat, x: File)
    requires IsPartition(shards, fs, n) && i < n
    ensures IsPartition(shards[i := shards[i] + [x]], fs + [x], n)
  {
    FlattenUpdate(shards, i, shards[i] + [x]);
    var after := multiset(Flatten(shards[i := shards[i] + [x]]));
    var shard := multiset(shards[i]);
    assert after + shard == multiset(fs) + (shard + multiset{x});
    assert multiset(fs) + (shard + multiset{x}) == (multiset(fs) + multiset{x}) + shard;
    Cancel(after, multiset(fs) + multiset{x}, shard);
  }

  lemma {:induction false} EmptyShards(shards: seq<seq<File>>)
    requires forall i :: 0 <= i < |shards| ==> shards[i] == []
    ensures Flatten(shards) == []
  {
    if |shards| > 0 {
      EmptyShards(shards[..|shards| - 1]);
    }
  }

  lemma PlacedTotals(fs: seq<File>, n: nat, i: nat)
    requires i < n
    ensures Total(Placed(fs, n)[i]) == GreedyLoad(Sizes(fs), n, i)
  {
    AssignedTotal(fs, Greedy(Sizes(fs), n), i);
  }

  /** No other way of splitting the files among `n` shards is much better:
      3n times the fullest shard is at most 4n - 1 times the other's fullest shard. */
  lemma ShardsNearOptimal(table: seq<File>, n: nat, other: seq<seq<File>>)
    requires n > 0 && IsPartition(other, table, n)
    ensures 3 * n * Makespan(Placed(SortDescending(table), n)) <= (4 * n - 1) * Makespan(other)
  {
    var fs := SortDescending(table);
    SortIsDescendingPermutation(table);
    var b := PartitionAsAssignment(other, fs, n);
    var c := Makespan(other);
    forall i | 0 <= i < n
      ensures Load(Sizes(fs), b, i) <= c
    {
      assert Total(other[i]) <= c;
    }
    var shards := Placed(fs, n);
    var m :| 0 <= m < |shards| && Total(shards[m]) == Makespan(shards);
    PlacedTotals(fs, n, m);
    GrahamBound(Sizes(fs), n, b, c, m);
  }

  /** After any number of files, no two shards differ by more than the largest file. */
  lemma ShardsBalanced(fs: seq<File>, n: nat, largest: nat, i: nat, j: nat)
    requires i < n && j < n && forall f :: f in fs ==> f.count <= largest
    ensures Total(Placed(fs, n)[i]) <= Total(Placed(fs, n)[j]) + largest
  {
    PlacedTotals(fs, n, i);
    PlacedTotals(fs, n, j);
    GreedySpread(Sizes(fs), n, largest, i, j);
  }

  function Totals(fs: seq<File>, n: nat): (t: seq<nat>)
    requires n > 0
    ensures |t| == n && forall i :: 0 <= i < n ==> t[i] == Total(Placed(fs, n)[i])
  {
    seq(n, i requires 0 <= i < n => Total(Placed(fs, n)[i]))
  }

  lemma TotalsAreLoads(fs: seq<File>, n: nat)
    requires n > 0
    ensures Totals(fs, n) == Loads(Sizes(fs), Greedy(Sizes(fs), n), n)
  {
    var t := Loads(Sizes(fs), Greedy(Sizes(fs), n), n);
    forall i | 0 <= i < n
      ensures Totals(fs, n)[i] == t[i]
    {
      PlacedTotals(fs, n, i);
    }
  }

  /** The running totals choose the shard and change with it. */
  lemma TotalsStep(fs: seq<File>, x: File, n: nat)
    requires n > 0
    ensures var s := LeastLoaded(Totals(fs, n)); var before := Placed(fs, n);
            Placed(fs + [x], n) == before[s := before[s] + [x]] &&
            Totals(fs + [x], n) == Totals(fs, n)[s := Totals(fs, n)[s] + x.count]
  {
    TotalsAreLoads(fs, n);
    assert Sizes(fs + [x])[..|fs|] == Sizes(fs);
    var s := LeastLoaded(Totals(fs, n));
    PlacedStep(fs, x, n);
    var before, after := Placed(fs, n), Placed(fs + [x], n);
    forall i | 0 <= i < n
      ensures Totals(fs + [x], n)[i] == Total(before[s := before[s] + [x]][i])
    {
      assert after[i] == before[s := before[s] + [x]][i];
    }
    TotalAppend(before[s], x);
  }

  /** 3n times the fullest shard is at most 4n - 1 times the fullest shard of any other way to split the table. */
  ghost predicate NearOptimal(shards: seq<seq<File>>, table: seq<File>, n: nat) {
    forall other :: IsPartition(other, table, n) ==> 3 * n * Makespan(shards) <= (4 * n - 1) * Makespan(other)
  }

  lemma PlanIsNearOptimalPartition(table: seq<File>, n: nat)
    requires n > 0
    ensures var plan := Placed(SortDescending(table), n);
            IsPartition(plan, table, n) && NearOptimal(plan, table, n)
  {
    SortIsDescendingPermutation(table);
    PlacedPartition(SortDescending(table), n);
    forall other | IsPartition(other, table, n)
      ensures 3 * n * Makespan(Placed(SortDescending(table), n)) <= (4 * n - 1) * Makespan(other)
    {
      ShardsNearOptimal(table, n, other);
    }
  }

  /** The loop's state once the first `k` files have been placed. */
  ghost predicate Running(shards: seq<seq<File>>, totals: seq<nat>, files: seq<File>, k: nat, n: nat) {
    n > 0 && k <= |files| && |shards| == |totals| == n &&
    forall i :: 0 <= i < n ==> PlacedAt(shards, totals, files[..k], i)
  }

  ghost predicate PlacedAt(shards: seq<seq<File>>, totals: seq<nat>, fs: seq<File>, i: nat)
    requires i < |shards| == |totals|
  {
    shards[i] == Placed(fs, |shards|)[i] && totals[i] == Total(shards[i])
  }

  lemma Whole(shards: seq<seq<File>>, totals: seq<nat>, files: seq<File>, k: nat, n: nat)
    requires Running(shards, totals, files, k, n)
    ensures shards == Placed(files[..k], n) && totals == Totals(files[..k], n)
  {
    forall i | 0 <= i < n
      ensures shards[i] == Placed(files[..k], n)[i] && totals[i] == Totals(files[..k], n)[i]
    {
      assert PlacedAt(shards, totals, files[..k], i);
    }
  }

  lemma RunningStep(shards: seq<seq<File>>, totals: seq<nat>, files: seq<File>, k: nat, n: nat)
    requires Running(shards, totals, files, k, n) && k < |files|
    ensures var i, x := LeastLoaded(totals), files[k];
            Running(shards[i := shards[i] + [x]], totals[i := totals[i] + x.count], files, k + 1, n)
  {
    assert files[..k + 1] == files[..k] + [files[k]];
    Whole(shards, totals, files, k, n);
    TotalsStep(files[..k], files[k], n);
  }

  method BuildShards(table: seq<File>, n: int) returns (r: Outcome<seq<seq<File>>>)
    ensures n <= 0 ==> r == if table == [] then Built([]) else ValueError
    ensures n > 0 ==> r == Built(Placed(SortDescending(table), n))
    ensures n > 0 ==> IsPartition(r.value, table, n)
    ensures n > 0 ==> NearOptimal(r.value, table, n)
  {
    if n <= 0 {
      return if table == [] then Built([]) else ValueError;
    }
    var shards, totals := new seq<File>[n](_ => []), new nat[n](_ => 0);
    var files := SortDescending(table);
    for k := 0 to |files|
      invariant Running(shards[..], totals[..], files, k, n)
    {
      var i, x := LeastLoaded(totals[..]), files[k];
      ghost var before, loads := shards[..], totals[..];
      RunningStep(before, loads, files, k, n);
      shards[i] := shards[i] + [x];
      totals[i] := totals[i] + x.count;
      assert shards[..] == before[i := before[i] + [x]] && totals[..] == loads[i := loads[i] + x.count];
    }
    Whole(shards[..], totals[..], files, |files|, n);
    assert files[..|files|] == files;
    PlanIsNearOptimalPartition(table, n);
    r := Built(shards[..]);
  }
}

/** Dictionaries namespaced by the request's account and region
    (kumostack/core/responses.py). */
module ScopedDict {
  import opened Prelude
  import opened PyValue
  import Arn

  /** The request context: what get_account_id() and get_region() return. */
  datatype Scope = Scope(account: string, region: string)

  type Key = (string, string, Value)
  type Data = Entries<Key, Value>
  type Store = Entries<Value, Value>

  function ScopedKey(c: Scope, k: Value): Key {
    (c.account, c.region, k)
  }

  predicate IsMine(c: Scope, k: Key) {
    k.0 == c.account && k.1 == c.region
  }

  // ---------------------------------------------------------------------
  // One dictionary per scope
  // ---------------------------------------------------------------------

  /** What a request in scope `c` sees of the flat map. */
  function View(d: Data, c: Scope): Store {
    if d == [] then []
    else if IsMine(c, d[0].0) then [(d[0].0.2, d[0].1)] + View(d[1..], c)
    else View(d[1..], c)
  }

  lemma {:induction false} ViewAppend(d: Data, e: Data, c: Scope)
    ensures View(d + e, c) == View(d, c) + View(e, c)
  {
    if d == [] {
      assert d + e == e;
    } else {
      ViewAppend(d[1..], e, c);
      assert (d + e)[1..] == d[1..] + e;
    }
  }

  lemma {:induction false} ViewGet(d: Data, c: Scope, k: Value)
    ensures Get(d, ScopedKey(c, k)) == Get(View(d, c), k)
  {
    if d != [] {
      ViewGet(d[1..], c, k);
    }
  }

  lemma {:induction false} ViewUnique(d: Data, c: Scope)
    requires UniqueKeys(d)
    ensures UniqueKeys(View(d, c))
  {
    if d != [] {
      ViewUnique(d[1..], c);
      if IsMine(c, d[0].0) {
        var r, k := View(d[1..], c), d[0].0.2;
        ViewGet(d[1..], c, k);
        HasIndex(d[1..], d[0].0);
        HasIndex(r, k);
      }
    }
  }

  /** Storing under a scope is storing in that scope's dictionary, and nowhere else. */
  lemma {:induction false} ViewPut(d: Data, w: Scope, k: Value, v: Value, c: Scope)
    ensures View(Put(d, ScopedKey(w, k), v), c) == if c == w then Put(View(d, c), k, v) else View(d, c)
  {
    if d != [] {
      ViewPut(d[1..], w, k, v, c);
    }
  }

  /** Removing under a scope is removing from that scope's dictionary, and nowhere else. */
  lemma {:induction false} ViewRemove(d: Data, w: Scope, k: Value, c: Scope)
    ensures View(Remove(d, ScopedKey(w, k)), c) == if c == w then Remove(View(d, c), k) else View(d, c)
  {
    if d != [] {
      ViewRemove(d[1..], w, k, c);
    }
  }

  // ---------------------------------------------------------------------
  // Ordinary operations: on one dictionary, and on the flat map in a request scope
  // ---------------------------------------------------------------------

  datatype Op =
    | SetItem(k: Value, v: Value)
    | GetItem(k: Value)
    | DelItem(k: Value)
    | Contains(k: Value)
    | Len
    | Items
    | GetOrElse(k: Value, default: Value)
    | Pop(k: Value)
    | PopOrElse(k: Value, default: Value)
    | SetDefault(k: Value, default: Value)

  datatype Response =
    | Done
    | KeyError
    | Result(v: Value)
    | Flag(b: bool)
    | Count(n: nat)
    | Listing(items: Store)

  function Found(o: Option<Value>): Response {
    if o.Some? then Result(o.value) else KeyError
  }

  /** A Python dictionary on its own. */
  function LocalStep(d: Store, op: Op): (Store, Response) {
    match op
    case SetItem(k, v) => (Put(d, k, v), Done)
    case GetItem(k) => (d, Found(Get(d, k)))
    case DelItem(k) => (Remove(d, k), if Has(d, k) then Done else KeyError)
    case Contains(k) => (d, Flag(Has(d, k)))
    case Len => (d, Count(|d|))
    case Items => (d, Listing(d))
    case GetOrElse(k, default) => (d, Result(GetOr(Get(d, k), default)))
    case Pop(k) => (Remove(d, k), Found(Get(d, k)))
    case PopOrElse(k, default) => (Remove(d, k), Result(GetOr(Get(d, k), default)))
    case SetDefault(k, default) =>
      if Has(d, k) then (d, Result(Get(d, k).value)) else (Put(d, k, default), Result(default))
  }

  function CountMine(d: Data, c: Scope): nat {
    if d == [] then 0 else (if IsMine(c, d[0].0) then 1 else 0) + CountMine(d[1..], c)
  }

  /** AccountRegionScopedDict in request scope `c`. */
  function ScopedStep(d: Data, c: Scope, op: Op): (Data, Response) {
    match op
    case SetItem(k, v) => (Put(d, ScopedKey(c, k), v), Done)
    case GetItem(k) => (d, Found(Get(d, ScopedKey(c, k))))
    case DelItem(k) => (Remove(d, ScopedKey(c, k)), if Has(d, ScopedKey(c, k)) then Done else KeyError)
    case Contains(k) => (d, Flag(Has(d, ScopedKey(c, k))))
    case Len => (d, Count(CountMine(d, c)))
    case Items => (d, Listing(View(d, c)))
    case GetOrElse(k, default) => (d, Result(GetOr(Get(d, ScopedKey(c, k)), default)))
    case Pop(k) => (Remove(d, ScopedKey(c, k)), Found(Get(d, ScopedKey(c, k))))
    case PopOrElse(k, default) =>
      (Remove(d, ScopedKey(c, k)), Result(GetOr(Get(d, ScopedKey(c, k)), default)))
    case SetDefault(k, default) =>
      if Has(d, ScopedKey(c, k)) then (d, Result(Get(d, ScopedKey(c, k)).value))
      else (Put(d, ScopedKey(c, k), default), Result(default))
  }

  lemma {:induction false} CountView(d: Data, c: Scope)
    ensures CountMine(d, c) == |View(d, c)|
  {
    if d != [] {
      CountView(d[1..], c);
    }
  }

  /** An operation in scope `w` acts as on the dictionary of `w` alone, answers as that
      dictionary would, and leaves the dictionary of every other scope as it was. */
  lemma ScopeIsolation(d: Data, w: Scope, op: Op, c: Scope)
    ensures View(ScopedStep(d, w, op).0, c) == if c == w then LocalStep(View(d, w), op).0 else View(d, c)
    ensures ScopedStep(d, w, op).1 == LocalStep(View(d, w), op).1
  {
    CountView(d, w);
    match op
    case Len =>
    case Items =>
    case SetItem(k, v) => ViewPut(d, w, k, v, c);
    case SetDefault(k, default) => ViewPut(d, w, k, default, c); ViewGet(d, w, k);
    case _ => ViewRemove(d, w, op.k, c); ViewGet(d, w, op.k);
  }

  /** A request: the scope it runs in and the operation it performs. */
  type Trace = seq<(Scope, Op)>

  function Run(d: Data, t: Trace): (r: (Data, seq<Response>))
    ensures |r.1| == |t|
    decreases |t|
  {
    if t == [] then (d, [])
    else
      var (d', a) := ScopedStep(d, t[0].0, t[0].1);
      var (d'', rest) := Run(d', t[1..]);
      (d'', [a] + rest)
  }

  function LocalRun(d: Store, ops: seq<Op>): (Store, seq<Response>)
    decreases |ops|
  {
    if ops == [] then (d, [])
    else
      var (d', a) := LocalStep(d, ops[0]);
      var (d'', rest) := LocalRun(d', ops[1..]);
      (d'', [a] + rest)
  }

  function OpsOf(t: Trace, c: Scope): seq<Op> {
    if t == [] then [] else (if t[0].0 == c then [t[0].1] else []) + OpsOf(t[1..], c)
  }

  function AnswersTo(t: Trace, answers: seq<Response>, c: Scope): seq<Response>
    requires |answers| == |t|
  {
    if t == [] then [] else (if t[0].0 == c then [answers[0]] else []) + AnswersTo(t[1..], answers[1..], c)
  }

  /** Whatever the interleaving, each scope gets an independent dictionary: its contents and
      all its answers are those of running its own operations alone. */
  lemma {:induction false} RunsAreIndependent(d: Data, t: Trace, c: Scope)
    ensures var (d', answers) := Run(d, t);
            var (own, ownAnswers) := LocalRun(View(d, c), OpsOf(t, c));
            View(d', c) == own && AnswersTo(t, answers, c) == ownAnswers
    decreases |t|
  {
    if t != [] {
      var (w, op) := t[0];
      var (d', a) := ScopedStep(d, w, op);
      ScopeIsolation(d, w, op, c);
      RunsAreIndependent(d', t[1..], c);
      var (_, rest) := Run(d', t[1..]);
      var (_, answers) := Run(d, t);
      assert answers[0] == a && answers[1..] == rest;
      if w == c {
        var ops := OpsOf(t, c);
        assert ops[0] == op && ops[1..] == OpsOf(t[1..], c);
        assert LocalRun(View(d, c), ops).1 == [a] + LocalRun(View(d', c), ops[1..]).1;
      } else {
        assert OpsOf(t, c) == OpsOf(t[1..], c);
        assert AnswersTo(t, answers, c) == AnswersTo(t[1..], rest, c);
      }
    }
  }

  // ---------------------------------------------------------------------
  // Finding a region in legacy data
  // ---------------------------------------------------------------------

  /** Non-empty region of a string shaped like an ARN. */
  function ArnRegion(s: string): Option<string> {
    match Arn.Parse(s)
    case Parsed(a) => if a.region == "" then None else Some(a.region)
    case _ => None
  }

  function Lower(c: char): char {
    if 'A' <= c <= 'Z' then c - 'A' + 'a' else c
  }

  /** `isinstance(key, str) and key.lower().endswith("arn")` */
  predicate IsArnKey(k: Value) {
    k.Str? && |k.s| >= 3 &&
    Lower(k.s[|k.s| - 3]) == 'a' && Lower(k.s[|k.s| - 2]) == 'r' && Lower(k.s[|k.s| - 1]) == 'n'
  }

  function RegionIn(v: Value): Option<string>
    decreases v, 1
  {
    match v
    case Str(s) => ArnRegion(s)
    case Dict(entries) => RegionInNamedFirst(entries)
    case List(items) => RegionInItems(items)
    case Tuple(items) => RegionInItems(items)
    case Set(items) => RegionInItems(items)
    case _ => None
  }

  /** Values under keys that end in "arn" are searched before all values. */
  function RegionInNamedFirst(es: seq<(Value, Value)>): Option<string>
    decreases es, 1
  {
    var r := RegionInEntries(es, true);
    if r.Some? then r else RegionInEntries(es, false)
  }

  /** First region among the values; with `named`, only under keys that end in "arn". */
  function RegionInEntries(es: seq<(Value, Value)>, named: bool): Option<string>
    decreases es, 0
  {
    if es == [] then None
    else
      var e := es[0];
      assert e.1 < e;
      var r := if named && !IsArnKey(e.0) then None else RegionIn(e.1);
      if r.Some? then r else RegionInEntries(es[1..], named)
  }

  function RegionInItems(vs: seq<Value>): Option<string>
    decreases vs, 0
  {
    if vs == [] then None
    else
      var r := RegionIn(vs[0]);
      if r.Some? then r else RegionInItems(vs[1..])
  }

  /** The strings nested in a value: dict values and list, tuple and set elements. */
  function Leaves(v: Value): set<string>
    decreases v, 1
  {
    match v
    case Str(s) => {s}
    case Dict(entries) => EntryLeaves(entries)
    case List(items) => ItemLeaves(items)
    case Tuple(items) => ItemLeaves(items)
    case Set(items) => ItemLeaves(items)
    case _ => {}
  }

  function EntryLeaves(es: seq<(Value, Value)>): set<string>
    decreases es, 0
  {
    if es == [] then {}
    else
      var e := es[0];
      assert e.1 < e;
      Leaves(e.1) + EntryLeaves(es[1..])
  }

  function ItemLeaves(vs: seq<Value>): set<string>
    decreases vs, 0
  {
    if vs == [] then {} else Leaves(vs[0]) + ItemLeaves(vs[1..])
  }

  /** `r` is the region of some ARN among the strings; it is None exactly if there is none
      (`complete`), or perhaps also if there is one. */
  ghost predicate Shows(leaves: set<string>, r: Option<string>, complete: bool) {
    (r.Some? ==> exists s :: s in leaves && ArnRegion(s) == r) &&
    (r.None? && complete ==> forall s :: s in leaves ==> ArnRegion(s).None?)
  }

  lemma ShowsFirst(a: set<string>, x: Option<string>, b: set<string>, y: Option<string>, complete: bool)
    requires Shows(a, x, complete) && Shows(b, y, complete)
    ensures Shows(a + b, if x.Some? then x else y, complete)
  {
    if x.Some? {
      var s :| s in a && ArnRegion(s) == x;
      assert s in a + b;
    } else if y.Some? {
      var s :| s in b && ArnRegion(s) == y;
      assert s in a + b;
    }
  }

  /** A region is found exactly when some nested string is an ARN with a region, and the
      region found is that of such an ARN. */
  lemma RegionInExact(v: Value)
    ensures RegionIn(v).Some? <==> exists s :: s in Leaves(v) && ArnRegion(s).Some?
    ensures RegionIn(v).Some? ==> exists s :: s in Leaves(v) && ArnRegion(s) == RegionIn(v)
  {
    RegionInShows(v);
  }

  lemma StringShows(s: string)
    ensures Shows({s}, ArnRegion(s), true)
  {
    assert s in {s};
  }

  lemma Unfolded(v: Value)
    ensures v.Dict? ==> Leaves(v) == EntryLeaves(v.entries) && RegionIn(v) == RegionInNamedFirst(v.entries)
    ensures v.List? || v.Tuple? || v.Set? ==>
              Leaves(v) == ItemLeaves(v.items) && RegionIn(v) == RegionInItems(v.items)
    ensures v.Str? ==> Leaves(v) == {v.s} && RegionIn(v) == ArnRegion(v.s)
    ensures !(v.Dict? || v.List? || v.Tuple? || v.Set? || v.Str?) ==> Leaves(v) == {} && RegionIn(v) == None
  {
  }

  lemma {:induction false} RegionInShows(v: Value)
    ensures Shows(Leaves(v), RegionIn(v), true)
    decreases v, 2
  {
    Unfolded(v);
    if v.Dict? {
      RegionInDictShows(v.entries);
    } else if v.List? || v.Tuple? || v.Set? {
      RegionInItemsShows(v.items);
    } else if v.Str? {
      StringShows(v.s);
    }
  }

  lemma {:induction false} RegionInDictShows(es: seq<(Value, Value)>)
    ensures Shows(EntryLeaves(es), RegionInNamedFirst(es), true)
    decreases es, 1
  {
    RegionInEntriesShows(es, true);
    RegionInEntriesShows(es, false);
  }

  lemma {:induction false} RegionInEntriesShows(es: seq<(Value, Value)>, named: bool)
    ensures Shows(EntryLeaves(es), RegionInEntries(es, named), !named)
    decreases es, 0
  {
    if es != [] {
      var e := es[0];
      assert e.1 < e;
      RegionInShows(e.1);
      RegionInEntriesShows(es[1..], named);
      var r := if named && !IsArnKey(e.0) then None else RegionIn(e.1);
      ShowsFirst(Leaves(e.1), r, EntryLeaves(es[1..]), RegionInEntries(es[1..], named), !named);
    }
  }

  lemma {:induction false} RegionInItemsShows(vs: seq<Value>)
    ensures Shows(ItemLeaves(vs), RegionInItems(vs), true)
    decreases vs, 0
  {
    if vs != [] {
      RegionInShows(vs[0]);
      RegionInItemsShows(vs[1..]);
      ShowsFirst(Leaves(vs[0]), RegionIn(vs[0]), ItemLeaves(vs[1..]), RegionInItems(vs[1..]), true);
    }
  }

  // ---------------------------------------------------------------------
  // update(): merging, and migrating stores that had no region
  // ---------------------------------------------------------------------

  /** `_region_for_legacy_value`; a region that is found is never empty. */
  function RegionFor(k: Value, v: Value, current: string): string {
    if RegionIn(k).Some? then RegionIn(k).value
    else if RegionIn(v).Some? then RegionIn(v).value
    else current
  }

  function Migrated(es: Entries<(string, Value), Value>, current: string): (r: Data)
    ensures |r| == |es|
    ensures forall i :: 0 <= i < |es| ==>
              r[i] == ((es[i].0.0, RegionFor(es[i].0.1, es[i].1, current), es[i].0.1), es[i].1)
  {
    seq(|es|, i requires 0 <= i < |es| =>
      ((es[i].0.0, RegionFor(es[i].0.1, es[i].1, current), es[i].0.1), es[i].1))
  }

  function WithAccount(account: string, es: Store): (r: Entries<(string, Value), Value>)
    ensures |r| == |es| && forall i :: 0 <= i < |es| ==> r[i] == ((account, es[i].0), es[i].1)
  {
    seq(|es|, i requires 0 <= i < |es| => ((account, es[i].0), es[i].1))
  }

  /** Migrating into an empty store keeps every entry, in order, under its own account and
      key, in the region the search chose: none is lost and no two are merged. */
  lemma MigrationLossless(es: Entries<(string, Value), Value>, current: string)
    requires UniqueKeys(es)
    ensures PutAll([], Migrated(es, current)) == Migrated(es, current)
    ensures UniqueKeys(Migrated(es, current))
  {
    var r := Migrated(es, current);
    forall i, j | 0 <= i < j < |r|
      ensures r[i].0 != r[j].0
    {
      assert es[i].0 != es[j].0;
    }
    PutAllNew<Key, Value>([], r);
  }

  /** `region` is that of an ARN among the strings. */
  ghost predicate Names(leaves: set<string>, region: string) {
    exists s :: s in leaves && ArnRegion(s) == Some(region)
  }

  ghost predicate NamesNone(leaves: set<string>) {
    forall s :: s in leaves ==> ArnRegion(s).None?
  }

  /** Each migrated entry keeps account, key and value.  Its region is that of an ARN in its
      key, or, where the key has none, of an ARN in its value, or else the request's. */
  lemma MigratedRegions(es: Entries<(string, Value), Value>, current: string, i: nat)
    requires i < |es|
    ensures var ((account, key), value) := es[i];
            var (k, v) := Migrated(es, current)[i];
            k.0 == account && k.2 == key && v == value &&
            if !NamesNone(Leaves(key)) then Names(Leaves(key), k.1)
            else if !NamesNone(Leaves(value)) then Names(Leaves(value), k.1)
            else k.1 == current
  {
    RegionInShows(es[i].0.1);
    RegionInShows(es[i].1);
  }

  /** An ARN has a region exactly if it is the text of a record whose header fields have no
      colon and whose region is not empty. */
  lemma ArnRegionExactly(s: string, region: string)
    ensures ArnRegion(s) == Some(region) <==>
            region != "" && exists a :: Arn.HeaderHasNoColon(a) && a.region == region && Arn.Print(a) == s
  {
    if ArnRegion(s) == Some(region) {
      var a := Arn.Parse(s).arn;
      Arn.PrintParsed(s);
      Arn.ParsePrinted(a);
      assert Arn.HeaderHasNoColon(a) && a.region == region && Arn.Print(a) == s;
    }
    if region != "" && exists a :: Arn.HeaderHasNoColon(a) && a.region == region && Arn.Print(a) == s {
      var a :| Arn.HeaderHasNoColon(a) && a.region == region && Arn.Print(a) == s;
      Arn.ParsePrinted(a);
    }
  }

  /** A string that ends in "arn", in letters of either case. */
  ghost predicate EndsInArn(k: Value) {
    k.Str? && |k.s| >= 3 &&
    k.s[|k.s| - 3] in {'a', 'A'} && k.s[|k.s| - 2] in {'r', 'R'} && k.s[|k.s| - 1] in {'n', 'N'}
  }

  lemma ArnKeyExactly(k: Value)
    ensures IsArnKey(k) <==> EndsInArn(k)
  {
  }

  /** Entry `k` is the first under a key that ends in "arn" whose value has a region, and its
      value is the ARN `s`. */
  ghost predicate FirstNamed(es: seq<(Value, Value)>, k: nat, s: string)
    requires k < |es|
  {
    EndsInArn(es[k].0) && es[k].1 == Str(s) && ArnRegion(s).Some? &&
    forall j :: 0 <= j < k && EndsInArn(es[j].0) ==> NamesNone(Leaves(es[j].1))
  }

  lemma FirstNamedTail(es: seq<(Value, Value)>, k: nat, s: string)
    requires 0 < k < |es| && FirstNamed(es, k, s)
    ensures FirstNamed(es[1..], k - 1, s)
    ensures EndsInArn(es[0].0) ==> NamesNone(Leaves(es[0].1))
  {
    forall j | 0 <= j < k - 1 && EndsInArn(es[1..][j].0)
      ensures NamesNone(Leaves(es[1..][j].1))
    {
      assert es[1..][j] == es[j + 1];
    }
  }

  lemma SkipEntry(es: seq<(Value, Value)>)
    requires es != [] && (EndsInArn(es[0].0) ==> NamesNone(Leaves(es[0].1)))
    ensures RegionInEntries(es, true) == RegionInEntries(es[1..], true)
  {
    ArnKeyExactly(es[0].0);
    RegionInShows(es[0].1);
  }

  lemma TakeEntry(es: seq<(Value, Value)>, s: string)
    requires es != [] && EndsInArn(es[0].0) && es[0].1 == Str(s) && ArnRegion(s).Some?
    ensures RegionInEntries(es, true) == ArnRegion(s)
  {
    ArnKeyExactly(es[0].0);
  }

  lemma {:induction false} FirstNamedFound(es: seq<(Value, Value)>, k: nat, s: string)
    requires k < |es| && FirstNamed(es, k, s)
    ensures RegionInEntries(es, true) == ArnRegion(s)
    decreases k
  {
    if k == 0 {
      TakeEntry(es, s);
    } else {
      FirstNamedTail(es, k, s);
      SkipEntry(es);
      FirstNamedFound(es[1..], k - 1, s);
    }
  }

  /** In a dictionary the values under keys that end in "arn" are searched first, in order. */
  lemma NamedEntryFirst(es: seq<(Value, Value)>, k: nat, s: string)
    requires k < |es| && FirstNamed(es, k, s)
    ensures RegionIn(Dict(es)) == ArnRegion(s)
  {
    FirstNamedFound(es, k, s);
    assert ArnRegion(s).Some?;
  }

  /** In a record, an ARN under a key that ends in "arn" gives the region of the migrated entry,
      whatever other ARNs the record holds. */
  lemma NamedArnDecides(es: Entries<(string, Value), Value>, current: string, i: nat, k: nat, s: string)
    requires i < |es| && NamesNone(Leaves(es[i].0.1)) && es[i].1.Dict?
    requires k < |es[i].1.entries| && FirstNamed(es[i].1.entries, k, s)
    ensures Some(Migrated(es, current)[i].0.1) == ArnRegion(s)
  {
    var fields := es[i].1.entries;
    NamedEntryFirst(fields, k, s);
    KeyShowsNone(es[i].0.1);
    assert es[i].1 == Dict(fields);
  }

  lemma KeyShowsNone(key: Value)
    requires NamesNone(Leaves(key))
    ensures RegionIn(key).None?
  {
    RegionInShows(key);
  }

  class AccountRegionScopedDict {
    var data: Data

    constructor ()
      ensures data == []
    {
      data := [];
    }

    method Perform(c: Scope, op: Op) returns (r: Response)
      modifies this
      ensures data == ScopedStep(old(data), c, op).0 && r == ScopedStep(old(data), c, op).1
    {
      match op {
        case SetItem(k, v) =>
          data := Put(data, ScopedKey(c, k), v);
          r := Done;
        case GetItem(k) =>
          r := Found(Get(data, ScopedKey(c, k)));
        case DelItem(k) =>
          r := if Has(data, ScopedKey(c, k)) then Done else KeyError;
          data := Remove(data, ScopedKey(c, k));
        case Contains(k) =>
          r := Flag(Has(data, ScopedKey(c, k)));
        case Len =>
          var n := Length(c);
          CountView(data, c);
          r := Count(n);
        case Items =>
          var items := ItemsOf(c);
          r := Listing(items);
        case GetOrElse(k, default) =>
          r := Result(GetOr(Get(data, ScopedKey(c, k)), default));
        case Pop(k) =>
          r := Found(Get(data, ScopedKey(c, k)));
          data := Remove(data, ScopedKey(c, k));
        case PopOrElse(k, default) =>
          r := Result(GetOr(Get(data, ScopedKey(c, k)), default));
          data := Remove(data, ScopedKey(c, k));
        case SetDefault(k, default) =>
          if !Has(data, ScopedKey(c, k)) {
            data := Put(data, ScopedKey(c, k), default);
            PutGet(old(data), ScopedKey(c, k), default, ScopedKey(c, k));
          }
          r := Result(Get(data, ScopedKey(c, k)).value);
      }
    }

    method Length(c: Scope) returns (n: nat)
      ensures n == |View(data, c)|
    {
      n := 0;
      for i := 0 to |data|
        invariant n == |View(data[..i], c)|
      {
        assert data[..i + 1] == data[..i] + [data[i]];
        ViewAppend(data[..i], [data[i]], c);
        if IsMine(c, data[i].0) {
          n := n + 1;
        }
      }
      assert data[..|data|] == data;
    }

    method ItemsOf(c: Scope) returns (items: Store)
      ensures items == View(data, c)
    {
      items := [];
      for i := 0 to |data|
        invariant items == View(data[..i], c)
      {
        assert data[..i + 1] == data[..i] + [data[i]];
        ViewAppend(data[..i], [data[i]], c);
        if IsMine(c, data[i].0) {
          items := items + [(data[i].0.2, data[i].1)];
        }
      }
      assert data[..|data|] == data;
    }

    method UpdateFromRegionScoped(other: AccountRegionScopedDict)
      modifies this
      ensures data == PutAll(old(data), old(other.data))
    {
      var es := other.data;
      for i := 0 to |es|
        invariant data == PutAll(old(data), es[..i])
      {
        assert es[..i + 1] == es[..i] + [(es[i].0, es[i].1)];
        PutAllAppend(old(data), es[..i], es[i].0, es[i].1);
        data := Put(data, es[i].0, es[i].1);
      }
      assert es[..|es|] == es;
    }

    /** The flat map of an AccountScopedDict: every account's entries, wherever the request
        that restores the state runs. */
    method UpdateFromAccountScoped(c: Scope, es: Entries<(string, Value), Value>)
      modifies this
      ensures data == PutAll(old(data), Migrated(es, c.region))
    {
      for i := 0 to |es|
        invariant data == PutAll(old(data), Migrated(es[..i], c.region))
      {
        var ((account, key), value) := es[i];
        var region := RegionFor(key, value, c.region);
        assert Migrated(es[..i + 1], c.region) ==
               Migrated(es[..i], c.region) + [((account, region, key), value)];
        PutAllAppend(old(data), Migrated(es[..i], c.region), (account, region, key), value);
        data := Put(data, (account, region, key), value);
      }
      assert es[..|es|] == es;
    }

    method UpdateFromDict(c: Scope, es: Store)
      modifies this
      ensures data == PutAll(old(data), Migrated(WithAccount(c.account, es), c.region))
    {
      UpdateFromAccountScoped(c, WithAccount(c.account, es));
    }

    method Clear()
      modifies this
      ensures forall c :: View(data, c) == []
    {
      data := [];
    }
  }
}
